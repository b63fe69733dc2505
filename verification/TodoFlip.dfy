/** The checked row flip (scripts/todo_flip.py:80-205): one TODO.md row is located by id,
    rebuilt from its cells and written back, every structural check before the write. */
module TodoFlip {
  import opened Text
  import opened Table
  import Ring

  const EXPECTED_CELLS := 6
  const LEGAL_STATUSES: seq<string> := ["todo", "in-progress", "blocked", "done", "open", "proposed"]

  datatype FlipError =
    | NoFile
    | MatchCount(count: nat)
    | CellCount(cells: nat)
    | BadStatus
    | Hazard(found: char, pos: nat)
    | Physical(lines: nat)

  /** A successful flip: where, the rebuilt row, and the lines that are written. */
  datatype Flipped = Flipped(at: nat, row: string, lines: seq<string>)

  /** A data row found by its id. */
  datatype Match = Match(at: nat, cells: seq<string>)

  predicate HasId(line: string, id: string) {
    RowCells(line).Some? && RowCells(line).value[0] == id
  }

  /** The id names the row at index i and no other. */
  predicate Unique(lines: seq<string>, id: string, i: nat) {
    && i < |lines| && HasId(lines[i], id)
    && forall j :: 0 <= j < |lines| && j != i ==> !HasId(lines[j], id)
  }

  /** The rows below index n that the id matches. */
  function Matches(lines: seq<string>, id: string, n: nat): (m: seq<Match>)
    requires n <= |lines|
    ensures forall k :: 0 <= k < |m| ==> m[k].at < n
  {
    if n == 0 then []
    else
      var m := Matches(lines, id, n - 1);
      match RowCells(lines[n - 1])
      case None => m
      case Some(cells) => if cells[0] == id then m + [Match(n - 1, cells)] else m
  }

  lemma {:induction false} NoMatches(lines: seq<string>, id: string, n: nat)
    requires n <= |lines|
    ensures Matches(lines, id, n) == [] <==> forall j :: 0 <= j < n ==> !HasId(lines[j], id)
  {
    hide RowCells;
    if n > 0 { NoMatches(lines, id, n - 1); }
  }

  lemma {:induction false} OneMatch(lines: seq<string>, id: string, n: nat, i: nat)
    requires n <= |lines|
    ensures (|Matches(lines, id, n)| == 1 && Matches(lines, id, n)[0].at == i)
       <==> (&& i < n && HasId(lines[i], id)
             && forall j :: 0 <= j < n && j != i ==> !HasId(lines[j], id))
    ensures forall m :: m in Matches(lines, id, n) ==> m.at < n && RowCells(lines[m.at]) == Some(m.cells)
  {
    hide RowCells;
    if n > 0 {
      OneMatch(lines, id, n - 1, i);
      NoMatches(lines, id, n - 1);
    }
  }

  function NewCells(cells: seq<string>, status: string, notes: Option<string>): (r: seq<string>)
    requires |cells| == EXPECTED_CELLS
    ensures |r| == EXPECTED_CELLS && r[..4] == cells[..4]
  {
    cells[4 := status][5 := if notes.Some? then Strip(notes.value) else cells[5]]
  }

  /** What a flip does to the lines: the first check that fails, or the new lines. */
  function Flip(lines: seq<string>, id: string, status: string, notes: Option<string>): Result<Flipped, FlipError> {
    var m := Matches(lines, id, |lines|);
    if |m| != 1 then Err(MatchCount(|m|)) else
    var at, cells := m[0].at, m[0].cells;
    if |cells| != EXPECTED_CELLS then Err(CellCount(|cells|))
    else if status !in LEGAL_STATUSES then Err(BadStatus)
    else if notes.Some? && '|' in notes.value then Err(Hazard('|', IndexOf(notes.value, '|')))
    else if notes.Some? && '\n' in notes.value then Err(Hazard('\n', IndexOf(notes.value, '\n')))
    else
      var row := Row(NewCells(cells, status, notes));
      if PhysicalLines(row) != 1 then Err(Physical(PhysicalLines(row)))
      else Ok(Flipped(at, row, lines[at := row]))
  }

  /** The text a flip leaves in the file. */
  function Written(f: Flipped): string { Join(f.lines, "\n") }

  /** TODO.md on disk; None when the path names no file. */
  class TodoFile {
    var content: Option<string>

    method FlipRow(id: string, status: string, notes: Option<string>) returns (r: Result<string, FlipError>)
      modifies this
      ensures old(content).None? ==> r == Err(NoFile) && content == None
      ensures old(content).Some? ==>
        var want := Flip(Lines(old(content).value), id, status, notes);
        && (want.Err? ==> r == Err(want.error) && content == old(content))
        && (want.Ok? ==> r == Ok(want.value.row) && content == Some(Written(want.value)))
    {
      hide RowCells, Row, PhysicalLines, Lines, NewCells, IndexOf, Join;
      if content.None? { return Err(NoFile); }
      var lines := Lines(content.value);
      var matches := [];
      for idx := 0 to |lines|
        invariant content == old(content) && matches == Matches(lines, id, idx)
      {
        var cells := RowCells(lines[idx]);
        if cells.Some? {
          FirstCell(lines[idx]);
          if cells.value[0] == id { matches := matches + [Match(idx, cells.value)]; }
        }
      }
      if |matches| != 1 { return Err(MatchCount(|matches|)); }
      var at, cells := matches[0].at, matches[0].cells;
      if |cells| != EXPECTED_CELLS { return Err(CellCount(|cells|)); }
      if status !in LEGAL_STATUSES { return Err(BadStatus); }
      if notes.Some? {
        if '|' in notes.value { return Err(Hazard('|', IndexOf(notes.value, '|'))); }
        if '\n' in notes.value { return Err(Hazard('\n', IndexOf(notes.value, '\n'))); }
      }
      var row := Row(NewCells(cells, status, notes));
      if PhysicalLines(row) != 1 { return Err(Physical(PhysicalLines(row))); }
      var newLines := Splice(lines, at, row);
      content := Some(Join(newLines, "\n"));
      return Ok(row);
    }
  }

  lemma FirstCell(line: string)
    requires RowCells(line).Some?
    ensures RowCells(line).value != []
  {}

  /** `_splice` and the carry assertion behind it, which no spliced row can trip. */
  method Splice(lines: seq<string>, at: nat, row: string) returns (newLines: seq<string>)
    requires at < |lines|
    ensures newLines == lines[at := row]
  {
    newLines := lines[..at] + [row] + lines[at + 1..];
    var broken := Ring.ByteCarry(lines[..at] + lines[at + 1..], newLines);
    OthersAreCarried(lines, at, row);
    assert broken.None?;
  }

  lemma OthersAreCarried(lines: seq<string>, i: nat, row: string)
    requires i < |lines|
    ensures Ring.IsSubsequence(lines[..i] + lines[i + 1..], lines[..i] + [row] + lines[i + 1..])
  {
    var others := lines[..i] + lines[i + 1..];
    var at: seq<nat> := seq(|others|, k requires 0 <= k => if k < i then k else k + 1);
    assert Ring.Embeds(others, lines[..i] + [row] + lines[i + 1..], at);
  }

  // ----- when a flip succeeds -----

  ghost predicate CleanNotes(notes: Option<string>) {
    notes.Some? ==> '|' !in notes.value && '\n' !in notes.value && NoBreaks(Strip(notes.value))
  }

  /** The target row's own cells, none of those that stay holding a line separator. */
  ghost predicate GoodTarget(lines: seq<string>, id: string, notes: Option<string>, at: nat, cells: seq<string>) {
    && Unique(lines, id, at) && RowCells(lines[at]) == Some(cells) && |cells| == EXPECTED_CELLS
    && (forall i :: 0 <= i < 4 ==> NoBreaks(cells[i]))
    && (notes.None? ==> NoBreaks(cells[5]))
  }

  lemma LegalAre(status: string)
    ensures status in LEGAL_STATUSES <==> status in {"todo", "in-progress", "blocked", "done", "open", "proposed"}
  {
    var legal := LEGAL_STATUSES;
    assert legal[0] == "todo" && legal[1] == "in-progress" && legal[2] == "blocked" && legal[3] == "done";
    assert legal[4] == "open" && legal[5] == "proposed";
  }

  /** A flip succeeds exactly when the id names one six-cell row, the status is legal, and no
      cell that stays or comes in holds a pipe or a line separator. */
  lemma FlipAccepts(lines: seq<string>, id: string, status: string, notes: Option<string>)
    ensures Flip(lines, id, status, notes).Ok?
       <==> (&& status in {"todo", "in-progress", "blocked", "done", "open", "proposed"} && CleanNotes(notes)
             && exists at: nat, cells :: GoodTarget(lines, id, notes, at, cells))
  {
    LegalAre(status);
    hide RowCells, Row, PhysicalLines, Strip, Matches, NoBreaks, IndexOf;
    var m := Matches(lines, id, |lines|);
    forall at: nat ensures (|m| == 1 && m[0].at == at) <==> Unique(lines, id, at) {
      OneMatch(lines, id, |lines|, at);
    }
    if |m| == 1 {
      var at, cells := m[0].at, m[0].cells;
      OneMatch(lines, id, |lines|, at);
      assert m[0] in m;
      if |cells| == EXPECTED_CELLS && status in LEGAL_STATUSES {
        RowIsOneLine(NewCells(cells, status, notes));
        LegalIsPlain(status);
        CellByCell(cells, status, notes);
        assert GoodTarget(lines, id, notes, at, cells)
          <==> (forall i :: 0 <= i < 4 ==> NoBreaks(cells[i])) && (notes.None? ==> NoBreaks(cells[5]));
      }
    }
  }

  lemma CellByCell(cells: seq<string>, status: string, notes: Option<string>)
    requires |cells| == EXPECTED_CELLS && NoBreaks(status)
    ensures (forall i :: 0 <= i < EXPECTED_CELLS ==> NoBreaks(NewCells(cells, status, notes)[i]))
       <==> (&& (forall i :: 0 <= i < 4 ==> NoBreaks(cells[i]))
             && NoBreaks(if notes.Some? then Strip(notes.value) else cells[5]))
  {
    hide NoBreaks, Strip;
    var r := NewCells(cells, status, notes);
    assert forall i :: 0 <= i < 4 ==> r[i] == cells[i];
    assert r[4] == status && r[5] == if notes.Some? then Strip(notes.value) else cells[5];
    if forall i :: 0 <= i < EXPECTED_CELLS ==> NoBreaks(r[i]) {
      assert NoBreaks(r[0]) && NoBreaks(r[1]) && NoBreaks(r[2]) && NoBreaks(r[3]);
    }
  }

  lemma LegalIsPlain(status: string)
    requires status in LEGAL_STATUSES
    ensures NoBreaks(status) && Cell(status) && !Dashes(status)
  {
    assert status[0] in status && status[0] != '-';
  }

  lemma StripIsCell(s: string)
    requires '|' !in s
    ensures Cell(Strip(s))
  {
    TrimIsTrimmed(IsPySpace, s);
  }

  lemma NewCellsAreData(cells: seq<string>, status: string, notes: Option<string>)
    requires DataCells(cells) && |cells| == EXPECTED_CELLS && status in LEGAL_STATUSES
    requires notes.Some? ==> '|' !in notes.value
    ensures DataCells(NewCells(cells, status, notes))
  {
    hide Cell, Dashes, Strip;
    LegalIsPlain(status);
    var r := NewCells(cells, status, notes);
    if notes.Some? { StripIsCell(notes.value); }
    forall i | 0 <= i < EXPECTED_CELLS ensures Cell(r[i]) {
      if i < 4 { assert r[i] == cells[i]; }
    }
    assert r[4] == status && r[0] == cells[0];
  }

  // ----- what a flip does -----

  /** A successful flip leaves every line but the target as it was; the target's cells are
      the old ones with status and notes replaced, and the id still names that row alone. */
  lemma FlipChangesOneRow(lines: seq<string>, id: string, status: string, notes: Option<string>, f: Flipped)
    requires Flip(lines, id, status, notes) == Ok(f)
    ensures f.at < |lines| && f.lines == lines[f.at := f.row]
    ensures Unique(lines, id, f.at) && Unique(f.lines, id, f.at)
    ensures exists cells ::
      && RowCells(lines[f.at]) == Some(cells) && |cells| == EXPECTED_CELLS
      && RowCells(f.row) == Some(NewCells(cells, status, notes))
      && f.row == Row(NewCells(cells, status, notes))
  {
    hide RowCells, Row, PhysicalLines, Matches, DataCells, Strip, IndexOf;
    var m := Matches(lines, id, |lines|);
    var cells := m[0].cells;
    assert m[0] in m;
    OneMatch(lines, id, |lines|, f.at);
    ParsedIsData(lines[f.at]);
    NewCellsAreData(cells, status, notes);
    var new_cells := NewCells(cells, status, notes);
    RebuildIsData(new_cells);
    assert new_cells[0] == cells[0];
    assert forall j :: 0 <= j < |lines| && j != f.at ==> f.lines[j] == lines[j];
  }

  /** The text written splits into exactly the flipped lines again, whoever reads it. */
  lemma WrittenLines(file: string, id: string, status: string, notes: Option<string>, f: Flipped)
    requires Flip(Lines(file), id, status, notes) == Ok(f)
    ensures '\r' !in Written(f) && Lines(Written(f)) == f.lines
  {
    hide Row, PhysicalLines, RowCells, IndexOf, Strip, Join, Matches;
    var cells := NewCells(Matches(Lines(file), id, |Lines(file)|)[0].cells, status, notes);
    RowIsOneLine(cells);
    assert f.row == Row(cells);
    FileLines(file);
    hide Flip, Lines, NewCells;
    var lines := Lines(file);
    var out := f.lines;
    forall j | 0 <= j < |out| ensures '\n' !in out[j] && '\r' !in out[j] {
      if j != f.at { assert out[j] == lines[j]; }
    }
    LinesJoin(out);
  }

  /** Flipping again with the same arguments finds the same row and writes the same text. */
  lemma FlipAgain(lines: seq<string>, id: string, status: string, notes: Option<string>, f: Flipped)
    requires Flip(lines, id, status, notes) == Ok(f)
    ensures Flip(f.lines, id, status, notes) == Ok(f)
  {
    hide RowCells, Row, PhysicalLines, Matches, IndexOf, Strip;
    FlipChangesOneRow(lines, id, status, notes, f);
    var m := Matches(f.lines, id, |f.lines|);
    OneMatch(f.lines, id, |f.lines|, f.at);
    assert m[0] in m;
    var m0 := Matches(lines, id, |lines|);
    OneMatch(lines, id, |lines|, f.at);
    assert m0[0] in m0;
    assert NewCells(m[0].cells, status, notes) == m[0].cells;
    assert f.lines[f.at := f.row] == f.lines;
  }

  /** A flip of another row before it does not change what a flip does to its own. */
  lemma FlipAfter(lines: seq<string>, a: string, statusA: string, notesA: Option<string>, fa: Flipped,
                  b: string, statusB: string, notesB: Option<string>, fb: Flipped)
    requires a != b
    requires Flip(lines, a, statusA, notesA) == Ok(fa) && Flip(lines, b, statusB, notesB) == Ok(fb)
    ensures fa.at != fb.at && fa.at < |lines| && fb.at < |lines|
    ensures Flip(fa.lines, b, statusB, notesB) == Ok(Flipped(fb.at, fb.row, fa.lines[fb.at := fb.row]))
  {
    hide RowCells, Row, PhysicalLines, Matches, IndexOf, Strip;
    FlipChangesOneRow(lines, a, statusA, notesA, fa);
    FlipChangesOneRow(lines, b, statusB, notesB, fb);
    assert fa.lines[fb.at] == lines[fb.at];
    var m := Matches(fa.lines, b, |fa.lines|);
    OneMatch(fa.lines, b, |fa.lines|, fb.at);
    assert m[0] in m;
    var m0 := Matches(lines, b, |lines|);
    OneMatch(lines, b, |lines|, fb.at);
    assert m0[0] in m0;
  }

  /** Flips of different rows commute: either order writes the same lines. */
  lemma FlipsCommute(lines: seq<string>, a: string, statusA: string, notesA: Option<string>, fa: Flipped,
                     b: string, statusB: string, notesB: Option<string>, fb: Flipped)
    requires a != b
    requires Flip(lines, a, statusA, notesA) == Ok(fa) && Flip(lines, b, statusB, notesB) == Ok(fb)
    ensures exists ab, ba ::
      && Flip(fa.lines, b, statusB, notesB) == Ok(ab) && Flip(fb.lines, a, statusA, notesA) == Ok(ba)
      && ab.lines == ba.lines
  {
    hide Flip, RowCells, Row;
    FlipAfter(lines, a, statusA, notesA, fa, b, statusB, notesB, fb);
    FlipAfter(lines, b, statusB, notesB, fb, a, statusA, notesA, fa);
    FlipChangesOneRow(lines, a, statusA, notesA, fa);
    FlipChangesOneRow(lines, b, statusB, notesB, fb);
    assert fa.lines[fb.at := fb.row] == fb.lines[fa.at := fa.row];
  }

  /** The bytes around the row survive exactly when the file holds no carriage return: it is
      read in text mode, so a flip also rewrites every CR, wherever it stands. */
  lemma OtherTextSurvivesIff(file: string, id: string, status: string, notes: Option<string>, f: Flipped)
    requires Flip(Lines(file), id, status, notes) == Ok(f)
    ensures f.at < |Lines(file)|
    ensures (exists before, after ::
               file == before + (Lines(file)[f.at] + after) && Written(f) == before + (f.row + after))
       <==> '\r' !in file
  {
    hide RowCells, Row, Lines, Join, Flip, Written;
    var lines := Lines(file);
    FlipChangesOneRow(lines, id, status, notes, f);
    WrittenLines(file, id, status, notes, f);
    FileLines(file);
    var row := lines[f.at];
    if '\r' !in file {
      ReadTextPlain(file);
      SameAround(lines, f.at, f.row);
      assert Written(f) == Join(f.lines, "\n") by { JustJoins(f); }
    }
    if before, after :| file == before + (row + after) && Written(f) == before + (f.row + after) {
      assert forall c :: c in before || c in after ==> c in before + (f.row + after);
      assert forall c :: c in before + (row + after) ==> c in before || c in row || c in after;
    }
  }

  const TODO_CELLS: seq<string> := ["T1", "t", "s", "1", "todo", "n"]

  /** One row whose line ends the way other systems end lines. */
  const CRLF_FILE := Row(TODO_CELLS) + "\r\n"

  lemma TodoCell(s: string)
    requires s in TODO_CELLS
    ensures Cell(s) && NoBreaks(s)
  {
    assert !IsPySpace('T') && !IsPySpace('1') && !IsPySpace('t') && !IsPySpace('s') && !IsPySpace('o')
        && !IsPySpace('n');
  }

  lemma TodoRow()
    ensures RowCells(Row(TODO_CELLS)) == Some(TODO_CELLS)
    ensures '\r' !in Row(TODO_CELLS) && '\n' !in Row(TODO_CELLS)
  {
    hide Row, RowCells, Cell, NoBreaks, PhysicalLines;
    forall i | 0 <= i < |TODO_CELLS| ensures Cell(TODO_CELLS[i]) && NoBreaks(TODO_CELLS[i]) {
      TodoCell(TODO_CELLS[i]);
    }
    assert TODO_CELLS[1][0] == 't' && TODO_CELLS[1][0] in TODO_CELLS[1];
    assert TODO_CELLS[0][0] == 'T' && TODO_CELLS[0] != "id";
    RebuildIsData(TODO_CELLS);
    RowIsOneLine(TODO_CELLS);
  }

  lemma CrlfLines()
    ensures Lines(CRLF_FILE) == [Row(TODO_CELLS), ""] && RowCells("") == None
  {
    hide Row, RowCells;
    TodoRow();
    var row := Row(TODO_CELLS);
    ReadTextFront(row, "\r\n");
    assert "\r\n"[2..] == "" && ReadText("\r\n") == "\n";
    PiecesAround(row, '\n', "");
    PiecesWhole(row, '\n');
    assert row + "\n" == row + (['\n'] + "");
    assert RowCells("") == None by { NothingIsNoRow(); }
  }

  lemma NothingIsNoRow()
    ensures RowCells("") == None
  {
    assert Strip("") == "";
  }

  /** A flip that succeeds and loses bytes outside its row: the carriage return is gone. */
  lemma CarriageReturnIsLost()
    ensures exists f ::
      && Flip(Lines(CRLF_FILE), "T1", "done", None) == Ok(f) && f.at == 0
      && '\r' in CRLF_FILE && '\r' !in Written(f)
      && !exists before, after ::
           CRLF_FILE == before + (Lines(CRLF_FILE)[0] + after) && Written(f) == before + (f.row + after)
  {
    hide Row, RowCells, Lines, Flip, Written, NoBreaks;
    TodoRow();
    CrlfLines();
    var lines := Lines(CRLF_FILE);
    forall i | 0 <= i < |TODO_CELLS| ensures NoBreaks(TODO_CELLS[i]) { TodoCell(TODO_CELLS[i]); }
    assert Unique(lines, "T1", 0);
    assert GoodTarget(lines, "T1", None, 0, TODO_CELLS);
    FlipAccepts(lines, "T1", "done", None);
    var f := Flip(lines, "T1", "done", None).value;
    FlipChangesOneRow(lines, "T1", "done", None, f);
    WrittenLines(CRLF_FILE, "T1", "done", None, f);
    OtherTextSurvivesIff(CRLF_FILE, "T1", "done", None, f);
    assert CRLF_FILE[|CRLF_FILE| - 2] == '\r';
  }

  lemma JustJoins(f: Flipped)
    ensures Written(f) == Join(f.lines, "\n")
  {}

  lemma SameAround(lines: seq<string>, at: nat, row: string)
    requires at < |lines|
    ensures exists before, after ::
      && Join(lines, "\n") == before + (lines[at] + after)
      && Join(lines[at := row], "\n") == before + (row + after)
  {
    hide Join;
    JoinAround(lines, at, lines[at], "\n");
    JoinAround(lines, at, row, "\n");
    assert lines[at := lines[at]] == lines;
  }
}
