/** The proposed lane of TODO.md (scripts/ideate.py:130-139, 746-787): which rows are
    proposals, and what the ratification sweep does to them. */
module Lane {
  import opened Text
  import opened Table

  const EXPECTED_CELLS := 6
  const RATIFY_AFTER_DAYS := 7
  const NEVER_FLIP_MARKERS: seq<string> := ["do not dispatch", "operator-owned"]

  /** What the sweep is given: Python's lower casing, the day number of a date text when it
      is a date, and today's day number and ISO text. */
  datatype Env = Env(lower: string -> string, dayOf: string -> Option<int>, today: int, iso: string)

  predicate IsoChar(c: char) { IsDigit(c) || c == '-' }

  /** An ISO date text. */
  predicate Iso(s: string) { s != "" && forall c :: c in s ==> IsoChar(c) }

  /** A row id `P<digits>`. */
  predicate IsPid(id: string) { |id| >= 2 && id[0] == 'P' && AllDigits(id[1..]) }

  function PidNumber(id: string): nat
    requires IsPid(id)
  {
    DecVal(id[1..])
  }

  /** The cells of a proposal row. */
  function PCells(line: string): (r: Option<seq<string>>)
    ensures r.Some? ==> r.value != [] && IsPid(r.value[0])
  {
    match RowCells(line)
    case None => None
    case Some(cells) => if IsPid(cells[0]) then Some(cells) else None
  }

  // ----- eligibility -----

  predicate DateShape(s: string) {
    && |s| == 10 && s[4] == '-' && s[7] == '-'
    && AllDigits(s[..4]) && AllDigits(s[5..7]) && AllDigits(s[8..])
  }

  /** The first `dddd-dd-dd` in the text. */
  function FirstDate(s: string): (r: Option<string>)
    ensures r.Some? ==> s != ""
  {
    if |s| < 10 then None
    else if DateShape(s[..10]) then Some(s[..10])
    else FirstDate(s[1..])
  }

  /** A proposal old enough to flip: still proposed, not marked as the operator's, and with
      a filed date that proves its age. */
  predicate Eligible(env: Env, cells: seq<string>) {
    && |cells| == EXPECTED_CELLS && cells[4] == "proposed"
    && (forall i :: 0 <= i < |NEVER_FLIP_MARKERS| ==> !Contains(env.lower(cells[5]), NEVER_FLIP_MARKERS[i]))
    && FirstDate(cells[5]).Some?
    && var filed := env.dayOf(FirstDate(cells[5]).value);
       filed.Some? && env.today - filed.value >= RATIFY_AFTER_DAYS
  }

  function Stamp(iso: string): string { " \U{2014} auto-ratified " + (iso + " (T326)") }

  function Noted(iso: string, notes: string): string {
    var n := TrimEnd(IsPySpace, notes);
    if Contains(n, "auto-ratified " + iso) then n else n + Stamp(iso)
  }

  function Ratified(iso: string, cells: seq<string>): (r: seq<string>)
    requires |cells| == EXPECTED_CELLS
    ensures |r| == EXPECTED_CELLS
  {
    cells[4 := "open"][5 := Noted(iso, cells[5])]
  }

  /** What the sweep makes of one line. */
  function SweptLine(env: Env, line: string): string {
    var cells := PCells(line);
    if cells.Some? && Eligible(env, cells.value) then Row(Ratified(env.iso, cells.value)) else line
  }

  function Swept(env: Env, lines: seq<string>): seq<string> {
    seq(|lines|, i requires 0 <= i < |lines| => SweptLine(env, lines[i]))
  }

  predicate Flips(env: Env, line: string) {
    PCells(line).Some? && Eligible(env, PCells(line).value)
  }

  /** Ids of the rows that flip among the first n lines, in order. */
  function FlippedIds(env: Env, lines: seq<string>, n: nat): seq<string>
    requires n <= |lines|
  {
    if n == 0 then []
    else
      var ids := FlippedIds(env, lines, n - 1);
      if Flips(env, lines[n - 1]) then ids + [PCells(lines[n - 1]).value[0]] else ids
  }

  // ----- which rows flip, spelled out -----

  /** `dddd-dd-dd`, character by character. */
  ghost predicate IsDateText(d: string) {
    && |d| == 10 && d[4] == '-' && d[7] == '-'
    && '0' <= d[0] <= '9' && '0' <= d[1] <= '9' && '0' <= d[2] <= '9' && '0' <= d[3] <= '9'
    && '0' <= d[5] <= '9' && '0' <= d[6] <= '9' && '0' <= d[8] <= '9' && '0' <= d[9] <= '9'
  }

  ghost predicate DateAt(s: string, i: nat) { i + 10 <= |s| && IsDateText(s[i..i + 10]) }

  ghost predicate FirstDateAt(s: string, i: nat) {
    DateAt(s, i) && forall j: nat :: j < i ==> !DateAt(s, j)
  }

  lemma ShapeIsDate(d: string)
    ensures DateShape(d) <==> IsDateText(d)
  {
    if |d| == 10 {
      assert d[..4] == [d[0], d[1], d[2], d[3]] && d[5..7] == [d[5], d[6]] && d[8..] == [d[8], d[9]];
      assert d[0] in d[..4] && d[1] in d[..4] && d[2] in d[..4] && d[3] in d[..4];
      assert d[5] in d[5..7] && d[6] in d[5..7] && d[8] in d[8..] && d[9] in d[8..];
    }
  }

  lemma LaterDate(s: string, j: nat)
    requires s != ""
    ensures DateAt(s, j + 1) <==> DateAt(s[1..], j)
  {
    hide IsDateText;
    if j + 11 <= |s| { assert s[1..][j..j + 10] == s[j + 1..j + 11]; }
  }

  lemma {:induction false} FirstDateIsLeftmost(s: string) returns (i: nat)
    ensures FirstDate(s).Some? ==> FirstDateAt(s, i) && FirstDate(s) == Some(s[i..i + 10])
    ensures FirstDate(s).None? ==> forall j: nat :: !DateAt(s, j)
  {
    hide DateShape, IsDateText;
    i := 0;
    if |s| >= 10 {
      ShapeIsDate(s[..10]);
      assert s[0..10] == s[..10];
      if !DateAt(s, 0) {
        var m := FirstDateIsLeftmost(s[1..]);
        forall j: nat | j > 0 ensures DateAt(s, j) <==> DateAt(s[1..], j - 1) { LaterDate(s, j - 1); }
        if FirstDate(s).Some? {
          i := m + 1;
          assert s[1..][m..m + 10] == s[i..i + 10];
        }
      }
    }
  }

  lemma OneFirstDate(s: string, i: nat, j: nat)
    requires FirstDateAt(s, i) && FirstDateAt(s, j)
    ensures i == j
  {
  }

  /** A line flips exactly if it is a six-cell row with an id `P<digits>`, still `proposed`, with
      neither marker in its notes, and the first date in the notes is a date at least seven days
      ago. */
  lemma FlipsIff(env: Env, line: string)
    ensures Flips(env, line) <==>
      && RowCells(line).Some?
      && var cells := RowCells(line).value;
         && |cells| == 6 && cells[4] == "proposed"
         && (exists digits :: cells[0] == "P" + digits && digits != "" && AllDigits(digits))
         && !Contains(env.lower(cells[5]), "do not dispatch") && !Contains(env.lower(cells[5]), "operator-owned")
         && exists i: nat, day :: FirstDateAt(cells[5], i) && env.dayOf(cells[5][i..i + 10]) == Some(day) && env.today - day >= 7
  {
    hide RowCells, Contains, FirstDate, AllDigits, FirstDateAt, DateAt, IsPid;
    if RowCells(line).Some? && |RowCells(line).value| == 6 {
      var cells := RowCells(line).value;
      PidSpelled(cells[0]);
      MarkersAre(env.lower(cells[5]));
      AgeIs(env, cells[5]);
    }
  }

  lemma AgeIs(env: Env, notes: string)
    ensures (FirstDate(notes).Some? && env.dayOf(FirstDate(notes).value).Some?
             && env.today - env.dayOf(FirstDate(notes).value).value >= RATIFY_AFTER_DAYS)
       <==> exists i: nat, day :: FirstDateAt(notes, i) && env.dayOf(notes[i..i + 10]) == Some(day) && env.today - day >= 7
  {
    hide FirstDate, IsDateText;
    var m := FirstDateIsLeftmost(notes);
    forall i: nat | FirstDateAt(notes, i) ensures i == m && FirstDate(notes).Some? {
      if FirstDate(notes).Some? { OneFirstDate(notes, i, m); }
    }
    if FirstDate(notes).Some? && env.dayOf(FirstDate(notes).value).Some? {
      assert env.dayOf(notes[m..m + 10]) == Some(env.dayOf(FirstDate(notes).value).value);
    }
  }

  lemma PidSpelled(id: string)
    ensures IsPid(id) <==> exists digits :: id == "P" + digits && digits != "" && AllDigits(digits)
  {
    hide AllDigits;
    if IsPid(id) { assert id == "P" + id[1..]; }
    if digits :| id == "P" + digits && digits != "" && AllDigits(digits) { assert id[1..] == digits; }
  }

  lemma MarkersAre(low: string)
    ensures (forall i :: 0 <= i < |NEVER_FLIP_MARKERS| ==> !Contains(low, NEVER_FLIP_MARKERS[i]))
       <==> !Contains(low, "do not dispatch") && !Contains(low, "operator-owned")
  {
    hide Contains;
    assert NEVER_FLIP_MARKERS[0] == "do not dispatch" && NEVER_FLIP_MARKERS[1] == "operator-owned";
  }

  lemma NotedIs(iso: string, notes: string)
    requires Cell(notes)
    ensures Noted(iso, notes) == if Contains(notes, "auto-ratified " + iso) then notes
                                 else notes + (" \U{2014} auto-ratified " + (iso + " (T326)"))
  {
    hide Contains;
    assert TrimEnd(IsPySpace, notes) == notes;
  }

  /** The flipped row reads `open`, and its notes end in the day's stamp: the one that is there
      already, or a new one behind them. */
  lemma StampIsAdded(env: Env, line: string)
    requires Iso(env.iso) && Flips(env, line)
    ensures var cells, flipped := PCells(line).value, PCells(SweptLine(env, line));
      && |cells| == 6 && flipped.Some? && |flipped.value| == 6
      && flipped.value[..4] == cells[..4] && flipped.value[4] == "open"
      && flipped.value[5] == (if Contains(cells[5], "auto-ratified " + env.iso) then cells[5]
                              else cells[5] + (" \U{2014} auto-ratified " + (env.iso + " (T326)")))
  {
    hide Eligible, Iso, DataCells, Cell, Noted, Contains, SweptLine, PCells;
    FlipIsSound(env, line);
    PCellsAreData(line);
    var cells := PCells(line).value;
    CellOf(cells, 5);
    NotedIs(env.iso, cells[5]);
  }

  /** What the sweep reports is the ids of the rows it flips, in order. */
  lemma {:induction false} ReportedInOrder(env: Env, lines: seq<string>, n: nat) returns (at: seq<nat>)
    requires n <= |lines|
    ensures |at| == |FlippedIds(env, lines, n)|
    ensures forall k :: 0 <= k < |at| ==>
      at[k] < n && Flips(env, lines[at[k]]) && PCells(lines[at[k]]).value[0] == FlippedIds(env, lines, n)[k]
    ensures forall j, k :: 0 <= j < k < |at| ==> at[j] < at[k]
    ensures forall i :: 0 <= i < n && Flips(env, lines[i]) ==> i in at
  {
    hide PCells, Eligible;
    at := [];
    if n > 0 {
      at := ReportedInOrder(env, lines, n - 1);
      if Flips(env, lines[n - 1]) { at := at + [n - 1]; }
    }
  }

  // ----- what the sweep does -----

  lemma PCellsAreData(line: string)
    requires PCells(line).Some?
    ensures DataCells(PCells(line).value) && RowCells(line) == PCells(line)
  {
    hide DataCells, IsPid;
    ParsedIsData(line);
  }

  lemma NotedIsCell(iso: string, notes: string)
    requires Cell(notes) && notes != "" && Iso(iso)
    ensures Cell(Noted(iso, notes)) && notes <= Noted(iso, notes)
  {
    assert TrimEnd(IsPySpace, notes) == notes;
    var stamped := notes + Stamp(iso);
    assert stamped[|stamped| - 1] == ')' && !IsPySpace(')');
    assert '|' !in Stamp(iso) by {
      assert !IsoChar('|');
      assert '|' !in " \U{2014} auto-ratified " && '|' !in " (T326)";
    }
  }

  lemma RatifiedIsData(iso: string, cells: seq<string>)
    requires DataCells(cells) && |cells| == EXPECTED_CELLS && cells[5] != "" && Iso(iso)
    ensures DataCells(Ratified(iso, cells))
  {
    hide Cell, Noted, Dashes;
    var r := Ratified(iso, cells);
    assert Cell(cells[5]);
    NotedIsCell(iso, cells[5]);
    OpenIsPlain();
    forall i | 0 <= i < EXPECTED_CELLS ensures Cell(r[i]) {
      if i < 4 { assert r[i] == cells[i] && Cell(cells[i]); }
    }
    assert r[4] == "open" && r[0] == cells[0];
  }

  lemma OpenIsPlain()
    ensures Cell("open") && !Dashes("open") && NoBreaks("open")
  {
    var s := "open";
    assert s[0] in s && s[0] != '-';
  }

  /** A row that flips parses into its old cells with the status `open` and its notes kept
      in front of the stamp, and no later sweep flips it again. */
  lemma FlipIsSound(env: Env, line: string)
    requires Iso(env.iso) && Flips(env, line)
    ensures var cells := PCells(line).value;
      && |cells| == EXPECTED_CELLS && cells[4] == "proposed"
      && PCells(SweptLine(env, line)) == Some(Ratified(env.iso, cells))
      && Ratified(env.iso, cells)[..4] == cells[..4]
      && Ratified(env.iso, cells)[4] == "open"
      && cells[5] <= Ratified(env.iso, cells)[5]
    ensures forall later: Env :: !Flips(later, SweptLine(env, line))
  {
    hide RowCells, Row, DataCells, Noted, Contains, FirstDate, Cell;
    var cells := PCells(line).value;
    assert cells[5] != "";
    PCellsAreData(line);
    RatifiedIsData(env.iso, cells);
    var r := Ratified(env.iso, cells);
    RebuildIsData(r);
    assert r[0] == cells[0] && r[4] == "open";
    CellOf(cells, 5);
    NotedIsCell(env.iso, cells[5]);
    assert PCells(SweptLine(env, line)) == Some(r);
    assert "open" != "proposed" by { assert |"open"| != |"proposed"|; }
  }

  lemma CellOf(cells: seq<string>, i: nat)
    requires DataCells(cells) && i < |cells|
    ensures Cell(cells[i])
  {}

  /** The sweep flips exactly the eligible proposal rows and carries every other line. */
  lemma SweepFlipsExactly(env: Env, lines: seq<string>, i: nat)
    requires Iso(env.iso) && i < |lines|
    ensures |Swept(env, lines)| == |lines|
    ensures Swept(env, lines)[i] != lines[i] <==> Flips(env, lines[i])
    ensures RowCells(lines[i]).Some? && !IsPid(RowCells(lines[i]).value[0]) ==> Swept(env, lines)[i] == lines[i]
  {
    hide RowCells, Row, Eligible, Ratified;
    if Flips(env, lines[i]) {
      FlipIsSound(env, lines[i]);
    }
  }

  /** A second sweep with the same day changes nothing and reports no flip. */
  lemma SweepIsIdempotent(env: Env, lines: seq<string>)
    requires Iso(env.iso)
    ensures Swept(env, Swept(env, lines)) == Swept(env, lines)
    ensures FlippedIds(env, Swept(env, lines), |lines|) == []
  {
    hide PCells, Eligible, Row, Ratified;
    var once := Swept(env, lines);
    forall i | 0 <= i < |lines| ensures !Flips(env, once[i]) {
      if Flips(env, lines[i]) { FlipIsSound(env, lines[i]); }
    }
    NoneFlip(env, once, |once|);
    assert forall i :: 0 <= i < |once| ==> SweptLine(env, once[i]) == once[i];
  }

  lemma {:induction false} NoneFlip(env: Env, lines: seq<string>, n: nat)
    requires n <= |lines|
    ensures FlippedIds(env, lines, n) == [] <==> forall i :: 0 <= i < n ==> !Flips(env, lines[i])
  {
    hide Flips, PCells;
    if n > 0 { NoneFlip(env, lines, n - 1); }
  }

  /** The shape assertion stops the sweep exactly for a row that already holds a line
      separator inside a cell. */
  lemma ShapeFailsIff(env: Env, line: string)
    requires Iso(env.iso) && Flips(env, line)
    ensures PhysicalLines(SweptLine(env, line)) == 1
       <==> forall i :: 0 <= i < EXPECTED_CELLS ==> NoBreaks(PCells(line).value[i])
  {
    hide RowCells, Row, DataCells, Noted, Contains, FirstDate, PhysicalLines, NoBreaks, Cell;
    var cells := PCells(line).value;
    FlipIsSound(env, line);
    PCellsAreData(line);
    CellOf(cells, 5);
    var r := Ratified(env.iso, cells);
    RowIsOneLine(r);
    OpenIsPlain();
    NotedBreaks(env.iso, cells[5]);
    NoBreaksInProposed();
    assert forall i :: 0 <= i < 4 ==> r[i] == cells[i];
    assert r[4] == "open" && r[5] == Noted(env.iso, cells[5]);
    assert (forall i :: 0 <= i < 6 ==> NoBreaks(r[i]))
      <==> NoBreaks(r[0]) && NoBreaks(r[1]) && NoBreaks(r[2]) && NoBreaks(r[3]) && NoBreaks(r[5]);
    assert (forall i :: 0 <= i < 6 ==> NoBreaks(cells[i]))
      <==> (&& NoBreaks(cells[0]) && NoBreaks(cells[1]) && NoBreaks(cells[2]) && NoBreaks(cells[3])
            && NoBreaks(cells[5]));
  }

  lemma NoBreaksInProposed()
    ensures NoBreaks("proposed")
  {}

  lemma NotedBreaks(iso: string, notes: string)
    requires Cell(notes) && Iso(iso)
    ensures NoBreaks(Noted(iso, notes)) <==> NoBreaks(notes)
  {
    assert TrimEnd(IsPySpace, notes) == notes;
    hide Contains, TrimEnd;
    assert NoBreaks(Stamp(iso)) by {
      forall c | c in Stamp(iso) ensures !IsLineBreak(c) {
        assert c in " \U{2014} auto-ratified " || IsoChar(c) || c in " (T326)";
      }
    }
    if NoBreaks(notes + Stamp(iso)) {
      forall c | c in notes ensures !IsLineBreak(c) { assert c in notes + Stamp(iso); }
    }
  }
}
