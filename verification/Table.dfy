/** The text layer of the TODO.md table (scripts/todo_flip.py:60-77, scripts/ideate.py:93-127):
    splitting and joining lines, rows parsed into cells, rows rebuilt from cells, and how
    Python reads and splits text. */
module Table {
  import opened Text

  datatype Result<+T, +E> = Ok(value: T) | Err(error: E)

  // ----- splitting and joining -----

  /** `s.split(c)`. */
  function Pieces(s: string, c: char): (r: seq<string>)
    ensures r != []
  {
    if s == "" then [""]
    else if s[0] == c then [""] + Pieces(s[1..], c)
    else
      var r := Pieces(s[1..], c);
      [[s[0]] + r[0]] + r[1..]
  }

  /** `sep.join(ps)`. */
  function Join(ps: seq<string>, sep: string): string {
    if ps == [] then "" else if |ps| == 1 then ps[0] else ps[0] + (sep + Join(ps[1..], sep))
  }

  predicate Free(c: char, ps: seq<string>) { forall i :: 0 <= i < |ps| ==> c !in ps[i] }

  lemma {:induction false} JoinPieces(s: string, c: char)
    ensures Join(Pieces(s, c), [c]) == s
    ensures Free(c, Pieces(s, c))
    ensures forall i, x :: 0 <= i < |Pieces(s, c)| && x in Pieces(s, c)[i] ==> x in s
  {
    if s != "" {
      JoinPieces(s[1..], c);
      var r := Pieces(s[1..], c);
      if s[0] == c {
        assert Pieces(s, c)[1..] == r;
        assert "" + ([c] + Join(r, [c])) == s;
      } else {
        var p := [[s[0]] + r[0]] + r[1..];
        assert p[1..] == r[1..];
        assert Join(p, [c]) == [s[0]] + Join(r, [c]);
      }
    }
  }

  lemma {:induction false} PiecesWhole(s: string, c: char)
    requires c !in s
    ensures Pieces(s, c) == [s]
  {
    if s != "" {
      PiecesWhole(s[1..], c);
      assert [s[0]] + s[1..] == s;
    }
  }

  lemma {:induction false} PiecesAround(a: string, c: char, b: string)
    ensures Pieces(a + ([c] + b), c) == Pieces(a, c) + Pieces(b, c)
  {
    var s := a + ([c] + b);
    if a == "" {
      assert s[1..] == b;
      assert Pieces(a, c) == [""];
    } else {
      assert s[0] == a[0] && s[1..] == a[1..] + ([c] + b);
      PiecesAround(a[1..], c, b);
    }
  }

  lemma {:induction false} PiecesJoin(ps: seq<string>, c: char)
    requires ps != [] && Free(c, ps)
    ensures Pieces(Join(ps, [c]), c) == ps
  {
    PiecesWhole(ps[0], c);
    if |ps| > 1 {
      var rest := ps[1..];
      assert Free(c, rest) by {
        forall i | 0 <= i < |rest| ensures c !in rest[i] { assert rest[i] == ps[i + 1]; }
      }
      PiecesJoin(rest, c);
      PiecesAround(ps[0], c, Join(rest, [c]));
      assert ps == [ps[0]] + rest;
    }
  }

  /** The text before and after the i-th piece. */
  function Before(ps: seq<string>, i: nat, sep: string): string
    requires i < |ps|
  {
    if i == 0 then "" else ps[0] + (sep + Before(ps[1..], i - 1, sep))
  }

  function After(ps: seq<string>, i: nat, sep: string): string
    requires i < |ps|
  {
    if i == |ps| - 1 then "" else sep + Join(ps[i + 1..], sep)
  }

  /** Replacing one line changes only that line's text. */
  lemma {:induction false} JoinAround(ps: seq<string>, i: nat, x: string, sep: string)
    requires i < |ps|
    ensures Join(ps[i := x], sep) == Before(ps, i, sep) + (x + After(ps, i, sep))
  {
    var qs := ps[i := x];
    if i == 0 {
      assert qs[1..] == ps[1..];
      assert x + "" == x;
    } else {
      var rest := ps[1..];
      JoinAround(rest, i - 1, x, sep);
      assert qs[1..] == rest[i - 1 := x];
      assert rest[i..] == ps[i + 1..];
      var before, tail := Before(rest, i - 1, sep), x + After(ps, i, sep);
      assert ps[0] + (sep + (before + tail)) == (ps[0] + (sep + before)) + tail;
    }
  }

  // ----- how Python reads text and splits lines -----

  /** Text mode's universal newlines: a carriage return, alone or before a line feed, is read
      as one line feed. */
  function ReadText(file: string): string
    decreases |file|
  {
    if file == "" then ""
    else if file[0] != '\r' then [file[0]] + ReadText(file[1..])
    else if |file| > 1 && file[1] == '\n' then "\n" + ReadText(file[2..])
    else "\n" + ReadText(file[1..])
  }

  lemma {:induction false} ReadTextHasNoReturn(file: string)
    ensures '\r' !in ReadText(file)
    decreases |file|
  {
    if file != "" {
      if file[0] == '\r' && |file| > 1 && file[1] == '\n' {
        ReadTextHasNoReturn(file[2..]);
      } else {
        ReadTextHasNoReturn(file[1..]);
      }
    }
  }

  lemma {:induction false} ReadTextPlain(file: string)
    ensures ReadText(file) == file <==> '\r' !in file
  {
    ReadTextHasNoReturn(file);
    if file != "" && '\r' !in file {
      ReadTextPlain(file[1..]);
      assert file == [file[0]] + file[1..];
    }
  }

  lemma {:induction false} ReadTextFront(a: string, b: string)
    requires '\r' !in a
    ensures ReadText(a + b) == a + ReadText(b)
  {
    if a == "" {
      assert a + b == b;
    } else {
      assert (a + b)[1..] == a[1..] + b;
      ReadTextFront(a[1..], b);
    }
  }

  /** A carriage return and the line feed behind it are one line feed, any other carriage
      return is one too, and nothing else changes. */
  lemma ReadTextAt(a: string, b: string)
    requires '\r' !in a
    ensures ReadText(a) == a
    ensures ReadText(a + ("\r\n" + b)) == a + ("\n" + ReadText(b))
    ensures (b == "" || b[0] != '\n') ==> ReadText(a + ("\r" + b)) == a + ("\n" + ReadText(b))
  {
    ReadTextPlain(a);
    ReadTextFront(a, "\r\n" + b);
    ReadTextFront(a, "\r" + b);
    assert ("\r\n" + b)[2..] == b && ("\r" + b)[1..] == b;
  }

  /** A file's lines, as both scripts read them. */
  function Lines(file: string): (r: seq<string>) ensures r != [] { Pieces(ReadText(file), '\n') }

  lemma FileLines(file: string)
    ensures forall j :: 0 <= j < |Lines(file)| ==> '\n' !in Lines(file)[j] && '\r' !in Lines(file)[j]
    ensures Join(Lines(file), "\n") == ReadText(file)
  {
    hide ReadText, Pieces, Join;
    JoinPieces(ReadText(file), '\n');
    ReadTextHasNoReturn(file);
  }

  lemma LinesJoin(out: seq<string>)
    requires out != [] && forall j :: 0 <= j < |out| ==> '\n' !in out[j] && '\r' !in out[j]
    ensures '\r' !in Join(out, "\n") && Lines(Join(out, "\n")) == out
  {
    hide ReadText, Pieces, Join;
    PiecesJoin(out, '\n');
    JoinChars(out, "\n", '\r');
    assert '\r' !in "\n";
    ReadTextPlain(Join(out, "\n"));
  }

  /** The separators of `str.splitlines`. */
  predicate IsLineBreak(c: char) {
    || c == '\n' || c == '\r' || c == '\U{000B}' || c == '\U{000C}'
    || '\U{001C}' <= c <= '\U{001E}' || c == '\U{0085}' || c == '\U{2028}' || c == '\U{2029}'
  }

  function FirstBreak(s: string): (i: nat)
    ensures i <= |s|
  {
    if s == "" || IsLineBreak(s[0]) then 0 else 1 + FirstBreak(s[1..])
  }

  lemma {:induction false} FirstBreakFinds(s: string)
    ensures var i := FirstBreak(s);
      && (i < |s| ==> IsLineBreak(s[i])) && (forall k :: 0 <= k < i ==> !IsLineBreak(s[k]))
  {
    if s != "" && !IsLineBreak(s[0]) { FirstBreakFinds(s[1..]); }
  }

  /** `len(s.splitlines())`. */
  function PhysicalLines(s: string): nat
    decreases |s|
  {
    if s == "" then 0
    else
      var i := FirstBreak(s);
      if i == |s| then 1
      else if s[i] == '\r' && i + 1 < |s| && s[i + 1] == '\n' then 1 + PhysicalLines(s[i + 2..])
      else 1 + PhysicalLines(s[i + 1..])
  }

  /** The characters that end a line for `str.splitlines`, spelled out. */
  ghost predicate EndsLine(c: char) {
    c in {'\n', '\r', '\U{000B}', '\U{000C}', '\U{001C}', '\U{001D}', '\U{001E}', '\U{0085}', '\U{2028}', '\U{2029}'}
  }

  lemma {:induction false} FirstBreakAt(a: string, b: string)
    requires forall c :: c in a ==> !EndsLine(c)
    requires b == "" || EndsLine(b[0])
    ensures FirstBreak(a + b) == |a|
  {
    if a == "" {
      assert a + b == b;
    } else {
      assert a[0] in a && (a + b)[1..] == a[1..] + b;
      FirstBreakAt(a[1..], b);
    }
  }

  /** How many lines a text is: each of these characters ends one, a carriage return together
      with the line feed behind it, and what is left at the end is one if it is not empty. */
  lemma LinesAreCounted(a: string, c: char, b: string)
    requires forall x :: x in a ==> !EndsLine(x)
    requires EndsLine(c)
    ensures PhysicalLines(a) == if a == "" then 0 else 1
    ensures c == '\r' && b != "" && b[0] == '\n' ==> PhysicalLines(a + ([c] + b)) == 1 + PhysicalLines(b[1..])
    ensures !(c == '\r' && b != "" && b[0] == '\n') ==> PhysicalLines(a + ([c] + b)) == 1 + PhysicalLines(b)
  {
    var s := a + ([c] + b);
    FirstBreakAt(a, "");
    assert a + "" == a;
    FirstBreakAt(a, [c] + b);
    assert s[|a|] == c && s[|a| + 1..] == b;
    if b != "" { assert s[|a| + 1] == b[0] && s[|a| + 2..] == b[1..]; }
  }

  predicate NoBreaks(s: string) { forall c :: c in s ==> !IsLineBreak(c) }

  lemma {:induction false} OnePhysicalLine(s: string)
    requires s != "" && !IsLineBreak(s[|s| - 1])
    ensures PhysicalLines(s) == 1 <==> NoBreaks(s)
  {
    var i := FirstBreak(s);
    FirstBreakFinds(s);
    if i < |s| {
      assert s[i] in s;
      assert i + 1 < |s|;
      if s[i] == '\r' && s[i + 1] == '\n' {
        assert i + 2 < |s|;
        assert PhysicalLines(s[i + 2..]) >= 1;
      } else {
        assert PhysicalLines(s[i + 1..]) >= 1;
      }
    } else {
      forall c | c in s ensures !IsLineBreak(c) { }
    }
  }

  // ----- rows and cells -----

  predicate IsPipe(c: char) { c == '|' }

  function Strip(s: string): string { Trim(IsPySpace, s) }

  function StripAll(ps: seq<string>): seq<string> {
    seq(|ps|, i requires 0 <= i < |ps| => Strip(ps[i]))
  }

  /** The cells between the pipes of a stripped line. */
  function RawCells(stripped: string): (r: seq<string>)
    ensures r != []
  {
    StripAll(Pieces(Trim(IsPipe, stripped), '|'))
  }

  predicate Dashes(cell: string) { cell != "" && forall c :: c in cell ==> c == '-' }

  predicate AllDashes(cells: seq<string>) {
    forall i :: 0 <= i < |cells| ==> Dashes(cells[i])
  }

  datatype Kind = NotARow | Header | Separator | Data

  /** `_row_kind`. */
  function RowKind(line: string): Kind {
    var stripped := Strip(line);
    if stripped == "" || stripped[0] != '|' then NotARow
    else
      var cells := RawCells(stripped);
      if cells[0] == "id" then Header else if AllDashes(cells) then Separator else Data
  }

  /** `_row_cells`: the cells of a data row; headers and separators are not data. */
  function RowCells(line: string): Option<seq<string>> {
    if RowKind(line) == Data then Some(RawCells(Strip(line))) else None
  }

  /** A row rebuilt from its cells. */
  function Row(cells: seq<string>): (r: string)
    ensures r != "" && r[0] == '|' && r[|r| - 1] == '|'
  {
    "| " + (Join(cells, " | ") + " |")
  }

  /** What a cell can hold: no surrounding blanks, no pipe. */
  predicate Cell(s: string) { Trimmed(IsPySpace, s) && '|' !in s }

  predicate Cells(cells: seq<string>) { forall i :: 0 <= i < |cells| ==> Cell(cells[i]) }

  /** Cells that make a data row. */
  predicate DataCells(cells: seq<string>) {
    cells != [] && Cells(cells) && cells[0] != "id" && !AllDashes(cells)
  }

  lemma RawCellsAreCells(stripped: string)
    ensures Cells(RawCells(stripped))
    ensures forall i, c :: 0 <= i < |RawCells(stripped)| && c in RawCells(stripped)[i] ==> c in stripped
  {
    var inner := Trim(IsPipe, stripped);
    var pieces := Pieces(inner, '|');
    TrimIsTrimmed(IsPipe, stripped);
    JoinPieces(inner, '|');
    var cells := RawCells(stripped);
    hide Trim, Trimmed, Pieces;
    forall i | 0 <= i < |cells|
      ensures Cell(cells[i]) && forall c :: c in cells[i] ==> c in stripped
    {
      TrimIsTrimmed(IsPySpace, pieces[i]);
    }
  }

  /** Whatever parses as a data row yields data cells, made of the line's own characters. */
  lemma ParsedIsData(line: string)
    requires RowCells(line).Some?
    ensures DataCells(RowCells(line).value)
    ensures forall i, c :: 0 <= i < |RowCells(line).value| && c in RowCells(line).value[i] ==> c in line
  {
    hide Trim, Cells, AllDashes, RawCells;
    TrimIsTrimmed(IsPySpace, line);
    RawCellsAreCells(Strip(line));
  }

  function Padded(cells: seq<string>): (r: seq<string>)
    ensures |r| == |cells| && forall i :: 0 <= i < |cells| ==> r[i] == " " + cells[i] + " "
  {
    if cells == [] then [] else [" " + cells[0] + " "] + Padded(cells[1..])
  }

  lemma {:induction false} JoinPadded(cells: seq<string>)
    requires cells != []
    ensures " " + (Join(cells, " | ") + " ") == Join(Padded(cells), "|")
  {
    if |cells| > 1 {
      JoinPadded(cells[1..]);
      var rest := Join(cells[1..], " | ");
      assert Padded(cells)[1..] == Padded(cells[1..]);
      assert " " + (cells[0] + (" | " + rest) + " ")
          == (" " + cells[0] + " ") + ("|" + (" " + (rest + " ")));
    }
  }

  lemma RowStripped(cells: seq<string>)
    ensures Strip(Row(cells)) == Row(cells)
  {
    hide Join, Trim, Row;
    assert !IsPySpace('|');
    TrimIsTrimmed(IsPySpace, Row(cells));
  }

  lemma StripPadded(cells: seq<string>)
    ensures StripAll(Padded(cells)) == StripAll(cells)
  {
    assert All(IsPySpace, " ");
    forall i | 0 <= i < |cells| ensures Strip(Padded(cells)[i]) == Strip(cells[i]) {
      hide Trim;
      TrimAround(IsPySpace, " ", cells[i], " ");
    }
  }

  lemma StripCells(cells: seq<string>)
    requires Cells(cells)
    ensures StripAll(cells) == cells
  {
    forall i | 0 <= i < |cells| ensures Strip(cells[i]) == cells[i] {
      hide Trim, Trimmed;
      assert Cell(cells[i]);
      TrimIsTrimmed(IsPySpace, cells[i]);
    }
  }

  lemma InnerOfRow(cells: seq<string>)
    requires cells != []
    ensures Trim(IsPipe, Row(cells)) == Join(Padded(cells), "|")
  {
    hide Join, Trim, Padded;
    var inner := " " + (Join(cells, " | ") + " ");
    assert Row(cells) == "|" + inner + "|";
    TrimPadded(IsPipe, "|", inner, "|");
    JoinPadded(cells);
  }

  lemma PaddedIsFree(cells: seq<string>)
    requires Free('|', cells)
    ensures Free('|', Padded(cells))
  {
    forall i | 0 <= i < |cells| ensures '|' !in Padded(cells)[i] {
      assert '|' !in cells[i];
    }
  }

  /** A row joined from pipe-free texts parses into those texts, stripped. */
  lemma RowParses(cells: seq<string>)
    requires cells != [] && Free('|', cells)
    ensures RawCells(Strip(Row(cells))) == StripAll(cells)
    ensures RowCells(Row(cells))
         == if cells != [] && Strip(cells[0]) != "id" && !AllDashes(StripAll(cells)) then Some(StripAll(cells)) else None
  {
    hide Join, Trim, Row, Pieces, Padded, AllDashes, Strip;
    RowStripped(cells);
    InnerOfRow(cells);
    PaddedIsFree(cells);
    assert |Padded(cells)| == |cells|;
    PiecesJoin(Padded(cells), '|');
    StripPadded(cells);
    assert RawCells(Strip(Row(cells))) == StripAll(cells);
    hide RawCells;
  }

  /** Rebuilding a row from cells and parsing it gives the same cells back. */
  lemma RebuildParses(cells: seq<string>)
    requires cells != [] && Cells(cells)
    ensures RawCells(Strip(Row(cells))) == cells
    ensures RowCells(Row(cells)) == if DataCells(cells) then Some(cells) else None
  {
    hide Trim, Trimmed, Row, AllDashes, RowCells, RawCells;
    assert Free('|', cells) by {
      forall i | 0 <= i < |cells| ensures '|' !in cells[i] { assert Cell(cells[i]); }
    }
    RowParses(cells);
    StripCells(cells);
    assert StripAll(cells)[0] == Strip(cells[0]);
  }

  /** Of the rows built from stripped, pipe-free cells, one that begins with the cell `id` is the
      header, one of dashes only separates, and every other is data. */
  lemma RowsAreData(cells: seq<string>)
    requires cells != [] && Cells(cells)
    ensures RowCells(Row(cells)).Some? <==>
      && cells[0] != "id"
      && exists i :: 0 <= i < |cells| && (cells[i] == "" || exists k :: 0 <= k < |cells[i]| && cells[i][k] != '-')
    ensures RowCells(Row(cells)).Some? ==> RowCells(Row(cells)).value == cells
  {
    RebuildParses(cells);
    hide RowCells, Row, Cells;
    forall i | 0 <= i < |cells|
      ensures Dashes(cells[i]) <==> !(cells[i] == "" || exists k :: 0 <= k < |cells[i]| && cells[i][k] != '-')
    {
      if Dashes(cells[i]) { assert forall k :: 0 <= k < |cells[i]| ==> cells[i][k] in cells[i]; }
    }
  }

  /** A line that does not begin with a pipe, blanks aside, is no row. */
  lemma OtherLinesAreNoRows(line: string)
    requires RowCells(line).Some?
    ensures exists before, rest :: line == before + "|" + rest && All(IsPySpace, before)
  {
    hide RawCells, AllDashes;
    var l, r := TrimCuts(IsPySpace, line);
    var t := Strip(line);
    assert t == "|" + t[1..];
    assert line == l + "|" + (t[1..] + r);
  }

  lemma RebuildIsData(cells: seq<string>)
    requires DataCells(cells)
    ensures RowCells(Row(cells)) == Some(cells)
  {
    RebuildParses(cells);
  }

  lemma {:induction false} JoinChars(ps: seq<string>, sep: string, c: char)
    ensures c in Join(ps, sep) ==> c in sep || exists i :: 0 <= i < |ps| && c in ps[i]
    ensures forall i :: 0 <= i < |ps| && c in ps[i] ==> c in Join(ps, sep)
  {
    if |ps| > 1 {
      JoinChars(ps[1..], sep, c);
      var rest := ps[1..];
      forall i | 0 <= i < |ps| && c in ps[i] ensures c in Join(ps, sep) {
        if i > 0 { assert rest[i - 1] == ps[i]; }
      }
      if c in Join(rest, sep) && c !in sep {
        var i :| 0 <= i < |rest| && c in rest[i];
        assert ps[i + 1] == rest[i];
      }
    }
  }

  /** A rebuilt row is one physical line exactly when no cell holds a line separator. */
  lemma RowIsOneLine(cells: seq<string>)
    ensures PhysicalLines(Row(cells)) == 1
       <==> forall i :: 0 <= i < |cells| ==> NoBreaks(cells[i])
    ensures PhysicalLines(Row(cells)) == 1 ==> '\n' !in Row(cells) && '\r' !in Row(cells)
  {
    var row := Row(cells);
    OnePhysicalLine(row);
    if NoBreaks(row) {
      assert IsLineBreak('\n') && IsLineBreak('\r');
      forall i | 0 <= i < |cells| ensures NoBreaks(cells[i]) {
        forall c | c in cells[i] ensures !IsLineBreak(c) {
          JoinChars(cells, " | ", c);
          assert c in row;
        }
      }
    }
    if forall i :: 0 <= i < |cells| ==> NoBreaks(cells[i]) {
      forall c | c in row ensures !IsLineBreak(c) {
        JoinChars(cells, " | ", c);
      }
    }
  }
}
