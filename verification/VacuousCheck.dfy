/** The vacuous-check predicate against what a shell does with the check it classifies. */
module VacuousCheck {
  import opened Text

  // ----- words -----

  /** Index of the first separator, or |s|. */
  function WordEnd(ws: char -> bool, s: string): (i: nat)
    ensures i <= |s| && (i < |s| ==> ws(s[i])) && forall k :: 0 <= k < i ==> !ws(s[k])
  {
    if s == "" || ws(s[0]) then 0 else 1 + WordEnd(ws, s[1..])
  }

  /** The maximal runs of characters that do not separate words. */
  function Words(ws: char -> bool, s: string): seq<string>
    decreases |s|
  {
    var t := TrimStart(ws, s);
    if t == "" then []
    else
      var e := WordEnd(ws, t);
      TrimStartCuts(ws, s);
      assert e > 0;
      [t[..e]] + Words(ws, t[e..])
  }

  lemma WordsUnfold(ws: char -> bool, s: string)
    requires s != "" && !ws(s[0])
    ensures WordEnd(ws, s) > 0
    ensures Words(ws, s) == [s[..WordEnd(ws, s)]] + Words(ws, s[WordEnd(ws, s)..])
    ensures Words(ws, s)[0][0] == s[0]
  {
    assert TrimStart(ws, s) == s;
  }

  lemma SingleWord(ws: char -> bool, w: string)
    requires w != "" && forall c :: c in w ==> !ws(c)
    ensures Words(ws, w) == [w]
  {
    hide Words, WordEnd;
    WordsUnfold(ws, w);
    WordsOfNothing(ws);
    assert WordEnd(ws, w) == |w| && w[..|w|] == w && w[|w|..] == "";
  }

  lemma WordsOfNothing(ws: char -> bool)
    ensures Words(ws, "") == []
  {
  }

  lemma WordsTrimStart(ws: char -> bool, s: string)
    ensures Words(ws, TrimStart(ws, s)) == Words(ws, s)
  {
    hide WordEnd;
    var t := TrimStart(ws, s);
    assert TrimStart(ws, t) == t;
  }

  lemma WordsSkip(ws: char -> bool, s: string)
    requires s != "" && ws(s[0])
    ensures Words(ws, s) == Words(ws, s[1..])
  {
    hide Words, WordEnd;
    WordsTrimStart(ws, s);
    WordsTrimStart(ws, s[1..]);
  }

  lemma {:induction false} WordsTrimEnd(ws: char -> bool, s: string)
    ensures Words(ws, TrimEnd(ws, s)) == Words(ws, s)
    decreases |s|
  {
    hide Words;
    var m := |s| - 1;
    if s != "" && ws(s[m]) {
      WordsTrimEnd(ws, s[..m]);
      DropTrailing(ws, s[..m], s[m]);
      assert s == s[..m] + [s[m]];
    }
  }

  lemma {:induction false} DropTrailing(ws: char -> bool, s: string, c: char)
    requires ws(c)
    ensures Words(ws, s + [c]) == Words(ws, s)
    decreases |s|
  {
    hide Words, WordEnd;
    var t := s + [c];
    if s == "" {
      assert TrimStart(ws, t) == "" by { assert t[0] == c && t[1..] == ""; }
      WordsTrimStart(ws, t);
    } else if ws(s[0]) {
      assert t[1..] == s[1..] + [c];
      DropTrailing(ws, s[1..], c);
      WordsTrimStart(ws, s); WordsTrimStart(ws, s[1..]);
      WordsTrimStart(ws, t); WordsTrimStart(ws, t[1..]);
    } else {
      var e := WordEnd(ws, s);
      WordEndAppend(ws, s, c);
      assert t[..e] == s[..e] && t[e..] == s[e..] + [c];
      WordsUnfold(ws, s);
      WordsUnfold(ws, t);
      DropTrailing(ws, s[e..], c);
    }
  }

  lemma WordEndAppend(ws: char -> bool, s: string, c: char)
    requires ws(c)
    ensures WordEnd(ws, s + [c]) == WordEnd(ws, s)
  {
    assert forall k :: 0 <= k < |s| ==> (s + [c])[k] == s[k];
    assert (s + [c])[|s|] == c;
  }

  lemma WordsTrim(ws: char -> bool, s: string)
    ensures Words(ws, Trim(ws, s)) == Words(ws, s)
  {
    hide Words;
    WordsTrimStart(ws, s);
    WordsTrimEnd(ws, TrimStart(ws, s));
  }

  /** `split_whitespace`. */
  function SplitWhitespace(s: string): seq<string> { Words(IsWhitespace, s) }

  // ----- one segment -----

  predicate IsNameChar(c: char) {
    'a' <= c <= 'z' || 'A' <= c <= 'Z' || IsDigit(c) || c == '_'
  }

  predicate IsName(s: string) {
    s != "" && !IsDigit(s[0]) && forall c :: c in s ==> IsNameChar(c)
  }

  /** `NAME=anything`, split at the first equals sign. */
  predicate IsAssignment(word: string) {
    IndexOf(word, '=') < |word| && IsName(word[..IndexOf(word, '=')])
  }

  /** The verdict on a command that is left once assignments and `export`s are stripped. */
  predicate IsVacuousCommand(ws: seq<string>)
    requires ws != []
  {
    if ws[0] == "true" || ws[0] == ":" || ws[0] == "pwd" || ws[0] == "echo" || ws[0] == "printf" then true
    else if ws[0] == "cd" then |ws| == 1
    else if ws[0] == "exit" then |ws| == 1 || ws[1..] == ["0"]
    else false
  }

  /** Strips assignments and `export`s; nothing left over means the segment only assigned. */
  predicate IsVacuousRun(ws: seq<string>) {
    if ws == [] then true
    else if ws[0] == "export" || IsAssignment(ws[0]) then IsVacuousRun(ws[1..])
    else IsVacuousCommand(ws)
  }

  /** A shell assignment, spelled out: a name of letters, digits and underscores that does not
      begin with a digit, an equals sign, anything. */
  ghost predicate SetsName(word: string) {
    exists name: string, value: string ::
      && word == name + "=" + value && name != "" && !('0' <= name[0] <= '9')
      && forall c :: c in name ==> 'a' <= c <= 'z' || 'A' <= c <= 'Z' || '0' <= c <= '9' || c == '_'
  }

  lemma AssignmentSets(word: string)
    ensures IsAssignment(word) <==> SetsName(word)
  {
    var i := IndexOf(word, '=');
    if IsAssignment(word) {
      IndexOfFinds(word, '=');
      assert word == word[..i] + "=" + word[i + 1..];
    }
    if SetsName(word) {
      var name: string, value: string :| word == name + "=" + value && name != "" && !('0' <= name[0] <= '9')
        && forall c :: c in name ==> 'a' <= c <= 'z' || 'A' <= c <= 'Z' || '0' <= c <= '9' || c == '_';
      IndexOfConcat(name, '=', value);
      assert word[..i] == name;
    }
  }

  /** A command that exits 0 and tests nothing, by its words. */
  ghost predicate IsIdle(ws: seq<string>) {
    || (ws != [] && ws[0] in {"true", ":", "pwd", "echo", "printf"})
    || ws == ["cd"] || ws == ["exit"] || ws == ["exit", "0"]
  }

  /** The first k words only assign. */
  ghost predicate OnlySets(ws: seq<string>, k: nat) {
    k <= |ws| && forall i :: 0 <= i < k ==> ws[i] == "export" || SetsName(ws[i])
  }

  lemma IdleIsNoAssignment(ws: seq<string>)
    ensures ws != [] ==> (IsVacuousCommand(ws) <==> IsIdle(ws))
    ensures ws != [] && IsIdle(ws) ==> ws[0] != "export" && !IsAssignment(ws[0])
  {
    if ws != [] { NoEquals(ws[0]); }
  }

  lemma NoEquals(word: string)
    ensures word in {"true", ":", "pwd", "echo", "printf", "cd", "exit"} ==> word != "export" && !IsAssignment(word)
  {
    IndexOfFinds(word, '=');
  }

  /** What is classified vacuous: any number of assignments and `export`s, and then nothing or
      an idle command. */
  lemma {:induction false} VacuousExactly(ws: seq<string>)
    ensures IsVacuousRun(ws) <==> exists k: nat :: OnlySets(ws, k) && (k == |ws| || IsIdle(ws[k..]))
  {
    hide IsAssignment, SetsName, IsVacuousCommand, IsIdle;
    if ws == [] {
      assert OnlySets(ws, 0);
    } else {
      IdleIsNoAssignment(ws);
      AssignmentSets(ws[0]);
      assert ws[0..] == ws;
      if ws[0] == "export" || IsAssignment(ws[0]) {
        VacuousExactly(ws[1..]);
        if k: nat :| OnlySets(ws[1..], k) && (k == |ws[1..]| || IsIdle(ws[1..][k..])) {
          assert ws[1..][k..] == ws[k + 1..];
          assert OnlySets(ws, k + 1);
        }
        if k: nat :| OnlySets(ws, k) && (k == |ws| || IsIdle(ws[k..])) {
          assert k > 0;
          assert ws[1..][k - 1..] == ws[k..];
          assert OnlySets(ws[1..], k - 1);
        }
      } else {
        assert OnlySets(ws, 0);
        assert forall k: nat :: OnlySets(ws, k) ==> k == 0;
      }
    }
  }

  predicate IsVacuousWords(ws: seq<string>) {
    (ws != [] && ws[0] != "" && ws[0][0] == '#') || IsVacuousRun(ws)
  }

  /** The loop of the source on strings computes the predicate on words. */
  method IsVacuousSegment(segment: string) returns (vacuous: bool)
    ensures vacuous <==> IsVacuousWords(SplitWhitespace(segment))
  {
    hide IsWhitespace, Words, WordEnd, IsVacuousRun, IsAssignment, IsVacuousCommand;
    var seg := Trim(IsWhitespace, segment);
    TrimIsTrimmed(IsWhitespace, segment);
    WordsTrim(IsWhitespace, segment);
    WordsOfNothing(IsWhitespace);
    RunOfNothing();
    if seg == "" { return true; }
    WordsUnfold(IsWhitespace, seg);
    if seg[0] == '#' { return true; }
    ghost var all := SplitWhitespace(seg);
    while true
      invariant seg != "" && !IsWhitespace(seg[0])
      invariant IsVacuousRun(SplitWhitespace(seg)) == IsVacuousRun(all)
      decreases |seg|
    {
      var first, tail := FirstWord(seg);
      var rest := TrimStart(IsWhitespace, tail);
      WordsTrimStart(IsWhitespace, tail);
      TrimStartCuts(IsWhitespace, tail);
      NoWords(rest);
      RunUnfold(SplitWhitespace(seg));
      if first == "export" && rest == "" { return true; }
      if first == "export" || IsAssignment(first) {
        seg := rest;
        if seg == "" { return true; }
      } else {
        break;
      }
    }
    var first, tail := FirstWord(seg);
    var rest := Trim(IsWhitespace, tail);
    RestWords(tail);
    RunUnfold(SplitWhitespace(seg));
    CommandUnfold(SplitWhitespace(seg));
    vacuous := first == "true" || first == ":" || first == "pwd" || first == "echo" || first == "printf"
      || (first == "cd" && rest == "") || (first == "exit" && (rest == "" || rest == "0"));
  }

  method FirstWord(seg: string) returns (first: string, tail: string)
    requires seg != "" && !IsWhitespace(seg[0])
    ensures first != "" && seg == first + tail
    ensures SplitWhitespace(seg) == [first] + SplitWhitespace(tail)
    ensures SplitWhitespace(seg)[1..] == SplitWhitespace(tail)
  {
    hide IsWhitespace, Words;
    var e := WordEnd(IsWhitespace, seg);
    WordsUnfold(IsWhitespace, seg);
    first, tail := seg[..e], seg[e..];
  }

  lemma RunOfNothing()
    ensures IsVacuousRun([])
  {
  }

  lemma RunUnfold(ws: seq<string>)
    requires ws != []
    ensures IsVacuousRun(ws) <==>
            if ws[0] == "export" || IsAssignment(ws[0]) then IsVacuousRun(ws[1..]) else IsVacuousCommand(ws)
  {
    hide IsAssignment, IsVacuousCommand;
  }

  lemma CommandUnfold(ws: seq<string>)
    requires ws != []
    ensures IsVacuousCommand(ws) <==>
            (|| ws[0] == "true" || ws[0] == ":" || ws[0] == "pwd" || ws[0] == "echo" || ws[0] == "printf"
             || (ws[0] == "cd" && ws[1..] == []) || (ws[0] == "exit" && (ws[1..] == [] || ws[1..] == ["0"])))
  {
  }

  lemma NoWords(rest: string)
    requires rest == "" || !IsWhitespace(rest[0])
    ensures SplitWhitespace(rest) == [] <==> rest == ""
  {
    hide IsWhitespace, WordEnd;
    if rest != "" { WordsUnfold(IsWhitespace, rest); }
  }

  /** A trimmed remainder is empty, or the single word "0", exactly when its words are. */
  lemma RestWords(tail: string)
    ensures SplitWhitespace(Trim(IsWhitespace, tail)) == SplitWhitespace(tail)
    ensures Trim(IsWhitespace, tail) == "" <==> SplitWhitespace(tail) == []
    ensures Trim(IsWhitespace, tail) == "0" <==> SplitWhitespace(tail) == ["0"]
  {
    hide IsWhitespace, Words, WordEnd;
    var rest := Trim(IsWhitespace, tail);
    TrimIsTrimmed(IsWhitespace, tail);
    WordsTrim(IsWhitespace, tail);
    NoWords(rest);
    if rest != "" {
      WordsUnfold(IsWhitespace, rest);
      var e := WordEnd(IsWhitespace, rest);
      assert rest == rest[..e] + rest[e..];
      if SplitWhitespace(rest) == ["0"] {
        assert SplitWhitespace(rest[e..]) == SplitWhitespace(rest)[1..] == [];
        OnlyBlanks(rest[e..]);
      }
      if rest == "0" { WordsOfZero(); }
    }
  }

  lemma WordsOfZero()
    ensures SplitWhitespace("0") == ["0"]
  {
    SingleWord(IsWhitespace, "0");
  }

  lemma OnlyBlanks(s: string)
    requires SplitWhitespace(s) == []
    ensures forall k :: 0 <= k < |s| ==> IsWhitespace(s[k])
  {
    hide IsWhitespace, WordEnd;
    TrimStartCuts(IsWhitespace, s);
    assert TrimStart(IsWhitespace, s) == "";
  }
}
