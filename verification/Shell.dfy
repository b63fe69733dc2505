/** A shell fragment (lists, and-or lists, pipelines and simple commands, section 2.9 of the
    POSIX Shell Command Language) and what a check classified vacuous does when it is run. */
module Shell {
  import opened Text
  import opened VacuousCheck

  // ----- syntax -----

  /** A pipeline of simple commands, each the text between the bars. */
  datatype Pipeline = One(leaf: string) | Pipe(leaf: string, rest: Pipeline)

  datatype Op = And | Or

  datatype AndOr = Run(p: Pipeline) | Chain(p: Pipeline, op: Op, rest: AndOr)

  /** And-or lists and comment or blank lines, separated by semicolons and newlines. */
  datatype Item = Command(c: AndOr) | Comment(text: string)

  datatype Script = Last(item: Item) | More(item: Item, newline: bool, rest: Script)

  predicate IsBlank(c: char) { c == ' ' || c == '\t' }

  /** No operator, quote, substitution, redirection, glob or comment character, and no
      whitespace a shell would not treat as a blank. */
  predicate IsPlain(c: char) {
    c !in ";\n&|'\"\\`$<>(){}*?[]~!#" && (IsWhitespace(c) ==> IsBlank(c))
  }

  predicate IsLeaf(s: string) {
    (forall c :: c in s ==> IsPlain(c)) && exists c :: c in s && !IsWhitespace(c)
  }

  predicate IsCommentText(s: string) {
    && (forall c :: c in s ==> c !in ";\n&|")
    && var t := TrimStart(IsWhitespace, s); (t == "" || t[0] == '#')
  }

  predicate PipelineOk(p: Pipeline) {
    IsLeaf(p.leaf) && (p.Pipe? ==> PipelineOk(p.rest))
  }

  predicate AndOrOk(a: AndOr) {
    PipelineOk(a.p) && (a.Chain? ==> AndOrOk(a.rest))
  }

  /** A comment runs to the end of its line, so only a newline may follow it. */
  predicate ScriptOk(s: Script) {
    && (match s.item case Command(c) => AndOrOk(c) case Comment(t) => IsCommentText(t))
    && (s.More? ==> (s.item.Comment? ==> s.newline) && ScriptOk(s.rest))
  }

  // ----- printing and the source's splitting -----

  function PrintPipeline(p: Pipeline): string {
    match p case One(l) => l case Pipe(l, rest) => l + ['|'] + PrintPipeline(rest)
  }

  function PrintAndOr(a: AndOr): string {
    match a
    case Run(p) => PrintPipeline(p)
    case Chain(p, And, rest) => PrintPipeline(p) + ['&', '&'] + PrintAndOr(rest)
    case Chain(p, Or, rest) => PrintPipeline(p) + ['|', '|'] + PrintAndOr(rest)
  }

  function PrintItem(i: Item): string {
    match i case Command(c) => PrintAndOr(c) case Comment(t) => t
  }

  function Print(s: Script): string {
    match s
    case Last(i) => PrintItem(i)
    case More(i, newline, rest) => PrintItem(i) + [if newline then '\n' else ';'] + Print(rest)
  }

  /** `str::split` on characters that satisfy p. */
  function Split(p: char -> bool, s: string): (r: seq<string>)
    ensures r != []
    decreases |s|
  {
    var e := WordEnd(p, s);
    if e == |s| then [s] else [s[..e]] + Split(p, s[e + 1..])
  }

  /** Position of the first doubled c, or |s|. */
  function DoubleAt(c: char, s: string): (i: nat)
    ensures i <= |s| && (i < |s| ==> i + 1 < |s| && s[i] == c && s[i + 1] == c)
    ensures forall k :: 0 <= k < i && k + 1 < |s| ==> !(s[k] == c && s[k + 1] == c)
  {
    if |s| < 2 then |s|
    else if s[0] == c && s[1] == c then 0
    else 1 + DoubleAt(c, s[1..])
  }

  /** `str::split` on the two-character operator cc. */
  function SplitDouble(c: char, s: string): (r: seq<string>)
    ensures r != []
    decreases |s|
  {
    var i := DoubleAt(c, s);
    if i == |s| then [s] else [s[..i]] + SplitDouble(c, s[i + 2..])
  }

  function Flat(pieces: seq<seq<string>>): seq<string> {
    if pieces == [] then [] else pieces[0] + Flat(pieces[1..])
  }

  function SplitEach(f: string -> seq<string>, ss: seq<string>): seq<string> {
    if ss == [] then [] else f(ss[0]) + SplitEach(f, ss[1..])
  }

  const EndsLine: char -> bool := c => c == ';' || c == '\n'
  const IsBar: char -> bool := c => c == '|'

  /** The pieces of one line: split at &&, each at ||, each at |. */
  function OrPieces(s: string): seq<string> { SplitEach(BarPieces, SplitDouble('|', s)) }

  function BarPieces(s: string): seq<string> { Split(IsBar, s) }

  function LinePieces(s: string): seq<string> { SplitEach(OrPieces, SplitDouble('&', s)) }

  /** Every segment `is_vacuous_check` looks at. */
  function Segments(check: string): seq<string> { SplitEach(LinePieces, Split(EndsLine, check)) }

  predicate IsVacuousText(segment: string) { IsVacuousWords(SplitWhitespace(segment)) }

  predicate IsVacuousCheck(check: string) {
    forall seg :: seg in Segments(check) ==> IsVacuousText(seg)
  }

  // ----- the leaves -----

  function PipelineLeaves(p: Pipeline): seq<string> {
    match p case One(l) => [l] case Pipe(l, rest) => [l] + PipelineLeaves(rest)
  }

  function AndOrLeaves(a: AndOr): seq<string> {
    match a case Run(p) => PipelineLeaves(p) case Chain(p, _, rest) => PipelineLeaves(p) + AndOrLeaves(rest)
  }

  function ItemLeaves(i: Item): seq<string> {
    match i case Command(c) => AndOrLeaves(c) case Comment(t) => [t]
  }

  function Leaves(s: Script): seq<string> {
    match s case Last(i) => ItemLeaves(i) case More(i, _, rest) => ItemLeaves(i) + Leaves(rest)
  }

  // ----- splitting recovers the leaves -----

  lemma SplitFront(p: char -> bool, a: string, c: char, b: string)
    requires p(c) && forall x :: x in a ==> !p(x)
    ensures Split(p, a + [c] + b) == [a] + Split(p, b)
  {
    var s := a + [c] + b;
    assert forall k :: 0 <= k < |a| ==> s[k] == a[k];
    assert s[|a|] == c;
    assert WordEnd(p, s) == |a| && s[..|a|] == a && s[|a| + 1..] == b;
  }

  lemma SplitWhole(p: char -> bool, a: string)
    requires forall x :: x in a ==> !p(x)
    ensures Split(p, a) == [a]
  {
    assert WordEnd(p, a) == |a|;
  }

  /** No doubled c inside a, and none straddling its end. */
  predicate Closed(c: char, a: string) {
    a != "" && a[|a| - 1] != c && forall k :: 0 <= k < |a| - 1 ==> !(a[k] == c && a[k + 1] == c)
  }

  lemma SplitDoubleFront(c: char, a: string, b: string)
    requires Closed(c, a)
    ensures SplitDouble(c, a + [c, c] + b) == [a] + SplitDouble(c, b)
  {
    var s := a + [c, c] + b;
    var i := DoubleAt(c, s);
    assert forall k :: 0 <= k < |a| ==> s[k] == a[k];
    assert s[|a|] == c && s[|a| + 1] == c;
    assert s[..|a|] == a && s[|a| + 2..] == b;
  }

  lemma DoubleAfter(c: char, a: string, b: string)
    requires Closed(c, a)
    ensures DoubleAt(c, a + b) == |a| + DoubleAt(c, b)
  {
    hide DoubleAt;
    var s := a + b;
    assert forall k :: 0 <= k < |a| ==> s[k] == a[k];
    assert forall k :: 0 <= k < |b| ==> s[|a| + k] == b[k];
    var j := DoubleAt(c, b);
    assert j < |b| ==> s[|a| + j] == c && s[|a| + j + 1] == c;
    assert s[|a| - 1] != c;
  }

  /** Text in front that neither holds nor touches the operator joins the first piece. */
  lemma SplitDoubleJoin(c: char, a: string, b: string)
    requires Closed(c, a)
    ensures SplitDouble(c, a + b) == [a + SplitDouble(c, b)[0]] + SplitDouble(c, b)[1..]
  {
    hide DoubleAt;
    DoubleAfter(c, a, b);
    var s := a + b;
    var j := DoubleAt(c, b);
    if j < |b| {
      assert s[..|a| + j] == a + b[..j] && s[|a| + j + 2..] == b[j + 2..];
    }
  }

  lemma SplitEachConcat(f: string -> seq<string>, a: seq<string>, b: seq<string>)
    ensures SplitEach(f, a + b) == SplitEach(f, a) + SplitEach(f, b)
  {
    if a == [] {
      assert a + b == b;
    } else {
      assert (a + b)[1..] == a[1..] + b;
      SplitEachConcat(f, a[1..], b);
    }
  }

  lemma SplitEachOne(f: string -> seq<string>, a: string)
    ensures SplitEach(f, [a]) == f(a)
  {
    assert f(a) + [] == f(a);
  }

  lemma LeafHasNo(s: string, c: char)
    requires IsLeaf(s) && c in ";\n&|"
    ensures c !in s && s != ""
  {
    hide IsWhitespace;
  }

  /** A pipeline's text: no separators, bars only singly and between leaves. */
  lemma {:induction false} PipelineText(p: Pipeline)
    requires PipelineOk(p)
    ensures BarPieces(PrintPipeline(p)) == PipelineLeaves(p)
    ensures Closed('|', PrintPipeline(p)) && PrintPipeline(p)[0] != '|'
    ensures '&' !in PrintPipeline(p) && ';' !in PrintPipeline(p) && '\n' !in PrintPipeline(p)
  {
    hide IsLeaf, Split;
    LeafHasNo(p.leaf, '|'); LeafHasNo(p.leaf, '&'); LeafHasNo(p.leaf, ';'); LeafHasNo(p.leaf, '\n');
    match p
    case One(l) => SplitWhole(IsBar, l);
    case Pipe(l, rest) =>
      PipelineText(rest);
      SplitFront(IsBar, l, '|', PrintPipeline(rest));
      BarJoinClosed(l, PrintPipeline(rest));
  }

  lemma BarJoinClosed(l: string, r: string)
    requires '|' !in l && l != "" && Closed('|', r) && r[0] != '|'
    ensures Closed('|', l + ['|'] + r)
  {
    var s := l + ['|'] + r;
    assert forall k :: 0 <= k < |l| ==> s[k] == l[k];
    assert forall k :: 0 <= k < |r| ==> s[|l| + 1 + k] == r[k];
    assert s[|l|] == '|';
  }

  lemma ClosedWithout(c: char, a: string)
    requires a != "" && c !in a
    ensures Closed(c, a)
  {
  }

  /** An and-or list's text splits into its leaves, in order. */
  lemma {:induction false} AndOrText(a: AndOr)
    requires AndOrOk(a)
    ensures LinePieces(PrintAndOr(a)) == AndOrLeaves(a)
    ensures PrintAndOr(a) != "" && ';' !in PrintAndOr(a) && '\n' !in PrintAndOr(a)
  {
    hide Split, SplitDouble, Closed, PipelineOk, IsLeaf;
    var t := PrintPipeline(a.p);
    PipelineText(a.p);
    PipelineNotEmpty(t);
    ClosedWithout('&', t);
    match a
    case Run(p) => JustPipeline(t);
    case Chain(p, And, rest) =>
      AndOrText(rest);
      AfterAnd(t, PrintAndOr(rest));
    case Chain(p, Or, rest) =>
      AndOrText(rest);
      AfterOr(t, PrintAndOr(rest));
  }

  lemma PipelineNotEmpty(t: string)
    requires Closed('|', t)
    ensures t != ""
  {
  }

  lemma DoubleFree(c: char, t: string)
    requires Closed(c, t)
    ensures SplitDouble(c, t) == [t]
  {
    assert DoubleAt(c, t) == |t|;
  }

  lemma JustPipeline(t: string)
    requires Closed('|', t) && Closed('&', t)
    ensures LinePieces(t) == BarPieces(t) && OrPieces(t) == BarPieces(t)
  {
    hide SplitDouble, Closed, Split;
    DoubleFree('&', t);
    DoubleFree('|', t);
    SplitEachOne(BarPieces, t);
    SplitEachOne(OrPieces, t);
  }

  lemma AfterAnd(t: string, rest: string)
    requires Closed('|', t) && Closed('&', t)
    ensures LinePieces(t + ['&', '&'] + rest) == BarPieces(t) + LinePieces(rest)
  {
    hide SplitDouble, Closed, Split;
    SplitDoubleFront('&', t, rest);
    SplitEachConcat(OrPieces, [t], SplitDouble('&', rest));
    SplitEachOne(OrPieces, t);
    JustPipeline(t);
  }

  /** Behind ||, the pipeline belongs to the first &&-piece of what follows. */
  lemma AfterOr(t: string, rest: string)
    requires Closed('|', t) && Closed('&', t)
    ensures LinePieces(t + ['|', '|'] + rest) == BarPieces(t) + LinePieces(rest)
  {
    hide SplitDouble, Closed, Split;
    var head, tail := SplitDouble('&', rest)[0], SplitDouble('&', rest)[1..];
    BarsKeepClosed(t);
    SplitDoubleJoin('&', t + ['|', '|'], rest);
    assert SplitDouble('&', rest) == [head] + tail;
    SplitEachConcat(OrPieces, [t + ['|', '|'] + head], tail);
    SplitEachConcat(OrPieces, [head], tail);
    SplitEachOne(OrPieces, t + ['|', '|'] + head);
    SplitEachOne(OrPieces, head);
    SplitDoubleFront('|', t, head);
    SplitEachConcat(BarPieces, [t], SplitDouble('|', head));
    SplitEachOne(BarPieces, t);
    assert BarPieces(t) + OrPieces(head) + SplitEach(OrPieces, tail) == BarPieces(t) + (OrPieces(head) + SplitEach(OrPieces, tail));
  }

  lemma BarsKeepClosed(t: string)
    requires Closed('&', t)
    ensures Closed('&', t + ['|', '|'])
  {
    var s := t + ['|', '|'];
    assert forall k :: 0 <= k < |t| ==> s[k] == t[k];
    assert s[|t|] == '|' && s[|t| + 1] == '|';
  }

  lemma CommentText(t: string)
    requires IsCommentText(t)
    ensures LinePieces(t) == [t] && ';' !in t && '\n' !in t
  {
    hide IsWhitespace;
    assert '&' !in t && '|' !in t;
    assert DoubleAt('&', t) == |t| && DoubleAt('|', t) == |t|;
    SplitWhole(IsBar, t);
    SplitEachOne(BarPieces, t);
    SplitEachOne(OrPieces, t);
  }

  lemma ItemText(i: Item)
    requires match i case Command(c) => AndOrOk(c) case Comment(t) => IsCommentText(t)
    ensures LinePieces(PrintItem(i)) == ItemLeaves(i) && ';' !in PrintItem(i) && '\n' !in PrintItem(i)
  {
    hide LinePieces, AndOrOk, IsCommentText;
    match i case Command(c) => AndOrText(c); case Comment(t) => CommentText(t);
  }

  /** Splitting a printed script gives back exactly its leaves, in order. */
  lemma {:induction false} SegmentsAreLeaves(s: Script)
    requires ScriptOk(s)
    ensures Segments(Print(s)) == Leaves(s)
  {
    hide Split, LinePieces, PrintItem, ItemLeaves, AndOrOk, IsCommentText;
    var t := PrintItem(s.item);
    ItemText(s.item);
    SplitEachOne(LinePieces, t);
    match s
    case Last(i) => SplitWhole(EndsLine, t);
    case More(i, newline, rest) =>
      SegmentsAreLeaves(rest);
      SplitFront(EndsLine, t, if newline then '\n' else ';', Print(rest));
      SplitEachConcat(LinePieces, [t], Split(EndsLine, Print(rest)));
  }

  // ----- semantics -----

  /** How commands that are not modelled exit: the repository, and everything else. */
  type World = seq<string> -> nat

  /** Status of the last command, whether `exit` ended the shell, whether HOME still is what
      the shell started with (a directory one can change to). */
  datatype Flow = Flow(status: nat, exited: bool, home: bool)

  /** The words left once the assignments in front are stripped. */
  function Command0(ws: seq<string>): (cmd: seq<string>)
    ensures |cmd| <= |ws|
  {
    if ws != [] && IsAssignment(ws[0]) then Command0(ws[1..]) else ws
  }

  predicate SetsHome(ws: seq<string>) {
    exists i :: 0 <= i < |ws| && "HOME=" <= ws[i]
  }

  /** Whether a command leaves HOME reassigned behind it: bare assignments do, so do those in
      front of the special built-ins `:` and `export`, and so do operands of `export`. Those in
      front of any other command end with that command, and `exit` ends the shell. */
  predicate ChangesHome(ws: seq<string>) {
    var cmd := Command0(ws);
    || ((cmd == [] || cmd[0] == ":" || cmd[0] == "export") && SetsHome(ws[..|ws| - |cmd|]))
    || (cmd != [] && cmd[0] == "export" && SetsHome(cmd[1..]))
  }

  predicate IsOption(word: string) { word != "" && word[0] == '-' }

  /** printf prints a format without directives and succeeds; with them it may complain. */
  predicate IsPlainFormat(word: string) { !IsOption(word) && '%' !in word }

  predicate IsExportOperand(word: string) { IsName(word) || IsAssignment(word) }

  predicate ExportsOk(operands: seq<string>) {
    forall i :: 0 <= i < |operands| ==> IsExportOperand(operands[i])
  }

  /** The exit status of a simple command, given the status before it. */
  function Status(world: World, home: bool, last: nat, ws: seq<string>): nat {
    var cmd := Command0(ws);
    if cmd == [] then 0
    else if cmd[0] == "true" || cmd[0] == ":" || cmd[0] == "echo" then 0
    else if cmd[0] == "pwd" then (if |cmd| > 1 && IsOption(cmd[1]) then world(ws) else 0)
    else if cmd[0] == "cd" then (if |cmd| == 1 && home && !SetsHome(ws) then 0 else world(ws))
    else if cmd[0] == "exit" then (if |cmd| == 1 then last else if cmd[1..] == ["0"] then 0 else world(ws))
    else if cmd[0] == "printf" then
      (if |cmd| == 1 then 2 else if IsPlainFormat(cmd[1]) then 0 else world(ws))
    else if cmd[0] == "export" then
      (if |cmd| > 1 && IsOption(cmd[1]) then world(ws) else if ExportsOk(cmd[1..]) then 0 else 1)
    else world(ws)
  }

  function Exec(world: World, leaf: string, before: Flow): Flow {
    var ws := Words(IsBlank, leaf);
    var cmd := Command0(ws);
    Flow(Status(world, before.home, before.status, ws), cmd != [] && cmd[0] == "exit", before.home && !ChangesHome(ws))
  }

  function LastLeaf(p: Pipeline): string {
    match p case One(l) => l case Pipe(_, rest) => LastLeaf(rest)
  }

  /** Commands of a real pipeline run in subshells; the last one's status is the pipeline's. */
  function ExecPipeline(world: World, p: Pipeline, before: Flow): Flow {
    match p
    case One(l) => Exec(world, l, before)
    case Pipe(_, _) => Flow(Exec(world, LastLeaf(p), before).status, false, before.home)
  }

  function ExecAndOr(world: World, a: AndOr, before: Flow): Flow {
    var flow := ExecPipeline(world, a.p, before);
    match a case Run(_) => flow case Chain(_, op, rest) => Continue(world, flow, op, rest)
  }

  /** && and || bind equally and to the left. */
  function Continue(world: World, flow: Flow, op: Op, a: AndOr): Flow
    decreases a
  {
    var next := if flow.exited || (flow.status == 0) != (op == And) then flow else ExecPipeline(world, a.p, flow);
    match a case Run(_) => next case Chain(_, op', rest) => Continue(world, next, op', rest)
  }

  function ExecItem(world: World, i: Item, before: Flow): Flow {
    match i case Command(c) => ExecAndOr(world, c, before) case Comment(_) => before
  }

  function ExecScript(world: World, s: Script, before: Flow): Flow {
    var flow := ExecItem(world, s.item, before);
    if s.Last? || flow.exited then flow else ExecScript(world, s.rest, flow)
  }

  function ExitCode(world: World, s: Script): nat {
    ExecScript(world, s, Flow(0, false, true)).status
  }

  // ----- when a vacuous leaf really succeeds -----

  /** What the predicate does not look at: operands of pwd, printf and export, and HOME. */
  predicate Succeeds(ws: seq<string>) {
    var cmd := Command0(ws);
    cmd == []
    || (if cmd[0] == "pwd" then |cmd| == 1 || !IsOption(cmd[1])
        else if cmd[0] == "printf" then |cmd| > 1 && IsPlainFormat(cmd[1])
        else if cmd[0] == "cd" then !SetsHome(ws)
        else if cmd[0] == "export" then ExportsOk(cmd[1..])
        else true)
  }

  lemma {:induction false} RunIsAboutCommand(ws: seq<string>)
    ensures IsVacuousRun(ws) == IsVacuousRun(Command0(ws))
  {
    hide IsAssignment, IsVacuousCommand;
    if ws != [] && IsAssignment(ws[0]) { RunIsAboutCommand(ws[1..]); }
  }

  /** What a vacuous leaf can be, once its assignments are stripped. */
  lemma VacuousCommands(ws: seq<string>)
    requires IsVacuousRun(ws) && Command0(ws) != []
    ensures var cmd := Command0(ws);
         || cmd[0] == "true" || cmd[0] == ":" || cmd[0] == "pwd" || cmd[0] == "echo" || cmd[0] == "printf"
         || (cmd[0] == "cd" && |cmd| == 1) || (cmd[0] == "exit" && (|cmd| == 1 || cmd[1..] == ["0"]))
         || (cmd[0] == "export" && IsVacuousRun(cmd[1..]))
  {
    hide IsAssignment, IsVacuousCommand;
    RunIsAboutCommand(ws);
    CommandNotAssignment(ws);
    var cmd := Command0(ws);
    RunUnfold(cmd);
    CommandUnfold(cmd);
  }

  lemma {:induction false} CommandNotAssignment(ws: seq<string>)
    ensures Command0(ws) != [] ==> !IsAssignment(Command0(ws)[0])
  {
    hide IsAssignment;
    if ws != [] && IsAssignment(ws[0]) { CommandNotAssignment(ws[1..]); }
  }

  lemma FirstOperandIsNoOption(ops: seq<string>)
    requires IsVacuousRun(ops) && ops != []
    ensures !IsOption(ops[0])
  {
    if IsAssignment(ops[0]) {
      var name := ops[0][..IndexOf(ops[0], '=')];
      assert name[0] == ops[0][0] && name[0] in name;
    }
  }

  /** For one leaf classified vacuous, run with the HOME the shell started with: it exits 0 in
      every world exactly when it has none of the operands the predicate does not look at. */
  lemma VacuousLeafSucceedsIff(ws: seq<string>)
    requires IsVacuousRun(ws)
    ensures Succeeds(ws) <==> forall world: World :: Status(world, true, 0, ws) == 0
  {
    hide IsAssignment, IsVacuousRun, IsVacuousCommand, Command0, SetsHome, IsOption, ExportsOk;
    if Command0(ws) != [] {
      VacuousCommands(ws);
      var cmd := Command0(ws);
      if cmd[0] == "export" && |cmd| > 1 { FirstOperandIsNoOption(cmd[1..]); }
    }
    var failing: World := _ => 1;
    assert failing(ws) == 1;
    if Succeeds(ws) {
      forall world: World ensures Status(world, true, 0, ws) == 0 {}
    } else {
      assert Status(failing, true, 0, ws) != 0;
    }
  }

  // ----- whole checks -----

  function ItemCommands(i: Item): seq<string> {
    match i case Command(c) => AndOrLeaves(c) case Comment(_) => []
  }

  function CommandLeaves(s: Script): seq<string> {
    match s case Last(i) => ItemCommands(i) case More(i, _, rest) => ItemCommands(i) + CommandLeaves(rest)
  }

  predicate IsBareCd(ws: seq<string>) { Command0(ws) == ["cd"] }

  /** The operands are in order, and next to a bare `cd` no leaf leaves HOME reassigned. */
  predicate Fine(ws: seq<string>, usesCd: bool) {
    Succeeds(ws) && (usesCd ==> !ChangesHome(ws))
  }

  ghost predicate Good(leaf: string, usesCd: bool) {
    && IsLeaf(leaf) && IsVacuousText(leaf) && Fine(Words(IsBlank, leaf), usesCd)
    && (IsBareCd(Words(IsBlank, leaf)) ==> usesCd)
  }

  ghost predicate AllGood(leaves: seq<string>, usesCd: bool) {
    forall l :: l in leaves ==> Good(l, usesCd)
  }

  lemma {:induction false} WordsAgree(p: char -> bool, q: char -> bool, s: string)
    requires forall i :: 0 <= i < |s| ==> p(s[i]) == q(s[i])
    ensures Words(p, s) == Words(q, s)
    decreases |s|
  {
    hide WordEnd, Words;
    if s == "" {
      WordsOfNothing(p);
      WordsOfNothing(q);
    } else if p(s[0]) {
      WordsSkip(p, s);
      WordsSkip(q, s);
      WordsAgree(p, q, s[1..]);
    } else {
      WordsUnfold(p, s);
      WordsUnfold(q, s);
      EndsAgree(p, q, s);
      WordsAgree(p, q, s[WordEnd(p, s)..]);
    }
  }

  lemma EndsAgree(p: char -> bool, q: char -> bool, s: string)
    requires forall i :: 0 <= i < |s| ==> p(s[i]) == q(s[i])
    ensures WordEnd(p, s) == WordEnd(q, s)
  {
    if s != "" { EndsAgree(p, q, s[1..]); }
  }

  /** A shell cuts a leaf into the words the source cuts it into, and none starts a comment. */
  lemma LeafWords(leaf: string)
    requires IsLeaf(leaf) && IsVacuousText(leaf)
    ensures SplitWhitespace(leaf) == Words(IsBlank, leaf)
    ensures IsVacuousRun(Words(IsBlank, leaf))
  {
    hide IsVacuousRun, Words;
    forall i | 0 <= i < |leaf| ensures IsWhitespace(leaf[i]) == IsBlank(leaf[i]) { assert IsPlain(leaf[i]); }
    hide IsWhitespace;
    WordsAgree(IsWhitespace, IsBlank, leaf);
    if Words(IsBlank, leaf) != [] { FirstCharacter(IsBlank, leaf); } else { RunOfNothing(); }
    assert '#' !in leaf;
  }

  lemma FirstCharacter(ws: char -> bool, s: string)
    requires Words(ws, s) != []
    ensures Words(ws, s)[0] != "" && Words(ws, s)[0][0] in s
  {
    hide Words, WordEnd;
    WordsTrimStart(ws, s);
    TrimStartCuts(ws, s);
    WordsOfNothing(ws);
    var t := TrimStart(ws, s);
    WordsUnfold(ws, t);
    assert t[0] in s;
  }

  /** HOME intact matters to a bare `cd` only. */
  lemma HomeMattersToCd(world: World, home: bool, ws: seq<string>)
    requires IsVacuousRun(ws) && (IsBareCd(ws) ==> home)
    ensures Status(world, home, 0, ws) == Status(world, true, 0, ws)
  {
    hide IsVacuousRun, SetsHome, Command0, ExportsOk, IsOption;
    if Command0(ws) != [] {
      VacuousCommands(ws);
      var cmd := Command0(ws);
      if cmd[0] == "cd" { assert cmd == [cmd[0]]; }
    }
  }

  ghost predicate Fair(flow: Flow, usesCd: bool) {
    flow.status == 0 && (usesCd ==> flow.home)
  }

  lemma GoodLeafRuns(world: World, leaf: string, before: Flow, usesCd: bool)
    requires Good(leaf, usesCd) && Fair(before, usesCd)
    ensures Fair(Exec(world, leaf, before), usesCd)
  {
    hide IsLeaf, IsVacuousText, IsVacuousRun, ChangesHome, Words, Command0, Status, Succeeds;
    LeafWords(leaf);
    var ws := Words(IsBlank, leaf);
    VacuousLeafSucceedsIff(ws);
    HomeMattersToCd(world, before.home, ws);
  }

  lemma {:induction false} LastLeafIsLeaf(p: Pipeline)
    ensures LastLeaf(p) in PipelineLeaves(p)
  {
    if p.Pipe? { LastLeafIsLeaf(p.rest); }
  }

  lemma PipelineRuns(world: World, p: Pipeline, before: Flow, usesCd: bool)
    requires AllGood(PipelineLeaves(p), usesCd) && Fair(before, usesCd)
    ensures Fair(ExecPipeline(world, p, before), usesCd)
  {
    hide Good, Exec;
    LastLeafIsLeaf(p);
    GoodLeafRuns(world, LastLeaf(p), before, usesCd);
  }

  lemma {:induction false} ContinueRuns(world: World, flow: Flow, op: Op, a: AndOr, usesCd: bool)
    requires AllGood(AndOrLeaves(a), usesCd) && Fair(flow, usesCd)
    ensures Fair(Continue(world, flow, op, a), usesCd)
    decreases a
  {
    hide Good, ExecPipeline;
    PipelineRuns(world, a.p, flow, usesCd);
    var next := if flow.exited || (flow.status == 0) != (op == And) then flow else ExecPipeline(world, a.p, flow);
    if a.Chain? { ContinueRuns(world, next, a.op, a.rest, usesCd); }
  }

  lemma ItemRuns(world: World, i: Item, before: Flow, usesCd: bool)
    requires AllGood(ItemCommands(i), usesCd) && Fair(before, usesCd)
    ensures Fair(ExecItem(world, i, before), usesCd)
  {
    hide Good, ExecPipeline;
    if i.Command? {
      PipelineRuns(world, i.c.p, before, usesCd);
      if i.c.Chain? { ContinueRuns(world, ExecPipeline(world, i.c.p, before), i.c.op, i.c.rest, usesCd); }
    }
  }

  lemma {:induction false} ScriptRuns(world: World, s: Script, before: Flow, usesCd: bool)
    requires AllGood(CommandLeaves(s), usesCd) && Fair(before, usesCd)
    ensures Fair(ExecScript(world, s, before), usesCd)
  {
    hide Good, ExecItem;
    ItemRuns(world, s.item, before, usesCd);
    if s.More? { ScriptRuns(world, s.rest, ExecItem(world, s.item, before), usesCd); }
  }

  lemma {:induction false} PipelineLeavesOk(p: Pipeline)
    requires PipelineOk(p)
    ensures forall l :: l in PipelineLeaves(p) ==> IsLeaf(l)
  {
    hide IsLeaf;
    if p.Pipe? { PipelineLeavesOk(p.rest); }
  }

  lemma {:induction false} AndOrLeavesOk(a: AndOr)
    requires AndOrOk(a)
    ensures forall l :: l in AndOrLeaves(a) ==> IsLeaf(l)
  {
    hide IsLeaf;
    PipelineLeavesOk(a.p);
    if a.Chain? { AndOrLeavesOk(a.rest); }
  }

  lemma {:induction false} CommandLeavesAreLeaves(s: Script)
    requires ScriptOk(s)
    ensures forall l :: l in CommandLeaves(s) ==> l in Leaves(s) && IsLeaf(l)
  {
    hide IsLeaf, IsCommentText;
    if s.item.Command? { AndOrLeavesOk(s.item.c); }
    if s.More? { CommandLeavesAreLeaves(s.rest); }
  }

  // ----- the exact condition for checks -----

  ghost predicate UsesCd(leaves: iset<string>) {
    exists l :: l in leaves && IsBareCd(Words(IsBlank, l))
  }

  /** Leaves that the source calls vacuous. */
  ghost predicate VacuousLeaves(leaves: iset<string>) {
    forall l :: l in leaves ==> IsLeaf(l) && IsVacuousText(l)
  }

  ghost predicate BuiltFrom(s: Script, leaves: iset<string>) {
    ScriptOk(s) && forall l :: l in CommandLeaves(s) ==> l in leaves
  }

  ghost predicate AlwaysZero(s: Script) { forall world: World :: ExitCode(world, s) == 0 }

  ghost predicate AllFine(leaves: iset<string>) {
    forall l :: l in leaves ==> Fine(Words(IsBlank, l), UsesCd(leaves))
  }

  lemma FineScriptsSucceed(leaves: iset<string>, s: Script, world: World)
    requires VacuousLeaves(leaves) && AllFine(leaves) && BuiltFrom(s, leaves)
    ensures ExitCode(world, s) == 0
  {
    hide ScriptOk, Fine, Words, IsVacuousText, IsLeaf, IsBareCd;
    ScriptRuns(world, s, Flow(0, false, true), UsesCd(leaves));
  }

  function Single(leaf: string): Script { Last(Command(Run(One(leaf)))) }

  function Two(first: string, second: string): Script {
    More(Command(Run(One(first))), true, Single(second))
  }

  lemma SingleRuns(world: World, leaf: string)
    ensures ExitCode(world, Single(leaf)) == Status(world, true, 0, Words(IsBlank, leaf))
    ensures CommandLeaves(Single(leaf)) == [leaf] && (IsLeaf(leaf) ==> ScriptOk(Single(leaf)))
  {
    hide Status, Words, IsLeaf;
  }

  lemma SingleExec(world: World, leaf: string, before: Flow)
    ensures ExecScript(world, Single(leaf), before) == Exec(world, leaf, before)
  {
    hide Exec;
  }

  lemma TwoRun(world: World, first: string, second: string)
    requires IsLeaf(first) && IsLeaf(second)
    ensures var a := Exec(world, first, Flow(0, false, true));
      !a.exited ==> ExitCode(world, Two(first, second)) == Exec(world, second, a).status
    ensures CommandLeaves(Two(first, second)) == [first, second] && ScriptOk(Two(first, second))
  {
    hide Exec, IsLeaf;
    var a := Exec(world, first, Flow(0, false, true));
    assert ExecItem(world, Two(first, second).item, Flow(0, false, true)) == a;
    SingleExec(world, second, a);
    assert CommandLeaves(Single(second)) == [second];
  }

  /** A leaf that leaves HOME reassigned decides nothing by itself, but a bare `cd` behind it
      is then up to the world. */
  lemma CdBehindHome(world: World, h: string, c: string)
    requires IsLeaf(h) && IsLeaf(c)
    requires var hs := Words(IsBlank, h);
      ChangesHome(hs) && forall last: nat :: Status(world, true, last, hs) == 0
    requires IsBareCd(Words(IsBlank, c))
    ensures ExitCode(world, Two(h, c)) == world(Words(IsBlank, c))
  {
    hide IsLeaf, Words, SetsHome;
    TwoRun(world, h, c);
  }

  lemma ChangingHomeIgnoresTheLast(world: World, ws: seq<string>)
    requires ChangesHome(ws) && Status(world, true, 0, ws) == 0
    ensures forall last: nat :: Status(world, true, last, ws) == 0
  {
    hide SetsHome, Command0, ExportsOk, IsOption;
  }

  lemma ChecksSucceedOnlyIf(leaves: iset<string>)
    requires VacuousLeaves(leaves)
    requires forall s :: BuiltFrom(s, leaves) ==> AlwaysZero(s)
    ensures AllFine(leaves)
  {
    hide IsLeaf, IsVacuousText, Words, Succeeds, ChangesHome, IsBareCd, Status, ExitCode, CommandLeaves, ScriptOk;
    forall l | l in leaves ensures Succeeds(Words(IsBlank, l)) {
      LeafWords(l);
      forall world: World ensures Status(world, true, 0, Words(IsBlank, l)) == 0 {
        SingleRuns(world, l);
        assert BuiltFrom(Single(l), leaves);
      }
      VacuousLeafSucceedsIff(Words(IsBlank, l));
    }
    if UsesCd(leaves) {
      var c :| c in leaves && IsBareCd(Words(IsBlank, c));
      forall l | l in leaves && ChangesHome(Words(IsBlank, l)) ensures false {
        HomeAndCdFail(leaves, l, c);
      }
    }
  }

  lemma HomeAndCdFail(leaves: iset<string>, h: string, c: string)
    requires VacuousLeaves(leaves) && h in leaves && c in leaves
    requires Succeeds(Words(IsBlank, h)) && ChangesHome(Words(IsBlank, h)) && IsBareCd(Words(IsBlank, c))
    ensures exists s :: BuiltFrom(s, leaves) && !AlwaysZero(s)
  {
    hide IsLeaf, IsVacuousText, Words, Succeeds, ChangesHome, IsBareCd, Status, ExitCode, CommandLeaves, ScriptOk;
    var failing: World := _ => 1;
    LeafWords(h);
    VacuousLeafSucceedsIff(Words(IsBlank, h));
    ChangingHomeIgnoresTheLast(failing, Words(IsBlank, h));
    CdBehindHome(failing, h, c);
    TwoRun(failing, h, c);
    assert failing(Words(IsBlank, c)) == 1;
    assert BuiltFrom(Two(h, c), leaves) && ExitCode(failing, Two(h, c)) == 1;
  }

  /** Of the checks built from any vacuous leaves, all exit 0 in every world exactly when each
      leaf has its operands in order and, if a bare `cd` is among them, none leaves HOME
      reassigned. */
  lemma VacuousChecksSucceedIff(leaves: iset<string>)
    requires VacuousLeaves(leaves)
    ensures (forall s :: BuiltFrom(s, leaves) ==> AlwaysZero(s)) <==> AllFine(leaves)
  {
    hide VacuousLeaves, BuiltFrom, AllFine, ExitCode;
    if AllFine(leaves) {
      forall s, world: World | BuiltFrom(s, leaves) ensures ExitCode(world, s) == 0 {
        FineScriptsSucceed(leaves, s, world);
      }
    }
    if forall s :: BuiltFrom(s, leaves) ==> AlwaysZero(s) { ChecksSucceedOnlyIf(leaves); }
  }

  ghost function OwnLeaves(s: Script): iset<string> { iset l | l in CommandLeaves(s) }

  /** In particular: a check classified vacuous whose own leaves meet the condition exits 0
      whatever the repository holds, so it tests nothing. */
  lemma VacuousCheckSucceeds(world: World, s: Script)
    requires ScriptOk(s) && IsVacuousCheck(Print(s))
    requires AllFine(OwnLeaves(s))
    ensures ExitCode(world, s) == 0
  {
    hide ScriptOk, Fine, Words, IsVacuousText, IsLeaf, IsBareCd, ExitCode;
    SegmentsAreLeaves(s);
    CommandLeavesAreLeaves(s);
    FineScriptsSucceed(OwnLeaves(s), s, world);
  }

  const BARE_PRINTF := Last(Command(Run(One("printf"))))

  /** Vacuous by the predicate, and yet it fails everywhere: printf without a format. */
  lemma BarePrintfFails(world: World)
    ensures ScriptOk(BARE_PRINTF) && Print(BARE_PRINTF) == "printf"
    ensures IsVacuousCheck(Print(BARE_PRINTF)) && ExitCode(world, BARE_PRINTF) == 2
  {
    hide Words, IsWhitespace, Segments, Status, IsVacuousWords, IsLeaf;
    LetterWords();
    PrintfIsVacuous(world);
    SegmentsAreLeaves(BARE_PRINTF);
  }

  lemma PrintfIsVacuous(world: World)
    ensures IsVacuousWords(["printf"]) && Status(world, true, 0, ["printf"]) == 2
  {
    assert !IsAssignment("printf") by { assert '=' !in "printf"; }
    assert Command0(["printf"]) == ["printf"];
    RunUnfold(["printf"]);
    CommandUnfold(["printf"]);
  }

  const HOME_CD := Two("HOME=/x", "cd")

  /** Vacuous by the predicate, each leaf harmless by itself, and yet the repository decides:
      a bare `cd` on the line behind a HOME assignment. */
  lemma HomeThenCdFails(world: World)
    ensures ScriptOk(HOME_CD) && Print(HOME_CD) == "HOME=/x\ncd" && IsVacuousCheck(Print(HOME_CD))
    ensures forall l :: l in CommandLeaves(HOME_CD) ==> Succeeds(Words(IsBlank, l))
    ensures ExitCode(world, HOME_CD) == world(["cd"])
  {
    hide Words, IsWhitespace, Segments, IsVacuousWords, IsLeaf, Status, ExitCode, Succeeds, ChangesHome;
    PlainWord("HOME=/x");
    PlainWord("cd");
    HomeAssigns();
    CdSucceeds();
    SegmentsAreLeaves(HOME_CD);
    TwoRun(world, "HOME=/x", "cd");
    assert Status(world, true, 0, ["HOME=/x"]) == 0;
    ChangingHomeIgnoresTheLast(world, ["HOME=/x"]);
    CdBehindHome(world, "HOME=/x", "cd");
    assert Print(HOME_CD) == "HOME=/x" + ['\n'] + "cd";
  }

  lemma HomeAssigns()
    ensures IsVacuousWords(["HOME=/x"]) && Succeeds(["HOME=/x"]) && ChangesHome(["HOME=/x"])
    ensures forall world: World :: Status(world, true, 0, ["HOME=/x"]) == 0
  {
    var w := "HOME=/x";
    IndexOfConcat("HOME", '=', "/x");
    assert w == "HOME" + ['='] + "/x";
    assert w[..4] == "HOME";
    assert IsAssignment(w);
    var rest: seq<string> := [w][1..];
    assert rest == [] && Command0(rest) == [] && Command0([w]) == Command0(rest);
    assert "HOME=" <= w && [w][..1] == [w] && [w][0] == w;
    RunUnfold([w]);
    RunOfNothing();
  }

  lemma CdSucceeds()
    ensures IsVacuousWords(["cd"]) && Succeeds(["cd"]) && IsBareCd(["cd"])
  {
    assert !IsAssignment("cd") by {
      IndexOfFinds("cd", '=');
      assert '=' !in "cd";
    }
    assert Command0(["cd"]) == ["cd"];
    assert !("HOME=" <= "cd");
    RunUnfold(["cd"]);
    CommandUnfold(["cd"]);
  }

  lemma PlainWord(w: string)
    requires w == "HOME=/x" || w == "cd"
    ensures SplitWhitespace(w) == [w] && Words(IsBlank, w) == [w] && IsLeaf(w)
  {
    hide Words;
    forall c | c in w ensures IsPlain(c) && !IsWhitespace(c) && !IsBlank(c) {
      assert c in "HOME=/x" || c in "cd";
    }
    assert w[0] in w;
    hide IsWhitespace;
    SingleWord(IsWhitespace, w);
    SingleWord(IsBlank, w);
  }

  lemma LetterWords()
    ensures SplitWhitespace("printf") == ["printf"] && Words(IsBlank, "printf") == ["printf"]
    ensures IsLeaf("printf")
  {
    hide Words, IsWhitespace;
    forall c | c in "printf" ensures IsPlain(c) && !IsWhitespace(c) && !IsBlank(c) { LetterIsPlain(c); }
    assert "printf"[0] in "printf";
    SingleWord(IsWhitespace, "printf");
    SingleWord(IsBlank, "printf");
  }

  lemma LetterIsPlain(c: char)
    requires 'a' <= c <= 'z'
    ensures IsPlain(c) && !IsWhitespace(c) && !IsBlank(c)
  {
  }
}
