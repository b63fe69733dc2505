/** Filing proposals (scripts/ideate.py:593-743): dedupe slugs, the next number, where a row
    goes, and what one filing writes. */
module Filing {
  import opened Text
  import opened Table
  import opened Lane
  import Calendar

  /** TODO.md as lines, and the file names under specs/proposed. */
  datatype Repo = Repo(lines: seq<string>, stubs: seq<string>)

  // ----- names -----

  predicate SlugChar(c: char) { 'a' <= c <= 'z' || IsDigit(c) || c == '-' }

  /** The slugs the candidate rules build: lower case, no dash at either end. */
  predicate Slug(s: string) {
    s != "" && All(SlugChar, s) && s[0] != '-' && s[|s| - 1] != '-'
  }

  predicate PlainChar(c: char) { SlugChar(c) || c == '.' }

  /** Lower casing leaves lower-case ASCII names alone. */
  ghost predicate Folds(lower: string -> string) {
    forall s: string :: All(PlainChar, s) ==> lower(s) == s
  }

  function Pid(n: nat): string { "P" + Calendar.Pad(3, n) }

  /** The number in a `p<digits>-` prefix and what follows it. */
  function Numbered(name: string): Option<(nat, string)> {
    var k := IndexOf(name, '-');
    if 2 <= k < |name| && name[0] == 'p' && AllDigits(name[1..k]) then
      Some((DecVal(name[1..k]), name[k + 1..]))
    else None
  }

  predicate EndsWith(s: string, t: string) { |t| <= |s| && s[|s| - |t|..] == t }

  /** `name[:-3]`. */
  function DropExtension(name: string): string {
    if |name| >= 3 then name[..|name| - 3] else ""
  }

  function FileName(n: nat, slug: string): string { "p" + (Calendar.Pad(3, n) + ("-" + (slug + ".md"))) }

  /** The number of a stub file `p<digits>-<slug>.md`. */
  function StubNumber(name: string): Option<nat> {
    match Numbered(name)
    case None => None
    case Some((n, rest)) =>
      if EndsWith(rest, ".md") && DropExtension(rest) != "" && All(SlugChar, DropExtension(rest)) then Some(n)
      else None
  }

  predicate IsDash(c: char) { c == '-' }

  /** `_spec_slug`: the dedupe key of a spec file name. */
  function SpecSlug(lower: string -> string, name: string): Option<string> {
    if !EndsWith(lower(name), ".md") then None
    else
      var stem := DropExtension(name);
      var tail := match Numbered(stem) case Some((_, rest)) => rest case None => stem;
      var key := lower(Trim(IsDash, tail));
      if key == "" then None else Some(key)
  }

  lemma PadParses(n: nat)
    ensures var p := Calendar.Pad(3, n);
      |p| >= 1 && AllDigits(p) && DecVal(p) == n && p[0] in p
  {
    var d := Dec(n);
    var z := seq(if |d| < 3 then 3 - |d| else 0, _ => '0');
    LeadingZeros(z, d);
    DecRoundTrip(n);
  }

  lemma DigitsAreTrimmed(p: string)
    requires AllDigits(p) && p != ""
    ensures Strip("P" + p) == "P" + p
  {
    var id := "P" + p;
    assert p[|p| - 1] in p && id[|id| - 1] == p[|p| - 1];
    hide Trim;
    TrimIsTrimmed(IsPySpace, id);
  }

  lemma PidParses(n: nat)
    ensures IsPid(Pid(n)) && PidNumber(Pid(n)) == n && Strip(Pid(n)) == Pid(n)
  {
    hide Calendar.Pad, DecVal, Trim, AllDigits, Strip;
    PadParses(n);
    DigitsAreTrimmed(Calendar.Pad(3, n));
    assert Pid(n)[1..] == Calendar.Pad(3, n);
  }

  lemma DigitsHoldNoDash(p: string)
    requires AllDigits(p)
    ensures '-' !in "p" + p
  {
    forall c | c in "p" + p ensures c != '-' { assert c == 'p' || IsDigit(c); }
  }

  lemma NumberedReads(p: string, rest: string)
    requires AllDigits(p) && p != ""
    ensures Numbered("p" + p + ['-'] + rest) == Some((DecVal(p), rest))
  {
    hide DecVal, IndexOf, AllDigits;
    var s := "p" + p + ['-'] + rest;
    DigitsHoldNoDash(p);
    IndexOfConcat("p" + p, '-', rest);
    assert s[1..1 + |p|] == p && s[2 + |p|..] == rest;
  }

  lemma NumberedParses(n: nat, rest: string)
    ensures Numbered("p" + (Calendar.Pad(3, n) + ("-" + rest))) == Some((n, rest))
  {
    hide Calendar.Pad, DecVal, IndexOf, AllDigits, Numbered;
    PadParses(n);
    var p := Calendar.Pad(3, n);
    NumberedReads(p, rest);
    assert "p" + (p + ("-" + rest)) == "p" + p + ['-'] + rest;
  }

  /** A stub file's name carries its own number. */
  lemma StubNumberOf(n: nat, slug: string)
    requires Slug(slug)
    ensures StubNumber(FileName(n, slug)) == Some(n)
  {
    NumberedParses(n, slug + ".md");
    assert DropExtension(slug + ".md") == slug;
  }

  ghost predicate NamesStub(name: string, digits: string, slug: string) {
    && name == "p" + digits + "-" + slug + ".md"
    && digits != "" && (forall c :: c in digits ==> '0' <= c <= '9')
    && slug != "" && forall c :: c in slug ==> 'a' <= c <= 'z' || '0' <= c <= '9' || c == '-'
  }

  /** A file counts for the next number exactly if its name is `p<digits>-<slug>.md`. */
  lemma StubNumberIff(name: string, n: nat)
    ensures StubNumber(name) == Some(n)
       <==> exists digits, slug :: NamesStub(name, digits, slug) && DecVal(digits) == n
  {
    if StubNumber(name) == Some(n) { StubNumberSpelled(name, n); }
    if digits, slug :| NamesStub(name, digits, slug) && DecVal(digits) == n { SpelledNumber(name, digits, slug); }
  }

  lemma StubNumberSpelled(name: string, n: nat)
    requires StubNumber(name) == Some(n)
    ensures exists digits, slug :: NamesStub(name, digits, slug) && DecVal(digits) == n
  {
    var k := IndexOf(name, '-');
    IndexOfFinds(name, '-');
    var digits, rest := name[1..k], name[k + 1..];
    var slug := DropExtension(rest);
    hide DecVal;
    assert rest == slug + ".md";
    assert name == "p" + digits + "-" + rest == "p" + digits + "-" + slug + ".md";
    assert NamesStub(name, digits, slug);
  }

  lemma SpelledNumber(name: string, digits: string, slug: string)
    requires NamesStub(name, digits, slug)
    ensures AllDigits(digits) && StubNumber(name) == Some(DecVal(digits))
  {
    hide DecVal;
    var rest := slug + ".md";
    assert name == ("p" + digits) + ['-'] + rest;
    assert '-' !in "p" + digits;
    IndexOfConcat("p" + digits, '-', rest);
    var k := IndexOf(name, '-');
    assert name[1..k] == digits && name[k + 1..] == rest;
    assert DropExtension(rest) == slug;
  }

  lemma FileNameIsPlain(n: nat, slug: string)
    requires Slug(slug)
    ensures All(PlainChar, FileName(n, slug)) && All(PlainChar, slug)
  {
    PadParses(n);
    hide Calendar.Pad, DecVal;
    forall c | c in FileName(n, slug) ensures PlainChar(c) {
      assert c == 'p' || c in Calendar.Pad(3, n) || c == '-' || c in slug || c in ".md";
    }
  }

  lemma SlugIsTrimmed(slug: string)
    requires Slug(slug)
    ensures Trim(IsDash, slug) == slug
  {
    TrimIsTrimmed(IsDash, slug);
  }

  /** A stub file's name carries its own slug. */
  lemma SpecSlugOf(lower: string -> string, n: nat, slug: string)
    requires Folds(lower) && Slug(slug)
    ensures SpecSlug(lower, FileName(n, slug)) == Some(slug)
  {
    FileNameIsPlain(n, slug);
    SlugIsTrimmed(slug);
    NumberedParses(n, slug);
    assert slug != "";
    hide Calendar.Pad, DecVal, Trim, Numbered, All, PlainChar, Slug;
    var stem := "p" + (Calendar.Pad(3, n) + ("-" + slug));
    assert FileName(n, slug) == stem + ".md";
    assert DropExtension(stem + ".md") == stem;
  }

  lemma BaseNameOf(n: nat, slug: string)
    requires Slug(slug)
    ensures BaseName("specs/proposed/" + FileName(n, slug)) == FileName(n, slug)
  {
    var name := FileName(n, slug);
    PadParses(n);
    assert '/' !in name by {
      forall c | c in name ensures c != '/' {
        assert c == 'p' || IsDigit(c) || c == '-' || SlugChar(c) || c in ".md";
      }
    }
    hide FileName;
    var path := "specs/proposed/" + name;
    assert path == "specs" + ['/'] + ("proposed" + ['/'] + name);
    IndexOfConcat("specs", '/', "proposed" + ['/'] + name);
    var tail := "proposed" + ['/'] + name;
    assert path[6..] == tail;
    assert BaseName(path) == BaseName(tail);
    IndexOfConcat("proposed", '/', name);
    assert tail[9..] == name;
    assert BaseName(tail) == BaseName(name);
    IndexOfFinds(name, '/');
    assert IndexOf(name, '/') == |name|;
  }

  // ----- taken slugs and numbers -----

  /** Spec file names that proposal rows point to. */
  function RowSpecs(lines: seq<string>, n: nat): seq<string>
    requires n <= |lines|
  {
    if n == 0 then []
    else
      var names := RowSpecs(lines, n - 1);
      match PCells(lines[n - 1])
      case None => names
      case Some(cells) => if |cells| > 2 then names + [BaseName(Strip(cells[2]))] else names
  }

  function Slugs(lower: string -> string, names: seq<string>): set<string> {
    if names == [] then {}
    else
      var rest := Slugs(lower, names[..|names| - 1]);
      match SpecSlug(lower, names[|names| - 1])
      case None => rest
      case Some(s) => rest + {s}
  }

  /** `filed_slugs`. */
  function FiledSlugs(lower: string -> string, repo: Repo): set<string> {
    Slugs(lower, repo.stubs + RowSpecs(repo.lines, |repo.lines|))
  }

  function RowNumbers(lines: seq<string>, n: nat): seq<nat>
    requires n <= |lines|
  {
    if n == 0 then []
    else
      var nums := RowNumbers(lines, n - 1);
      match PCells(lines[n - 1])
      case None => nums
      case Some(cells) => nums + [PidNumber(cells[0])]
  }

  function StubNumbers(names: seq<string>): seq<nat> {
    if names == [] then []
    else
      var nums := StubNumbers(names[..|names| - 1]);
      match StubNumber(names[|names| - 1])
      case None => nums
      case Some(n) => nums + [n]
  }

  function Numbers(repo: Repo): seq<nat> {
    RowNumbers(repo.lines, |repo.lines|) + StubNumbers(repo.stubs)
  }

  function Max(nums: seq<nat>): nat
    requires nums != []
  {
    if |nums| == 1 then nums[0]
    else
      var m := Max(nums[1..]);
      if nums[0] > m then nums[0] else m
  }

  lemma {:induction false} MaxIsLargest(nums: seq<nat>)
    requires nums != []
    ensures Max(nums) in nums && forall n :: n in nums ==> n <= Max(nums)
  {
    if |nums| > 1 {
      MaxIsLargest(nums[1..]);
      assert nums == [nums[0]] + nums[1..];
    }
  }

  /** `next_p_number`. */
  function NextNumber(repo: Repo): nat {
    if Numbers(repo) == [] then 1 else Max(Numbers(repo)) + 1
  }

  /** A number that a row or a stub file still holds. */
  ghost predicate HoldsNumber(repo: Repo, n: nat) {
    || (exists i :: 0 <= i < |repo.lines| && PCells(repo.lines[i]).Some? && PidNumber(PCells(repo.lines[i]).value[0]) == n)
    || (exists f :: f in repo.stubs && StubNumber(f) == Some(n))
  }

  predicate RowHoldsSlug(lower: string -> string, line: string, s: string) {
    var cells := PCells(line);
    cells.Some? && |cells.value| > 2 && SpecSlug(lower, BaseName(Strip(cells.value[2]))) == Some(s)
  }

  /** A slug that a row or a stub file still holds. */
  ghost predicate HoldsSlug(lower: string -> string, repo: Repo, s: string) {
    || (exists i :: 0 <= i < |repo.lines| && RowHoldsSlug(lower, repo.lines[i], s))
    || (exists f :: f in repo.stubs && SpecSlug(lower, f) == Some(s))
  }

  lemma {:induction false} RowNumbersHold(lines: seq<string>, k: nat, n: nat)
    requires k <= |lines|
    ensures n in RowNumbers(lines, k)
       <==> exists i :: 0 <= i < k && PCells(lines[i]).Some? && PidNumber(PCells(lines[i]).value[0]) == n
  {
    hide PCells;
    if k > 0 { RowNumbersHold(lines, k - 1, n); }
  }

  lemma {:induction false} StubNumbersHold(names: seq<string>, n: nat)
    ensures n in StubNumbers(names) <==> exists f :: f in names && StubNumber(f) == Some(n)
  {
    hide StubNumber;
    if names != [] {
      var m := |names| - 1;
      StubNumbersHold(names[..m], n);
      assert names == names[..m] + [names[m]];
    }
  }

  lemma {:induction false} SlugsHold(lower: string -> string, names: seq<string>, s: string)
    ensures s in Slugs(lower, names) <==> exists f :: f in names && SpecSlug(lower, f) == Some(s)
  {
    hide SpecSlug;
    if names != [] {
      var m := |names| - 1;
      SlugsHold(lower, names[..m], s);
      assert names == names[..m] + [names[m]];
    }
  }

  lemma {:induction false} RowSpecsHold(lower: string -> string, lines: seq<string>, k: nat, s: string)
    requires k <= |lines|
    ensures (exists f :: f in RowSpecs(lines, k) && SpecSlug(lower, f) == Some(s))
       <==> exists i :: 0 <= i < k && RowHoldsSlug(lower, lines[i], s)
  {
    hide PCells, SpecSlug, BaseName, Strip;
    if k > 0 {
      RowSpecsHold(lower, lines, k - 1, s);
      var names := RowSpecs(lines, k - 1);
      var cells := PCells(lines[k - 1]);
      if cells.Some? && |cells.value| > 2 {
        var f := BaseName(Strip(cells.value[2]));
        assert RowSpecs(lines, k) == names + [f];
        assert f in names + [f];
      }
    }
  }

  /** The dedupe set is what rows and stub files hold: a deleted file leaves its row's slug
      taken, and the other way round. */
  lemma FiledSlugsHold(lower: string -> string, repo: Repo, s: string)
    ensures s in FiledSlugs(lower, repo) <==> HoldsSlug(lower, repo, s)
  {
    hide RowHoldsSlug, SpecSlug, RowSpecs, Slugs;
    var specs := RowSpecs(repo.lines, |repo.lines|);
    SlugsHold(lower, repo.stubs + specs, s);
    RowSpecsHold(lower, repo.lines, |repo.lines|, s);
    assert forall f :: f in repo.stubs + specs <==> f in repo.stubs || f in specs;
  }

  /** The next number passes n exactly when a row or stub file holds n or a later number;
      so a number is issued twice only after every trace of it and its successors is gone. */
  lemma NextNumberPasses(repo: Repo, n: nat)
    requires n > 0
    ensures n < NextNumber(repo) <==> exists m :: m >= n && HoldsNumber(repo, m)
  {
    hide PCells, StubNumber, RowNumbers, StubNumbers;
    forall m: nat ensures m in Numbers(repo) <==> HoldsNumber(repo, m) {
      RowNumbersHold(repo.lines, |repo.lines|, m);
      StubNumbersHold(repo.stubs, m);
    }
    hide HoldsNumber, Numbers, Max;
    if Numbers(repo) != [] { MaxIsLargest(Numbers(repo)); }
    if exists m :: m >= n && HoldsNumber(repo, m) {
      var m :| m >= n && HoldsNumber(repo, m);
      assert m in Numbers(repo);
    }
  }

  // ----- where a row goes -----

  predicate IsLaneHeading(line: string) { Strip(line) == "## Proposed" }

  predicate IsHeading(line: string) { "## " <= TrimStart(IsPySpace, line) }

  /** The first lane heading, or |lines|. */
  function LaneAt(lines: seq<string>, i: nat): (k: nat)
    requires i <= |lines|
    ensures i <= k <= |lines|
    decreases |lines| - i
  {
    if i == |lines| || IsLaneHeading(lines[i]) then i else LaneAt(lines, i + 1)
  }

  /** The first heading from i on, or |lines|. */
  function SectionEnd(lines: seq<string>, i: nat): (k: nat)
    requires i <= |lines|
    ensures i <= k <= |lines|
    decreases |lines| - i
  {
    if i == |lines| || IsHeading(lines[i]) then i else SectionEnd(lines, i + 1)
  }

  predicate IsSkeleton(line: string) { RowKind(line) == Header || RowKind(line) == Separator }

  /** The last table skeleton line in [lo, hi), or `at` when there is none. */
  function LastSkeleton(lines: seq<string>, lo: nat, hi: nat, at: nat): (k: nat)
    requires lo <= hi <= |lines| && at < lo
    ensures at <= k && (k < hi || k == at)
    decreases hi - lo
  {
    if lo == hi then at else LastSkeleton(lines, lo + 1, hi, if IsSkeleton(lines[lo]) then lo else at)
  }

  /** The last proposal row among the first n lines. */
  function LastProposal(lines: seq<string>, n: nat): (r: Option<nat>)
    requires n <= |lines|
    ensures r.Some? ==> r.value < n
  {
    if n == 0 then None else if PCells(lines[n - 1]).Some? then Some(n - 1) else LastProposal(lines, n - 1)
  }

  lemma {:induction false} LastProposalFinds(lines: seq<string>, n: nat)
    requires n <= |lines|
    ensures var r := LastProposal(lines, n);
      && (r.Some? ==> PCells(lines[r.value]).Some?)
      && forall i :: (match r case None => 0 case Some(k) => k + 1) <= i < n ==> PCells(lines[i]).None?
  {
    hide PCells;
    if n > 0 && PCells(lines[n - 1]).None? { LastProposalFinds(lines, n - 1); }
  }

  /** A line strictly between the lane heading and the next heading. */
  predicate InLane(lines: seq<string>, i: nat) {
    var lane := LaneAt(lines, 0);
    lane < i && lane < |lines| && i < SectionEnd(lines, lane + 1)
  }

  /** Where the new row goes; None when there is neither a proposal row nor a lane. */
  function InsertAt(lines: seq<string>): (r: Option<nat>)
    ensures r.Some? ==> r.value <= |lines|
  {
    var last := LastProposal(lines, |lines|);
    var lane := LaneAt(lines, 0);
    if last.Some? then Some(last.value + 1)
    else if lane == |lines| then None
    else Some(LastSkeleton(lines, lane + 1, SectionEnd(lines, lane + 1), lane) + 1)
  }

  function Insert(lines: seq<string>, at: nat, row: string): seq<string>
    requires at <= |lines|
  {
    lines[..at] + [row] + lines[at..]
  }

  lemma {:induction false} LaneAtIs(lines: seq<string>, i: nat, k: nat)
    requires i <= k <= |lines| && (forall j :: i <= j < k ==> !IsLaneHeading(lines[j]))
    requires k < |lines| ==> IsLaneHeading(lines[k])
    ensures LaneAt(lines, i) == k
    decreases k - i
  {
    if i < k { LaneAtIs(lines, i + 1, k); }
  }

  lemma {:induction false} LaneAtFinds(lines: seq<string>, i: nat)
    requires i <= |lines|
    ensures var k := LaneAt(lines, i);
      (forall j :: i <= j < k ==> !IsLaneHeading(lines[j])) && (k < |lines| ==> IsLaneHeading(lines[k]))
    decreases |lines| - i
  {
    hide IsLaneHeading;
    if i < |lines| && !IsLaneHeading(lines[i]) { LaneAtFinds(lines, i + 1); }
  }

  lemma {:induction false} SectionEndIs(lines: seq<string>, i: nat, k: nat)
    requires i <= k <= |lines| && (forall j :: i <= j < k ==> !IsHeading(lines[j]))
    requires k < |lines| ==> IsHeading(lines[k])
    ensures SectionEnd(lines, i) == k
    decreases k - i
  {
    if i < k { SectionEndIs(lines, i + 1, k); }
  }

  lemma {:induction false} SectionEndFinds(lines: seq<string>, i: nat)
    requires i <= |lines|
    ensures var k := SectionEnd(lines, i);
      (forall j :: i <= j < k ==> !IsHeading(lines[j])) && (k < |lines| ==> IsHeading(lines[k]))
    decreases |lines| - i
  {
    hide IsHeading;
    if i < |lines| && !IsHeading(lines[i]) { SectionEndFinds(lines, i + 1); }
  }

  /** The list `out` is `lines` with the row put at index `at`. */
  ghost predicate Inserted(lines: seq<string>, at: nat, row: string, out: seq<string>) {
    && at <= |lines| && |out| == |lines| + 1 && out[at] == row
    && (forall i {:trigger out[i]} :: 0 <= i < at ==> out[i] == lines[i])
    && (forall i {:trigger out[i]} :: at < i <= |lines| ==> out[i] == lines[i - 1])
  }

  lemma InsertedLines(lines: seq<string>, at: nat, row: string)
    requires at <= |lines|
    ensures Inserted(lines, at, row, Insert(lines, at, row))
  {}

  /** A row is neither a heading nor the lane's heading. */
  lemma RowIsNoHeading(cells: seq<string>)
    ensures !IsHeading(Row(cells)) && !IsLaneHeading(Row(cells))
  {
    hide Join;
    RowStripped(cells);
    var row := Row(cells);
    assert !IsPySpace('|');
    assert TrimStart(IsPySpace, row) == row;
    assert row[0] != "## "[0] && row[0] != "## Proposed"[0];
  }

  lemma LaneStays(lines: seq<string>, at: nat, row: string, out: seq<string>)
    requires Inserted(lines, at, row, out) && LaneAt(lines, 0) < at
    ensures LaneAt(out, 0) == LaneAt(lines, 0)
  {
    hide IsLaneHeading, LaneAt;
    var lane := LaneAt(lines, 0);
    LaneAtFinds(lines, 0);
    assert lane < |lines| && out[lane] == lines[lane];
    LaneAtIs(out, 0, lane);
  }

  lemma EndShifts(lines: seq<string>, at: nat, row: string, out: seq<string>, from: nat)
    requires Inserted(lines, at, row, out) && !IsHeading(row)
    requires from <= at <= SectionEnd(lines, from)
    ensures SectionEnd(out, from) == SectionEnd(lines, from) + 1
  {
    hide IsHeading, SectionEnd;
    var end := SectionEnd(lines, from);
    SectionEndFinds(lines, from);
    forall j | from <= j < end + 1 ensures !IsHeading(out[j]) {
      if j > at { assert out[j] == lines[j - 1]; }
    }
    assert end < |lines| ==> out[end + 1] == lines[end];
    SectionEndIs(out, from, end + 1);
  }

  /** A row inserted behind the lane heading, before the section ends, extends that section
      by itself: the lane starts where it did and ends one line later. */
  lemma SectionGrows(lines: seq<string>, at: nat, row: string, out: seq<string>)
    requires Inserted(lines, at, row, out) && !IsHeading(row)
    requires var lane := LaneAt(lines, 0);
      lane < |lines| && lane < at <= SectionEnd(lines, lane + 1)
    ensures var lane := LaneAt(lines, 0);
      && LaneAt(out, 0) == lane
      && SectionEnd(out, lane + 1) == SectionEnd(lines, lane + 1) + 1
    ensures InLane(out, at)
  {
    hide IsHeading, LaneAt, SectionEnd;
    LaneStays(lines, at, row, out);
    EndShifts(lines, at, row, out, LaneAt(lines, 0) + 1);
  }

  /** Where a filed row lands: in the lane exactly when no proposal row exists yet or the last
      one stands in the lane. */
  lemma LandsInLaneIff(lines: seq<string>, cells: seq<string>)
    requires LaneAt(lines, 0) < |lines|
    ensures InsertAt(lines).Some?
    ensures var at := InsertAt(lines).value; var last := LastProposal(lines, |lines|);
      InLane(Insert(lines, at, Row(cells)), at) <==> last.None? || InLane(lines, last.value)
  {
    RowIsNoHeading(cells);
    InsertsBehindHeading(lines);
    hide IsHeading, IsLaneHeading, LaneAt, SectionEnd, Insert, InLane, InsertAt, Row, LastProposal;
    LandsWhere(lines, InsertAt(lines).value, Row(cells));
  }

  lemma LandsWhere(lines: seq<string>, at: nat, row: string)
    requires at <= |lines| && LaneAt(lines, 0) < |lines| && !IsHeading(row) && !IsLaneHeading(row)
    ensures var lane := LaneAt(lines, 0);
      InLane(Insert(lines, at, row), at) <==> lane < at <= SectionEnd(lines, lane + 1)
  {
    hide IsHeading, IsLaneHeading, LaneAt, SectionEnd, Insert, InLane, Inserted;
    InsertedLines(lines, at, row);
    var out := Insert(lines, at, row);
    var lane := LaneAt(lines, 0);
    if lane < at <= SectionEnd(lines, lane + 1) {
      SectionGrows(lines, at, row, out);
    } else {
      NotInLane(lines, at, row, out);
    }
  }

  lemma {:induction false} LastSkeletonFinds(lines: seq<string>, lo: nat, hi: nat, at: nat)
    requires lo <= hi <= |lines| && at < lo
    ensures var k := LastSkeleton(lines, lo, hi, at);
      && (k == at || (lo <= k < hi && IsSkeleton(lines[k])))
      && forall i :: (if k == at then lo else k + 1) <= i < hi ==> !IsSkeleton(lines[i])
    decreases hi - lo
  {
    hide IsSkeleton;
    if lo < hi { LastSkeletonFinds(lines, lo + 1, hi, if IsSkeleton(lines[lo]) then lo else at); }
  }

  /** The lane's first row goes behind the last header or separator row of its own section, or
      behind the heading if there is none. */
  lemma FirstRowGoes(lines: seq<string>)
    requires LaneAt(lines, 0) < |lines| && LastProposal(lines, |lines|).None?
    ensures InsertAt(lines).Some? && InsertAt(lines).value > 0
    ensures var lane := LaneAt(lines, 0); var end := SectionEnd(lines, lane + 1); var k := InsertAt(lines).value - 1;
      && lane <= k < end
      && (k == lane || RowKind(lines[k]) == Header || RowKind(lines[k]) == Separator)
      && forall i :: k < i < end ==> RowKind(lines[i]) != Header && RowKind(lines[i]) != Separator
  {
    hide LaneAt, SectionEnd, LastProposal, LastSkeleton, RowKind;
    var lane := LaneAt(lines, 0);
    LastSkeletonFinds(lines, lane + 1, SectionEnd(lines, lane + 1), lane);
  }

  /** The lane's heading stands at `lane`, and line i behind it before the next heading. */
  ghost predicate Under(lines: seq<string>, lane: nat, i: nat) {
    && lane < i < |lines|
    && Strip(lines[lane]) == "## Proposed" && (forall j :: 0 <= j < lane ==> Strip(lines[j]) != "## Proposed")
    && forall j :: lane < j <= i ==> !("## " <= TrimStart(IsPySpace, lines[j]))
  }

  /** The lane, without a scan. */
  lemma InLaneIs(lines: seq<string>, i: nat)
    ensures InLane(lines, i) <==> exists lane: nat :: Under(lines, lane, i)
  {
    hide Trim, TrimStart, LaneAt, SectionEnd;
    var k := LaneAt(lines, 0);
    LaneAtFinds(lines, 0);
    if k < |lines| { SectionEndFinds(lines, k + 1); }
    if InLane(lines, i) { assert Under(lines, k, i); }
    if lane: nat :| Under(lines, lane, i) { LaneAtIs(lines, 0, lane); }
  }

  /** The insertion point is inside the lane's section unless a proposal row stands elsewhere. */
  lemma InsertsBehindHeading(lines: seq<string>)
    requires LaneAt(lines, 0) < |lines|
    ensures InsertAt(lines).Some?
    ensures var at := InsertAt(lines).value; var lane := LaneAt(lines, 0);
      var last := LastProposal(lines, |lines|);
      lane < at <= SectionEnd(lines, lane + 1) <==> last.None? || InLane(lines, last.value)
  {
    hide IsHeading, IsLaneHeading, LaneAt, SectionEnd, LastProposal, LastSkeleton, PCells;
    LastProposalFinds(lines, |lines|);
    var lane := LaneAt(lines, 0);
    LaneAtFinds(lines, 0);
    SectionEndFinds(lines, lane + 1);
    var last := LastProposal(lines, |lines|);
    if last.Some? { ProposalIsNoHeading(lines[last.value]); }
  }

  lemma ProposalIsNoHeading(line: string)
    requires PCells(line).Some?
    ensures !IsHeading(line) && !IsLaneHeading(line)
  {
    hide RawCells;
    TrimStartCuts(IsPySpace, line);
    TrimEndCuts(IsPySpace, TrimStart(IsPySpace, line));
    var t := TrimStart(IsPySpace, line);
    assert Strip(line)[0] == t[0] == '|';
  }

  lemma NotInLane(lines: seq<string>, at: nat, row: string, out: seq<string>)
    requires Inserted(lines, at, row, out) && !IsHeading(row) && !IsLaneHeading(row)
    requires var lane := LaneAt(lines, 0);
      lane < |lines| && !(lane < at <= SectionEnd(lines, lane + 1))
    ensures !InLane(out, at)
  {
    hide IsHeading, IsLaneHeading, LaneAt, SectionEnd;
    var lane := LaneAt(lines, 0);
    var end := SectionEnd(lines, lane + 1);
    LaneAtFinds(lines, 0);
    if at <= lane {
      forall j | 0 <= j < lane + 1 ensures !IsLaneHeading(out[j]) {
        if j > at { assert out[j] == lines[j - 1]; }
      }
      assert out[lane + 1] == lines[lane];
      LaneAtIs(out, 0, lane + 1);
    } else {
      assert out[lane] == lines[lane];
      LaneAtIs(out, 0, lane);
      SectionEndFinds(lines, lane + 1);
      assert out[end] == lines[end];
      SectionEndIs(out, lane + 1, end);
    }
  }

  // ----- one filing -----

  datatype Candidate = Candidate(title: string, slug: string, pri: nat, outward: bool)

  datatype FileError = Hazard | Shape | LaneGone

  const NOTES_HEAD := "machine-filed "
  const NOTES_CYCLE := " (T326 cycle "
  const NOTES_TAIL := ") \U{2014} awaiting operator ratification"

  function Notes(iso: string, week: string): string {
    NOTES_HEAD + (iso + (NOTES_CYCLE + (week + NOTES_TAIL)))
  }

  function ProposalCells(cand: Candidate, n: nat, iso: string, week: string): (r: seq<string>)
    ensures |r| == EXPECTED_CELLS
  {
    [Pid(n), cand.title, "specs/proposed/" + FileName(n, cand.slug), Dec(cand.pri), "proposed", Notes(iso, week)]
  }

  predicate Hazardous(cell: string) { '|' in cell || '\n' in cell }

  predicate SixCells(row: string) { RowCells(row).Some? && |RowCells(row).value| == EXPECTED_CELLS }

  function AddFile(stubs: seq<string>, name: string): seq<string> {
    if name in stubs then stubs else stubs + [name]
  }

  /** `file_proposal`: the checks in order, then the stub file and the row. */
  function FileOne(repo: Repo, cand: Candidate, n: nat, iso: string, week: string): Result<Repo, FileError> {
    var cells := ProposalCells(cand, n, iso, week);
    var at := InsertAt(repo.lines);
    if exists i :: 0 <= i < EXPECTED_CELLS && Hazardous(cells[i]) then Err(Hazard)
    else if at.None? then Err(LaneGone)
    else if PhysicalLines(Row(cells)) != 1 || !SixCells(Row(cells)) then Err(Shape)
    else Ok(Repo(Insert(repo.lines, at.value, Row(cells)), AddFile(repo.stubs, FileName(n, cand.slug))))
  }

  lemma StripNames(n: nat, slug: string)
    requires Slug(slug)
    ensures Strip("specs/proposed/" + FileName(n, slug)) == "specs/proposed/" + FileName(n, slug)
  {
    var path := "specs/proposed/" + FileName(n, slug);
    assert path[|path| - 1] == 'd' && path[0] == 's';
    TrimIsTrimmed(IsPySpace, path);
  }

  lemma SpecCellNamesSlug(lower: string -> string, n: nat, slug: string)
    requires Folds(lower) && Slug(slug)
    ensures SpecSlug(lower, BaseName(Strip(Strip("specs/proposed/" + FileName(n, slug))))) == Some(slug)
  {
    StripNames(n, slug);
    BaseNameOf(n, slug);
    SpecSlugOf(lower, n, slug);
  }

  /** The row of a proposal parses back as a proposal with its number and its slug. */
  lemma ProposalRowParses(lower: string -> string, cand: Candidate, n: nat, iso: string, week: string)
    requires Folds(lower) && Slug(cand.slug)
    requires var cells := ProposalCells(cand, n, iso, week);
      forall i :: 0 <= i < EXPECTED_CELLS ==> !Hazardous(cells[i])
    ensures var row := Row(ProposalCells(cand, n, iso, week));
      && SixCells(row) && PCells(row).Some? && PidNumber(PCells(row).value[0]) == n
      && RowHoldsSlug(lower, row, cand.slug)
  {
    hide Row, RowCells, Strip, BaseName, SpecSlug, FileName, Pid, Notes, Folds, Slug, DecVal;
    var cells := ProposalCells(cand, n, iso, week);
    assert Free('|', cells) by {
      forall i | 0 <= i < |cells| ensures '|' !in cells[i] { assert !Hazardous(cells[i]); }
    }
    RowParses(cells);
    PidParses(n);
    PidIsNoWord(n);
    SpecCellNamesSlug(lower, n, cand.slug);
    assert StripAll(cells)[0] == Pid(n) && StripAll(cells)[2] == Strip(cells[2]);
    assert !AllDashes(StripAll(cells));
    assert RowCells(Row(cells)) == Some(StripAll(cells));
  }

  lemma PidIsNoWord(n: nat)
    ensures Pid(n) != "id" && !Dashes(Pid(n))
  {
    var id := Pid(n);
    assert id[0] == 'P' && "id"[0] == 'i';
    assert id[0] in id;
  }

  // ----- when a filing succeeds -----

  /** No pipe and no line separator. */
  predicate Clean(s: string) { '|' !in s && NoBreaks(s) }

  predicate NameChar(c: char) { PlainChar(c) || c == '/' || c == 'P' }

  lemma CleanConcat(a: string, b: string)
    ensures Clean(a + b) <==> Clean(a) && Clean(b)
  {
    assert forall c :: c in a + b <==> c in a || c in b;
  }

  lemma NamesAreClean(s: string)
    requires All(NameChar, s)
    ensures Clean(s)
  {}

  lemma CellsAreClean(n: nat, slug: string, pri: nat)
    requires Slug(slug)
    ensures Clean(Pid(n)) && Clean("specs/proposed/" + FileName(n, slug)) && Clean(Dec(pri)) && Clean("proposed")
  {
    PadParses(n);
    FileNameIsPlain(n, slug);
    hide Calendar.Pad, FileName, Dec;
    NamesAreClean(Pid(n));
    NamesAreClean("specs/proposed/" + FileName(n, slug));
    NamesAreClean(Dec(pri));
    NamesAreClean("proposed");
  }

  predicate ProseChar(c: char) { (' ' <= c <= '~' && c != '|') || c == '\U{2014}' }

  lemma ProseIsClean(s: string)
    requires forall i :: 0 <= i < |s| ==> ProseChar(s[i])
    ensures Clean(s)
  {
    forall c | c in s ensures !IsLineBreak(c) && c != '|' { assert ProseChar(c); }
  }

  lemma NotesPartsAreClean()
    ensures Clean(NOTES_HEAD) && Clean(NOTES_CYCLE) && Clean(NOTES_TAIL)
  {
    hide Clean;
    ProseIsClean(NOTES_HEAD);
    ProseIsClean(NOTES_CYCLE);
    ProseIsClean(NOTES_TAIL);
  }

  lemma NotesAreClean(iso: string, week: string)
    ensures Clean(Notes(iso, week)) <==> Clean(iso) && Clean(week)
  {
    hide Clean;
    NotesPartsAreClean();
    CleanConcat(week, NOTES_TAIL);
    CleanConcat(NOTES_CYCLE, week + NOTES_TAIL);
    CleanConcat(iso, NOTES_CYCLE + (week + NOTES_TAIL));
    CleanConcat(NOTES_HEAD, iso + (NOTES_CYCLE + (week + NOTES_TAIL)));
  }

  lemma CleanIsNoHazard(s: string)
    ensures Clean(s) <==> !Hazardous(s) && NoBreaks(s)
  {
    assert IsLineBreak('\n');
  }

  lemma CleanCells(cand: Candidate, n: nat, iso: string, week: string)
    requires Slug(cand.slug)
    ensures (forall i :: 0 <= i < EXPECTED_CELLS ==> Clean(ProposalCells(cand, n, iso, week)[i]))
       <==> Clean(cand.title) && Clean(iso) && Clean(week)
  {
    hide Clean, Pid, FileName, Notes, Dec, Slug;
    var cells := ProposalCells(cand, n, iso, week);
    CellsAreClean(n, cand.slug, cand.pri);
    NotesAreClean(iso, week);
    assert Clean(cells[0]) && Clean(cells[2]) && Clean(cells[3]) && Clean(cells[4]);
    assert cells[1] == cand.title && cells[5] == Notes(iso, week);
  }

  /** The hazard check and the shape assertion together. */
  lemma CleanRow(cells: seq<string>)
    ensures (forall i :: 0 <= i < |cells| ==> Clean(cells[i]))
       <==> (forall i :: 0 <= i < |cells| ==> !Hazardous(cells[i])) && PhysicalLines(Row(cells)) == 1
  {
    hide Clean, Hazardous, NoBreaks, Row, PhysicalLines;
    forall i | 0 <= i < |cells| ensures Clean(cells[i]) <==> !Hazardous(cells[i]) && NoBreaks(cells[i]) {
      CleanIsNoHazard(cells[i]);
    }
    RowIsOneLine(cells);
  }

  lemma SixCellsIfFree(cand: Candidate, n: nat, iso: string, week: string)
    requires Slug(cand.slug)
    requires var cells := ProposalCells(cand, n, iso, week);
      forall i :: 0 <= i < EXPECTED_CELLS ==> !Hazardous(cells[i])
    ensures SixCells(Row(ProposalCells(cand, n, iso, week)))
  {
    var same := (s: string) => s;
    assert Folds(same);
    hide Row, SixCells, PCells, RowHoldsSlug;
    ProposalRowParses(same, cand, n, iso, week);
  }

  /** A filing succeeds exactly when there is a proposal row or a lane to go by, and title and
      stamps hold no pipe and no line separator. */
  lemma FilingAccepts(repo: Repo, cand: Candidate, n: nat, iso: string, week: string)
    requires Slug(cand.slug)
    ensures FileOne(repo, cand, n, iso, week).Ok?
       <==> InsertAt(repo.lines).Some? && Clean(cand.title) && Clean(iso) && Clean(week)
  {
    hide Clean, Row, PhysicalLines, SixCells, InsertAt, Hazardous, Insert, ProposalCells, AddFile, FileName, Slug;
    var cells := ProposalCells(cand, n, iso, week);
    CleanCells(cand, n, iso, week);
    CleanRow(cells);
    if forall i :: 0 <= i < EXPECTED_CELLS ==> !Hazardous(cells[i]) {
      SixCellsIfFree(cand, n, iso, week);
    }
  }

  // ----- what a filed row says, and when it ripens -----

  /** The cells a filed row reads as, spelled out. */
  function FiledCells(cand: Candidate, n: nat, iso: string, week: string): seq<string> {
    ["P" + Calendar.Pad(3, n),
     Strip(cand.title),
     "specs/proposed/p" + Calendar.Pad(3, n) + "-" + cand.slug + ".md",
     Dec(cand.pri),
     "proposed",
     "machine-filed " + iso + " (T326 cycle " + week + ") \U{2014} awaiting operator ratification"]
  }

  lemma EndsTrimmed(s: string)
    requires s != "" && !IsPySpace(s[0]) && !IsPySpace(s[|s| - 1])
    ensures Strip(s) == s
  {
    TrimIsTrimmed(IsPySpace, s);
  }

  lemma DecTrimmed(n: nat)
    ensures Strip(Dec(n)) == Dec(n)
  {
    var d := Dec(n);
    assert d[0] in d && d[|d| - 1] in d;
    EndsTrimmed(d);
  }

  lemma PidTrimmed(n: nat)
    ensures Strip(Pid(n)) == Pid(n)
  {
    PadParses(n);
    var p := Calendar.Pad(3, n);
    assert p[|p| - 1] in p;
    hide Calendar.Pad;
    EndsTrimmed(Pid(n));
  }

  lemma NotesSpelled(iso: string, week: string)
    ensures Notes(iso, week) == "machine-filed " + iso + " (T326 cycle " + week + ") \U{2014} awaiting operator ratification"
    ensures Strip(Notes(iso, week)) == Notes(iso, week)
  {
    var notes := Notes(iso, week);
    var tail := ") \U{2014} awaiting operator ratification";
    assert NOTES_HEAD == "machine-filed " && NOTES_CYCLE == " (T326 cycle " && NOTES_TAIL == tail;
    assert notes == "machine-filed " + iso + " (T326 cycle " + week + tail;
    assert notes[0] == 'm' && notes[|notes| - 1] == tail[|tail| - 1] == 'n';
    EndsTrimmed(notes);
  }

  lemma StripsTo(cand: Candidate, n: nat, iso: string, week: string)
    requires Slug(cand.slug)
    ensures StripAll(ProposalCells(cand, n, iso, week)) == FiledCells(cand, n, iso, week)
  {
    PidTrimmed(n);
    StripNames(n, cand.slug);
    DecTrimmed(cand.pri);
    NotesSpelled(iso, week);
    EndsTrimmed("proposed");
    assert "specs/proposed/" + FileName(n, cand.slug)
        == "specs/proposed/p" + Calendar.Pad(3, n) + "-" + cand.slug + ".md";
    hide Strip, Notes, FileName, Calendar.Pad, Dec, Slug;
    var cells := ProposalCells(cand, n, iso, week);
    assert Pid(n) == "P" + Calendar.Pad(3, n);
    assert StripAll(cells) == [Strip(cells[0]), Strip(cells[1]), Strip(cells[2]), Strip(cells[3]), Strip(cells[4]), Strip(cells[5])];
  }

  /** Read cell by cell, a filed row is its number, title, spec file, priority, status and notes. */
  lemma FiledRowReads(cand: Candidate, n: nat, iso: string, week: string)
    requires Slug(cand.slug) && Clean(cand.title) && Clean(iso) && Clean(week)
    ensures RowCells(Row(ProposalCells(cand, n, iso, week))) == Some(FiledCells(cand, n, iso, week))
  {
    var cells := ProposalCells(cand, n, iso, week);
    CleanCells(cand, n, iso, week);
    assert Free('|', cells) by { forall i | 0 <= i < |cells| ensures '|' !in cells[i] { assert Clean(cells[i]); } }
    StripsTo(cand, n, iso, week);
    PidIsNoWord(n);
    hide Row, RowCells, Clean, ProposalCells, FiledCells, Dashes;
    RowParses(cells);
    FirstIsPid(cand, n, iso, week);
  }

  lemma FirstIsPid(cand: Candidate, n: nat, iso: string, week: string)
    ensures FiledCells(cand, n, iso, week) != [] && FiledCells(cand, n, iso, week)[0] == Pid(n)
  {
  }

  lemma NotesDate(iso: string, week: string)
    requires IsDateText(iso)
    ensures FirstDateAt(Notes(iso, week), 14) && Notes(iso, week)[14..24] == iso
  {
    var notes := Notes(iso, week);
    var head := "machine-filed ";
    assert NOTES_HEAD == head && |head| == 14;
    assert notes[14..24] == iso;
    assert DateAt(notes, 14);
    forall j: nat | j < 14 ensures !DateAt(notes, j) {
      assert notes[j] == head[j] && !('0' <= head[j] <= '9');
      assert notes[j..j + 10][0] == notes[j];
    }
  }

  lemma RipeningCells(cand: Candidate, n: nat, iso: string, week: string)
    ensures var cells := FiledCells(cand, n, iso, week);
      |cells| == 6 && cells[5] == Notes(iso, week) && cells[4] == "proposed" && cells[0] == "P" + Calendar.Pad(3, n)
  {
    NotesSpelled(iso, week);
    hide Notes, Calendar.Pad, Dec, Strip;
  }

  lemma AgedFlips(env: Env, line: string, cells: seq<string>, i: nat, day: int)
    requires RowCells(line) == Some(cells) && |cells| == 6 && cells[4] == "proposed"
    requires exists digits :: cells[0] == "P" + digits && digits != "" && AllDigits(digits)
    requires var low := env.lower(cells[5]); !Contains(low, "do not dispatch") && !Contains(low, "operator-owned")
    requires FirstDateAt(cells[5], i) && env.dayOf(cells[5][i..i + 10]) == Some(day)
    ensures Flips(env, line) <==> env.today - day >= 7
  {
    hide RowCells, Contains, Flips, IsDateText, AllDigits;
    FlipsIff(env, line);
    forall j: nat | FirstDateAt(cells[5], j) ensures j == i { OneFirstDate(cells[5], j, i); }
  }

  /** Filing and sweep together: a filed row is ratified by exactly the sweeps of the seventh day
      and later, provided lower casing brings no veto marker into its notes. */
  lemma FiledRowRipens(env: Env, cand: Candidate, n: nat, iso: string, week: string, day: int)
    requires Slug(cand.slug) && Clean(cand.title) && Clean(iso) && Clean(week)
    requires IsDateText(iso) && env.dayOf(iso) == Some(day)
    requires var low := env.lower(Notes(iso, week)); !Contains(low, "do not dispatch") && !Contains(low, "operator-owned")
    ensures Flips(env, Row(ProposalCells(cand, n, iso, week))) <==> env.today - day >= 7
  {
    hide *;
    FiledRowReads(cand, n, iso, week);
    NotesDate(iso, week);
    PadParses(n);
    RipeningCells(cand, n, iso, week);
    AgedFlips(env, Row(ProposalCells(cand, n, iso, week)), FiledCells(cand, n, iso, week), 14, day);
  }

  // ----- a filing outside the lane -----

  const STRAY_CELLS: seq<string> := ["P1", "t", "s", "1", "done", "n"]

  /** A lane without proposals, and an old proposal under another heading. */
  const STRAY_LINES: seq<string> := ["## Proposed", "## Done", Row(STRAY_CELLS)]

  lemma StrayRow()
    ensures PCells(Row(STRAY_CELLS)) == Some(STRAY_CELLS)
  {
    hide Row, RowCells;
    assert IsDigit('1');
    forall i | 0 <= i < |STRAY_CELLS| ensures Cell(STRAY_CELLS[i]) {
      ShortCell(STRAY_CELLS[i]);
    }
    assert STRAY_CELLS[0][0] == 'P' && STRAY_CELLS[0][0] in STRAY_CELLS[0];
    assert STRAY_CELLS[0] != "id";
    RebuildIsData(STRAY_CELLS);
  }

  lemma ShortCell(s: string)
    requires s == "P1" || s == "t" || s == "s" || s == "1" || s == "done" || s == "n"
    ensures Cell(s)
  {
    assert !IsPySpace('P') && !IsPySpace('t') && !IsPySpace('s') && !IsPySpace('1') && !IsPySpace('d')
        && !IsPySpace('e') && !IsPySpace('n');
  }

  lemma Headings()
    ensures IsLaneHeading("## Proposed") && IsHeading("## Done") && !IsLaneHeading("## Done")
    ensures PCells("## Proposed").None? && PCells("## Done").None?
  {
    assert !IsPySpace('#') && !IsPySpace('d') && !IsPySpace('e');
    TrimIsTrimmed(IsPySpace, "## Proposed");
    TrimIsTrimmed(IsPySpace, "## Done");
    assert TrimStart(IsPySpace, "## Done") == "## Done";
    assert |"## Done"| != |"## Proposed"|;
  }

  lemma StrayInsertsLast()
    ensures LaneAt(STRAY_LINES, 0) == 0 && InsertAt(STRAY_LINES) == Some(3)
    ensures LastProposal(STRAY_LINES, 3) == Some(2) && !InLane(STRAY_LINES, 2)
  {
    hide Row, IsHeading, IsLaneHeading, PCells;
    StrayRow();
    Headings();
    LaneAtIs(STRAY_LINES, 0, 0);
    SectionEndIs(STRAY_LINES, 1, 1);
  }

  /** A filing that succeeds and leaves its row outside the lane. */
  lemma FiledOutsideLane(cand: Candidate, n: nat, iso: string, week: string)
    requires Slug(cand.slug) && Clean(cand.title) && Clean(iso) && Clean(week)
    ensures LaneAt(STRAY_LINES, 0) < |STRAY_LINES|
    ensures var r := FileOne(Repo(STRAY_LINES, []), cand, n, iso, week);
      && r.Ok? && |r.value.lines| == 4 && r.value.lines[..3] == STRAY_LINES
      && r.value.lines[3] == Row(ProposalCells(cand, n, iso, week)) && !InLane(r.value.lines, 3)
  {
    hide Row, PCells, Clean, PhysicalLines, SixCells, ProposalCells, Hazardous, Slug, InLane, LaneAt, InsertAt, LastProposal;
    StrayInsertsLast();
    FilingAccepts(Repo(STRAY_LINES, []), cand, n, iso, week);
    LandsInLaneIff(STRAY_LINES, ProposalCells(cand, n, iso, week));
    assert STRAY_LINES[..3] == STRAY_LINES && STRAY_LINES[3..] == [];
  }

  /** One filing carries every line in order, adds one proposal row with the fresh number and
      the candidate's slug, and adds the stub file of the same name. */
  lemma FilingAddsOne(lower: string -> string, repo: Repo, cand: Candidate, n: nat, iso: string, week: string, out: Repo)
    requires Folds(lower) && Slug(cand.slug) && FileOne(repo, cand, n, iso, week) == Ok(out)
    ensures exists at: nat, row ::
      && at <= |repo.lines| && out.lines == Insert(repo.lines, at, row)
      && PCells(row).Some? && PidNumber(PCells(row).value[0]) == n && RowHoldsSlug(lower, row, cand.slug)
    ensures FileName(n, cand.slug) in out.stubs && forall f :: f in repo.stubs ==> f in out.stubs
    ensures HoldsNumber(out, n) && HoldsSlug(lower, out, cand.slug)
    ensures forall m :: HoldsNumber(repo, m) ==> HoldsNumber(out, m)
    ensures forall s :: HoldsSlug(lower, repo, s) ==> HoldsSlug(lower, out, s)
  {
    ProposalRowParses(lower, cand, n, iso, week);
    var row := Row(ProposalCells(cand, n, iso, week));
    var at := InsertAt(repo.lines).value;
    hide Row, RowHoldsSlug, PCells, SpecSlug, StubNumber, InsertAt, SixCells, PhysicalLines, Insert, Slug, Folds;
    InsertedLines(repo.lines, at, row);
    assert out.lines[at] == row;
    forall i | 0 <= i < |repo.lines| ensures repo.lines[i] in out.lines {
      StillThere(repo.lines, at, row, out.lines, i);
    }
    assert Carried(repo, out);
    forall m ensures HoldsNumber(repo, m) ==> HoldsNumber(out, m) {
      KeepsNumber(repo, out, m);
    }
    forall s ensures HoldsSlug(lower, repo, s) ==> HoldsSlug(lower, out, s) {
      KeepsSlug(lower, repo, out, s);
    }
  }

  lemma StillThere(lines: seq<string>, at: nat, row: string, out: seq<string>, i: nat)
    requires Inserted(lines, at, row, out) && i < |lines|
    ensures lines[i] in out
  {
    var j := if i < at then i else i + 1;
    assert out[j] == lines[i];
  }

  /** Every line and every stub file is still there. */
  ghost predicate Carried(repo: Repo, out: Repo) {
    && (forall i :: 0 <= i < |repo.lines| ==> repo.lines[i] in out.lines)
    && (forall f :: f in repo.stubs ==> f in out.stubs)
  }

  lemma KeepsNumber(repo: Repo, out: Repo, m: nat)
    requires Carried(repo, out)
    ensures HoldsNumber(repo, m) ==> HoldsNumber(out, m)
  {
    hide PCells, StubNumber;
    if i :| 0 <= i < |repo.lines| && PCells(repo.lines[i]).Some? && PidNumber(PCells(repo.lines[i]).value[0]) == m {
      var j :| 0 <= j < |out.lines| && out.lines[j] == repo.lines[i];
    } else if f :| f in repo.stubs && StubNumber(f) == Some(m) {
      assert f in out.stubs;
    }
  }

  lemma KeepsSlug(lower: string -> string, repo: Repo, out: Repo, s: string)
    requires Carried(repo, out)
    ensures HoldsSlug(lower, repo, s) ==> HoldsSlug(lower, out, s)
  {
    hide RowHoldsSlug, SpecSlug;
    if i :| 0 <= i < |repo.lines| && RowHoldsSlug(lower, repo.lines[i], s) {
      var j :| 0 <= j < |out.lines| && out.lines[j] == repo.lines[i];
    } else if f :| f in repo.stubs && SpecSlug(lower, f) == Some(s) {
      assert f in out.stubs;
    }
  }
}
