/** The decisions ring of the state file: section bounds, count, uniqueness, probed prepend
    and splice, each as the loop it is, and what the gates accept together. */
module Ring {
  import opened Text

  type Line = string

  const RING_HEADER_PREFIX: string := "## decisions ring"

  predicate IsHeading(line: Line) { "## " <= line }

  predicate IsRingHeader(line: Line) { RING_HEADER_PREFIX <= line }

  predicate IsBullet(line: Line) { "- d" <= line }

  /** The decision id of a ring line: `line[2:].split(":", 1)[0].strip()`. */
  function RingId(line: Line): string
    requires IsBullet(line)
  {
    var rest := line[2..];
    Trim(IsPySpace, rest[..IndexOf(rest, ':')])
  }

  /** A ring line as it is written. */
  function BulletText(id: string, rest: string): Line { "- " + id + ":" + rest }

  ghost predicate IsId(id: string) { "d" <= id && ':' !in id && Trimmed(IsPySpace, id) }

  /** The id of a written line is what stands before its first colon, whatever follows. */
  lemma RingIdReadsBack(id: string, rest: string)
    requires IsId(id)
    ensures IsBullet(BulletText(id, rest)) && RingId(BulletText(id, rest)) == id
  {
    var line := BulletText(id, rest);
    assert line == "- " + (id + [':'] + rest);
    assert line[2..] == id + [':'] + rest;
    IndexOfConcat(id, ':', rest);
    assert (id + [':'] + rest)[..|id|] == id;
    TrimIsTrimmed(IsPySpace, id);
  }

  /** Blanks around the id do not count, and a line without a colon is all id. */
  lemma RingIdOfBare(id: string, after: string)
    requires IsId(id) && All(IsPySpace, after)
    ensures IsBullet("- " + id + after) && RingId("- " + id + after) == id
  {
    var line := "- " + id + after;
    var rest := line[2..];
    assert !IsPySpace(':');
    assert rest == id + after && ':' !in rest;
    IndexOfFinds(rest, ':');
    assert rest[..|rest|] == rest && "" + id + after == rest;
    TrimPadded(IsPySpace, "", id, after);
  }

  /** Two lines printed with one id never pass together, whatever they say. */
  lemma SameIdIsRefused(ring: seq<Line>, i: nat, j: nat, id: string, a: string, b: string)
    requires IsId(id) && i < j < |ring|
    requires ring[i] == BulletText(id, a) && ring[j] == BulletText(id, b)
    ensures !Unique(ring)
  {
    hide RingId, IsBullet, BulletText;
    RingIdReadsBack(id, a);
    RingIdReadsBack(id, b);
  }

  /** And lines printed with distinct ids do, whatever they say. */
  lemma DistinctIdsPass(ids: seq<string>, rests: seq<string>)
    requires |ids| == |rests| && forall i :: 0 <= i < |ids| ==> IsId(ids[i])
    requires forall i, j :: 0 <= i < j < |ids| ==> ids[i] != ids[j]
    ensures var ring := seq(|ids|, i requires 0 <= i < |ids| => BulletText(ids[i], rests[i]));
      Unique(ring) && DistinctIds(ring)
  {
    hide RingId, IsBullet, BulletText, IsId;
    forall i | 0 <= i < |ids| ensures IsBullet(BulletText(ids[i], rests[i])) && RingId(BulletText(ids[i], rests[i])) == ids[i] {
      RingIdReadsBack(ids[i], rests[i]);
    }
  }

  // ----- the section -----

  /** The body lies between the first ring header and the next heading or the end. */
  ghost predicate IsSection(lines: seq<Line>, lo: nat, hi: nat) {
    && 1 <= lo <= hi <= |lines|
    && IsRingHeader(lines[lo - 1]) && (forall i :: 0 <= i < lo - 1 ==> !IsRingHeader(lines[i]))
    && (forall i :: lo <= i < hi ==> !IsHeading(lines[i]))
    && (hi < |lines| ==> IsHeading(lines[hi]))
  }

  method SectionBounds(lines: seq<Line>) returns (bounds: Option<(nat, nat)>)
    ensures bounds.Some? ==> IsSection(lines, bounds.value.0, bounds.value.1)
    ensures bounds.None? <==> forall i :: 0 <= i < |lines| ==> !IsRingHeader(lines[i])
  {
    var header := 0;
    while header < |lines| && !IsRingHeader(lines[header])
      invariant header <= |lines|
      invariant forall i :: 0 <= i < header ==> !IsRingHeader(lines[i])
    {
      header := header + 1;
    }
    if header == |lines| { return None; }
    var end := header + 1;
    while end < |lines| && !IsHeading(lines[end])
      invariant header < end <= |lines|
      invariant forall i :: header < i < end ==> !IsHeading(lines[i])
    {
      end := end + 1;
    }
    bounds := Some((header + 1, end));
  }

  /** Written out: the section is what stands between the first line that begins with
      `## decisions ring` and the next that begins with `## `, or the end. */
  lemma SectionStands(front: seq<Line>, title: string, body: seq<Line>, behind: seq<Line>)
    requires forall i :: 0 <= i < |front| ==> !("## decisions ring" <= front[i])
    requires forall i :: 0 <= i < |body| ==> !("## " <= body[i])
    requires behind == [] || "## " <= behind[0]
    ensures IsSection(front + ["## decisions ring" + title] + body + behind, |front| + 1, |front| + 1 + |body|)
  {
    var lines := front + ["## decisions ring" + title] + body + behind;
    assert lines[|front|] == "## decisions ring" + title;
    assert forall i :: |front| + 1 <= i < |front| + 1 + |body| ==> lines[i] == body[i - |front| - 1];
  }

  // ----- count -----

  function Bullets(ring: seq<Line>): seq<Line> {
    if ring == [] then []
    else Bullets(ring[..|ring| - 1]) + if IsBullet(ring[|ring| - 1]) then [ring[|ring| - 1]] else []
  }

  method CountBullets(ring: seq<Line>) returns (count: nat)
    ensures count == |Bullets(ring)|
  {
    count := 0;
    for i := 0 to |ring|
      invariant count == |Bullets(ring[..i])|
    {
      assert ring[..i + 1][..i] == ring[..i];
      if IsBullet(ring[i]) { count := count + 1; }
    }
    assert ring[..|ring|] == ring;
  }

  // ----- uniqueness -----

  /** No non-blank line occurs twice, and no decision id does. */
  ghost predicate Unique(ring: seq<Line>) {
    forall i, j :: 0 <= i < j < |ring| ==>
      && (ring[i] != "" ==> ring[i] != ring[j])
      && (IsBullet(ring[i]) && IsBullet(ring[j]) ==> RingId(ring[i]) != RingId(ring[j]))
  }

  method CheckUnique(ring: seq<Line>) returns (failures: nat)
    ensures failures == 0 <==> Unique(ring)
  {
    hide RingId, IsBullet;
    failures := 0;
    var seenLines: map<Line, nat> := map[];
    var seenIds: map<string, nat> := map[];
    for i := 0 to |ring|
      invariant forall l :: l in seenLines ==> seenLines[l] < i && ring[seenLines[l]] == l
      invariant forall k :: 0 <= k < i && ring[k] != "" ==> ring[k] in seenLines
      invariant forall d :: d in seenIds ==> seenIds[d] < i && IsBullet(ring[seenIds[d]]) && RingId(ring[seenIds[d]]) == d
      invariant forall k :: 0 <= k < i && IsBullet(ring[k]) ==> RingId(ring[k]) in seenIds
      invariant failures == 0 <==> Unique(ring[..i])
    {
      var line := ring[i];
      var before := failures;
      if line != "" {
        if line in seenLines { failures := failures + 1; } else { seenLines := seenLines[line := i]; }
      }
      if IsBullet(line) {
        var id := RingId(line);
        if id in seenIds { failures := failures + 1; } else { seenIds := seenIds[id := i]; }
      }
      UniqueGrows(ring, i);
    }
    assert ring[..|ring|] == ring;
  }

  lemma UniqueGrows(ring: seq<Line>, i: nat)
    requires i < |ring|
    ensures Unique(ring[..i + 1]) <==> Unique(ring[..i]) && (forall k :: 0 <= k < i ==>
      && (ring[k] != "" ==> ring[k] != ring[i])
      && (IsBullet(ring[k]) && IsBullet(ring[i]) ==> RingId(ring[k]) != RingId(ring[i])))
  {
    hide RingId, IsBullet;
    var a, b := ring[..i], ring[..i + 1];
    assert forall k :: 0 <= k < i ==> a[k] == ring[k] && b[k] == ring[k];
    assert b[i] == ring[i];
    if Unique(b) {
      forall j, k | 0 <= j < k < |a| ensures
        && (a[j] != "" ==> a[j] != a[k])
        && (IsBullet(a[j]) && IsBullet(a[k]) ==> RingId(a[j]) != RingId(a[k]))
      {
        assert b[j] == a[j] && b[k] == a[k];
      }
    }
  }

  // ----- the batch size, probed from the two rings -----

  function Ids(ring: seq<Line>): set<string> {
    set i | 0 <= i < |ring| && IsBullet(ring[i]) :: RingId(ring[i])
  }

  predicate Known(line: Line, prev: seq<Line>) { IsBullet(line) && RingId(line) in Ids(prev) }

  /** The leading run of lines whose ids the previous ring does not hold. */
  method ProbePrepended(ring: seq<Line>, prev: seq<Line>) returns (prepended: nat)
    ensures prepended <= |ring|
    ensures forall i :: 0 <= i < prepended ==> !Known(ring[i], prev)
    ensures prepended < |ring| ==> Known(ring[prepended], prev)
  {
    hide RingId, IsBullet;
    var prevIds := Ids(prev);
    prepended := 0;
    while prepended < |ring| && !(IsBullet(ring[prepended]) && RingId(ring[prepended]) in prevIds)
      invariant prepended <= |ring|
      invariant forall i :: 0 <= i < prepended ==> !Known(ring[i], prev)
    {
      prepended := prepended + 1;
    }
  }

  // ----- the splice -----

  function Keep(prev: seq<Line>, prepended: nat, capacity: nat): nat {
    var room := if prepended < capacity then capacity - prepended else 0;
    if room < |prev| then room else |prev|
  }

  /** What the splice gate demands of a ring. */
  predicate Splices(prev: seq<Line>, ring: seq<Line>, prepended: nat, capacity: nat) {
    var keep := Keep(prev, prepended, capacity);
    && !(prev != [] && |ring| >= capacity && keep == 0)
    && (if prepended <= |ring| then ring[prepended..] else []) == prev[..keep]
  }

  datatype SpliceVerdict = Fits | ZeroCarry | WrongLength | Misaligned(offset: nat)

  method CheckSplice(prev: seq<Line>, ring: seq<Line>, prepended: nat, capacity: nat) returns (v: SpliceVerdict)
    ensures v.Fits? <==> Splices(prev, ring, prepended, capacity)
    ensures v.Misaligned? ==>
      && v.offset < |prev| && prepended + v.offset < |ring|
      && prev[v.offset] != ring[prepended + v.offset]
      && forall i :: 0 <= i < v.offset ==> prev[i] == ring[prepended + i]
  {
    var keep := Keep(prev, prepended, capacity);
    if prev != [] && |ring| >= capacity && keep == 0 { return ZeroCarry; }
    var expected := prev[..keep];
    var actual := if prepended <= |ring| then ring[prepended..] else [];
    if |actual| != |expected| { return WrongLength; }
    for offset := 0 to keep
      invariant forall i :: 0 <= i < offset ==> expected[i] == actual[i]
    {
      if expected[offset] != actual[offset] { return Misaligned(offset); }
    }
    assert actual == expected;
    v := Fits;
  }

  // ----- the ring legs of validate_state -----

  function NonBlank(ring: seq<Line>): seq<Line> {
    if ring == [] then []
    else NonBlank(ring[..|ring| - 1]) + if ring[|ring| - 1] != "" then [ring[|ring| - 1]] else []
  }

  method DropBlanks(ring: seq<Line>) returns (kept: seq<Line>)
    ensures kept == NonBlank(ring)
  {
    kept := [];
    for i := 0 to |ring|
      invariant kept == NonBlank(ring[..i])
    {
      assert ring[..i + 1][..i] == ring[..i];
      if ring[i] != "" { kept := kept + [ring[i]]; }
    }
    assert ring[..|ring|] == ring;
  }

  /** What the count, uniqueness and splice legs accept, `prepended` being the probed batch. */
  ghost predicate Accepts(prev: seq<Line>, ring: seq<Line>, capacity: nat) {
    && |Bullets(ring)| == capacity && Unique(ring)
    && exists p: nat :: IsProbe(NonBlank(ring), NonBlank(prev), p) && Splices(NonBlank(prev), NonBlank(ring), p, capacity)
  }

  ghost predicate IsProbe(ring: seq<Line>, prev: seq<Line>, p: nat) {
    && p <= |ring| && (forall i :: 0 <= i < p ==> !Known(ring[i], prev))
    && (p < |ring| ==> Known(ring[p], prev))
  }

  /** `capacity` is the header's own `last N`, or the schema's number. */
  method ValidateRing(prev: seq<Line>, ring: seq<Line>, capacity: nat) returns (ok: bool)
    ensures ok <==> Accepts(prev, ring, capacity)
  {
    hide Unique, Bullets, NonBlank, Splices, Known;
    var count := CountBullets(ring);
    if count != capacity { return false; }
    var failures := CheckUnique(ring);
    if failures != 0 { return false; }
    var newRing := DropBlanks(ring);
    var prevRing := DropBlanks(prev);
    var prepended := ProbePrepended(newRing, prevRing);
    var verdict := CheckSplice(prevRing, newRing, prepended, capacity);
    assert IsProbe(newRing, prevRing, prepended);
    forall p: nat | IsProbe(newRing, prevRing, p) ensures p == prepended {
      OneProbe(newRing, prevRing, p, prepended);
    }
    ok := verdict.Fits?;
  }

  lemma OneProbe(ring: seq<Line>, prev: seq<Line>, p: nat, q: nat)
    requires IsProbe(ring, prev, p) && IsProbe(ring, prev, q)
    ensures p == q
  {
    hide Known;
  }

  // ----- the gate is exact -----

  /** Every line of the body is a ring bullet, or blank. */
  ghost predicate BulletsOnly(ring: seq<Line>) {
    forall l :: l in ring ==> l == "" || IsBullet(l)
  }

  ghost predicate DistinctIds(ring: seq<Line>) {
    && (forall i :: 0 <= i < |ring| ==> IsBullet(ring[i]))
    && (forall i, j :: 0 <= i < j < |ring| ==> RingId(ring[i]) != RingId(ring[j]))
  }

  /** New bullets with distinct ids, none of them known to the previous ring. */
  ghost predicate FreshBatch(batch: seq<Line>, prev: seq<Line>) {
    DistinctIds(batch) && forall i :: 0 <= i < |batch| ==> RingId(batch[i]) !in Ids(prev)
  }

  /** The ring a rotation writes: the newest `capacity` lines, one old line among them. */
  ghost predicate Rotates(batch: seq<Line>, prev: seq<Line>, ring: seq<Line>, capacity: nat) {
    && FreshBatch(batch, prev) && |batch| < capacity <= |batch| + |prev|
    && ring == (batch + prev)[..capacity]
  }

  lemma {:induction false} NonBlankHolds(ring: seq<Line>)
    ensures forall l :: l in NonBlank(ring) <==> l in ring && l != ""
  {
    if ring != [] {
      var m := |ring| - 1;
      assert ring == ring[..m] + [ring[m]];
      NonBlankHolds(ring[..m]);
    }
  }

  /** The bullets are among the non-blank lines, and as many only if they are all of them. */
  lemma {:induction false} BulletsAreFewer(ring: seq<Line>)
    ensures |Bullets(ring)| <= |NonBlank(ring)|
    ensures |Bullets(ring)| == |NonBlank(ring)| <==> BulletsOnly(ring)
  {
    hide IsBullet;
    if ring != [] {
      var m := |ring| - 1;
      assert ring == ring[..m] + [ring[m]];
      BulletsAreFewer(ring[..m]);
      assert !IsBullet("") by { BlankIsNoBullet(); }
      assert BulletsOnly(ring) <==> BulletsOnly(ring[..m]) && (ring[m] == "" || IsBullet(ring[m]));
    }
  }

  lemma BlankIsNoBullet()
    ensures !IsBullet("")
  {
  }

  lemma {:induction false} BlanksDoNotMatter(ring: seq<Line>)
    ensures Unique(ring) <==> Unique(NonBlank(ring))
  {
    hide RingId, IsBullet, Unique, Clashes;
    if ring != [] {
      var m := |ring| - 1;
      var kept := NonBlank(ring[..m]);
      assert ring == ring[..m] + [ring[m]];
      BlanksDoNotMatter(ring[..m]);
      UniqueExtends(ring[..m], ring[m]);
      if ring[m] == "" {
        assert kept + [] == kept;
        BlanksClashWithNothing(ring[..m]);
      } else {
        assert NonBlank(ring) == kept + [ring[m]];
        NonBlankHolds(ring[..m]);
        UniqueExtends(kept, ring[m]);
        SameLines(ring[..m], kept, ring[m]);
      }
    }
  }

  lemma UniqueExtends(ring: seq<Line>, last: Line)
    ensures Unique(ring + [last]) <==> Unique(ring) && forall k :: 0 <= k < |ring| ==> !Clashes(ring[k], last)
  {
    hide RingId, IsBullet;
    var more := ring + [last];
    UniqueGrows(more, |ring|);
    assert more[..|ring|] == ring && more[..|ring| + 1] == more;
    assert forall k :: 0 <= k < |ring| ==> more[k] == ring[k];
  }

  lemma BlanksClashWithNothing(ring: seq<Line>)
    ensures forall k :: 0 <= k < |ring| ==> !Clashes(ring[k], "")
  {
  }

  ghost predicate Clashes(l: Line, last: Line) {
    (l != "" && l == last) || (IsBullet(l) && IsBullet(last) && RingId(l) == RingId(last))
  }

  lemma SameLines(ring: seq<Line>, kept: seq<Line>, last: Line)
    requires last != "" && forall l :: l in kept <==> l in ring && l != ""
    ensures (forall k :: 0 <= k < |ring| ==> !Clashes(ring[k], last)) <==> forall k :: 0 <= k < |kept| ==> !Clashes(kept[k], last)
  {
    hide RingId;
    assert !IsBullet("");
    if forall k :: 0 <= k < |kept| ==> !Clashes(kept[k], last) {
      forall k | 0 <= k < |ring| ensures !Clashes(ring[k], last) {
        if ring[k] != "" { assert ring[k] in kept; }
      }
    }
    if forall k :: 0 <= k < |ring| ==> !Clashes(ring[k], last) {
      forall k | 0 <= k < |kept| ensures !Clashes(kept[k], last) {
        assert kept[k] in ring;
      }
    }
  }

  lemma UniqueBullets(ring: seq<Line>)
    requires forall i :: 0 <= i < |ring| ==> IsBullet(ring[i])
    ensures Unique(ring) <==> DistinctIds(ring)
  {
    hide RingId, IsBullet;
  }

  lemma AllBullets(ring: seq<Line>, kept: seq<Line>)
    requires kept == NonBlank(ring)
    ensures BulletsOnly(ring) <==> forall i :: 0 <= i < |kept| ==> IsBullet(kept[i])
  {
    hide IsBullet, NonBlank;
    NonBlankHolds(ring);
    if BulletsOnly(ring) {
      forall i | 0 <= i < |kept| ensures IsBullet(kept[i]) { assert kept[i] in kept; }
    } else {
      var l :| l in ring && l != "" && !IsBullet(l);
      assert l in kept;
      var i :| 0 <= i < |kept| && kept[i] == l;
      assert !IsBullet(kept[i]);
    }
  }

  /** A ring that takes over a line of the previous one is full of bullets: the gate counts
      bullets against the capacity but measures the splice in lines. */
  lemma OtherLinesAreRefused(prev: seq<Line>, ring: seq<Line>, capacity: nat)
    requires NonBlank(prev) != [] && Accepts(prev, ring, capacity)
    ensures BulletsOnly(ring) && |NonBlank(ring)| == capacity
  {
    hide IsBullet, NonBlank, Bullets, Unique, BulletsOnly;
    BulletsAreFewer(ring);
  }

  /** Against a previous ring with at least one line, the three legs accept a body, whatever
      lines it holds, exactly when its lines are bullets with distinct ids and are some fresh
      batch rotated onto the previous ring with at least one old line kept. */
  lemma GateIsExact(prev: seq<Line>, ring: seq<Line>, capacity: nat)
    requires NonBlank(prev) != []
    ensures Accepts(prev, ring, capacity)
       <==> DistinctIds(NonBlank(ring)) && exists batch :: Rotates(batch, NonBlank(prev), NonBlank(ring), capacity)
  {
    hide RingId, IsBullet, Rotates, NonBlank, Bullets, Unique, DistinctIds, BulletsOnly;
    var p, r := NonBlank(prev), NonBlank(ring);
    BlanksDoNotMatter(ring);
    AllBullets(ring, r);
    BulletsAreFewer(ring);
    if Accepts(prev, ring, capacity) {
      OtherLinesAreRefused(prev, ring, capacity);
      UniqueBullets(r);
      var n: nat :| IsProbe(r, p, n) && Splices(p, r, n, capacity);
      AcceptedRotates(p, r, n, capacity);
    }
    if DistinctIds(r) && exists batch :: Rotates(batch, p, r, capacity) {
      var batch :| Rotates(batch, p, r, capacity);
      RotationAccepted(p, r, batch, capacity);
      assert forall i :: 0 <= i < |r| ==> IsBullet(r[i]) by { DistinctAreBullets(r); }
      UniqueBullets(r);
    }
  }

  /** Onto a ring of distinct decisions every rotation of a fresh batch is one again, so there
      the rotations alone are what the gate accepts. */
  lemma RotationStaysDistinct(prev: seq<Line>, ring: seq<Line>, batch: seq<Line>, capacity: nat)
    requires DistinctIds(prev) && Rotates(batch, prev, ring, capacity)
    ensures DistinctIds(ring)
  {
    hide RingId, IsBullet;
    var n := |batch|;
    assert forall i :: 0 <= i < n ==> ring[i] == batch[i];
    assert forall i :: n <= i < capacity ==> ring[i] == prev[i - n];
    forall i, j | 0 <= i < j < |ring| ensures RingId(ring[i]) != RingId(ring[j]) {
      if i < n <= j { assert RingId(prev[j - n]) in Ids(prev); }
    }
  }

  /** Against an empty previous ring, which is also how the gate reads a missing one, only the
      count and the uniqueness legs speak: other lines pass them. */
  lemma FirstRingIsCounted(prev: seq<Line>, ring: seq<Line>, capacity: nat)
    requires NonBlank(prev) == []
    ensures Accepts(prev, ring, capacity) <==> |Bullets(ring)| == capacity && Unique(ring)
  {
    hide Unique, Bullets, NonBlank;
    var r := NonBlank(ring);
    assert Ids([]) == {};
    assert IsProbe(r, [], |r|) && Splices([], r, |r|, capacity);
  }

  lemma DistinctAreBullets(ring: seq<Line>)
    requires DistinctIds(ring)
    ensures forall i :: 0 <= i < |ring| ==> IsBullet(ring[i])
  {
  }

  lemma AcceptedRotates(p: seq<Line>, r: seq<Line>, n: nat, capacity: nat)
    requires |r| == capacity && DistinctIds(r) && p != []
    requires IsProbe(r, p, n) && Splices(p, r, n, capacity)
    ensures Rotates(r[..n], p, r, capacity)
  {
    hide RingId, IsBullet;
    var keep := Keep(p, n, capacity);
    assert |r[n..]| == keep;
    assert r == r[..n] + r[n..];
    assert (r[..n] + p)[..capacity] == r[..n] + p[..keep];
    forall i | 0 <= i < n ensures RingId(r[..n][i]) !in Ids(p) {
      assert !Known(r[i], p);
    }
  }

  lemma RotationAccepted(p: seq<Line>, r: seq<Line>, batch: seq<Line>, capacity: nat)
    requires DistinctIds(r) && p != [] && Rotates(batch, p, r, capacity)
    ensures |r| == capacity
    ensures IsProbe(r, p, |batch|) && Splices(p, r, |batch|, capacity)
  {
    hide RingId, IsBullet;
    var n := |batch|;
    assert forall i :: 0 <= i < n ==> r[i] == batch[i];
    assert forall i :: n <= i < capacity ==> r[i] == p[i - n];
    assert r[n..] == p[..capacity - n];
    assert Known(r[n], p) by { assert p[0] == r[n]; }
  }

  // ----- runs of writes -----

  /** All lines ever written, newest first. */
  function History(start: seq<Line>, batches: seq<seq<Line>>): seq<Line> {
    if batches == [] then start
    else batches[|batches| - 1] + History(start, batches[..|batches| - 1])
  }

  /** Each ring of the run was accepted against the one before it. */
  ghost predicate IsRun(rings: seq<seq<Line>>, capacities: seq<nat>) {
    && |rings| == |capacities| + 1
    && NonBlank(rings[0]) != []
    && (forall i :: 0 <= i < |capacities| ==> Accepts(rings[i], rings[i + 1], capacities[i]))
  }

  /** Over any run of accepted writes, whatever the first body held, the ring is the newest
      part of the history, as long as the header's capacity says: nothing reordered, dropped
      from the middle or invented. Every batch was new to the ring it was written onto. */
  lemma {:induction false} RingIsNewestHistory(rings: seq<seq<Line>>, capacities: seq<nat>) returns (batches: seq<seq<Line>>)
    requires IsRun(rings, capacities)
    ensures |batches| == |capacities|
    ensures forall i :: 0 <= i < |batches| ==> FreshBatch(batches[i], NonBlank(rings[i]))
    ensures var last := NonBlank(rings[|rings| - 1]);
            && last <= History(NonBlank(rings[0]), batches) && last != []
            && (|capacities| > 0 ==> |last| == capacities[|capacities| - 1] && DistinctIds(last))
  {
    hide NonBlank, Accepts, DistinctIds, Rotates, FreshBatch;
    if capacities == [] {
      batches := [];
    } else {
      var m := |capacities| - 1;
      var before := rings[..m + 1];
      batches := RingIsNewestHistory(before, capacities[..m]);
      GateIsExact(rings[m], rings[m + 1], capacities[m]);
      var batch :| Rotates(batch, NonBlank(rings[m]), NonBlank(rings[m + 1]), capacities[m]);
      RotationExtends(batch, NonBlank(rings[m]), NonBlank(rings[m + 1]), capacities[m], History(NonBlank(rings[0]), batches));
      batches := batches + [batch];
      assert batches[..m] + [batch] == batches && batches[..|batches| - 1] == batches[..m];
    }
  }

  lemma RotationExtends(batch: seq<Line>, prev: seq<Line>, ring: seq<Line>, capacity: nat, history: seq<Line>)
    requires Rotates(batch, prev, ring, capacity) && prev <= history && prev != []
    ensures ring <= batch + history && ring != [] && |ring| == capacity && FreshBatch(batch, prev)
  {
    assert batch + prev <= batch + history;
  }

  // ----- the capacity the header names -----

  const LAST: string := "last "

  /** A `last ` followed by a digit stands at position i. */
  predicate Numbered(line: Line, i: nat) {
    && i + |LAST| < |line| && line[i..i + |LAST|] == LAST && IsDigit(line[i + |LAST|])
  }

  /** Where the digits that begin at i end. */
  function DigitsEnd(line: Line, i: nat): (j: nat)
    requires i <= |line|
    ensures i <= j <= |line| && AllDigits(line[i..j])
    ensures j < |line| ==> !IsDigit(line[j])
    decreases |line| - i
  {
    if i == |line| || !IsDigit(line[i]) then i
    else
      var j := DigitsEnd(line, i + 1);
      assert line[i..j] == [line[i]] + line[i + 1..j];
      j
  }

  /** The number of the first numbered `last ` at or behind position i. */
  function CapacityFrom(line: Line, i: nat): Option<nat>
    decreases |line| - i
  {
    if i >= |line| then None
    else if Numbered(line, i) then Some(DecVal(line[i + |LAST|..DigitsEnd(line, i + |LAST|)]))
    else CapacityFrom(line, i + 1)
  }

  /** The schema's number, for a header that names none. */
  const SCHEMA_CAPACITY := 12

  function Capacity(header: Line): nat {
    match CapacityFrom(header, 0) case Some(n) => n case None => SCHEMA_CAPACITY
  }

  /** Without a numbered `last ` the schema's twelve lines are the capacity. */
  lemma {:induction false} NoNumberIsTwelve(header: Line, i: nat)
    requires forall j :: i <= j < |header| ==> !Numbered(header, j)
    ensures CapacityFrom(header, i) == None && (i == 0 ==> Capacity(header) == 12)
    decreases |header| - i
  {
    if i < |header| { NoNumberIsTwelve(header, i + 1); }
  }

  method RingCapacity(header: Line) returns (capacity: Option<nat>)
    ensures capacity == CapacityFrom(header, 0)
  {
    hide DecVal, DigitsEnd;
    var i := FindLast(header, 0);
    while i.Some?
      invariant i.None? ==> CapacityFrom(header, 0) == None
      invariant i.Some? ==> i.value + |LAST| <= |header| && header[i.value..i.value + |LAST|] == LAST
      invariant i.Some? ==> CapacityFrom(header, 0) == CapacityFrom(header, i.value)
      decreases if i.Some? then |header| - i.value else -1
    {
      var from := i.value + |LAST|;
      var digits := TakeDigits(header, from);
      assert digits != "" <==> Numbered(header, i.value);
      if digits != "" { return Some(DecVal(digits)); }
      i := FindLast(header, i.value + 1);
    }
    capacity := None;
  }

  method TakeDigits(line: Line, from: nat) returns (digits: string)
    requires from <= |line|
    ensures digits == line[from..DigitsEnd(line, from)]
  {
    digits := "";
    var k := from;
    while k < |line| && IsDigit(line[k])
      invariant from <= k <= |line| && digits == line[from..k]
      invariant DigitsEnd(line, from) == DigitsEnd(line, k)
    {
      digits := digits + [line[k]];
      k := k + 1;
    }
  }

  /** `header.find("last ", from)`. */
  method FindLast(header: Line, from: nat) returns (i: Option<nat>)
    ensures i.Some? ==> from <= i.value && i.value + |LAST| <= |header| && header[i.value..i.value + |LAST|] == LAST
    ensures CapacityFrom(header, from) == if i.Some? then CapacityFrom(header, i.value) else None
  {
    var k := from;
    while k + |LAST| <= |header| && header[k..k + |LAST|] != LAST
      invariant from <= k
      invariant CapacityFrom(header, from) == CapacityFrom(header, k)
      decreases |header| - k
    {
      k := k + 1;
    }
    if k + |LAST| <= |header| { return Some(k); }
    NoneBehind(header, k);
    i := None;
  }

  lemma {:induction false} NoneBehind(header: Line, k: nat)
    requires k + |LAST| > |header|
    ensures CapacityFrom(header, k) == None
    decreases |header| - k
  {
    if k < |header| { NoneBehind(header, k + 1); }
  }

  /** The capacity is the first numbered `last N` of the header and no other. */
  lemma {:induction false} CapacityIsFirst(line: Line, i: nat, k: nat)
    requires i <= k && Numbered(line, k) && forall j :: i <= j < k ==> !Numbered(line, j)
    ensures CapacityFrom(line, i) == Some(DecVal(line[k + |LAST|..DigitsEnd(line, k + |LAST|)]))
    decreases k - i
  {
    if i < k { CapacityIsFirst(line, i + 1, k); }
  }

  const HEADER_TEXT: string := "## decisions ring ("

  /** The header as it is written: its capacity reads back, whatever stands behind it. */
  function Header(capacity: nat, rest: string): Line {
    HEADER_TEXT + LAST + Dec(capacity) + rest
  }

  lemma HeaderReadsBack(capacity: nat, rest: string)
    requires rest == "" || !IsDigit(rest[0])
    ensures IsRingHeader(Header(capacity, rest)) && Capacity(Header(capacity, rest)) == capacity
  {
    hide DecVal, Dec, CapacityFrom;
    var line := Header(capacity, rest);
    var k := |HEADER_TEXT|;
    var from, to := k + |LAST|, k + |LAST| + |Dec(capacity)|;
    assert line[from..to] == Dec(capacity) && line[to..] == rest && line[k..from] == LAST;
    assert IsDigit(line[from]) by { assert line[from] == Dec(capacity)[0] && Dec(capacity)[0] in Dec(capacity); }
    DigitsRun(line, from, to);
    forall j | 0 <= j < k ensures !Numbered(line, j) {
      assert line[..from] == "## decisions ring (last ";
      assert line[j] == line[..from][j];
    }
    CapacityIsFirst(line, 0, k);
    DecRoundTrip(capacity);
  }

  lemma {:induction false} DigitsRun(line: Line, i: nat, j: nat)
    requires i <= j <= |line| && AllDigits(line[i..j]) && (j < |line| ==> !IsDigit(line[j]))
    ensures DigitsEnd(line, i) == j
    decreases j - i
  {
    if i < j {
      assert line[i] in line[i..j];
      assert forall c :: c in line[i + 1..j] ==> c in line[i..j];
      DigitsRun(line, i + 1, j);
    }
  }

  // ----- the ring legs on a state file's lines -----

  /** What the ring legs accept of a state file, `prev` being the previous file's ring lines. */
  ghost predicate AcceptsFile(prev: Option<seq<Line>>, lines: seq<Line>) {
    exists lo: nat, hi: nat :: IsSection(lines, lo, hi)
      && Accepts(if prev.Some? then prev.value else [], lines[lo..hi], Capacity(lines[lo - 1]))
  }

  lemma OneSection(lines: seq<Line>, lo: nat, hi: nat, lo': nat, hi': nat)
    requires IsSection(lines, lo, hi) && IsSection(lines, lo', hi')
    ensures lo == lo' && hi == hi'
  {
    hide IsRingHeader, IsHeading;
    assert IsRingHeader(lines[lo - 1]) && IsRingHeader(lines[lo' - 1]);
    assert hi < |lines| ==> IsHeading(lines[hi]);
  }

  /** The first ring header's section, counted against the capacity its own header names. */
  method ValidateFile(lines: seq<Line>, prev: Option<seq<Line>>) returns (ok: bool)
    ensures ok <==> AcceptsFile(prev, lines)
  {
    hide IsRingHeader, IsHeading, Accepts, CapacityFrom;
    var bounds := SectionBounds(lines);
    if bounds.None? { return false; }
    var (lo, hi) := bounds.value;
    var probed := RingCapacity(lines[lo - 1]);
    var capacity := if probed.Some? then probed.value else SCHEMA_CAPACITY;
    var ring := lines[lo..hi];
    if prev.Some? {
      ok := ValidateRing(prev.value, ring, capacity);
    } else {
      ok := CountAndUnique(ring, capacity);
      FirstRingIsCounted([], ring, capacity);
    }
    forall lo': nat, hi': nat | IsSection(lines, lo', hi') ensures lo' == lo && hi' == hi {
      OneSection(lines, lo, hi, lo', hi');
    }
  }

  method CountAndUnique(ring: seq<Line>, capacity: nat) returns (ok: bool)
    ensures ok <==> |Bullets(ring)| == capacity && Unique(ring)
  {
    hide Unique, Bullets;
    var count := CountBullets(ring);
    if count != capacity { return false; }
    var failures := CheckUnique(ring);
    ok := failures == 0;
  }

  /** The ring lines of a state file and the capacity above them. */
  ghost predicate HasRing(lines: seq<Line>, ring: seq<Line>, capacity: nat) {
    exists lo: nat, hi: nat :: IsSection(lines, lo, hi) && ring == lines[lo..hi] && capacity == Capacity(lines[lo - 1])
  }

  /** State files each accepted against the ring of the file before: the last one's ring is
      the newest part of everything ever written, at the length its own header names. */
  lemma FilesKeepHistory(files: seq<seq<Line>>, rings: seq<seq<Line>>, capacities: seq<nat>)
    returns (batches: seq<seq<Line>>)
    requires |files| == |capacities| == |rings| - 1 && NonBlank(rings[0]) != []
    requires forall i :: 0 <= i < |files| ==> AcceptsFile(Some(rings[i]), files[i])
    requires forall i :: 0 <= i < |files| ==> HasRing(files[i], rings[i + 1], capacities[i])
    ensures |batches| == |files|
    ensures forall i :: 0 <= i < |batches| ==> FreshBatch(batches[i], NonBlank(rings[i]))
    ensures var last := NonBlank(rings[|files|]);
            && last <= History(NonBlank(rings[0]), batches) && last != []
            && (|files| > 0 ==> |last| == capacities[|files| - 1] && DistinctIds(last))
  {
    hide NonBlank, Accepts, DistinctIds, FreshBatch, IsSection, Capacity, HasRing, AcceptsFile;
    forall i | 0 <= i < |files| ensures Accepts(rings[i], rings[i + 1], capacities[i]) {
      AcceptedSection(files[i], rings[i], rings[i + 1], capacities[i]);
    }
    batches := RingIsNewestHistory(rings, capacities);
  }

  lemma AcceptedSection(lines: seq<Line>, prev: seq<Line>, ring: seq<Line>, capacity: nat)
    requires AcceptsFile(Some(prev), lines) && HasRing(lines, ring, capacity)
    ensures Accepts(prev, ring, capacity)
  {
    hide Accepts, Capacity, IsRingHeader, IsHeading;
    var lo: nat, hi: nat :| IsSection(lines, lo, hi) && ring == lines[lo..hi] && capacity == Capacity(lines[lo - 1]);
    var lo': nat, hi': nat :| IsSection(lines, lo', hi') && Accepts(prev, lines[lo'..hi'], Capacity(lines[lo' - 1]));
    OneSection(lines, lo, hi, lo', hi');
  }

  // ----- the carry gate for surfaces that are not rings -----

  /** `prev` embeds into `lines` at increasing positions. */
  ghost predicate Embeds(prev: seq<Line>, lines: seq<Line>, at: seq<nat>) {
    && |at| == |prev|
    && (forall i :: 0 <= i < |at| ==> at[i] < |lines| && lines[at[i]] == prev[i])
    && (forall i, j :: 0 <= i < j < |at| ==> at[i] < at[j])
  }

  ghost predicate IsSubsequence(prev: seq<Line>, lines: seq<Line>) {
    exists at :: Embeds(prev, lines, at)
  }

  /** Greedy leftmost matching: the index of the first carried line that breaks, if any. */
  method ByteCarry(prev: seq<Line>, lines: seq<Line>) returns (broken: Option<nat>)
    ensures broken.None? <==> IsSubsequence(prev, lines)
    ensures broken.Some? ==>
      && broken.value < |prev|
      && IsSubsequence(prev[..broken.value], lines) && !IsSubsequence(prev[..broken.value + 1], lines)
  {
    var carryFrom := 0;
    ghost var at: seq<nat> := [];
    for i := 0 to |prev|
      invariant Embeds(prev[..i], lines, at) && carryFrom == (if i == 0 then 0 else at[i - 1] + 1) <= |lines|
      invariant forall other :: Embeds(prev[..i], lines, other) ==> (if i == 0 then 0 else other[i - 1] + 1) >= carryFrom
    {
      var j := carryFrom;
      while j < |lines| && lines[j] != prev[i]
        invariant carryFrom <= j <= |lines|
        invariant forall k :: carryFrom <= k < j ==> lines[k] != prev[i]
      {
        j := j + 1;
      }
      forall other | Embeds(prev[..i + 1], lines, other)
        ensures other[i] >= j
      {
        EmbedsPrefix(prev, lines, other, i);
      }
      if j == |lines| {
        BrokenForGood(prev, lines, i);
        return Some(i);
      }
      ghost var longer := at + [j];
      assert Embeds(prev[..i + 1], lines, longer);
      at := longer;
      carryFrom := j + 1;
    }
    assert prev[..|prev|] == prev;
    broken := None;
  }

  lemma BrokenForGood(prev: seq<Line>, lines: seq<Line>, i: nat)
    requires i < |prev|
    requires forall other :: Embeds(prev[..i + 1], lines, other) ==> other[i] >= |lines|
    ensures !IsSubsequence(prev[..i + 1], lines) && !IsSubsequence(prev, lines)
  {
    var head := prev[..i + 1];
    forall other | Embeds(head, lines, other) ensures false {
      Lands(head, lines, other, i);
    }
    if IsSubsequence(prev, lines) {
      var at :| Embeds(prev, lines, at);
      EmbedsCut(prev, lines, at, i + 1);
    }
  }

  lemma Lands(prev: seq<Line>, lines: seq<Line>, at: seq<nat>, i: nat)
    requires Embeds(prev, lines, at) && i < |prev|
    ensures at[i] < |lines|
  {
  }

  lemma EmbedsCut(prev: seq<Line>, lines: seq<Line>, at: seq<nat>, n: nat)
    requires n <= |prev| && Embeds(prev, lines, at)
    ensures Embeds(prev[..n], lines, at[..n])
  {
  }

  lemma EmbedsPrefix(prev: seq<Line>, lines: seq<Line>, at: seq<nat>, i: nat)
    requires i < |prev| && Embeds(prev[..i + 1], lines, at)
    ensures Embeds(prev[..i], lines, at[..i]) && at[i] < |lines| && lines[at[i]] == prev[i]
    ensures i > 0 ==> at[i - 1] < at[i]
  {
    assert prev[..i + 1][..i] == prev[..i];
    EmbedsCut(prev[..i + 1], lines, at, i);
  }
}
