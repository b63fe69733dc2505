/** The ideation cycle (scripts/ideate.py:700-787, 848-879) on the files it edits, and what
    holds over any run of cycles, sweeps and operator edits. */
module Ideate {
  import opened Text
  import opened Table
  import opened Lane
  import opened Filing
  import TodoFlip

  const MAX_PROPOSALS := 3

  /** A filing that happened. */
  datatype Filed = Filed(number: nat, slug: string)

  /** Where a filing cycle ends: the repository, what was filed, and the assertion that
      stopped it, if one did. */
  datatype Cycled = Cycled(repo: Repo, filed: seq<Filed>, stopped: Option<FileError>)

  /** The cycle over the remaining candidates: taken slugs and rejected candidates are passed
      over, at most three are filed. */
  function Cycle(repo: Repo, taken: set<string>, n: nat, count: nat, cands: seq<Candidate>, iso: string, week: string): Cycled
    decreases |cands|
  {
    if cands == [] || count >= MAX_PROPOSALS then Cycled(repo, [], None)
    else
      var c := cands[0];
      if c.slug in taken || !c.outward then Cycle(repo, taken, n, count, cands[1..], iso, week)
      else
        match FileOne(repo, c, n, iso, week)
        case Err(e) => Cycled(repo, [], Some(e))
        case Ok(next) =>
          var rest := Cycle(next, taken + {c.slug}, n + 1, count + 1, cands[1..], iso, week);
          Cycled(rest.repo, [Filed(n, c.slug)] + rest.filed, rest.stopped)
  }

  function ProposeOn(lower: string -> string, repo: Repo, cands: seq<Candidate>, iso: string, week: string): Cycled {
    Cycle(repo, FiledSlugs(lower, repo), NextNumber(repo), 0, cands, iso, week)
  }

  // ----- the files -----

  datatype Failure = NoTodo | NoLane | BadRow(id: string) | Stopped(why: FileError)

  predicate HasLane(lines: seq<string>) { LaneAt(lines, 0) < |lines| }

  /** A row whose rebuilt form fails the shape assertion. */
  predicate Bad(env: Env, line: string) {
    Flips(env, line) && (PhysicalLines(SweptLine(env, line)) != 1 || !SixCells(SweptLine(env, line)))
  }

  class Repository {
    var todo: Option<string>
    var stubs: seq<string>

    ghost function Value(): Repo
      requires todo.Some?
      reads this
    {
      Repo(Lines(todo.value), stubs)
    }

    /** `ratify`: all rows or none; the file is written only when a row flipped. */
    method Ratify(env: Env) returns (r: Result<seq<string>, Failure>)
      modifies this`todo
      ensures old(todo).None? ==> r == Err(NoTodo)
      ensures old(todo).Some? ==>
        var lines := Lines(old(todo).value);
        && (r.Err? <==> exists i :: 0 <= i < |lines| && Bad(env, lines[i]))
        && (r.Ok? ==> r.value == FlippedIds(env, lines, |lines|))
      ensures r.Err? || r.value == [] ==> todo == old(todo)
      ensures r.Ok? && r.value != [] ==> todo == Some(Join(Swept(env, Lines(old(todo).value)), "\n"))
    {
      hide PCells, RowCells, Eligible, Ratified, Row, PhysicalLines, Lines, Join, SixCells;
      if todo.None? { return Err(NoTodo); }
      var lines := Lines(todo.value);
      var current := lines;
      var flipped := [];
      for idx := 0 to |lines|
        invariant todo == old(todo)
        invariant |current| == |lines| && flipped == FlippedIds(env, lines, idx)
        invariant forall i :: 0 <= i < idx ==> current[i] == SweptLine(env, lines[i]) && !Bad(env, lines[i])
        invariant forall i :: idx <= i < |lines| ==> current[i] == lines[i]
      {
        var cells := PCells(lines[idx]);
        if cells.None? || !Eligible(env, cells.value) { continue; }
        PCellsAreSix(env, cells.value);
        var rebuilt := Row(Ratified(env.iso, cells.value));
        if PhysicalLines(rebuilt) != 1 || !SixCells(rebuilt) {
          assert Bad(env, lines[idx]);
          FirstOf(lines[idx]);
          return Err(BadRow(cells.value[0]));
        }
        current := TodoFlip.Splice(current, idx, rebuilt);
        FirstOf(lines[idx]);
        flipped := flipped + [cells.value[0]];
      }
      if flipped != [] {
        assert current == Swept(env, lines);
        todo := Some(Join(current, "\n"));
      }
      return Ok(flipped);
    }

    /** `file_proposal`: nothing is written before every assertion has passed. */
    method FileProposal(lines: seq<string>, cand: Candidate, n: nat, iso: string, week: string) returns (r: Result<seq<string>, FileError>)
      modifies this
      ensures var want := FileOne(Repo(lines, old(stubs)), cand, n, iso, week);
        && (want.Err? ==> r == Err(want.error) && todo == old(todo) && stubs == old(stubs))
        && (want.Ok? ==> r == Ok(want.value.lines) && stubs == want.value.stubs && todo == Some(Join(want.value.lines, "\n")))
    {
      hide Row, InsertAt, PhysicalLines, SixCells, Join, Pid, FileName, Notes;
      var cells := ProposalCells(cand, n, iso, week);
      var hazard := false;
      for i := 0 to EXPECTED_CELLS
        invariant hazard <==> exists j :: 0 <= j < i && Hazardous(cells[j])
        invariant todo == old(todo) && stubs == old(stubs)
      {
        if Hazardous(cells[i]) { hazard := true; }
      }
      if hazard { return Err(Hazard); }
      var row := Row(cells);
      var at := InsertAt(lines);
      if at.None? { return Err(LaneGone); }
      var newLines := lines[..at.value] + [row] + lines[at.value..];
      if PhysicalLines(row) != 1 || !SixCells(row) { return Err(Shape); }
      stubs := AddFile(stubs, FileName(n, cand.slug));
      todo := Some(Join(newLines, "\n"));
      return Ok(newLines);
    }

    /** `propose`: a cycle stopped by an assertion keeps what it filed before. */
    method Propose(lower: string -> string, cands: seq<Candidate>, iso: string, week: string) returns (r: Result<seq<Filed>, Failure>)
      modifies this
      ensures old(todo).None? ==> r == Err(NoTodo) && todo == None && stubs == old(stubs)
      ensures old(todo).Some? && !HasLane(Lines(old(todo).value)) ==>
        r == Err(NoLane) && todo == old(todo) && stubs == old(stubs)
      ensures old(todo).Some? && HasLane(Lines(old(todo).value)) ==>
        var want := ProposeOn(lower, Repo(Lines(old(todo).value), old(stubs)), cands, iso, week);
        && r == (if want.stopped.Some? then Err(Stopped(want.stopped.value)) else Ok(want.filed))
        && stubs == want.repo.stubs
        && todo == if want.filed == [] then old(todo) else Some(Join(want.repo.lines, "\n"))
    {
      hide LaneAt, FiledSlugs, NextNumber, FileOne, Lines, Join, Cycle;
      if todo.None? { return Err(NoTodo); }
      var lines := Lines(todo.value);
      if LaneAt(lines, 0) == |lines| { return Err(NoLane); }
      var start := Repo(lines, stubs);
      var taken := FiledSlugs(lower, start);
      var n := NextNumber(start);
      var filed := [];
      var k := 0;
      ghost var want := ProposeOn(lower, start, cands, iso, week);
      while k < |cands| && |filed| < MAX_PROPOSALS
        invariant k <= |cands| && |filed| <= MAX_PROPOSALS
        invariant var rest := Cycle(Repo(lines, stubs), taken, n, |filed|, cands[k..], iso, week);
          want == Cycled(rest.repo, filed + rest.filed, rest.stopped)
        invariant todo == if filed == [] then old(todo) else Some(Join(lines, "\n"))
      {
        var cand := cands[k];
        assert cands[k..][1..] == cands[k + 1..];
        CycleStep(Repo(lines, stubs), taken, n, |filed|, cands[k..], iso, week);
        k := k + 1;
        if cand.slug in taken || !cand.outward { continue; }
        var next := FileProposal(lines, cand, n, iso, week);
        if next.Err? {
          assert filed + [] == filed;
          return Err(Stopped(next.error));
        }
        lines := next.value;
        filed := filed + [Filed(n, cand.slug)];
        taken := taken + {cand.slug};
        n := n + 1;
      }
      assert filed + [] == filed;
      CycleEnd(Repo(lines, stubs), taken, n, |filed|, cands[k..], iso, week);
      return Ok(filed);
    }
  }

  lemma CycleStep(repo: Repo, taken: set<string>, n: nat, count: nat, cands: seq<Candidate>, iso: string, week: string)
    requires cands != [] && count < MAX_PROPOSALS
    ensures Cycle(repo, taken, n, count, cands, iso, week) ==
      var c, later := cands[0], cands[1..];
      if c.slug in taken || !c.outward then Cycle(repo, taken, n, count, later, iso, week)
      else
        match FileOne(repo, c, n, iso, week)
        case Err(e) => Cycled(repo, [], Some(e))
        case Ok(next) =>
          var rest := Cycle(next, taken + {c.slug}, n + 1, count + 1, later, iso, week);
          Cycled(rest.repo, [Filed(n, c.slug)] + rest.filed, rest.stopped)
  {
    hide FileOne;
  }

  lemma CycleEnd(repo: Repo, taken: set<string>, n: nat, count: nat, cands: seq<Candidate>, iso: string, week: string)
    requires cands == [] || count >= MAX_PROPOSALS
    ensures Cycle(repo, taken, n, count, cands, iso, week) == Cycled(repo, [], None)
  {
  }

  lemma PCellsAreSix(env: Env, cells: seq<string>)
    requires Eligible(env, cells)
    ensures |cells| == EXPECTED_CELLS
  {}

  lemma FirstOf(line: string)
    requires PCells(line).Some?
    ensures PCells(line).value != []
  {}

  /** The text a sweep or a filing leaves splits into the same lines again. */
  lemma FiledTextReadsBack(file: string, stubs: seq<string>, cand: Candidate, n: nat, iso: string, week: string)
    ensures var r := FileOne(Repo(Lines(file), stubs), cand, n, iso, week);
      r.Ok? ==> Lines(Join(r.value.lines, "\n")) == r.value.lines
  {
    var r := FileOne(Repo(Lines(file), stubs), cand, n, iso, week);
    if r.Err? { return; }
    var out := r.value;
    hide Row, PhysicalLines, Lines, Join, InsertAt, SixCells, ProposalCells, FileName, AddFile, Insert;
    FileLines(file);
    var cells := ProposalCells(cand, n, iso, week);
    RowIsOneLine(cells);
    var lines := Lines(file);
    var at := InsertAt(lines).value;
    InsertedLines(lines, at, Row(cells));
    LinesJoin(out.lines);
  }

  // ----- one cycle -----

  ghost predicate GoodCandidates(cands: seq<Candidate>) {
    forall i :: 0 <= i < |cands| ==> Slug(cands[i].slug)
  }

  /** Whatever a row or stub file held is still held. */
  ghost predicate KeepsHeld(lower: string -> string, repo: Repo, out: Repo) {
    && (forall m :: HoldsNumber(repo, m) ==> HoldsNumber(out, m))
    && (forall s :: HoldsSlug(lower, repo, s) ==> HoldsSlug(lower, out, s))
  }

  /** Consecutive numbers from n on, slugs not taken and all different. */
  ghost predicate FiledInOrder(filed: seq<Filed>, taken: set<string>, n: nat) {
    && (forall i :: 0 <= i < |filed| ==> filed[i].number == n + i && filed[i].slug !in taken)
    && (forall i, j :: 0 <= i < j < |filed| ==> filed[i].slug != filed[j].slug)
  }

  ghost predicate AllHeld(lower: string -> string, repo: Repo, filed: seq<Filed>) {
    forall i :: 0 <= i < |filed| ==> HoldsNumber(repo, filed[i].number) && HoldsSlug(lower, repo, filed[i].slug)
  }

  lemma OneMoreInOrder(first: Filed, filed: seq<Filed>, taken: set<string>, n: nat)
    requires first.number == n && first.slug !in taken && FiledInOrder(filed, taken + {first.slug}, n + 1)
    ensures FiledInOrder([first] + filed, taken, n)
  {
    var all := [first] + filed;
    assert forall i {:trigger all[i]} :: 0 < i < |all| ==> all[i] == filed[i - 1];
  }

  lemma OneMoreHeld(lower: string -> string, next: Repo, repo: Repo, first: Filed, filed: seq<Filed>)
    ensures HoldsNumber(next, first.number) && HoldsSlug(lower, next, first.slug)
            && KeepsHeld(lower, next, repo) && AllHeld(lower, repo, filed)
            ==> AllHeld(lower, repo, [first] + filed)
  {
    hide HoldsNumber, HoldsSlug;
    var all := [first] + filed;
    assert forall i {:trigger all[i]} :: 0 < i < |all| ==> all[i] == filed[i - 1];
  }

  lemma FilingKeeps(lower: string -> string, repo: Repo, c: Candidate, n: nat, iso: string, week: string, next: Repo)
    requires Folds(lower) && Slug(c.slug) && FileOne(repo, c, n, iso, week) == Ok(next)
    ensures KeepsHeld(lower, repo, next) && HoldsNumber(next, n) && HoldsSlug(lower, next, c.slug)
  {
    hide FileOne, Folds, Slug, HoldsNumber, HoldsSlug;
    FilingAddsOne(lower, repo, c, n, iso, week, next);
  }

  lemma KeepsHeldChains(lower: string -> string, a: Repo, b: Repo, c: Repo)
    requires KeepsHeld(lower, a, b) && KeepsHeld(lower, b, c)
    ensures KeepsHeld(lower, a, c)
  {
    hide HoldsNumber, HoldsSlug;
  }

  lemma LaterCandidates(cands: seq<Candidate>)
    requires cands != [] && GoodCandidates(cands)
    ensures Slug(cands[0].slug) && GoodCandidates(cands[1..])
  {
    hide Slug;
    var later := cands[1..];
    forall i | 0 <= i < |later| ensures Slug(later[i].slug) { assert later[i] == cands[i + 1]; }
  }

  ghost predicate IsFiled(filed: seq<Filed>, slug: string) {
    exists k :: 0 <= k < |filed| && filed[k].slug == slug
  }

  ghost predicate IsOffered(cands: seq<Candidate>, slug: string) {
    exists i :: 0 <= i < |cands| && cands[i].slug == slug && cands[i].outward
  }

  /** A cycle files outward candidates only, and passes over none of them: unless it was stopped
      or had its three, each candidate's slug was taken before or is filed. */
  lemma {:induction false} CyclePassesOverNothing(repo: Repo, taken: set<string>, n: nat, count: nat, cands: seq<Candidate>,
                                                  iso: string, week: string)
    requires count <= 3
    ensures var c := Cycle(repo, taken, n, count, cands, iso, week);
      && count + |c.filed| <= 3
      && (forall slug :: IsFiled(c.filed, slug) ==> IsOffered(cands, slug))
      && (c.stopped.None? && count + |c.filed| < 3 ==>
            forall slug :: IsOffered(cands, slug) ==> slug in taken || IsFiled(c.filed, slug))
    decreases |cands|
  {
    hide FileOne;
    if cands != [] && count < 3 {
      var c := cands[0];
      assert cands == [c] + cands[1..];
      if c.slug in taken || !c.outward {
        CyclePassesOverNothing(repo, taken, n, count, cands[1..], iso, week);
      } else {
        match FileOne(repo, c, n, iso, week)
        case Err(_) =>
        case Ok(next) =>
          CyclePassesOverNothing(next, taken + {c.slug}, n + 1, count + 1, cands[1..], iso, week);
          var rest := Cycle(next, taken + {c.slug}, n + 1, count + 1, cands[1..], iso, week).filed;
          forall slug ensures IsFiled([Filed(n, c.slug)] + rest, slug) <==> c.slug == slug || IsFiled(rest, slug) {
            FiledFirst(Filed(n, c.slug), rest, slug);
          }
      }
      forall slug ensures IsOffered(cands, slug) <==> (c.slug == slug && c.outward) || IsOffered(cands[1..], slug) {
        OfferedFirst(cands, slug);
      }
    }
  }

  lemma FiledFirst(f: Filed, rest: seq<Filed>, slug: string)
    ensures IsFiled([f] + rest, slug) <==> f.slug == slug || IsFiled(rest, slug)
  {
    var all := [f] + rest;
    assert all[0] == f && forall k :: 0 <= k < |rest| ==> all[k + 1] == rest[k];
    if k :| 0 <= k < |rest| && rest[k].slug == slug { assert all[k + 1].slug == slug; }
  }

  lemma OfferedFirst(cands: seq<Candidate>, slug: string)
    requires cands != []
    ensures IsOffered(cands, slug) <==> (cands[0].slug == slug && cands[0].outward) || IsOffered(cands[1..], slug)
  {
    if k :| 0 <= k < |cands[1..]| && cands[1..][k].slug == slug && cands[1..][k].outward {
      assert cands[k + 1].slug == slug;
    }
  }

  /** What a cycle files, in order: consecutive numbers from n on, slugs that were not taken
      and differ from each other, at most three; everything held before is still held. */
  lemma {:induction false} CycleFiles(lower: string -> string, repo: Repo, taken: set<string>, n: nat, count: nat,
                                      cands: seq<Candidate>, iso: string, week: string)
    requires Folds(lower) && GoodCandidates(cands) && count <= 3
    ensures var c := Cycle(repo, taken, n, count, cands, iso, week);
      && count + |c.filed| <= 3 && FiledInOrder(c.filed, taken, n)
      && AllHeld(lower, c.repo, c.filed) && KeepsHeld(lower, repo, c.repo)
    decreases |cands|
  {
    hide FileOne, Folds, Slug, HoldsNumber, HoldsSlug, GoodCandidates;
    if cands == [] || count >= MAX_PROPOSALS { return; }
    hide KeepsHeld, FiledInOrder, AllHeld;
    var c := cands[0];
    var later := cands[1..];
    LaterCandidates(cands);
    if c.slug in taken || !c.outward {
      CycleFiles(lower, repo, taken, n, count, later, iso, week);
    } else {
      match FileOne(repo, c, n, iso, week)
      case Err(_) =>
        NothingFiled(lower, repo, taken, n);
      case Ok(next) =>
        FilingKeeps(lower, repo, c, n, iso, week, next);
        CycleFiles(lower, next, taken + {c.slug}, n + 1, count + 1, later, iso, week);
        var rest := Cycle(next, taken + {c.slug}, n + 1, count + 1, later, iso, week);
        KeepsHeldChains(lower, repo, next, rest.repo);
        OneMoreInOrder(Filed(n, c.slug), rest.filed, taken, n);
        OneMoreHeld(lower, next, rest.repo, Filed(n, c.slug), rest.filed);
    }
  }

  lemma NothingFiled(lower: string -> string, repo: Repo, taken: set<string>, n: nat)
    ensures FiledInOrder([], taken, n) && AllHeld(lower, repo, []) && KeepsHeld(lower, repo, repo)
  {}

  // ----- over any run -----

  /** The repository and every filing so far. */
  datatype World = World(repo: Repo, issued: seq<Filed>)

  /** Issued numbers are passed and issued slugs are held by some row or stub file. */
  ghost predicate KeepsTraces(lower: string -> string, repo: Repo, issued: seq<Filed>) {
    forall i :: 0 <= i < |issued| ==>
      issued[i].number < NextNumber(repo) && HoldsSlug(lower, repo, issued[i].slug)
  }

  ghost predicate Proposes(lower: string -> string, w: World, v: World, cands: seq<Candidate>, iso: string, week: string) {
    && GoodCandidates(cands)
    && var c := ProposeOn(lower, w.repo, cands, iso, week);
       v == World(c.repo, w.issued + c.filed)
  }

  ghost predicate Sweeps(w: World, v: World, env: Env) {
    Iso(env.iso) && v == World(Repo(Swept(env, w.repo.lines), w.repo.stubs), w.issued)
  }

  /** The row again, moved or with other cells: same number, same spec file. */
  ghost predicate SameProposal(lower: string -> string, line: string, other: string) {
    && PCells(line).Some? && PCells(other).Some?
    && PidNumber(PCells(line).value[0]) == PidNumber(PCells(other).value[0])
    && forall s :: RowHoldsSlug(lower, line, s) ==> RowHoldsSlug(lower, other, s)
  }

  /** The row's stub file: same number, same slug. */
  ghost predicate StubOf(lower: string -> string, f: string, line: string) {
    && PCells(line).Some? && StubNumber(f) == Some(PidNumber(PCells(line).value[0]))
    && forall s :: RowHoldsSlug(lower, line, s) ==> SpecSlug(lower, f) == Some(s)
  }

  /** The stub file's row: same number and same slug, as far as the file's name has them. */
  ghost predicate RowOf(lower: string -> string, line: string, f: string) {
    && (StubNumber(f).Some? ==> PCells(line).Some? && StubNumber(f) == Some(PidNumber(PCells(line).value[0])))
    && (SpecSlug(lower, f).Some? ==> RowHoldsSlug(lower, line, SpecSlug(lower, f).value))
  }

  /** What the operator may do between cycles: add, move and rewrite lines and files at will,
      veto, retitle or delete a proposal's row if its stub file stays, and delete a stub file
      if its row stays. */
  ghost predicate OperatorEdits(lower: string -> string, repo: Repo, out: Repo) {
    && (forall line :: line in repo.lines && PCells(line).Some? ==>
          || (exists other :: other in out.lines && SameProposal(lower, line, other))
          || (exists f :: f in out.stubs && StubOf(lower, f, line)))
    && (forall f :: f in repo.stubs ==>
          f in out.stubs || exists line :: line in out.lines && RowOf(lower, line, f))
  }

  /** One step: a filing cycle, a sweep, or an edit by the operator. */
  ghost predicate StepTo(lower: string -> string, w: World, v: World) {
    || (exists cands, iso, week :: Proposes(lower, w, v, cands, iso, week))
    || (exists env :: Sweeps(w, v, env))
    || (v.issued == w.issued && OperatorEdits(lower, w.repo, v.repo))
  }

  lemma EditKeepsNumber(lower: string -> string, repo: Repo, out: Repo, m: nat)
    requires OperatorEdits(lower, repo, out)
    ensures HoldsNumber(repo, m) ==> HoldsNumber(out, m)
  {
    hide PCells, StubNumber, SpecSlug, RowHoldsSlug;
    if i :| 0 <= i < |repo.lines| && PCells(repo.lines[i]).Some? && PidNumber(PCells(repo.lines[i]).value[0]) == m {
      var line := repo.lines[i];
      if other :| other in out.lines && SameProposal(lower, line, other) {
        var j :| 0 <= j < |out.lines| && out.lines[j] == other;
      } else {
        var f :| f in out.stubs && StubOf(lower, f, line);
      }
    } else if f :| f in repo.stubs && StubNumber(f) == Some(m) {
      if f !in out.stubs {
        var line :| line in out.lines && RowOf(lower, line, f);
        var j :| 0 <= j < |out.lines| && out.lines[j] == line;
      }
    }
  }

  lemma EditKeepsSlug(lower: string -> string, repo: Repo, out: Repo, s: string)
    requires OperatorEdits(lower, repo, out)
    ensures HoldsSlug(lower, repo, s) ==> HoldsSlug(lower, out, s)
  {
    if i :| 0 <= i < |repo.lines| && RowHoldsSlug(lower, repo.lines[i], s) {
      var line := repo.lines[i];
      assert PCells(line).Some?;
      hide PCells, StubNumber, SpecSlug, RowHoldsSlug;
      if other :| other in out.lines && SameProposal(lower, line, other) {
        var j :| 0 <= j < |out.lines| && out.lines[j] == other;
      } else {
        var f :| f in out.stubs && StubOf(lower, f, line);
      }
    } else if f :| f in repo.stubs && SpecSlug(lower, f) == Some(s) {
      hide PCells, StubNumber, SpecSlug, RowHoldsSlug;
      if f !in out.stubs {
        var line :| line in out.lines && RowOf(lower, line, f);
        var j :| 0 <= j < |out.lines| && out.lines[j] == line;
      }
    }
  }

  /** No number and no slug disappears by an operator's edit. */
  lemma EditKeepsHeld(lower: string -> string, repo: Repo, out: Repo)
    requires OperatorEdits(lower, repo, out)
    ensures KeepsHeld(lower, repo, out)
  {
    hide HoldsNumber, HoldsSlug, OperatorEdits;
    forall m ensures HoldsNumber(repo, m) ==> HoldsNumber(out, m) { EditKeepsNumber(lower, repo, out, m); }
    forall s ensures HoldsSlug(lower, repo, s) ==> HoldsSlug(lower, out, s) { EditKeepsSlug(lower, repo, out, s); }
  }

  ghost predicate Inv(lower: string -> string, w: World) {
    && (forall i, j :: 0 <= i < j < |w.issued| ==>
          w.issued[i].number < w.issued[j].number && w.issued[i].slug != w.issued[j].slug)
    && KeepsTraces(lower, w.repo, w.issued)
  }

  lemma JoinedInOrder(w: seq<Filed>, more: seq<Filed>, taken: set<string>, n: nat)
    requires forall i, j :: 0 <= i < j < |w| ==> w[i].number < w[j].number && w[i].slug != w[j].slug
    requires forall i :: 0 <= i < |w| ==> w[i].number < n && w[i].slug in taken
    requires FiledInOrder(more, taken, n)
    ensures var all := w + more;
      forall i, j :: 0 <= i < j < |all| ==> all[i].number < all[j].number && all[i].slug != all[j].slug
  {
    var all := w + more;
    forall i, j | 0 <= i < j < |all| ensures all[i].number < all[j].number && all[i].slug != all[j].slug {
      var a := |w|;
      if j >= a {
        assert all[j] == more[j - a];
        if i >= a { assert all[i] == more[i - a]; } else { assert all[i] == w[i]; }
      } else {
        assert all[i] == w[i] && all[j] == w[j];
      }
    }
  }

  lemma ProposeKeepsInv(lower: string -> string, w: World, v: World, cands: seq<Candidate>, iso: string, week: string)
    requires Folds(lower)
    ensures Inv(lower, w) && Proposes(lower, w, v, cands, iso, week) ==> Inv(lower, v)
  {
    hide HoldsNumber, HoldsSlug, FiledSlugs, NextNumber, GoodCandidates, Cycle, Folds, FiledInOrder;
    if !(Inv(lower, w) && Proposes(lower, w, v, cands, iso, week)) { return; }
    var taken, n := FiledSlugs(lower, w.repo), NextNumber(w.repo);
    CycleFiles(lower, w.repo, taken, n, 0, cands, iso, week);
    var c := ProposeOn(lower, w.repo, cands, iso, week);
    NewTraces(lower, v.repo, c.filed, taken, n);
    NextIsPositive(w.repo);
    forall i | 0 <= i < |w.issued|
      ensures w.issued[i].number < NextNumber(v.repo) && HoldsSlug(lower, v.repo, w.issued[i].slug)
      ensures w.issued[i].slug in taken && w.issued[i].number < n
    {
      FiledSlugsHold(lower, w.repo, w.issued[i].slug);
      StillPassed(w.repo, v.repo, w.issued[i].number);
    }
    JoinedInOrder(w.issued, c.filed, taken, n);
  }

  /** What a cycle filed leaves its traces. */
  lemma NewTraces(lower: string -> string, repo: Repo, filed: seq<Filed>, taken: set<string>, n: nat)
    requires FiledInOrder(filed, taken, n)
    ensures n >= 1 && AllHeld(lower, repo, filed) ==> KeepsTraces(lower, repo, filed)
  {
    hide HoldsNumber, HoldsSlug, NextNumber;
    if n >= 1 && AllHeld(lower, repo, filed) {
      forall i | 0 <= i < |filed| ensures filed[i].number < NextNumber(repo) {
        NextNumberPasses(repo, filed[i].number);
      }
    }
  }

  lemma NextIsPositive(repo: Repo)
    ensures NextNumber(repo) >= 1
  {}

  lemma StillPassed(repo: Repo, out: Repo, n: nat)
    requires n < NextNumber(repo)
    requires forall m :: HoldsNumber(repo, m) ==> HoldsNumber(out, m)
    ensures n < NextNumber(out)
  {
    hide HoldsNumber, NextNumber;
    if n == 0 {
      NextIsPositive(out);
    } else {
      NextNumberPasses(repo, n);
      NextNumberPasses(out, n);
    }
  }

  lemma SweepKeepsTraces(lower: string -> string, repo: Repo, env: Env)
    requires Iso(env.iso)
    ensures var out := Repo(Swept(env, repo.lines), repo.stubs);
      && (forall m :: HoldsNumber(repo, m) ==> HoldsNumber(out, m))
      && (forall s :: HoldsSlug(lower, repo, s) ==> HoldsSlug(lower, out, s))
  {
    var out := Repo(Swept(env, repo.lines), repo.stubs);
    hide PCells, Eligible, Row, Ratified, StubNumber, SpecSlug;
    forall i | 0 <= i < |repo.lines|
      ensures PCells(repo.lines[i]).Some? ==>
        && PCells(out.lines[i]).Some?
        && PidNumber(PCells(out.lines[i]).value[0]) == PidNumber(PCells(repo.lines[i]).value[0])
      ensures forall s :: RowHoldsSlug(lower, repo.lines[i], s) ==> RowHoldsSlug(lower, out.lines[i], s)
    {
      if Flips(env, repo.lines[i]) { SweptRowKeepsNames(lower, env, repo.lines[i]); }
    }
    forall m | HoldsNumber(repo, m) ensures HoldsNumber(out, m) {
      if i :| 0 <= i < |repo.lines| && PCells(repo.lines[i]).Some? && PidNumber(PCells(repo.lines[i]).value[0]) == m {
        assert PCells(out.lines[i]).Some?;
      }
    }
    forall s | HoldsSlug(lower, repo, s) ensures HoldsSlug(lower, out, s) {
      if i :| 0 <= i < |repo.lines| && RowHoldsSlug(lower, repo.lines[i], s) {
        assert RowHoldsSlug(lower, out.lines[i], s);
      }
    }
  }

  lemma SweptRowKeepsNames(lower: string -> string, env: Env, line: string)
    requires Iso(env.iso) && Flips(env, line)
    ensures PCells(line).Some? && PCells(SweptLine(env, line)).Some?
    ensures PidNumber(PCells(SweptLine(env, line)).value[0]) == PidNumber(PCells(line).value[0])
    ensures forall s :: RowHoldsSlug(lower, line, s) ==> RowHoldsSlug(lower, SweptLine(env, line), s)
  {
    FlipIsSound(env, line);
    hide PCells, SweptLine, SpecSlug, BaseName, Noted, Strip;
    var cells := PCells(line).value;
    var r := Ratified(env.iso, cells);
    assert r[0] == cells[0] && r[2] == cells[2];
  }

  lemma KeepsHeldKeepsTraces(lower: string -> string, repo: Repo, out: Repo, issued: seq<Filed>)
    requires KeepsHeld(lower, repo, out) && KeepsTraces(lower, repo, issued)
    ensures KeepsTraces(lower, out, issued)
  {
    hide HoldsNumber, HoldsSlug, NextNumber;
    forall i | 0 <= i < |issued| ensures issued[i].number < NextNumber(out) {
      StillPassed(repo, out, issued[i].number);
    }
  }

  /** Every step keeps issued numbers strictly increasing and issued slugs distinct. */
  lemma StepKeepsInv(lower: string -> string, w: World, v: World)
    requires Folds(lower) && Inv(lower, w) && StepTo(lower, w, v)
    ensures Inv(lower, v)
  {
    hide Proposes, HoldsNumber, HoldsSlug, Swept, Folds, KeepsTraces, OperatorEdits;
    if cands, iso, week :| Proposes(lower, w, v, cands, iso, week) {
      ProposeKeepsInv(lower, w, v, cands, iso, week);
    } else {
      if env :| Sweeps(w, v, env) {
        SweepKeepsTraces(lower, w.repo, env);
      } else {
        EditKeepsHeld(lower, w.repo, v.repo);
      }
      KeepsHeldKeepsTraces(lower, w.repo, v.repo, w.issued);
    }
  }

  /** Over any run from any repository, no number and no slug is issued twice. */
  lemma {:induction false} NothingIsFiledTwice(lower: string -> string, worlds: seq<World>)
    requires Folds(lower) && worlds != [] && worlds[0].issued == []
    requires forall k :: 0 <= k < |worlds| - 1 ==> StepTo(lower, worlds[k], worlds[k + 1])
    ensures Inv(lower, worlds[|worlds| - 1])
  {
    hide StepTo, Folds;
    if |worlds| > 1 {
      var m := |worlds| - 1;
      NothingIsFiledTwice(lower, worlds[..m]);
      assert StepTo(lower, worlds[m - 1], worlds[m]);
      StepKeepsInv(lower, worlds[m - 1], worlds[m]);
    }
  }

  // ----- a number issued again -----

  const EMPTY_LANE := Repo(["## Proposed"], [])

  const IDEA := Candidate("t", "x", 1, true)

  /** The first filing ever: number 1. */
  lemma FirstFiling(lower: string -> string, iso: string, week: string)
    requires Clean(iso) && Clean(week)
    ensures var c := ProposeOn(lower, EMPTY_LANE, [IDEA], iso, week);
      c.filed == [Filed(1, "x")] && c.stopped.None?
    ensures GoodCandidates([IDEA])
  {
    Headings();
    FilingAccepts(EMPTY_LANE, IDEA, 1, iso, week);
    hide PCells, IsLaneHeading, Clean, FileOne, SpecSlug, StubNumber, IsHeading;
    var lines := EMPTY_LANE.lines;
    assert RowNumbers(lines, 1) == [] && RowSpecs(lines, 1) == [];
    assert FiledSlugs(lower, EMPTY_LANE) == {} && NextNumber(EMPTY_LANE) == 1;
    LaneAtIs(lines, 0, 0);
    assert LastProposal(lines, 1) == None;
    assert InsertAt(lines).Some?;
    assert Clean("t") by { NamesAreClean("t"); }
    CycleOfOne(FileOne(EMPTY_LANE, IDEA, 1, iso, week).value, iso, week);
  }

  lemma CycleOfOne(next: Repo, iso: string, week: string)
    requires FileOne(EMPTY_LANE, IDEA, 1, iso, week) == Ok(next)
    ensures Cycle(EMPTY_LANE, {}, 1, 0, [IDEA], iso, week) == Cycled(next, [Filed(1, "x")], None)
  {
    hide FileOne;
    assert [IDEA][1..] == [];
    assert Cycle(next, {} + {"x"}, 2, 1, [], iso, week) == Cycled(next, [], None);
  }

  /** Deleting both the row and the stub file of the last proposal is the edit the steps leave
      out, and rightly: the next cycle issues its number and slug again. */
  lemma NumberIsReissued(lower: string -> string, iso: string, week: string) returns (worlds: seq<World>)
    requires Clean(iso) && Clean(week)
    ensures |worlds| == 4 && worlds[0] == World(EMPTY_LANE, [])
    ensures Proposes(lower, worlds[0], worlds[1], [IDEA], iso, week)
    ensures worlds[2] == World(EMPTY_LANE, worlds[1].issued)
    ensures Proposes(lower, worlds[2], worlds[3], [IDEA], iso, week)
    ensures worlds[3].issued == [Filed(1, "x"), Filed(1, "x")]
  {
    hide ProposeOn;
    FirstFiling(lower, iso, week);
    var c := ProposeOn(lower, EMPTY_LANE, [IDEA], iso, week);
    var one, two := [Filed(1, "x")], [Filed(1, "x"), Filed(1, "x")];
    assert [] + one == one && one + one == two;
    worlds := [World(EMPTY_LANE, []), World(c.repo, one), World(EMPTY_LANE, one), World(c.repo, two)];
  }

  // ----- the lane keeps its rows -----

  /** Every proposal row stands in the lane. */
  ghost predicate AllInLane(lines: seq<string>) {
    && HasLane(lines)
    && forall i :: 0 <= i < |lines| && PCells(lines[i]).Some? ==> InLane(lines, i)
  }

  /** When all proposals stand in the lane, a filing keeps it so. */
  lemma FilingStaysInLane(repo: Repo, cand: Candidate, n: nat, iso: string, week: string, out: Repo)
    requires AllInLane(repo.lines) && FileOne(repo, cand, n, iso, week) == Ok(out)
    ensures AllInLane(out.lines)
  {
    hide LaneAt, SectionEnd, PCells, Row, PhysicalLines, SixCells, ProposalCells, FileName, AddFile, InsertAt, LastProposal, Insert, IsHeading, IsLaneHeading, Inserted;
    var lines := repo.lines;
    var cells := ProposalCells(cand, n, iso, week);
    var row := Row(cells);
    var at := InsertAt(lines).value;
    RowIsNoHeading(cells);
    InsertedLines(lines, at, row);
    InsertsBehindHeading(lines);
    LastProposalFinds(lines, |lines|);
    SectionGrows(lines, at, row, out.lines);
    ShiftedStaysInLane(lines, at, row, out.lines);
  }

  lemma ShiftedStaysInLane(lines: seq<string>, at: nat, row: string, out: seq<string>)
    requires AllInLane(lines) && Inserted(lines, at, row, out) && InLane(out, at)
    requires LaneAt(out, 0) == LaneAt(lines, 0)
    requires SectionEnd(out, LaneAt(lines, 0) + 1) == SectionEnd(lines, LaneAt(lines, 0) + 1) + 1
    ensures AllInLane(out)
  {
    hide LaneAt, SectionEnd, PCells;
    forall i | 0 <= i < |out| && PCells(out[i]).Some? ensures InLane(out, i) {
      if i < at {
        assert InLane(lines, i);
      } else if i > at {
        assert InLane(lines, i - 1);
      }
    }
  }

  /** A whole cycle keeps every proposal in the lane. */
  lemma {:induction false} CycleStaysInLane(repo: Repo, taken: set<string>, n: nat, count: nat,
                                            cands: seq<Candidate>, iso: string, week: string)
    requires AllInLane(repo.lines)
    ensures AllInLane(Cycle(repo, taken, n, count, cands, iso, week).repo.lines)
    decreases |cands|
  {
    hide AllInLane, FileOne;
    if cands != [] && count < MAX_PROPOSALS {
      var c := cands[0];
      if c.slug in taken || !c.outward {
        CycleStaysInLane(repo, taken, n, count, cands[1..], iso, week);
      } else {
        match FileOne(repo, c, n, iso, week)
        case Err(_) =>
        case Ok(next) =>
          FilingStaysInLane(repo, c, n, iso, week, next);
          CycleStaysInLane(next, taken + {c.slug}, n + 1, count + 1, cands[1..], iso, week);
      }
    }
  }

  /** So does the sweep: headings stay where they are, and no other line becomes a proposal. */
  lemma SweepStaysInLane(env: Env, lines: seq<string>)
    requires Iso(env.iso) && AllInLane(lines)
    ensures AllInLane(Swept(env, lines))
  {
    hide LaneAt, SectionEnd, PCells, Row, Eligible, Ratified, IsHeading, IsLaneHeading;
    var out := Swept(env, lines);
    forall i | 0 <= i < |lines|
      ensures IsHeading(out[i]) == IsHeading(lines[i]) && IsLaneHeading(out[i]) == IsLaneHeading(lines[i])
      ensures PCells(out[i]).Some? ==> PCells(lines[i]).Some?
    {
      if Flips(env, lines[i]) {
        PCellsAreSix(env, PCells(lines[i]).value);
        ProposalIsNoHeading(lines[i]);
        RowIsNoHeading(Ratified(env.iso, PCells(lines[i]).value));
      }
    }
    var lane := LaneAt(lines, 0);
    LaneAtFinds(lines, 0);
    LaneAtIs(out, 0, lane);
    SectionEndFinds(lines, lane + 1);
    SectionEndIs(out, lane + 1, SectionEnd(lines, lane + 1));
    forall i | 0 <= i < |out| && PCells(out[i]).Some? ensures InLane(out, i) {
      assert InLane(lines, i);
    }
  }
}
