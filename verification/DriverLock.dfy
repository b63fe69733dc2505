/** The `.chug/driver.lock` protocol as a transition system: any number of processes
    read, decide, write, verify and release one lock file, and any of them may be killed
    between any two steps. */
module DriverLock {
  import opened Text

  const PID_MAX: nat := 0x7fff_ffff
  const U32_LIMIT: nat := 0x1_0000_0000
  const MUTEX_TRIES_ACQUIRE: nat := 300
  const MUTEX_TRIES_RELEASE: nat := 50
  const PASSES: nat := 3

  type Pid = p: nat | 1 <= p <= PID_MAX witness 1

  // ----- the lock file contract -----

  datatype HolderStatus = Acquire | Reclaim | Held(pid: Pid)

  /** Line 1 of the file, trimmed, is the holder's pid; anything else names nobody. */
  function ParseHolderPid(contents: string): Option<Pid> {
    if contents == "" then None
    else
      var first := Trim(IsWhitespace, contents[..IndexOf(contents, '\n')]);
      match ParseUnsigned(first, U32_LIMIT)
      case None => None
      case Some(n) => if 1 <= n <= PID_MAX then Some(n) else None
  }

  function StatusOf(contents: Option<string>, alive: Pid -> bool, namesChug: Pid -> bool): HolderStatus {
    match contents
    case None => Acquire
    case Some(text) =>
      match ParseHolderPid(text)
      case None => Reclaim
      case Some(pid) =>
        if !alive(pid) then Reclaim
        else if !namesChug(pid) then Reclaim
        else Held(pid)
  }

  function LockText(pid: Pid, epoch: nat): string {
    Dec(pid) + ['\n'] + ("start_epoch " + Dec(epoch) + "\n")
  }

  /** What `write_lock` prints, the parser reads back, whatever the epoch line says. */
  lemma LockTextNamesItsWriter(pid: Pid, epoch: nat)
    ensures ParseHolderPid(LockText(pid, epoch)) == Some(pid)
  {
    var d := Dec(pid);
    var rest := "start_epoch " + Dec(epoch) + "\n";
    assert '\n' !in d;
    IndexOfConcat(d, '\n', rest);
    assert LockText(pid, epoch)[..|d|] == d;
    assert Trimmed(IsWhitespace, d) by {
      assert d[0] in d && d[|d| - 1] in d;
    }
    TrimIsTrimmed(IsWhitespace, d);
    ParseDec(pid, U32_LIMIT);
  }

  /** Line 1, with blanks around it or not, names n exactly if n is a possible pid; what stands
      on later lines never matters. */
  lemma FirstLineNames(before: string, n: nat, after: string, rest: string)
    requires All(IsWhitespace, before) && All(IsWhitespace, after) && '\n' !in before && '\n' !in after
    requires rest == "" || rest[0] == '\n'
    ensures ParseHolderPid(before + Dec(n) + after + rest) == if 1 <= n <= 2_147_483_647 then Some(n) else None
  {
    var line := before + Dec(n) + after;
    assert '\n' !in Dec(n) && Dec(n) != "";
    FirstLine(line, rest);
    assert Trimmed(IsWhitespace, Dec(n)) by { assert Dec(n)[0] in Dec(n) && Dec(n)[|Dec(n)| - 1] in Dec(n); }
    TrimPadded(IsWhitespace, before, Dec(n), after);
    ParseDec(n, U32_LIMIT);
  }

  lemma FirstLine(line: string, rest: string)
    requires '\n' !in line && (rest == "" || rest[0] == '\n')
    ensures (line + rest)[..IndexOf(line + rest, '\n')] == line
  {
    if rest == "" {
      IndexOfFinds(line, '\n');
      assert line + rest == line;
    } else {
      assert line + rest == line + ['\n'] + rest[1..];
      IndexOfConcat(line, '\n', rest[1..]);
    }
  }

  /** The decision refuses in exactly one situation: the file names a pid that both
      probes vouch for. Every other file and every other answer proceeds. */
  lemma RefusalIsTheDoublePositive(contents: Option<string>, alive: Pid -> bool, namesChug: Pid -> bool, pid: Pid)
    ensures StatusOf(contents, alive, namesChug) == Held(pid)
       <==> contents.Some? && ParseHolderPid(contents.value) == Some(pid) && alive(pid) && namesChug(pid)
    ensures StatusOf(contents, alive, namesChug) == Acquire <==> contents == None
  {
  }

  // ----- processes -----

  datatype Outcome = Guarded | Refused(holder: Pid) | Lockless

  /** Where a process stands. `pass` is the index of the current loop iteration. */
  datatype Pc =
    | Bystander                                   // not a `chug run` (chat, an editor, anything)
    | Start
    | Trying(tries: nat)                          // dir_mutex of acquire_with
    | Read(pass: nat)
    | Decide(pass: nat, contents: Option<string>) // contents as read, file may have moved on
    | Open(pass: nat)                             // decided to write; O_TRUNC comes next
    | Writing(pass: nat, epoch: nat, done: nat)   // `done` characters have reached the file
    | Verify(pass: nat)
    | Leaving(outcome: Outcome)                   // acquire_with returns; the mutex drops next
    | Running(outcome: Outcome)
    | DropTrying(tries: nat)                      // dir_mutex of Guard::drop
    | DropRead
    | DropUnlink                                  // read "still ours"; unlink comes next
    | DropLeave
    | Gone

  datatype Process = Process(chug: bool, pc: Pc)

  /** `live` is keyed by pid: two live processes never share one, a dead one's may return. */
  datatype State = State(file: Option<string>, mutex: Option<Pid>, live: map<Pid, Process>)

  /** The three ways the environment can let the protocol down. */
  datatype Faults = Faults(mutexUnobtainable: bool, readsFail: bool, probesLie: bool)
  const NO_FAULTS := Faults(false, false, false)

  datatype Step =
    | Spawn(p: Pid, process: Process)
    | Kill(p: Pid)
    | MkdirFails(p: Pid)
    | MkdirDone(p: Pid)
    | TryMutex(p: Pid)
    | GiveUpMutex(p: Pid)
    | ReadLock(p: Pid, fails: bool)
    | DecideLock(p: Pid, alive: bool, namesChug: bool)
    | OpenLock(p: Pid, epoch: nat, fails: bool)
    | WriteSome(p: Pid, upTo: nat)
    | WriteEnds(p: Pid, fails: bool)
    | VerifyLock(p: Pid, fails: bool)
    | LeaveAcquire(p: Pid)
    | BeginDrop(p: Pid)
    | DropTryMutex(p: Pid)
    | DropGiveUpMutex(p: Pid)
    | DropReadLock(p: Pid, fails: bool)
    | DropUnlinkLock(p: Pid, fails: bool)
    | LeaveDrop(p: Pid)

  ghost predicate IsLiveChug(s: State, p: Pid) { p in s.live && s.live[p].chug }

  function FreeMutex(s: State, p: Pid): Option<Pid> {
    if s.mutex == Some(p) then None else s.mutex
  }

  ghost predicate Moves(s: State, t: State, p: Pid, pc: Pc) {
    p in s.live && t.live == s.live[p := s.live[p].(pc := pc)]
  }

  /** One write(2): `text` lands at offset `off`; a file unlinked meanwhile stays unlinked. */
  function Overlay(file: Option<string>, off: nat, text: string): Option<string> {
    match file
    case None => None
    case Some(f) =>
      if |f| < off then Some(f + seq(off - |f|, _ => '\0') + text)
      else Some(f[..off] + text + if off + |text| <= |f| then f[off + |text|..] else "")
  }

  ghost predicate Next(faults: Faults, s: State, t: State, step: Step) {
    match step
    case Spawn(p, process) =>
      && p !in s.live
      && (process.pc == Bystander || (process.pc == Start && process.chug))
      && t == s.(live := s.live[p := process])
    case Kill(p) =>
      // the kernel closes the descriptors of the dead, so its flock is free
      && p in s.live
      && t == State(s.file, FreeMutex(s, p), s.live - {p})
    case MkdirFails(p) =>
      p in s.live && s.live[p].pc == Start && Moves(s, t, p, Running(Lockless))
      && t.file == s.file && t.mutex == s.mutex
    case MkdirDone(p) =>
      p in s.live && s.live[p].pc == Start && Moves(s, t, p, Trying(0))
      && t.file == s.file && t.mutex == s.mutex
    case TryMutex(p) =>
      p in s.live && s.live[p].pc.Trying? && s.live[p].pc.tries < MUTEX_TRIES_ACQUIRE
      && t.file == s.file
      && (if s.mutex == None
          then t.mutex == Some(p) && Moves(s, t, p, Read(0))
          else t.mutex == s.mutex && Moves(s, t, p, Trying(s.live[p].pc.tries + 1)))
    case GiveUpMutex(p) =>
      faults.mutexUnobtainable
      && p in s.live && s.live[p].pc.Trying? && Moves(s, t, p, Read(0))
      && t.file == s.file && t.mutex == s.mutex
    case ReadLock(p, fails) =>
      p in s.live && s.live[p].pc.Read?
      && (fails ==> faults.readsFail)
      && t.file == s.file && t.mutex == s.mutex
      && var pass := s.live[p].pc.pass;
         (if pass < PASSES
          then Moves(s, t, p, Decide(pass, if fails then None else s.file))
          else Moves(s, t, p, Leaving(Lockless)))
    case DecideLock(p, alive, namesChug) =>
      p in s.live && s.live[p].pc.Decide?
      && t.file == s.file && t.mutex == s.mutex
      && var c := s.live[p].pc.contents;
         // `kill` and `ps` are truthful about a live chug process; about anything else
         // they may answer either way, a failed probe being a "no"
         && (!faults.probesLie ==>
              c.Some? && ParseHolderPid(c.value).Some? && IsLiveChug(s, ParseHolderPid(c.value).value)
              ==> alive && namesChug)
         && var status := StatusOf(c, (_: Pid) => alive, (_: Pid) => namesChug);
            Moves(s, t, p, if status.Held? then Leaving(Refused(status.pid)) else Open(s.live[p].pc.pass))
    case OpenLock(p, epoch, fails) =>
      p in s.live && s.live[p].pc.Open? && t.mutex == s.mutex
      && (if fails then t.file == s.file && Moves(s, t, p, Leaving(Lockless))
          else t.file == Some("") && Moves(s, t, p, Writing(s.live[p].pc.pass, epoch, 0)))
    case WriteSome(p, upTo) =>
      p in s.live && s.live[p].pc.Writing? && t.mutex == s.mutex
      && var w := s.live[p].pc;
         && var text := LockText(p, w.epoch);
         && w.done < upTo <= |text|
         && t.file == Overlay(s.file, w.done, text[w.done..upTo])
         && Moves(s, t, p, w.(done := upTo))
    case WriteEnds(p, fails) =>
      p in s.live && s.live[p].pc.Writing? && t.file == s.file && t.mutex == s.mutex
      && var w := s.live[p].pc;
         (if fails then Moves(s, t, p, Leaving(Lockless))
          else w.done == |LockText(p, w.epoch)| && Moves(s, t, p, Verify(w.pass)))
    case VerifyLock(p, fails) =>
      p in s.live && s.live[p].pc.Verify?
      && (fails ==> faults.readsFail)
      && t.file == s.file && t.mutex == s.mutex
      && var mine := !fails && s.file.Some? && ParseHolderPid(s.file.value) == Some(p);
         Moves(s, t, p, if mine then Leaving(Guarded) else Read(s.live[p].pc.pass + 1))
    case LeaveAcquire(p) =>
      p in s.live && s.live[p].pc.Leaving? && t.file == s.file && t.mutex == FreeMutex(s, p)
      && Moves(s, t, p, Running(s.live[p].pc.outcome))
    case BeginDrop(p) =>
      p in s.live && s.live[p].pc.Running? && t.file == s.file && t.mutex == s.mutex
      && Moves(s, t, p, if s.live[p].pc.outcome.Guarded? then DropTrying(0) else Gone)
    case DropTryMutex(p) =>
      p in s.live && s.live[p].pc.DropTrying? && s.live[p].pc.tries < MUTEX_TRIES_RELEASE
      && t.file == s.file
      && (if s.mutex == None
          then t.mutex == Some(p) && Moves(s, t, p, DropRead)
          else t.mutex == s.mutex && Moves(s, t, p, DropTrying(s.live[p].pc.tries + 1)))
    case DropGiveUpMutex(p) =>
      // the release-side mutex is always best-effort
      p in s.live && s.live[p].pc.DropTrying? && Moves(s, t, p, DropRead)
      && t.file == s.file && t.mutex == s.mutex
    case DropReadLock(p, fails) =>
      p in s.live && s.live[p].pc == DropRead && t.file == s.file && t.mutex == s.mutex
      && var ours := !fails && s.file.Some? && ParseHolderPid(s.file.value) == Some(p);
         Moves(s, t, p, if ours then DropUnlink else DropLeave)
    case DropUnlinkLock(p, fails) =>
      p in s.live && s.live[p].pc == DropUnlink && t.mutex == s.mutex
      && t.file == (if fails then s.file else None) && Moves(s, t, p, DropLeave)
    case LeaveDrop(p) =>
      p in s.live && s.live[p].pc == DropLeave && t.file == s.file && t.mutex == FreeMutex(s, p)
      && Moves(s, t, p, Gone)
  }

  /** Any file at all may be lying there: absent, garbage, stale, or naming a recycled pid. */
  ghost predicate Init(s: State) {
    && s.mutex == None
    && forall p :: p in s.live ==>
         s.live[p].pc == Bystander || (s.live[p].pc == Start && s.live[p].chug)
  }

  ghost predicate IsRun(faults: Faults, run: seq<State>, steps: seq<Step>) {
    && |run| == |steps| + 1
    && Init(run[0])
    && forall i :: 0 <= i < |steps| ==> Next(faults, run[i], run[i + 1], steps[i])
  }

  // ----- what the protocol is for -----

  /** p returned (or is returning) from acquire with `path: Some`, and has not begun to drop it. */
  ghost predicate Holds(s: State, p: Pid) {
    p in s.live && (s.live[p].pc == Leaving(Guarded) || s.live[p].pc == Running(Guarded))
  }

  ghost predicate FileNames(s: State, p: Pid) {
    s.file.Some? && ParseHolderPid(s.file.value) == Some(p)
  }

  // ----- the invariant -----

  /** The lock file is still p's: it holds the guard, or is dropping it and has not unlinked. */
  ghost predicate Owns(s: State, p: Pid) {
    p in s.live && (Holds(s, p) || s.live[p].pc.DropTrying? || s.live[p].pc == DropRead || s.live[p].pc == DropUnlink)
  }

  predicate InSection(pc: Pc) {
    pc.Read? || pc.Decide? || pc.Open? || pc.Writing? || pc.Verify? || pc.Leaving?
  }

  predicate MayCommit(pc: Pc) { pc.Open? || pc.Writing? || pc.Verify? }

  ghost predicate ProcessInv(s: State, p: Pid)
    requires p in s.live
  {
    var pc := s.live[p].pc;
    && (!pc.Bystander? ==> s.live[p].chug)
    && (InSection(pc) ==> s.mutex == Some(p))
    && (Owns(s, p) ==> FileNames(s, p))
    && (MayCommit(pc) ==> forall q | q in s.live :: !Owns(s, q))
    && (pc.Decide? ==> forall q | q in s.live ::
          Owns(s, q) ==> pc.contents.Some? && ParseHolderPid(pc.contents.value) == Some(q))
    && (pc.Writing? ==> pc.done <= |LockText(p, pc.epoch)| && s.file == Some(LockText(p, pc.epoch)[..pc.done]))
    && (pc.Verify? ==> FileNames(s, p))
    // a verify never fails, so nobody reaches a second pass
    && (pc.Read? || pc.Decide? || pc.Open? || pc.Writing? || pc.Verify? ==> pc.pass == 0)
    && (pc.Trying? ==> pc.tries <= MUTEX_TRIES_ACQUIRE)
  }

  ghost predicate Inv(s: State) {
    && (s.mutex.Some? ==> s.mutex.value in s.live)
    && forall p | p in s.live :: ProcessInv(s, p)
  }

  lemma InitInv(s: State)
    requires Init(s)
    ensures Inv(s)
  {
  }

  /** A step of p that leaves the file alone and makes p no new owner disturbs nobody. */
  lemma QuietStep(s: State, t: State, p: Pid, pc: Pc)
    requires Inv(s) && Moves(s, t, p, pc)
    requires t.file == s.file
    requires t.mutex == s.mutex || t.mutex == FreeMutex(s, p) || (s.mutex == None && t.mutex == Some(p))
    requires Owns(t, p) ==> Owns(s, p)
    requires ProcessInv(t, p)
    ensures Inv(t)
  {
    hide ParseHolderPid, LockText, StatusOf, Overlay;
    forall q | q in t.live ensures ProcessInv(t, q) {
      if q != p {
        assert ProcessInv(s, q);
        assert t.live[q] == s.live[q];
        OwnersOnlyShrink(s, t, p, pc);
      }
    }
  }

  lemma OwnersOnlyShrink(s: State, t: State, p: Pid, pc: Pc)
    requires Moves(s, t, p, pc)
    requires Owns(t, p) ==> Owns(s, p)
    ensures forall q :: Owns(t, q) ==> Owns(s, q)
  {
    forall q | Owns(t, q) ensures Owns(s, q) {
      if q != p { assert t.live[q] == s.live[q]; }
    }
  }

  lemma SpawnOrKillKeepsInv(s: State, t: State, step: Step)
    requires Inv(s) && Next(NO_FAULTS, s, t, step) && (step.Spawn? || step.Kill?)
    ensures Inv(t)
  {
    hide ParseHolderPid, LockText, StatusOf, Overlay;
    forall q | Owns(t, q) ensures Owns(s, q) {
      assert q in s.live ==> t.live[q] == s.live[q];
    }
    forall q | q in t.live ensures ProcessInv(t, q) {
      if q in s.live { assert ProcessInv(s, q) && t.live[q] == s.live[q]; }
    }
  }

  /** A decision to write proves that nobody owns the file: every owner is a live chug
      process, its pid is in the contents that were read, and the probes vouch for it. */
  lemma DecisionFindsNoOwner(s: State, t: State, step: Step)
    requires Inv(s) && Next(NO_FAULTS, s, t, step) && step.DecideLock?
    requires t.live[step.p].pc.Open?
    ensures forall q :: !Owns(s, q)
  {
    forall q | Owns(s, q) ensures false {
      DecideSeesOwners(s, step.p, q);
    }
  }

  lemma DecideKeepsInv(s: State, t: State, step: Step)
    requires Inv(s) && Next(NO_FAULTS, s, t, step) && step.DecideLock?
    ensures Inv(t)
  {
    if t.live[step.p].pc.Open? { DecisionFindsNoOwner(s, t, step); }
    DecidedKeepsInv(s, t, step.p, t.live[step.p].pc);
  }

  lemma DecidedKeepsInv(s: State, t: State, p: Pid, pc: Pc)
    requires Inv(s) && Moves(s, t, p, pc) && t.file == s.file && t.mutex == s.mutex
    requires s.live[p].pc.Decide?
    requires (pc == Open(s.live[p].pc.pass) && forall q :: !Owns(s, q)) || (pc.Leaving? && pc.outcome.Refused?)
    ensures Inv(t)
  {
    OwnersOnlyShrink(s, t, p, pc);
    assert ProcessInv(s, p);
    QuietStep(s, t, p, pc);
  }

  lemma DecideSeesOwners(s: State, p: Pid, q: Pid)
    requires Inv(s) && p in s.live && s.live[p].pc.Decide? && Owns(s, q)
    ensures s.live[p].pc.contents.Some? && ParseHolderPid(s.live[p].pc.contents.value) == Some(q)
    ensures IsLiveChug(s, q)
  {
    assert ProcessInv(s, p) && ProcessInv(s, q);
  }

  lemma OverlayAtEnd(f: string, text: string)
    requires text != ""
    ensures Overlay(Some(f), |f|, text) == Some(f + text)
  {
    assert f[..|f|] == f && f + text + "" == f + text;
  }

  /** While p is committing, the file is p's alone to change. */
  lemma WriteKeepsInv(s: State, t: State, step: Step)
    requires Inv(s) && Next(NO_FAULTS, s, t, step)
    requires (step.OpenLock? && !step.fails) || step.WriteSome?
    ensures Inv(t)
  {
    hide ParseHolderPid, LockText, StatusOf, Overlay;
    var p := step.p;
    assert ProcessInv(s, p);
    OwnersOnlyShrink(s, t, p, t.live[p].pc);
    if step.WriteSome? {
      var w := s.live[p].pc;
      var text := LockText(p, w.epoch);
      assert text[..w.done] + text[w.done..step.upTo] == text[..step.upTo];
      OverlayAtEnd(text[..w.done], text[w.done..step.upTo]);
    }
    forall q | q in t.live ensures ProcessInv(t, q) {
      if q != p { assert ProcessInv(s, q) && t.live[q] == s.live[q]; }
    }
  }

  /** The verify always finds the writer's own pid, so it always secures the lock. */
  lemma VerifyKeepsInv(s: State, t: State, step: Step)
    requires Inv(s) && Next(NO_FAULTS, s, t, step) && step.VerifyLock?
    ensures Inv(t) && Holds(t, step.p)
  {
    hide ParseHolderPid, LockText, StatusOf, Overlay;
    var p := step.p;
    assert ProcessInv(s, p);
    forall q | q != p ensures Owns(t, q) == Owns(s, q) {
      assert q in s.live ==> t.live[q] == s.live[q];
    }
    forall q | q in t.live ensures ProcessInv(t, q) {
      if q != p {
        assert t.live[q] == s.live[q];
        assert ProcessInv(s, q);
        assert !InSection(s.live[q].pc);
      }
    }
  }

  lemma UnlinkKeepsInv(s: State, t: State, step: Step)
    requires Inv(s) && Next(NO_FAULTS, s, t, step) && step.DropUnlinkLock?
    ensures Inv(t)
  {
    hide ParseHolderPid, LockText, StatusOf, Overlay;
    var p := step.p;
    assert ProcessInv(s, p);
    OwnersOnlyShrink(s, t, p, DropLeave);
    forall q | q in t.live ensures ProcessInv(t, q) {
      if q != p { assert ProcessInv(s, q) && t.live[q] == s.live[q]; }
    }
  }

  lemma ReadKeepsInv(s: State, t: State, step: Step)
    requires Inv(s) && Next(NO_FAULTS, s, t, step) && step.ReadLock?
    ensures Inv(t)
  {
    hide ParseHolderPid, LockText, StatusOf, Overlay;
    var p := step.p;
    assert ProcessInv(s, p);
    OwnersOnlyShrink(s, t, p, t.live[p].pc);
    forall q | Owns(s, q) ensures FileNames(s, q) { assert ProcessInv(s, q); }
    QuietStep(s, t, p, t.live[p].pc);
  }

  lemma WriteEndsKeepsInv(s: State, t: State, step: Step)
    requires Inv(s) && Next(NO_FAULTS, s, t, step)
    requires (step.OpenLock? && step.fails) || step.WriteEnds?
    ensures Inv(t)
  {
    hide ParseHolderPid, LockText, StatusOf, Overlay;
    var p := step.p;
    assert ProcessInv(s, p);
    var pc := s.live[p].pc;
    OwnersOnlyShrink(s, t, p, t.live[p].pc);
    if pc.Writing? {
      LockTextNamesItsWriter(p, pc.epoch);
      var text := LockText(p, pc.epoch);
      assert text[..|text|] == text;
    }
    QuietStep(s, t, p, t.live[p].pc);
  }

  lemma EnteringKeepsInv(s: State, t: State, step: Step)
    requires Inv(s) && Next(NO_FAULTS, s, t, step)
    requires step.MkdirFails? || step.MkdirDone? || step.TryMutex? || step.GiveUpMutex?
    ensures Inv(t)
  {
    hide ParseHolderPid, LockText, StatusOf, Overlay;
    var p := step.p;
    assert ProcessInv(s, p);
    assert ProcessInv(t, p);
    QuietStep(s, t, p, t.live[p].pc);
  }

  lemma LeavingKeepsInv(s: State, t: State, step: Step)
    requires Inv(s) && Next(NO_FAULTS, s, t, step)
    requires step.LeaveAcquire? || step.BeginDrop?
    ensures Inv(t)
  {
    hide ParseHolderPid, LockText, StatusOf, Overlay;
    var p := step.p;
    assert ProcessInv(s, p);
    assert ProcessInv(t, p);
    QuietStep(s, t, p, t.live[p].pc);
  }

  lemma DroppingKeepsInv(s: State, t: State, step: Step)
    requires Inv(s) && Next(NO_FAULTS, s, t, step)
    requires step.DropTryMutex? || step.DropGiveUpMutex? || step.DropReadLock? || step.LeaveDrop?
    ensures Inv(t)
  {
    hide ParseHolderPid, LockText, StatusOf, Overlay;
    var p := step.p;
    assert ProcessInv(s, p);
    assert ProcessInv(t, p);
    QuietStep(s, t, p, t.live[p].pc);
  }

  /** Every step of the faultless protocol keeps the invariant. */
  lemma StepKeepsInv(s: State, t: State, step: Step)
    requires Inv(s) && Next(NO_FAULTS, s, t, step)
    ensures Inv(t)
  {
    match step
    case Spawn(_, _) => SpawnOrKillKeepsInv(s, t, step);
    case Kill(_) => SpawnOrKillKeepsInv(s, t, step);
    case ReadLock(_, _) => ReadKeepsInv(s, t, step);
    case DecideLock(_, _, _) => DecideKeepsInv(s, t, step);
    case OpenLock(_, _, fails) => if fails { WriteEndsKeepsInv(s, t, step); } else { WriteKeepsInv(s, t, step); }
    case WriteSome(_, _) => WriteKeepsInv(s, t, step);
    case WriteEnds(_, _) => WriteEndsKeepsInv(s, t, step);
    case VerifyLock(_, _) => VerifyKeepsInv(s, t, step);
    case DropUnlinkLock(_, _) => UnlinkKeepsInv(s, t, step);
    case LeaveAcquire(_) => LeavingKeepsInv(s, t, step);
    case BeginDrop(_) => LeavingKeepsInv(s, t, step);
    case DropTryMutex(_) => DroppingKeepsInv(s, t, step);
    case DropGiveUpMutex(_) => DroppingKeepsInv(s, t, step);
    case DropReadLock(_, _) => DroppingKeepsInv(s, t, step);
    case LeaveDrop(_) => DroppingKeepsInv(s, t, step);
    case _ => EnteringKeepsInv(s, t, step);
  }

  // ----- safety over whole runs -----

  lemma {:induction false} RunKeepsInv(run: seq<State>, steps: seq<Step>, i: nat)
    requires IsRun(NO_FAULTS, run, steps) && i < |run|
    ensures Inv(run[i])
  {
    if i == 0 {
      InitInv(run[0]);
    } else {
      RunKeepsInv(run, steps, i - 1);
      StepKeepsInv(run[i - 1], run[i], steps[i - 1]);
    }
  }

  /** At most one live process holds a guard, and the lock file names exactly that process. */
  lemma MutualExclusion(run: seq<State>, steps: seq<Step>, i: nat, p: Pid, q: Pid)
    requires IsRun(NO_FAULTS, run, steps) && i < |run|
    requires Holds(run[i], p) && Holds(run[i], q)
    ensures p == q && FileNames(run[i], p)
  {
    RunKeepsInv(run, steps, i);
    assert ProcessInv(run[i], p) && ProcessInv(run[i], q);
  }

  /** No step of anybody, a releaser without the mutex included, changes the file under a
      holder that goes on holding. */
  lemma HoldersFileIsUntouched(run: seq<State>, steps: seq<Step>, i: nat, q: Pid)
    requires IsRun(NO_FAULTS, run, steps) && i < |steps|
    requires Holds(run[i], q) && Holds(run[i + 1], q)
    ensures run[i + 1].file == run[i].file
  {
    OwnedFileStays(run, steps, i, q);
  }

  /** Nor while it is dropping and has not unlinked. */
  lemma OwnedFileStays(run: seq<State>, steps: seq<Step>, i: nat, q: Pid)
    requires IsRun(NO_FAULTS, run, steps) && i < |steps|
    requires Owns(run[i], q) && Owns(run[i + 1], q)
    ensures run[i + 1].file == run[i].file
  {
    hide ParseHolderPid, LockText, StatusOf, Overlay;
    RunKeepsInv(run, steps, i);
    var s, step := run[i], steps[i];
    assert ProcessInv(s, q);
    if step.OpenLock? || step.WriteSome? || step.DropUnlinkLock? {
      assert ProcessInv(s, step.p);
    }
  }

  /** The file disappears only by its own owner's release, and then nobody else owns it. */
  lemma UnlinkIsTheOwners(run: seq<State>, steps: seq<Step>, i: nat)
    requires IsRun(NO_FAULTS, run, steps) && i < |steps|
    requires run[i].file.Some? && run[i + 1].file == None
    ensures steps[i].DropUnlinkLock? && FileNames(run[i], steps[i].p)
    ensures forall q :: Owns(run[i], q) ==> q == steps[i].p
  {
    hide ParseHolderPid, LockText, StatusOf;
    RunKeepsInv(run, steps, i);
    var p := steps[i].p;
    assert ProcessInv(run[i], p);
    forall q | Owns(run[i], q) ensures q == p {
      assert ProcessInv(run[i], q);
    }
  }

  /** With the mutex, acquiring never needs a second pass, and it ends without the lock
      only by refusing or because the lock file could not be written. */
  lemma FirstPassSecures(run: seq<State>, steps: seq<Step>, i: nat, p: Pid)
    requires IsRun(NO_FAULTS, run, steps) && i < |steps| && p in run[i].live && p in run[i + 1].live
    ensures run[i].live[p].pc.Read? ==> run[i].live[p].pc.pass == 0
    ensures steps[i].VerifyLock? && steps[i].p == p ==> Holds(run[i + 1], p)
    ensures run[i].live[p].pc != Leaving(Lockless) && run[i + 1].live[p].pc == Leaving(Lockless)
        ==> (steps[i].OpenLock? || steps[i].WriteEnds?) && steps[i].p == p && steps[i].fails
  {
    hide ParseHolderPid, LockText, StatusOf, Overlay;
    RunKeepsInv(run, steps, i);
    assert ProcessInv(run[i], p);
    if steps[i].VerifyLock? { VerifyKeepsInv(run[i], run[i + 1], steps[i]); }
    assert steps[i].p != p ==> run[i + 1].live[p] == run[i].live[p];
  }

  /** Probes that tell the truth about p itself make a starter refuse its own recycled pid. */
  lemma OwnRecycledPidRefuses(s: State, t: State, step: Step)
    requires Next(NO_FAULTS, s, t, step) && step.DecideLock? && s.live[step.p].chug
    requires s.live[step.p].pc.contents.Some?
    requires ParseHolderPid(s.live[step.p].pc.contents.value) == Some(step.p)
    ensures t.live[step.p].pc == Leaving(Refused(step.p))
  {
  }

  // ----- a release removes the lock -----

  ghost predicate Dropping(s: State, p: Pid) {
    p in s.live && (s.live[p].pc.DropTrying? || s.live[p].pc == DropRead || s.live[p].pc == DropUnlink || s.live[p].pc == DropLeave)
  }

  ghost predicate AtDropLeave(s: State, p: Pid) { p in s.live && s.live[p].pc == DropLeave }

  /** p begins to drop its guard at i, is still at it at j with nothing left but to close the
      mutex, and neither its read nor its unlink failed. */
  ghost predicate Releases(run: seq<State>, steps: seq<Step>, i: nat, j: nat, p: Pid) {
    && i < j < |run| && j <= |steps|
    && p in run[i].live && run[i].live[p].pc == Running(Guarded) && steps[i] == BeginDrop(p)
    && (forall m :: i < m <= j ==> Dropping(run[m], p))
    && AtDropLeave(run[j], p)
    && (forall m :: i <= m < j ==> steps[m] != DropReadLock(p, true) && steps[m] != DropUnlinkLock(p, true))
  }

  /** Absent, or as far as some process other than p got in writing it. */
  ghost predicate AbsentOrBegunByOther(file: Option<string>, p: Pid) {
    file == None || exists q: Pid, epoch: nat, n: nat ::
      q != p && n <= |LockText(q, epoch)| && file == Some(LockText(q, epoch)[..n])
  }

  /** The last state in which p has not unlinked. */
  lemma {:induction false} LeavesOwning(run: seq<State>, m: nat, j: nat, p: Pid) returns (k: nat)
    requires m < j < |run| && Owns(run[m], p) && AtDropLeave(run[j], p)
    requires forall x :: m < x <= j ==> Dropping(run[x], p)
    ensures m <= k < j && AtDropLeave(run[k + 1], p)
    ensures forall x :: m <= x <= k ==> Owns(run[x], p)
    decreases j - m
  {
    if run[m + 1].live[p].pc == DropLeave {
      k := m;
    } else {
      k := LeavesOwning(run, m + 1, j, p);
    }
  }

  lemma {:induction false} OwnedAlong(run: seq<State>, steps: seq<Step>, i: nat, m: nat, p: Pid)
    requires IsRun(NO_FAULTS, run, steps) && i <= m < |run|
    requires forall x :: i <= x <= m ==> Owns(run[x], p)
    ensures run[m].file == run[i].file && FileNames(run[m], p)
  {
    hide ParseHolderPid, Next;
    if i < m {
      OwnedAlong(run, steps, i, m - 1, p);
      OwnedFileStays(run, steps, m - 1, p);
    } else {
      RunKeepsInv(run, steps, m);
      assert ProcessInv(run[m], p);
    }
  }

  lemma LeavesByUnlinking(run: seq<State>, steps: seq<Step>, k: nat, p: Pid)
    requires IsRun(NO_FAULTS, run, steps) && k < |steps|
    requires Owns(run[k], p) && AtDropLeave(run[k + 1], p)
    requires steps[k] != DropReadLock(p, true) && steps[k] != DropUnlinkLock(p, true)
    ensures steps[k] == DropUnlinkLock(p, false) && run[k + 1].file == None
    ensures run[k + 1].mutex == run[k].mutex
  {
    hide ParseHolderPid, LockText, StatusOf, Overlay;
    RunKeepsInv(run, steps, k);
    assert ProcessInv(run[k], p);
  }

  /** Behind the unlink the file is other processes' work. */
  lemma StepOfOthers(s: State, t: State, step: Step, p: Pid)
    requires Inv(s) && Next(NO_FAULTS, s, t, step)
    requires AtDropLeave(s, p) && AtDropLeave(t, p)
    requires AbsentOrBegunByOther(s.file, p)
    ensures AbsentOrBegunByOther(t.file, p)
    ensures s.mutex == Some(p) ==> t.mutex == Some(p) && (s.file == None ==> t.file == None)
  {
    hide ParseHolderPid, LockText, StatusOf, Overlay;
    assert step.p != p;
    if step.OpenLock? || step.WriteSome? { assert ProcessInv(s, step.p); }
    if step.OpenLock? && !step.fails {
      var text := LockText(step.p, step.epoch);
      assert t.file == Some(text[..0]);
    } else if step.WriteSome? {
      var w := s.live[step.p].pc;
      var text := LockText(step.p, w.epoch);
      assert text[..w.done] + text[w.done..step.upTo] == text[..step.upTo];
      OverlayAtEnd(text[..w.done], text[w.done..step.upTo]);
    }
  }

  lemma {:induction false} BehindUnlink(run: seq<State>, steps: seq<Step>, k: nat, j: nat, p: Pid)
    requires IsRun(NO_FAULTS, run, steps) && k <= j < |run|
    requires forall m :: k <= m <= j ==> AtDropLeave(run[m], p)
    requires run[k].file == None
    ensures AbsentOrBegunByOther(run[j].file, p)
    ensures run[k].mutex == Some(p) ==> run[j].mutex == Some(p) && run[j].file == None
  {
    hide Next, AbsentOrBegunByOther;
    if k < j {
      BehindUnlink(run, steps, k, j - 1, p);
      RunKeepsInv(run, steps, j - 1);
      StepOfOthers(run[j - 1], run[j], steps[j - 1], p);
    } else {
      assert AbsentOrBegunByOther(run[j].file, p) by { NothingThere(p); }
    }
  }

  lemma NothingThere(p: Pid)
    ensures AbsentOrBegunByOther(None, p)
  {
  }

  /** Once unlinked, p only waits to leave. */
  lemma {:induction false} StaysUnlinked(run: seq<State>, steps: seq<Step>, k: nat, m: nat, p: Pid)
    requires IsRun(NO_FAULTS, run, steps) && k <= m < |run|
    requires forall x :: k <= x <= m ==> Dropping(run[x], p)
    requires AtDropLeave(run[k], p)
    ensures AtDropLeave(run[m], p)
  {
    hide ParseHolderPid, LockText, StatusOf, Overlay;
    if k < m {
      StaysUnlinked(run, steps, k, m - 1, p);
      assert Next(NO_FAULTS, run[m - 1], run[m], steps[m - 1]);
      assert steps[m - 1].p != p ==> run[m].live[p] == run[m - 1].live[p];
    }
  }

  lemma {:induction false} DecPrefix(q: nat, n: nat) returns (p: nat)
    requires 0 < n <= |Dec(q)|
    ensures Dec(q)[..n] == Dec(p)
  {
    p := q;
    if n < |Dec(q)| {
      assert Dec(q)[..|Dec(q)| - 1] == Dec(q / 10);
      assert Dec(q / 10)[..n] == Dec(q)[..n];
      p := DecPrefix(q / 10, n);
    }
  }

  /** A lock text cut short names its writer, nobody, or the pid its digits begin with. */
  lemma TornTextNames(q: Pid, epoch: nat, n: nat, p: Pid)
    requires n <= |LockText(q, epoch)| && ParseHolderPid(LockText(q, epoch)[..n]) == Some(p)
    ensures p == q || (n < |Dec(q)| && Dec(p) == Dec(q)[..n])
  {
    var d, text := Dec(q), LockText(q, epoch)[..n];
    if |d| < n {
      var rest := text[|d| + 1..];
      assert text == d + ['\n'] + rest;
      assert '\n' !in d;
      IndexOfConcat(d, '\n', rest);
      assert text[..|d|] == d;
      DigitsParse(q);
    } else {
      assert text == d[..n];
      var m := DecPrefix(q, n);
      assert forall c :: c in text ==> c in d;
      NoNewline(text);
      assert text[..IndexOf(text, '\n')] == text;
      DigitsParse(m);
      assert n == |d| ==> d[..n] == d;
      if n == |d| { DecRoundTrip(q); DecRoundTrip(m); }
    }
  }

  lemma NoNewline(s: string)
    requires forall c :: c in s ==> IsDigit(c)
    ensures IndexOf(s, '\n') == |s|
  {
    IndexOfFinds(s, '\n');
    assert forall i :: 0 <= i < |s| ==> s[i] in s;
  }

  lemma DigitsParse(n: nat)
    ensures ParseUnsigned(Trim(IsWhitespace, Dec(n)), U32_LIMIT) == if n < U32_LIMIT then Some(n) else None
  {
    var d := Dec(n);
    assert Trimmed(IsWhitespace, d) by { assert d[0] in d && d[|d| - 1] in d; }
    TrimIsTrimmed(IsWhitespace, d);
    ParseDec(n, U32_LIMIT);
  }

  /** A release whose read and unlink work does remove the lock: up to its unlink the file is
      p's, untouched, and then it is gone. What lies there when p leaves is nothing, or
      somebody else's beginning; under the mutex it is nothing. */
  lemma ReleaseRemoves(run: seq<State>, steps: seq<Step>, i: nat, j: nat, p: Pid) returns (k: nat)
    requires IsRun(NO_FAULTS, run, steps) && Releases(run, steps, i, j, p)
    ensures i < k < j && steps[k] == DropUnlinkLock(p, false)
    ensures forall m :: i <= m <= k ==> run[m].file == run[i].file && FileNames(run[m], p)
    ensures run[k + 1].file == None
    ensures AbsentOrBegunByOther(run[j].file, p)
    ensures run[k].mutex == Some(p) ==> run[j].file == None
  {
    hide FileNames, Next, AbsentOrBegunByOther;
    k := LeavesOwning(run, i, j, p);
    LeavesByUnlinking(run, steps, k, p);
    forall m | i <= m <= k ensures run[m].file == run[i].file && FileNames(run[m], p) {
      OwnedAlong(run, steps, i, m, p);
    }
    forall m | k < m <= j ensures AtDropLeave(run[m], p) {
      StaysUnlinked(run, steps, k + 1, m, p);
    }
    BehindUnlink(run, steps, k + 1, j, p);
  }

  /** So the file names p afterwards only through a half-written pid of another process whose
      digits begin with all of p's. */
  lemma ReleasedNameIsGone(run: seq<State>, steps: seq<Step>, i: nat, j: nat, p: Pid)
    requires IsRun(NO_FAULTS, run, steps) && Releases(run, steps, i, j, p)
    ensures FileNames(run[j], p) ==> exists q: Pid :: |Dec(p)| < |Dec(q)| && Dec(p) <= Dec(q) && run[j].file == Some(Dec(p))
  {
    hide ParseHolderPid, Next, Dropping, Dec, LockText;
    var k := ReleaseRemoves(run, steps, i, j, p);
    if FileNames(run[j], p) {
      var q: Pid, epoch: nat, n: nat :|
        q != p && n <= |LockText(q, epoch)| && run[j].file == Some(LockText(q, epoch)[..n]);
      TornTextNames(q, epoch, n, p);
      TextBeginsWithPid(q, epoch, n);
    }
  }

  lemma TextBeginsWithPid(q: Pid, epoch: nat, n: nat)
    ensures n <= |Dec(q)| ==> n <= |LockText(q, epoch)| && LockText(q, epoch)[..n] == Dec(q)[..n]
  {
  }

  // ----- every acquire ends -----

  datatype Rank = Rank(phase: nat, stage: nat, left: nat)

  predicate Below(a: Rank, b: Rank) {
    a.phase < b.phase || (a.phase == b.phase && (a.stage < b.stage || (a.stage == b.stage && a.left < b.left)))
  }

  /** At most 300 mutex tries, then at most 3 passes, then out. */
  function AcquireRank(p: Pid, pc: Pc): Rank {
    match pc
    case Start => Rank(PASSES + 3, 0, 0)
    case Trying(tries) => Rank(PASSES + 2, 0, Minus(MUTEX_TRIES_ACQUIRE, tries))
    case Read(pass) => Rank(Minus(PASSES, pass) + 1, 6, 0)
    case Decide(pass, _) => Rank(Minus(PASSES, pass) + 1, 5, 0)
    case Open(pass) => Rank(Minus(PASSES, pass) + 1, 4, 0)
    case Writing(pass, epoch, done) => Rank(Minus(PASSES, pass) + 1, 3, Minus(|LockText(p, epoch)|, done))
    case Verify(pass) => Rank(Minus(PASSES, pass) + 1, 2, 0)
    case Leaving(_) => Rank(0, 1, 0)
    case _ => Rank(0, 0, 0)
  }

  function Minus(a: nat, b: nat): nat { if b <= a then a - b else 0 }

  ghost predicate Acquiring(pc: Pc) {
    pc.Start? || pc.Trying? || InSection(pc)
  }

  /** What acquire's own counters keep: at most three passes, never more written than the text. */
  ghost predicate CountersBounded(p: Pid, pc: Pc) {
    && (pc.Read? ==> pc.pass <= 3)
    && (pc.Decide? || pc.Open? || pc.Writing? || pc.Verify? ==> pc.pass < 3)
    && (pc.Trying? ==> pc.tries <= 300)
    && (pc.Writing? ==> pc.done <= |LockText(p, pc.epoch)|)
  }

  /** Under any faults whatever: each of p's own steps brings its acquire strictly closer to
      its end or is its end, and no step of another process sets it back. */
  lemma AcquireAdvances(faults: Faults, s: State, t: State, step: Step, p: Pid)
    requires Next(faults, s, t, step) && p in s.live && p in t.live
    requires Acquiring(s.live[p].pc) && CountersBounded(p, s.live[p].pc)
    ensures CountersBounded(p, t.live[p].pc)
    ensures step.p != p ==> t.live[p] == s.live[p]
    ensures step.p == p ==> Below(AcquireRank(p, t.live[p].pc), AcquireRank(p, s.live[p].pc))
    ensures Acquiring(t.live[p].pc) || t.live[p].pc.Running?
  {
    hide ParseHolderPid, LockText, StatusOf, Overlay, AcquireRank;
    if step.p == p {
      var pc := s.live[p].pc;
      if pc.Read? || pc.Decide? || pc.Verify? || pc.Leaving? {
        PassAdvances(faults, s, t, step);
      } else {
        OtherStepAdvances(faults, s, t, step);
      }
    }
  }

  lemma PassAdvances(faults: Faults, s: State, t: State, step: Step)
    requires Next(faults, s, t, step) && step.p in s.live && step.p in t.live
    requires var pc := s.live[step.p].pc;
             CountersBounded(step.p, pc) && (pc.Read? || pc.Decide? || pc.Verify? || pc.Leaving?)
    ensures CountersBounded(step.p, t.live[step.p].pc)
    ensures Below(AcquireRank(step.p, t.live[step.p].pc), AcquireRank(step.p, s.live[step.p].pc))
  {
    hide ParseHolderPid, LockText, StatusOf, Overlay;
  }

  lemma OtherStepAdvances(faults: Faults, s: State, t: State, step: Step)
    requires Next(faults, s, t, step) && step.p in s.live && step.p in t.live
    requires var pc := s.live[step.p].pc;
             CountersBounded(step.p, pc) && Acquiring(pc)
             && !pc.Read? && !pc.Decide? && !pc.Verify? && !pc.Leaving?
    ensures CountersBounded(step.p, t.live[step.p].pc)
    ensures Below(AcquireRank(step.p, t.live[step.p].pc), AcquireRank(step.p, s.live[step.p].pc))
  {
    hide ParseHolderPid, LockText, StatusOf, Overlay;
  }

  /** Steps that neither kill the process nor fail on the file system. */
  predicate GoesWell(step: Step) {
    match step
    case Spawn(_, _) | Kill(_) | MkdirFails(_) => false
    case ReadLock(_, fails) => !fails
    case OpenLock(_, _, fails) => !fails
    case WriteEnds(_, fails) => !fails
    case VerifyLock(_, fails) => !fails
    case _ => true
  }

  /** p's acquire can take a step in which nothing goes wrong. */
  ghost predicate CanStep(faults: Faults, s: State, p: Pid) {
    exists t: State, step: Step :: step.p == p && GoesWell(step) && Next(faults, s, t, step)
  }

  predicate OutOfTries(pc: Pc) { pc.Trying? && pc.tries >= 300 }

  /** The state after p's step to pc that leaves the file and the mutex alone. */
  function At(s: State, p: Pid, pc: Pc): State
    requires p in s.live
  {
    s.(live := s.live[p := s.live[p].(pc := pc)])
  }

  lemma WriteCanStep(faults: Faults, s: State, p: Pid)
    requires p in s.live && s.live[p].pc.Writing? && CountersBounded(p, s.live[p].pc)
    ensures CanStep(faults, s, p)
  {
    hide LockText, Overlay;
    var w := s.live[p].pc;
    var text := LockText(p, w.epoch);
    if w.done == |text| {
      assert Next(faults, s, At(s, p, Verify(w.pass)), WriteEnds(p, false));
    } else {
      assert Next(faults, s, At(s, p, w.(done := |text|)).(file := Overlay(s.file, w.done, text[w.done..|text|])), WriteSome(p, |text|));
    }
  }

  lemma PassCanStep(faults: Faults, s: State, p: Pid)
    requires p in s.live
    requires var pc := s.live[p].pc; pc.Read? || pc.Decide? || pc.Open? || pc.Verify? || pc.Leaving?
    ensures CanStep(faults, s, p)
  {
    hide ParseHolderPid, LockText, StatusOf, Overlay;
    var pc := s.live[p].pc;
    match pc
    case Read(pass) =>
      assert Next(faults, s, At(s, p, if pass < PASSES then Decide(pass, s.file) else Leaving(Lockless)), ReadLock(p, false));
    case Decide(pass, contents) =>
      var status := StatusOf(contents, (_: Pid) => true, (_: Pid) => true);
      assert Next(faults, s, At(s, p, if status.Held? then Leaving(Refused(status.pid)) else Open(pass)), DecideLock(p, true, true));
    case Open(pass) =>
      assert Next(faults, s, At(s, p, Writing(pass, 0, 0)).(file := Some("")), OpenLock(p, 0, false));
    case Verify(pass) =>
      var mine := s.file.Some? && ParseHolderPid(s.file.value) == Some(p);
      assert Next(faults, s, At(s, p, if mine then Leaving(Guarded) else Read(pass + 1)), VerifyLock(p, false));
    case Leaving(outcome) =>
      assert Next(faults, s, At(s, p, Running(outcome)).(mutex := FreeMutex(s, p)), LeaveAcquire(p));
  }

  /** An acquire that has not ended can take a step, whatever the other processes did, unless
      its 300 tries for the mutex are used up. There it goes on exactly if an acquirer may do
      without the mutex. With AcquireAdvances: then every acquire ends. */
  lemma AcquireIsNeverStuckIff(faults: Faults, s: State, p: Pid)
    requires p in s.live && Acquiring(s.live[p].pc) && CountersBounded(p, s.live[p].pc)
    ensures CanStep(faults, s, p) <==> !OutOfTries(s.live[p].pc) || faults.mutexUnobtainable
  {
    hide ParseHolderPid, LockText, StatusOf, Overlay;
    var pc := s.live[p].pc;
    if pc.Start? {
      assert Next(faults, s, At(s, p, Trying(0)), MkdirDone(p));
    } else if pc.Trying? {
      if faults.mutexUnobtainable {
        assert Next(faults, s, At(s, p, Read(0)), GiveUpMutex(p));
      } else if !OutOfTries(pc) {
        var t := if s.mutex == None then At(s, p, Read(0)).(mutex := Some(p)) else At(s, p, Trying(pc.tries + 1));
        assert Next(faults, s, t, TryMutex(p));
      }
    } else if pc.Writing? {
      WriteCanStep(faults, s, p);
    } else {
      PassCanStep(faults, s, p);
    }
  }

  // ----- every release ends -----

  function ReleaseRank(pc: Pc): nat {
    match pc
    case DropTrying(tries) => 4 + Minus(50, tries)
    case DropRead => 3
    case DropUnlink => 2
    case DropLeave => 1
    case _ => 0
  }

  ghost predicate DropTriesBounded(pc: Pc) { pc.DropTrying? ==> pc.tries <= 50 }

  /** Under any faults each of p's own steps brings its release nearer to the end, at most 50
      tries for the mutex among them, and nobody else's sets it back. */
  lemma ReleaseAdvances(faults: Faults, s: State, t: State, step: Step, p: Pid)
    requires Next(faults, s, t, step) && Dropping(s, p) && p in t.live && DropTriesBounded(s.live[p].pc)
    ensures DropTriesBounded(t.live[p].pc) && (Dropping(t, p) || t.live[p].pc == Gone)
    ensures if step.p == p then ReleaseRank(t.live[p].pc) < ReleaseRank(s.live[p].pc) else t.live[p] == s.live[p]
  {
    hide ParseHolderPid, LockText, StatusOf, Overlay;
  }

  /** And a release is never stuck. */
  lemma ReleaseIsNeverStuck(faults: Faults, s: State, p: Pid)
    requires Dropping(s, p)
    ensures CanStep(faults, s, p)
  {
    hide ParseHolderPid;
    match s.live[p].pc
    case DropTrying(tries) =>
      assert Next(faults, s, At(s, p, DropRead), DropGiveUpMutex(p));
    case DropRead =>
      var ours := s.file.Some? && ParseHolderPid(s.file.value) == Some(p);
      assert Next(faults, s, At(s, p, if ours then DropUnlink else DropLeave), DropReadLock(p, false));
    case DropUnlink =>
      assert Next(faults, s, At(s, p, DropLeave).(file := None), DropUnlinkLock(p, false));
    case DropLeave =>
      assert Next(faults, s, At(s, p, Gone).(mutex := FreeMutex(s, p)), LeaveDrop(p));
    case _ =>
  }

  /** Whatever the faults: only opening, writing and unlinking touch the file, and only taking,
      leaving and dying touch the mutex, the latter two only the process's own. */
  lemma StepsTouchTheirOwn(faults: Faults, s: State, t: State, step: Step)
    requires Next(faults, s, t, step)
    ensures t.file != s.file ==> step.OpenLock? || step.WriteSome? || step.DropUnlinkLock?
    ensures t.mutex != s.mutex ==>
      || ((step.TryMutex? || step.DropTryMutex?) && s.mutex == None && t.mutex == Some(step.p))
      || ((step.LeaveAcquire? || step.LeaveDrop? || step.Kill?) && s.mutex == Some(step.p) && t.mutex == None)
    ensures forall q :: q != step.p ==> (q in t.live <==> q in s.live) && (q in s.live ==> t.live[q] == s.live[q])
  {
    hide ParseHolderPid, LockText, StatusOf, Overlay;
  }

  // ----- each assumption is needed -----

  lemma Extend(faults: Faults, run: seq<State>, steps: seq<Step>, t: State, step: Step)
    requires IsRun(faults, run, steps) && Next(faults, run[|run| - 1], t, step)
    ensures IsRun(faults, run + [t], steps + [step])
  {
    var run', steps' := run + [t], steps + [step];
    forall i | 0 <= i < |steps'| ensures Next(faults, run'[i], run'[i + 1], steps'[i]) {
      if i < |steps| {
        assert run'[i] == run[i] && run'[i + 1] == run[i + 1] && steps'[i] == steps[i];
      }
    }
  }

  function Written(s: State, p: Pid): State
    requires p in s.live
  {
    At(s, p, Leaving(Guarded)).(file := Some(LockText(p, 0)))
  }

  /** From the decision to write, nothing stops p from verifying its own pid. */
  lemma CommitSteps(faults: Faults, s: State, p: Pid)
    returns (a: State, b: State, c: State)
    requires p in s.live && s.live[p].pc == Open(0)
    ensures Next(faults, s, a, OpenLock(p, 0, false))
    ensures Next(faults, a, b, WriteSome(p, |LockText(p, 0)|))
    ensures Next(faults, b, c, WriteEnds(p, false))
    ensures Next(faults, c, Written(s, p), VerifyLock(p, false))
  {
    var text := LockText(p, 0);
    a := At(s, p, Writing(0, 0, 0)).(file := Some(""));
    b := At(s, p, Writing(0, 0, |text|)).(file := Some(text));
    c := At(s, p, Verify(0)).(file := Some(text));
    assert b.live == At(a, p, Writing(0, 0, |text|)).live;
    assert c.live == At(b, p, Verify(0)).live;
    assert Written(s, p).live == At(c, p, Leaving(Guarded)).live;
    assert text[0..|text|] == text && "" + text == text;
    OverlayAtEnd("", text);
    LockTextNamesItsWriter(p, 0);
  }

  lemma Commit(faults: Faults, run: seq<State>, steps: seq<Step>, p: Pid)
    returns (run': seq<State>, steps': seq<Step>)
    requires IsRun(faults, run, steps)
    requires p in run[|run| - 1].live && run[|run| - 1].live[p].pc == Open(0)
    ensures IsRun(faults, run', steps') && run <= run' && run'[|run'| - 1] == Written(run[|run| - 1], p)
  {
    var s := run[|run| - 1];
    var a, b, c := CommitSteps(faults, s, p);
    run', steps' := ExtendWith(faults, run, steps, a, OpenLock(p, 0, false));
    run', steps' := ExtendWith(faults, run', steps', b, WriteSome(p, |LockText(p, 0)|));
    run', steps' := ExtendWith(faults, run', steps', c, WriteEnds(p, false));
    run', steps' := ExtendWith(faults, run', steps', Written(s, p), VerifyLock(p, false));
  }

  lemma ExtendWith(faults: Faults, run: seq<State>, steps: seq<Step>, t: State, step: Step)
    returns (run': seq<State>, steps': seq<Step>)
    requires IsRun(faults, run, steps) && Next(faults, run[|run| - 1], t, step)
    ensures IsRun(faults, run', steps') && run <= run' && steps <= steps' && run'[|run'| - 1] == t
    ensures steps' == steps + [step]
  {
    Extend(faults, run, steps, t, step);
    run', steps' := run + [t], steps + [step];
  }

  function Approached(s: State, p: Pid, takes: bool): State
    requires p in s.live
  {
    At(s, p, Open(0)).(mutex := if takes then Some(p) else s.mutex)
  }

  /** Nothing in the file keeps a starter from writing: only a probe that lies would be needed
      if it names a live chug process. */
  ghost predicate MayReclaim(faults: Faults, s: State) {
    s.file.Some? && ParseHolderPid(s.file.value).Some? && IsLiveChug(s, ParseHolderPid(s.file.value).value)
    ==> faults.probesLie
  }

  /** From start-up to the decision to write, with or without the mutex. */
  lemma ApproachSteps(faults: Faults, s: State, p: Pid, takes: bool, fails: bool)
    returns (a: State, b: State, c: State)
    requires p in s.live && s.live[p].pc == Start && s.live[p].chug
    requires if takes then s.mutex == None else faults.mutexUnobtainable
    requires fails ==> faults.readsFail
    requires fails || MayReclaim(faults, s)
    ensures Next(faults, s, a, MkdirDone(p))
    ensures Next(faults, a, b, if takes then TryMutex(p) else GiveUpMutex(p))
    ensures Next(faults, b, c, ReadLock(p, fails))
    ensures Next(faults, c, Approached(s, p, takes), DecideLock(p, false, false))
  {
    hide ParseHolderPid, LockText, Overlay;
    var m := if takes then Some(p) else s.mutex;
    var contents := if fails then None else s.file;
    a := At(s, p, Trying(0));
    b := At(s, p, Read(0)).(mutex := m);
    c := At(s, p, Decide(0, contents)).(mutex := m);
    assert b.live == At(a, p, Read(0)).live;
    assert c.live == At(b, p, Decide(0, contents)).live;
    assert Approached(s, p, takes).live == At(c, p, Open(0)).live;
    assert forall q :: IsLiveChug(c, q) <==> IsLiveChug(s, q);
  }

  lemma Approach(faults: Faults, run: seq<State>, steps: seq<Step>, p: Pid, takes: bool, fails: bool)
    returns (run': seq<State>, steps': seq<Step>)
    requires IsRun(faults, run, steps)
    requires var s := run[|run| - 1];
      && p in s.live && s.live[p].pc == Start && s.live[p].chug
      && (if takes then s.mutex == None else faults.mutexUnobtainable)
      && (fails ==> faults.readsFail)
      && (fails || MayReclaim(faults, s))
    ensures IsRun(faults, run', steps') && run <= run' && run'[|run'| - 1] == Approached(run[|run| - 1], p, takes)
  {
    hide MayReclaim;
    var s := run[|run| - 1];
    var a, b, c := ApproachSteps(faults, s, p, takes, fails);
    run', steps' := ExtendWith(faults, run, steps, a, MkdirDone(p));
    run', steps' := ExtendWith(faults, run', steps', b, if takes then TryMutex(p) else GiveUpMutex(p));
    run', steps' := ExtendWith(faults, run', steps', c, ReadLock(p, fails));
    run', steps' := ExtendWith(faults, run', steps', Approached(s, p, takes), DecideLock(p, false, false));
  }

  /** Two starters over an empty directory. */
  function TwoStarters(): State {
    State(None, None, map[1 := Process(true, Start), 2 := Process(true, Start)])
  }

  /** Without the mutex, both starters read the absent lock, both write and both verify. */
  lemma MutexIsNeeded() returns (run: seq<State>, steps: seq<Step>)
    ensures IsRun(Faults(true, false, false), run, steps)
    ensures Holds(run[|run| - 1], 1) && Holds(run[|run| - 1], 2)
  {
    var faults := Faults(true, false, false);
    run, steps := Approach(faults, [TwoStarters()], [], 1, false, false);
    run, steps := Approach(faults, run, steps, 2, false, false);
    run, steps := Commit(faults, run, steps, 1);
    run, steps := Commit(faults, run, steps, 2);
  }

  lemma BeginSteps(s: State, p: Pid, takes: bool)
    returns (a: State, b: State, c: State)
    requires p in s.live && s.live[p].pc == Leaving(Guarded) && s.mutex == Some(p)
    ensures Next(NO_FAULTS, s, a, LeaveAcquire(p))
    ensures Next(NO_FAULTS, a, b, BeginDrop(p))
    ensures Next(NO_FAULTS, b, c, if takes then DropTryMutex(p) else DropGiveUpMutex(p))
    ensures c == At(s, p, DropRead).(mutex := if takes then Some(p) else None)
  {
    a := At(s, p, Running(Guarded)).(mutex := None);
    b := At(s, p, DropTrying(0)).(mutex := None);
    c := At(s, p, DropRead).(mutex := if takes then Some(p) else None);
    assert b.live == At(a, p, DropTrying(0)).live;
    assert c.live == At(b, p, DropRead).live;
  }

  lemma UnlinkSteps(s: State, p: Pid)
    returns (d: State)
    requires p in s.live && s.live[p].pc == DropRead && FileNames(s, p)
    ensures Next(NO_FAULTS, s, d, DropReadLock(p, false))
    ensures Next(NO_FAULTS, d, At(s, p, DropLeave).(file := None), DropUnlinkLock(p, false))
  {
    hide ParseHolderPid;
    d := At(s, p, DropUnlink);
    assert At(s, p, DropLeave).live == At(d, p, DropLeave).live;
  }

  /** A holder releases, with or without the mutex, up to its unlink. */
  lemma Unlink(run: seq<State>, steps: seq<Step>, p: Pid, takes: bool)
    returns (run': seq<State>, steps': seq<Step>)
    requires IsRun(NO_FAULTS, run, steps)
    requires var s := run[|run| - 1];
      p in s.live && s.live[p].pc == Leaving(Guarded) && s.mutex == Some(p) && FileNames(s, p)
    ensures IsRun(NO_FAULTS, run', steps') && run <= run'
    ensures run'[|run'| - 1]
         == At(run[|run| - 1], p, DropLeave).(file := None, mutex := if takes then Some(p) else None)
  {
    hide Next, ParseHolderPid;
    var s := run[|run| - 1];
    var a, b, c := BeginSteps(s, p, takes);
    var d := UnlinkSteps(c, p);
    run', steps' := ExtendWith(NO_FAULTS, run, steps, a, LeaveAcquire(p));
    run', steps' := ExtendWith(NO_FAULTS, run', steps', b, BeginDrop(p));
    run', steps' := ExtendWith(NO_FAULTS, run', steps', c, if takes then DropTryMutex(p) else DropGiveUpMutex(p));
    run', steps' := ExtendWith(NO_FAULTS, run', steps', d, DropReadLock(p, false));
    assert At(c, p, DropLeave).live == At(s, p, DropLeave).live;
    run', steps' := ExtendWith(NO_FAULTS, run', steps', At(c, p, DropLeave).(file := None), DropUnlinkLock(p, false));
  }

  lemma LeaveStep(s: State, p: Pid)
    requires AtDropLeave(s, p) && s.mutex == Some(p)
    ensures Next(NO_FAULTS, s, At(s, p, Gone).(mutex := None), LeaveDrop(p))
  {
  }

  /** Whatever lies there, absent, garbage or the lock of a process that is gone: one starter
      can take the lock over, hold it, and leave the directory without one. */
  lemma StaleLockIsTakenAndReleased(file: Option<string>, p: Pid)
    returns (run: seq<State>, steps: seq<Step>, held: nat)
    requires file.Some? ==> ParseHolderPid(file.value) != Some(p)
    ensures IsRun(NO_FAULTS, run, steps) && run[0] == State(file, None, map[p := Process(true, Start)])
    ensures held < |run| && Holds(run[held], p) && run[held].file == Some(LockText(p, 0))
    ensures var last := run[|run| - 1];
      last.file == None && last.mutex == None && p in last.live && last.live[p].pc == Gone
  {
    hide ParseHolderPid, LockText, Next;
    run, steps := Approach(NO_FAULTS, [State(file, None, map[p := Process(true, Start)])], [], p, true, false);
    var r1, s1 := Commit(NO_FAULTS, run, steps, p);
    held := |r1| - 1;
    LockTextNamesItsWriter(p, 0);
    run, steps := Unlink(r1, s1, p, true);
    var s := run[|run| - 1];
    assert run[held] == r1[held];
    LeaveStep(s, p);
    run, steps := ExtendWith(NO_FAULTS, run, steps, At(s, p, Gone).(mutex := None), LeaveDrop(p));
  }

  lemma OneOfTwelve()
    ensures LockText(12, 0)[0..1] == "1" && ParseHolderPid("1") == Some(1)
  {
    assert Dec(12) == Dec(1) + [DigitChar(2)] && Dec(1) == "1";
    NoNewline(Dec(1));
    DigitsParse(1);
  }

  /** It can come to that: pid 1 has unlinked without the mutex, and pid 12 has so far written
      one digit of its own. */
  lemma ReleasedNameReturns() returns (run: seq<State>, steps: seq<Step>)
    ensures IsRun(NO_FAULTS, run, steps)
    ensures AtDropLeave(run[|run| - 1], 1) && FileNames(run[|run| - 1], 1)
  {
    hide Next, ParseHolderPid, LockText;
    var start := State(None, None, map[1 := Process(true, Start), 12 := Process(true, Start)]);
    run, steps := Approach(NO_FAULTS, [start], [], 1, true, false);
    run, steps := Commit(NO_FAULTS, run, steps, 1);
    LockTextNamesItsWriter(1, 0);
    run, steps := Unlink(run, steps, 1, false);
    run, steps := Approach(NO_FAULTS, run, steps, 12, true, false);
    var s := run[|run| - 1];
    var a := At(s, 12, Writing(0, 0, 0)).(file := Some(""));
    var b := At(s, 12, Writing(0, 0, 1)).(file := Some("1"));
    OneDigitSteps(s, a, b);
    run, steps := ExtendWith(NO_FAULTS, run, steps, a, OpenLock(12, 0, false));
    run, steps := ExtendWith(NO_FAULTS, run, steps, b, WriteSome(12, 1));
    OneOfTwelve();
  }

  lemma OneDigitSteps(s: State, a: State, b: State)
    requires 12 in s.live && s.live[12].pc == Open(0)
    requires a == At(s, 12, Writing(0, 0, 0)).(file := Some("")) && b == At(s, 12, Writing(0, 0, 1)).(file := Some("1"))
    ensures Next(NO_FAULTS, s, a, OpenLock(12, 0, false)) && Next(NO_FAULTS, a, b, WriteSome(12, 1))
  {
    hide ParseHolderPid;
    OneOfTwelve();
    assert b.live == At(a, 12, Writing(0, 0, 1)).live;
    assert 1 <= |LockText(12, 0)|;
    OverlayAtEnd("", "1");
    assert "" + "1" == "1";
  }

  /** A holder that is killed leaves its lock behind, and if a new chug process is given the
      same pid, that process refuses to start because of itself. */
  lemma RecycledPidRefusesItself(p: Pid) returns (run: seq<State>, steps: seq<Step>)
    ensures IsRun(NO_FAULTS, run, steps) && run[0] == State(None, None, map[])
    ensures exists i :: 0 < i < |steps| && steps[i] == Kill(p) && run[i].live == map[p := Process(true, Running(Guarded))]
    ensures run[|run| - 1].live == map[p := Process(true, Leaving(Refused(p)))]
  {
    hide ParseHolderPid, LockText, Next, StatusOf;
    run, steps := [State(None, None, map[])], [];
    var born := State(None, None, map[p := Process(true, Start)]);
    SpawnStep(run[0], p);
    run, steps := ExtendWith(NO_FAULTS, run, steps, born, Spawn(p, Process(true, Start)));
    run, steps := Approach(NO_FAULTS, run, steps, p, true, false);
    run, steps := Commit(NO_FAULTS, run, steps, p);
    var s := run[|run| - 1];
    var a := At(s, p, Running(Guarded)).(mutex := None);
    LeaveAcquireStep(s, p);
    run, steps := ExtendWith(NO_FAULTS, run, steps, a, LeaveAcquire(p));
    var i := |steps|;
    KillStep(a, p);
    run, steps := ExtendWith(NO_FAULTS, run, steps, State(a.file, None, map[]), Kill(p));
    assert steps[i] == Kill(p) && run[i] == a;
    SpawnStep(run[|run| - 1], p);
    var again := State(a.file, None, map[p := Process(true, Start)]);
    run, steps := ExtendWith(NO_FAULTS, run, steps, again, Spawn(p, Process(true, Start)));
    LockTextNamesItsWriter(p, 0);
    var r0, s0 := run, steps;
    run, steps := Refuse(run, steps, p);
    assert run[i] == r0[i];
  }

  lemma SpawnStep(s: State, p: Pid)
    requires s.live == map[]
    ensures Next(NO_FAULTS, s, State(s.file, s.mutex, map[p := Process(true, Start)]), Spawn(p, Process(true, Start)))
  {
  }

  lemma LeaveAcquireStep(s: State, p: Pid)
    requires p in s.live && s.live[p].pc == Leaving(Guarded) && s.mutex == Some(p)
    ensures Next(NO_FAULTS, s, At(s, p, Running(Guarded)).(mutex := None), LeaveAcquire(p))
  {
  }

  lemma KillStep(s: State, p: Pid)
    requires s.live.Keys == {p} && s.mutex == None
    ensures Next(NO_FAULTS, s, State(s.file, None, map[]), Kill(p))
  {
    assert s.live - {p} == map[];
  }

  lemma RefusingSteps(s: State, p: Pid) returns (a: State, b: State, c: State)
    requires s.live == map[p := Process(true, Start)] && s.mutex == None && FileNames(s, p)
    ensures Next(NO_FAULTS, s, a, MkdirDone(p)) && Next(NO_FAULTS, a, b, TryMutex(p)) && Next(NO_FAULTS, b, c, ReadLock(p, false))
    ensures Next(NO_FAULTS, c, At(s, p, Leaving(Refused(p))).(mutex := Some(p)), DecideLock(p, true, true))
  {
    hide ParseHolderPid;
    a := At(s, p, Trying(0));
    b := At(s, p, Read(0)).(mutex := Some(p));
    c := At(s, p, Decide(0, s.file)).(mutex := Some(p));
    assert b.live == At(a, p, Read(0)).live && c.live == At(b, p, Decide(0, s.file)).live;
    assert At(s, p, Leaving(Refused(p))).live == At(c, p, Leaving(Refused(p))).live;
  }

  lemma Refuse(run: seq<State>, steps: seq<Step>, p: Pid) returns (run': seq<State>, steps': seq<Step>)
    requires IsRun(NO_FAULTS, run, steps)
    requires var s := run[|run| - 1]; s.live == map[p := Process(true, Start)] && s.mutex == None && FileNames(s, p)
    ensures IsRun(NO_FAULTS, run', steps') && run <= run' && steps <= steps'
    ensures run'[|run'| - 1].live == map[p := Process(true, Leaving(Refused(p)))]
  {
    hide ParseHolderPid, Next, FileNames;
    var s := run[|run| - 1];
    var a, b, c := RefusingSteps(s, p);
    run', steps' := ExtendWith(NO_FAULTS, run, steps, a, MkdirDone(p));
    run', steps' := ExtendWith(NO_FAULTS, run', steps', b, TryMutex(p));
    run', steps' := ExtendWith(NO_FAULTS, run', steps', c, ReadLock(p, false));
    run', steps' := ExtendWith(NO_FAULTS, run', steps', At(s, p, Leaving(Refused(p))).(mutex := Some(p)), DecideLock(p, true, true));
  }

  /** A failed read of a live holder's file counts as "absent", and a probe that denies a
      live chug process reclaims its lock: in both cases, with the mutex, both end up holding. */
  lemma ReadsAndProbesAreNeeded(readsFail: bool) returns (run: seq<State>, steps: seq<Step>)
    ensures IsRun(Faults(false, readsFail, !readsFail), run, steps)
    ensures Holds(run[|run| - 1], 1) && Holds(run[|run| - 1], 2)
  {
    var faults := Faults(false, readsFail, !readsFail);
    run, steps := Approach(faults, [TwoStarters()], [], 1, true, false);
    run, steps := Commit(faults, run, steps, 1);
    var s := run[|run| - 1];
    var t := At(s, 1, Running(Guarded)).(mutex := None);
    run, steps := ExtendWith(faults, run, steps, t, LeaveAcquire(1));
    run, steps := Approach(faults, run, steps, 2, true, readsFail);
    run, steps := Commit(faults, run, steps, 2);
  }
}
