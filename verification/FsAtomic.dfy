/** `write_atomic`: writers replace one file through temp files of their own, interleaving
    their system calls, failing and crashing anywhere. */
module FsAtomic {
  import opened Text

  type byte = b: nat | b < 256
  type Bytes = seq<byte>

  /** Directory entries by name. */
  type Files = map<string, Bytes>

  /** The `<name>.<pid>.tmp` sibling. */
  function TempName(name: string, pid: nat): string {
    name + ("." + (Dec(pid) + ".tmp"))
  }

  datatype Pc = Creating | Writing(done: nat) | Syncing | Renaming | Cleaning | Returned(ok: bool)

  datatype Writer = Writer(pid: nat, bytes: Bytes, pc: Pc)

  /** `writers` is keyed by thread. */
  datatype State = State(files: Files, writers: map<nat, Writer>)

  datatype Step =
    | Spawn(w: nat, writer: Writer)
    | Crash(w: nat)
    | Create(w: nat, fails: bool)
    | WriteSome(w: nat, upTo: nat)
    | WriteEnds(w: nat, fails: bool)
    | Sync(w: nat, fails: bool)
    | Rename(w: nat, fails: bool)
    | Cleanup(w: nat, fails: bool)

  ghost predicate Moves(s: State, t: State, w: nat, pc: Pc) {
    w in s.writers && t.writers == s.writers[w := s.writers[w].(pc := pc)]
  }

  /** `sharedPid`: threads of one process may write at the same time. */
  ghost predicate Next(name: string, sharedPid: bool, s: State, t: State, step: Step) {
    match step
    case Spawn(w, writer) =>
      && w !in s.writers && writer.pc == Creating && t == s.(writers := s.writers[w := writer])
      && (!sharedPid ==> forall v :: v in s.writers ==> s.writers[v].pid != writer.pid)
    case Crash(w) => w in s.writers && t == s.(writers := s.writers - {w})
    case Create(w, fails) =>
      w in s.writers && s.writers[w].pc == Creating
      && (if fails then t.files == s.files && Moves(s, t, w, Cleaning)
          else t.files == s.files[TempName(name, s.writers[w].pid) := []] && Moves(s, t, w, Writing(0)))
    case WriteSome(w, upTo) =>
      w in s.writers && s.writers[w].pc.Writing?
      && var me := s.writers[w];
         var tmp := TempName(name, me.pid);
         && me.pc.done < upTo <= |me.bytes|
         && t.files == (if tmp in s.files then s.files[tmp := Overlay(s.files[tmp], me.pc.done, me.bytes[me.pc.done..upTo])] else s.files)
         && Moves(s, t, w, Writing(upTo))
    case WriteEnds(w, fails) =>
      w in s.writers && s.writers[w].pc.Writing? && t.files == s.files
      && (if fails then Moves(s, t, w, Cleaning)
          else s.writers[w].pc.done == |s.writers[w].bytes| && Moves(s, t, w, Syncing))
    case Sync(w, fails) =>
      w in s.writers && s.writers[w].pc == Syncing && t.files == s.files
      && Moves(s, t, w, if fails then Cleaning else Renaming)
    case Rename(w, fails) =>
      w in s.writers && s.writers[w].pc == Renaming
      && var tmp := TempName(name, s.writers[w].pid);
         (if fails then t.files == s.files && Moves(s, t, w, Cleaning)
          else && tmp in s.files && t.files == (s.files - {tmp})[name := s.files[tmp]]
               && Moves(s, t, w, Returned(true)))
    case Cleanup(w, fails) =>
      w in s.writers && s.writers[w].pc == Cleaning
      && t.files == (if fails then s.files else s.files - {TempName(name, s.writers[w].pid)})
      && Moves(s, t, w, Returned(false))
  }

  function Overlay(file: Bytes, off: nat, bytes: Bytes): Bytes {
    if |file| < off then file + seq(off - |file|, _ => 0) + bytes
    else file[..off] + bytes + if off + |bytes| <= |file| then file[off + |bytes|..] else []
  }

  ghost predicate IsRun(name: string, sharedPid: bool, run: seq<State>, steps: seq<Step>) {
    && |run| == |steps| + 1 && run[0].writers == map[]
    && forall i :: 0 <= i < |steps| ==> Next(name, sharedPid, run[i], run[i + 1], steps[i])
  }

  // ----- temp names never collide -----

  lemma TempNamesDiffer(name: string, p: nat, q: nat)
    ensures TempName(name, p) == TempName(name, q) ==> p == q
    ensures TempName(name, p) != name
  {
    var x, y := TempName(name, p), TempName(name, q);
    assert |x| == |name| + 5 + |Dec(p)| && |y| == |name| + 5 + |Dec(q)|;
    assert x[|name| + 1..][..|Dec(p)|] == Dec(p) && y[|name| + 1..][..|Dec(q)|] == Dec(q);
    DecRoundTrip(p);
    DecRoundTrip(q);
  }

  // ----- the invariant -----

  ghost predicate WriterInv(name: string, s: State, w: nat)
    requires w in s.writers
  {
    var me := s.writers[w];
    var tmp := TempName(name, me.pid);
    && (me.pc.Writing? ==> me.pc.done <= |me.bytes| && tmp in s.files && s.files[tmp] == me.bytes[..me.pc.done])
    && (me.pc == Syncing || me.pc == Renaming ==> tmp in s.files && s.files[tmp] == me.bytes)
  }

  ghost predicate Inv(name: string, s: State) {
    && (forall v, w :: v in s.writers && w in s.writers && v != w ==> s.writers[v].pid != s.writers[w].pid)
    && (forall w :: w in s.writers ==> WriterInv(name, s, w))
  }

  lemma OverlayAtEnd(file: Bytes, bytes: Bytes)
    requires bytes != []
    ensures Overlay(file, |file|, bytes) == file + bytes
  {
    assert file[..|file|] == file && file + bytes + [] == file + bytes;
  }

  lemma StepKeepsInv(name: string, s: State, t: State, step: Step)
    requires Inv(name, s) && Next(name, false, s, t, step)
    ensures Inv(name, t)
  {
    hide TempName, Overlay;
    forall v | v in s.writers && v != step.w
      ensures v in t.writers && t.writers[v] == s.writers[v]
      ensures var tmp := TempName(name, s.writers[v].pid);
              (tmp in t.files <==> tmp in s.files) && (tmp in s.files ==> t.files[tmp] == s.files[tmp])
    {
      OthersTempStays(name, s, t, step, v);
    }
    if step.WriteSome? {
      var me := s.writers[step.w];
      assert WriterInv(name, s, step.w);
      var done := me.pc.done;
      OverlayAtEnd(me.bytes[..done], me.bytes[done..step.upTo]);
      assert me.bytes[..done] + me.bytes[done..step.upTo] == me.bytes[..step.upTo];
    }
    forall v | v in t.writers ensures WriterInv(name, t, v) {
      if v in s.writers { assert WriterInv(name, s, v); }
      if v == step.w && step.WriteEnds? { assert s.writers[v].bytes[..|s.writers[v].bytes|] == s.writers[v].bytes; }
    }
  }

  lemma OthersTempStays(name: string, s: State, t: State, step: Step, v: nat)
    requires Inv(name, s) && Next(name, false, s, t, step) && v in s.writers && v != step.w
    ensures v in t.writers && t.writers[v] == s.writers[v]
    ensures var tmp := TempName(name, s.writers[v].pid);
            (tmp in t.files <==> tmp in s.files) && (tmp in s.files ==> t.files[tmp] == s.files[tmp])
  {
    hide TempName, Overlay;
    if step.w in s.writers {
      TempNamesDiffer(name, s.writers[v].pid, s.writers[step.w].pid);
    }
  }

  lemma {:induction false} RunKeepsInv(name: string, run: seq<State>, steps: seq<Step>, i: nat)
    requires IsRun(name, false, run, steps) && i < |run|
    ensures Inv(name, run[i])
  {
    if i > 0 {
      RunKeepsInv(name, run, steps, i - 1);
      StepKeepsInv(name, run[i - 1], run[i], steps[i - 1]);
    }
  }

  // ----- safety -----

  function Target(name: string, s: State): Option<Bytes> {
    if name in s.files then Some(s.files[name]) else None
  }

  /** The target changes only when a writer's rename succeeds, and then it holds exactly that
      writer's bytes; that writer's temp file is gone and it returns Ok. */
  lemma OnlyRenameChangesTarget(name: string, run: seq<State>, steps: seq<Step>, i: nat)
    requires IsRun(name, false, run, steps) && i < |steps|
    ensures Target(name, run[i + 1]) != Target(name, run[i]) ==> steps[i].Rename? && !steps[i].fails
    ensures steps[i].Rename? && !steps[i].fails ==>
      var me := run[i].writers[steps[i].w];
      && Target(name, run[i + 1]) == Some(me.bytes)
      && TempName(name, me.pid) !in run[i + 1].files
      && run[i + 1].writers[steps[i].w].pc == Returned(true)
  {
    hide TempName, Overlay;
    RunKeepsInv(name, run, steps, i);
    var s := run[i];
    if steps[i].w in s.writers {
      assert WriterInv(name, s, steps[i].w);
      TempNamesDiffer(name, s.writers[steps[i].w].pid, s.writers[steps[i].w].pid);
    }
  }

  /** At every moment the target is the original, or the complete bytes of one writer whose
      rename happened. */
  lemma {:induction false} TargetIsWhole(name: string, run: seq<State>, steps: seq<Step>, i: nat)
    requires IsRun(name, false, run, steps) && i < |run|
    ensures Target(name, run[i]) == Target(name, run[0])
         || exists k :: 0 <= k < i && RenamesAt(name, run, steps, k, Target(name, run[i]))
  {
    hide TempName, Next;
    if i > 0 {
      TargetIsWhole(name, run, steps, i - 1);
      OnlyRenameChangesTarget(name, run, steps, i - 1);
      if Target(name, run[i]) != Target(name, run[i - 1]) {
        RenamesNow(name, run, steps, i - 1);
      }
    }
  }

  ghost predicate RenamesAt(name: string, run: seq<State>, steps: seq<Step>, k: nat, target: Option<Bytes>)
    requires IsRun(name, false, run, steps)
  {
    && k < |steps| && steps[k].Rename? && !steps[k].fails && steps[k].w in run[k].writers
    && target == Some(run[k].writers[steps[k].w].bytes)
  }

  lemma RenamesNow(name: string, run: seq<State>, steps: seq<Step>, k: nat)
    requires IsRun(name, false, run, steps) && k < |steps| && steps[k].Rename? && !steps[k].fails
    ensures RenamesAt(name, run, steps, k, Target(name, run[k + 1]))
  {
    hide TempName;
    OnlyRenameChangesTarget(name, run, steps, k);
    assert Next(name, false, run[k], run[k + 1], steps[k]);
  }

  /** A writer that returned Ok put its own bytes into the target at its rename. */
  lemma {:induction false} OkReplaced(name: string, run: seq<State>, steps: seq<Step>, i: nat, w: nat) returns (k: nat)
    requires IsRun(name, false, run, steps) && i < |run|
    requires w in run[i].writers && run[i].writers[w].pc == Returned(true)
    ensures k < i && steps[k] == Rename(w, false) && Target(name, run[k + 1]) == Some(run[i].writers[w].bytes)
  {
    hide TempName, Overlay;
    var s, step := run[i - 1], steps[i - 1];
    assert Next(name, false, s, run[i], step);
    if step == Rename(w, false) {
      k := i - 1;
      OnlyRenameChangesTarget(name, run, steps, k);
    } else {
      k := OkReplaced(name, run, steps, i - 1, w);
    }
  }

  /** A writer that fails anywhere leaves the target byte for byte alone; if its clean-up
      unlink succeeds, it leaves no temp file either. */
  lemma FailureLeavesNothing(name: string, run: seq<State>, steps: seq<Step>, i: nat)
    requires IsRun(name, false, run, steps) && i < |steps|
    requires var w := steps[i].w; w in run[i + 1].writers && run[i + 1].writers[w].pc != Returned(true)
    ensures Target(name, run[i + 1]) == Target(name, run[i])
    ensures steps[i].Cleanup? && !steps[i].fails ==>
      && run[i + 1].writers[steps[i].w].pc == Returned(false)
      && TempName(name, run[i].writers[steps[i].w].pid) !in run[i + 1].files
  {
    hide TempName, Overlay;
    OnlyRenameChangesTarget(name, run, steps, i);
    assert Next(name, false, run[i], run[i + 1], steps[i]);
  }

  // ----- every write ends -----

  /** What a writer has left to do: its bytes, the sync, the rename. */
  function Left(me: Writer): nat {
    match me.pc
    case Creating => |me.bytes| + 5
    case Writing(done) => if done <= |me.bytes| then |me.bytes| - done + 4 else 4
    case Syncing => 3
    case Renaming => 2
    case Cleaning => 1
    case Returned(_) => 0
  }

  predicate Fails(step: Step) {
    match step
    case Create(_, fails) => fails
    case WriteEnds(_, fails) => fails
    case Sync(_, fails) => fails
    case Rename(_, fails) => fails
    case Cleanup(_, fails) => fails
    case _ => false
  }

  /** Each of a writer's own steps brings it nearer to its return, nobody else's moves it, and
      it takes the way out through the clean-up only after a step of its own has failed. */
  lemma WriterAdvances(name: string, sharedPid: bool, s: State, t: State, step: Step, w: nat)
    requires Next(name, sharedPid, s, t, step) && w in s.writers && w in t.writers
    ensures step.w != w ==> t.writers[w] == s.writers[w]
    ensures step.w == w ==>
      && Left(t.writers[w]) < Left(s.writers[w])
      && t.writers[w].bytes == s.writers[w].bytes && t.writers[w].pid == s.writers[w].pid
      && (t.writers[w].pc == Cleaning || t.writers[w].pc == Returned(false) ==> s.writers[w].pc == Cleaning || Fails(step))
      && (t.writers[w].pc == Returned(true) ==> step == Rename(w, false))
  {
    hide TempName, Overlay;
  }

  /** Until it returns, a writer has a step to take that does not fail. */
  lemma WriterCanStep(name: string, s: State, w: nat) returns (t: State, step: Step)
    requires Inv(name, s) && w in s.writers && !s.writers[w].pc.Returned?
    ensures Next(name, false, s, t, step) && step.w == w && !step.Crash? && !Fails(step)
  {
    hide TempName, Overlay;
    var me := s.writers[w];
    var tmp := TempName(name, me.pid);
    assert WriterInv(name, s, w);
    match me.pc
    case Creating =>
      step, t := Create(w, false), State(s.files[tmp := []], s.writers[w := me.(pc := Writing(0))]);
    case Writing(done) =>
      if done < |me.bytes| {
        step := WriteSome(w, |me.bytes|);
        t := State(s.files[tmp := Overlay(s.files[tmp], done, me.bytes[done..|me.bytes|])],
                   s.writers[w := me.(pc := Writing(|me.bytes|))]);
      } else {
        step, t := WriteEnds(w, false), s.(writers := s.writers[w := me.(pc := Syncing)]);
      }
    case Syncing =>
      step, t := Sync(w, false), s.(writers := s.writers[w := me.(pc := Renaming)]);
    case Renaming =>
      step := Rename(w, false);
      t := State((s.files - {tmp})[name := s.files[tmp]], s.writers[w := me.(pc := Returned(true))]);
    case Cleaning =>
      step, t := Cleanup(w, false), State(s.files - {tmp}, s.writers[w := me.(pc := Returned(false))]);
  }

  /** The temp file is a sibling named after the process. */
  lemma TempNameText(name: string, pid: nat)
    ensures TempName(name, pid) == name + "." + Dec(pid) + ".tmp"
  {
  }

  /** A process that dies in between leaves its temp file behind, and the target as it was. */
  lemma CrashLeavesTemp(name: string, original: Bytes, pid: nat, bytes: Bytes) returns (run: seq<State>, steps: seq<Step>)
    ensures IsRun(name, false, run, steps) && Target(name, run[0]) == Some(original)
    ensures exists i :: 0 <= i < |steps| && steps[i] == Crash(0)
    ensures var last := run[|run| - 1];
      last.writers == map[] && last.files == map[name := original][TempName(name, pid) := []]
  {
    hide TempName, Overlay;
    TempNamesDiffer(name, pid, pid);
    var before: Files := map[name := original];
    var after := before[TempName(name, pid) := []];
    var start := Writer(pid, bytes, Creating);
    run := [State(before, map[]), State(before, map[0 := start]),
            State(after, map[0 := start.(pc := Writing(0))]), State(after, map[])];
    steps := [Spawn(0, start), Create(0, false), Crash(0)];
    assert steps[2] == Crash(0);
    assert run[2].writers - {0} == map[];
  }

  // ----- one process, two threads -----

  /** The temp name carries the pid only: two threads of one process share it, and a reader
      can then see neither the original nor either writer's bytes. */
  lemma SharedPidLosesBytes(name: string, original: Bytes, b: byte) returns (run: seq<State>, steps: seq<Step>)
    requires original != []
    ensures IsRun(name, true, run, steps) && Target(name, run[0]) == Some(original)
    ensures 0 in run[|run| - 1].writers && run[|run| - 1].writers[0] == Writer(7, [b], Returned(true))
    ensures forall i, w :: 0 <= i < |run| && w in run[i].writers ==> run[i].writers[w].bytes == [b]
    ensures Target(name, run[|run| - 1]) == Some([])
  {
    hide TempName, Overlay;
    TempNamesDiffer(name, 7, 7);
    var tmp := TempName(name, 7);
    var before: Files := map[name := original];
    var empty, full := before[tmp := []], before[tmp := [b]];
    assert Overlay([], 0, [b]) == [b] by { OverlayAtEnd([], [b]); }
    assert [b][0..1] == [b];
    var start := Writer(7, [b], Creating);
    run := [State(before, map[]),
            State(before, map[0 := start]),
            State(before, map[0 := start, 1 := start]),
            State(empty, map[0 := start.(pc := Writing(0)), 1 := start]),
            State(full, map[0 := start.(pc := Writing(1)), 1 := start]),
            State(full, map[0 := start.(pc := Syncing), 1 := start]),
            State(full, map[0 := start.(pc := Renaming), 1 := start]),
            State(empty, map[0 := start.(pc := Renaming), 1 := start.(pc := Writing(0))]),
            State(map[name := []], map[0 := start.(pc := Returned(true)), 1 := start.(pc := Writing(0))])];
    steps := [Spawn(0, start), Spawn(1, start), Create(0, false), WriteSome(0, 1), WriteEnds(0, false),
              Sync(0, false), Create(1, false), Rename(0, false)];
    forall i | 0 <= i < |steps| ensures Next(name, true, run[i], run[i + 1], steps[i]) {
      if i == 0 || i == 1 {} else if i == 2 || i == 3 {} else if i == 4 || i == 5 {} else {}
    }
  }
}
