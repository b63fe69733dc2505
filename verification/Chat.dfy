/** The chat session: a UI that sends and finally drops its channels, and a worker that polls,
    drafts, approves and runs turns, as a transition system. */
module Chat {
  import opened Text

  datatype Request = Draft(text: string) | Approve

  /** Where the worker stands. The idle poll is two channel reads; the UI may act in between. */
  datatype Pc =
    | PollAutospec
    | PollObjective
    | Drafting(text: string)
    | Approving
    | Turn(objective: string, approved: bool)
    | Exited
    | Failed

  /** `taken…` and the counters record what the worker did; `sent…` what the UI did. */
  datatype State = State(
    autospec: seq<Request>, objectives: seq<string>, uiGone: bool,
    uiSeenGone: bool, pc: Pc, pending: Option<string>,
    sentAutospec: seq<Request>, sentObjectives: seq<string>,
    takenAutospec: seq<Request>, takenObjectives: seq<string>,
    drafts: nat, approvals: nat)

  const START := State([], [], false, false, PollAutospec, None, [], [], [], [], 0, 0)

  datatype Step =
    | UiSends(request: Request)
    | UiSaysObjective(text: string)
    | UiQuits
    | TryRecvAutospec
    | RecvObjective
    | DraftEnds(ok: bool)
    | ApproveEnds(gateOk: bool)
    | TurnEnds(ok: bool)

  /** `try_recv`: a queued request is served; an empty queue ends the session once the UI is
      known to be gone, and otherwise moves on to the objectives. */
  function AfterTryRecv(s: State): State {
    if s.autospec != [] then
      var r := s.autospec[0];
      s.(autospec := s.autospec[1..], takenAutospec := s.takenAutospec + [r],
         pc := match r case Draft(text) => Drafting(text) case Approve => Approving)
    else if s.uiSeenGone then s.(pc := Exited)
    else s.(pc := PollObjective)
  }

  /** `recv_timeout`: an objective, a disconnect (latched), or a timeout. */
  function AfterRecv(s: State): State {
    if s.objectives != [] then
      s.(objectives := s.objectives[1..], takenObjectives := s.takenObjectives + [s.objectives[0]],
         pc := Turn(s.objectives[0], false))
    else if s.uiGone then s.(uiSeenGone := true, pc := PollAutospec)
    else s.(pc := PollAutospec)
  }

  /** Drafting parks the request only if the draft passed; a refused draft parks nothing. */
  function AfterDraft(s: State, text: string, ok: bool): State {
    s.(pending := if ok then Some(text) else None, drafts := s.drafts + if ok then 1 else 0, pc := PollAutospec)
  }

  /** Approval consumes the parked request if the gate accepts; a refusal changes nothing. */
  function AfterApprove(s: State, gateOk: bool): State {
    if s.pending.Some? && gateOk then
      s.(pending := None, approvals := s.approvals + 1, pc := Turn(s.pending.value, true))
    else s.(pc := PollAutospec)
  }

  ghost predicate Next(s: State, t: State, step: Step) {
    match step
    case UiSends(r) => !s.uiGone && t == s.(autospec := s.autospec + [r], sentAutospec := s.sentAutospec + [r])
    case UiSaysObjective(o) => !s.uiGone && t == s.(objectives := s.objectives + [o], sentObjectives := s.sentObjectives + [o])
    case UiQuits => !s.uiGone && t == s.(uiGone := true)
    case TryRecvAutospec => s.pc == PollAutospec && t == AfterTryRecv(s)
    case RecvObjective => s.pc == PollObjective && t == AfterRecv(s)
    case DraftEnds(ok) => s.pc.Drafting? && t == AfterDraft(s, s.pc.text, ok)
    case ApproveEnds(ok) => s.pc == Approving && t == AfterApprove(s, ok)
    case TurnEnds(ok) => s.pc.Turn? && t == s.(pc := if ok then PollAutospec else Failed)
  }

  ghost predicate IsRun(run: seq<State>, steps: seq<Step>) {
    && |run| == |steps| + 1 && run[0] == START
    && forall i :: 0 <= i < |steps| ==> Next(run[i], run[i + 1], steps[i])
  }

  ghost predicate Inv(s: State) {
    // each channel is taken in order, nothing lost, nothing twice
    && s.takenAutospec + s.autospec == s.sentAutospec
    && s.takenObjectives + s.objectives == s.sentObjectives
    // the latch is set only after the objectives ran dry for good
    && (s.uiSeenGone ==> s.uiGone && s.objectives == [])
    && (s.pc == Exited ==> s.uiSeenGone && s.autospec == [])
    && (s.uiSeenGone ==> s.pc != PollObjective)
    // a parked request is a draft that no approval has consumed
    && s.approvals + (if s.pending.Some? then 1 else 0) <= s.drafts
  }

  lemma TakeFirst<T>(taken: seq<T>, queue: seq<T>, sent: seq<T>)
    requires taken + queue == sent && queue != []
    ensures (taken + [queue[0]]) + queue[1..] == sent
  {
    assert queue == [queue[0]] + queue[1..];
  }

  lemma SendLast<T>(taken: seq<T>, queue: seq<T>, sent: seq<T>, x: T)
    requires taken + queue == sent
    ensures taken + (queue + [x]) == sent + [x]
  {
    assert taken + (queue + [x]) == (taken + queue) + [x];
  }

  lemma PollKeepsInv(s: State, t: State, step: Step)
    requires Inv(s) && Next(s, t, step) && (step.TryRecvAutospec? || step.RecvObjective?)
    ensures Inv(t)
  {
    if step.TryRecvAutospec? {
      if s.autospec != [] { TakeFirst(s.takenAutospec, s.autospec, s.sentAutospec); }
    } else {
      if s.objectives != [] { TakeFirst(s.takenObjectives, s.objectives, s.sentObjectives); }
    }
  }

  lemma UiKeepsInv(s: State, t: State, step: Step)
    requires Inv(s) && Next(s, t, step) && (step.UiSends? || step.UiSaysObjective? || step.UiQuits?)
    ensures Inv(t)
  {
    match step
    case UiSends(r) => SendLast(s.takenAutospec, s.autospec, s.sentAutospec, r);
    case UiSaysObjective(o) => SendLast(s.takenObjectives, s.objectives, s.sentObjectives, o);
    case _ =>
  }

  lemma StepKeepsInv(s: State, t: State, step: Step)
    requires Inv(s) && Next(s, t, step)
    ensures Inv(t)
  {
    if step.TryRecvAutospec? || step.RecvObjective? {
      PollKeepsInv(s, t, step);
    } else if step.UiSends? || step.UiSaysObjective? || step.UiQuits? {
      UiKeepsInv(s, t, step);
    }
  }

  lemma {:induction false} RunKeepsInv(run: seq<State>, steps: seq<Step>, i: nat)
    requires IsRun(run, steps) && i < |run|
    ensures Inv(run[i])
  {
    if i > 0 {
      RunKeepsInv(run, steps, i - 1);
      StepKeepsInv(run[i - 1], run[i], steps[i - 1]);
    }
  }

  /** In every session: what was taken from a channel is the beginning of what was sent on it,
      and a session that exits has taken everything ever sent, each once, in order. */
  lemma NothingIsLost(run: seq<State>, steps: seq<Step>, i: nat)
    requires IsRun(run, steps) && i < |run|
    ensures run[i].takenAutospec <= run[i].sentAutospec && run[i].takenObjectives <= run[i].sentObjectives
    ensures run[i].pc == Exited ==>
      && run[i].uiGone
      && run[i].takenAutospec == run[i].sentAutospec && run[i].takenObjectives == run[i].sentObjectives
  {
    RunKeepsInv(run, steps, i);
    var s := run[i];
    assert s.takenAutospec + [] == s.takenAutospec && s.takenObjectives + [] == s.takenObjectives;
  }

  /** Once exited, always exited, and nothing more can arrive. */
  lemma {:induction false} ExitIsFinal(run: seq<State>, steps: seq<Step>, i: nat, j: nat)
    requires IsRun(run, steps) && i <= j < |run| && run[i].pc == Exited
    ensures run[j] == run[i]
  {
    if i < j {
      ExitIsFinal(run, steps, i, j - 1);
      RunKeepsInv(run, steps, i);
      assert Next(run[j - 1], run[j], steps[j - 1]);
    }
  }

  // ----- everything sent is served, and the session ends -----

  /** What the worker takes next is the oldest entry it has not taken, and it does that. */
  lemma RequestsAreServed(run: seq<State>, steps: seq<Step>, i: nat)
    requires IsRun(run, steps) && i < |steps|
    ensures var s, t := run[i], run[i + 1];
      && (steps[i].TryRecvAutospec? && |s.takenAutospec| < |s.sentAutospec| ==>
            var r := s.sentAutospec[|s.takenAutospec|];
            t.takenAutospec == s.takenAutospec + [r] && t.pc == (match r case Draft(x) => Drafting(x) case Approve => Approving))
      && (steps[i].RecvObjective? && |s.takenObjectives| < |s.sentObjectives| ==>
            var o := s.sentObjectives[|s.takenObjectives|];
            t.takenObjectives == s.takenObjectives + [o] && t.pc == Turn(o, false))
      // with nothing to take it looks at the other channel, and ends once the UI is known gone
      && (steps[i].TryRecvAutospec? && |s.takenAutospec| == |s.sentAutospec| ==>
            t.pc == if s.uiSeenGone then Exited else PollObjective)
      && (steps[i].RecvObjective? && |s.takenObjectives| == |s.sentObjectives| ==> t.pc == PollAutospec)
  {
    RunKeepsInv(run, steps, i);
    assert Next(run[i], run[i + 1], steps[i]);
    var s := run[i];
    assert s.sentAutospec[|s.takenAutospec|..] == s.autospec && s.sentObjectives[|s.takenObjectives|..] == s.objectives;
  }

  predicate Over(pc: Pc) { pc == Exited || pc == Failed }

  function Stage(pc: Pc): nat {
    match pc
    case Approving => 4
    case Drafting(_) | Turn(_, _) => 3
    case PollAutospec => 2
    case PollObjective => 1
    case _ => 0
  }

  /** What is left to do once the UI has gone. */
  function Left(s: State): nat {
    5 * |s.autospec| + 5 * |s.objectives| + (if s.uiSeenGone then 0 else 5) + Stage(s.pc)
  }

  lemma GoneStepNearsEnd(s: State, t: State, step: Step)
    requires Inv(s) && s.uiGone && Next(s, t, step)
    ensures t.uiGone && Left(t) < Left(s)
  {
  }

  /** The worker is never stuck: until the session is over it has a step to take. */
  lemma WorkerCanStep(s: State) returns (t: State, step: Step)
    requires !Over(s.pc)
    ensures Next(s, t, step) && !step.UiSends? && !step.UiSaysObjective? && !step.UiQuits?
  {
    step := match s.pc
      case PollAutospec => TryRecvAutospec
      case PollObjective => RecvObjective
      case Drafting(_) => DraftEnds(true)
      case Approving => ApproveEnds(true)
      case _ => TurnEnds(true);
    t := match s.pc
      case PollAutospec => AfterTryRecv(s)
      case PollObjective => AfterRecv(s)
      case Drafting(text) => AfterDraft(s, text, true)
      case Approving => AfterApprove(s, true)
      case _ => s.(pc := PollAutospec);
  }

  lemma {:induction false} GoneStepsAreFew(run: seq<State>, steps: seq<Step>, i: nat, j: nat)
    requires IsRun(run, steps) && i <= j < |run| && run[i].uiGone
    ensures run[j].uiGone && Left(run[j]) + (j - i) <= Left(run[i])
  {
    hide Next, Inv, Left;
    if i < j {
      GoneStepsAreFew(run, steps, i, j - 1);
      RunKeepsInv(run, steps, j - 1);
      GoneStepNearsEnd(run[j - 1], run[j], steps[j - 1]);
    }
  }

  lemma QuitStep(s: State, t: State)
    requires Next(s, t, UiQuits)
    ensures t.uiGone && Left(t) == Left(s)
  {
  }

  /** Once the UI quits, the session takes at most so many more steps. */
  lemma GoneSessionEnds(run: seq<State>, steps: seq<Step>, i: nat, j: nat)
    requires IsRun(run, steps) && i < j < |run| && steps[i] == UiQuits
    ensures Left(run[j]) + (j - i - 1) <= Left(run[i])
  {
    hide Next, Left;
    QuitStep(run[i], run[i + 1]);
    GoneStepsAreFew(run, steps, i + 1, j);
  }

  // ----- approvals -----

  /** Draft number k passed with the text x, and nothing has replaced or consumed it since. */
  ghost predicate Parked(run: seq<State>, steps: seq<Step>, i: nat, k: nat, x: string) {
    && k < i <= |steps| && |run| == |steps| + 1
    && steps[k] == DraftEnds(true) && run[k].pc == Drafting(x)
    && forall m :: k < m < i ==> !steps[m].DraftEnds? && steps[m] != ApproveEnds(true)
  }

  lemma SlotStep(s: State, t: State, step: Step, x: string)
    requires Next(s, t, step)
    ensures t.pending == Some(x)
       <==> (|| (step == DraftEnds(true) && s.pc == Drafting(x))
             || (s.pending == Some(x) && !step.DraftEnds? && step != ApproveEnds(true)))
  {
  }

  lemma ParkedStep(run: seq<State>, steps: seq<Step>, i: nat, k: nat, x: string)
    requires i < |steps| && |run| == |steps| + 1
    ensures Parked(run, steps, i + 1, k, x)
       <==> (|| (k == i && steps[i] == DraftEnds(true) && run[i].pc == Drafting(x))
             || (Parked(run, steps, i, k, x) && !steps[i].DraftEnds? && steps[i] != ApproveEnds(true)))
  {
  }

  /** In every session the slot holds x exactly if a draft of x passed and no draft has ended
      and no approval been accepted since. */
  lemma {:induction false} SlotIsLatestDraft(run: seq<State>, steps: seq<Step>, i: nat, x: string)
    requires IsRun(run, steps) && i < |run|
    ensures run[i].pending == Some(x) <==> exists k: nat :: Parked(run, steps, i, k, x)
  {
    hide Next, Parked;
    if i == 0 {
      forall k: nat ensures !Parked(run, steps, 0, k, x) { NothingParked(run, steps, k, x); }
    } else {
      var m := i - 1;
      SlotIsLatestDraft(run, steps, m, x);
      SlotStep(run[m], run[i], steps[m], x);
      ParkedStep(run, steps, m, m, x);
      forall k: nat ensures Parked(run, steps, i, k, x)
         <==> (|| (k == m && steps[m] == DraftEnds(true) && run[m].pc == Drafting(x))
               || (Parked(run, steps, m, k, x) && !steps[m].DraftEnds? && steps[m] != ApproveEnds(true)))
      {
        ParkedStep(run, steps, m, k, x);
      }
    }
  }

  lemma NothingParked(run: seq<State>, steps: seq<Step>, k: nat, x: string)
    ensures !Parked(run, steps, 0, k, x)
  {
  }

  /** An approval starts a turn exactly if the gate accepts and a draft is waiting, and the turn
      is that draft's text; otherwise the session is idle again. */
  lemma ApprovalRunsLatestDraft(run: seq<State>, steps: seq<Step>, i: nat, x: string)
    requires IsRun(run, steps) && i < |steps| && steps[i].ApproveEnds?
    ensures run[i + 1].pc == Turn(x, true) <==> steps[i].gateOk && exists k: nat :: Parked(run, steps, i, k, x)
    ensures !run[i + 1].pc.Turn? ==> run[i + 1].pc == PollAutospec && run[i + 1].pending == run[i].pending
  {
    SlotIsLatestDraft(run, steps, i, x);
    assert Next(run[i], run[i + 1], steps[i]);
    hide IsRun, Parked;
  }

  predicate StartsApproved(s: State, t: State) { t.pc.Turn? && t.pc.approved && !s.pc.Turn? }

  function ApprovedTurns(run: seq<State>): nat {
    if |run| < 2 then 0
    else ApprovedTurns(run[..|run| - 1]) + if StartsApproved(run[|run| - 2], run[|run| - 1]) then 1 else 0
  }

  function GoodDrafts(steps: seq<Step>): nat {
    if steps == [] then 0
    else GoodDrafts(steps[..|steps| - 1]) + if steps[|steps| - 1] == DraftEnds(true) then 1 else 0
  }

  lemma {:induction false} CountersCount(run: seq<State>, steps: seq<Step>)
    requires IsRun(run, steps)
    ensures run[|run| - 1].approvals == ApprovedTurns(run) && run[|run| - 1].drafts == GoodDrafts(steps)
  {
    if steps != [] {
      var n := |steps|;
      assert run[..n] == run[..|run| - 1];
      CountersCount(run[..n], steps[..n - 1]);
      assert Next(run[n - 1], run[n], steps[n - 1]);
    }
  }

  /** Turns started by approval never outnumber the drafts that passed. */
  lemma ApprovalsAreBacked(run: seq<State>, steps: seq<Step>)
    requires IsRun(run, steps)
    ensures ApprovedTurns(run) <= GoodDrafts(steps)
  {
    CountersCount(run, steps);
    RunKeepsInv(run, steps, |steps|);
  }

  /** With nothing parked, a step parks something only by a draft that passes. */
  lemma EmptySlotStep(s: State, t: State, step: Step)
    requires Next(s, t, step) && s.pending == None && step != DraftEnds(true)
    ensures t.pending == None && !StartsApproved(s, t)
  {
  }

  /** Between two approved turns a new draft must have passed: with none in between, every
      further approval is refused. */
  lemma {:induction false} NoDraftNoSecondTurn(run: seq<State>, steps: seq<Step>, i: nat, j: nat)
    requires IsRun(run, steps) && i < j < |run|
    requires StartsApproved(run[i], run[i + 1])
    requires forall k :: i < k <= j && k < |steps| ==> steps[k] != DraftEnds(true)
    ensures run[j].pending == None
    ensures j < |steps| ==> !StartsApproved(run[j], run[j + 1])
  {
    hide Next, StartsApproved;
    if i + 1 < j {
      NoDraftNoSecondTurn(run, steps, i, j - 1);
      EmptySlotStep(run[j - 1], run[j], steps[j - 1]);
    } else {
      ApprovedTurnEmptiesSlot(run[i], run[j], steps[i]);
    }
    if j < |steps| { EmptySlotStep(run[j], run[j + 1], steps[j]); }
  }

  lemma ApprovedTurnEmptiesSlot(s: State, t: State, step: Step)
    requires Next(s, t, step) && StartsApproved(s, t)
    ensures t.pending == None
  {
  }
}
