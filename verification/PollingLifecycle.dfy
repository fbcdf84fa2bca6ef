/**
  Registration and unregistration of a polling instance
  (src/common/TaskingModel.hpp), as interleaved steps of the polling task, the runtime's
  completion callback and the task that unregisters the instance.
 */
module PollingLifecycle {

  /** `genericPolling` loops inside one task body; `suspendPolling` runs once per
      submission and the runtime submits the task again while it suspends itself. */
  datatype Mode = Loop | Suspend

  datatype Poller =
    | Submitted   // body not entered yet
    | Checking    // about to read _mustFinish
    | Calling     // about to call the polling function of the instance
    | Waiting     // in alpi_task_waitfor_ns, or suspended
    | Ended       // body returned without suspending: the completion callback is due
    | Gone        // callback has run

  datatype Owner =
    | Registered
    | Stopping    // unregisterPolling: _mustFinish stored, waiting for _finished
    | Deleting    // _finished read as true, delete to come
    | Returned

  /** `calls`, `late` and `dangling` are history: calls of the polling function, those
      among them made after _mustFinish was stored, and whether the instance was ever
      accessed after its deletion. */
  datatype State = State(
    mode: Mode, poller: Poller, owner: Owner,
    mustFinish: bool, finished: bool, deleted: bool,
    calls: nat, late: nat, dangling: bool)

  datatype Step = Enter | Check | Call | Wake | Complete | Stop | ReadFinished | Delete

  function Spawned(mode: Mode): State {
    State(mode, Submitted, Registered, false, false, false, 0, 0, false)
  }

  predicate Enabled(s: State, step: Step) {
    match step
    case Enter => s.poller.Submitted?
    case Check => s.poller.Checking?
    case Call => s.poller.Calling?
    case Wake => s.poller.Waiting?
    case Complete => s.poller.Ended?
    case Stop => s.owner.Registered?
    case ReadFinished => s.owner.Stopping?
    case Delete => s.owner.Deleting?
  }

  /** An access to the fields of the instance. */
  function Touched(s: State): State {
    s.(dangling := s.dangling || s.deleted)
  }

  function Next(s: State, step: Step): State
    requires Enabled(s, step)
  {
    match step
    case Enter => s.(poller := Checking)
    case Check => Touched(s).(poller := if s.mustFinish then Ended else Calling)
    case Call => Touched(s).(poller := Waiting, calls := s.calls + 1,
                             late := s.late + if s.mustFinish then 1 else 0)
    case Wake => s.(poller := if s.mode.Loop? then Checking else Submitted)
    case Complete => Touched(s).(poller := Gone, finished := true)
    case Stop => Touched(s).(owner := Stopping, mustFinish := true)
    case ReadFinished => Touched(s).(owner := if s.finished then Deleting else Stopping)
    case Delete => Touched(s).(owner := Returned, deleted := true)
  }

  ghost predicate Inv(s: State) {
    && (s.mustFinish <==> !s.owner.Registered?)
    && (s.finished <==> s.poller.Gone?)
    && (s.poller.Ended? || s.poller.Gone? ==> s.mustFinish)
    && (s.owner.Deleting? || s.owner.Returned? ==> s.poller.Gone?)
    && (s.deleted <==> s.owner.Returned?)
    && s.late + (if s.mustFinish && s.poller.Calling? then 1 else 0) <= 1
    && (!s.mustFinish ==> s.late == 0)
    && !s.dangling
  }

  ghost predicate IsRun(mode: Mode, states: seq<State>, steps: seq<Step>) {
    && |states| == |steps| + 1
    && states[0] == Spawned(mode)
    && (forall i :: 0 <= i < |steps| ==> Enabled(states[i], steps[i]) && states[i + 1] == Next(states[i], steps[i]))
  }

  lemma {:induction false} RunInv(mode: Mode, states: seq<State>, steps: seq<Step>, i: nat)
    requires IsRun(mode, states, steps) && i < |states|
    ensures Inv(states[i])
  {
    if i > 0 {
      RunInv(mode, states, steps, i - 1);
      assert states[i] == Next(states[i - 1], steps[i - 1]);
    }
  }

  // ------------------------------------------------------- what happens in a run

  /** How often a step is made. */
  function Count(steps: seq<Step>, step: Step): nat {
    if steps == [] then 0
    else Count(steps[..|steps| - 1], step) + if steps[|steps| - 1] == step then 1 else 0
  }

  lemma {:induction false} CountMore(steps: seq<Step>, i: nat, step: Step)
    requires i < |steps|
    ensures Count(steps[..i + 1], step) == Count(steps[..i], step) + if steps[i] == step then 1 else 0
  {
    assert steps[..i + 1][..i] == steps[..i];
  }

  /** The steps from i to j. */
  lemma {:induction false} CountBetween(steps: seq<Step>, i: nat, j: nat, step: Step)
    requires i <= j <= |steps|
    ensures Count(steps[i..j], step) == Count(steps[..j], step) - Count(steps[..i], step)
    decreases j
  {
    if i < j {
      CountBetween(steps, i, j - 1, step);
      CountMore(steps, j - 1, step);
      assert steps[i..j][..j - 1 - i] == steps[i..j - 1];
    } else {
      assert steps[i..j] == [];
    }
  }

  lemma {:induction false} CountNone(steps: seq<Step>, step: Step)
    requires forall k :: 0 <= k < |steps| ==> steps[k] != step
    ensures Count(steps, step) == 0
  {
    if steps != [] {
      CountNone(steps[..|steps| - 1], step);
    }
  }

  /** Checks, calls and waits alternate: every check is followed by one call, except the one
      that finds the stop flag, and every call by one wait. A suspended task enters its body
      once more after every wait. */
  ghost predicate Alternating(s: State, done: seq<Step>) {
    && s.calls == Count(done, Call)
    && Count(done, Call) == Count(done, Wake) + (if s.poller.Waiting? then 1 else 0)
    && Count(done, Check) == Count(done, Call) + (if s.poller.Calling? || s.poller.Ended? || s.poller.Gone? then 1 else 0)
    && Count(done, Enter) == (if s.mode.Loop? then 0 else Count(done, Wake)) + (if s.poller.Submitted? then 0 else 1)
    && Count(done, Complete) == (if s.poller.Gone? then 1 else 0)
    && Count(done, Stop) == (if s.mustFinish then 1 else 0)
    && Count(done, Delete) == (if s.deleted then 1 else 0)
  }

  lemma {:induction false} CallsAndChecks(mode: Mode, states: seq<State>, steps: seq<Step>, i: nat)
    requires IsRun(mode, states, steps) && i < |states|
    ensures states[i].mode == mode && Alternating(states[i], steps[..i])
  {
    if i > 0 {
      CallsAndChecks(mode, states, steps, i - 1);
      RunInv(mode, states, steps, i - 1);
      AlternatingMore(states[i - 1], steps[..i - 1], steps[i - 1]);
      assert steps[..i] == steps[..i - 1] + [steps[i - 1]] && states[i] == Next(states[i - 1], steps[i - 1]);
    } else {
      assert steps[..0] == [];
    }
  }

  lemma {:induction false} AlternatingMore(s: State, done: seq<Step>, step: Step)
    requires Inv(s) && Alternating(s, done) && Enabled(s, step)
    ensures Alternating(Next(s, step), done + [step])
  {
    assert (done + [step])[..|done|] == done;
  }

  /** Between two checks of the stop flag, with no other check in between, the polling
      function is called exactly once. */
  lemma OneCallBetweenChecks(mode: Mode, states: seq<State>, steps: seq<Step>, i: nat, j: nat)
    requires IsRun(mode, states, steps) && i < j < |steps| && steps[i] == Check && steps[j] == Check
    requires forall k :: i < k < j ==> steps[k] != Check
    ensures Count(steps[i..j], Call) == 1 && !states[i].mustFinish
  {
    CallsAndChecks(mode, states, steps, i);
    CallsAndChecks(mode, states, steps, j);
    CountBetween(steps, i, j, Call);
    CountBetween(steps, i, j, Check);
    CountBetween(steps, i + 1, j, Check);
    CountMore(steps, i, Check);
    CountNone(steps[i + 1..j], Check);
    RunInv(mode, states, steps, i);
    if states[i].mustFinish {
      EndedForGood(mode, states, steps, i + 1, j);
    }
  }

  lemma {:induction false} EndedForGood(mode: Mode, states: seq<State>, steps: seq<Step>, i: nat, j: nat)
    requires IsRun(mode, states, steps) && i <= j < |states| && (states[i].poller.Ended? || states[i].poller.Gone?)
    ensures states[j].poller.Ended? || states[j].poller.Gone?
    decreases j
  {
    if i < j {
      EndedForGood(mode, states, steps, i, j - 1);
      assert states[j] == Next(states[j - 1], steps[j - 1]);
    }
  }

  predicate OfPoller(step: Step) {
    step.Enter? || step.Check? || step.Call? || step.Wake? || step.Complete?
  }

  /** The steps of the unregistering task leave the polling task where it is. */
  lemma {:induction false} PollerStays(mode: Mode, states: seq<State>, steps: seq<Step>, i: nat, j: nat)
    requires IsRun(mode, states, steps) && i <= j < |states| && forall k :: i <= k < j ==> !OfPoller(steps[k])
    ensures states[j].poller == states[i].poller
    decreases j
  {
    if i < j {
      PollerStays(mode, states, steps, i, j - 1);
      assert states[j] == Next(states[j - 1], steps[j - 1]);
    }
  }

  /** What the polling task does after a check: if the flag was not set it calls the polling
      function, whatever happens to the flag meanwhile, and otherwise it completes. */
  lemma CallsUnlessStopped(mode: Mode, states: seq<State>, steps: seq<Step>, i: nat, j: nat)
    requires IsRun(mode, states, steps) && i < j < |steps| && steps[i] == Check && OfPoller(steps[j])
    requires forall k :: i < k < j ==> !OfPoller(steps[k])
    ensures steps[j] == if Count(steps[..i], Stop) == 0 then Call else Complete
  {
    CallsAndChecks(mode, states, steps, i);
    assert states[i + 1] == Next(states[i], steps[i]);
    PollerStays(mode, states, steps, i + 1, j);
    assert Enabled(states[j], steps[j]);
  }

  lemma {:induction false} LateCalls(mode: Mode, states: seq<State>, steps: seq<Step>, i: nat, n: nat)
    requires IsRun(mode, states, steps) && i < n < |states| && steps[i] == Stop
    ensures states[n].mustFinish && states[n].late == states[n].calls - states[i].calls
    decreases n
  {
    if n == i + 1 {
      RunInv(mode, states, steps, i);
      assert states[n] == Next(states[i], steps[i]);
    } else {
      LateCalls(mode, states, steps, i, n - 1);
      assert states[n] == Next(states[n - 1], steps[n - 1]);
    }
  }

  /** In either mode the polling function is called at most once more after the stop flag is
      stored, and the instance is deleted once, as the last access to it and after the
      completion of the polling task. */
  lemma NeverTouchedAfterDeletion(mode: Mode, states: seq<State>, steps: seq<Step>, i: nat, n: nat)
    requires IsRun(mode, states, steps) && i < n <= |steps|
    ensures !states[n].dangling
    ensures steps[i] == Stop ==> Count(steps[i..n], Call) <= 1
    ensures steps[i] == Delete ==> i == |steps| - 1 && Count(steps[..i], Complete) == 1 && Count(steps[..i], Stop) == 1
  {
    RunInv(mode, states, steps, n);
    RunInv(mode, states, steps, i);
    CallsAndChecks(mode, states, steps, i);
    CallsAndChecks(mode, states, steps, n);
    if steps[i] == Stop {
      LateCalls(mode, states, steps, i, n);
      CountBetween(steps, i, n, Call);
    }
    if steps[i] == Delete {
      assert states[i + 1] == Next(states[i], steps[i]);
      NothingAfterReturn(mode, states, steps, i + 1);
    }
  }

  /** Once unregisterPolling has returned, the run makes no step at all for this
      instance, so the polling function is never called again. */
  lemma NothingAfterReturn(mode: Mode, states: seq<State>, steps: seq<Step>, i: nat)
    requires IsRun(mode, states, steps) && i < |states| && states[i].owner.Returned?
    ensures i == |steps|
  {
    RunInv(mode, states, steps, i);
    assert forall step :: !Enabled(states[i], step);
  }

  // --------------------------------------------------- polling as often as one likes

  lemma {:induction false} OneMoreStep(mode: Mode, states: seq<State>, steps: seq<Step>, step: Step) returns (states': seq<State>)
    requires IsRun(mode, states, steps) && Enabled(states[|steps|], step)
    ensures IsRun(mode, states', steps + [step]) && states'[|steps| + 1] == Next(states[|steps|], step)
  {
    states' := states + [Next(states[|steps|], step)];
    forall i | 0 <= i < |steps| + 1
      ensures Enabled(states'[i], (steps + [step])[i]) && states'[i + 1] == Next(states'[i], (steps + [step])[i])
    {
      if i < |steps| {
        assert states'[i] == states[i] && states'[i + 1] == states[i + 1];
      }
    }
  }

  lemma {:induction false} MoreSteps(mode: Mode, states: seq<State>, steps: seq<Step>, more: seq<Step>) returns (states': seq<State>)
    requires IsRun(mode, states, steps) && Possible(states[|steps|], more)
    ensures IsRun(mode, states', steps + more) && states'[|steps + more|] == Reached(states[|steps|], more)
    decreases |more|
  {
    if more == [] {
      assert steps + more == steps;
      states' := states;
    } else {
      states' := OneMoreStep(mode, states, steps, more[0]);
      assert steps + more == steps + [more[0]] + more[1..];
      states' := MoreSteps(mode, states', steps + [more[0]], more[1..]);
    }
  }

  /** These steps can be made one after the other. */
  predicate Possible(s: State, steps: seq<Step>)
    decreases |steps|
  {
    steps == [] || (Enabled(s, steps[0]) && Possible(Next(s, steps[0]), steps[1..]))
  }

  function Reached(s: State, steps: seq<Step>): State
    requires Possible(s, steps)
    decreases |steps|
  {
    if steps == [] then s else Reached(Next(s, steps[0]), steps[1..])
  }

  /** About to check after n rounds of polling. */
  lemma {:induction false} PollsAnyNumber(mode: Mode, n: nat) returns (states: seq<State>, steps: seq<Step>)
    ensures IsRun(mode, states, steps) && Count(steps, Call) == n
    ensures states[|steps|].poller.Checking? && states[|steps|].owner.Registered? && !states[|steps|].finished
  {
    if n == 0 {
      states, steps := [Spawned(mode)], [];
      states := OneMoreStep(mode, states, steps, Enter);
      steps := [Enter];
      assert [] + [Enter] == [Enter] && [Enter][..0] == [];
    } else {
      var before, first := PollsAnyNumber(mode, n - 1);
      RunInv(mode, before, first, |first|);
      CallsAndChecks(mode, before, first, |first|);
      var round := if mode.Loop? then [Check, Call, Wake] else [Check, Call, Wake, Enter];
      RoundIsPossible(before[|first|]);
      states := MoreSteps(mode, before, first, round);
      steps := first + round;
      CallsAndChecks(mode, states, steps, |steps|);
      assert steps[..|steps|] == steps && first[..|first|] == first;
    }
  }

  lemma RoundIsPossible(s: State)
    requires s.poller.Checking? && !s.mustFinish
    ensures var round := if s.mode.Loop? then [Check, Call, Wake] else [Check, Call, Wake, Enter];
            Possible(s, round) && Reached(s, round) == s.(calls := s.calls + 1, dangling := s.dangling || s.deleted)
  {
    var s1 := Next(s, Check);
    var s2 := Next(s1, Call);
    var s3 := Next(s2, Wake);
    if s.mode.Loop? {
      assert [Check, Call, Wake][1..] == [Call, Wake] && [Call, Wake][1..] == [Wake] && [Wake][1..] == [];
    } else {
      assert [Check, Call, Wake, Enter][1..] == [Call, Wake, Enter] && [Call, Wake, Enter][1..] == [Wake, Enter];
      assert [Wake, Enter][1..] == [Enter] && [Enter][1..] == [];
    }
  }

  /** An instance may be polled any number of times and then be unregistered, in either mode. */
  lemma PollsThenReturns(mode: Mode, n: nat) returns (states: seq<State>, steps: seq<Step>)
    ensures IsRun(mode, states, steps) && Count(steps, Call) == n && states[|steps|].owner.Returned?
  {
    var before, first := PollsAnyNumber(mode, n);
    RunInv(mode, before, first, |first|);
    var ending := [Stop, Check, Complete, ReadFinished, Delete];
    EndingIsPossible(before[|first|]);
    states := MoreSteps(mode, before, first, ending);
    steps := first + ending;
    CallsAndChecks(mode, before, first, |first|);
    CallsAndChecks(mode, states, steps, |steps|);
    assert steps[..|steps|] == steps && first[..|first|] == first;
  }

  lemma EndingIsPossible(s: State)
    requires s.poller.Checking? && s.owner.Registered?
    ensures var ending := [Stop, Check, Complete, ReadFinished, Delete];
            && Possible(s, ending) && Reached(s, ending).owner.Returned? && Reached(s, ending).calls == s.calls
  {
    var s1 := Next(s, Stop);
    var s2 := Next(s1, Check);
    var s3 := Next(s2, Complete);
    var s4 := Next(s3, ReadFinished);
    assert [Stop, Check, Complete, ReadFinished, Delete][1..] == [Check, Complete, ReadFinished, Delete];
    assert [Check, Complete, ReadFinished, Delete][1..] == [Complete, ReadFinished, Delete];
    assert [Complete, ReadFinished, Delete][1..] == [ReadFinished, Delete];
    assert [ReadFinished, Delete][1..] == [Delete] && [Delete][1..] == [];
  }

  function Rank(p: Poller): nat {
    match p
    case Gone => 0
    case Ended => 1
    case Checking => 2
    case Submitted => 3
    case Waiting => 4
    case Calling => 5
  }

  /** After the stop flag is stored every step of the polling task brings it closer to its
      completion, and some step is enabled until unregisterPolling returns: the wait in
      unregisterPolling ends. */
  lemma StoppingMakesProgress(s: State)
    requires Inv(s) && s.mustFinish
    ensures forall step :: step in {Enter, Check, Call, Wake, Complete} && Enabled(s, step)
              ==> Rank(Next(s, step).poller) < Rank(s.poller)
    ensures !s.poller.Gone? ==> exists step :: step in {Enter, Check, Call, Wake, Complete} && Enabled(s, step)
    ensures s.poller.Gone? && s.owner.Stopping? ==> Next(s, ReadFinished).owner.Deleting?
  {
    match s.poller {
      case Submitted => assert Enabled(s, Enter);
      case Checking => assert Enabled(s, Check);
      case Calling => assert Enabled(s, Call);
      case Waiting => assert Enabled(s, Wake);
      case Ended => assert Enabled(s, Complete);
      case Gone =>
    }
  }
}
