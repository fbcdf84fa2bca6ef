/**
  Whom a release releases, and that no operation is ever stranded: two consequences of the
  steps of Protocol over all its runs.
 */
module Release {
  import opened Protocol

  // ------------------------------------------------------------------- the right task

  /** The operation carries the task that made it. */
  ghost predicate Owned(owners: seq<nat>, o: Op) {
    o.id < |owners| && owners[o.id] == o.ctx.task
  }

  ghost predicate AllIn(owners: seq<nat>, q: seq<Op>) {
    forall i :: 0 <= i < |q| ==> Owned(owners, q[i])
  }

  ghost predicate AllOwned(s: State) {
    && AllIn(s.owners, s.p2p) && AllIn(s.owners, s.batch) && AllIn(s.owners, s.inMpi) && AllIn(s.owners, s.done)
    && AllIn(s.owners, s.completions)
    && (forall i :: 0 <= i < |s.coll| ==> Owned(s.owners, s.coll[i].op))
    && (forall t :: 0 <= t < |s.tasks| && Holding(s.tasks[t].pc) ==> Owned(s.owners, s.tasks[t].pc.op))
  }

  lemma {:induction false} UserStepOwned(s: State, s': State, step: Step)
    requires AllOwned(s) && Next(s, s', step) && IsUserStep(step)
    ensures AllOwned(s')
  {
    assert s.owners <= s'.owners;
    assert AllIn(s'.owners, s.p2p);
  }

  lemma {:induction false} MoveOwned(s: State, s': State, step: Step)
    requires AllOwned(s) && Next(s, s', step) && IsMove(step)
    ensures AllOwned(s')
  {
    assert s'.owners == s.owners && s'.tasks == s.tasks;
  }

  lemma {:induction false} ReleaseOwned(s: State, s': State, step: Step)
    requires AllOwned(s) && Next(s, s', step) && (step.Consume? || step == Signal(false))
    ensures AllOwned(s')
  {
    assert s'.owners == s.owners;
    assert forall t :: 0 <= t < |s.tasks| ==> s'.tasks[t].pc == s.tasks[t].pc;
  }

  lemma {:induction false} RunOwned(states: seq<State>, steps: seq<Step>, i: nat)
    requires IsRun(states, steps) && i < |states|
    ensures AllOwned(states[i])
  {
    if i > 0 {
      RunOwned(states, steps, i - 1);
      var s, step := RunStep(states, steps, i, states[i - 1]);
      if IsMove(step) {
        MoveOwned(states[i - 1], s, step);
      } else if step.Consume? || step == Signal(false) {
        ReleaseOwned(states[i - 1], s, step);
      } else {
        UserStepOwned(states[i - 1], s, step);
      }
    }
  }

  /** The release of an operation: one unblock or one event less for this task alone. */
  ghost predicate ReleasedFor(s: State, s': State, id: nat, t: nat) {
    && t < |s.tasks| == |s'.tasks| && s'.released == s.released + [id]
    && (s'.tasks[t] == s.tasks[t].(unblocks := s.tasks[t].unblocks + 1) || s'.tasks[t] == s.tasks[t].(events := s.tasks[t].events - 1))
    && forall u :: 0 <= u < |s.tasks| && u != t ==> s'.tasks[u] == s.tasks[u]
  }

  /** In every interleaving a release goes to the task that made the operation, and to no
      other; only the polling and the completion task release anything. */
  lemma {:induction false} ReleasesItsOwner(states: seq<State>, steps: seq<Step>, i: nat)
    requires IsRun(states, steps) && i < |steps|
    ensures if steps[i].Consume? || steps[i] == Signal(false)
            then exists id :: 0 <= id < |states[i].owners| && ReleasedFor(states[i], states[i + 1], id, states[i].owners[id])
            else states[i + 1].released == states[i].released
  {
    RunOwned(states, steps, i);
    var s := states[i];
    var s', step := RunStep(states, steps, i + 1, s);
    if step.Consume? {
      assert ReleasedFor(s, s', s.completions[0].id, s.owners[s.completions[0].id]);
    } else if step == Signal(false) {
      assert ReleasedFor(s, s', s.done[0].id, s.owners[s.done[0].id]);
    }
  }

  // ------------------------------------------------------------- nothing is stranded

  predicate IsUserStep(step: Step) {
    step.Bind? || step.Alloc? || step.Push? || step.Block? || step.Resume?
  }

  /** No user task takes part in these steps. */
  ghost predicate WithoutUsers(steps: seq<Step>) {
    forall k :: 0 <= k < |steps| ==> !IsUserStep(steps[k])
  }

  /** The user tasks are where they were; they may have been unblocked. */
  ghost predicate SamePlaces(s: State, s': State) {
    && |s'.tasks| == |s.tasks|
    && forall t :: 0 <= t < |s.tasks| ==>
         && s'.tasks[t].pc == s.tasks[t].pc && s'.tasks[t].blocks == s.tasks[t].blocks
         && s'.tasks[t].unblocks >= s.tasks[t].unblocks
  }

  /** These steps release the operation, and unblock its task if it is a blocking one. */
  ghost predicate Frees(s: State, steps: seq<Step>, s': State, o: Op) {
    && Leads(s, steps, s') && WithoutUsers(steps) && SamePlaces(s, s') && o.id in s'.released
    && o.ctx.task < |s.tasks| && (o.ctx.blocking ==> s'.tasks[o.ctx.task].unblocks > s.tasks[o.ctx.task].unblocks)
  }

  lemma {:induction false} First(s: State, step: Step, mid: State, rest: seq<Step>, s': State, o: Op) returns (steps: seq<Step>)
    requires Leads(s, [step], mid) && SamePlaces(s, mid) && !IsUserStep(step) && Frees(mid, rest, s', o)
    ensures Frees(s, steps, s', o)
  {
    steps := [step] + rest;
    LeadsAll(s, [step], mid, rest, s');
  }

  lemma {:induction false} JustOne(s: State, step: Step, s': State, o: Op)
    requires Leads(s, [step], s') && !IsUserStep(step) && Unblocks(s, s', o)
    ensures Frees(s, [step], s', o)
  {
  }

  ghost predicate Unblocks(s: State, s': State, o: Op) {
    && SamePlaces(s, s') && o.id in s'.released
    && o.ctx.task < |s.tasks| && (o.ctx.blocking ==> s'.tasks[o.ctx.task].unblocks > s.tasks[o.ctx.task].unblocks)
  }

  lemma {:induction false} ReleaseUnblocks(s: State, s': State, o: Op)
    requires o.ctx.task < |s.tasks| && s'.tasks == Released(s, o).tasks && s'.released == Released(s, o).released
    ensures Unblocks(s, s', o)
  {
  }

  /** The tasks of these operations exist. */
  ghost predicate AllKnown(q: seq<Op>, tasks: nat) {
    forall i :: 0 <= i < |q| ==> q[i].ctx.task < tasks
  }

  ghost predicate Known(s: State) {
    && AllKnown(s.p2p, |s.tasks|) && AllKnown(s.batch, |s.tasks|) && AllKnown(s.inMpi, |s.tasks|) && AllKnown(s.done, |s.tasks|)
    && AllKnown(s.completions, |s.tasks|) && forall i :: 0 <= i < |s.coll| ==> s.coll[i].op.ctx.task < |s.tasks|
  }

  lemma {:induction false} StoredIsKnown(s: State, q: seq<Op>)
    requires Accounted(s) && forall c :: Tally(q, OfCtx(c)) <= StoredOf(s, c)
    ensures AllKnown(q, |s.tasks|)
  {
    forall i | 0 <= i < |q| ensures q[i].ctx.task < |s.tasks| {
      TallyHas(q, i, OfCtx(q[i].ctx));
      assert StoredOf(s, q[i].ctx) > 0;
    }
  }

  lemma {:induction false} InvKnown(s: State)
    requires Accounted(s)
    ensures Known(s)
  {
    StoredIsKnown(s, s.p2p);
    StoredIsKnown(s, s.batch);
    StoredIsKnown(s, s.inMpi);
    StoredIsKnown(s, s.done);
    StoredIsKnown(s, s.completions);
    StoredIsKnown(s, OpsOf(s.coll));
    forall i | 0 <= i < |s.coll| ensures s.coll[i].op.ctx.task < |s.tasks| {
      OpsOfAt(s.coll, i);
      assert OpsOf(s.coll)[i].ctx.task < |s.tasks|;
    }
  }

  lemma {:induction false} ConsumeOne(s: State) returns (mid: State)
    requires Known(s) && s.completions != []
    ensures Leads(s, [Consume], mid) && Known(mid) && mid.completions == s.completions[1..] && Unblocks(s, mid, s.completions[0])
  {
    mid := Released(s.(completions := s.completions[1..]), s.completions[0]);
    ReleaseUnblocks(s, mid, s.completions[0]);
    OneStep(s, Consume, mid);
  }

  lemma {:induction false} FromCompletions(s: State, k: nat, o: Op) returns (steps: seq<Step>, s': State)
    requires Known(s) && k < |s.completions| && s.completions[k] == o
    ensures Frees(s, steps, s', o)
    decreases k
  {
    var mid := ConsumeOne(s);
    if k == 0 {
      JustOne(s, Consume, mid, o);
      steps, s' := [Consume], mid;
    } else {
      steps, s' := FromCompletions(mid, k - 1, o);
      steps := First(s, Consume, mid, steps, s', o);
    }
  }

  lemma {:induction false} SignalOne(s: State) returns (mid: State)
    requires Known(s) && s.done != []
    ensures Leads(s, [Signal(false)], mid) && Known(mid) && mid.done == s.done[1..] && Unblocks(s, mid, s.done[0])
  {
    mid := Released(s.(done := s.done[1..]), s.done[0]);
    ReleaseUnblocks(s, mid, s.done[0]);
    OneStep(s, Signal(false), mid);
  }

  lemma {:induction false} FromDone(s: State, k: nat, o: Op) returns (steps: seq<Step>, s': State)
    requires Known(s) && k < |s.done| && s.done[k] == o
    ensures Frees(s, steps, s', o)
    decreases k
  {
    var mid := SignalOne(s);
    if k == 0 {
      JustOne(s, Signal(false), mid, o);
      steps, s' := [Signal(false)], mid;
    } else {
      steps, s' := FromDone(mid, k - 1, o);
      steps := First(s, Signal(false), mid, steps, s', o);
    }
  }

  lemma {:induction false} FromMpi(s: State, i: nat) returns (steps: seq<Step>, s': State)
    requires Known(s) && i < |s.inMpi|
    ensures Frees(s, steps, s', s.inMpi[i])
  {
    var mid := s.(inMpi := Without(s.inMpi, i), done := s.done + [s.inMpi[i]]);
    OneStep(s, Complete(i), mid);
    steps, s' := FromDone(mid, |s.done|, s.inMpi[i]);
    steps := First(s, Complete(i), mid, steps, s', s.inMpi[i]);
  }

  lemma {:induction false} FromBatch(s: State, k: nat, o: Op) returns (steps: seq<Step>, s': State)
    requires Known(s) && k < |s.batch| && s.batch[k] == o
    ensures Frees(s, steps, s', o)
    decreases k
  {
    var mid := s.(batch := s.batch[1..], inMpi := s.inMpi + [s.batch[0]], issued := s.issued + [s.batch[0].id]);
    OneStep(s, Issue, mid);
    if k == 0 {
      steps, s' := FromMpi(mid, |s.inMpi|);
    } else {
      steps, s' := FromBatch(mid, k - 1, o);
    }
    steps := First(s, Issue, mid, steps, s', o);
  }

  lemma {:induction false} FromP2P(s: State, i: nat) returns (steps: seq<Step>, s': State)
    requires Known(s) && i < |s.p2p|
    ensures Frees(s, steps, s', s.p2p[i])
  {
    var mid := s.(p2p := Without(s.p2p, i), batch := s.batch + [s.p2p[i]]);
    OneStep(s, PopP2P(i), mid);
    steps, s' := FromBatch(mid, |s.batch|, s.p2p[i]);
    steps := First(s, PopP2P(i), mid, steps, s', s.p2p[i]);
  }

  lemma {:induction false} FromColl(s: State, i: nat) returns (steps: seq<Step>, s': State)
    requires Known(s) && i < |s.coll|
    ensures Frees(s, steps, s', s.coll[i].op)
  {
    var mid := s.(coll := Without(s.coll, i), batch := s.batch + [s.coll[i].op], objects := s.objects[s.coll[i].obj := Popped]);
    OneStep(s, PopColl(i), mid);
    steps, s' := FromBatch(mid, |s.batch|, s.coll[i].op);
    steps := First(s, PopColl(i), mid, steps, s', s.coll[i].op);
  }

  lemma {:induction false} SomewhereIn(q: seq<Op>, f: Op -> bool) returns (i: nat)
    requires Tally(q, f) > 0
    ensures i < |q| && f(q[i])
  {
    var n := |q| - 1;
    if f(q[n]) {
      i := n;
    } else {
      i := SomewhereIn(q[..n], f);
    }
  }

  lemma {:induction false} OpsOfAt(q: seq<CollOp>, i: nat)
    requires i < |OpsOf(q)| || i < |q|
    ensures |OpsOf(q)| == |q| && OpsOf(q)[i] == q[i].op
  {
    var n := |q| - 1;
    if n > 0 {
      OpsOfAt(q[..n], if i < n then i else 0);
    }
  }

  /** Some operation on its way with this property can be released. */
  lemma {:induction false} CanBeReleased(s: State, f: Op -> bool) returns (steps: seq<Step>, s': State, o: Op)
    requires Known(s) && Stored(s, f) > 0
    ensures f(o) && Frees(s, steps, s', o)
  {
    if Tally(s.completions, f) > 0 {
      var k := SomewhereIn(s.completions, f);
      o := s.completions[k];
      steps, s' := FromCompletions(s, k, o);
    } else if Tally(s.done, f) > 0 {
      var k := SomewhereIn(s.done, f);
      o := s.done[k];
      steps, s' := FromDone(s, k, o);
    } else if Tally(s.inMpi, f) > 0 {
      var k := SomewhereIn(s.inMpi, f);
      o := s.inMpi[k];
      steps, s' := FromMpi(s, k);
    } else if Tally(s.batch, f) > 0 {
      var k := SomewhereIn(s.batch, f);
      o := s.batch[k];
      steps, s' := FromBatch(s, k, o);
    } else {
      steps, s', o := FromQueues(s, f);
    }
  }

  lemma {:induction false} FromQueues(s: State, f: Op -> bool) returns (steps: seq<Step>, s': State, o: Op)
    requires Known(s) && Tally(s.p2p, f) + Tally(OpsOf(s.coll), f) > 0
    ensures f(o) && Frees(s, steps, s', o)
  {
    if Tally(s.p2p, f) > 0 {
      var k := SomewhereIn(s.p2p, f);
      o := s.p2p[k];
      steps, s' := FromP2P(s, k);
    } else {
      var k := SomewhereIn(OpsOf(s.coll), f);
      OpsOfAt(s.coll, k);
      o := s.coll[k].op;
      steps, s' := FromColl(s, k);
    }
  }

  /** In every state of every run an operation that was pushed and not released can still be
      released without any step of a user task: by the completion task if it has it, and
      otherwise by the polling task, once MPI completes it. */
  lemma {:induction false} NeverStranded(states: seq<State>, steps: seq<Step>, i: nat, id: nat) returns (more: seq<Step>, s': State)
    requires IsRun(states, steps) && i < |states| && Stored(states[i], OfId(id)) > 0
    ensures Leads(states[i], more, s') && WithoutUsers(more) && id in s'.released
  {
    RunInv(states, steps, i);
    InvKnown(states[i]);
    var o;
    more, s', o := CanBeReleased(states[i], OfId(id));
  }

  ghost predicate CanMake(s: State, step: Step) {
    exists s' :: Next(s, s', step)
  }

  /** In every state of every run a blocked task can come to resume without any step of a user
      task: what it waits for is on its way. */
  lemma {:induction false} BlockedCanResume(states: seq<State>, steps: seq<Step>, i: nat, t: nat) returns (more: seq<Step>, s': State)
    requires IsRun(states, steps) && i < |states| && t < |states[i].tasks| && states[i].tasks[t].pc.Blocked?
    ensures Leads(states[i], more, s') && WithoutUsers(more) && CanMake(s', Resume(t))
  {
    RunInv(states, steps, i);
    var s := states[i];
    InvKnown(s);
    more, s' := [], s;
    if s.tasks[t].unblocks < s.tasks[t].blocks {
      assert TaskOk(s.tasks[t], InFlight(s, Ctx(t, false)), InFlight(s, Ctx(t, true)));
      var o;
      more, s', o := CanBeReleased(s, OfCtx(Ctx(t, true)));
    }
    assert Next(s', At(s', t, Running), Resume(t));
  }

  lemma {:induction false} FreeObject(objects: set<nat>, n: nat) returns (obj: nat)
    requires |objects| < n
    ensures obj < n && obj !in objects
  {
    if n - 1 !in objects {
      obj := n - 1;
    } else {
      obj := FreeObject(objects - {n - 1}, n - 1);
    }
  }

  /** In every state of every run a user task that is not blocked can go on, unless it needs a
      collective object and all of them are in use: it may start an operation of any kind, or
      do the next step of the one it has started. */
  lemma {:induction false} UsersCanGoOn(states: seq<State>, steps: seq<Step>, i: nat, t: nat, blocking: bool, coll: bool)
    returns (step: Step)
    requires IsRun(states, steps) && i < |states| && t < |states[i].tasks| && !states[i].tasks[t].pc.Blocked?
    requires states[i].tasks[t].pc.Bound? && states[i].tasks[t].pc.coll ==> |states[i].objects| < COLL_OBJECTS
    ensures CanMake(states[i], step)
    ensures match states[i].tasks[t].pc
            case Running => step == Bind(t, blocking, coll)
            case Bound(_, _) => step.Alloc? && step.t == t
            case Allocated(_, _, _) => step == Push(t)
            case WillBlock => step == Block(t)
            case Blocked => true
  {
    var s := states[i];
    var task := s.tasks[t];
    match task.pc {
      case Running =>
        step := Bind(t, blocking, coll);
        var task' := task.(pc := Bound(Op(|s.owners|, Ctx(t, blocking)), coll), events := task.events + if blocking then 0 else 1);
        assert Next(s, s.(tasks := s.tasks[t := task'], owners := s.owners + [t]), step);
      case Bound(op, c) =>
        var obj := 0;
        if c {
          obj := FreeObject(s.objects.Keys, COLL_OBJECTS);
        }
        step := Alloc(t, obj);
        var s' := At(s, t, Allocated(op, c, obj));
        assert Next(s, s'.(objects := if c then s.objects[obj := AtTask(t)] else s.objects), step);
      case Allocated(op, c, obj) =>
        step := Push(t);
        var s' := At(s, t, if op.ctx.blocking then WillBlock else Running);
        assert Next(s, if c then s'.(coll := s.coll + [CollOp(op, obj)], objects := s.objects[obj := Queued])
                       else s'.(p2p := s.p2p + [op]), step);
      case WillBlock =>
        step := Block(t);
        assert Next(s, s.(tasks := s.tasks[t := task.(pc := Blocked, blocks := task.blocks + 1)]), step);
      case Blocked =>
        step := Resume(t);
    }
  }
}
