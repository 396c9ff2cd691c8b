/** Response handles under every interleaving of the threads that submit requests,
    the worker that serves them and shuts down, and the tasks that poll. Each step
    is one access to shared memory, or one waker called. */
module Handles {
  import opened Gvsp

  datatype Result = Answer(value: int) | Disconnected | ControlLost

  /** A thread in the middle of fulfilling a handle: it records the outcome if
      none is recorded, takes the registered wakers, and calls them one by one. */
  datatype Fulfilling = Recording(handle: nat, result: Result) | Waking(handle: nat) | Calling(handle: nat, left: seq<nat>)

  /** A thread in `submit`: it checks that the worker is alive, sends, checks
      again, and fails its own handle if the worker is gone. */
  datatype Sender = Checking | Sending | Rechecking | Failing(f: Fulfilling) | Returned

  /** The worker's phases: serving, failing what it holds, reporting its death,
      draining the channel, gone. */
  datatype Phase = Serving | Closing | Dying | Draining | Ended

  datatype Look = Resting | Registering | Confirming
  datatype Seen = Nothing | Pending | Ready(result: Result)

  /** A task polling one handle: where it stands in `poll`, what its last poll
      returned, and whether its waker was called since it last registered. */
  datatype Task = Task(target: nat, look: Look, last: Seen, woken: bool)

  /** `cells` and `wakers` are the shared parts of the handles, one per sender. */
  datatype State = State(
    alive: bool, connected: bool, channel: seq<nat>, cells: seq<Option<Result>>, wakers: seq<seq<nat>>,
    senders: seq<Sender>, phase: Phase, accepted: seq<nat>, job: Option<Fulfilling>, tasks: seq<Task>)

  function Start(n: nat, targets: seq<nat>): State {
    State(true, true, [], seq(n, _ => None), seq(n, _ => []), seq(n, _ => Checking), Serving, [], None,
          seq(|targets|, i requires 0 <= i < |targets| => Task(targets[i], Resting, Nothing, false)))
  }

  // ------------------------------------------------------------------- steps

  function Recorded(s: State, handle: nat, result: Result): State {
    if handle < |s.cells| && s.cells[handle].None? then s.(cells := s.cells[handle := Some(result)]) else s
  }

  function Taken(s: State, handle: nat): State {
    if handle < |s.wakers| then s.(wakers := s.wakers[handle := []]) else s
  }

  function Registered(s: State, handle: nat): seq<nat> { if handle < |s.wakers| then s.wakers[handle] else [] }

  function Called(s: State, task: nat): State {
    if task < |s.tasks| then s.(tasks := s.tasks[task := s.tasks[task].(woken := true)]) else s
  }

  /** One step of a fulfilment, and what is left of it. */
  function Fulfil(s: State, f: Fulfilling): (State, Option<Fulfilling>) {
    match f
    case Recording(h, r) => (Recorded(s, h, r), Some(Waking(h)))
    case Waking(h) => (Taken(s, h), Some(Calling(h, Registered(s, h))))
    case Calling(h, left) => if left == [] then (s, None) else (Called(s, left[0]), Some(Calling(h, left[1..])))
  }

  function SenderStep(s: State, i: nat): State
    requires i < |s.senders|
  {
    match s.senders[i]
    case Checking =>
      s.(senders := s.senders[i := if s.alive then Sending else Failing(Recording(i, Disconnected))])
    case Sending =>
      if s.connected then s.(channel := s.channel + [i], senders := s.senders[i := Rechecking])
      else s.(senders := s.senders[i := Failing(Recording(i, Disconnected))])
    case Rechecking =>
      s.(senders := s.senders[i := if s.alive then Returned else Failing(Recording(i, Disconnected))])
    case Failing(f) =>
      var (t, rest) := Fulfil(s, f);
      t.(senders := s.senders[i := if rest.Some? then Failing(rest.value) else Returned])
    case Returned => s
  }

  /** What the worker does next, where it has a choice: receive, resolve one of
      the requests it holds, or stop. */
  datatype Choice = Receive | Resolve(index: nat, result: Result) | Stop

  function RemoveAt(xs: seq<nat>, i: nat): seq<nat>
    requires i < |xs|
  {
    xs[..i] + xs[i + 1..]
  }

  function WorkerStep(s: State, choice: Choice, gone: Result): State {
    if s.job.Some? then
      var (t, rest) := Fulfil(s, s.job.value);
      t.(job := rest)
    else
      match s.phase
      case Serving =>
        (match choice
         case Receive => if s.channel == [] then s else s.(channel := s.channel[1..], accepted := s.accepted + [s.channel[0]])
         case Resolve(i, result) =>
           if i >= |s.accepted| then s
           else s.(accepted := RemoveAt(s.accepted, i), job := Some(Recording(s.accepted[i], result)))
         case Stop => s.(phase := Closing))
      case Closing =>
        if s.accepted == [] then s.(phase := Dying)
        else s.(accepted := s.accepted[1..], job := Some(Recording(s.accepted[0], gone)))
      case Dying => s.(alive := false, phase := Draining)
      case Draining =>
        if s.channel == [] then s.(phase := Ended)
        else s.(channel := s.channel[1..], job := Some(Recording(s.channel[0], gone)))
      case Ended => s.(connected := false)
  }

  function TaskStep(s: State, i: nat): State
    requires i < |s.tasks|
  {
    var t := s.tasks[i];
    if t.target >= |s.cells| || t.target >= |s.wakers| then s
    else
      match t.look
      case Resting =>
        s.(tasks := s.tasks[i := if s.cells[t.target].Some? then t.(last := Ready(s.cells[t.target].value)) else t.(look := Registering)])
      case Registering =>
        s.(wakers := s.wakers[t.target := if i in s.wakers[t.target] then s.wakers[t.target] else s.wakers[t.target] + [i]],
           tasks := s.tasks[i := t.(look := Confirming, woken := false)])
      case Confirming =>
        s.(tasks := s.tasks[i := t.(look := Resting,
             last := if s.cells[t.target].Some? then Ready(s.cells[t.target].value) else Pending)])
  }

  datatype Move = Submits(i: nat) | Works(choice: Choice, gone: Result) | Polls(i: nat)

  function Step(s: State, m: Move): State {
    match m
    case Submits(i) => if i < |s.senders| then SenderStep(s, i) else s
    case Works(choice, gone) => WorkerStep(s, choice, gone)
    case Polls(i) => if i < |s.tasks| then TaskStep(s, i) else s
  }

  function Run(s: State, ms: seq<Move>): State
    decreases |ms|
  {
    if ms == [] then s else Step(Run(s, ms[..|ms| - 1]), ms[|ms| - 1])
  }

  // ----------------------------------------------------------- the invariant

  predicate WorksOn(f: Option<Fulfilling>, h: nat) { f.Some? && f.value.handle == h }

  /** Someone is about to wake the tasks of this handle. */
  predicate WakesSoon(s: State, h: nat) {
    s.job == Some(Waking(h)) || (h < |s.senders| && s.senders[h] == Failing(Waking(h)))
  }

  /** Someone has taken this task's waker for the handle and is about to call it. */
  predicate CallsSoon(s: State, h: nat, i: nat) {
    || (s.job.Some? && s.job.value.Calling? && s.job.value.handle == h && i in s.job.value.left)
    || (h < |s.senders| && s.senders[h].Failing? && s.senders[h].f.Calling? && s.senders[h].f.handle == h && i in s.senders[h].f.left)
  }

  /** The request of this sender is not forgotten: recorded, about to be recorded,
      held by the worker, or in a channel that will still be drained or that its
      sender will find dead. */
  predicate Remembered(s: State, h: nat)
    requires h < |s.senders| && h < |s.cells|
  {
    || s.cells[h].Some? || WorksOn(s.job, h) || h in s.accepted
    || s.senders[h].Checking? || s.senders[h].Sending? || s.senders[h].Failing?
    || (h in s.channel && (s.phase != Ended || s.senders[h].Rechecking?))
    || (s.senders[h].Rechecking? && !s.alive)
  }

  ghost predicate Shaped(s: State) {
    && |s.cells| == |s.wakers| == |s.senders|
    && (s.alive <==> s.phase in {Serving, Closing, Dying})
    && (s.phase in {Dying, Draining, Ended} ==> s.accepted == [])
    && (s.phase == Ended ==> s.job.None?)
    && (forall i | 0 <= i < |s.senders| && s.senders[i].Failing? :: s.senders[i].f.handle == i)
  }

  predicate Announces(f: Fulfilling, h: nat) { !f.Recording? && f.handle == h }

  /** Recorded before anyone is woken. */
  ghost predicate RecordedFirst(s: State) {
    forall h | 0 <= h < |s.cells| &&
               ((s.job.Some? && Announces(s.job.value, h))
                || (h < |s.senders| && s.senders[h].Failing? && Announces(s.senders[h].f, h))) :: s.cells[h].Some?
  }

  /** A task that was told to wait will be woken, or was. */
  ghost predicate TaskSafe(s: State, i: nat)
    requires i < |s.tasks| && |s.cells| == |s.wakers|
  {
    var t := s.tasks[i];
    t.target < |s.cells| ==>
      && (t.look.Confirming? && !t.woken ==> i in s.wakers[t.target] || CallsSoon(s, t.target, i))
      && (!t.look.Confirming? && t.last.Pending? && !t.woken ==>
            || (i in s.wakers[t.target] && (s.cells[t.target].None? || WakesSoon(s, t.target)))
            || CallsSoon(s, t.target, i))
      && (t.last.Ready? ==> s.cells[t.target] == Some(t.last.result))
  }

  ghost predicate Inv(s: State) {
    && Shaped(s) && RecordedFirst(s)
    && (forall h | 0 <= h < |s.senders| :: Remembered(s, h))
    && (forall i | 0 <= i < |s.tasks| :: TaskSafe(s, i))
  }

  ghost predicate Sheltered(s: State) { |s.cells| == |s.wakers| && forall i | 0 <= i < |s.tasks| :: TaskSafe(s, i) }

  /** Everyone about to wake someone still is, but for the handles excepted. */
  ghost predicate StillWakes(s: State, t: State, except: set<nat>) {
    forall h | WakesSoon(s, h) && h !in except :: WakesSoon(t, h)
  }

  /** Everyone about to be called still is, but for the tasks excepted. */
  ghost predicate StillCalls(s: State, t: State, except: set<nat>) {
    forall h, i | CallsSoon(s, h, i) && i !in except :: CallsSoon(t, h, i)
  }

  lemma ShelteredSame(s: State, t: State)
    requires Sheltered(s) && t.tasks == s.tasks && t.wakers == s.wakers && t.cells == s.cells
    requires StillWakes(s, t, {}) && StillCalls(s, t, {})
    ensures Sheltered(t)
  {
    hide WakesSoon, CallsSoon;
    forall i | 0 <= i < |t.tasks| ensures TaskSafe(t, i) { assert TaskSafe(s, i); }
  }

  /** Recording shelters the waiting tasks, since the same thread wakes them next. */
  lemma ShelteredRecorded(s: State, t: State, h: nat, r: Result)
    requires Sheltered(s) && t.tasks == s.tasks && t.wakers == s.wakers && t.cells == Recorded(s, h, r).cells
    requires StillWakes(s, t, {}) && StillCalls(s, t, {}) && WakesSoon(t, h)
    ensures Sheltered(t)
  {
    hide WakesSoon, CallsSoon;
    forall i | 0 <= i < |t.tasks| ensures TaskSafe(t, i) { assert TaskSafe(s, i); }
  }

  /** Taking the wakers shelters their tasks, since the same thread calls them next. */
  lemma ShelteredTaken(s: State, t: State, h: nat)
    requires Sheltered(s) && StillWakes(s, t, {h}) && StillCalls(s, t, {}) && forall i | i in Registered(s, h) :: CallsSoon(t, h, i)
    requires t.tasks == s.tasks && t.wakers == Taken(s, h).wakers && t.cells == s.cells
    ensures Sheltered(t)
  {
    hide WakesSoon, CallsSoon;
    forall i | 0 <= i < |t.tasks| ensures TaskSafe(t, i) { assert TaskSafe(s, i); }
  }

  lemma ShelteredCalled(s: State, t: State, task: nat)
    requires Sheltered(s) && StillWakes(s, t, {}) && StillCalls(s, t, {task})
    requires t.tasks == Called(s, task).tasks && t.wakers == s.wakers && t.cells == s.cells
    ensures Sheltered(t)
  {
    hide WakesSoon, CallsSoon;
    forall i | 0 <= i < |t.tasks| ensures TaskSafe(t, i) { assert TaskSafe(s, i); }
  }

  lemma HeadOrRest(left: seq<nat>, i: nat)
    requires left != [] && i in left
    ensures i == left[0] || i in left[1..]
  {
  }

  /** One step of a fulfilment, in whichever thread, shelters the tasks. */
  lemma FulfilShelters(s: State, t: State, f: Fulfilling, before: Option<Fulfilling>)
    requires Sheltered(s) && before == Some(f)
    requires var (u, rest) := Fulfil(s, f);
             && t.tasks == u.tasks && t.wakers == u.wakers && t.cells == u.cells
             && ((s.job == before && t == u.(job := rest))
                 || (f.handle < |s.senders| && s.senders[f.handle] == Failing(f) && s.job == t.job
                     && t == u.(senders := s.senders[f.handle := if rest.Some? then Failing(rest.value) else Returned])))
    ensures Sheltered(t)
  {
    hide TaskSafe, Recorded, Taken, Called, Sheltered;
    KeepsRest(s, f);
    match f
    case Recording(h, r) => ShelteredRecorded(s, t, h, r);
    case Waking(h) => ShelteredTaken(s, t, h);
    case Calling(h, left) =>
      if left == [] {
        ShelteredSame(s, t);
      } else {
        forall i | i in left && i != left[0] ensures i in left[1..] { HeadOrRest(left, i); }
        ShelteredCalled(s, t, left[0]);
      }
  }

  lemma KeepsRest(s: State, f: Fulfilling)
    ensures var u := Fulfil(s, f).0; u.job == s.job && u.senders == s.senders
    ensures f.Recording? ==> Fulfil(s, f).0.tasks == s.tasks && Fulfil(s, f).0.wakers == s.wakers
    ensures f.Waking? ==> Fulfil(s, f).0.tasks == s.tasks && Fulfil(s, f).0.cells == s.cells
    ensures f.Calling? ==> Fulfil(s, f).0.wakers == s.wakers && Fulfil(s, f).0.cells == s.cells
  {
  }

  lemma SenderShelters(s: State, i: nat)
    requires Inv(s) && i < |s.senders|
    ensures Sheltered(SenderStep(s, i))
  {
    hide TaskSafe, Remembered;
    var t := SenderStep(s, i);
    match s.senders[i]
    case Failing(f) => FulfilShelters(s, t, f, Some(f));
    case _ => ShelteredSame(s, t);
  }

  lemma SenderRemembers(s: State, i: nat)
    requires Inv(s) && i < |s.senders|
    ensures var t := SenderStep(s, i); Shaped(t) && RecordedFirst(t) && forall h | 0 <= h < |t.senders| :: Remembered(t, h)
  {
    hide Inv, SenderStep, Shaped, RecordedFirst, Remembered;
    if s.senders[i].Failing? { FailingRemembers(s, i); } else { SubmitRemembers(s, i); }
  }

  lemma SubmitRemembers(s: State, i: nat)
    requires Inv(s) && i < |s.senders| && !s.senders[i].Failing?
    ensures var t := SenderStep(s, i); Shaped(t) && RecordedFirst(t) && forall h | 0 <= h < |t.senders| :: Remembered(t, h)
  {
    hide TaskSafe, Fulfil;
    var t := SenderStep(s, i);
    assert t.cells == s.cells && t.job == s.job && t.phase == s.phase && t.alive == s.alive && t.accepted == s.accepted;
    forall h | 0 <= h < |t.senders| ensures Remembered(t, h) {
      assert Remembered(s, h);
      if h != i { assert t.senders[h] == s.senders[h]; }
    }
  }

  /** A fulfilment records before it announces, and changes no other cell. */
  lemma FulfilRecords(s: State, f: Fulfilling)
    requires |s.cells| == |s.wakers| && f.handle < |s.cells| && (Announces(f, f.handle) ==> s.cells[f.handle].Some?)
    ensures var (u, rest) := Fulfil(s, f);
            && |u.cells| == |s.cells| == |u.wakers| && (forall h | 0 <= h < |s.cells| && s.cells[h].Some? :: u.cells[h] == s.cells[h])
            && u.cells[f.handle].Some? && (rest.Some? ==> rest.value.handle == f.handle)
            && u == s.(cells := u.cells, wakers := u.wakers, tasks := u.tasks)
  {
  }

  lemma FailingRemembers(s: State, i: nat)
    requires Inv(s) && i < |s.senders| && s.senders[i].Failing?
    ensures var t := SenderStep(s, i); Shaped(t) && RecordedFirst(t) && forall h | 0 <= h < |t.senders| :: Remembered(t, h)
  {
    hide TaskSafe, Fulfil;
    var t := SenderStep(s, i);
    FulfilRecords(s, s.senders[i].f);
    forall h | 0 <= h < |t.senders| ensures Remembered(t, h) {
      assert Remembered(s, h);
      if h != i { assert t.senders[h] == s.senders[h]; }
    }
  }

  lemma WorkerShelters(s: State, choice: Choice, gone: Result)
    requires Inv(s)
    ensures Sheltered(WorkerStep(s, choice, gone))
  {
    hide TaskSafe, Remembered;
    var t := WorkerStep(s, choice, gone);
    if s.job.Some? {
      FulfilShelters(s, t, s.job.value, s.job);
    } else {
      ShelteredSame(s, t);
    }
  }

  lemma FulfilNothing(s: State, f: Fulfilling)
    requires |s.cells| == |s.wakers| && f.handle >= |s.cells|
    ensures var (u, rest) := Fulfil(s, f); u == s.(tasks := u.tasks) && (rest.Some? ==> rest.value.handle == f.handle)
  {
  }

  lemma JobRemembers(s: State, choice: Choice, gone: Result)
    requires Inv(s) && s.job.Some?
    ensures var t := WorkerStep(s, choice, gone);
            Shaped(t) && RecordedFirst(t) && forall h | 0 <= h < |t.senders| :: Remembered(t, h)
  {
    hide TaskSafe, Fulfil;
    var t := WorkerStep(s, choice, gone);
    if s.job.value.handle < |s.cells| { FulfilRecords(s, s.job.value); } else { FulfilNothing(s, s.job.value); }
    forall h | 0 <= h < |t.senders| ensures Remembered(t, h) { assert Remembered(s, h); }
  }

  lemma PhaseRemembers(s: State, choice: Choice, gone: Result)
    requires Inv(s) && s.job.None?
    ensures var t := WorkerStep(s, choice, gone);
            Shaped(t) && RecordedFirst(t) && forall h | 0 <= h < |t.senders| :: Remembered(t, h)
  {
    hide TaskSafe;
    var t := WorkerStep(s, choice, gone);
    assert t.cells == s.cells && t.senders == s.senders;
    forall h | 0 <= h < |t.senders| ensures Remembered(t, h) {
      assert Remembered(s, h);
      if h in s.channel { assert h == s.channel[0] || h in s.channel[1..]; }
      if h in s.accepted {
        assert h == s.accepted[0] || h in s.accepted[1..];
        if choice.Resolve? && choice.index < |s.accepted| { StaysIn(s.accepted, choice.index, h); }
      }
    }
  }

  lemma WorkerRemembers(s: State, choice: Choice, gone: Result)
    requires Inv(s)
    ensures var t := WorkerStep(s, choice, gone);
            Shaped(t) && RecordedFirst(t) && forall h | 0 <= h < |t.senders| :: Remembered(t, h)
  {
    hide Inv, WorkerStep, Shaped, RecordedFirst, Remembered;
    if s.job.Some? { JobRemembers(s, choice, gone); } else { PhaseRemembers(s, choice, gone); }
  }

  lemma StaysIn(xs: seq<nat>, i: nat, x: nat)
    requires i < |xs| && x in xs
    ensures x == xs[i] || x in RemoveAt(xs, i)
  {
    if x != xs[i] {
      var k :| 0 <= k < |xs| && xs[k] == x;
      assert RemoveAt(xs, i)[if k < i then k else k - 1] == x;
    }
  }

  lemma TaskKeeps(s: State, i: nat)
    requires Inv(s) && i < |s.tasks|
    ensures Inv(TaskStep(s, i))
  {
    var t := TaskStep(s, i);
    assert t.cells == s.cells && t.senders == s.senders && t.job == s.job;
    forall h | 0 <= h < |t.senders| ensures Remembered(t, h) { assert Remembered(s, h); }
    forall h ensures WakesSoon(t, h) == WakesSoon(s, h) {}
    TaskShelters(s, i);
  }

  lemma TaskShelters(s: State, i: nat)
    requires Sheltered(s) && i < |s.tasks|
    ensures Sheltered(TaskStep(s, i))
  {
    hide WakesSoon, CallsSoon;
    var t := TaskStep(s, i);
    forall k | 0 <= k < |t.tasks| ensures TaskSafe(t, k) {
      assert TaskSafe(s, k);
      SameWakes(s, t, t.tasks[k].target, k);
    }
  }

  lemma SameWakes(s: State, t: State, h: nat, i: nat)
    requires t.job == s.job && t.senders == s.senders
    ensures WakesSoon(t, h) == WakesSoon(s, h) && CallsSoon(t, h, i) == CallsSoon(s, h, i)
  {
  }

  lemma StepKeeps(s: State, m: Move)
    requires Inv(s)
    ensures Inv(Step(s, m))
  {
    hide Shaped, RecordedFirst, Remembered, TaskSafe, SenderStep, WorkerStep, TaskStep;
    assert Sheltered(s) by { InvShelters(s); }
    match m
    case Submits(i) =>
      if i < |s.senders| { SenderShelters(s, i); SenderRemembers(s, i); }
    case Works(choice, gone) => WorkerShelters(s, choice, gone); WorkerRemembers(s, choice, gone);
    case Polls(i) => if i < |s.tasks| { TaskKeeps(s, i); }
  }

  lemma InvShelters(s: State)
    requires Inv(s)
    ensures Sheltered(s)
  {
  }

  lemma {:induction false} EveryRun(n: nat, targets: seq<nat>, ms: seq<Move>)
    ensures Inv(Run(Start(n, targets), ms))
    decreases |ms|
  {
    hide Step;
    if ms != [] {
      hide Inv;
      EveryRun(n, targets, ms[..|ms| - 1]);
      StepKeeps(Run(Start(n, targets), ms[..|ms| - 1]), ms[|ms| - 1]);
    }
  }

  // ----------------------------------------------------------------- theorems

  /** Everyone is done: the worker is gone, every submit has returned, no task is
      inside a poll. */
  predicate Quiet(s: State) {
    && s.phase.Ended? && s.job.None?
    && (forall i | 0 <= i < |s.senders| :: s.senders[i].Returned?)
    && (forall i | 0 <= i < |s.tasks| :: s.tasks[i].look.Resting?)
  }

  /** Under every interleaving, once everyone is done every submitted handle is
      fulfilled, and every task whose last poll said Pending has been woken. */
  lemma AllFulfilled(n: nat, targets: seq<nat>, ms: seq<Move>)
    requires Quiet(Run(Start(n, targets), ms))
    ensures var s := Run(Start(n, targets), ms);
            && |s.cells| == |s.senders| && (forall h | 0 <= h < |s.cells| :: s.cells[h].Some?)
            && (forall i | 0 <= i < |s.tasks| && s.tasks[i].target < |s.cells| && s.tasks[i].last.Pending? :: s.tasks[i].woken)
  {
    hide Run, Start;
    EveryRun(n, targets, ms);
    var s := Run(Start(n, targets), ms);
    forall h | 0 <= h < |s.cells| ensures s.cells[h].Some? { assert Remembered(s, h); }
    forall i | 0 <= i < |s.tasks| && s.tasks[i].target < |s.cells| && s.tasks[i].last.Pending? ensures s.tasks[i].woken {
      assert TaskSafe(s, i);
    }
  }

  /** At any moment, a task that was told to wait and was not woken waits for a
      handle without a result, or for one whose result is just being announced: its
      wakers are about to be taken, or the task's own is about to be called. */
  lemma NoLostWakeup(n: nat, targets: seq<nat>, ms: seq<Move>, i: nat)
    requires var s := Run(Start(n, targets), ms);
             i < |s.tasks| && s.tasks[i].target < |s.cells| && s.tasks[i].look.Resting? && s.tasks[i].last.Pending?
             && !s.tasks[i].woken
    ensures var s := Run(Start(n, targets), ms);
            s.cells[s.tasks[i].target].None? || WakesSoon(s, s.tasks[i].target) || CallsSoon(s, s.tasks[i].target, i)
  {
    hide Run, Start;
    EveryRun(n, targets, ms);
    assert TaskSafe(Run(Start(n, targets), ms), i);
  }

  /** A recorded result is never replaced. */
  lemma CellKept(s: State, m: Move, h: nat)
    requires h < |s.cells| && s.cells[h].Some?
    ensures h < |Step(s, m).cells| && Step(s, m).cells[h] == s.cells[h]
  {
  }

  lemma {:induction false} CellStays(s: State, ms: seq<Move>, h: nat)
    requires h < |s.cells| && s.cells[h].Some?
    ensures h < |Run(s, ms).cells| && Run(s, ms).cells[h] == s.cells[h]
    decreases |ms|
  {
    hide Step;
    if ms != [] {
      CellStays(s, ms[..|ms| - 1], h);
      CellKept(Run(s, ms[..|ms| - 1]), ms[|ms| - 1], h);
    }
  }

  lemma {:induction false} RunJoins(s: State, a: seq<Move>, b: seq<Move>)
    ensures Run(s, a + b) == Run(Run(s, a), b)
    decreases |b|
  {
    hide Step;
    if b == [] {
      assert a + b == a;
    } else {
      RunJoins(s, a, b[..|b| - 1]);
      assert (a + b)[..|a + b| - 1] == a + b[..|b| - 1];
    }
  }

  lemma {:induction false} TargetsKept(n: nat, targets: seq<nat>, ms: seq<Move>)
    ensures var s := Run(Start(n, targets), ms);
            |s.tasks| == |targets| && |s.cells| == n && forall i | 0 <= i < |targets| :: s.tasks[i].target == targets[i]
    decreases |ms|
  {
    if ms != [] {
      hide Step, Start;
      TargetsKept(n, targets, ms[..|ms| - 1]);
      TargetKept(Run(Start(n, targets), ms[..|ms| - 1]), ms[|ms| - 1]);
    }
  }

  lemma TargetKept(s: State, m: Move)
    ensures var t := Step(s, m);
            |t.tasks| == |s.tasks| && |t.cells| == |s.cells| && forall i | 0 <= i < |s.tasks| :: t.tasks[i].target == s.tasks[i].target
  {
    hide Recorded, Taken, Called;
    forall h, r ensures |Recorded(s, h, r).cells| == |s.cells| && Recorded(s, h, r).tasks == s.tasks { RecordedShape(s, h, r); }
    forall h ensures Taken(s, h).cells == s.cells && Taken(s, h).tasks == s.tasks { TakenShape(s, h); }
    forall k ensures Called(s, k).cells == s.cells && |Called(s, k).tasks| == |s.tasks|
                     && forall i | 0 <= i < |s.tasks| :: Called(s, k).tasks[i].target == s.tasks[i].target { CalledShape(s, k); }
  }

  lemma RecordedShape(s: State, h: nat, r: Result)
    ensures |Recorded(s, h, r).cells| == |s.cells| && Recorded(s, h, r).tasks == s.tasks
  {
  }

  lemma TakenShape(s: State, h: nat)
    ensures Taken(s, h).cells == s.cells && Taken(s, h).tasks == s.tasks
  {
  }

  lemma CalledShape(s: State, k: nat)
    ensures Called(s, k).cells == s.cells && |Called(s, k).tasks| == |s.tasks|
    ensures forall i | 0 <= i < |s.tasks| :: Called(s, k).tasks[i].target == s.tasks[i].target
  {
  }

  /** Every reader sees the first recorded result: once a handle has one, every
      poll that is ready, then or later, returns it. */
  lemma FirstResultSeen(n: nat, targets: seq<nat>, before: seq<Move>, after: seq<Move>, i: nat, result: Result)
    requires i < |targets| && targets[i] < n
    requires var cells := Run(Start(n, targets), before).cells; |cells| == n && cells[targets[i]] == Some(result)
    ensures var tasks := Run(Start(n, targets), before + after).tasks;
            i < |tasks| && (tasks[i].last.Ready? ==> tasks[i].last.result == result)
  {
    hide Run, Start;
    RunJoins(Start(n, targets), before, after);
    TargetsKept(n, targets, before + after);
    CellStays(Run(Start(n, targets), before), after, targets[i]);
    EveryRun(n, targets, before + after);
    assert TaskSafe(Run(Start(n, targets), before + after), i);
  }

  // ---------------------------------------------------------------- in place

  /** One handle's shared part, each method run without interruption. */
  class ResponseHandle {
    var cell: Option<Result>
    var wakers: seq<nat>

    ghost predicate Valid()
      reads this
    {
      forall i, j | 0 <= i < j < |wakers| :: wakers[i] != wakers[j]
    }

    constructor ()
      ensures Valid() && cell.None? && wakers == []
    {
      cell, wakers := None, [];
    }

    /** Keeps the first result and hands over every waker registered. */
    method Fulfil(result: Result) returns (woken: seq<nat>)
      requires Valid()
      modifies this
      ensures Valid() && wakers == [] && woken == old(wakers)
      ensures cell == if old(cell).Some? then old(cell) else Some(result)
    {
      if cell.None? { cell := Some(result); }
      woken, wakers := wakers, [];
    }

    /** The result, or the task's waker registered, once. */
    method Poll(task: nat) returns (seen: Seen)
      requires Valid()
      modifies this
      ensures Valid() && cell == old(cell)
      ensures cell.Some? ==> seen == Ready(cell.value) && wakers == old(wakers)
      ensures cell.None? ==> seen == Pending && wakers == if task in old(wakers) then old(wakers) else old(wakers) + [task]
    {
      if cell.Some? {
        return Ready(cell.value);
      }
      var i := 0;
      while i < |wakers| && wakers[i] != task
        invariant i <= |wakers| && task !in wakers[..i]
      {
        i := i + 1;
      }
      if i == |wakers| {
        assert wakers[..i] == wakers;
        wakers := wakers + [task];
      }
      return Pending;
    }
  }
}
