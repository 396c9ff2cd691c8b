/** Which result a response handle gets, under every interleaving: the worker's own
    answer where it served the request, and otherwise the reason nobody will. */
module Outcomes {
  import opened Gvsp
  import opened Handles

  // ------------------------------------------------------- where results come from

  /** With this move the worker takes up the handle, to give it this result: it
      resolves it while serving, or fails it with its own reason at its end. */
  predicate GivesAt(s: State, m: Move, h: nat, r: Result) {
    && m.Works? && s.job.None?
    && match s.phase
       case Serving => m.choice.Resolve? && m.choice.index < |s.accepted| && s.accepted[m.choice.index] == h && m.choice.result == r
       case Closing => s.accepted != [] && s.accepted[0] == h && m.gone == r
       case Draining => s.channel != [] && s.channel[0] == h && m.gone == r
       case _ => false
  }

  ghost predicate Given(start: State, ms: seq<Move>, h: nat, r: Result) {
    exists j: nat :: j < |ms| && GivesAt(Run(start, ms[..j]), ms[j], h, r)
  }

  /** The result has a reason: the worker gave it, or the worker is gone and the
      sender said so itself. */
  ghost predicate Explained(start: State, ms: seq<Move>, alive: bool, h: nat, r: Result) {
    Given(start, ms, h, r) || (r == Disconnected && !alive)
  }

  ghost predicate AllExplained(start: State, ms: seq<Move>, s: State) {
    && (!s.connected ==> !s.alive)
    && (forall h | 0 <= h < |s.cells| && s.cells[h].Some? :: Explained(start, ms, s.alive, h, s.cells[h].value))
    && (s.job.Some? && s.job.value.Recording? ==> Given(start, ms, s.job.value.handle, s.job.value.result))
    && (forall i | 0 <= i < |s.senders| && s.senders[i].Failing? && s.senders[i].f.Recording? :: s.senders[i].f.result == Disconnected && !s.alive)
  }

  lemma GivenLater(start: State, ms: seq<Move>, m: Move, h: nat, r: Result)
    requires Given(start, ms, h, r)
    ensures Given(start, ms + [m], h, r)
  {
    var j: nat :| j < |ms| && GivesAt(Run(start, ms[..j]), ms[j], h, r);
    assert (ms + [m])[..j] == ms[..j] && (ms + [m])[j] == ms[j];
  }

  lemma GivenNow(start: State, ms: seq<Move>, m: Move, h: nat, r: Result)
    requires GivesAt(Run(start, ms), m, h, r)
    ensures Given(start, ms + [m], h, r)
  {
    assert (ms + [m])[..|ms|] == ms && (ms + [m])[|ms|] == m;
  }

  lemma LaterExplained(start: State, ms: seq<Move>, m: Move, s: State)
    requires AllExplained(start, ms, s)
    ensures AllExplained(start, ms + [m], s)
  {
    hide Given;
    forall h, r | Given(start, ms, h, r) ensures Given(start, ms + [m], h, r) { GivenLater(start, ms, m, h, r); }
  }

  lemma FulfilExplained(start: State, ms: seq<Move>, s: State, f: Fulfilling)
    requires AllExplained(start, ms, s) && (f.Recording? ==> Explained(start, ms, s.alive, f.handle, f.result))
    ensures var (u, rest) := Fulfil(s, f);
            AllExplained(start, ms, u) && u.alive == s.alive && u.senders == s.senders && u.job == s.job && (rest.Some? ==> !rest.value.Recording?)
  {
    hide Given;
  }

  lemma SenderExplained(start: State, ms: seq<Move>, s: State, i: nat)
    requires AllExplained(start, ms, s) && i < |s.senders| && (s.senders[i].Failing? ==> s.senders[i].f.handle == i)
    ensures AllExplained(start, ms, SenderStep(s, i))
  {
    hide Given, Fulfil;
    if s.senders[i].Failing? { FulfilExplained(start, ms, s, s.senders[i].f); }
  }

  lemma WorkerExplained(start: State, ms: seq<Move>, s: State, choice: Choice, gone: Result)
    requires AllExplained(start, ms, s) && (s.phase.Ended? ==> !s.alive)
    requires forall h, r | GivesAt(s, Works(choice, gone), h, r) :: Given(start, ms, h, r)
    ensures AllExplained(start, ms, WorkerStep(s, choice, gone))
  {
    hide Given, Fulfil;
    if s.job.Some? {
      FulfilExplained(start, ms, s, s.job.value);
    } else {
      var t, m := WorkerStep(s, choice, gone), Works(choice, gone);
      if t.job.Some? { assert GivesAt(s, m, t.job.value.handle, t.job.value.result); }
    }
  }

  lemma {:induction false} EveryRunExplained(n: nat, targets: seq<nat>, ms: seq<Move>)
    ensures AllExplained(Start(n, targets), ms, Run(Start(n, targets), ms))
    decreases |ms|
  {
    if ms != [] {
      hide Start, AllExplained, SenderStep, WorkerStep, TaskStep, Given, GivesAt;
      var init, m := ms[..|ms| - 1], ms[|ms| - 1];
      var start := Start(n, targets);
      var s := Run(start, init);
      assert ms == init + [m];
      EveryRunExplained(n, targets, init);
      EveryRun(n, targets, init);
      LaterExplained(start, init, m, s);
      Shapes(s);
      match m
      case Submits(i) => if i < |s.senders| { SenderExplained(start, ms, s, i); }
      case Works(choice, gone) =>
        forall h, r | GivesAt(s, m, h, r) ensures Given(start, ms, h, r) { GivenNow(start, init, m, h, r); }
        WorkerExplained(start, ms, s, choice, gone);
      case Polls(i) => if i < |s.tasks| { TaskExplained(start, ms, s, i); }
    }
  }

  lemma Shapes(s: State)
    requires Inv(s)
    ensures (s.phase.Ended? ==> !s.alive) && forall i | 0 <= i < |s.senders| && s.senders[i].Failing? :: s.senders[i].f.handle == i
  {
    hide RecordedFirst, Remembered, TaskSafe;
  }

  lemma TaskExplained(start: State, ms: seq<Move>, s: State, i: nat)
    requires AllExplained(start, ms, s) && i < |s.tasks|
    ensures AllExplained(start, ms, TaskStep(s, i))
  {
    hide Given;
  }

  /** Under every interleaving, whatever result a handle has, the worker gave it to
      that very handle, or the worker is gone and the result is Disconnected. */
  lemma ResultsHaveReasons(n: nat, targets: seq<nat>, ms: seq<Move>, h: nat)
    requires var s := Run(Start(n, targets), ms); h < |s.cells| && s.cells[h].Some?
    ensures var s := Run(Start(n, targets), ms);
            Given(Start(n, targets), ms, h, s.cells[h].value) || (s.cells[h].value == Disconnected && !s.alive)
  {
    hide Run, Start, Given;
    EveryRunExplained(n, targets, ms);
  }

  // ------------------------------------------------------------ served requests

  /** No handle is in two places, and none the worker has or will get has a result
      while the worker is alive. */
  ghost predicate Apart(s: State) {
    var all := s.accepted + s.channel;
    && NoTwice(all)
    && (forall h | h in all :: h < |s.senders| && !s.senders[h].Checking? && !s.senders[h].Sending? && !WorksOn(s.job, h))
    && (s.job.Some? && s.job.value.handle < |s.senders| ==> !s.senders[s.job.value.handle].Checking? && !s.senders[s.job.value.handle].Sending?)
    && (s.alive ==>
          && (forall i | 0 <= i < |s.senders| :: !s.senders[i].Failing?) && s.connected
          && (forall h | h in all && h < |s.cells| :: s.cells[h].None?)
          && (forall h | 0 <= h < |s.cells| && s.cells[h].Some? :: h < |s.senders| && !s.senders[h].Checking? && !s.senders[h].Sending?)
          && (s.job.Some? && s.job.value.Recording? && s.job.value.handle < |s.cells| ==> s.cells[s.job.value.handle].None?))
  }

  lemma SenderApart(s: State, i: nat)
    requires Apart(s) && i < |s.senders| == |s.cells|
    ensures Apart(SenderStep(s, i))
  {
    hide Fulfil;
    var t := SenderStep(s, i);
    if s.senders[i].Failing? { FulfilParts(s, s.senders[i].f); }
    var all, more := s.accepted + s.channel, t.accepted + t.channel;
    assert more == all || more == all + [i];
    if s.senders[i].Sending? { assert i !in all; }
  }

  lemma FulfilParts(s: State, f: Fulfilling)
    ensures var (u, rest) := Fulfil(s, f);
            && u == s.(cells := u.cells, wakers := u.wakers, tasks := u.tasks) && |u.cells| == |s.cells|
            && (forall h | 0 <= h < |s.cells| && h != f.handle :: u.cells[h] == s.cells[h])
            && (rest.Some? ==> rest.value.handle == f.handle && !rest.value.Recording?)
  {
  }

  lemma JobApart(s: State, choice: Choice, gone: Result)
    requires Apart(s) && s.job.Some? && |s.cells| == |s.senders|
    ensures Apart(WorkerStep(s, choice, gone))
  {
    hide Fulfil;
    FulfilParts(s, s.job.value);
  }

  ghost predicate NoTwice(all: seq<nat>) { forall i, j | 0 <= i < j < |all| :: all[i] != all[j] }

  lemma DropAt(all: seq<nat>, i: nat)
    requires NoTwice(all) && i < |all|
    ensures NoTwice(RemoveAt(all, i)) && all[i] !in RemoveAt(all, i) && forall h | h in RemoveAt(all, i) :: h in all
  {
    var more := RemoveAt(all, i);
    assert forall x | 0 <= x < |more| :: more[x] == all[if x < i then x else x + 1];
    forall h | h in more ensures h in all && h != all[i] {
      var x :| 0 <= x < |more| && more[x] == h;
    }
  }

  /** The worker takes up the handle at `i` of those it has or will get. */
  lemma TakesUp(s: State, t: State, i: nat, r: Result)
    requires Apart(s) && s.job.None? && |s.cells| == |s.senders| && i < |s.accepted + s.channel|
    requires t.accepted + t.channel == RemoveAt(s.accepted + s.channel, i)
    requires t == s.(accepted := t.accepted, channel := t.channel, job := Some(Recording((s.accepted + s.channel)[i], r)))
    ensures Apart(t)
  {
    hide RemoveAt;
    DropAt(s.accepted + s.channel, i);
    assert (s.accepted + s.channel)[i] in s.accepted + s.channel;
  }

  lemma PhaseApart(s: State, choice: Choice, gone: Result)
    requires Apart(s) && s.job.None? && |s.cells| == |s.senders| && (s.alive <==> s.phase in {Serving, Closing, Dying})
    ensures Apart(WorkerStep(s, choice, gone))
  {
    hide Apart;
    var t, all := WorkerStep(s, choice, gone), s.accepted + s.channel;
    match s.phase
    case Serving =>
      if choice.Resolve? && choice.index < |s.accepted| {
        assert t.accepted + t.channel == RemoveAt(all, choice.index);
        TakesUp(s, t, choice.index, choice.result);
      } else {
        assert t.accepted + t.channel == all;
        SameApart(s, t);
      }
    case Closing =>
      if s.accepted != [] {
        assert t.accepted + t.channel == RemoveAt(all, 0);
        TakesUp(s, t, 0, gone);
      } else {
        SameApart(s, t);
      }
    case Draining =>
      if s.channel != [] {
        assert all[|s.accepted|] == s.channel[0];
        assert t.accepted + t.channel == RemoveAt(all, |s.accepted|);
        TakesUp(s, t, |s.accepted|, gone);
      } else {
        SameApart(s, t);
      }
    case _ => SameApart(s, t);
  }

  lemma SameApart(s: State, t: State)
    requires Apart(s) && t.accepted + t.channel == s.accepted + s.channel && t.job == s.job && t.senders == s.senders && t.cells == s.cells
    requires t.alive ==> s.alive && t.connected == s.connected
    ensures Apart(t)
  {
  }

  lemma {:induction false} EveryRunApart(n: nat, targets: seq<nat>, ms: seq<Move>)
    ensures Apart(Run(Start(n, targets), ms))
    decreases |ms|
  {
    if ms != [] {
      hide Start, Apart, SenderStep, WorkerStep, TaskStep;
      var init, m := ms[..|ms| - 1], ms[|ms| - 1];
      var s := Run(Start(n, targets), init);
      EveryRunApart(n, targets, init);
      EveryRun(n, targets, init);
      Sizes(s);
      match m
      case Submits(i) => if i < |s.senders| { SenderApart(s, i); }
      case Works(choice, gone) => if s.job.Some? { JobApart(s, choice, gone); } else { PhaseApart(s, choice, gone); }
      case Polls(i) => if i < |s.tasks| { TaskApart(s, i); }
    }
  }

  lemma Sizes(s: State)
    requires Inv(s)
    ensures |s.cells| == |s.senders| && (s.alive <==> s.phase in {Serving, Closing, Dying})
  {
    hide RecordedFirst, Remembered, TaskSafe;
  }

  lemma TaskApart(s: State, i: nat)
    requires Apart(s) && i < |s.tasks|
    ensures Apart(TaskStep(s, i))
  {
    var t := TaskStep(s, i);
    assert t == s.(wakers := t.wakers, tasks := t.tasks);
  }

  /** The result is recorded, or the worker is about to record it. */
  predicate Settles(s: State, h: nat, r: Result) {
    h < |s.cells| && (s.cells[h] == Some(r) || (s.alive && s.cells[h].None? && s.job == Some(Recording(h, r))))
  }

  lemma SettlesOn(s: State, m: Move, h: nat, r: Result)
    requires Settles(s, h, r) && Apart(s) && |s.cells| == |s.senders|
    ensures Settles(Step(s, m), h, r)
  {
    if s.cells[h].Some? { CellKept(s, m, h); }
  }

  lemma {:induction false} StaysSettled(n: nat, targets: seq<nat>, before: seq<Move>, after: seq<Move>, h: nat, r: Result)
    requires Settles(Run(Start(n, targets), before), h, r)
    ensures Settles(Run(Start(n, targets), before + after), h, r)
    decreases |after|
  {
    hide Settles, Apart, Step, Start, Inv;
    if after == [] {
      assert before + after == before;
    } else {
      var init, m := after[..|after| - 1], after[|after| - 1];
      assert (before + after)[..|before + after| - 1] == before + init;
      StaysSettled(n, targets, before, init, h, r);
      EveryRunApart(n, targets, before + init);
      EveryRun(n, targets, before + init);
      Sizes(Run(Start(n, targets), before + init));
      SettlesOn(Run(Start(n, targets), before + init), m, h, r);
    }
  }

  /** A request the worker answers while it serves gets that answer, whatever the
      other threads do: no sender's own failure comes first, and none follows. */
  lemma ServedAnswerStands(n: nat, targets: seq<nat>, before: seq<Move>, m: Move, after: seq<Move>, h: nat, r: Result)
    requires var s := Run(Start(n, targets), before); s.phase.Serving? && GivesAt(s, m, h, r)
    ensures var t := Run(Start(n, targets), before + [m] + after);
            h < |t.cells| && (t.cells[h] == Some(r) || (t.cells[h].None? && t.job == Some(Recording(h, r))))
  {
    hide Start, Run, Inv;
    var s := Run(Start(n, targets), before);
    EveryRunApart(n, targets, before);
    EveryRun(n, targets, before);
    Sizes(s);
    assert h in s.accepted + s.channel by { assert (s.accepted + s.channel)[m.choice.index] == h; }
    assert Run(Start(n, targets), before + [m]) == Step(s, m) by { OneMore(Start(n, targets), before, m); }
    StaysSettled(n, targets, before + [m], after, h, r);
  }

  lemma OneMore(s: State, ms: seq<Move>, m: Move)
    ensures Run(s, ms + [m]) == Step(Run(s, ms), m)
  {
    hide Step;
    assert (ms + [m])[..|ms|] == ms;
  }
}
