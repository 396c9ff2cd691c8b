/** The receiver's counters say how its delivered frames ended. */
module Tallies {
  import opened Gvsp
  import opened Reassembly
  import opened Holes
  import opened Receiver

  /** Delivered frames that ended in this way. */
  function Ended(delivered: seq<Delivered>, how: Status -> bool): nat
    decreases |delivered|
  {
    if delivered == [] then 0
    else Ended(delivered[..|delivered| - 1], how) + if how(delivered[|delivered| - 1].status) then 1 else 0
  }

  predicate Tallied(stats: Stats, delivered: seq<Delivered>) {
    && stats.completed == Ended(delivered, (x: Status) => x.Complete?)
    && stats.aborted == Ended(delivered, (x: Status) => x.Aborted?)
    && stats.failed == Ended(delivered, (x: Status) => !x.Complete? && !x.Aborted?)
  }

  lemma CloseTallies(s: State, i: nat, status: Status)
    requires Tallied(s.stats, s.delivered) && i < |s.frames|
    ensures var t := CloseFrame(s, i, status); Tallied(t.stats, t.delivered)
  {
    var t := CloseFrame(s, i, status);
    assert t.delivered[..|s.delivered|] == s.delivered;
  }

  lemma {:induction false} CheckTallies(cfg: Config, s: State, now: int, current: Option<nat>, i: nat, canClose: bool)
    requires Tallied(s.stats, s.delivered)
    ensures var t := CheckCompletion(cfg, s, now, current, i, canClose); Tallied(t.stats, t.delivered)
    decreases |s.frames| - i
  {
    hide Tallied, Judge, MissingCheck;
    if i < |s.frames| {
      match Judge(cfg, s, i, canClose, now)
      case Discard => CheckTallies(cfg, DiscardFrame(cfg, s, i), now, current, i, canClose);
      case Skip => CheckTallies(cfg, s, now, current, i + 1, canClose);
      case Close(status) =>
        CloseTallies(s, i, status);
        CheckTallies(cfg, CloseFrame(s, i, status), now, current, i, canClose);
      case Wait =>
        var f := s.frames[i];
        var t := if current != Some(f.frameId) && Since(now, f.lastTime) >= cfg.packetTimeout
                 then AskAgain(cfg, s, i, Max(|f.packets| - 1, 0), now) else s;
        CheckTallies(cfg, t, now, current, i + 1, false);
    }
  }

  lemma {:induction false} DiscardTallies(cfg: Config, s: State)
    ensures var t := DiscardProvisional(cfg, s); t.stats == s.stats && t.delivered == s.delivered
    decreases |s.frames|
  {
    var i := FirstProvisional(s.frames);
    if i < |s.frames| { DiscardTallies(cfg, DiscardFrame(cfg, s, i)); }
  }

  lemma {:induction false} CloseAllTallies(s: State)
    requires Tallied(s.stats, s.delivered)
    ensures Tallied(CloseAll(s).stats, CloseAll(s).delivered)
    decreases |s.frames|
  {
    hide Tallied;
    if s.frames != [] {
      CloseTallies(s, 0, Aborted);
      CloseAllTallies(CloseFrame(s, 0, Aborted));
    }
  }

  lemma RouteTallies(cfg: Config, s: State, view: View, now: int)
    requires Tallied(s.stats, s.delivered)
    ensures var t := FindOrCreate(cfg, s, view, now).state; Tallied(t.stats, t.delivered)
  {
    hide FindFrame, Classify, DiscardProvisional, ExpectedPackets, BlockIdDistance, Ended;
    DiscardTallies(cfg, s);
  }

  lemma TakeTallies(cfg: Config, s: State, i: nat, view: View, now: int)
    requires Tallied(s.stats, s.delivered) && i < |s.frames|
    ensures var t := Take(cfg, s, i, view, now); Tallied(t.stats, t.delivered)
  {
    hide Tallied, TakeInto, Diverges, MissingCheck, CheckCompletion;
    if Takes(s.frames[i], view) {
      var f := s.frames[i];
      var t := s.(frames := s.frames[i := TakeInto(cfg, f, view)]);
      var u := if Provisional(f) && Diverges(f.replayOf.value, view) then AdoptRestart(t, i) else t;
      CheckTallies(cfg, AskAgain(cfg, u, i, view.packetId, now), now, Some(f.frameId), 0, true);
    }
  }

  lemma StepTallies(cfg: Config, s: State, e: Event)
    requires Tallied(s.stats, s.delivered)
    ensures Tallied(Step(cfg, s, e).stats, Step(cfg, s, e).delivered)
  {
    hide Tallied, FindOrCreate, Take, CheckCompletion, DiscardProvisional, CloseAll;
    match e
    case Packet(d, now) =>
      if d.Some? {
        var routed := FindOrCreate(cfg, Start(s, d.value), d.value, now);
        RouteTallies(cfg, Start(s, d.value), d.value, now);
        if routed.index.Some? && routed.index.value < |routed.state.frames| {
          TakeTallies(cfg, routed.state, routed.index.value, d.value, now);
        }
      }
    case Idle(now) => CheckTallies(cfg, s, now, None, 0, true);
    case Dropped(_) =>
    case Shutdown =>
      DiscardTallies(cfg, s);
      CloseAllTallies(DiscardProvisional(cfg, s));
  }

  /** In every run the counters are exactly the delivered frames that ended complete,
      aborted and otherwise. */
  lemma {:induction false} RunTallies(cfg: Config, events: seq<Event>)
    ensures var s := Run(cfg, Initial(cfg), events); Tallied(s.stats, s.delivered)
    decreases |events|
  {
    hide Step;
    if events != [] {
      hide Tallied, Initial;
      RunTallies(cfg, events[..|events| - 1]);
      StepTallies(cfg, Run(cfg, Initial(cfg), events[..|events| - 1]), events[|events| - 1]);
    }
  }
}
