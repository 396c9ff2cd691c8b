/** Cycles in the node graph: evaluation always ends, and a graph whose references
    descend in some rank is never reported circular. */
module Circularity {
  import opened Gvsp
  import opened BitFields
  import opened NodeGraph

  type Rank = NodeId -> nat

  // -------------------------------------------------------------------- ranks

  predicate LinkBelow(link: Link, rank: Rank, b: nat) { link.Id? ==> rank(link.id) < b }

  /** Every node the reference may lead to ranks below `b`. */
  ghost predicate RefBelow(vr: Ref, rank: Rank, b: nat) {
    match vr
    case Reference(link) => LinkBelow(link, rank, b)
    case Indexed(index, entries, fallback) =>
      LinkBelow(index, rank, b) && RefBelow(fallback, rank, b)
      && forall i | 0 <= i < |entries| :: RefBelow(entries[i].1, rank, b)
    case _ => true
  }

  ghost predicate TermsBelow(terms: seq<Term>, rank: Rank, b: nat) {
    forall i | 0 <= i < |terms| && terms[i].Variable? :: LinkBelow(terms[i].link, rank, b)
  }

  ghost predicate RefsBelow(refs: seq<Ref>, rank: Rank, b: nat) { forall i | 0 <= i < |refs| :: RefBelow(refs[i], rank, b) }

  ghost predicate NodeBelow(node: Node, rank: Rank, b: nat) {
    match node
    case Feature(_, value) => RefBelow(value, rank, b)
    case Command(value, commandValue) => RefBelow(value, rank, b) && RefBelow(commandValue, rank, b)
    case Reg(r) => RefsBelow(r.terms, rank, b) && RefBelow(r.length, rank, b)
    case Converter(value, to, from) => RefBelow(value, rank, b) && TermsBelow(to.terms, rank, b) && TermsBelow(from.terms, rank, b)
    case SwissKnife(formula) => TermsBelow(formula.terms, rank, b)
    case Plain => true
  }

  /** Every node refers only to nodes of lower rank. */
  ghost predicate Descends(nodes: seq<Node>, rank: Rank) {
    forall id | 0 <= id < |nodes| :: NodeBelow(nodes[id], rank, rank(id))
  }

  ghost predicate Above(visit: seq<NodeId>, rank: Rank, b: nat) { forall i | i in visit :: rank(i) >= b }

  /** Nodes of rank below `b` may be visited next. */
  ghost predicate Ready(g: Graph, rank: Rank, b: nat) { Distinct(g.visit) && Descends(g.nodes, rank) && Above(g.visit, rank, b) }

  /** No cycle was met, and the graph still descends. */
  ghost predicate Straight<T>(g: Graph, o: Outcome<T>, rank: Rank) {
    !(o.result.Err? && o.result.error.Circular?) && o.graph.visit == g.visit && |o.graph.nodes| == |g.nodes|
    && Descends(o.graph.nodes, rank)
  }

  lemma PickBelow(vr: Ref, at: int, rank: Rank, b: nat)
    requires vr.Indexed? && RefBelow(vr, rank, b)
    ensures RefBelow(Pick(vr, at), rank, b)
  {
  }

  lemma CacheBelow(g: Graph, id: NodeId, cache: Option<Octets>, rank: Rank)
    requires Descends(g.nodes, rank)
    ensures Descends(WithCache(g, id, cache).nodes, rank)
  {
  }

  lemma {:induction false} InvalidatedBelow(g: Graph, ids: seq<NodeId>, rank: Rank)
    requires Descends(g.nodes, rank)
    ensures Descends(Invalidated(g, ids).nodes, rank)
    decreases |ids|
  {
    if ids != [] {
      CacheBelow(g, ids[0], None, rank);
      InvalidatedBelow(WithCache(g, ids[0], None), ids[1..], rank);
    }
  }

  // ----------------------------------------------------------------- reading

  lemma {:induction false} IntValueStraight(w: World, g: Graph, id: NodeId, rank: Rank, b: nat)
    requires Ready(g, rank, b) && id < |g.nodes| && rank(id) < b
    ensures Straight(g, IntValue(w, g, id), rank)
    decreases Unvisited(g), 1, 0
  {
    IntInnerStraight(w, Entered(g, id), id, rank);
  }

  lemma {:induction false} SelectedStraight(w: World, g: Graph, vr: Ref, rank: Rank, b: nat)
    requires Ready(g, rank, b) && vr.Indexed? && RefBelow(vr, rank, b)
    ensures Straight(g, Selected(w, g, vr), rank)
    ensures Selected(w, g, vr).result.Ok? ==> RefBelow(Selected(w, g, vr).result.value, rank, b)
    decreases Unvisited(g), 2, 0
  {
    hide Descends;
    if Resolve(g, vr.index).Some? {
      IntValueStraight(w, g, vr.index.id, rank, b);
      var at := IntValue(w, g, vr.index.id);
      if at.result.Ok? { PickBelow(vr, at.result.value, rank, b); }
    }
  }

  lemma {:induction false} RefIntStraight(w: World, g: Graph, vr: Ref, rank: Rank, b: nat)
    requires Ready(g, rank, b) && RefBelow(vr, rank, b)
    ensures Straight(g, RefInt(w, g, vr), rank)
    decreases Unvisited(g), 3, vr
  {
    hide Descends, Pick;
    match vr
    case Reference(link) =>
      if Resolve(g, link).Some? { IntValueStraight(w, g, link.id, rank, b); }
    case Indexed(_, _, _) =>
      SelectedStraight(w, g, vr, rank, b);
      var entry := Selected(w, g, vr);
      if entry.result.Ok? { RefIntStraight(w, entry.graph, entry.result.value, rank, b); }
    case _ =>
  }

  lemma {:induction false} IntInnerStraight(w: World, g: Graph, id: NodeId, rank: Rank)
    requires id < |g.nodes| && Ready(g, rank, rank(id))
    ensures Straight(g, IntInner(w, g, id), rank)
    decreases Unvisited(g), 7, 0
  {
    var b := rank(id);
    assert NodeBelow(g.nodes[id], rank, b);
    hide Descends, RefBelow, ExtractInt;
    match g.nodes[id]
    case Feature(_, value) => RefIntStraight(w, g, value, rank, b);
    case Reg(r) => RegisterReadStraight(w, g, id, rank, b);
    case Converter(value, _, from) =>
      RefIntStraight(w, g, value, rank, b);
      var raw := RefInt(w, g, value);
      if raw.result.Ok? { FormulaStraight(w, raw.graph, from, Some(raw.result.value), rank, b); }
    case SwissKnife(formula) => FormulaStraight(w, g, formula, None, rank, b);
    case _ =>
  }

  lemma {:induction false} FormulaStraight(w: World, g: Graph, formula: Formula, builtin: Option<int>, rank: Rank, b: nat)
    requires Ready(g, rank, b) && TermsBelow(formula.terms, rank, b)
    ensures Straight(g, EvalFormula(w, g, formula, builtin), rank)
    decreases Unvisited(g), 5, 0
  {
    hide Descends;
    TermsStraight(w, g, formula.terms, builtin, rank, b);
  }

  lemma {:induction false} TermsStraight(w: World, g: Graph, terms: seq<Term>, builtin: Option<int>, rank: Rank, b: nat)
    requires Ready(g, rank, b) && TermsBelow(terms, rank, b)
    ensures Straight(g, TermValues(w, g, terms, builtin), rank)
    decreases Unvisited(g), 4, |terms|
  {
    hide Descends, TermValue, LinkBelow;
    if terms != [] {
      assert terms[0].Variable? ==> LinkBelow(terms[0].link, rank, b);
      TermStraight(w, g, terms[0], builtin, rank, b);
      var first := TermValue(w, g, terms[0], builtin);
      if first.result.Ok? {
        assert TermsBelow(terms[1..], rank, b);
        TermsStraight(w, first.graph, terms[1..], builtin, rank, b);
      }
    }
  }

  lemma {:induction false} TermStraight(w: World, g: Graph, term: Term, builtin: Option<int>, rank: Rank, b: nat)
    requires Ready(g, rank, b) && (term.Variable? ==> LinkBelow(term.link, rank, b))
    ensures Straight(g, TermValue(w, g, term, builtin), rank)
    decreases Unvisited(g), 2, 0
  {
    hide Descends;
    if term.Variable? && Resolve(g, term.link).Some? { IntValueStraight(w, g, term.link.id, rank, b); }
  }

  lemma {:induction false} AddressStraight(w: World, g: Graph, terms: seq<Ref>, sum: int, rank: Rank, b: nat)
    requires Ready(g, rank, b) && RefsBelow(terms, rank, b)
    ensures Straight(g, AddressSum(w, g, terms, sum), rank)
    decreases Unvisited(g), 4, |terms|
  {
    hide Descends, RefBelow, AsSigned, AsWord;
    if terms != [] {
      RefIntStraight(w, g, terms[0], rank, b);
      var term := RefInt(w, g, terms[0]);
      if term.result.Ok? {
        AddressStraight(w, term.graph, terms[1..], AsSigned(AsWord(sum + term.result.value)), rank, b);
      }
    }
  }

  lemma {:induction false} PlaceStraight(w: World, g: Graph, r: Register, rank: Rank, b: nat)
    requires Ready(g, rank, b) && RefsBelow(r.terms, rank, b) && RefBelow(r.length, rank, b)
    ensures Straight(g, RegisterPlace(w, g, r), rank)
    decreases Unvisited(g), 5, 0
  {
    hide Descends, RefBelow, RefsBelow, AsWord;
    AddressStraight(w, g, r.terms, 0, rank, b);
    var sum := AddressSum(w, g, r.terms, 0);
    if sum.result.Ok? && !r.length.Nothing? { RefIntStraight(w, sum.graph, r.length, rank, b); }
  }

  lemma {:induction false} RegisterReadStraight(w: World, g: Graph, id: NodeId, rank: Rank, b: nat)
    requires Ready(g, rank, b) && id < |g.nodes| && NodeBelow(g.nodes[id], rank, b)
    ensures Straight(g, RegisterRead(w, g, id), rank)
    decreases Unvisited(g), 6, 0
  {
    hide Descends, RefBelow, RefsBelow;
    if g.nodes[id].Reg? {
      var r := g.nodes[id].register;
      PlaceStraight(w, g, r, rank, b);
      var place := RegisterPlace(w, g, r);
      if place.result.Ok? { PortReadStraight(w, place.graph, id, place.result.value, rank); }
    }
  }

  lemma PortReadStraight(w: World, g: Graph, id: NodeId, place: Place, rank: Rank)
    requires id < |g.nodes| && Descends(g.nodes, rank)
    ensures Straight(g, PortRead(w, g, id, place), rank)
  {
    hide Descends;
    var h := g.(log := g.log + [ReadAt(place.address, place.length)]);
    if w.port(h.log).Some? { CacheBelow(h, id, Some(w.port(h.log).value), rank); }
  }

  // ----------------------------------------------------------------- writing

  lemma RegisterWriteStraight(w: World, g: Graph, id: NodeId, bytes: Octets, rank: Rank, b: nat)
    requires Ready(g, rank, b) && id < |g.nodes| && NodeBelow(g.nodes[id], rank, b)
    ensures Straight(g, RegisterWrite(w, g, id, bytes), rank)
  {
    hide Descends, RefBelow, RefsBelow, PortWrite;
    if g.nodes[id].Reg? {
      PlaceStraight(w, g, g.nodes[id].register, rank, b);
      var place := RegisterPlace(w, g, g.nodes[id].register);
      if place.result.Ok? { PortWriteStraight(w, place.graph, id, place.result.value.address, bytes, rank); }
    }
  }

  lemma PortWriteStraight(w: World, g: Graph, id: NodeId, address: nat, bytes: Octets, rank: Rank)
    requires id < |g.nodes| && Descends(g.nodes, rank)
    ensures Straight(g, PortWrite(w, g, id, address, bytes), rank)
  {
    hide Descends;
    var h := g.(log := g.log + [WriteAt(address, bytes)]);
    CacheBelow(h, id, Some(bytes), rank);
    CacheBelow(h, id, None, rank);
    if id in w.invalidates {
      InvalidatedBelow(WithCache(h, id, Some(bytes)), w.invalidates[id], rank);
      InvalidatedBelow(WithCache(h, id, None), w.invalidates[id], rank);
    }
  }

  lemma {:induction false} SetIntValueStraight(w: World, g: Graph, id: NodeId, v: int, rank: Rank, b: nat)
    requires Ready(g, rank, b) && id < |g.nodes| && rank(id) < b
    ensures Straight(g, SetIntValue(w, g, id, v), rank)
    decreases Unvisited(g), 1, 0
  {
    SetInnerStraight(w, Entered(g, id), id, v, rank);
  }

  lemma {:induction false} SetInnerStraight(w: World, g: Graph, id: NodeId, v: int, rank: Rank)
    requires id < |g.nodes| && Ready(g, rank, rank(id))
    ensures Straight(g, SetInner(w, g, id, v), rank)
    decreases Unvisited(g), 8, 0
  {
    var b := rank(id);
    assert NodeBelow(g.nodes[id], rank, b);
    hide Descends, RefBelow;
    match g.nodes[id]
    case Feature(_, value) => SetRefIntStraight(w, g, id, value, v, rank, b);
    case Command(value, _) => SetRefIntStraight(w, g, id, value, v, rank, b);
    case Reg(_) => SetRegisterStraight(w, g, id, v, rank);
    case Converter(value, to, _) =>
      FormulaStraight(w, g, to, Some(v), rank, b);
      var out := EvalFormula(w, g, to, Some(v));
      if out.result.Ok? { SetTargetStraight(w, out.graph, value, out.result.value, rank, b); }
    case _ =>
  }

  lemma NodeRank(g: Graph, id: NodeId, rank: Rank)
    requires id < |g.nodes| && Descends(g.nodes, rank)
    ensures NodeBelow(g.nodes[id], rank, rank(id))
  {
  }

  lemma {:induction false} SetRegisterStraight(w: World, g: Graph, id: NodeId, v: int, rank: Rank)
    requires id < |g.nodes| && g.nodes[id].Reg? && Ready(g, rank, rank(id))
    ensures Straight(g, SetRegister(w, g, id, v), rank)
    decreases Unvisited(g), 7, 0
  {
    hide Descends, RefBelow, RefsBelow, InsertInt, EncodeInt, RegisterWrite;
    var b, r := rank(id), g.nodes[id].register;
    NodeRank(g, id, rank);
    if !r.length.Nothing? { RefIntStraight(w, g, r.length, rank, b); }
    var length := RegisterLength(w, g, r.length);
    if length.result.Ok? {
      NodeRank(length.graph, id, rank);
      if r.lsb.Some? || r.msb.Some? {
        RegisterReadStraight(w, length.graph, id, rank, b);
        var current := RegisterRead(w, length.graph, id);
        if current.result.Ok? {
          NodeRank(current.graph, id, rank);
          var bytes := InsertInt(current.result.value, v, r.endianness, r.lsb, r.msb);
          if bytes.Some? { RegisterWriteStraight(w, current.graph, id, bytes.value, rank, b); }
        }
      } else {
        var bytes := EncodeInt(v, length.result.value, r.endianness);
        if bytes.Some? { RegisterWriteStraight(w, length.graph, id, bytes.value, rank, b); }
      }
    }
  }

  lemma {:induction false} SetRefIntStraight(w: World, g: Graph, id: NodeId, vr: Ref, v: int, rank: Rank, b: nat)
    requires Ready(g, rank, b) && id < |g.nodes| && RefBelow(vr, rank, b)
    ensures Straight(g, SetRefInt(w, g, id, vr, v), rank)
    decreases Unvisited(g), 5, 0
  {
    if vr.Literal? { LiteralBelow(g, id, v, rank); } else { hide Descends, RefBelow; SetTargetStraight(w, g, vr, v, rank, b); }
  }

  lemma LiteralBelow(g: Graph, id: NodeId, v: int, rank: Rank)
    requires id < |g.nodes| && Descends(g.nodes, rank)
    ensures Descends(WithLiteral(g, id, v).nodes, rank)
  {
  }

  lemma {:induction false} SetTargetStraight(w: World, g: Graph, vr: Ref, v: int, rank: Rank, b: nat)
    requires Ready(g, rank, b) && RefBelow(vr, rank, b)
    ensures Straight(g, SetTarget(w, g, vr, v), rank)
    decreases Unvisited(g), 4, 0
  {
    hide Descends;
    match vr
    case Reference(link) =>
      if Resolve(g, link).Some? { SetIntValueStraight(w, g, link.id, v, rank, b); }
    case Indexed(_, _, _) =>
      SelectedStraight(w, g, vr, rank, b);
      var entry := Selected(w, g, vr);
      if entry.result.Ok? && entry.result.value.Reference? && Resolve(entry.graph, entry.result.value.link).Some? {
        SetIntValueStraight(w, entry.graph, entry.result.value.link.id, v, rank, b);
      }
    case _ =>
  }

  // ---------------------------------------------------------------- theorems

  /** A public call: read, write, run a command, clear the caches. */
  datatype Call = Read(id: NodeId) | Write(id: NodeId, v: int) | Run(id: NodeId) | Clear

  datatype Answer = Value(v: int) | Done | Failed(error: Error)

  datatype Returned = Returned(graph: Graph, answer: Answer)

  function Finished(o: Outcome<()>): Returned {
    Returned(o.graph, if o.result.Ok? then Done else Failed(o.result.error))
  }

  function Perform(w: World, g: Graph, call: Call): Returned
    requires Distinct(g.visit)
  {
    match call
    case Read(id) =>
      if id >= |g.nodes| then Returned(g, Failed(Dangling))
      else var o := IntValue(w, g, id); Returned(o.graph, if o.result.Ok? then Value(o.result.value) else Failed(o.result.error))
    case Write(id, v) => if id >= |g.nodes| then Returned(g, Failed(Dangling)) else Finished(SetIntValue(w, g, id, v))
    case Run(id) => if id >= |g.nodes| then Returned(g, Failed(Dangling)) else Finished(Execute(w, g, id))
    case Clear => Returned(CachesCleared(g), Done)
  }

  /** The graph after several calls, and their answers. */
  datatype Trace = Trace(graph: Graph, answers: seq<Answer>)

  function PerformAll(w: World, g: Graph, calls: seq<Call>): (t: Trace)
    requires g.visit == []
    ensures t.graph.visit == [] && |t.graph.nodes| == |g.nodes|
    decreases |calls|
  {
    if calls == [] then Trace(g, [])
    else
      var t := PerformAll(w, g, calls[..|calls| - 1]);
      var r := Perform(w, t.graph, calls[|calls| - 1]);
      Trace(r.graph, t.answers + [r.answer])
  }

  lemma CallStraight(w: World, g: Graph, call: Call, rank: Rank)
    requires g.visit == [] && Descends(g.nodes, rank)
    ensures var r := Perform(w, g, call); r.answer != Failed(Circular) && Descends(r.graph.nodes, rank)
  {
    hide Descends, RefBelow;
    match call
    case Read(id) => if id < |g.nodes| { IntValueStraight(w, g, id, rank, rank(id) + 1); }
    case Write(id, v) => if id < |g.nodes| { SetIntValueStraight(w, g, id, v, rank, rank(id) + 1); }
    case Run(id) => if id < |g.nodes| && g.nodes[id].Command? { ExecuteStraight(w, g, id, rank); }
    case Clear => ClearedBelow(g, rank);
  }

  lemma ExecuteStraight(w: World, g: Graph, id: NodeId, rank: Rank)
    requires g.visit == [] && Descends(g.nodes, rank) && id < |g.nodes| && g.nodes[id].Command?
    ensures Straight(g, Execute(w, g, id), rank)
  {
    NodeRank(g, id, rank);
    hide Descends, RefBelow;
    var b := rank(id);
    var value, commandValue := g.nodes[id].value, g.nodes[id].commandValue;
    if commandValue.Nothing? {
      SetRefIntStraight(w, g, id, value, 1, rank, b);
    } else {
      RefIntStraight(w, g, commandValue, rank, b);
      var v := RefInt(w, g, commandValue);
      if v.result.Ok? { SetRefIntStraight(w, v.graph, id, value, v.result.value, rank, b); }
    }
  }

  lemma ClearedBelow(g: Graph, rank: Rank)
    requires Descends(g.nodes, rank)
    ensures Descends(CachesCleared(g).nodes, rank)
  {
    var h := CachesCleared(g);
    forall id | 0 <= id < |h.nodes| ensures NodeBelow(h.nodes[id], rank, rank(id)) { assert NodeBelow(g.nodes[id], rank, rank(id)); }
  }

  /** Whatever the device answers, no call on a graph that descends in some rank
      reports a cycle, however often it is read and written. */
  lemma {:induction false} NeverCircular(w: World, g: Graph, calls: seq<Call>, rank: Rank)
    requires g.visit == [] && Descends(g.nodes, rank)
    ensures Failed(Circular) !in PerformAll(w, g, calls).answers
    ensures Descends(PerformAll(w, g, calls).graph.nodes, rank)
    decreases |calls|
  {
    hide Descends, Perform;
    if calls != [] {
      NeverCircular(w, g, calls[..|calls| - 1], rank);
      CallStraight(w, PerformAll(w, g, calls[..|calls| - 1]).graph, calls[|calls| - 1], rank);
    }
  }

  // ------------------------------------------------------------- real cycles

  function NextIn(cycle: seq<NodeId>, i: nat): NodeId
    requires i < |cycle|
  {
    if i + 1 < |cycle| then cycle[i + 1] else cycle[0]
  }

  predicate Passes(nodes: seq<Node>, cycle: seq<NodeId>, i: nat)
    requires i < |cycle|
  {
    cycle[i] < |nodes| && nodes[cycle[i]].Feature? && nodes[cycle[i]].value == Reference(Id(NextIn(cycle, i)))
  }

  /** The nodes refer to one another in a circle. */
  ghost predicate Circle(nodes: seq<Node>, cycle: seq<NodeId>) {
    cycle != [] && Distinct(cycle) && forall i | 0 <= i < |cycle| :: Passes(nodes, cycle, i)
  }

  /** Reading a feature reads the one it refers to. */
  lemma Follows(w: World, g: Graph, id: NodeId, next: NodeId)
    requires Distinct(g.visit) && id < |g.nodes| && id !in g.visit && next < |g.nodes|
    requires g.nodes[id].Feature? && g.nodes[id].value == Reference(Id(next))
    ensures var o := IntValue(w, Entered(g, id), next); IntValue(w, g, id) == Outcome(Left(o.graph), o.result)
  {
    var h := Entered(g, id);
    assert IntInner(w, h, id) == RefInt(w, h, Reference(Id(next)));
  }

  lemma NextInside(g: Graph, cycle: seq<NodeId>, i: nat)
    requires Circle(g.nodes, cycle) && i < |cycle| && g.visit == cycle[..i]
    ensures var id, next := cycle[i], NextIn(cycle, i);
            && id < |g.nodes| && next < |g.nodes| && g.nodes[id].Feature? && g.nodes[id].value == Reference(Id(next))
            && id !in g.visit && Distinct(g.visit) && g.visit + [id] == cycle[..i + 1]
  {
    assert Passes(g.nodes, cycle, i) && Passes(g.nodes, cycle, 0);
    if i + 1 < |cycle| { assert Passes(g.nodes, cycle, i + 1); }
  }

  lemma {:induction false} CircleFrom(w: World, g: Graph, cycle: seq<NodeId>, i: nat)
    requires Circle(g.nodes, cycle) && i < |cycle| && g.visit == cycle[..i]
    ensures cycle[i] < |g.nodes| && Distinct(g.visit)
    ensures IntValue(w, g, cycle[i]) == Outcome(g.(visit := []), Err(Circular))
    decreases |cycle| - i
  {
    hide IntValue, Unvisited, Circle, Distinct;
    NextInside(g, cycle, i);
    var id, next := cycle[i], NextIn(cycle, i);
    Follows(w, g, id, next);
    var h := Entered(g, id);
    if i + 1 < |cycle| {
      CircleFrom(w, h, cycle, i + 1);
    } else {
      assert next == cycle[..i + 1][0];
      Met(w, h, next);
    }
  }

  lemma Met(w: World, g: Graph, id: NodeId)
    requires Distinct(g.visit) && id < |g.nodes| && id in g.visit
    ensures IntValue(w, g, id) == Outcome(g.(visit := []), Err(Circular))
  {
  }

  /** A circle of any length is reported, from any place in it. */
  lemma CircleReported(w: World, g: Graph, cycle: seq<NodeId>)
    requires Circle(g.nodes, cycle) && g.visit == []
    ensures cycle[0] < |g.nodes| && IntValue(w, g, cycle[0]) == Outcome(g, Err(Circular))
  {
    hide IntValue;
    CircleFrom(w, g, cycle, 0);
    assert g.(visit := []) == g;
  }
}
