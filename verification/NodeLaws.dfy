/** Laws of the node graph in terms of public reads and writes alone: what a node
    gives is told by what the nodes it names give. */
module NodeLaws {
  import opened Gvsp
  import opened BitFields
  import opened NodeGraph
  import opened FieldBits
  import opened Circularity
  import opened Caching
  import opened NodeMeaning
  import opened NodeValues

  // ------------------------------------------------------------------- reading

  /** Reading the node a link names. */
  function Linked(w: World, g: Graph, link: Link): Result<int>
    requires g.visit == []
  {
    if link.Id? && link.id < |g.nodes| then IntValue(w, g, link.id).result else Err(Dangling)
  }

  /** What a reference gives: its literal, the node it names, or what the first entry
      under the index's value gives, and the default where there is none. */
  ghost function Reading(w: World, g: Graph, vr: Ref): Result<int>
    requires g.visit == []
    decreases vr
  {
    match vr
    case Nothing => Err(WrongType)
    case Literal(v) => Ok(v)
    case Fixed(v) => Ok(v)
    case Reference(link) => Linked(w, g, link)
    case Indexed(index, _, _) =>
      var at := Linked(w, g, index);
      if at.Ok? then Reading(w, g, Chosen(vr, at.value)) else at
  }

  /** A formula's variable gives `x`. */
  ghost predicate Gives(w: World, g: Graph, term: Term, builtin: Option<int>, x: int)
    requires g.visit == []
  {
    match term
    case Builtin => builtin == Some(x)
    case Unbound => false
    case Variable(link) => Linked(w, g, link) == Ok(x)
  }

  /** The formula's variables give `xs`, in order. */
  ghost predicate GiveAll(w: World, g: Graph, formula: Formula, builtin: Option<int>, xs: seq<int>)
    requires g.visit == []
  {
    && formula.parses && |xs| == |formula.terms|
    && forall i | 0 <= i < |xs| :: Gives(w, g, formula.terms[i], builtin, xs[i])
  }

  lemma LinkedIs(w: World, mem: Octets, g: Graph, link: Link, n: nat)
    requires Idle(w, mem, g) && n >= |g.nodes|
    ensures Linked(w, g, link) == LinkValue(SeenBy(w, mem, g), n, link)
  {
    hide MemoryLike, MemoryAfter, Bare, IntValue, ValueOf;
    if link.Id? && link.id < |g.nodes| { ReadsValue(w, mem, g, link.id, n); }
  }

  lemma {:induction false} ReadingIs(w: World, mem: Octets, g: Graph, vr: Ref, n: nat)
    requires Idle(w, mem, g) && n >= |g.nodes|
    ensures Reading(w, g, vr) == RefValue(SeenBy(w, mem, g), n, vr)
    decreases vr
  {
    hide MemoryLike, MemoryAfter, Bare, Linked, LinkValue, Chosen;
    match vr
    case Reference(link) => LinkedIs(w, mem, g, link, n);
    case Indexed(index, _, _) =>
      LinkedIs(w, mem, g, index, n);
      var at := Linked(w, g, index);
      if at.Ok? { ReadingIs(w, mem, g, Chosen(vr, at.value), n); }
    case _ =>
  }

  lemma {:induction false} TermsGiven(w: World, mem: Octets, g: Graph, terms: seq<Term>, builtin: Option<int>, xs: seq<int>, n: nat)
    requires Idle(w, mem, g) && n >= |g.nodes| && |xs| == |terms|
    requires forall i | 0 <= i < |xs| :: Gives(w, g, terms[i], builtin, xs[i])
    ensures TermMeanings(SeenBy(w, mem, g), n, terms, builtin) == Ok(xs)
    decreases |terms|
  {
    hide MemoryLike, MemoryAfter, Bare, Linked, LinkValue;
    if terms != [] {
      assert Gives(w, g, terms[0], builtin, xs[0]);
      if terms[0].Variable? { LinkedIs(w, mem, g, terms[0].link, n); }
      TermsGiven(w, mem, g, terms[1..], builtin, xs[1..], n);
      assert [xs[0]] + xs[1..] == xs;
    }
  }

  lemma FormulaGiven(w: World, mem: Octets, g: Graph, formula: Formula, builtin: Option<int>, xs: seq<int>, n: nat)
    requires Idle(w, mem, g) && n >= |g.nodes| && GiveAll(w, g, formula, builtin, xs)
    ensures FormulaValue(SeenBy(w, mem, g), n, formula, builtin) == Known(w.eval(formula.key, xs))
  {
    hide MemoryLike, MemoryAfter, Bare, Gives, TermMeanings;
    TermsGiven(w, mem, g, formula.terms, builtin, xs, n);
  }

  /** A feature reads as its value: through an index, the first entry under the index
      node's value, else the default. */
  lemma FeatureReads(w: World, mem: Octets, g: Graph, id: NodeId)
    requires Idle(w, mem, g) && id < |g.nodes| && g.nodes[id].Feature?
    ensures IntValue(w, g, id).result == Reading(w, g, g.nodes[id].value)
  {
    hide MemoryLike, MemoryAfter, Bare, IntValue, Reading, RefValue;
    ReadsValue(w, mem, g, id, |g.nodes| + 1);
    ReadingIs(w, mem, g, g.nodes[id].value, |g.nodes|);
  }

  /** A converter reads as `from` of what it converts. */
  lemma ConverterReads(w: World, mem: Octets, g: Graph, id: NodeId, x: int, xs: seq<int>)
    requires Idle(w, mem, g) && id < |g.nodes| && g.nodes[id].Converter?
    requires Reading(w, g, g.nodes[id].value) == Ok(x) && GiveAll(w, g, g.nodes[id].from, Some(x), xs)
    ensures IntValue(w, g, id).result == Known(w.eval(g.nodes[id].from.key, xs))
  {
    hide MemoryLike, MemoryAfter, Bare, IntValue, Reading, RefValue, FormulaValue, GiveAll;
    ReadsValue(w, mem, g, id, |g.nodes| + 1);
    ReadingIs(w, mem, g, g.nodes[id].value, |g.nodes|);
    FormulaGiven(w, mem, g, g.nodes[id].from, Some(x), xs, |g.nodes|);
  }

  /** A formula node reads as the formula of its variables, in order. */
  lemma SwissKnifeReads(w: World, mem: Octets, g: Graph, id: NodeId, xs: seq<int>)
    requires Idle(w, mem, g) && id < |g.nodes| && g.nodes[id].SwissKnife? && GiveAll(w, g, g.nodes[id].formula, None, xs)
    ensures IntValue(w, g, id).result == Known(w.eval(g.nodes[id].formula.key, xs))
  {
    hide MemoryLike, MemoryAfter, Bare, IntValue, FormulaValue, GiveAll;
    ReadsValue(w, mem, g, id, |g.nodes| + 1);
    FormulaGiven(w, mem, g, g.nodes[id].formula, None, xs, |g.nodes|);
  }

  lemma {:induction false} RefsGiven(w: World, mem: Octets, g: Graph, refs: seq<Ref>, xs: seq<int>, n: nat)
    requires Idle(w, mem, g) && n >= |g.nodes| && |xs| == |refs|
    requires forall i | 0 <= i < |xs| :: Reading(w, g, refs[i]) == Ok(xs[i])
    ensures RefValues(SeenBy(w, mem, g), n, refs) == Ok(xs)
    decreases |refs|
  {
    hide MemoryLike, MemoryAfter, Bare, Reading, RefValue;
    if refs != [] {
      ReadingIs(w, mem, g, refs[0], n);
      RefsGiven(w, mem, g, refs[1..], xs[1..], n);
      assert [xs[0]] + xs[1..] == xs;
    }
  }

  /** A register lies at the sum of all its address terms, as 64 bits, with its length,
      or 4 where none is given; there its field is read. */
  lemma RegisterReads(w: World, mem: Octets, g: Graph, id: NodeId, xs: seq<int>, length: nat)
    requires Idle(w, mem, g) && id < |g.nodes| && g.nodes[id].Reg? && !g.nodes[id].register.access.WO?
    requires var r := g.nodes[id].register;
             && |xs| == |r.terms| && (forall i | 0 <= i < |xs| :: Reading(w, g, r.terms[i]) == Ok(xs[i]))
             && if r.length.Nothing? then length == 4 else length <= MAX_REGISTER_LENGTH && Reading(w, g, r.length) == Ok(length)
    ensures var r, m, a := g.nodes[id].register, MemoryAfter(mem, g.log), Sum(xs) % WORD;
            IntValue(w, g, id).result == if a + length <= |m| then Known(Extracted(r, m[a..a + length])) else Err(PortFailed)
  {
    hide MemoryLike, MemoryAfter, Bare, IntValue, Reading, RefValue, RefValues, Extracted, Sum;
    var r := g.nodes[id].register;
    ReadsValue(w, mem, g, id, |g.nodes| + 1);
    RefsGiven(w, mem, g, r.terms, xs, |g.nodes|);
    if !r.length.Nothing? { ReadingIs(w, mem, g, r.length, |g.nodes|); }
    assert PlaceValue(SeenBy(w, mem, g), |g.nodes|, r) == Ok(Place(Sum(xs) % WORD, length));
  }

  // ------------------------------------------------------------------- writing

  /** The same answer, the same nodes and the same device. */
  ghost predicate SameWrite(mem: Octets, a: Outcome<()>, b: Outcome<()>) {
    a.result == b.result && a.graph.nodes == b.graph.nodes && MemoryAfter(mem, a.graph.log) == MemoryAfter(mem, b.graph.log)
  }

  lemma SameLanding(w: World, mem: Octets, g: Graph, id: NodeId, v: int, t: NodeId, x: int, rank: Rank)
    requires Idle(w, mem, g) && id < |g.nodes| && t < |g.nodes| && Descends(g.nodes, rank)
    requires var s := SeenBy(w, mem, g); Lands(s, |g.nodes| + 1, id, v) == Lands(s, |g.nodes|, t, x)
    ensures SameWrite(mem, SetIntValue(w, g, id, v), SetIntValue(w, g, t, x))
  {
    hide MemoryLike, MemoryAfter, Bare, SetIntValue, Lands, Applied, Descends;
    WritesEffect(w, mem, g, id, v, |g.nodes| + 1, rank);
    WritesEffect(w, mem, g, t, x, |g.nodes|, rank);
  }

  /** The node a reference leads to now, if it can be written through. */
  ghost function Target(w: World, g: Graph, vr: Ref): (t: Result<NodeId>)
    requires g.visit == []
    ensures t.Ok? ==> t.value < |g.nodes|
  {
    var to := if vr.Indexed? && Linked(w, g, vr.index).Ok? then Chosen(vr, Linked(w, g, vr.index).value) else vr;
    if vr.Indexed? && Linked(w, g, vr.index).Err? then Err(Linked(w, g, vr.index).error)
    else if !to.Reference? then Err(Access)
    else if to.link.Id? && to.link.id < |g.nodes| then Ok(to.link.id)
    else Err(Dangling)
  }

  lemma TargetIs(w: World, mem: Octets, g: Graph, vr: Ref, v: int, n: nat)
    requires Idle(w, mem, g) && n >= |g.nodes|
    ensures var t := Target(w, g, vr);
            LandsAt(SeenBy(w, mem, g), n, vr, v) == if t.Ok? then Lands(SeenBy(w, mem, g), n, t.value, v) else Err(t.error)
  {
    hide MemoryLike, MemoryAfter, Bare, Linked, LinkValue, Chosen, Lands;
    if vr.Indexed? { LinkedIs(w, mem, g, vr.index, n); }
  }

  /** Writing a feature or a command that holds a reference writes the node it leads
      to, chosen as for reading; where there is none the write fails and changes
      nothing. */
  lemma FeatureWrites(w: World, mem: Octets, g: Graph, id: NodeId, v: int, rank: Rank)
    requires Idle(w, mem, g) && id < |g.nodes| && Descends(g.nodes, rank)
    requires (g.nodes[id].Feature? || g.nodes[id].Command?) && !g.nodes[id].value.Literal?
    ensures var t, o := Target(w, g, g.nodes[id].value), SetIntValue(w, g, id, v);
            if t.Ok? then SameWrite(mem, o, SetIntValue(w, g, t.value, v))
            else o.result == Err(t.error) && o.graph.nodes == g.nodes && MemoryAfter(mem, o.graph.log) == MemoryAfter(mem, g.log)
  {
    hide MemoryLike, MemoryAfter, Bare, SetIntValue, Target, LandsAt, Descends;
    var vr := g.nodes[id].value;
    TargetIs(w, mem, g, vr, v, |g.nodes|);
    var t := Target(w, g, vr);
    if t.Ok? { SameLanding(w, mem, g, id, v, t.value, v, rank); } else { WritesEffect(w, mem, g, id, v, |g.nodes| + 1, rank); }
  }

  /** A literal is replaced in place, and only it. */
  lemma LiteralWrites(w: World, mem: Octets, g: Graph, id: NodeId, v: int, rank: Rank)
    requires Idle(w, mem, g) && id < |g.nodes| && Descends(g.nodes, rank)
    requires g.nodes[id].Feature? && g.nodes[id].value.Literal?
    ensures var o := SetIntValue(w, g, id, v);
            && o.result == Ok(()) && o.graph.nodes == g.nodes[id := Feature(g.nodes[id].kind, Literal(v))]
            && o.graph.visit == [] && IntValue(w, o.graph, id).result == Ok(v) && MemoryAfter(mem, o.graph.log) == MemoryAfter(mem, g.log)
  {
    hide MemoryLike, MemoryAfter, Bare, SetIntValue, IntValue, Descends;
    WritesEffect(w, mem, g, id, v, |g.nodes| + 1, rank);
    FeatureReads(w, mem, SetIntValue(w, g, id, v).graph, id);
  }

  /** Writing a converter writes `to` of the value to what it converts. */
  lemma ConverterWrites(w: World, mem: Octets, g: Graph, id: NodeId, v: int, xs: seq<int>, rank: Rank)
    requires Idle(w, mem, g) && id < |g.nodes| && Descends(g.nodes, rank) && g.nodes[id].Converter?
    requires GiveAll(w, g, g.nodes[id].to, Some(v), xs)
    ensures var x, t, o := w.eval(g.nodes[id].to.key, xs), Target(w, g, g.nodes[id].value), SetIntValue(w, g, id, v);
            if x.Some? && t.Ok? then SameWrite(mem, o, SetIntValue(w, g, t.value, x.value))
            else o.result == Err(if x.None? then BadFormula else t.error)
                 && o.graph.nodes == g.nodes && MemoryAfter(mem, o.graph.log) == MemoryAfter(mem, g.log)
  {
    hide MemoryLike, MemoryAfter, Bare, SetIntValue, Target, LandsAt, Descends, FormulaValue, GiveAll;
    var vr, to := g.nodes[id].value, g.nodes[id].to;
    FormulaGiven(w, mem, g, to, Some(v), xs, |g.nodes|);
    var x := w.eval(to.key, xs);
    if x.Some? { TargetIs(w, mem, g, vr, x.value, |g.nodes|); }
    var t := Target(w, g, vr);
    if x.Some? && t.Ok? { SameLanding(w, mem, g, id, v, t.value, x.value, rank); } else { WritesEffect(w, mem, g, id, v, |g.nodes| + 1, rank); }
  }

  /** Where `from` undoes `to`, and what is converted holds what is written to it, a
      value written to a converter is read back from it. */
  lemma ConverterRoundTrip(w: World, mem: Octets, g: Graph, id: NodeId, v: int, x: int, xs: seq<int>, ys: seq<int>, rank: Rank)
    requires Idle(w, mem, g) && id < |g.nodes| && Descends(g.nodes, rank) && g.nodes[id].Converter?
    requires GiveAll(w, g, g.nodes[id].to, Some(v), xs) && w.eval(g.nodes[id].to.key, xs) == Some(x)
    requires w.eval(g.nodes[id].from.key, ys) == Some(v)
    requires var t := Target(w, g, g.nodes[id].value);
             && t.Ok?
             && var h := SetIntValue(w, g, t.value, x);
             && h.result == Ok(()) && h.graph.visit == [] && Reading(w, h.graph, g.nodes[id].value) == Ok(x)
             && GiveAll(w, h.graph, g.nodes[id].from, Some(x), ys)
    ensures var o := SetIntValue(w, g, id, v); o.result == Ok(()) && o.graph.visit == [] && IntValue(w, o.graph, id).result == Ok(v)
  {
    hide MemoryLike, MemoryAfter, Bare, SetIntValue, IntValue, Target, Descends, Lands, Applied, GiveAll, Reading;
    var t := Target(w, g, g.nodes[id].value).value;
    var o, h := SetIntValue(w, g, id, v), SetIntValue(w, g, t, x);
    ConverterWrites(w, mem, g, id, v, xs, rank);
    WritesEffect(w, mem, g, id, v, |g.nodes|, rank);
    WritesEffect(w, mem, g, t, x, |g.nodes|, rank);
    KeepsConverter(SeenBy(w, mem, g), Lands(SeenBy(w, mem, g), |g.nodes|, t, x), id);
    ConverterReads(w, mem, h.graph, id, x, ys);
    SameRead(w, mem, o.graph, h.graph, id);
  }

  lemma KeepsConverter(s: Scene, effect: Result<Effect>, id: NodeId)
    requires id < |s.nodes| && s.nodes[id].Converter?
    ensures |Applied(s, effect).nodes| == |s.nodes| && Applied(s, effect).nodes[id] == s.nodes[id]
  {
  }

  /** What a read gives depends on the nodes and the device alone. */
  lemma SameRead(w: World, mem: Octets, g: Graph, h: Graph, id: NodeId)
    requires Idle(w, mem, g) && Idle(w, mem, h) && id < |g.nodes| && SeenBy(w, mem, g) == SeenBy(w, mem, h)
    ensures |h.nodes| == |g.nodes| && IntValue(w, g, id).result == IntValue(w, h, id).result
  {
    hide MemoryLike, MemoryAfter, Bare, IntValue, ValueOf;
    ReadsValue(w, mem, g, id, |g.nodes|);
    ReadsValue(w, mem, h, id, |g.nodes|);
  }

  /** Running a command writes its command value, or 1 where it has none, through the
      reference it holds, or in place where it holds a literal. */
  lemma CommandRuns(w: World, mem: Octets, g: Graph, id: NodeId, x: int, rank: Rank)
    requires Idle(w, mem, g) && id < |g.nodes| && Descends(g.nodes, rank) && g.nodes[id].Command?
    requires var c := g.nodes[id].commandValue; if c.Nothing? then x == 1 else Reading(w, g, c) == Ok(x)
    ensures var o, value, t := Execute(w, g, id), g.nodes[id].value, Target(w, g, g.nodes[id].value);
            if value.Literal? then
              && o.result == Ok(()) && o.graph.nodes == g.nodes[id := Command(Literal(x), g.nodes[id].commandValue)]
              && MemoryAfter(mem, o.graph.log) == MemoryAfter(mem, g.log)
            else if t.Ok? then SameWrite(mem, o, SetIntValue(w, g, t.value, x))
            else o.result == Err(t.error) && o.graph.nodes == g.nodes && MemoryAfter(mem, o.graph.log) == MemoryAfter(mem, g.log)
  {
    hide MemoryLike, MemoryAfter, Bare, Execute, SetIntValue, Target, LandsAt, Lands, Descends, Reading, RefValue;
    var s, n, value, c := SeenBy(w, mem, g), |g.nodes|, g.nodes[id].value, g.nodes[id].commandValue;
    if !c.Nothing? { ReadingIs(w, mem, g, c, n); }
    RunsEffect(w, mem, g, id, n, rank);
    TargetIs(w, mem, g, value, x, n);
    var t := Target(w, g, value);
    if t.Ok? { WritesEffect(w, mem, g, t.value, x, n, rank); }
  }
}
