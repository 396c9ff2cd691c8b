/** The GenICam node graph, integer features: references are followed from node to
    node down to registers, and a stack of the nodes being visited catches cycles. */
module NodeGraph {
  import opened Gvsp
  import opened BitFields

  type NodeId = nat

  /** A link to a node, or a name that was never resolved. */
  datatype Link = Id(id: NodeId) | Name

  /** Where a value comes from. `Fixed` is a literal that cannot be written, as a
      floating-point one; `Indexed` picks an entry by the index node's value. */
  datatype Ref =
    | Nothing
    | Literal(v: int)
    | Fixed(v: int)
    | Reference(link: Link)
    | Indexed(index: Link, entries: seq<(int, Ref)>, fallback: Ref)

  /** What a formula's variable stands for. */
  datatype Term = Builtin | Unbound | Variable(link: Link)

  /** A formula: whether it parses, its variables in order, and its key among the
      evaluations. */
  datatype Formula = Formula(key: nat, parses: bool, terms: seq<Term>)

  datatype AccessMode = RO | WO | RW
  datatype Cachable = NoCache | WriteThrough | WriteAround

  datatype Register = Register(
    terms: seq<Ref>, length: Ref, access: AccessMode, cachable: Cachable, cache: Option<Octets>,
    sign: Sign, endianness: Endianness, lsb: Option<nat>, msb: Option<nat>)

  datatype FeatureKind = Integer | Boolean | Enumeration

  /** `Plain` has no integer value. */
  datatype Node =
    | Feature(kind: FeatureKind, value: Ref)
    | Command(value: Ref, commandValue: Ref)
    | Reg(register: Register)
    | Converter(value: Ref, to: Formula, from: Formula)
    | SwissKnife(formula: Formula)
    | Plain

  datatype Error = Circular | Dangling | WrongType | Access | BadFormula | OutOfRange | PortFailed

  datatype Result<+T> = Ok(value: T) | Err(error: Error)

  datatype Transfer = ReadAt(address: nat, length: nat) | WriteAt(address: nat, bytes: Octets)

  /** What surrounds the graph: how the device answers a transfer, given all up to
      it; what formulas evaluate to; and which nodes a write invalidates. */
  datatype World = World(
    port: seq<Transfer> -> Option<Octets>, eval: (nat, seq<int>) -> Option<int>, invalidates: map<NodeId, seq<NodeId>>)

  datatype Graph = Graph(nodes: seq<Node>, visit: seq<NodeId>, log: seq<Transfer>)

  datatype Outcome<+T> = Outcome(graph: Graph, result: Result<T>)

  const MAX_REGISTER_LENGTH: nat := 16 * 0x10_0000

  // ------------------------------------------------------------- the visit stack

  predicate Distinct(visit: seq<NodeId>) { forall i, j | 0 <= i < j < |visit| :: visit[i] != visit[j] }

  function Unvisited(g: Graph): set<NodeId> { set i | 0 <= i < |g.nodes| && i !in g.visit }

  function Entered(g: Graph, id: NodeId): (h: Graph)
    requires id < |g.nodes| && id !in g.visit && Distinct(g.visit)
    ensures Distinct(h.visit) && Unvisited(h) < Unvisited(g)
  {
    assert id in Unvisited(g) && id !in Unvisited(g.(visit := g.visit + [id]));
    g.(visit := g.visit + [id])
  }

  function Left(g: Graph): Graph { if g.visit == [] then g else g.(visit := g.visit[..|g.visit| - 1]) }

  /** A result leaves the stack as it was; a cycle leaves it empty. */
  predicate Restores<T>(g: Graph, o: Outcome<T>) {
    && |o.graph.nodes| == |g.nodes|
    && o.graph.visit == if o.result.Err? && o.result.error.Circular? then [] else g.visit
  }

  function Fails<T>(g: Graph, e: Error): Outcome<T> { Outcome(g, Err(e)) }

  function Resolve(g: Graph, link: Link): (r: Option<NodeId>)
    ensures r.Some? ==> r.value < |g.nodes|
  {
    if link.Id? && link.id < |g.nodes| then Some(link.id) else None
  }

  function EntryAt(entries: seq<(int, Ref)>, at: int): (i: nat)
    ensures i <= |entries|
  {
    if entries == [] || entries[0].0 == at then 0 else 1 + EntryAt(entries[1..], at)
  }

  /** The entry the index selects, else the default. */
  function Pick(vr: Ref, at: int): (r: Ref)
    requires vr.Indexed?
    ensures r < vr
  {
    var i := EntryAt(vr.entries, at);
    if i < |vr.entries| then vr.entries[i].1 else vr.fallback
  }

  // ------------------------------------------------------------------- reading

  /** The entry an indexed value selects now. */
  function Selected(w: World, g: Graph, vr: Ref): (o: Outcome<Ref>)
    requires Distinct(g.visit) && vr.Indexed?
    ensures Restores(g, o) && (o.result.Ok? ==> o.result.value < vr)
    decreases Unvisited(g), 2, 0
  {
    match Resolve(g, vr.index)
    case None => Fails(g, Dangling)
    case Some(id) =>
      var at := IntValue(w, g, id);
      if at.result.Err? then Outcome(at.graph, Err(at.result.error)) else Outcome(at.graph, Ok(Pick(vr, at.result.value)))
  }

  function RefInt(w: World, g: Graph, vr: Ref): (o: Outcome<int>)
    requires Distinct(g.visit)
    ensures Restores(g, o)
    decreases Unvisited(g), 3, vr
  {
    match vr
    case Literal(v) => Outcome(g, Ok(v))
    case Fixed(v) => Outcome(g, Ok(v))
    case Nothing => Fails(g, WrongType)
    case Reference(link) =>
      (match Resolve(g, link)
       case None => Fails(g, Dangling)
       case Some(id) => IntValue(w, g, id))
    case Indexed(_, _, _) =>
      var entry := Selected(w, g, vr);
      if entry.result.Err? then Outcome(entry.graph, Err(entry.result.error))
      else RefInt(w, entry.graph, entry.result.value)
  }

  function IntValue(w: World, g: Graph, id: NodeId): (o: Outcome<int>)
    requires Distinct(g.visit) && id < |g.nodes|
    ensures Restores(g, o)
    decreases Unvisited(g), 1, 0
  {
    if id in g.visit then Fails(g.(visit := []), Circular)
    else
      var o := IntInner(w, Entered(g, id), id);
      Outcome(Left(o.graph), o.result)
  }

  function IntInner(w: World, g: Graph, id: NodeId): (o: Outcome<int>)
    requires Distinct(g.visit) && id < |g.nodes|
    ensures Restores(g, o)
    decreases Unvisited(g), 7, 0
  {
    match g.nodes[id]
    case Feature(_, value) => RefInt(w, g, value)
    case Reg(r) =>
      var bytes := RegisterRead(w, g, id);
      if bytes.result.Err? then Outcome(bytes.graph, Err(bytes.result.error))
      else
        (match ExtractInt(bytes.result.value, r.sign, r.endianness, r.lsb, r.msb)
         case None => Fails(bytes.graph, BadFormula)
         case Some(v) => Outcome(bytes.graph, Ok(v)))
    case Converter(value, _, from) =>
      var raw := RefInt(w, g, value);
      if raw.result.Err? then raw else EvalFormula(w, raw.graph, from, Some(raw.result.value))
    case SwissKnife(formula) => EvalFormula(w, g, formula, None)
    case _ => Fails(g, WrongType)
  }

  function EvalFormula(w: World, g: Graph, formula: Formula, builtin: Option<int>): (o: Outcome<int>)
    requires Distinct(g.visit)
    ensures Restores(g, o)
    decreases Unvisited(g), 5, 0
  {
    if !formula.parses then Fails(g, BadFormula)
    else
      var values := TermValues(w, g, formula.terms, builtin);
      if values.result.Err? then Outcome(values.graph, Err(values.result.error))
      else
        match w.eval(formula.key, values.result.value)
        case None => Fails(values.graph, BadFormula)
        case Some(v) => Outcome(values.graph, Ok(v))
  }

  /** The variables' values, in order. */
  function TermValues(w: World, g: Graph, terms: seq<Term>, builtin: Option<int>): (o: Outcome<seq<int>>)
    requires Distinct(g.visit)
    ensures Restores(g, o)
    decreases Unvisited(g), 4, |terms|
  {
    if terms == [] then Outcome(g, Ok([]))
    else
      var first := TermValue(w, g, terms[0], builtin);
      if first.result.Err? then Outcome(first.graph, Err(first.result.error))
      else
        var rest := TermValues(w, first.graph, terms[1..], builtin);
        if rest.result.Err? then rest else Outcome(rest.graph, Ok([first.result.value] + rest.result.value))
  }

  function TermValue(w: World, g: Graph, term: Term, builtin: Option<int>): (o: Outcome<int>)
    requires Distinct(g.visit)
    ensures Restores(g, o)
    decreases Unvisited(g), 2, 0
  {
    match term
    case Builtin => if builtin.Some? then Outcome(g, Ok(builtin.value)) else Fails(g, BadFormula)
    case Unbound => Fails(g, BadFormula)
    case Variable(link) =>
      match Resolve(g, link)
      case None => Fails(g, Dangling)
      case Some(id) => IntValue(w, g, id)
  }

  // ----------------------------------------------------------------- registers

  /** The address terms summed, wrapping. */
  function AddressSum(w: World, g: Graph, terms: seq<Ref>, sum: int): (o: Outcome<int>)
    requires Distinct(g.visit)
    ensures Restores(g, o)
    decreases Unvisited(g), 4, |terms|
  {
    if terms == [] then Outcome(g, Ok(sum))
    else
      var term := RefInt(w, g, terms[0]);
      if term.result.Err? then term
      else AddressSum(w, term.graph, terms[1..], AsSigned(AsWord(sum + term.result.value)))
  }

  function RegisterLength(w: World, g: Graph, length: Ref): (o: Outcome<nat>)
    requires Distinct(g.visit)
    ensures Restores(g, o)
    decreases Unvisited(g), 4, 0
  {
    if length.Nothing? then Outcome(g, Ok(4))
    else
      var o := RefInt(w, g, length);
      if o.result.Err? then Outcome(o.graph, Err(o.result.error))
      else if 0 <= o.result.value <= MAX_REGISTER_LENGTH then Outcome(o.graph, Ok(o.result.value))
      else Fails(o.graph, OutOfRange)
  }

  datatype Place = Place(address: nat, length: nat)

  function RegisterPlace(w: World, g: Graph, r: Register): (o: Outcome<Place>)
    requires Distinct(g.visit)
    ensures Restores(g, o)
    decreases Unvisited(g), 5, 0
  {
    var sum := AddressSum(w, g, r.terms, 0);
    if sum.result.Err? then Outcome(sum.graph, Err(sum.result.error))
    else
      var length := RegisterLength(w, sum.graph, r.length);
      if length.result.Err? then Outcome(length.graph, Err(length.result.error))
      else Outcome(length.graph, Ok(Place(AsWord(sum.result.value), length.result.value)))
  }

  function WithCache(g: Graph, id: NodeId, cache: Option<Octets>): (h: Graph)
    ensures |h.nodes| == |g.nodes| && h.visit == g.visit && h.log == g.log
  {
    if id < |g.nodes| && g.nodes[id].Reg? then
      g.(nodes := g.nodes[id := Reg(g.nodes[id].register.(cache := cache))])
    else g
  }

  function RegisterRead(w: World, g: Graph, id: NodeId): (o: Outcome<Octets>)
    requires Distinct(g.visit) && id < |g.nodes|
    ensures Restores(g, o)
    decreases Unvisited(g), 6, 0
  {
    if !g.nodes[id].Reg? then Fails(g, WrongType)
    else
      var r := g.nodes[id].register;
      if r.access.WO? then Fails(g, Access)
      else if !r.cachable.NoCache? && r.cache.Some? then Outcome(g, Ok(r.cache.value))
      else
        var place := RegisterPlace(w, g, r);
        if place.result.Err? then Outcome(place.graph, Err(place.result.error))
        else PortRead(w, place.graph, id, place.result.value)
  }

  predicate Remembers(node: Node) { node.Reg? && !node.register.cachable.NoCache? }
  predicate WritesThrough(node: Node) { node.Reg? && node.register.cachable.WriteThrough? }

  /** Reads the device and remembers the bytes where the register may be cached. */
  function PortRead(w: World, g: Graph, id: NodeId, place: Place): (o: Outcome<Octets>)
    requires id < |g.nodes|
    ensures Restores(g, o) && (o.result.Ok? ==> |o.result.value| == place.length)
  {
    var h := g.(log := g.log + [ReadAt(place.address, place.length)]);
    match w.port(h.log)
    case None => Fails(h, PortFailed)
    case Some(bytes) =>
      if |bytes| != place.length then Fails(h, PortFailed)
      else Outcome(if Remembers(g.nodes[id]) then WithCache(h, id, Some(bytes)) else h, Ok(bytes))
  }

  // ------------------------------------------------------------------- writing

  /** Clears the caches of the nodes a write invalidates. */
  function Invalidated(g: Graph, ids: seq<NodeId>): (h: Graph)
    ensures |h.nodes| == |g.nodes| && h.visit == g.visit && h.log == g.log
    decreases |ids|
  {
    if ids == [] then g else Invalidated(WithCache(g, ids[0], None), ids[1..])
  }

  function RegisterWrite(w: World, g: Graph, id: NodeId, bytes: Octets): (o: Outcome<()>)
    requires Distinct(g.visit) && id < |g.nodes|
    ensures Restores(g, o)
  {
    if !g.nodes[id].Reg? then Fails(g, WrongType)
    else if g.nodes[id].register.access.RO? then Fails(g, Access)
    else
      var place := RegisterPlace(w, g, g.nodes[id].register);
      if place.result.Err? then Outcome(place.graph, Err(place.result.error))
      else PortWrite(w, place.graph, id, place.result.value.address, bytes)
  }

  function PortWrite(w: World, g: Graph, id: NodeId, address: nat, bytes: Octets): (o: Outcome<()>)
    requires id < |g.nodes|
    ensures Restores(g, o)
  {
    var h := g.(log := g.log + [WriteAt(address, bytes)]);
    if w.port(h.log).None? then Fails(h, PortFailed)
    else
      var own := WithCache(h, id, if WritesThrough(g.nodes[id]) then Some(bytes) else None);
      Outcome(if id in w.invalidates then Invalidated(own, w.invalidates[id]) else own, Ok(()))
  }

  function SetIntValue(w: World, g: Graph, id: NodeId, v: int): (o: Outcome<()>)
    requires Distinct(g.visit) && id < |g.nodes|
    ensures Restores(g, o)
    decreases Unvisited(g), 1, 0
  {
    if id in g.visit then Fails(g.(visit := []), Circular)
    else
      var o := SetInner(w, Entered(g, id), id, v);
      Outcome(Left(o.graph), o.result)
  }

  function SetInner(w: World, g: Graph, id: NodeId, v: int): (o: Outcome<()>)
    requires Distinct(g.visit) && id < |g.nodes|
    ensures Restores(g, o)
    decreases Unvisited(g), 8, 0
  {
    match g.nodes[id]
    case Feature(_, value) => SetRefInt(w, g, id, value, v)
    case Command(value, _) => SetRefInt(w, g, id, value, v)
    case Reg(r) => SetRegister(w, g, id, v)
    case Converter(value, to, _) =>
      var out := EvalFormula(w, g, to, Some(v));
      if out.result.Err? then Outcome(out.graph, Err(out.result.error))
      else SetTarget(w, out.graph, value, out.result.value)
    case _ => Fails(g, WrongType)
  }

  /** Writes an integer register; a masked field is read, changed and written. */
  function SetRegister(w: World, g: Graph, id: NodeId, v: int): (o: Outcome<()>)
    requires Distinct(g.visit) && id < |g.nodes| && g.nodes[id].Reg?
    ensures Restores(g, o)
    decreases Unvisited(g), 7, 0
  {
    var r := g.nodes[id].register;
    var length := RegisterLength(w, g, r.length);
    if length.result.Err? then Outcome(length.graph, Err(length.result.error))
    else if r.lsb.Some? || r.msb.Some? then
      var current := RegisterRead(w, length.graph, id);
      if current.result.Err? then Outcome(current.graph, Err(current.result.error))
      else
        (match InsertInt(current.result.value, v, r.endianness, r.lsb, r.msb)
         case None => Fails(current.graph, BadFormula)
         case Some(bytes) => RegisterWrite(w, current.graph, id, bytes))
    else
      match EncodeInt(v, length.result.value, r.endianness)
      case None => Fails(length.graph, BadFormula)
      case Some(bytes) => RegisterWrite(w, length.graph, id, bytes)
  }

  /** A literal is written in place; a link is followed. */
  function SetRefInt(w: World, g: Graph, id: NodeId, vr: Ref, v: int): (o: Outcome<()>)
    requires Distinct(g.visit) && id < |g.nodes|
    ensures Restores(g, o)
    decreases Unvisited(g), 5, 0
  {
    if vr.Literal? then Outcome(WithLiteral(g, id, v), Ok(()))
    else SetTarget(w, g, vr, v)
  }

  function WithLiteral(g: Graph, id: NodeId, v: int): (h: Graph)
    requires id < |g.nodes|
    ensures |h.nodes| == |g.nodes| && h.visit == g.visit && h.log == g.log
  {
    match g.nodes[id]
    case Feature(kind, _) => g.(nodes := g.nodes[id := Feature(kind, Literal(v))])
    case Command(_, commandValue) => g.(nodes := g.nodes[id := Command(Literal(v), commandValue)])
    case _ => g
  }

  /** Writes the node a reference leads to; anything else cannot be written. */
  function SetTarget(w: World, g: Graph, vr: Ref, v: int): (o: Outcome<()>)
    requires Distinct(g.visit)
    ensures Restores(g, o)
    decreases Unvisited(g), 4, 0
  {
    match vr
    case Reference(link) => SetLink(w, g, link, v)
    case Indexed(_, _, _) =>
      var entry := Selected(w, g, vr);
      if entry.result.Err? then Outcome(entry.graph, Err(entry.result.error))
      else if entry.result.value.Reference? then SetLink(w, entry.graph, entry.result.value.link, v)
      else Fails(entry.graph, Access)
    case _ => Fails(g, Access)
  }

  function SetLink(w: World, g: Graph, link: Link, v: int): (o: Outcome<()>)
    requires Distinct(g.visit)
    ensures Restores(g, o)
    decreases Unvisited(g), 2, 0
  {
    match Resolve(g, link)
    case None => Fails(g, Dangling)
    case Some(id) => SetIntValue(w, g, id, v)
  }

  /** Runs a command: its command value, 1 when it has none, is written. */
  function Execute(w: World, g: Graph, id: NodeId): (o: Outcome<()>)
    requires Distinct(g.visit) && id < |g.nodes|
    ensures Restores(g, o)
  {
    if !g.nodes[id].Command? then Fails(g, WrongType)
    else
      var (value, commandValue) := (g.nodes[id].value, g.nodes[id].commandValue);
      if commandValue.Nothing? then SetRefInt(w, g, id, value, 1)
      else
        var v := RefInt(w, g, commandValue);
        if v.result.Err? then Outcome(v.graph, Err(v.result.error))
        else SetRefInt(w, v.graph, id, value, v.result.value)
  }

  function CachesCleared(g: Graph): (h: Graph)
    ensures |h.nodes| == |g.nodes| && h.visit == g.visit && h.log == g.log
    ensures forall i | 0 <= i < |g.nodes| ::
              h.nodes[i] == if g.nodes[i].Reg? then Reg(g.nodes[i].register.(cache := None)) else g.nodes[i]
  {
    g.(nodes := seq(|g.nodes|, i requires 0 <= i < |g.nodes| =>
         if g.nodes[i].Reg? then Reg(g.nodes[i].register.(cache := None)) else g.nodes[i]))
  }
}
