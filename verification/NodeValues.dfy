/** Evaluating the node graph gives what its nodes stand for: values, writes and
    commands, with the device as memory and, where they can be trusted, caches. */
module NodeValues {
  import opened Gvsp
  import opened BitFields
  import opened NodeGraph
  import opened FieldBits
  import opened Circularity
  import opened Caching
  import opened NodeMeaning

  ghost predicate Bare(nodes: seq<Node>) {
    forall i | 0 <= i < |nodes| && nodes[i].Reg? :: nodes[i].register.cachable.NoCache? && nodes[i].register.cache.None?
  }

  /** The graph, uncached, as it stands is the scene. */
  ghost predicate Shows(w: World, mem: Octets, g: Graph, s: Scene) {
    && MemoryLike(w, mem) && s.eval == w.eval && s.nodes == g.nodes && s.mem == MemoryAfter(mem, g.log)
    && Distinct(g.visit) && Bare(g.nodes)
  }

  function SeenBy(w: World, mem: Octets, g: Graph): Scene { Scene(w.eval, g.nodes, MemoryAfter(mem, g.log)) }

  /** To depth `n` there is room for every node not being visited (`wide`); or else
      the nodes being visited have no value to that depth. */
  ghost predicate Room(s: Scene, visit: seq<NodeId>, n: nat, wide: bool) {
    if wide then |Unvisited(Graph(s.nodes, visit, []))| <= n
    else forall i | i in visit :: ValueOf(s, n, i) == Err(Circular)
  }

  /** The outcome is the meaning: when there is an outcome (`wide`), or a meaning. */
  ghost predicate Means<T>(w: World, mem: Octets, s: Scene, o: Outcome<T>, meaning: Result<T>, wide: bool) {
    (if wide then o.result != Err(Circular) else meaning != Err(Circular)) ==> o.result == meaning && Shows(w, mem, o.graph, s)
  }

  // --------------------------------------------------------------------- depth

  lemma Smaller(a: set<NodeId>, b: set<NodeId>)
    requires a < b
    ensures |a| < |b|
  {
    var x :| x in b && x !in a;
    assert |a| <= |b - {x}| by { AtMost(a, b - {x}); }
  }

  lemma {:induction false} AtMost(a: set<NodeId>, b: set<NodeId>)
    requires a <= b
    ensures |a| <= |b|
    decreases a
  {
    if a != {} {
      var x :| x in a;
      AtMost(a - {x}, b - {x});
    }
  }

  lemma {:induction false} AllUnvisited(nodes: seq<Node>)
    ensures |Unvisited(Graph(nodes, [], []))| == |nodes|
  {
    if nodes != [] {
      var last := |nodes| - 1;
      AllUnvisited(nodes[..last]);
      assert Unvisited(Graph(nodes, [], [])) == Unvisited(Graph(nodes[..last], [], [])) + {last};
    }
  }

  lemma StartRoom(s: Scene, n: nat, wide: bool)
    requires n >= |s.nodes|
    ensures Room(s, [], n, wide)
  {
    AllUnvisited(s.nodes);
  }

  lemma WideEntered(s: Scene, g: Graph, id: NodeId, n: nat)
    requires s.nodes == g.nodes && id < |g.nodes| && id !in g.visit && Distinct(g.visit) && Room(s, g.visit, n, true)
    ensures n > 0 && Room(s, Entered(g, id).visit, n - 1, true)
  {
    var a, b := Unvisited(Graph(s.nodes, Entered(g, id).visit, [])), Unvisited(Graph(s.nodes, g.visit, []));
    assert a == Unvisited(Entered(g, id)) && b == Unvisited(g);
    Smaller(a, b);
  }

  lemma {:induction false} Least(s: Scene, n: nat, id: NodeId) returns (k: nat)
    requires ValueOf(s, n, id) != Err(Circular)
    ensures 0 < k <= n && ValueOf(s, k, id) == ValueOf(s, n, id) && ValueOf(s, k - 1, id) == Err(Circular)
  {
    k := n;
    assert k > 0;
    if ValueOf(s, n - 1, id) != Err(Circular) {
      ValueDeeper(s, n - 1, n, id);
      k := Least(s, n - 1, id);
    }
  }

  lemma NarrowEntered(s: Scene, visit: seq<NodeId>, id: NodeId, n: nat, k: nat)
    requires Room(s, visit, n, false) && 0 < k <= n && ValueOf(s, k - 1, id) == Err(Circular)
    ensures Room(s, visit + [id], k - 1, false)
  {
    forall i | i in visit + [id] ensures ValueOf(s, k - 1, i) == Err(Circular) {
      if i != id && ValueOf(s, k - 1, i) != Err(Circular) { ValueDeeper(s, k - 1, n, i); }
    }
  }

  // ------------------------------------------------------------------- reading

  lemma {:induction false} IntValueMeans(w: World, mem: Octets, g: Graph, s: Scene, n: nat, id: NodeId, wide: bool)
    requires Shows(w, mem, g, s) && Room(s, g.visit, n, wide) && id < |g.nodes|
    ensures Means(w, mem, s, IntValue(w, g, id), ValueOf(s, n, id), wide)
    decreases n, 1
  {
    hide MemoryLike, MemoryAfter, Bare, IntInner, ValueOf, Unvisited;
    if id in g.visit {
    } else if wide {
      WideEntered(s, g, id, n);
      IntInnerMeans(w, mem, Entered(g, id), s, n - 1, id, wide);
    } else if ValueOf(s, n, id) != Err(Circular) {
      var k := Least(s, n, id);
      NarrowEntered(s, g.visit, id, n, k);
      IntInnerMeans(w, mem, Entered(g, id), s, k - 1, id, wide);
    }
  }

  lemma {:induction false} IntInnerMeans(w: World, mem: Octets, g: Graph, s: Scene, n: nat, id: NodeId, wide: bool)
    requires Shows(w, mem, g, s) && Room(s, g.visit, n, wide) && id < |g.nodes|
    ensures Means(w, mem, s, IntInner(w, g, id), ValueOf(s, n + 1, id), wide)
    decreases n, 8
  {
    hide MemoryLike, MemoryAfter, Bare, Room, RefInt, EvalFormula, RegisterRead, RefValue, FormulaValue, Content, ExtractInt, Distinct;
    match g.nodes[id]
    case Feature(_, value) => RefIntMeans(w, mem, g, s, n, value, wide);
    case Reg(r) => RegisterReadMeans(w, mem, g, s, n, id, wide);
    case Converter(value, _, from) =>
      RefIntMeans(w, mem, g, s, n, value, wide);
      var raw := RefInt(w, g, value);
      if raw.result.Ok? && RefValue(s, n, value) == raw.result { FormulaMeans(w, mem, raw.graph, s, n, from, Some(raw.result.value), wide); }
    case SwissKnife(formula) => FormulaMeans(w, mem, g, s, n, formula, None, wide);
    case _ =>
  }

  lemma {:induction false} LinkMeans(w: World, mem: Octets, g: Graph, s: Scene, n: nat, link: Link, wide: bool)
    requires Shows(w, mem, g, s) && Room(s, g.visit, n, wide)
    ensures Resolve(g, link).None? ==> LinkValue(s, n, link) == Err(Dangling)
    ensures Resolve(g, link).Some? ==> Means(w, mem, s, IntValue(w, g, link.id), LinkValue(s, n, link), wide)
    decreases n, 2
  {
    hide MemoryLike, MemoryAfter, Bare, Room, IntValue, ValueOf, Distinct;
    if Resolve(g, link).Some? { IntValueMeans(w, mem, g, s, n, link.id, wide); }
  }

  lemma {:induction false} SelectedMeans(w: World, mem: Octets, g: Graph, s: Scene, n: nat, vr: Ref, wide: bool)
    requires Shows(w, mem, g, s) && Room(s, g.visit, n, wide) && vr.Indexed?
    ensures var at := LinkValue(s, n, vr.index);
            Means(w, mem, s, Selected(w, g, vr), if at.Ok? then Ok(Chosen(vr, at.value)) else Err(at.error), wide)
    decreases n, 3
  {
    hide MemoryLike, MemoryAfter, Bare, Room, IntValue, LinkValue, Distinct, Pick, Chosen;
    LinkMeans(w, mem, g, s, n, vr.index, wide);
    if LinkValue(s, n, vr.index).Ok? { PickIsFirst(vr, LinkValue(s, n, vr.index).value); }
  }

  lemma {:induction false} RefIntMeans(w: World, mem: Octets, g: Graph, s: Scene, n: nat, vr: Ref, wide: bool)
    requires Shows(w, mem, g, s) && Room(s, g.visit, n, wide)
    ensures Means(w, mem, s, RefInt(w, g, vr), RefValue(s, n, vr), wide)
    decreases n, 4, vr
  {
    hide MemoryLike, MemoryAfter, Bare, Room, IntValue, LinkValue, Distinct, Selected, Chosen;
    match vr
    case Reference(link) => LinkMeans(w, mem, g, s, n, link, wide);
    case Indexed(index, _, _) =>
      SelectedMeans(w, mem, g, s, n, vr, wide);
      var entry := Selected(w, g, vr);
      if entry.result.Ok? && LinkValue(s, n, index).Ok? && entry.result.value == Chosen(vr, LinkValue(s, n, index).value) && Shows(w, mem, entry.graph, s) {
        RefIntMeans(w, mem, entry.graph, s, n, entry.result.value, wide);
      }
    case _ =>
  }

  lemma {:induction false} FormulaMeans(w: World, mem: Octets, g: Graph, s: Scene, n: nat, formula: Formula, builtin: Option<int>, wide: bool)
    requires Shows(w, mem, g, s) && Room(s, g.visit, n, wide)
    ensures Means(w, mem, s, EvalFormula(w, g, formula, builtin), FormulaValue(s, n, formula, builtin), wide)
    decreases n, 6
  {
    hide MemoryLike, MemoryAfter, Bare, Room, Distinct, TermValues, TermMeanings;
    if formula.parses { TermsMean(w, mem, g, s, n, formula.terms, builtin, wide); }
  }

  lemma {:induction false} TermsMean(w: World, mem: Octets, g: Graph, s: Scene, n: nat, terms: seq<Term>, builtin: Option<int>, wide: bool)
    requires Shows(w, mem, g, s) && Room(s, g.visit, n, wide)
    ensures Means(w, mem, s, TermValues(w, g, terms, builtin), TermMeanings(s, n, terms, builtin), wide)
    decreases n, 5, |terms|
  {
    hide MemoryLike, MemoryAfter, Bare, Room, Distinct, TermValue, TermMeaning;
    if terms != [] {
      TermMeans(w, mem, g, s, n, terms[0], builtin, wide);
      var first := TermValue(w, g, terms[0], builtin);
      if first.result.Ok? && Shows(w, mem, first.graph, s) { TermsMean(w, mem, first.graph, s, n, terms[1..], builtin, wide); }
    }
  }

  lemma {:induction false} TermMeans(w: World, mem: Octets, g: Graph, s: Scene, n: nat, term: Term, builtin: Option<int>, wide: bool)
    requires Shows(w, mem, g, s) && Room(s, g.visit, n, wide)
    ensures Means(w, mem, s, TermValue(w, g, term, builtin), TermMeaning(s, n, term, builtin), wide)
    decreases n, 4, 0
  {
    hide MemoryLike, MemoryAfter, Bare, Room, Distinct, IntValue, LinkValue;
    if term.Variable? { LinkMeans(w, mem, g, s, n, term.link, wide); }
  }

  // ----------------------------------------------------------------- registers

  lemma Wraps(a: int, b: int)
    ensures AsWord(AsSigned(AsWord(a)) + b) == AsWord(a + b)
  {
  }

  ghost function Wrapped(r: Result<seq<int>>, sum: int): Result<nat> {
    if r.Ok? then Ok(AsWord(sum + Sum(r.value))) else Err(r.error)
  }

  ghost function Word(o: Outcome<int>): Outcome<nat> {
    Outcome(o.graph, if o.result.Ok? then Ok(AsWord(o.result.value)) else Err(o.result.error))
  }

  /** Wrapping at every step is wrapping the whole sum. */
  lemma {:induction false} AddressMeans(w: World, mem: Octets, g: Graph, s: Scene, n: nat, terms: seq<Ref>, sum: int, wide: bool)
    requires Shows(w, mem, g, s) && Room(s, g.visit, n, wide)
    ensures Means(w, mem, s, Word(AddressSum(w, g, terms, sum)), Wrapped(RefValues(s, n, terms), sum), wide)
    decreases n, 5, |terms|
  {
    hide MemoryLike, MemoryAfter, Bare, Room, Distinct, RefInt, RefValue, AsSigned, AsWord;
    if terms != [] {
      RefIntMeans(w, mem, g, s, n, terms[0], wide);
      var term := RefInt(w, g, terms[0]);
      if term.result.Ok? && Shows(w, mem, term.graph, s) {
        var x, rest := term.result.value, RefValues(s, n, terms[1..]);
        AddressMeans(w, mem, term.graph, s, n, terms[1..], AsSigned(AsWord(sum + x)), wide);
        if rest.Ok? {
          Wraps(sum + x, Sum(rest.value));
          assert ([x] + rest.value)[1..] == rest.value;
        }
      }
    }
  }

  lemma {:induction false} LengthMeans(w: World, mem: Octets, g: Graph, s: Scene, n: nat, length: Ref, wide: bool)
    requires Shows(w, mem, g, s) && Room(s, g.visit, n, wide)
    ensures Means(w, mem, s, RegisterLength(w, g, length), Length(s, n, length), wide)
    decreases n, 5, 0
  {
    hide MemoryLike, MemoryAfter, Bare, Room, Distinct, RefInt, RefValue;
    if !length.Nothing? { RefIntMeans(w, mem, g, s, n, length, wide); }
  }

  lemma {:induction false} PlaceMeans(w: World, mem: Octets, g: Graph, s: Scene, n: nat, r: Register, wide: bool)
    requires Shows(w, mem, g, s) && Room(s, g.visit, n, wide)
    ensures Means(w, mem, s, RegisterPlace(w, g, r), PlaceValue(s, n, r), wide)
    decreases n, 6
  {
    hide MemoryLike, MemoryAfter, Bare, Room, Distinct, AddressSum, RegisterLength, RefValues, Length, AsWord, Sum;
    AddressMeans(w, mem, g, s, n, r.terms, 0, wide);
    var sum := AddressSum(w, g, r.terms, 0);
    if sum.result.Ok? && Shows(w, mem, sum.graph, s) { LengthMeans(w, mem, sum.graph, s, n, r.length, wide); }
  }

  lemma PortReads(w: World, mem: Octets, g: Graph, s: Scene, id: NodeId, p: Place)
    requires Shows(w, mem, g, s) && id < |g.nodes| && g.nodes[id].Reg?
    ensures var o := PortRead(w, g, id, p);
            && o.result == (if p.address + p.length <= |s.mem| then Ok(BytesAt(s.mem, p)) else Err(PortFailed))
            && Shows(w, mem, o.graph, s)
  {
    hide MemoryAfter, MemoryAnswer, Distinct;
    LogRead(mem, g.log, p.address, p.length);
    assert w.port(g.log + [ReadAt(p.address, p.length)]) == MemoryAnswer(mem, g.log + [ReadAt(p.address, p.length)]);
  }

  lemma {:induction false} RegisterReadMeans(w: World, mem: Octets, g: Graph, s: Scene, n: nat, id: NodeId, wide: bool)
    requires Shows(w, mem, g, s) && Room(s, g.visit, n, wide) && id < |g.nodes| && g.nodes[id].Reg?
    ensures Means(w, mem, s, RegisterRead(w, g, id), Content(s, n, g.nodes[id].register), wide)
    decreases n, 7
  {
    hide MemoryLike, MemoryAfter, Room, Distinct, RegisterPlace, PlaceValue, PortRead, BytesAt;
    var r := g.nodes[id].register;
    PlaceMeans(w, mem, g, s, n, r, wide);
    var place := RegisterPlace(w, g, r);
    if place.result.Ok? && Shows(w, mem, place.graph, s) { PortReads(w, mem, place.graph, s, id, place.result.value); }
  }

  // ------------------------------------------------------------------- writing

  /** The answer a write gives. */
  function Told(effect: Result<Effect>): Result<()> { if effect.Ok? then Ok(()) else Err(effect.error) }

  /** Unless a cycle was met, the write came to its effect, and to nothing else. */
  ghost predicate Effects(w: World, mem: Octets, s: Scene, o: Outcome<()>, effect: Result<Effect>) {
    o.result != Err(Circular) ==> o.result == Told(effect) && Shows(w, mem, o.graph, Applied(s, effect))
  }

  lemma PortWrites(w: World, mem: Octets, g: Graph, s: Scene, id: NodeId, address: nat, bytes: Octets)
    requires Shows(w, mem, g, s) && id < |g.nodes| && g.nodes[id].Reg?
    ensures Effects(w, mem, s, PortWrite(w, g, id, address, bytes),
                    if address + |bytes| <= |s.mem| then Ok(Bytes(address, bytes)) else Err(PortFailed))
  {
    hide MemoryAfter, MemoryAnswer, PortWrite, Distinct;
    PlainWrite(w, g, id, address, bytes);
    LogWrite(mem, g.log, address, bytes);
    var log := g.log + [WriteAt(address, bytes)];
    assert w.port(log) == MemoryAnswer(mem, log);
  }

  lemma RegisterWriteMeans(w: World, mem: Octets, g: Graph, s: Scene, n: nat, id: NodeId, bytes: Octets)
    requires Shows(w, mem, g, s) && Room(s, g.visit, n, true) && id < |g.nodes| && g.nodes[id].Reg?
    ensures Effects(w, mem, s, RegisterWrite(w, g, id, bytes), Stored(s, n, g.nodes[id].register, Some(bytes)))
  {
    hide MemoryLike, MemoryAfter, Bare, Room, Distinct, RegisterPlace, PlaceValue, PortWrite;
    var r := g.nodes[id].register;
    PlaceMeans(w, mem, g, s, n, r, true);
    var place := RegisterPlace(w, g, r);
    if place.result.Ok? { PortWrites(w, mem, place.graph, s, id, place.result.value.address, bytes); }
  }

  lemma SetRegisterMeans(w: World, mem: Octets, g: Graph, s: Scene, n: nat, id: NodeId, v: int)
    requires Shows(w, mem, g, s) && Room(s, g.visit, n, true) && id < |g.nodes| && g.nodes[id].Reg?
    ensures Effects(w, mem, s, SetRegister(w, g, id, v), LandsOn(s, n, g.nodes[id].register, v))
  {
    hide MemoryLike, MemoryAfter, Bare, Room, Distinct, RegisterLength, RegisterRead, RegisterWrite, Length, Content, PlaceValue, InsertInt, EncodeInt;
    var r := g.nodes[id].register;
    LengthMeans(w, mem, g, s, n, r.length, true);
    var length := RegisterLength(w, g, r.length);
    if length.result.Ok? {
      if Masked(r) {
        RegisterReadMeans(w, mem, length.graph, s, n, id, true);
        var current := RegisterRead(w, length.graph, id);
        if current.result.Ok? {
          var bytes := InsertInt(current.result.value, v, r.endianness, r.lsb, r.msb);
          if bytes.Some? { RegisterWriteMeans(w, mem, current.graph, s, n, id, bytes.value); }
        }
      } else {
        var bytes := EncodeInt(v, length.result.value, r.endianness);
        if bytes.Some? { RegisterWriteMeans(w, mem, length.graph, s, n, id, bytes.value); }
      }
    }
  }

  lemma {:induction false} SetIntValueMeans(w: World, mem: Octets, g: Graph, s: Scene, n: nat, id: NodeId, v: int)
    requires Shows(w, mem, g, s) && Room(s, g.visit, n, true) && id < |g.nodes|
    ensures Effects(w, mem, s, SetIntValue(w, g, id, v), Lands(s, n, id, v))
    decreases n, 1
  {
    hide MemoryLike, MemoryAfter, Bare, SetInner, Lands, Unvisited, Applied;
    if id !in g.visit {
      WideEntered(s, g, id, n);
      SetInnerMeans(w, mem, Entered(g, id), s, n - 1, id, v);
    }
  }

  lemma {:induction false} SetInnerMeans(w: World, mem: Octets, g: Graph, s: Scene, n: nat, id: NodeId, v: int)
    requires Shows(w, mem, g, s) && Room(s, g.visit, n, true) && id < |g.nodes|
    ensures Effects(w, mem, s, SetInner(w, g, id, v), Lands(s, n + 1, id, v))
    decreases n, 8
  {
    hide MemoryLike, MemoryAfter, Bare, Room, SetRefInt, SetRegister, SetTarget, EvalFormula, FormulaValue, LandsIn, LandsAt, LandsOn, Distinct, Applied;
    match g.nodes[id]
    case Feature(_, value) => SetRefIntMeans(w, mem, g, s, n, id, value, v);
    case Command(value, _) => SetRefIntMeans(w, mem, g, s, n, id, value, v);
    case Reg(r) => SetRegisterMeans(w, mem, g, s, n, id, v);
    case Converter(value, to, _) =>
      FormulaMeans(w, mem, g, s, n, to, Some(v), true);
      var out := EvalFormula(w, g, to, Some(v));
      if out.result.Ok? { SetTargetMeans(w, mem, out.graph, s, n, value, out.result.value); } else { Untouched(s, out.result.error); }
    case _ => Untouched(s, WrongType);
  }

  lemma Untouched(s: Scene, e: Error)
    ensures Applied(s, Err(e)) == s
  {
  }

  lemma {:induction false} SetRefIntMeans(w: World, mem: Octets, g: Graph, s: Scene, n: nat, id: NodeId, vr: Ref, v: int)
    requires Shows(w, mem, g, s) && Room(s, g.visit, n, true) && id < |g.nodes|
    ensures Effects(w, mem, s, SetRefInt(w, g, id, vr, v), LandsIn(s, n, id, vr, v))
    decreases n, 4
  {
    hide MemoryLike, MemoryAfter, Room, SetTarget, LandsAt, Distinct;
    if !vr.Literal? { SetTargetMeans(w, mem, g, s, n, vr, v); }
  }

  lemma {:induction false} SetLinkMeans(w: World, mem: Octets, g: Graph, s: Scene, n: nat, link: Link, v: int)
    requires Shows(w, mem, g, s) && Room(s, g.visit, n, true)
    ensures Effects(w, mem, s, SetLink(w, g, link, v), LandsVia(s, n, link, v))
    decreases n, 2
  {
    hide MemoryLike, MemoryAfter, Bare, Room, SetIntValue, Lands, Distinct;
    if Resolve(g, link).Some? { SetIntValueMeans(w, mem, g, s, n, link.id, v); }
  }

  lemma {:induction false} SetTargetMeans(w: World, mem: Octets, g: Graph, s: Scene, n: nat, vr: Ref, v: int)
    requires Shows(w, mem, g, s) && Room(s, g.visit, n, true)
    ensures Effects(w, mem, s, SetTarget(w, g, vr, v), LandsAt(s, n, vr, v))
    decreases n, 3
  {
    hide MemoryLike, MemoryAfter, Bare, Room, Distinct, SetLink, LandsVia, Selected, LinkValue, Chosen;
    match vr
    case Reference(link) => SetLinkMeans(w, mem, g, s, n, link, v);
    case Indexed(_, _, _) =>
      SelectedMeans(w, mem, g, s, n, vr, true);
      var entry := Selected(w, g, vr);
      if entry.result.Ok? && entry.result.value.Reference? { SetLinkMeans(w, mem, entry.graph, s, n, entry.result.value.link, v); }
    case _ =>
  }

  // ------------------------------------------------------------------ theorems

  /** An uncached graph, nothing being visited, on a device that is memory. */
  ghost predicate Idle(w: World, mem: Octets, g: Graph) { MemoryLike(w, mem) && g.visit == [] && Bare(g.nodes) }

  lemma IdleShows(w: World, mem: Octets, g: Graph)
    requires Idle(w, mem, g)
    ensures Shows(w, mem, g, SeenBy(w, mem, g))
  {
  }

  /** Reading any node of any graph gives its value: a cycle is reported exactly
      where following the references never ends. */
  lemma ReadsValue(w: World, mem: Octets, g: Graph, id: NodeId, n: nat)
    requires Idle(w, mem, g) && id < |g.nodes| && n >= |g.nodes|
    ensures var s, o := SeenBy(w, mem, g), IntValue(w, g, id);
            && o.result == ValueOf(s, n, id)
            && (o.result == Err(Circular) <==> forall k: nat :: ValueOf(s, k, id) == Err(Circular))
            && (o.result != Err(Circular) ==> Idle(w, mem, o.graph) && SeenBy(w, mem, o.graph) == s)
  {
    hide MemoryLike, MemoryAfter, Bare, IntValue, ValueOf, Room;
    var s, o := SeenBy(w, mem, g), IntValue(w, g, id);
    IdleShows(w, mem, g);
    forall k: nat, wide | wide ==> k >= |g.nodes| ensures Means(w, mem, s, o, ValueOf(s, k, id), wide) {
      if wide { StartRoom(s, k, wide); } else { Unvisiting(s, k); }
      IntValueMeans(w, mem, g, s, k, id, wide);
    }
    assert Means(w, mem, s, o, ValueOf(s, n, id), true) && Means(w, mem, s, o, ValueOf(s, n, id), false);
    forall k: nat ensures Means(w, mem, s, o, ValueOf(s, k, id), false) { }
  }

  lemma Unvisiting(s: Scene, n: nat)
    ensures Room(s, [], n, false)
  {
  }

  /** Writing a node of a graph that descends in some rank comes to the node's effect
      and to nothing else. */
  lemma WritesEffect(w: World, mem: Octets, g: Graph, id: NodeId, v: int, n: nat, rank: Rank)
    requires Idle(w, mem, g) && id < |g.nodes| && n >= |g.nodes| && Descends(g.nodes, rank)
    ensures var s, o := SeenBy(w, mem, g), SetIntValue(w, g, id, v);
            && o.result == Told(Lands(s, n, id, v)) && Idle(w, mem, o.graph)
            && SeenBy(w, mem, o.graph) == Applied(s, Lands(s, n, id, v)) && Descends(o.graph.nodes, rank)
  {
    hide MemoryLike, MemoryAfter, Bare, SetIntValue, Lands, Applied, Descends, Room;
    var s := SeenBy(w, mem, g);
    IdleShows(w, mem, g);
    StartRoom(s, n, true);
    SetIntValueMeans(w, mem, g, s, n, id, v);
    SetIntValueStraight(w, g, id, v, rank, rank(id) + 1);
  }

  lemma RunsEffect(w: World, mem: Octets, g: Graph, id: NodeId, n: nat, rank: Rank)
    requires Idle(w, mem, g) && id < |g.nodes| && n >= |g.nodes| && Descends(g.nodes, rank)
    ensures var s, o := SeenBy(w, mem, g), Execute(w, g, id);
            && o.result == Told(Runs(s, n, id)) && Idle(w, mem, o.graph)
            && SeenBy(w, mem, o.graph) == Applied(s, Runs(s, n, id)) && Descends(o.graph.nodes, rank)
  {
    hide MemoryLike, MemoryAfter, Bare, SetRefInt, RefInt, RefValue, LandsIn, Descends, Room;
    var s := SeenBy(w, mem, g);
    IdleShows(w, mem, g);
    StartRoom(s, n, true);
    if g.nodes[id].Command? {
      ExecuteStraight(w, g, id, rank);
      var value, commandValue := g.nodes[id].value, g.nodes[id].commandValue;
      if commandValue.Nothing? {
        SetRefIntMeans(w, mem, g, s, n, id, value, 1);
      } else {
        RefIntMeans(w, mem, g, s, n, commandValue, true);
        var v := RefInt(w, g, commandValue);
        if v.result.Ok? { SetRefIntMeans(w, mem, v.graph, s, n, id, value, v.result.value); }
      }
    }
  }

  // ------------------------------------------------------------------- runs

  function ValueAnswer(r: Result<int>): Answer { if r.Ok? then Value(r.value) else Failed(r.error) }
  function DoneAnswer(r: Result<Effect>): Answer { if r.Ok? then Done else Failed(r.error) }

  /** What a call is answered, and the nodes and the device after it, by meaning. */
  ghost function Meant(s: Scene, call: Call): (Scene, Answer) {
    var n := |s.nodes| + 1;
    match call
    case Read(id) => (s, ValueAnswer(ValueOf(s, n, id)))
    case Write(id, v) => (Applied(s, Lands(s, n, id, v)), DoneAnswer(Lands(s, n, id, v)))
    case Run(id) => (Applied(s, Runs(s, n, id)), DoneAnswer(Runs(s, n, id)))
    case Clear => (s, Done)
  }

  ghost function MeantAll(s: Scene, calls: seq<Call>): (Scene, seq<Answer>) {
    if calls == [] then (s, [])
    else
      var (t, answers) := MeantAll(s, calls[..|calls| - 1]);
      var (u, answer) := Meant(t, calls[|calls| - 1]);
      (u, answers + [answer])
  }

  lemma CallMeant(w: World, mem: Octets, g: Graph, call: Call, rank: Rank)
    requires Idle(w, mem, g) && Descends(g.nodes, rank)
    ensures var r := Perform(w, g, call);
            && (SeenBy(w, mem, r.graph), r.answer) == Meant(SeenBy(w, mem, g), call)
            && Idle(w, mem, r.graph) && Descends(r.graph.nodes, rank)
  {
    hide MemoryLike, MemoryAfter, IntValue, SetIntValue, Execute, Lands, Applied, Descends, ValueOf;
    var s, n := SeenBy(w, mem, g), |g.nodes| + 1;
    match call
    case Read(id) =>
      if id < |g.nodes| {
        ReadsValue(w, mem, g, id, n);
        CallStraight(w, g, call, rank);
      } else {
        assert ValueOf(s, n, id) == Err(Dangling) by { NoNode(s, n, id, 0); }
      }
    case Write(id, v) => if id < |g.nodes| { WritesEffect(w, mem, g, id, v, n, rank); } else { NoNode(s, n, id, v); Untouched(s, Dangling); }
    case Run(id) => if id < |g.nodes| { RunsEffect(w, mem, g, id, n, rank); } else { Untouched(s, Dangling); }
    case Clear =>
      assert CachesCleared(g).nodes == g.nodes;
  }

  lemma NoNode(s: Scene, n: nat, id: NodeId, v: int)
    requires n > 0 && id >= |s.nodes|
    ensures ValueOf(s, n, id) == Err(Dangling) && Lands(s, n, id, v) == Err(Dangling)
  {
  }

  /** Any calls on an uncached graph that descends are answered by meaning. */
  lemma {:induction false} CallsMeant(w: World, mem: Octets, g: Graph, calls: seq<Call>, rank: Rank)
    requires Idle(w, mem, g) && Descends(g.nodes, rank)
    ensures var t := PerformAll(w, g, calls);
            && (SeenBy(w, mem, t.graph), t.answers) == MeantAll(SeenBy(w, mem, g), calls)
            && Idle(w, mem, t.graph) && Descends(t.graph.nodes, rank)
    decreases |calls|
  {
    hide MemoryLike, MemoryAfter, Bare, Perform, Meant, Descends;
    if calls != [] {
      CallsMeant(w, mem, g, calls[..|calls| - 1], rank);
      CallMeant(w, mem, PerformAll(w, g, calls[..|calls| - 1]).graph, calls[|calls| - 1], rank);
    }
  }

  /** With caching, where every write invalidates the caches it could be missed in:
      any reads, writes, commands and cache clears are answered, and leave the device,
      as the nodes' meaning says. */
  lemma CachedCallsMeant(w: World, mem: Octets, g: Graph, calls: seq<Call>, rank: Rank)
    requires MemoryLike(w, mem) && Cold(g) && Constant(g.nodes) && Covered(w, g.nodes, |mem|) && Descends(g.nodes, rank)
    ensures var t, (s, answers) := PerformAll(w, g, calls), MeantAll(Scene(w.eval, CachingOff(g).nodes, mem), calls);
            t.answers == answers && MemoryAfter(mem, t.graph.log) == s.mem
  {
    hide PerformAll, MeantAll, MemoryLike, PlaceOf, Covered;
    CachingTransparent(w, mem, g, calls);
    UncachedBelow(g, rank);
    hide Descends;
    CallsMeant(w, mem, CachingOff(g), calls, rank);
  }

  lemma UncachedBelow(g: Graph, rank: Rank)
    requires Descends(g.nodes, rank)
    ensures Descends(CachingOff(g).nodes, rank)
  {
    var h := CachingOff(g);
    forall id | 0 <= id < |h.nodes| ensures NodeBelow(h.nodes[id], rank, rank(id)) { assert NodeBelow(g.nodes[id], rank, rank(id)); }
  }
}
