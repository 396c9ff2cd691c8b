/** Register caches on a device that behaves like memory: with them the graph
    answers and leaves the device as it would without. */
module Caching {
  import opened Gvsp
  import opened BitFields
  import opened NodeGraph
  import opened FieldBits
  import opened Circularity

  // ---------------------------------------------------------- a memory device

  /** The memory after the transfers, writes outside it having no effect. */
  function MemoryAfter(mem: Octets, log: seq<Transfer>): (r: Octets)
    ensures |r| == |mem|
    decreases |log|
  {
    if log == [] then mem
    else
      var m := MemoryAfter(mem, log[..|log| - 1]);
      match log[|log| - 1]
      case WriteAt(a, bytes) => if a + |bytes| <= |m| then Overwritten(m, a, bytes) else m
      case ReadAt(_, _) => m
  }

  /** How memory answers the last of the transfers. */
  function MemoryAnswer(mem: Octets, log: seq<Transfer>): Option<Octets> {
    if log == [] then None
    else
      var m := MemoryAfter(mem, log[..|log| - 1]);
      match log[|log| - 1]
      case WriteAt(a, bytes) => if a + |bytes| <= |m| then Some([]) else None
      case ReadAt(a, n) => if a + n <= |m| then Some(m[a..a + n]) else None
  }

  ghost predicate MemoryLike(w: World, mem: Octets) { forall log :: w.port(log) == MemoryAnswer(mem, log) }

  // -------------------------------------------------------- constant registers

  predicate ConstantRef(vr: Ref) { vr.Literal? || vr.Fixed? }

  predicate ConstantRegister(r: Register) {
    (forall i | 0 <= i < |r.terms| :: ConstantRef(r.terms[i])) && (r.length.Nothing? || ConstantRef(r.length))
  }

  function ConstantSum(terms: seq<Ref>, sum: int): int
    requires forall i | 0 <= i < |terms| :: ConstantRef(terms[i])
    decreases |terms|
  {
    if terms == [] then sum else assert ConstantRef(terms[0]); ConstantSum(terms[1..], AsSigned(AsWord(sum + terms[0].v)))
  }

  /** Where a register with constant address lies; None when its length is bad. */
  function PlaceOf(r: Register): Option<Place>
    requires ConstantRegister(r)
  {
    var address := AsWord(ConstantSum(r.terms, 0));
    if r.length.Nothing? then Some(Place(address, 4))
    else if 0 <= r.length.v <= MAX_REGISTER_LENGTH then Some(Place(address, r.length.v))
    else None
  }

  ghost predicate Constant(nodes: seq<Node>) {
    forall i | 0 <= i < |nodes| && nodes[i].Reg? :: ConstantRegister(nodes[i].register)
  }

  predicate Overlap(a: Place, b: Place) { a.address < b.address + b.length && b.address < a.address + a.length }

  /** The register is read through its cache. */
  predicate Cached(node: Node) { node.Reg? && !node.register.cachable.NoCache? && !node.register.access.WO? }

  predicate Writable(node: Node) { node.Reg? && !node.register.access.RO? }

  /** A register inside a memory of that size, with a field that fits. */
  predicate Works(node: Node, size: nat) {
    && node.Reg? && ConstantRegister(node.register) && PlaceOf(node.register).Some?
    && PlaceOf(node.register).value.address + PlaceOf(node.register).value.length <= size
    && FieldOf(node.register, PlaceOf(node.register).value.length).Some?
  }

  /** Writing the register may change bit `n` of the device: those of its field. A
      masked field that cannot be read cannot be written either. */
  predicate Changes(node: Node, size: nat, n: nat) {
    && Works(node, size) && Writable(node) && (Masked(node.register) ==> node.register.access.RW?)
    && InField(node.register, PlaceOf(node.register).value, n)
  }

  /** Bit `n` of the device may be seen in the register's cache: in its number, or
      when the register's other bits are written back. */
  predicate Exposes(node: Node, size: nat, n: nat) {
    && Works(node, size) && Cached(node)
    && if node.register.access.RW? then Within(PlaceOf(node.register).value, n)
       else InField(node.register, PlaceOf(node.register).value, n)
  }

  ghost predicate Meet(a: Node, b: Node, size: nat) { exists n: nat :: Changes(a, size, n) && Exposes(b, size, n) }

  predicate Invalidates(w: World, i: NodeId, j: NodeId) { i in w.invalidates && j in w.invalidates[i] }

  /** Writing a register invalidates every cache in which the write could be missed. */
  ghost predicate Covered(w: World, nodes: seq<Node>, size: nat) {
    forall i, j | 0 <= i < |nodes| && 0 <= j < |nodes| && i != j && Meet(nodes[i], nodes[j], size) :: Invalidates(w, i, j)
  }

  /** Overlapping registers list one another as invalidators. */
  ghost predicate OverlapsListed(w: World, nodes: seq<Node>)
    requires Constant(nodes)
  {
    forall i, j | 0 <= i < |nodes| && 0 <= j < |nodes| && i != j && Writable(nodes[i]) && Cached(nodes[j]) ::
      var (a, b) := (PlaceOf(nodes[i].register), PlaceOf(nodes[j].register));
      a.Some? && b.Some? && Overlap(a.value, b.value) ==> Invalidates(w, i, j)
  }

  lemma OverlapsCover(w: World, nodes: seq<Node>, size: nat)
    requires Constant(nodes) && OverlapsListed(w, nodes)
    ensures Covered(w, nodes, size)
  {
    hide PlaceOf, FieldOf, Position;
  }

  /** The same node, up to its cache. */
  predicate SameNode(a: Node, b: Node) {
    if a.Reg? then b.Reg? && b.register == a.register.(cache := b.register.cache) else !b.Reg?
  }

  lemma SameReach(a: Node, b: Node, size: nat, n: nat)
    requires SameNode(a, b)
    ensures Changes(a, size, n) == Changes(b, size, n) && Exposes(a, size, n) == Exposes(b, size, n)
  {
    hide PlaceOf, BitRange, Position;
    if a.Reg? { SamePlace(a, b); }
  }

  lemma SameMeet(a: Node, b: Node, c: Node, d: Node, size: nat)
    requires SameNode(a, b) && SameNode(c, d)
    ensures Meet(a, c, size) == Meet(b, d, size)
  {
    hide Changes, Exposes, SameNode;
    forall n: nat ensures Changes(a, size, n) == Changes(b, size, n) && Exposes(c, size, n) == Exposes(d, size, n) {
      SameReach(a, b, size, n);
      SameReach(c, d, size, n);
    }
  }

  lemma CoveredSame(w: World, nodes: seq<Node>, after: seq<Node>, size: nat)
    requires |after| == |nodes| && forall i | 0 <= i < |nodes| :: SameNode(nodes[i], after[i])
    requires Covered(w, nodes, size)
    ensures Covered(w, after, size)
  {
    hide Meet, SameNode;
    forall i, j | 0 <= i < |after| && 0 <= j < |after| && i != j && Meet(after[i], after[j], size) ensures Invalidates(w, i, j) {
      SameMeet(nodes[i], after[i], nodes[j], after[j], size);
    }
  }

  // ------------------------------------------------------------ the simulation

  /** The same node, without caching. */
  function Uncached(node: Node): Node {
    if node.Reg? then Reg(node.register.(cachable := NoCache, cache := None)) else node
  }

  /** What can be seen of a cache is the device's: all its bytes where they may be
      written back, else the number of its field. */
  predicate True(m: Octets, node: Node)
    requires node.Reg? ==> ConstantRegister(node.register)
  {
    Cached(node) && node.register.cache.Some? ==>
      var (r, place) := (node.register, PlaceOf(node.register));
      place.Some? && place.value.address + place.value.length <= |m| && Resembles(r, r.cache.value, BytesAt(m, place.value))
  }

  predicate Resembles(r: Register, bytes: Octets, device: Octets) {
    && |bytes| == |device| && Extracted(r, bytes) == Extracted(r, device)
    && (r.access.RW? && FieldOf(r, |bytes|).Some? ==> bytes == device)
  }

  ghost predicate AllTrue(m: Octets, nodes: seq<Node>)
    requires Constant(nodes)
  {
    forall i | 0 <= i < |nodes| :: True(m, nodes[i])
  }

  ghost predicate SameNodes(nodes: seq<Node>, plain: seq<Node>) {
    |nodes| == |plain| && forall i | 0 <= i < |nodes| :: plain[i] == Uncached(nodes[i])
  }

  /** The cached graph `g` and the uncached `h` are in the same state. */
  ghost predicate Alike(w: World, mem: Octets, g: Graph, h: Graph) {
    && SameNodes(g.nodes, h.nodes) && g.visit == h.visit && Distinct(g.visit)
    && MemoryAfter(mem, g.log) == MemoryAfter(mem, h.log)
    && Constant(g.nodes) && Covered(w, g.nodes, |mem|) && AllTrue(MemoryAfter(mem, g.log), g.nodes)
  }

  ghost predicate Agree<T>(w: World, mem: Octets, a: Outcome<T>, b: Outcome<T>) {
    a.result == b.result && Alike(w, mem, a.graph, b.graph)
  }

  lemma EnteredAlike(w: World, mem: Octets, g: Graph, h: Graph, id: NodeId)
    requires Alike(w, mem, g, h) && id < |g.nodes| && id !in g.visit
    ensures Alike(w, mem, Entered(g, id), Entered(h, id))
  {
    hide SameNodes, Constant, Covered, AllTrue, MemoryAfter;
  }

  lemma LeftAlike(w: World, mem: Octets, g: Graph, h: Graph)
    requires Alike(w, mem, g, h)
    ensures Alike(w, mem, Left(g), Left(h))
  {
    hide SameNodes, Constant, Covered, AllTrue, MemoryAfter;
  }

  lemma ClearAlike(w: World, mem: Octets, g: Graph, h: Graph)
    requires Alike(w, mem, g, h)
    ensures Alike(w, mem, g.(visit := []), h.(visit := []))
  {
    hide SameNodes, Constant, Covered, AllTrue, MemoryAfter;
  }

  // ------------------------------------------------------- constant addresses

  lemma {:induction false} SumConstant(w: World, g: Graph, terms: seq<Ref>, sum: int)
    requires Distinct(g.visit) && forall i | 0 <= i < |terms| :: ConstantRef(terms[i])
    ensures AddressSum(w, g, terms, sum) == Outcome(g, Ok(ConstantSum(terms, sum)))
    decreases |terms|
  {
    hide AsSigned, AsWord;
    if terms != [] {
      assert RefInt(w, g, terms[0]) == Outcome(g, Ok(terms[0].v));
      SumConstant(w, g, terms[1..], AsSigned(AsWord(sum + terms[0].v)));
    }
  }

  lemma PlaceConstant(w: World, g: Graph, r: Register)
    requires Distinct(g.visit) && ConstantRegister(r)
    ensures RegisterPlace(w, g, r)
            == Outcome(g, if PlaceOf(r).Some? then Ok(PlaceOf(r).value) else Err(OutOfRange))
    ensures RegisterLength(w, g, r.length) == Outcome(g, if PlaceOf(r).Some? then Ok(PlaceOf(r).value.length) else Err(OutOfRange))
  {
    hide AsWord, ConstantSum, AddressSum;
    SumConstant(w, g, r.terms, 0);
    if !r.length.Nothing? { assert RefInt(w, g, r.length) == Outcome(g, Ok(r.length.v)); }
  }

  // -------------------------------------------------------- reading registers

  lemma LogRead(mem: Octets, log: seq<Transfer>, a: nat, n: nat)
    ensures MemoryAfter(mem, log + [ReadAt(a, n)]) == MemoryAfter(mem, log)
    ensures var m := MemoryAfter(mem, log);
            MemoryAnswer(mem, log + [ReadAt(a, n)]) == if a + n <= |m| then Some(m[a..a + n]) else None
  {
    assert (log + [ReadAt(a, n)])[..|log|] == log;
  }

  lemma LogWrite(mem: Octets, log: seq<Transfer>, a: nat, bytes: Octets)
    ensures var m := MemoryAfter(mem, log);
            && MemoryAfter(mem, log + [WriteAt(a, bytes)]) == (if a + |bytes| <= |m| then Overwritten(m, a, bytes) else m)
            && MemoryAnswer(mem, log + [WriteAt(a, bytes)]) == if a + |bytes| <= |m| then Some([]) else None
  {
    assert (log + [WriteAt(a, bytes)])[..|log|] == log;
  }

  /** Any cache may be dropped, or set to what the device holds. */
  lemma CacheAlike(w: World, mem: Octets, g: Graph, h: Graph, id: NodeId, cache: Option<Octets>)
    requires Alike(w, mem, g, h) && id < |g.nodes| && g.nodes[id].Reg?
    requires True(MemoryAfter(mem, g.log), Reg(g.nodes[id].register.(cache := cache)))
    ensures Alike(w, mem, WithCache(g, id, cache), h)
  {
    hide MemoryAfter, PlaceOf, Covered, Resembles;
    var k := WithCache(g, id, cache);
    SamePlace(g.nodes[id], k.nodes[id]);
    assert Constant(k.nodes);
    CoveredSame(w, g.nodes, k.nodes, |mem|);
  }

  lemma SamePlace(a: Node, b: Node)
    requires a.Reg? && b.Reg? && a.register.terms == b.register.terms && a.register.length == b.register.length
    ensures ConstantRegister(a.register) == ConstantRegister(b.register)
    ensures ConstantRegister(a.register) ==> PlaceOf(a.register) == PlaceOf(b.register)
  {
  }

  lemma LogAlike(w: World, mem: Octets, g: Graph, h: Graph, log: seq<Transfer>, plain: seq<Transfer>)
    requires Alike(w, mem, g, h) && MemoryAfter(mem, log) == MemoryAfter(mem, g.log) == MemoryAfter(mem, plain)
    ensures Alike(w, mem, g.(log := log), h.(log := plain))
  {
    hide SameNodes, Constant, Covered, AllTrue, MemoryAfter;
  }

  /** What reading a register with constant address comes to. */
  lemma ReadIs(w: World, g: Graph, id: NodeId)
    requires Distinct(g.visit) && id < |g.nodes| && g.nodes[id].Reg? && ConstantRegister(g.nodes[id].register)
    requires !g.nodes[id].register.access.WO?
    ensures var r := g.nodes[id].register;
            RegisterRead(w, g, id) == if Cached(g.nodes[id]) && r.cache.Some? then Outcome(g, Ok(r.cache.value))
                                      else if PlaceOf(r).None? then Fails(g, OutOfRange)
                                      else PortRead(w, g, id, PlaceOf(r).value)
  {
    hide PlaceOf, PortRead, RegisterPlace, Unvisited;
    PlaceConstant(w, g, g.nodes[id].register);
  }

  /** What the two graphs read from register `r`, and the device's bytes. */
  ghost predicate ReadsAlike(w: World, mem: Octets, r: Register, a: Outcome<Octets>, b: Outcome<Octets>)
    requires ConstantRegister(r)
  {
    && Alike(w, mem, a.graph, b.graph) && a.result.Ok? == b.result.Ok?
    && (a.result.Err? ==> a.result.error == b.result.error)
    && (a.result.Ok? ==>
          && PlaceOf(r).Some? && PlaceOf(r).value.address + PlaceOf(r).value.length <= |mem|
          && b.result.value == BytesAt(MemoryAfter(mem, a.graph.log), PlaceOf(r).value)
          && Resembles(r, a.result.value, b.result.value))
  }

  /** A cached read shows the number, and writes back the bytes, of an uncached one. */
  lemma RegisterReadAlike(w: World, mem: Octets, g: Graph, h: Graph, id: NodeId)
    requires MemoryLike(w, mem) && Alike(w, mem, g, h) && id < |g.nodes| && g.nodes[id].Reg?
    ensures |h.nodes| == |g.nodes| && ConstantRegister(g.nodes[id].register)
    ensures ReadsAlike(w, mem, g.nodes[id].register, RegisterRead(w, g, id), RegisterRead(w, h, id))
  {
    hide MemoryAfter, PlaceOf, Covered, Constant, AllTrue, SameNodes, PortRead, Distinct, Extracted, FieldOf;
    NodeAlike(w, mem, g, h, id);
    AlikeDistinct(w, mem, g, h);
    if !g.nodes[id].register.access.WO? {
      var r := g.nodes[id].register;
      SamePlace(g.nodes[id], h.nodes[id]);
      ReadIs(w, g, id);
      ReadIs(w, h, id);
      hide RegisterRead;
      CacheTrue(w, mem, g, h, id);
      if PlaceOf(r).Some? { PortReadAlike(w, mem, g, h, id, PlaceOf(r).value); }
    }
  }

  lemma CacheTrue(w: World, mem: Octets, g: Graph, h: Graph, id: NodeId)
    requires Alike(w, mem, g, h) && id < |g.nodes| && g.nodes[id].Reg? && ConstantRegister(g.nodes[id].register)
    ensures True(MemoryAfter(mem, g.log), g.nodes[id])
  {
    hide PlaceOf, MemoryAfter, Resembles;
  }

  /** Reading the device without caching, beside a cached or a first read. */
  lemma PortReadAlike(w: World, mem: Octets, g: Graph, h: Graph, id: NodeId, place: Place)
    requires MemoryLike(w, mem) && Alike(w, mem, g, h) && id < |g.nodes| && g.nodes[id].Reg?
    requires PlaceOf(g.nodes[id].register) == Some(place)
    ensures var m := MemoryAfter(mem, g.log);
            var b := PortRead(w, h, id, place);
            && Alike(w, mem, g, b.graph)
            && b.result == (if place.address + place.length <= |m| then Ok(BytesAt(m, place)) else Err(PortFailed))
            && Agree(w, mem, PortRead(w, g, id, place), b) && MemoryAfter(mem, PortRead(w, g, id, place).graph.log) == m
  {
    hide MemoryAfter, MemoryAnswer, Covered, PlaceOf, Extracted, FieldOf;
    var t := ReadAt(place.address, place.length);
    LogRead(mem, g.log, place.address, place.length);
    LogRead(mem, h.log, place.address, place.length);
    LogAlike(w, mem, g, h, g.log, h.log + [t]);
    LogAlike(w, mem, g, h, g.log + [t], h.log + [t]);
    assert g.(log := g.log) == g;
    var m := MemoryAfter(mem, g.log);
    if place.address + place.length <= |m| && Remembers(g.nodes[id]) {
      var bytes := BytesAt(m, place);
      SamePlace(g.nodes[id], Reg(g.nodes[id].register.(cache := Some(bytes))));
      CacheAlike(w, mem, g.(log := g.log + [t]), h.(log := h.log + [t]), id, Some(bytes));
    }
  }

  // -------------------------------------------------------- writing registers

  /** Invalidation clears what is listed and keeps or clears the rest. */
  lemma {:induction false} InvalidatedNodes(g: Graph, ids: seq<NodeId>)
    ensures var h := Invalidated(g, ids);
            forall i | 0 <= i < |g.nodes| ::
              || (h.nodes[i] == g.nodes[i] && !(g.nodes[i].Reg? && i in ids))
              || (g.nodes[i].Reg? && h.nodes[i] == Reg(g.nodes[i].register.(cache := None)))
    decreases |ids|
  {
    if ids != [] { InvalidatedNodes(WithCache(g, ids[0], None), ids[1..]); }
  }

  /** Every cache is still true after a write, since those it reached are gone. */
  ghost predicate Written(nodes: seq<Node>, after: seq<Node>, m: Octets, id: NodeId, gone: seq<NodeId>)
    requires id < |nodes|
  {
    && |after| == |nodes|
    && forall i | 0 <= i < |nodes| ::
         if nodes[i].Reg? then
           after[i].Reg? && after[i] == Reg(nodes[i].register.(cache := after[i].register.cache))
           && (after[i].register.cache.None? || (i == id && nodes[i].register.cachable.WriteThrough?)
               || (i != id && i !in gone && after[i] == nodes[i]))
         else after[i] == nodes[i]
  }

  lemma InsideWrite(m: Octets, a: nat, bytes: Octets)
    requires a + |bytes| <= |m|
    ensures Overwritten(m, a, bytes)[a..a + |bytes|] == bytes
  {
  }

  /** The bytes are those of a write of `v`, which changes only the field. */
  predicate WriteOf(node: Node, m: Octets, bytes: Octets, v: int)
    requires node.Reg? && ConstantRegister(node.register) && PlaceOf(node.register).Some?
    requires PlaceOf(node.register).value.address + PlaceOf(node.register).value.length <= |m|
  {
    && (Masked(node.register) ==> node.register.access.RW?)
    && NewBytes(node.register, BytesAt(m, PlaceOf(node.register).value), v) == Some(bytes)
  }

  lemma WriteChanges(node: Node, m: Octets, bytes: Octets, v: int, n: nat)
    requires Writable(node) && ConstantRegister(node.register) && PlaceOf(node.register).Some?
    requires PlaceOf(node.register).value.address + PlaceOf(node.register).value.length <= |m| && WriteOf(node, m, bytes, v)
    requires n / 8 < |m| && !Changes(node, |m|, n)
    ensures BitAt(Overwritten(m, PlaceOf(node.register).value.address, bytes), n) == BitAt(m, n)
  {
    hide PlaceOf, Bit, Load, Position, Store, InsertField;
    var r, p := node.register, PlaceOf(node.register).value;
    assert FieldOf(r, p.length).Some?;
    hide NewBytes, FieldOf, BitAt, Overwritten;
    Rewritten(r, p, m, BytesAt(m, p), v, n);
    if Within(p, n) { PlaceBit(m, p, r.endianness, n); }
  }

  /** A cache that a write need not invalidate resembles the device after it. */
  lemma StillTrue(m: Octets, after: Octets, r: Register, p: Place)
    requires |after| == |m| && p.address + p.length <= |m| && r.cache.Some? && Resembles(r, r.cache.value, BytesAt(m, p))
    requires FieldOf(r, p.length).Some? ==>
               forall n: nat | if r.access.RW? then Within(p, n) else InField(r, p, n) :: n / 8 < |m| && BitAt(after, n) == BitAt(m, n)
    ensures Resembles(r, r.cache.value, BytesAt(after, p))
  {
    hide BitAt, Position, ExtractInt;
    if FieldOf(r, p.length).Some? {
      if r.access.RW? { SameBytes(after, m, p); }
      else { SameNumber(r, after, m, p); }
    } else {
      NoNumber(r, BytesAt(after, p));
      NoNumber(r, r.cache.value);
    }
  }

  lemma NoNumber(r: Register, bytes: Octets)
    requires FieldOf(r, |bytes|).None?
    ensures Extracted(r, bytes).None?
  {
  }

  lemma MeetAt(a: Node, b: Node, size: nat, n: nat)
    requires Changes(a, size, n) && Exposes(b, size, n)
    ensures Meet(a, b, size)
  {
  }

  lemma Spared(w: World, nodes: seq<Node>, m: Octets, id: NodeId, bytes: Octets, v: int, j: NodeId, n: nat)
    requires Covered(w, nodes, |m|) && id < |nodes| && j < |nodes| && j != id && !Invalidates(w, id, j)
    requires Writable(nodes[id]) && ConstantRegister(nodes[id].register) && PlaceOf(nodes[id].register).Some?
    requires PlaceOf(nodes[id].register).value.address + PlaceOf(nodes[id].register).value.length <= |m| && WriteOf(nodes[id], m, bytes, v)
    requires Exposes(nodes[j], |m|, n) && n / 8 < |m|
    ensures BitAt(Overwritten(m, PlaceOf(nodes[id].register).value.address, bytes), n) == BitAt(m, n)
  {
    hide PlaceOf, Changes, Exposes, BitAt, Overwritten, WriteOf, Meet;
    if Changes(nodes[id], |m|, n) {
      MeetAt(nodes[id], nodes[j], |m|, n);
    } else {
      WriteChanges(nodes[id], m, bytes, v, n);
    }
  }

  /** Every cache is true after a write. */
  lemma WriteTrue(w: World, nodes: seq<Node>, after: seq<Node>, m: Octets, id: NodeId, place: Place, bytes: Octets, v: int, gone: seq<NodeId>)
    requires Constant(nodes) && Covered(w, nodes, |m|) && AllTrue(m, nodes) && id < |nodes| && Writable(nodes[id])
    requires PlaceOf(nodes[id].register) == Some(place) && place.address + place.length <= |m| && WriteOf(nodes[id], m, bytes, v)
    requires gone == (if id in w.invalidates then w.invalidates[id] else []) && Written(nodes, after, m, id, gone)
    requires after[id].Reg? && (after[id].register.cache.Some? ==> after[id].register.cache == Some(bytes))
    ensures |bytes| == place.length && Constant(after) && AllTrue(Overwritten(m, place.address, bytes), after)
  {
    hide PlaceOf, Overwritten, Covered, NewBytes, Resembles, Extracted, FieldOf;
    forall i | 0 <= i < |after| && after[i].Reg? ensures ConstantRegister(after[i].register) { SamePlace(nodes[i], after[i]); }
    var n := Overwritten(m, place.address, bytes);
    forall i | 0 <= i < |after| ensures True(n, after[i]) {
      if Cached(after[i]) && after[i].register.cache.Some? {
        SamePlace(nodes[i], after[i]);
        if i == id {
          InsideWrite(m, place.address, bytes);
          ResemblesItself(after[i].register, bytes);
        } else {
          assert True(m, nodes[i]);
          OtherTrue(w, nodes, m, id, place, bytes, v, i);
        }
      }
    }
  }

  lemma ResemblesItself(r: Register, bytes: Octets)
    ensures Resembles(r, bytes, bytes)
  {
  }

  lemma OtherTrue(w: World, nodes: seq<Node>, m: Octets, id: NodeId, place: Place, bytes: Octets, v: int, j: NodeId)
    requires Covered(w, nodes, |m|) && id < |nodes| && j < |nodes| && j != id && !Invalidates(w, id, j)
    requires Writable(nodes[id]) && ConstantRegister(nodes[id].register) && PlaceOf(nodes[id].register) == Some(place)
    requires place.address + place.length <= |m| && WriteOf(nodes[id], m, bytes, v)
    requires Cached(nodes[j]) && nodes[j].register.cache.Some? && ConstantRegister(nodes[j].register) && True(m, nodes[j])
    ensures |bytes| == place.length && True(Overwritten(m, place.address, bytes), nodes[j])
  {
    hide PlaceOf, Overwritten, Covered, NewBytes, Resembles, FieldOf, BitAt, Position;
    var r, p := nodes[j].register, PlaceOf(nodes[j].register).value;
    var after := Overwritten(m, place.address, bytes);
    if FieldOf(r, p.length).Some? {
      forall n: nat | if r.access.RW? then Within(p, n) else InField(r, p, n) ensures n / 8 < |m| && BitAt(after, n) == BitAt(m, n) {
        assert Exposes(nodes[j], |m|, n);
        Spared(w, nodes, m, id, bytes, v, j, n);
      }
    }
    StillTrue(m, after, r, p);
  }

  lemma CoveredAfter(w: World, nodes: seq<Node>, after: seq<Node>, m: Octets, id: NodeId, gone: seq<NodeId>)
    requires id < |nodes| && Covered(w, nodes, |m|) && Written(nodes, after, m, id, gone)
    ensures Covered(w, after, |m|)
  {
    hide Covered;
    CoveredSame(w, nodes, after, |m|);
  }

  lemma UncachedAfter(nodes: seq<Node>, after: seq<Node>, plain: seq<Node>, m: Octets, id: NodeId, gone: seq<NodeId>)
    requires id < |nodes| && SameNodes(nodes, plain) && Written(nodes, after, m, id, gone)
    ensures SameNodes(after, plain)
  {
  }

  /** What a write does to the nodes of either graph. */
  lemma PortWrittenNodes(w: World, g: Graph, id: NodeId, address: nat, bytes: Octets, m: Octets)
    requires id < |g.nodes| && g.nodes[id].Reg? && w.port(g.log + [WriteAt(address, bytes)]).Some?
    ensures var o := PortWrite(w, g, id, address, bytes);
            var gone := if id in w.invalidates then w.invalidates[id] else [];
            && o.result == Ok(()) && o.graph.log == g.log + [WriteAt(address, bytes)] && o.graph.visit == g.visit
            && Written(g.nodes, o.graph.nodes, m, id, gone)
            && o.graph.nodes[id].Reg? && (o.graph.nodes[id].register.cache.Some? ==> o.graph.nodes[id].register.cache == Some(bytes))
  {
    var h := g.(log := g.log + [WriteAt(address, bytes)]);
    var own := WithCache(h, id, if WritesThrough(g.nodes[id]) then Some(bytes) else None);
    if id in w.invalidates { InvalidatedNodes(own, w.invalidates[id]); }
  }

  lemma {:induction false} PlainInvalidated(g: Graph, ids: seq<NodeId>)
    requires forall i | 0 <= i < |g.nodes| && g.nodes[i].Reg? :: g.nodes[i].register.cache.None?
    ensures Invalidated(g, ids) == g
    decreases |ids|
  {
    if ids != [] {
      PlainCache(g, ids[0]);
      PlainInvalidated(g, ids[1..]);
    }
  }

  lemma PlainCache(g: Graph, id: NodeId)
    requires id < |g.nodes| && g.nodes[id].Reg? ==> g.nodes[id].register.cache.None?
    ensures WithCache(g, id, None) == g
  {
    if id < |g.nodes| && g.nodes[id].Reg? {
      assert g.nodes[id].register.(cache := None) == g.nodes[id].register;
      assert g.nodes[id := g.nodes[id]] == g.nodes;
    }
  }

  lemma PlainWrite(w: World, h: Graph, id: NodeId, address: nat, bytes: Octets)
    requires id < |h.nodes| && h.nodes[id].Reg? && h.nodes[id].register.cachable.NoCache?
    requires forall i | 0 <= i < |h.nodes| && h.nodes[i].Reg? :: h.nodes[i].register.cache.None?
    ensures var log := h.log + [WriteAt(address, bytes)];
            PortWrite(w, h, id, address, bytes)
            == Outcome(h.(log := log), if w.port(log).None? then Err(PortFailed) else Ok(()))
  {
    var k := h.(log := h.log + [WriteAt(address, bytes)]);
    PlainCache(k, id);
    if id in w.invalidates { PlainInvalidated(k, w.invalidates[id]); }
  }

  /** A write leaves every cache that survives it true to the device. */
  lemma PortWriteAlike(w: World, mem: Octets, g: Graph, h: Graph, id: NodeId, place: Place, bytes: Octets, v: int)
    requires MemoryLike(w, mem) && Alike(w, mem, g, h) && id < |g.nodes| && Writable(g.nodes[id])
    requires PlaceOf(g.nodes[id].register) == Some(place) && |bytes| == place.length
    requires place.address + place.length <= |mem| ==> WriteOf(g.nodes[id], MemoryAfter(mem, g.log), bytes, v)
    ensures Agree(w, mem, PortWrite(w, g, id, place.address, bytes), PortWrite(w, h, id, place.address, bytes))
  {
    hide MemoryAfter, MemoryAnswer, Covered, PlaceOf, AllTrue, PortWrite, Written, WriteOf;
    var a := place.address;
    var m := MemoryAfter(mem, g.log);
    LogWrite(mem, g.log, a, bytes);
    LogWrite(mem, h.log, a, bytes);
    PlainWrite(w, h, id, a, bytes);
    if a + |bytes| <= |m| {
      PortWrittenNodes(w, g, id, a, bytes, m);
      var o := PortWrite(w, g, id, a, bytes);
      var gone := if id in w.invalidates then w.invalidates[id] else [];
      WriteTrue(w, g.nodes, o.graph.nodes, m, id, place, bytes, v, gone);
      CoveredAfter(w, g.nodes, o.graph.nodes, m, id, gone);
      UncachedAfter(g.nodes, o.graph.nodes, h.nodes, m, id, gone);
    } else {
      WriteFails(w, g, id, a, bytes);
      LogAlike(w, mem, g, h, g.log + [WriteAt(a, bytes)], h.log + [WriteAt(a, bytes)]);
    }
  }

  lemma WriteFails(w: World, g: Graph, id: NodeId, a: nat, bytes: Octets)
    requires id < |g.nodes| && w.port(g.log + [WriteAt(a, bytes)]).None?
    ensures PortWrite(w, g, id, a, bytes) == Fails(g.(log := g.log + [WriteAt(a, bytes)]), PortFailed)
  {
  }

  lemma RegisterWriteAlike(w: World, mem: Octets, g: Graph, h: Graph, id: NodeId, bytes: Octets, v: int)
    requires MemoryLike(w, mem) && Alike(w, mem, g, h) && id < |g.nodes| && Writable(g.nodes[id])
    requires ConstantRegister(g.nodes[id].register)
    requires PlaceOf(g.nodes[id].register).Some? ==>
               var p := PlaceOf(g.nodes[id].register).value;
               |bytes| == p.length && (p.address + p.length <= |mem| ==> WriteOf(g.nodes[id], MemoryAfter(mem, g.log), bytes, v))
    ensures |h.nodes| == |g.nodes| && Agree(w, mem, RegisterWrite(w, g, id, bytes), RegisterWrite(w, h, id, bytes))
  {
    hide MemoryAfter, PlaceOf, Covered, AllTrue, PortWrite, WriteOf;
    var r := g.nodes[id].register;
    SamePlace(g.nodes[id], h.nodes[id]);
    PlaceConstant(w, g, r);
    PlaceConstant(w, h, h.nodes[id].register);
    if PlaceOf(r).Some? { PortWriteAlike(w, mem, g, h, id, PlaceOf(r).value, bytes, v); }
  }

  // ------------------------------------------------------- the whole evaluator

  lemma ResolveAlike(w: World, mem: Octets, g: Graph, h: Graph, link: Link)
    requires Alike(w, mem, g, h)
    ensures Resolve(g, link) == Resolve(h, link)
  {
  }

  lemma {:induction false} IntValueAlike(w: World, mem: Octets, g: Graph, h: Graph, id: NodeId)
    requires MemoryLike(w, mem) && Alike(w, mem, g, h) && id < |g.nodes|
    ensures |h.nodes| == |g.nodes| && Agree(w, mem, IntValue(w, g, id), IntValue(w, h, id))
    decreases Unvisited(g), 1, 0
  {
    hide SameNodes, Constant, Covered, AllTrue, MemoryAfter, MemoryLike, Distinct, IntInner;
    assert |h.nodes| == |g.nodes| by { SameCount(w, mem, g, h); }
    if id in g.visit {
      ClearAlike(w, mem, g, h);
    } else {
      EnteredAlike(w, mem, g, h, id);
      IntInnerAlike(w, mem, Entered(g, id), Entered(h, id), id);
      LeftAlike(w, mem, IntInner(w, Entered(g, id), id).graph, IntInner(w, Entered(h, id), id).graph);
    }
  }

  lemma SameCount(w: World, mem: Octets, g: Graph, h: Graph)
    requires Alike(w, mem, g, h)
    ensures |h.nodes| == |g.nodes|
  {
  }

  lemma {:induction false} LinkAlike(w: World, mem: Octets, g: Graph, h: Graph, link: Link)
    requires MemoryLike(w, mem) && Alike(w, mem, g, h)
    ensures Resolve(g, link) == Resolve(h, link)
    ensures Resolve(g, link).Some? ==>
              var id := Resolve(g, link).value; Agree(w, mem, IntValue(w, g, id), IntValue(w, h, id))
    decreases Unvisited(g), 1, 1
  {
    hide SameNodes, Constant, Covered, AllTrue, MemoryAfter, MemoryLike, Distinct, IntValue;
    SameCount(w, mem, g, h);
    if Resolve(g, link).Some? { IntValueAlike(w, mem, g, h, Resolve(g, link).value); }
  }

  lemma {:induction false} SelectedAlike(w: World, mem: Octets, g: Graph, h: Graph, vr: Ref)
    requires MemoryLike(w, mem) && Alike(w, mem, g, h) && vr.Indexed?
    ensures Agree(w, mem, Selected(w, g, vr), Selected(w, h, vr))
    decreases Unvisited(g), 2, 0
  {
    hide SameNodes, Constant, Covered, AllTrue, MemoryAfter, MemoryLike, IntValue;
    LinkAlike(w, mem, g, h, vr.index);
  }

  lemma {:induction false} RefIntAlike(w: World, mem: Octets, g: Graph, h: Graph, vr: Ref)
    requires MemoryLike(w, mem) && Alike(w, mem, g, h)
    ensures Agree(w, mem, RefInt(w, g, vr), RefInt(w, h, vr))
    decreases Unvisited(g), 3, vr
  {
    hide SameNodes, Constant, Covered, AllTrue, MemoryAfter, MemoryLike, IntValue, Selected, Distinct;
    match vr
    case Reference(link) => LinkAlike(w, mem, g, h, link);
    case Indexed(_, _, _) =>
      SelectedAlike(w, mem, g, h, vr);
      var a, b := Selected(w, g, vr), Selected(w, h, vr);
      if a.result.Ok? { RefIntAlike(w, mem, a.graph, b.graph, a.result.value); }
    case _ =>
  }

  lemma NodeAlike(w: World, mem: Octets, g: Graph, h: Graph, id: NodeId)
    requires Alike(w, mem, g, h) && id < |g.nodes|
    ensures |h.nodes| == |g.nodes| && h.nodes[id] == Uncached(g.nodes[id])
    ensures g.nodes[id].Reg? ==> ConstantRegister(g.nodes[id].register)
  {
  }

  lemma {:induction false} IntInnerAlike(w: World, mem: Octets, g: Graph, h: Graph, id: NodeId)
    requires MemoryLike(w, mem) && Alike(w, mem, g, h) && id < |g.nodes|
    ensures |h.nodes| == |g.nodes| && Agree(w, mem, IntInner(w, g, id), IntInner(w, h, id))
    decreases Unvisited(g), 7, 0
  {
    hide SameNodes, Constant, Covered, AllTrue, MemoryAfter, MemoryLike, RefInt, EvalFormula, RegisterRead, ExtractInt, Distinct, PlaceOf, FieldOf;
    NodeAlike(w, mem, g, h, id);
    match g.nodes[id]
    case Feature(_, value) => RefIntAlike(w, mem, g, h, value);
    case Reg(r) => RegisterReadAlike(w, mem, g, h, id);
    case Converter(value, _, from) =>
      RefIntAlike(w, mem, g, h, value);
      var a, b := RefInt(w, g, value), RefInt(w, h, value);
      if a.result.Ok? { FormulaAlike(w, mem, a.graph, b.graph, from, Some(a.result.value)); }
    case SwissKnife(formula) => FormulaAlike(w, mem, g, h, formula, None);
    case _ =>
  }

  lemma {:induction false} FormulaAlike(w: World, mem: Octets, g: Graph, h: Graph, formula: Formula, builtin: Option<int>)
    requires MemoryLike(w, mem) && Alike(w, mem, g, h)
    ensures Agree(w, mem, EvalFormula(w, g, formula, builtin), EvalFormula(w, h, formula, builtin))
    decreases Unvisited(g), 5, 0
  {
    hide SameNodes, Constant, Covered, AllTrue, MemoryAfter, MemoryLike, TermValues, Distinct;
    TermsAlike(w, mem, g, h, formula.terms, builtin);
  }

  lemma {:induction false} TermsAlike(w: World, mem: Octets, g: Graph, h: Graph, terms: seq<Term>, builtin: Option<int>)
    requires MemoryLike(w, mem) && Alike(w, mem, g, h)
    ensures Agree(w, mem, TermValues(w, g, terms, builtin), TermValues(w, h, terms, builtin))
    decreases Unvisited(g), 4, |terms|
  {
    hide SameNodes, Constant, Covered, AllTrue, MemoryAfter, MemoryLike, IntValue, Distinct;
    if terms != [] {
      if terms[0].Variable? { LinkAlike(w, mem, g, h, terms[0].link); }
      var a, b := TermValue(w, g, terms[0], builtin), TermValue(w, h, terms[0], builtin);
      if a.result.Ok? { TermsAlike(w, mem, a.graph, b.graph, terms[1..], builtin); }
    }
  }

  // ----------------------------------------------------------------- writing

  lemma {:induction false} SetIntValueAlike(w: World, mem: Octets, g: Graph, h: Graph, id: NodeId, v: int)
    requires MemoryLike(w, mem) && Alike(w, mem, g, h) && id < |g.nodes|
    ensures |h.nodes| == |g.nodes| && Agree(w, mem, SetIntValue(w, g, id, v), SetIntValue(w, h, id, v))
    decreases Unvisited(g), 1, 0
  {
    hide SameNodes, Constant, Covered, AllTrue, MemoryAfter, MemoryLike, Distinct, SetInner;
    assert |h.nodes| == |g.nodes| by { SameCount(w, mem, g, h); }
    if id in g.visit {
      ClearAlike(w, mem, g, h);
    } else {
      EnteredAlike(w, mem, g, h, id);
      SetInnerAlike(w, mem, Entered(g, id), Entered(h, id), id, v);
      LeftAlike(w, mem, SetInner(w, Entered(g, id), id, v).graph, SetInner(w, Entered(h, id), id, v).graph);
    }
  }

  lemma {:induction false} SetInnerAlike(w: World, mem: Octets, g: Graph, h: Graph, id: NodeId, v: int)
    requires MemoryLike(w, mem) && Alike(w, mem, g, h) && id < |g.nodes|
    ensures |h.nodes| == |g.nodes| && Agree(w, mem, SetInner(w, g, id, v), SetInner(w, h, id, v))
    decreases Unvisited(g), 8, 0
  {
    hide SameNodes, Constant, Covered, AllTrue, MemoryAfter, MemoryLike, SetRefInt, EvalFormula, SetRegister, SetTarget, Distinct;
    NodeAlike(w, mem, g, h, id);
    match g.nodes[id]
    case Feature(_, value) => SetRefIntAlike(w, mem, g, h, id, value, v);
    case Command(value, _) => SetRefIntAlike(w, mem, g, h, id, value, v);
    case Reg(_) => SetRegisterAlike(w, mem, g, h, id, v);
    case Converter(value, to, _) =>
      FormulaAlike(w, mem, g, h, to, Some(v));
      var a, b := EvalFormula(w, g, to, Some(v)), EvalFormula(w, h, to, Some(v));
      if a.result.Ok? { SetTargetAlike(w, mem, a.graph, b.graph, value, a.result.value); }
    case _ =>
  }

  /** Reading leaves the register's description. */
  lemma ReadKeeps(w: World, g: Graph, id: NodeId)
    requires Distinct(g.visit) && id < |g.nodes| && g.nodes[id].Reg? && ConstantRegister(g.nodes[id].register)
    ensures var o := RegisterRead(w, g, id);
            o.graph.nodes[id].Reg? && o.graph.nodes[id].register == g.nodes[id].register.(cache := o.graph.nodes[id].register.cache)
  {
    hide PlaceOf;
    PlaceConstant(w, g, g.nodes[id].register);
  }

  /** A masked write, once the register is read. */
  lemma MaskedAlike(w: World, mem: Octets, g: Graph, h: Graph, id: NodeId, v: int, current: Octets, device: Octets)
    requires MemoryLike(w, mem) && Alike(w, mem, g, h) && id < |g.nodes| && g.nodes[id].Reg? && Masked(g.nodes[id].register)
    requires ConstantRegister(g.nodes[id].register) && PlaceOf(g.nodes[id].register).Some? && !g.nodes[id].register.access.WO?
    requires var p := PlaceOf(g.nodes[id].register).value;
             p.address + p.length <= |mem| && device == BytesAt(MemoryAfter(mem, g.log), p)
    requires Resembles(g.nodes[id].register, current, device)
    ensures var r := g.nodes[id].register;
            var x, y := InsertInt(current, v, r.endianness, r.lsb, r.msb), InsertInt(device, v, r.endianness, r.lsb, r.msb);
            && |h.nodes| == |g.nodes| && x.Some? == y.Some?
            && (x.Some? ==> Agree(w, mem, RegisterWrite(w, g, id, x.value), RegisterWrite(w, h, id, y.value)))
  {
    hide SameNodes, Constant, Covered, AllTrue, MemoryAfter, MemoryLike, PlaceOf, Distinct, Store, InsertField, Load, RegisterPlace, PortWrite, Extracted;
    NodeAlike(w, mem, g, h, id);
    AlikeDistinct(w, mem, g, h);
    var r := g.nodes[id].register;
    var x := InsertInt(current, v, r.endianness, r.lsb, r.msb);
    if x.Some? && r.access.RW? { RegisterWriteAlike(w, mem, g, h, id, x.value, v); }
  }

  lemma WholeAlike(w: World, mem: Octets, g: Graph, h: Graph, id: NodeId, v: int)
    requires MemoryLike(w, mem) && Alike(w, mem, g, h) && id < |g.nodes| && g.nodes[id].Reg? && !Masked(g.nodes[id].register)
    requires ConstantRegister(g.nodes[id].register) && PlaceOf(g.nodes[id].register).Some?
    ensures var r := g.nodes[id].register;
            var x := EncodeInt(v, PlaceOf(r).value.length, r.endianness);
            |h.nodes| == |g.nodes| && (x.Some? ==> Agree(w, mem, RegisterWrite(w, g, id, x.value), RegisterWrite(w, h, id, x.value)))
  {
    hide SameNodes, Constant, Covered, AllTrue, MemoryAfter, MemoryLike, PlaceOf, Distinct, Store, RegisterPlace, PortWrite;
    NodeAlike(w, mem, g, h, id);
    AlikeDistinct(w, mem, g, h);
    var r := g.nodes[id].register;
    var x := EncodeInt(v, PlaceOf(r).value.length, r.endianness);
    if x.Some? && !r.access.RO? { RegisterWriteAlike(w, mem, g, h, id, x.value, v); }
  }

  lemma SetRegisterAlike(w: World, mem: Octets, g: Graph, h: Graph, id: NodeId, v: int)
    requires MemoryLike(w, mem) && Alike(w, mem, g, h) && id < |g.nodes| && g.nodes[id].Reg?
    ensures |h.nodes| == |g.nodes| && h.nodes[id].Reg? && Agree(w, mem, SetRegister(w, g, id, v), SetRegister(w, h, id, v))
  {
    hide SameNodes, Constant, Covered, AllTrue, MemoryAfter, MemoryLike, RegisterRead, RegisterWrite, RegisterLength, InsertInt, EncodeInt, PlaceOf, Distinct, Resembles;
    NodeAlike(w, mem, g, h, id);
    var r, q := g.nodes[id].register, h.nodes[id].register;
    SamePlace(g.nodes[id], h.nodes[id]);
    AlikeDistinct(w, mem, g, h);
    PlaceConstant(w, g, r);
    PlaceConstant(w, h, q);
    if PlaceOf(r).Some? {
      if Masked(r) {
        RegisterReadAlike(w, mem, g, h, id);
        ReadKeeps(w, g, id);
        var a, b := RegisterRead(w, g, id), RegisterRead(w, h, id);
        if a.result.Ok? {
          ReadableOnly(w, g, id);
          SamePlace(g.nodes[id], a.graph.nodes[id]);
          SameResembles(r, a.graph.nodes[id].register, a.result.value, b.result.value);
          MaskedAlike(w, mem, a.graph, b.graph, id, v, a.result.value, b.result.value);
        }
      } else {
        WholeAlike(w, mem, g, h, id, v);
      }
    }
  }

  lemma ReadableOnly(w: World, g: Graph, id: NodeId)
    requires Distinct(g.visit) && id < |g.nodes| && g.nodes[id].Reg? && RegisterRead(w, g, id).result.Ok?
    ensures !g.nodes[id].register.access.WO?
  {
  }

  lemma SameResembles(r: Register, q: Register, bytes: Octets, device: Octets)
    requires q == r.(cache := q.cache) && Resembles(r, bytes, device)
    ensures Resembles(q, bytes, device)
  {
  }

  lemma AlikeDistinct(w: World, mem: Octets, g: Graph, h: Graph)
    requires Alike(w, mem, g, h)
    ensures Distinct(g.visit) && Distinct(h.visit)
  {
  }

  lemma LiteralAlike(w: World, mem: Octets, g: Graph, h: Graph, id: NodeId, v: int)
    requires Alike(w, mem, g, h) && id < |g.nodes|
    ensures |h.nodes| == |g.nodes| && Alike(w, mem, WithLiteral(g, id, v), WithLiteral(h, id, v))
  {
    hide MemoryAfter, PlaceOf, Covered, Resembles;
    var k := WithLiteral(g, id, v);
    assert Constant(k.nodes);
    CoveredSame(w, g.nodes, k.nodes, |mem|);
  }

  lemma {:induction false} SetRefIntAlike(w: World, mem: Octets, g: Graph, h: Graph, id: NodeId, vr: Ref, v: int)
    requires MemoryLike(w, mem) && Alike(w, mem, g, h) && id < |g.nodes|
    ensures |h.nodes| == |g.nodes| && Agree(w, mem, SetRefInt(w, g, id, vr, v), SetRefInt(w, h, id, vr, v))
    decreases Unvisited(g), 5, 0
  {
    hide SameNodes, Constant, Covered, AllTrue, MemoryAfter, MemoryLike, SetTarget, WithLiteral, Distinct;
    SameCount(w, mem, g, h);
    if vr.Literal? { LiteralAlike(w, mem, g, h, id, v); } else { SetTargetAlike(w, mem, g, h, vr, v); }
  }

  lemma {:induction false} SetLinkAlike(w: World, mem: Octets, g: Graph, h: Graph, link: Link, v: int)
    requires MemoryLike(w, mem) && Alike(w, mem, g, h)
    ensures Agree(w, mem, SetLink(w, g, link, v), SetLink(w, h, link, v))
    decreases Unvisited(g), 2, 0
  {
    hide SameNodes, Constant, Covered, AllTrue, MemoryAfter, MemoryLike, SetIntValue, Distinct;
    ResolveAlike(w, mem, g, h, link);
    if Resolve(g, link).Some? { SetIntValueAlike(w, mem, g, h, Resolve(g, link).value, v); }
  }

  lemma {:induction false} SetTargetAlike(w: World, mem: Octets, g: Graph, h: Graph, vr: Ref, v: int)
    requires MemoryLike(w, mem) && Alike(w, mem, g, h)
    ensures Agree(w, mem, SetTarget(w, g, vr, v), SetTarget(w, h, vr, v))
    decreases Unvisited(g), 4, 0
  {
    hide SameNodes, Constant, Covered, AllTrue, MemoryAfter, MemoryLike, SetLink, Selected, Distinct;
    match vr
    case Reference(link) => SetLinkAlike(w, mem, g, h, link, v);
    case Indexed(_, _, _) =>
      SelectedAlike(w, mem, g, h, vr);
      var a, b := Selected(w, g, vr), Selected(w, h, vr);
      if a.result.Ok? && a.result.value.Reference? { SetLinkAlike(w, mem, a.graph, b.graph, a.result.value.link, v); }
    case _ =>
  }

  // ------------------------------------------------------------------ theorem

  lemma ExecuteAlike(w: World, mem: Octets, g: Graph, h: Graph, id: NodeId)
    requires MemoryLike(w, mem) && Alike(w, mem, g, h) && id < |g.nodes|
    ensures |h.nodes| == |g.nodes| && Agree(w, mem, Execute(w, g, id), Execute(w, h, id))
  {
    hide SameNodes, Constant, Covered, AllTrue, MemoryAfter, MemoryLike, SetRefInt, RefInt, Distinct;
    NodeAlike(w, mem, g, h, id);
    if g.nodes[id].Command? {
      var value, commandValue := g.nodes[id].value, g.nodes[id].commandValue;
      if commandValue.Nothing? {
        SetRefIntAlike(w, mem, g, h, id, value, 1);
      } else {
        RefIntAlike(w, mem, g, h, commandValue);
        var a, b := RefInt(w, g, commandValue), RefInt(w, h, commandValue);
        if a.result.Ok? { SetRefIntAlike(w, mem, a.graph, b.graph, id, value, a.result.value); }
      }
    }
  }

  lemma ClearedAlike(w: World, mem: Octets, g: Graph, h: Graph)
    requires Alike(w, mem, g, h)
    ensures Alike(w, mem, CachesCleared(g), CachesCleared(h))
  {
    hide MemoryAfter, PlaceOf, Covered;
    var k := CachesCleared(g);
    forall i | 0 <= i < |k.nodes| && k.nodes[i].Reg? ensures ConstantRegister(k.nodes[i].register) { SamePlace(g.nodes[i], k.nodes[i]); }
    CoveredSame(w, g.nodes, k.nodes, |mem|);
    assert CachesCleared(h).nodes == h.nodes;
  }

  lemma CallAlike(w: World, mem: Octets, g: Graph, h: Graph, call: Call)
    requires MemoryLike(w, mem) && Alike(w, mem, g, h)
    ensures Distinct(h.visit)
    ensures var a, b := Perform(w, g, call), Perform(w, h, call); a.answer == b.answer && Alike(w, mem, a.graph, b.graph)
  {
    hide SameNodes, Constant, Covered, AllTrue, MemoryAfter, MemoryLike, IntValue, SetIntValue, Execute;
    SameCount(w, mem, g, h);
    match call
    case Read(id) => if id < |g.nodes| { IntValueAlike(w, mem, g, h, id); }
    case Write(id, v) => if id < |g.nodes| { SetIntValueAlike(w, mem, g, h, id, v); }
    case Run(id) => if id < |g.nodes| { ExecuteAlike(w, mem, g, h, id); }
    case Clear => ClearedAlike(w, mem, g, h);
  }

  lemma {:induction false} CallsAlike(w: World, mem: Octets, g: Graph, h: Graph, calls: seq<Call>)
    requires MemoryLike(w, mem) && Alike(w, mem, g, h) && g.visit == []
    ensures h.visit == []
    ensures var a, b := PerformAll(w, g, calls), PerformAll(w, h, calls);
            a.answers == b.answers && Alike(w, mem, a.graph, b.graph)
    decreases |calls|
  {
    hide Alike, MemoryLike, Perform;
    assert h.visit == [] by { SameVisit(w, mem, g, h); }
    if calls != [] {
      CallsAlike(w, mem, g, h, calls[..|calls| - 1]);
      var a, b := PerformAll(w, g, calls[..|calls| - 1]), PerformAll(w, h, calls[..|calls| - 1]);
      CallAlike(w, mem, a.graph, b.graph, calls[|calls| - 1]);
    }
  }

  lemma SameVisit(w: World, mem: Octets, g: Graph, h: Graph)
    requires Alike(w, mem, g, h)
    ensures g.visit == h.visit
  {
  }

  /** Nothing is cached yet. */
  predicate Cold(g: Graph) { g.visit == [] && g.log == [] && forall i | 0 <= i < |g.nodes| && g.nodes[i].Reg? :: g.nodes[i].register.cache.None? }

  /** The same graph with caching switched off. */
  function CachingOff(g: Graph): (h: Graph)
    ensures |h.nodes| == |g.nodes| && h.visit == g.visit && h.log == g.log
    ensures forall i | 0 <= i < |g.nodes| :: h.nodes[i] == Uncached(g.nodes[i])
  {
    g.(nodes := seq(|g.nodes|, i requires 0 <= i < |g.nodes| => Uncached(g.nodes[i])))
  }

  /** Where every write invalidates the caches it could be missed in, any sequence
      of reads, writes, commands and cache clears gives the same answers, and leaves
      the same device memory, as with caching off. */
  lemma CachingTransparent(w: World, mem: Octets, g: Graph, calls: seq<Call>)
    requires MemoryLike(w, mem) && Cold(g) && Constant(g.nodes) && Covered(w, g.nodes, |mem|)
    ensures var a, b := PerformAll(w, g, calls), PerformAll(w, CachingOff(g), calls);
            a.answers == b.answers && MemoryAfter(mem, a.graph.log) == MemoryAfter(mem, b.graph.log)
  {
    hide PerformAll, MemoryLike, MemoryAfter, PlaceOf, Covered;
    assert Alike(w, mem, g, CachingOff(g));
    CallsAlike(w, mem, g, CachingOff(g), calls);
  }

  /** In particular where overlapping registers list one another as invalidators. */
  lemma ListedTransparent(w: World, mem: Octets, g: Graph, calls: seq<Call>)
    requires MemoryLike(w, mem) && Cold(g) && Constant(g.nodes) && OverlapsListed(w, g.nodes)
    ensures var a, b := PerformAll(w, g, calls), PerformAll(w, CachingOff(g), calls);
            a.answers == b.answers && MemoryAfter(mem, a.graph.log) == MemoryAfter(mem, b.graph.log)
  {
    hide PerformAll, MemoryLike, MemoryAfter, PlaceOf, Covered, OverlapsListed;
    OverlapsCover(w, g.nodes, |mem|);
    CachingTransparent(w, mem, g, calls);
  }
}
