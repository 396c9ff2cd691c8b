/** The condition on invalidators is exact: caching is invisible if and only if
    writing a register invalidates every cache in which the write could be missed. */
module CacheExactness {
  import opened Gvsp
  import opened BitFields
  import opened NodeGraph
  import opened Circularity
  import opened FieldBits
  import opened Caching
  import RegisterFields

  ghost predicate Invisible(w: World, mem: Octets, g: Graph)
    requires g.visit == []
  {
    forall calls: seq<Call> ::
      && PerformAll(w, g, calls).answers == PerformAll(w, CachingOff(g), calls).answers
      && MemoryAfter(mem, PerformAll(w, g, calls).graph.log) == MemoryAfter(mem, PerformAll(w, CachingOff(g), calls).graph.log)
  }

  // ---------------------------------------------------------- reading, writing

  /** The bytes a register is read as: its cache's, else the device's. */
  function Current(node: Node, m: Octets): Octets
    requires Works(node, |m|)
  {
    if Cached(node) && node.register.cache.Some? then node.register.cache.value
    else BytesAt(m, PlaceOf(node.register).value)
  }

  /** A working register whose cache, if any, has its length. */
  predicate Sized(node: Node, m: Octets) { Works(node, |m|) && |Current(node, m)| == PlaceOf(node.register).value.length }

  predicate CanWrite(node: Node) { Writable(node) && (Masked(node.register) ==> node.register.access.RW?) }

  /** From `g` to `h` only register `id` has gained a cache. */
  ghost predicate ReadIn(mem: Octets, g: Graph, h: Graph, id: NodeId)
    requires id < |g.nodes| && Works(g.nodes[id], |MemoryAfter(mem, g.log)|)
  {
    && h.visit == g.visit && MemoryAfter(mem, h.log) == MemoryAfter(mem, g.log)
    && h.nodes == if !Cached(g.nodes[id]) then g.nodes
                  else g.nodes[id := Reg(g.nodes[id].register.(cache := Some(Current(g.nodes[id], MemoryAfter(mem, g.log)))))]
  }

  lemma RegisterReads(w: World, mem: Octets, g: Graph, id: NodeId)
    requires MemoryLike(w, mem) && Distinct(g.visit) && id < |g.nodes| && Works(g.nodes[id], |mem|)
    requires !g.nodes[id].register.access.WO?
    ensures var o := RegisterRead(w, g, id);
            o.result == Ok(Current(g.nodes[id], MemoryAfter(mem, g.log))) && ReadIn(mem, g, o.graph, id)
  {
    hide MemoryAfter, MemoryAnswer, PlaceOf, FieldOf, RegisterPlace;
    ReadIs(w, g, id);
    hide RegisterRead;
    var p := PlaceOf(g.nodes[id].register).value;
    LogRead(mem, g.log, p.address, p.length);
    assert w.port(g.log + [ReadAt(p.address, p.length)]) == MemoryAnswer(mem, g.log + [ReadAt(p.address, p.length)]);
    if Cached(g.nodes[id]) && g.nodes[id].register.cache.Some? {
      var r := g.nodes[id].register;
      assert r.(cache := Some(r.cache.value)) == r;
      assert g.nodes[id := g.nodes[id]] == g.nodes;
    }
  }

  /** Reading a register answers with its number. */
  lemma ReadCall(w: World, mem: Octets, g: Graph, id: NodeId)
    requires MemoryLike(w, mem) && g.visit == [] && id < |g.nodes| && Sized(g.nodes[id], MemoryAfter(mem, g.log))
    requires !g.nodes[id].register.access.WO?
    ensures var r, bytes := g.nodes[id].register, Current(g.nodes[id], MemoryAfter(mem, g.log));
            var a := Perform(w, g, Read(id));
            Extracted(r, bytes).Some? && a.answer == Value(Extracted(r, bytes).value) && ReadIn(mem, g, a.graph, id)
  {
    hide MemoryAfter, MemoryLike, PlaceOf, RegisterRead, ExtractField, Load, IntValue, FieldOf, ReadIn;
    var e := Entered(g, id);
    RegisterReads(w, mem, e, id);
    GetIs(w, g, id);
    NumberSome(g.nodes[id], MemoryAfter(mem, g.log));
    ReadLeft(mem, g, RegisterRead(w, e, id).graph, id);
  }

  lemma NumberSome(node: Node, m: Octets)
    requires Sized(node, m)
    ensures Extracted(node.register, Current(node, m)).Some?
  {
    hide PlaceOf, ExtractField, Load, Current;
  }

  lemma GetIs(w: World, g: Graph, id: NodeId)
    requires g.visit == [] && id < |g.nodes| && g.nodes[id].Reg? && RegisterRead(w, Entered(g, id), id).result.Ok?
    ensures var o, r := RegisterRead(w, Entered(g, id), id), g.nodes[id].register;
            IntValue(w, g, id) == Outcome(Left(o.graph), if Extracted(r, o.result.value).None? then Err(BadFormula)
                                                         else Ok(Extracted(r, o.result.value).value))
  {
    hide RegisterRead, ExtractInt;
  }

  lemma ReadLeft(mem: Octets, g: Graph, h: Graph, id: NodeId)
    requires g.visit == [] && id < |g.nodes| && Works(g.nodes[id], |MemoryAfter(mem, g.log)|) && ReadIn(mem, Entered(g, id), h, id)
    ensures ReadIn(mem, g, Left(h), id)
  {
    hide MemoryAfter, PlaceOf, FieldOf;
  }

  /** From `g` to `h` register `id` was written from the bytes it was read as. */
  ghost predicate WrittenIn(w: World, mem: Octets, g: Graph, h: Graph, id: NodeId, v: int)
    requires id < |g.nodes| && Sized(g.nodes[id], MemoryAfter(mem, g.log))
  {
    var (m, r, p) := (MemoryAfter(mem, g.log), g.nodes[id].register, PlaceOf(g.nodes[id].register).value);
    var bytes := NewBytes(r, Current(g.nodes[id], m), v);
    && h.visit == g.visit && bytes.Some? && MemoryAfter(mem, h.log) == Overwritten(m, p.address, bytes.value)
    && |h.nodes| == |g.nodes|
    && (forall j | 0 <= j < |g.nodes| :: SameNode(g.nodes[j], h.nodes[j]))
    && (forall j | 0 <= j < |g.nodes| && j != id && !Invalidates(w, id, j) :: h.nodes[j] == g.nodes[j])
  }

  lemma {:induction false} OthersKept(g: Graph, ids: seq<NodeId>)
    ensures forall j | 0 <= j < |g.nodes| && j !in ids :: Invalidated(g, ids).nodes[j] == g.nodes[j]
    decreases |ids|
  {
    if ids != [] { OthersKept(WithCache(g, ids[0], None), ids[1..]); }
  }

  lemma PortWrites(w: World, mem: Octets, g: Graph, id: NodeId, address: nat, bytes: Octets)
    requires MemoryLike(w, mem) && id < |g.nodes| && g.nodes[id].Reg? && address + |bytes| <= |mem|
    ensures var o := PortWrite(w, g, id, address, bytes);
            && o.result == Ok(()) && o.graph.visit == g.visit
            && MemoryAfter(mem, o.graph.log) == Overwritten(MemoryAfter(mem, g.log), address, bytes)
            && |o.graph.nodes| == |g.nodes|
            && (forall j | 0 <= j < |g.nodes| :: SameNode(g.nodes[j], o.graph.nodes[j]))
            && (forall j | 0 <= j < |g.nodes| && j != id && !Invalidates(w, id, j) :: o.graph.nodes[j] == g.nodes[j])
  {
    hide MemoryAfter, MemoryAnswer;
    LogWrite(mem, g.log, address, bytes);
    assert w.port(g.log + [WriteAt(address, bytes)]) == MemoryAnswer(mem, g.log + [WriteAt(address, bytes)]);
    PortWrittenNodes(w, g, id, address, bytes, mem);
    var h := g.(log := g.log + [WriteAt(address, bytes)]);
    var own := WithCache(h, id, if WritesThrough(g.nodes[id]) then Some(bytes) else None);
    if id in w.invalidates { OthersKept(own, w.invalidates[id]); }
  }

  lemma RegisterWrites(w: World, mem: Octets, g: Graph, id: NodeId, bytes: Octets)
    requires MemoryLike(w, mem) && Distinct(g.visit) && id < |g.nodes| && Works(g.nodes[id], |mem|) && Writable(g.nodes[id])
    requires |bytes| == PlaceOf(g.nodes[id].register).value.length
    ensures RegisterWrite(w, g, id, bytes) == PortWrite(w, g, id, PlaceOf(g.nodes[id].register).value.address, bytes)
  {
    hide PlaceOf, PortWrite, RegisterPlace, MemoryLike, FieldOf;
    PlaceConstant(w, g, g.nodes[id].register);
  }

  lemma SetWrites(w: World, mem: Octets, g: Graph, id: NodeId, v: int)
    requires MemoryLike(w, mem) && Distinct(g.visit) && id < |g.nodes| && Sized(g.nodes[id], MemoryAfter(mem, g.log)) && CanWrite(g.nodes[id])
    ensures SetRegister(w, g, id, v).result == Ok(()) && WrittenIn(w, mem, g, SetRegister(w, g, id, v).graph, id, v)
  {
    hide MemoryAfter, MemoryLike, PlaceOf, RegisterRead, RegisterWrite, RegisterLength, PortWrite, Store, InsertField, Load, Overwritten;
    var r, m := g.nodes[id].register, MemoryAfter(mem, g.log);
    var p := PlaceOf(r).value;
    PlaceConstant(w, g, r);
    var bytes := NewBytes(r, Current(g.nodes[id], m), v);
    assert bytes.Some?;
    hide InsertInt, EncodeInt, FieldOf;
    if Masked(r) {
      RegisterReads(w, mem, g, id);
      var h := RegisterRead(w, g, id).graph;
      SamePlace(g.nodes[id], h.nodes[id]);
      SameWorks(g.nodes[id], h.nodes[id], |mem|);
      RegisterWrites(w, mem, h, id, bytes.value);
      PortWrites(w, mem, h, id, p.address, bytes.value);
    } else {
      RegisterWrites(w, mem, g, id, bytes.value);
      PortWrites(w, mem, g, id, p.address, bytes.value);
    }
  }

  lemma SameWorks(a: Node, b: Node, size: nat)
    requires SameNode(a, b) && Works(a, size)
    ensures Works(b, size) && PlaceOf(b.register) == PlaceOf(a.register)
  {
    hide PlaceOf, BitRange;
    SamePlace(a, b);
  }

  lemma WriteCall(w: World, mem: Octets, g: Graph, id: NodeId, v: int)
    requires MemoryLike(w, mem) && g.visit == [] && id < |g.nodes| && Sized(g.nodes[id], MemoryAfter(mem, g.log)) && CanWrite(g.nodes[id])
    ensures var a := Perform(w, g, Write(id, v)); a.answer == Done && WrittenIn(w, mem, g, a.graph, id, v)
  {
    hide MemoryAfter, MemoryLike, PlaceOf, SetRegister, NewBytes, Overwritten, FieldOf, WrittenIn, SetIntValue, Works;
    var e := Entered(g, id);
    SetWrites(w, mem, e, id, v);
    RegisterFields.SetIs(w, g, id, v);
    WriteLeft(w, mem, g, SetRegister(w, e, id, v).graph, id, v);
  }

  lemma WriteLeft(w: World, mem: Octets, g: Graph, h: Graph, id: NodeId, v: int)
    requires g.visit == [] && id < |g.nodes| && Sized(g.nodes[id], MemoryAfter(mem, g.log)) && WrittenIn(w, mem, Entered(g, id), h, id, v)
    ensures WrittenIn(w, mem, g, Left(h), id, v)
  {
    hide MemoryAfter, PlaceOf, FieldOf, NewBytes, Overwritten;
  }

  // ------------------------------------------------------- three calls that tell

  lemma ThreeCalls(w: World, g: Graph, a: Call, b: Call, c: Call)
    requires g.visit == []
    ensures var r := Perform(w, g, a);
            && r.graph.visit == []
            && var s := Perform(w, r.graph, b);
            && s.graph.visit == []
            && PerformAll(w, g, [a, b, c])
               == Trace(Perform(w, s.graph, c).graph, [r.answer, s.answer, Perform(w, s.graph, c).answer])
  {
    hide Perform;
    assert [a, b, c][..2] == [a, b] && [a, b][..1] == [a] && [a][..0] == [];
    var t0 := PerformAll(w, g, []);
    assert t0 == Trace(g, []);
    var t1 := PerformAll(w, g, [a]);
    assert t1 == Trace(Perform(w, g, a).graph, [] + [Perform(w, g, a).answer]);
    var t2 := PerformAll(w, g, [a, b]);
    assert t2 == Trace(Perform(w, t1.graph, b).graph, t1.answers + [Perform(w, t1.graph, b).answer]);
  }

  /** The memory once `v` is written to a register of a cold graph. */
  function After(node: Node, mem: Octets, v: int): (m: Octets)
    requires Works(node, |mem|)
    ensures |m| == |mem|
  {
    var p := PlaceOf(node.register).value;
    var bytes := NewBytes(node.register, BytesAt(mem, p), v);
    if bytes.Some? then Overwritten(mem, p.address, bytes.value) else mem
  }

  /** Reading `j` and writing `i` leaves `j` read as before if it is cached. */
  lemma ReadThenWrite(w: World, mem: Octets, g: Graph, i: NodeId, j: NodeId, v: int) returns (b: Graph)
    requires MemoryLike(w, mem) && Cold(g) && i < |g.nodes| && j < |g.nodes| && i != j && !Invalidates(w, i, j)
    requires Works(g.nodes[i], |mem|) && CanWrite(g.nodes[i]) && Works(g.nodes[j], |mem|) && !g.nodes[j].register.access.WO?
    ensures var a := Perform(w, g, Read(j)).graph; a.visit == [] && b == Perform(w, a, Write(i, v)).graph
    ensures b.visit == [] && MemoryAfter(mem, b.log) == After(g.nodes[i], mem, v)
    ensures |b.nodes| == |g.nodes| && SameNode(g.nodes[j], b.nodes[j]) && Sized(b.nodes[j], After(g.nodes[i], mem, v))
    ensures var p := PlaceOf(g.nodes[j].register).value;
            Current(b.nodes[j], After(g.nodes[i], mem, v)) == BytesAt(if Cached(g.nodes[j]) then mem else After(g.nodes[i], mem, v), p)
  {
    hide MemoryLike, MemoryAfter, PlaceOf, Perform, NewBytes, Overwritten, FieldOf;
    NoTransfers(mem);
    ReadCall(w, mem, g, j);
    var a := Perform(w, g, Read(j)).graph;
    assert a.nodes[i] == g.nodes[i];
    WriteCall(w, mem, a, i, v);
    b := Perform(w, a, Write(i, v)).graph;
    assert b.nodes[j] == a.nodes[j];
    SameWorks(g.nodes[j], b.nodes[j], |mem|);
  }

  lemma NoTransfers(mem: Octets)
    ensures MemoryAfter(mem, []) == mem
  {
  }

  /** Reads `j`, writes `i`, reads `j` again. */
  lemma Reread(w: World, mem: Octets, g: Graph, i: NodeId, j: NodeId, v: int)
    requires MemoryLike(w, mem) && Cold(g) && i < |g.nodes| && j < |g.nodes| && i != j && !Invalidates(w, i, j)
    requires Works(g.nodes[i], |mem|) && CanWrite(g.nodes[i]) && Works(g.nodes[j], |mem|) && !g.nodes[j].register.access.WO?
    ensures var r, m := g.nodes[j].register, After(g.nodes[i], mem, v);
            var seen := Extracted(r, BytesAt(if Cached(g.nodes[j]) then mem else m, PlaceOf(r).value));
            var answers := PerformAll(w, g, [Read(j), Write(i, v), Read(j)]).answers;
            seen.Some? && |answers| == 3 && answers[2] == Value(seen.value)
  {
    hide MemoryLike, MemoryAfter, PlaceOf, Perform, NewBytes, Overwritten, FieldOf, After, ExtractInt, Current;
    ThreeCalls(w, g, Read(j), Write(i, v), Read(j));
    var b := ReadThenWrite(w, mem, g, i, j, v);
    ReadCall(w, mem, b, j);
  }

  /** Reads `j`, writes `i`, writes `j`: a bit outside the field of `j` is written
      back as it was read. */
  lemma Rewrite(w: World, mem: Octets, g: Graph, i: NodeId, j: NodeId, v: int, u: int, n: nat)
    requires MemoryLike(w, mem) && Cold(g) && i < |g.nodes| && j < |g.nodes| && i != j && !Invalidates(w, i, j)
    requires Works(g.nodes[i], |mem|) && CanWrite(g.nodes[i]) && Works(g.nodes[j], |mem|) && g.nodes[j].register.access.RW?
    requires var p := PlaceOf(g.nodes[j].register).value; Within(p, n) && !InField(g.nodes[j].register, p, n)
    ensures var m := After(g.nodes[i], mem, v);
            var t := PerformAll(w, g, [Read(j), Write(i, v), Write(j, u)]);
            && n / 8 < |mem| && |t.answers| == 3 && t.answers[1] == t.answers[2] == Done
            && BitAt(MemoryAfter(mem, t.graph.log), n) == BitAt(if Cached(g.nodes[j]) then mem else m, n)
  {
    hide MemoryLike, MemoryAfter, PlaceOf, Perform, NewBytes, Overwritten, FieldOf, After, Current, BitAt, Load, Position;
    var r, p, m := g.nodes[j].register, PlaceOf(g.nodes[j].register).value, After(g.nodes[i], mem, v);
    ThreeCalls(w, g, Read(j), Write(i, v), Write(j, u));
    var b := ReadThenWrite(w, mem, g, i, j, v);
    assert Perform(w, Perform(w, g, Read(j)).graph, Write(i, v)).answer == Done by { WriteDone(w, mem, g, i, j, v); }
    WriteCall(w, mem, b, j, u);
    var current := Current(b.nodes[j], m);
    SameWorks(g.nodes[j], b.nodes[j], |mem|);
    var q := b.nodes[j].register;
    assert !InField(q, p, n) by { SameInField(r, q, p, n); }
    Rewritten(q, p, m, current, u, n);
    PlaceBit(if Cached(g.nodes[j]) then mem else m, p, r.endianness, n);
  }

  lemma SameInField(r: Register, q: Register, p: Place, n: nat)
    requires q == r.(cache := q.cache)
    ensures InField(q, p, n) == InField(r, p, n)
  {
  }

  lemma WriteDone(w: World, mem: Octets, g: Graph, i: NodeId, j: NodeId, v: int)
    requires MemoryLike(w, mem) && Cold(g) && i < |g.nodes| && j < |g.nodes| && i != j
    requires Works(g.nodes[i], |mem|) && CanWrite(g.nodes[i]) && Works(g.nodes[j], |mem|) && !g.nodes[j].register.access.WO?
    ensures var a := Perform(w, g, Read(j)).graph; a.visit == [] && Perform(w, a, Write(i, v)).answer == Done
  {
    hide MemoryLike, MemoryAfter, PlaceOf, Perform, NewBytes, Overwritten, FieldOf;
    NoTransfers(mem);
    ReadCall(w, mem, g, j);
    var a := Perform(w, g, Read(j)).graph;
    assert a.nodes[i] == g.nodes[i];
    WriteCall(w, mem, a, i, v);
  }

  /** Writing all ones or all zeros flips any bit of the field. */
  lemma Flips(node: Node, mem: Octets, n: nat) returns (v: int)
    requires Changes(node, |mem|, n)
    ensures n / 8 < |mem| && BitAt(After(node, mem, v), n) != BitAt(mem, n)
  {
    hide PlaceOf, NewBytes, Overwritten, FieldOf, Position, Load, Bit, Pow2;
    var r, p := node.register, PlaceOf(node.register).value;
    v := if BitAt(mem, n) == 0 then -1 else 0;
    Rewritten(r, p, mem, BytesAt(mem, p), v, n);
    var i := Position(p, r.endianness, n) - FieldOf(r, p.length).value.lsb;
    WordIsPower();
    BitOfOnes(64, i);
    ZeroBits(i);
  }

  /** The same register with caching switched off. */
  lemma OffWorks(node: Node, size: nat)
    requires Works(node, size)
    ensures Works(Uncached(node), size) && PlaceOf(Uncached(node).register) == PlaceOf(node.register)
    ensures CanWrite(Uncached(node)) == CanWrite(node) && !Cached(Uncached(node))
  {
    hide PlaceOf, BitRange;
    SamePlace(node, Uncached(node));
  }

  lemma OffAfter(node: Node, mem: Octets, v: int)
    requires Works(node, |mem|)
    ensures Works(Uncached(node), |mem|) && After(Uncached(node), mem, v) == After(node, mem, v)
  {
    hide PlaceOf, InsertInt, EncodeInt, BitRange;
    OffWorks(node, |mem|);
  }

  lemma OffInField(r: Register, p: Place, n: nat)
    ensures InField(r.(cachable := NoCache, cache := None), p, n) == InField(r, p, n)
  {
  }

  /** A stale number: the last of reading `j`, writing `i` and reading `j`. */
  lemma NumberTells(w: World, mem: Octets, g: Graph, i: NodeId, j: NodeId, v: int, n: nat)
    requires MemoryLike(w, mem) && Cold(g) && i < |g.nodes| && j < |g.nodes| && i != j && !Invalidates(w, i, j)
    requires Works(g.nodes[i], |mem|) && CanWrite(g.nodes[i]) && Works(g.nodes[j], |mem|) && Cached(g.nodes[j])
    requires InField(g.nodes[j].register, PlaceOf(g.nodes[j].register).value, n)
    requires n / 8 < |mem| && BitAt(After(g.nodes[i], mem, v), n) != BitAt(mem, n)
    ensures var calls := [Read(j), Write(i, v), Read(j)];
            PerformAll(w, g, calls).answers != PerformAll(w, CachingOff(g), calls).answers
  {
    hide MemoryLike, MemoryAfter, PlaceOf, PerformAll, FieldOf, After, ExtractInt, BitAt, Position;
    var h, r, p := CachingOff(g), g.nodes[j].register, PlaceOf(g.nodes[j].register).value;
    OffWorks(g.nodes[i], |mem|);
    OffWorks(g.nodes[j], |mem|);
    OffAfter(g.nodes[i], mem, v);
    Reread(w, mem, g, i, j, v);
    Reread(w, mem, h, i, j, v);
    SameNumber(r, mem, After(g.nodes[i], mem, v), p);
  }

  /** A write undone: the memory after reading `j`, writing `i` and writing `j`. */
  lemma MemoryTells(w: World, mem: Octets, g: Graph, i: NodeId, j: NodeId, v: int, u: int, n: nat)
    requires MemoryLike(w, mem) && Cold(g) && i < |g.nodes| && j < |g.nodes| && i != j && !Invalidates(w, i, j)
    requires Works(g.nodes[i], |mem|) && CanWrite(g.nodes[i]) && Works(g.nodes[j], |mem|)
    requires Cached(g.nodes[j]) && g.nodes[j].register.access.RW?
    requires var p := PlaceOf(g.nodes[j].register).value; Within(p, n) && !InField(g.nodes[j].register, p, n)
    requires n / 8 < |mem| && BitAt(After(g.nodes[i], mem, v), n) != BitAt(mem, n)
    ensures var calls := [Read(j), Write(i, v), Write(j, u)];
            var a, b := PerformAll(w, g, calls), PerformAll(w, CachingOff(g), calls);
            && |a.answers| == 3 && a.answers[1] == a.answers[2] == Done
            && BitAt(MemoryAfter(mem, a.graph.log), n) == BitAt(mem, n)
            && BitAt(MemoryAfter(mem, b.graph.log), n) != BitAt(mem, n)
  {
    hide MemoryLike, MemoryAfter, PlaceOf, PerformAll, FieldOf, After, BitAt, Position;
    var h := CachingOff(g);
    OffWorks(g.nodes[i], |mem|);
    OffWorks(g.nodes[j], |mem|);
    OffAfter(g.nodes[i], mem, v);
    OffInField(g.nodes[j].register, PlaceOf(g.nodes[j].register).value, n);
    Rewrite(w, mem, g, i, j, v, u, n);
    Rewrite(w, mem, h, i, j, v, u, n);
  }

  // --------------------------------------------------------------- the theorem

  lemma UncoveredShows(w: World, mem: Octets, g: Graph, i: NodeId, j: NodeId)
    requires MemoryLike(w, mem) && Cold(g) && i < |g.nodes| && j < |g.nodes| && i != j
    requires Meet(g.nodes[i], g.nodes[j], |mem|) && !Invalidates(w, i, j)
    ensures !Invisible(w, mem, g)
  {
    hide MemoryLike, MemoryAfter, PlaceOf, PerformAll, InField, FieldOf, After, BitAt;
    var n: nat :| Changes(g.nodes[i], |mem|, n) && Exposes(g.nodes[j], |mem|, n);
    var v := Flips(g.nodes[i], mem, n);
    if InField(g.nodes[j].register, PlaceOf(g.nodes[j].register).value, n) {
      NumberTells(w, mem, g, i, j, v, n);
    } else {
      MemoryTells(w, mem, g, i, j, v, 0, n);
    }
  }

  /** Caching is invisible, for every sequence of calls, if and only if no write can
      be missed in a cache: for any accesses, masks, lengths and places. */
  lemma CachingExactly(w: World, mem: Octets, g: Graph)
    requires MemoryLike(w, mem) && Cold(g) && Constant(g.nodes)
    ensures Invisible(w, mem, g) <==> Covered(w, g.nodes, |mem|)
  {
    hide MemoryLike, PlaceOf, PerformAll, MemoryAfter, Meet;
    if Covered(w, g.nodes, |mem|) {
      forall calls: seq<Call>
        ensures PerformAll(w, g, calls).answers == PerformAll(w, CachingOff(g), calls).answers
        ensures MemoryAfter(mem, PerformAll(w, g, calls).graph.log) == MemoryAfter(mem, PerformAll(w, CachingOff(g), calls).graph.log)
      {
        CachingTransparent(w, mem, g, calls);
      }
    } else {
      var i, j :| 0 <= i < |g.nodes| && 0 <= j < |g.nodes| && i != j && Meet(g.nodes[i], g.nodes[j], |mem|) && !Invalidates(w, i, j);
      UncoveredShows(w, mem, g, i, j);
    }
  }

  // ------------------------------------------------------------ struct entries

  /** One bit of the byte at address 0, as an entry of a structure is built. */
  function Entry(bit: nat, access: AccessMode): Node {
    Reg(Register([], Literal(1), access, WriteThrough, None, Unsigned, Little, Some(bit), Some(bit)))
  }

  function Struct(access: AccessMode): Graph { Graph([Entry(0, access), Entry(1, RW)], [], []) }

  /** A device of one byte, and no invalidators. */
  function OneByte(): World { World(log => MemoryAnswer([0], log), (key, values) => None, map[]) }

  lemma EntryBits(bit: nat, access: AccessMode)
    requires bit < 8
    ensures ConstantRegister(Entry(bit, access).register) && PlaceOf(Entry(bit, access).register) == Some(Place(0, 1))
    ensures Works(Entry(bit, access), 1)
    ensures forall n: nat :: InField(Entry(bit, access).register, Place(0, 1), n) <==> n == bit
  {
  }

  /** Two fields of one byte, each cached: once the first is read, the second set and
      the first set, the device has lost the second write. All calls succeed. */
  lemma WriteLost()
    ensures var calls, g := [Read(0), Write(1, 1), Write(0, 1)], Struct(RW);
            var a, b := PerformAll(OneByte(), g, calls), PerformAll(OneByte(), CachingOff(g), calls);
            && |a.answers| == 3 && a.answers[1] == a.answers[2] == Done
            && BitAt(MemoryAfter([0], a.graph.log), 1) == 0 && BitAt(MemoryAfter([0], b.graph.log), 1) == 1
  {
    hide PerformAll, MemoryAfter, MemoryAnswer, PlaceOf, FieldOf, Position;
    var w, g, mem: Octets := OneByte(), Struct(RW), [0];
    EntryBits(0, RW);
    EntryBits(1, RW);
    assert MemoryLike(w, mem);
    assert BitAt(After(g.nodes[1], mem, 1), 1) == 1 by { SecondSet(mem); }
    assert BitAt(mem, 1) == 0;
    MemoryTells(w, mem, g, 1, 0, 1, 1, 1);
    var b := PerformAll(w, CachingOff(g), [Read(0), Write(1, 1), Write(0, 1)]);
    BitIsBit(MemoryAfter(mem, b.graph.log)[0], 1);
  }

  lemma SecondSet(mem: Octets)
    requires mem == [0]
    ensures Works(Entry(1, RW), |mem|) && BitAt(After(Entry(1, RW), mem, 1), 1) == 1
  {
    hide PlaceOf, NewBytes, Overwritten, FieldOf, Position, Load;
    EntryBits(1, RW);
    var r := Entry(1, RW).register;
    Rewritten(r, Place(0, 1), mem, BytesAt(mem, Place(0, 1)), 1, 1);
    OnePosition(1);
    OneField(r, 1);
  }

  lemma OnePosition(n: nat)
    requires n < 8
    ensures Within(Place(0, 1), n) && Position(Place(0, 1), Little, n) == n
  {
  }

  lemma OneField(r: Register, bit: nat)
    requires bit < 8 && r.lsb == r.msb == Some(bit) && r.endianness.Little?
    ensures FieldOf(r, 1) == Some(Span(bit, bit))
  {
  }

  /** A field that is only read, beside the other, needs no invalidator. */
  lemma ReadOnlyBeside()
    ensures Invisible(OneByte(), [0], Struct(RO))
  {
    hide MemoryLike, PlaceOf, Invisible, InField, MemoryAnswer;
    var w, g, mem: Octets := OneByte(), Struct(RO), [0];
    EntryBits(0, RO);
    EntryBits(1, RW);
    assert MemoryLike(w, mem) by { LikeMemory(); }
    assert Constant(g.nodes);
    assert Covered(w, g.nodes, |mem|);
    CachingExactly(w, mem, g);
  }

  lemma LikeMemory()
    ensures MemoryLike(OneByte(), [0])
  {
    hide MemoryAnswer;
  }
}
