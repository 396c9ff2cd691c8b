/** Writing an integer register and reading it back, through the graph, its caches
    and a device that behaves like memory. */
module RegisterFields {
  import opened Gvsp
  import opened BitFields
  import opened NodeGraph
  import opened FieldBits
  import opened Caching

  /** A register at a constant place inside the memory, readable and writable, whose
      field fits, and whose cache, if any, is true. */
  ghost predicate Usable(m: Octets, node: Node) {
    && node.Reg? && ConstantRegister(node.register) && node.register.access.RW? && True(m, node)
    && PlaceOf(node.register).Some? && FieldOf(node.register, PlaceOf(node.register).value.length).Some?
    && PlaceOf(node.register).value.address + PlaceOf(node.register).value.length <= |m|
  }

  /** The new bytes hold the value in the field and every other bit as before. */
  lemma NewBytesField(r: Register, current: Octets, v: int)
    requires Supported(|current|) && BitRange(8 * |current|, r.lsb, r.msb, r.endianness).Some?
    ensures NewBytes(r, current, v).Some? && |NewBytes(r, current, v).value| == |current|
    ensures var span := BitRange(8 * |current|, r.lsb, r.msb, r.endianness).value;
            && ExtractInt(NewBytes(r, current, v).value, r.sign, r.endianness, r.lsb, r.msb)
               == Some(Reduced(v, r.sign, span.msb - span.lsb + 1))
            && forall i | 0 <= i < 8 * |current| && (i < span.lsb || i > span.msb) ::
                 Bit(Load(NewBytes(r, current, v).value, r.endianness), i) == Bit(Load(current, r.endianness), i)
  {
    hide InsertField, ExtractField, Load, Store, Reduced, Bit;
    var span := BitRange(8 * |current|, r.lsb, r.msb, r.endianness).value;
    if r.lsb.Some? || r.msb.Some? {
      ExtractInserted(current, v, r.sign, r.endianness, r.lsb, r.msb);
      forall i | 0 <= i < 8 * |current| && (i < span.lsb || i > span.msb)
        ensures Bit(Load(NewBytes(r, current, v).value, r.endianness), i) == Bit(Load(current, r.endianness), i)
      {
        OutsideKept(current, v, r.endianness, r.lsb, r.msb, i);
      }
    } else {
      ExtractEncoded(v, |current|, r.sign, r.endianness);
    }
  }

  /** Reading a usable register gives the device's bytes, cached or not. */
  lemma ReadsDevice(w: World, mem: Octets, g: Graph, id: NodeId)
    requires MemoryLike(w, mem) && Distinct(g.visit) && id < |g.nodes| && Usable(MemoryAfter(mem, g.log), g.nodes[id])
    ensures var m, p := MemoryAfter(mem, g.log), PlaceOf(g.nodes[id].register).value;
            var o := RegisterRead(w, g, id);
            && o.result == Ok(BytesAt(m, p)) && MemoryAfter(mem, o.graph.log) == m
            && o.graph.nodes[id].Reg?
            && o.graph.nodes[id].register == g.nodes[id].register.(cache := o.graph.nodes[id].register.cache)
  {
    hide MemoryAfter, MemoryAnswer, PlaceOf, FieldOf;
    ReadIs(w, g, id);
    hide RegisterRead;
    var p := PlaceOf(g.nodes[id].register).value;
    LogRead(mem, g.log, p.address, p.length);
    assert w.port(g.log + [ReadAt(p.address, p.length)]) == MemoryAnswer(mem, g.log + [ReadAt(p.address, p.length)]);
  }

  /** Writing a usable register puts its new bytes into the device. */
  lemma WritesDevice(w: World, mem: Octets, g: Graph, id: NodeId, bytes: Octets)
    requires MemoryLike(w, mem) && Distinct(g.visit) && id < |g.nodes| && Writable(g.nodes[id])
    requires ConstantRegister(g.nodes[id].register) && PlaceOf(g.nodes[id].register).Some?
    requires var p := PlaceOf(g.nodes[id].register).value;
             |bytes| == p.length && p.address + p.length <= |MemoryAfter(mem, g.log)|
    ensures var p, o := PlaceOf(g.nodes[id].register).value, RegisterWrite(w, g, id, bytes);
            && o.result == Ok(()) && MemoryAfter(mem, o.graph.log) == Overwritten(MemoryAfter(mem, g.log), p.address, bytes)
            && o.graph.nodes[id].Reg?
            && o.graph.nodes[id].register == g.nodes[id].register.(cache := o.graph.nodes[id].register.cache)
            && (o.graph.nodes[id].register.cache.Some? ==> o.graph.nodes[id].register.cache == Some(bytes))
  {
    hide MemoryAfter, MemoryAnswer, PlaceOf, PortWrite, RegisterPlace;
    var p := PlaceOf(g.nodes[id].register).value;
    PlaceConstant(w, g, g.nodes[id].register);
    LogWrite(mem, g.log, p.address, bytes);
    assert w.port(g.log + [WriteAt(p.address, bytes)]) == MemoryAnswer(mem, g.log + [WriteAt(p.address, bytes)]);
    PortWrittenNodes(w, g, id, p.address, bytes, mem);
  }

  lemma SetWrites(w: World, mem: Octets, g: Graph, id: NodeId, v: int)
    requires MemoryLike(w, mem) && Distinct(g.visit) && id < |g.nodes| && Usable(MemoryAfter(mem, g.log), g.nodes[id])
    ensures var m, r := MemoryAfter(mem, g.log), g.nodes[id].register;
            var p := PlaceOf(r).value;
            var o := SetRegister(w, g, id, v);
            && NewBytes(r, BytesAt(m, p), v).Some? && |NewBytes(r, BytesAt(m, p), v).value| == p.length
            && o.result == Ok(())
            && MemoryAfter(mem, o.graph.log) == Overwritten(m, p.address, NewBytes(r, BytesAt(m, p), v).value)
            && o.graph.nodes[id].Reg? && o.graph.nodes[id].register == r.(cache := o.graph.nodes[id].register.cache)
            && (o.graph.nodes[id].register.cache.Some? ==> o.graph.nodes[id].register.cache == NewBytes(r, BytesAt(m, p), v))
  {
    hide MemoryAfter, PlaceOf, RegisterRead, RegisterWrite, RegisterLength, InsertInt, EncodeInt, BitRange, MemoryLike;
    var m, r := MemoryAfter(mem, g.log), g.nodes[id].register;
    var p := PlaceOf(r).value;
    PlaceConstant(w, g, r);
    NewBytesField(r, BytesAt(m, p), v);
    var bytes := NewBytes(r, BytesAt(m, p), v).value;
    if r.lsb.Some? || r.msb.Some? {
      ReadsDevice(w, mem, g, id);
      var h := RegisterRead(w, g, id).graph;
      SamePlace(g.nodes[id], h.nodes[id]);
      WritesDevice(w, mem, h, id, bytes);
    } else {
      WritesDevice(w, mem, g, id, bytes);
    }
  }

  lemma SetIs(w: World, g: Graph, id: NodeId, v: int)
    requires g.visit == [] && id < |g.nodes| && g.nodes[id].Reg?
    ensures var o := SetRegister(w, Entered(g, id), id, v); SetIntValue(w, g, id, v) == Outcome(Left(o.graph), o.result)
  {
    hide SetRegister;
  }

  lemma GetIs(w: World, g: Graph, id: NodeId, bytes: Octets)
    requires g.visit == [] && id < |g.nodes| && g.nodes[id].Reg?
    requires RegisterRead(w, Entered(g, id), id).result == Ok(bytes)
    ensures var r := g.nodes[id].register;
            IntValue(w, g, id).result == match ExtractInt(bytes, r.sign, r.endianness, r.lsb, r.msb)
                                         { case None => Err(BadFormula) case Some(v) => Ok(v) }
  {
    hide RegisterRead, ExtractInt;
  }

  /** From memory `m` to `n` only the register's field may have changed. */
  ghost predicate OnlyField(r: Register, m: Octets, n: Octets)
    requires ConstantRegister(r) && PlaceOf(r).Some? && FieldOf(r, PlaceOf(r).value.length).Some?
    requires PlaceOf(r).value.address + PlaceOf(r).value.length <= |m|
  {
    var (p, span) := (PlaceOf(r).value, FieldOf(r, PlaceOf(r).value.length).value);
    && |n| == |m|
    && (forall i | 0 <= i < |m| && !(p.address <= i < p.address + p.length) :: n[i] == m[i])
    && (forall i | 0 <= i < 8 * p.length && (i < span.lsb || i > span.msb) ::
          Bit(Load(BytesAt(n, p), r.endianness), i) == Bit(Load(BytesAt(m, p), r.endianness), i))
  }

  ghost function WidthOf(r: Register): Pos
    requires ConstantRegister(r) && PlaceOf(r).Some? && FieldOf(r, PlaceOf(r).value.length).Some?
  {
    FieldOf(r, PlaceOf(r).value.length).value.msb - FieldOf(r, PlaceOf(r).value.length).value.lsb + 1
  }

  /** A value written to a usable register is read back reduced to the field's width
      and sign; outside the field no bit of the register changes, and outside the
      register no byte of the device; with any caching. */
  lemma WrittenThenRead(w: World, mem: Octets, g: Graph, id: NodeId, v: int)
    requires MemoryLike(w, mem) && g.visit == [] && id < |g.nodes| && Usable(MemoryAfter(mem, g.log), g.nodes[id])
    ensures var r, o := g.nodes[id].register, SetIntValue(w, g, id, v);
            && o.result == Ok(()) && o.graph.visit == [] && id < |o.graph.nodes|
            && IntValue(w, o.graph, id).result == Ok(Reduced(v, r.sign, WidthOf(r)))
            && OnlyField(r, MemoryAfter(mem, g.log), MemoryAfter(mem, o.graph.log))
  {
    hide MemoryAfter, PlaceOf, MemoryLike, SetIntValue, IntValue, NewBytes, Reduced, Usable, ExtractInt, OnlyField, FieldOf, True, ConstantRegister, Overwritten;
    var m := MemoryAfter(mem, g.log);
    UsablePlace(m, g.nodes[id]);
    var r := g.nodes[id].register;
    AfterSet(w, mem, g, id, v);
    FieldWritten(r, m, v);
    var o := SetIntValue(w, g, id, v);
    ReadBack(w, mem, o.graph, id, r, NewBytes(r, BytesAt(m, PlaceOf(r).value), v).value);
  }

  /** The new bytes in place: only the field changes, and it holds the value. */
  lemma FieldWritten(r: Register, m: Octets, v: int)
    requires ConstantRegister(r) && PlaceOf(r).Some? && FieldOf(r, PlaceOf(r).value.length).Some?
    requires PlaceOf(r).value.address + PlaceOf(r).value.length <= |m|
    ensures var p := PlaceOf(r).value;
            var bytes := NewBytes(r, BytesAt(m, p), v);
            && bytes.Some? && |bytes.value| == p.length
            && var n := Overwritten(m, p.address, bytes.value);
            && BytesAt(n, p) == bytes.value && OnlyField(r, m, n)
            && ExtractInt(bytes.value, r.sign, r.endianness, r.lsb, r.msb) == Some(Reduced(v, r.sign, WidthOf(r)))
  {
    hide PlaceOf, NewBytes, Reduced, Bit, Load, BitRange, ExtractInt, ConstantRegister;
    var p := PlaceOf(r).value;
    NewBytesField(r, BytesAt(m, p), v);
    InsideWrite(m, p.address, NewBytes(r, BytesAt(m, p), v).value);
  }

  lemma UsablePlace(m: Octets, node: Node)
    requires Usable(m, node)
    ensures node.Reg? &&
            var r := node.register;
            && ConstantRegister(r) && PlaceOf(r).Some? && FieldOf(r, PlaceOf(r).value.length).Some?
            && PlaceOf(r).value.address + PlaceOf(r).value.length <= |m|
  {
    hide PlaceOf, BitRange;
  }

  /** The state a write leaves: the device changed in place, the register usable. */
  lemma AfterSet(w: World, mem: Octets, g: Graph, id: NodeId, v: int)
    requires MemoryLike(w, mem) && g.visit == [] && id < |g.nodes| && Usable(MemoryAfter(mem, g.log), g.nodes[id])
    ensures var m, r := MemoryAfter(mem, g.log), g.nodes[id].register;
            var p := PlaceOf(r).value;
            var o := SetIntValue(w, g, id, v);
            && NewBytes(r, BytesAt(m, p), v).Some? && |NewBytes(r, BytesAt(m, p), v).value| == p.length
            && o.result == Ok(()) && o.graph.visit == [] && id < |o.graph.nodes|
            && MemoryAfter(mem, o.graph.log) == Overwritten(m, p.address, NewBytes(r, BytesAt(m, p), v).value)
            && o.graph.nodes[id].Reg? && o.graph.nodes[id].register == r.(cache := o.graph.nodes[id].register.cache)
            && Usable(MemoryAfter(mem, o.graph.log), o.graph.nodes[id])
  {
    hide MemoryAfter, PlaceOf, MemoryLike, SetRegister, SetIntValue, NewBytes, Usable, Overwritten, True, ConstantRegister, FieldOf;
    var m := MemoryAfter(mem, g.log);
    UsablePlace(m, g.nodes[id]);
    var r := g.nodes[id].register;
    SetIs(w, g, id, v);
    SetWrites(w, mem, Entered(g, id), id, v);
    var o := SetIntValue(w, g, id, v);
    StaysUsable(m, g.nodes[id], o.graph.nodes[id], NewBytes(r, BytesAt(m, PlaceOf(r).value), v).value);
  }

  lemma StaysUsable(m: Octets, node: Node, after: Node, bytes: Octets)
    requires Usable(m, node) && |bytes| == PlaceOf(node.register).value.length
    requires after.Reg? && after.register == node.register.(cache := after.register.cache)
    requires after.register.cache.Some? ==> after.register.cache == Some(bytes)
    ensures Usable(Overwritten(m, PlaceOf(node.register).value.address, bytes), after)
  {
    hide PlaceOf, Overwritten, BitRange;
    SamePlace(node, after);
    InsideWrite(m, PlaceOf(node.register).value.address, bytes);
  }

  lemma ReadBack(w: World, mem: Octets, g: Graph, id: NodeId, r: Register, bytes: Octets)
    requires MemoryLike(w, mem) && g.visit == [] && id < |g.nodes| && Usable(MemoryAfter(mem, g.log), g.nodes[id])
    requires g.nodes[id].register == r.(cache := g.nodes[id].register.cache) && ConstantRegister(r) && PlaceOf(r).Some?
    requires var m, p := MemoryAfter(mem, g.log), PlaceOf(r).value;
             p.address + p.length <= |m| && BytesAt(m, p) == bytes
    requires ExtractInt(bytes, r.sign, r.endianness, r.lsb, r.msb).Some?
    ensures IntValue(w, g, id).result == Ok(ExtractInt(bytes, r.sign, r.endianness, r.lsb, r.msb).value)
  {
    hide MemoryAfter, PlaceOf, MemoryLike, IntValue, RegisterRead, ExtractInt, BitRange;
    SamePlace(Reg(r), g.nodes[id]);
    ReadsDevice(w, mem, Entered(g, id), id);
    GetIs(w, g, id, bytes);
  }
}
