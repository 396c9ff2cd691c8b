/** The node graph in place: the visit stack, literal values and register caches
    are updated as references are followed. */
module Genicams {
  import opened Gvsp
  import opened BitFields
  import opened NodeGraph

  function Prepended(values: seq<int>, o: Outcome<seq<int>>): Outcome<seq<int>> {
    if o.result.Ok? then Outcome(o.graph, Ok(values + o.result.value)) else o
  }

  function Failure<T, U>(r: Result<T>): Result<U>
    requires r.Err?
  {
    Err(r.error)
  }

  lemma NothingYet(o: Outcome<seq<int>>)
    ensures Prepended([], o) == o
  {
    if o.result.Ok? { assert [] + o.result.value == o.result.value; }
  }

  lemma OneMore(values: seq<int>, v: int, o: Outcome<seq<int>>)
    ensures o.result.Ok? ==> Prepended(values, Outcome(o.graph, Ok([v] + o.result.value))) == Prepended(values + [v], o)
  {
    if o.result.Ok? { assert values + ([v] + o.result.value) == (values + [v]) + o.result.value; }
  }

  class Genicam {
    const world: World
    var nodes: seq<Node>
    var visit: seq<NodeId>
    var log: seq<Transfer>

    function Model(): Graph
      reads this
    {
      Graph(nodes, visit, log)
    }

    constructor (world: World, nodes: seq<Node>)
      ensures this.world == world && Model() == Graph(nodes, [], [])
    {
      this.world, this.nodes, visit, log := world, nodes, [], [];
    }

    method Enter(id: NodeId) returns (ok: bool)
      requires Distinct(visit) && id < |nodes|
      modifies this
      ensures ok <==> id !in old(visit)
      ensures Model() == if ok then Entered(old(Model()), id) else old(Model()).(visit := [])
    {
      if id in visit {
        visit := [];
        return false;
      }
      visit := visit + [id];
      return true;
    }

    method Leave()
      modifies this
      ensures Model() == Left(old(Model()))
    {
      if visit != [] { visit := visit[..|visit| - 1]; }
    }

    method GetInt(id: NodeId) returns (r: Result<int>)
      requires Distinct(visit) && id < |nodes|
      modifies this
      ensures Outcome(Model(), r) == IntValue(world, old(Model()), id)
      decreases Unvisited(Model()), 1, 0
    {
      var ok := Enter(id);
      if !ok {
        return Err(Circular);
      }
      r := GetInner(id);
      Leave();
    }

    method GetInner(id: NodeId) returns (r: Result<int>)
      requires Distinct(visit) && id < |nodes|
      modifies this
      ensures Outcome(Model(), r) == IntInner(world, old(Model()), id)
      decreases Unvisited(Model()), 7, 0
    {
      match nodes[id]
      case Feature(_, value) => r := GetRef(value);
      case Reg(register) =>
        var bytes := ReadRegister(id);
        if bytes.Err? {
          return Failure(bytes);
        }
        var v := ExtractInt(bytes.value, register.sign, register.endianness, register.lsb, register.msb);
        r := if v.Some? then Ok(v.value) else Err(BadFormula);
      case Converter(value, _, from) =>
        var raw := GetRef(value);
        if raw.Err? {
          return raw;
        }
        r := Evaluate(from, Some(raw.value));
      case SwissKnife(formula) => r := Evaluate(formula, None);
      case _ => r := Err(WrongType);
    }

    method Follow(link: Link) returns (r: Result<int>)
      requires Distinct(visit)
      modifies this
      ensures Outcome(Model(), r) == TermValue(world, old(Model()), Variable(link), None)
      decreases Unvisited(Model()), 2, 0
    {
      if link.Name? || link.id >= |nodes| {
        return Err(Dangling);
      }
      r := GetInt(link.id);
    }

    method Select(vr: Ref) returns (r: Result<Ref>)
      requires Distinct(visit) && vr.Indexed?
      modifies this
      ensures Outcome(Model(), r) == Selected(world, old(Model()), vr)
      decreases Unvisited(Model()), 2, 1
    {
      var at := Follow(vr.index);
      if at.Err? {
        return Failure(at);
      }
      r := Ok(Pick(vr, at.value));
    }

    method GetRef(vr: Ref) returns (r: Result<int>)
      requires Distinct(visit)
      modifies this
      ensures Outcome(Model(), r) == RefInt(world, old(Model()), vr)
      decreases Unvisited(Model()), 3, vr
    {
      match vr
      case Literal(v) => r := Ok(v);
      case Fixed(v) => r := Ok(v);
      case Nothing => r := Err(WrongType);
      case Reference(link) => r := Follow(link);
      case Indexed(_, _, _) =>
        var entry := Select(vr);
        if entry.Err? {
          return Failure(entry);
        }
        r := GetRef(entry.value);
    }

    method Bind(term: Term, builtin: Option<int>) returns (r: Result<int>)
      requires Distinct(visit)
      modifies this
      ensures Outcome(Model(), r) == TermValue(world, old(Model()), term, builtin)
      decreases Unvisited(Model()), 2, 1
    {
      match term
      case Builtin => r := if builtin.Some? then Ok(builtin.value) else Err(BadFormula);
      case Unbound => r := Err(BadFormula);
      case Variable(link) => r := Follow(link);
    }

    /** Reads the variables in order. */
    method BindAll(terms: seq<Term>, builtin: Option<int>) returns (r: Result<seq<int>>)
      requires Distinct(visit)
      modifies this
      ensures Outcome(Model(), r) == TermValues(world, old(Model()), terms, builtin)
      decreases Unvisited(Model()), 4, 0
    {
      hide TermValue, Distinct;
      var values: seq<int> := [];
      ghost var whole := TermValues(world, Model(), terms, builtin);
      NothingYet(whole);
      assert terms[0..] == terms;
      for i := 0 to |terms|
        invariant visit == old(visit) && |nodes| == |old(nodes)|
        invariant Prepended(values, TermValues(world, Model(), terms[i..], builtin)) == whole
      {
        assert terms[i..][0] == terms[i] && terms[i..][1..] == terms[i + 1..];
        var v := Bind(terms[i], builtin);
        if v.Err? {
          return Failure(v);
        }
        OneMore(values, v.value, TermValues(world, Model(), terms[i + 1..], builtin));
        values := values + [v.value];
      }
      assert terms[|terms|..] == [] && values + [] == values;
      return Ok(values);
    }

    method Evaluate(formula: Formula, builtin: Option<int>) returns (r: Result<int>)
      requires Distinct(visit)
      modifies this
      ensures Outcome(Model(), r) == EvalFormula(world, old(Model()), formula, builtin)
      decreases Unvisited(Model()), 5, 0
    {
      if !formula.parses {
        return Err(BadFormula);
      }
      var values := BindAll(formula.terms, builtin);
      if values.Err? {
        return Failure(values);
      }
      var v := world.eval(formula.key, values.value);
      r := if v.Some? then Ok(v.value) else Err(BadFormula);
    }

    method Length(length: Ref) returns (r: Result<nat>)
      requires Distinct(visit)
      modifies this
      ensures Outcome(Model(), r) == RegisterLength(world, old(Model()), length)
      decreases Unvisited(Model()), 4, 0
    {
      if length.Nothing? {
        return Ok(4);
      }
      var v := GetRef(length);
      if v.Err? {
        return Failure(v);
      }
      r := if 0 <= v.value <= MAX_REGISTER_LENGTH then Ok(v.value) else Err(OutOfRange);
    }

    /** Sums the address terms, wrapping, and finds the length. */
    method Locate(register: Register) returns (r: Result<Place>)
      requires Distinct(visit)
      modifies this
      ensures Outcome(Model(), r) == RegisterPlace(world, old(Model()), register)
      decreases Unvisited(Model()), 5, 0
    {
      var terms := register.terms;
      var sum := 0;
      assert terms[0..] == terms;
      for i := 0 to |terms|
        invariant Distinct(visit) && Unvisited(Model()) == old(Unvisited(Model()))
        invariant AddressSum(world, Model(), terms[i..], sum) == AddressSum(world, old(Model()), terms, 0)
      {
        assert terms[i..][1..] == terms[i + 1..];
        var term := GetRef(terms[i]);
        if term.Err? {
          return Failure(term);
        }
        sum := AsSigned(AsWord(sum + term.value));
      }
      var length := Length(register.length);
      if length.Err? {
        return Failure(length);
      }
      r := Ok(Place(AsWord(sum), length.value));
    }

    method SetCache(id: NodeId, cache: Option<Octets>)
      modifies this
      ensures Model() == WithCache(old(Model()), id, cache)
    {
      if id < |nodes| && nodes[id].Reg? {
        nodes := nodes[id := Reg(nodes[id].register.(cache := cache))];
      }
    }

    method ReadRegister(id: NodeId) returns (r: Result<Octets>)
      requires Distinct(visit) && id < |nodes|
      modifies this
      ensures Outcome(Model(), r) == RegisterRead(world, old(Model()), id)
      decreases Unvisited(Model()), 6, 0
    {
      if !nodes[id].Reg? {
        return Err(WrongType);
      }
      var register := nodes[id].register;
      if register.access.WO? {
        return Err(Access);
      }
      if !register.cachable.NoCache? && register.cache.Some? {
        return Ok(register.cache.value);
      }
      var place := Locate(register);
      if place.Err? {
        return Failure(place);
      }
      log := log + [ReadAt(place.value.address, place.value.length)];
      var bytes := world.port(log);
      if bytes.None? || |bytes.value| != place.value.length {
        return Err(PortFailed);
      }
      if nodes[id].Reg? && !nodes[id].register.cachable.NoCache? { SetCache(id, Some(bytes.value)); }
      r := Ok(bytes.value);
    }

    /** Writes the device, then keeps or drops the caches it touches. */
    method WriteRegister(id: NodeId, bytes: Octets) returns (r: Result<()>)
      requires Distinct(visit) && id < |nodes|
      modifies this
      ensures Outcome(Model(), r) == RegisterWrite(world, old(Model()), id, bytes)
      decreases Unvisited(Model()), 6, 0
    {
      if !nodes[id].Reg? {
        return Err(WrongType);
      }
      if nodes[id].register.access.RO? {
        return Err(Access);
      }
      var place := Locate(nodes[id].register);
      if place.Err? {
        return Failure(place);
      }
      log := log + [WriteAt(place.value.address, bytes)];
      if world.port(log).None? {
        return Err(PortFailed);
      }
      SetCache(id, if nodes[id].Reg? && nodes[id].register.cachable.WriteThrough? then Some(bytes) else None);
      if id in world.invalidates {
        var ids := world.invalidates[id];
        ghost var goal := Invalidated(Model(), ids);
        assert ids[0..] == ids;
        for i := 0 to |ids|
          invariant Invalidated(Model(), ids[i..]) == goal
        {
          assert ids[i..][1..] == ids[i + 1..];
          SetCache(ids[i], None);
        }
      }
      r := Ok(());
    }

    method SetInt(id: NodeId, v: int) returns (r: Result<()>)
      requires Distinct(visit) && id < |nodes|
      modifies this
      ensures Outcome(Model(), r) == SetIntValue(world, old(Model()), id, v)
      decreases Unvisited(Model()), 1, 0
    {
      var ok := Enter(id);
      if !ok {
        return Err(Circular);
      }
      r := Set(id, v);
      Leave();
    }

    method Set(id: NodeId, v: int) returns (r: Result<()>)
      requires Distinct(visit) && id < |nodes|
      modifies this
      ensures Outcome(Model(), r) == SetInner(world, old(Model()), id, v)
      decreases Unvisited(Model()), 8, 0
    {
      match nodes[id]
      case Feature(_, value) => r := SetRef(id, value, v);
      case Command(value, _) => r := SetRef(id, value, v);
      case Reg(_) => r := SetField(id, v);
      case Converter(value, to, _) =>
        var out := Evaluate(to, Some(v));
        if out.Err? {
          return Failure(out);
        }
        r := SetThrough(value, out.value);
      case _ => r := Err(WrongType);
    }

    method SetField(id: NodeId, v: int) returns (r: Result<()>)
      requires Distinct(visit) && id < |nodes| && nodes[id].Reg?
      modifies this
      ensures Outcome(Model(), r) == SetRegister(world, old(Model()), id, v)
      decreases Unvisited(Model()), 7, 0
    {
      var register := nodes[id].register;
      var length := Length(register.length);
      if length.Err? {
        return Failure(length);
      }
      var bytes: Option<Octets>;
      if register.lsb.Some? || register.msb.Some? {
        var current := ReadRegister(id);
        if current.Err? {
          return Failure(current);
        }
        bytes := InsertInt(current.value, v, register.endianness, register.lsb, register.msb);
      } else {
        bytes := EncodeInt(v, length.value, register.endianness);
      }
      if bytes.None? {
        return Err(BadFormula);
      }
      r := WriteRegister(id, bytes.value);
    }

    method SetRef(id: NodeId, vr: Ref, v: int) returns (r: Result<()>)
      requires Distinct(visit) && id < |nodes|
      modifies this
      ensures Outcome(Model(), r) == SetRefInt(world, old(Model()), id, vr, v)
      decreases Unvisited(Model()), 5, 0
    {
      if vr.Literal? {
        match nodes[id] {
          case Feature(kind, _) => nodes := nodes[id := Feature(kind, Literal(v))];
          case Command(_, commandValue) => nodes := nodes[id := Command(Literal(v), commandValue)];
          case _ =>
        }
        return Ok(());
      }
      r := SetThrough(vr, v);
    }

    method SetThrough(vr: Ref, v: int) returns (r: Result<()>)
      requires Distinct(visit)
      modifies this
      ensures Outcome(Model(), r) == SetTarget(world, old(Model()), vr, v)
      decreases Unvisited(Model()), 4, 0
    {
      match vr
      case Reference(link) => r := SetFollowed(link, v);
      case Indexed(_, _, _) =>
        var entry := Select(vr);
        if entry.Err? {
          return Failure(entry);
        }
        if !entry.value.Reference? {
          return Err(Access);
        }
        r := SetFollowed(entry.value.link, v);
      case _ => r := Err(Access);
    }

    method SetFollowed(link: Link, v: int) returns (r: Result<()>)
      requires Distinct(visit)
      modifies this
      ensures Outcome(Model(), r) == SetLink(world, old(Model()), link, v)
      decreases Unvisited(Model()), 2, 0
    {
      if link.Name? || link.id >= |nodes| {
        return Err(Dangling);
      }
      r := SetInt(link.id, v);
    }

    method RunCommand(id: NodeId) returns (r: Result<()>)
      requires Distinct(visit) && id < |nodes|
      modifies this
      ensures Outcome(Model(), r) == Execute(world, old(Model()), id)
    {
      if !nodes[id].Command? {
        return Err(WrongType);
      }
      var value, commandValue := nodes[id].value, nodes[id].commandValue;
      var v := 1;
      if !commandValue.Nothing? {
        var out := GetRef(commandValue);
        if out.Err? {
          return Failure(out);
        }
        v := out.value;
      }
      r := SetRef(id, value, v);
    }

    method InvalidateCaches()
      modifies this
      ensures Model() == CachesCleared(old(Model()))
    {
      for i := 0 to |nodes|
        invariant |nodes| == |old(nodes)| && visit == old(visit) && log == old(log)
        invariant forall k | 0 <= k < |nodes| :: nodes[k] == if k < i then CachesCleared(old(Model())).nodes[k] else old(nodes)[k]
      {
        SetCache(i, None);
      }
      assert nodes == CachesCleared(old(Model())).nodes;
    }
  }
}
