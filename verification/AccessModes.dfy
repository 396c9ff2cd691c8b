/** The access mode a chain of values ends at, found in as many steps as there are
    nodes, which is always enough. */
module AccessModes {
  import opened Gvsp
  import opened NodeGraph

  predicate ConstantInteger(node: Node) { node.Feature? && node.kind.Integer? && node.value.Literal? }

  /** What an indexed value selects without reading the device. */
  function StaticEntry(nodes: seq<Node>, vr: Ref): Ref {
    if !vr.Indexed? then vr
    else if vr.index.Id? && vr.index.id < |nodes| && ConstantInteger(nodes[vr.index.id])
    then Pick(vr, nodes[vr.index.id].value.v)
    else vr.fallback
  }

  /** A node ends the chain with its mode, or passes on to the next. */
  datatype Stop = Ends(mode: AccessMode) | Goes(next: NodeId)

  function Look(nodes: seq<Node>, id: NodeId): (s: Stop)
    requires id < |nodes|
    ensures s.Goes? ==> s.next < |nodes|
  {
    match nodes[id]
    case Reg(r) => Ends(r.access)
    case SwissKnife(_) => Ends(RO)
    case Feature(_, value) => LookAt(nodes, value)
    case Converter(value, _, _) => LookAt(nodes, value)
    case Command(_, _) => Ends(WO)
    case Plain => Ends(RO)
  }

  function LookAt(nodes: seq<Node>, value: Ref): (s: Stop)
    ensures s.Goes? ==> s.next < |nodes|
  {
    match StaticEntry(nodes, value)
    case Reference(Id(next)) => if next < |nodes| then Goes(next) else Ends(RO)
    case Literal(_) => Ends(RW)
    case Fixed(_) => Ends(RW)
    case _ => Ends(RO)
  }

  /** The chain after `k` steps; it stays where it ends. */
  function At(nodes: seq<Node>, id: NodeId, k: nat): (r: NodeId)
    requires id < |nodes|
    ensures r < |nodes|
  {
    if k == 0 then id
    else
      var before := At(nodes, id, k - 1);
      if Look(nodes, before).Goes? then Look(nodes, before).next else before
  }

  predicate StillGoes(nodes: seq<Node>, id: NodeId, k: nat)
    requires id < |nodes|
  {
    Look(nodes, At(nodes, id, k)).Goes?
  }

  // ------------------------------------------------------ loops never end

  lemma {:induction false} AtAdds(nodes: seq<Node>, id: NodeId, a: nat, b: nat)
    requires id < |nodes|
    ensures At(nodes, id, a + b) == At(nodes, At(nodes, id, a), b)
    decreases b
  {
    if b > 0 { AtAdds(nodes, id, a, b - 1); }
  }

  /** A chain that comes back to a node goes on for ever. */
  lemma {:induction false} LoopGoesOn(nodes: seq<Node>, id: NodeId, i: nat, j: nat, k: nat)
    requires id < |nodes| && i < j && At(nodes, id, i) == At(nodes, id, j)
    requires forall m | 0 <= m < j :: StillGoes(nodes, id, m)
    ensures StillGoes(nodes, id, k)
    decreases k
  {
    if k >= j {
      AtAdds(nodes, id, j, k - j);
      AtAdds(nodes, id, i, k - j);
      LoopGoesOn(nodes, id, i, j, k - (j - i));
    }
  }

  /** More ids than nodes: one comes twice. */
  lemma {:induction false} Twice(ids: seq<NodeId>, n: nat) returns (i: nat, j: nat)
    requires |ids| > n && forall k | 0 <= k < |ids| :: ids[k] < n
    ensures i < j < |ids| && ids[i] == ids[j]
    decreases n
  {
    if n == 0 {
      assert ids[0] < 0;
    }
    var last := |ids| - 1;
    if k :| 0 <= k < last && ids[k] == ids[last] {
      return k, last;
    }
    // swap the largest id for the last one, which is then out of the way
    var top := n - 1;
    var rest := seq(last, k requires 0 <= k < last => if ids[k] == top then ids[last] else ids[k]);
    i, j := Twice(rest, top);
    assert ids[i] == ids[j];
  }

  lemma EndsSoonOrNever(nodes: seq<Node>, id: NodeId, k: nat)
    requires id < |nodes| && forall m | 0 <= m <= |nodes| :: StillGoes(nodes, id, m)
    ensures StillGoes(nodes, id, k)
  {
    var ids := seq(|nodes| + 1, m requires 0 <= m <= |nodes| => At(nodes, id, m));
    var i, j := Twice(ids, |nodes|);
    assert At(nodes, id, i) == ids[i] == ids[j] == At(nodes, id, j);
    LoopGoesOn(nodes, id, i, j, k);
  }

  // ---------------------------------------------------------------- the loop

  /** The mode of the node where the chain ends, wherever that is; read-only when
      it never ends. */
  method AccessModeOf(nodes: seq<Node>, id: NodeId) returns (mode: AccessMode)
    requires id < |nodes|
    ensures (forall k: nat :: StillGoes(nodes, id, k)) ==> mode == RO
    ensures forall k: nat | !StillGoes(nodes, id, k) :: mode == Look(nodes, At(nodes, id, k)).mode
  {
    var at := id;
    for i := 0 to |nodes| + 1
      invariant at == At(nodes, id, i)
      invariant forall m | 0 <= m < i :: StillGoes(nodes, id, m)
    {
      match Look(nodes, at) {
        case Ends(m) =>
          forall k: nat | !StillGoes(nodes, id, k) ensures m == Look(nodes, At(nodes, id, k)).mode { StaysEnded(nodes, id, i, k); }
          assert !StillGoes(nodes, id, i);
          return m;
        case Goes(next) => at := next;
      }
    }
    forall k: nat ensures StillGoes(nodes, id, k) { EndsSoonOrNever(nodes, id, k); }
    return RO;
  }

  lemma {:induction false} StaysEnded(nodes: seq<Node>, id: NodeId, i: nat, k: nat)
    requires id < |nodes| && !StillGoes(nodes, id, i) && !StillGoes(nodes, id, k) && (forall m | 0 <= m < i :: StillGoes(nodes, id, m))
    ensures At(nodes, id, k) == At(nodes, id, i)
    decreases k
  {
    if k > i {
      if StillGoes(nodes, id, k - 1) {
        EndedBefore(nodes, id, i, k - 1);
      } else {
        StaysEnded(nodes, id, i, k - 1);
      }
    }
  }

  lemma {:induction false} EndedBefore(nodes: seq<Node>, id: NodeId, i: nat, k: nat)
    requires id < |nodes| && !StillGoes(nodes, id, i) && i <= k
    ensures !StillGoes(nodes, id, k)
    decreases k
  {
    if k > i { EndedBefore(nodes, id, i, k - 1); }
  }
}
