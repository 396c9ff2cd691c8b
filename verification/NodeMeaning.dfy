/** What integer nodes stand for, said of the nodes and the device's bytes alone: no
    visit stack, no caches, no transfers. A value is looked for to a depth; a node
    whose references never end has none at any depth. */
module NodeMeaning {
  import opened Gvsp
  import opened BitFields
  import opened NodeGraph
  import opened FieldBits

  /** What a formula computes, the nodes, and what the device holds. */
  datatype Scene = Scene(eval: (nat, seq<int>) -> Option<int>, nodes: seq<Node>, mem: Octets)

  // ------------------------------------------------------------------- values

  /** Entry `i` is the first under that key. */
  predicate First(entries: seq<(int, Ref)>, at: int, i: nat) {
    i < |entries| && entries[i].0 == at && forall j | 0 <= j < i :: entries[j].0 != at
  }

  ghost function Chosen(vr: Ref, at: int): (r: Ref)
    requires vr.Indexed?
    ensures r < vr
  {
    if exists i: nat :: First(vr.entries, at, i) then
      var i: nat :| First(vr.entries, at, i);
      vr.entries[i].1
    else vr.fallback
  }

  function Sum(xs: seq<int>): int { if xs == [] then 0 else xs[0] + Sum(xs[1..]) }

  /** The value of a node, following at most `n` nodes. */
  ghost function ValueOf(s: Scene, n: nat, id: NodeId): Result<int>
    decreases n, 0
  {
    if n == 0 then Err(Circular)
    else if id >= |s.nodes| then Err(Dangling)
    else
      match s.nodes[id]
      case Feature(_, value) => RefValue(s, n - 1, value)
      case Reg(r) =>
        (match Content(s, n - 1, r)
         case Err(e) => Err(e)
         case Ok(bytes) => Known(Extracted(r, bytes)))
      case Converter(value, _, from) =>
        (match RefValue(s, n - 1, value)
         case Err(e) => Err(e)
         case Ok(x) => FormulaValue(s, n - 1, from, Some(x)))
      case SwissKnife(formula) => FormulaValue(s, n - 1, formula, None)
      case _ => Err(WrongType)
  }

  function Known<T>(o: Option<T>): Result<T> { if o.Some? then Ok(o.value) else Err(BadFormula) }

  ghost function LinkValue(s: Scene, n: nat, link: Link): Result<int>
    decreases n, 1
  {
    if link.Id? && link.id < |s.nodes| then ValueOf(s, n, link.id) else Err(Dangling)
  }

  ghost function RefValue(s: Scene, n: nat, vr: Ref): Result<int>
    decreases n, 2, vr
  {
    match vr
    case Nothing => Err(WrongType)
    case Literal(v) => Ok(v)
    case Fixed(v) => Ok(v)
    case Reference(link) => LinkValue(s, n, link)
    case Indexed(index, _, _) =>
      match LinkValue(s, n, index)
      case Err(e) => Err(e)
      case Ok(at) => RefValue(s, n, Chosen(vr, at))
  }

  ghost function TermMeaning(s: Scene, n: nat, term: Term, builtin: Option<int>): Result<int>
    decreases n, 3
  {
    match term
    case Builtin => Known(builtin)
    case Unbound => Err(BadFormula)
    case Variable(link) => LinkValue(s, n, link)
  }

  /** The formula of its variables' values, in order. */
  ghost function FormulaValue(s: Scene, n: nat, formula: Formula, builtin: Option<int>): Result<int>
    decreases n, 5
  {
    if !formula.parses then Err(BadFormula)
    else
      match TermMeanings(s, n, formula.terms, builtin)
      case Err(e) => Err(e)
      case Ok(xs) => Known(s.eval(formula.key, xs))
  }

  ghost function TermMeanings(s: Scene, n: nat, terms: seq<Term>, builtin: Option<int>): (r: Result<seq<int>>)
    ensures r.Ok? ==> |r.value| == |terms| && forall i | 0 <= i < |terms| :: TermMeaning(s, n, terms[i], builtin) == Ok(r.value[i])
    decreases n, 4, |terms|
  {
    if terms == [] then Ok([])
    else
      match TermMeaning(s, n, terms[0], builtin)
      case Err(e) => Err(e)
      case Ok(x) => Before(x, TermMeanings(s, n, terms[1..], builtin))
  }

  function Before(x: int, xs: Result<seq<int>>): Result<seq<int>> { if xs.Ok? then Ok([x] + xs.value) else xs }

  // ---------------------------------------------------------------- registers

  ghost function RefValues(s: Scene, n: nat, refs: seq<Ref>): (r: Result<seq<int>>)
    ensures r.Ok? ==> |r.value| == |refs| && forall i | 0 <= i < |refs| :: RefValue(s, n, refs[i]) == Ok(r.value[i])
    decreases n, 4, |refs|
  {
    if refs == [] then Ok([])
    else
      match RefValue(s, n, refs[0])
      case Err(e) => Err(e)
      case Ok(x) => Before(x, RefValues(s, n, refs[1..]))
  }

  ghost function Length(s: Scene, n: nat, length: Ref): Result<nat>
    decreases n, 4
  {
    if length.Nothing? then Ok(4)
    else
      match RefValue(s, n, length)
      case Err(e) => Err(e)
      case Ok(x) => if 0 <= x <= MAX_REGISTER_LENGTH then Ok(x) else Err(OutOfRange)
  }

  /** All address terms added up, as a 64-bit address. */
  ghost function PlaceValue(s: Scene, n: nat, r: Register): Result<Place>
    decreases n, 5
  {
    match RefValues(s, n, r.terms)
    case Err(e) => Err(e)
    case Ok(xs) =>
      match Length(s, n, r.length)
      case Err(e) => Err(e)
      case Ok(length) => Ok(Place(AsWord(Sum(xs)), length))
  }

  /** The register's bytes on the device. */
  ghost function Content(s: Scene, n: nat, r: Register): Result<Octets>
    decreases n, 6
  {
    if r.access.WO? then Err(Access)
    else
      match PlaceValue(s, n, r)
      case Err(e) => Err(e)
      case Ok(p) => if p.address + p.length <= |s.mem| then Ok(BytesAt(s.mem, p)) else Err(PortFailed)
  }

  // ------------------------------------------------------------------- writes

  /** What a write changes: a node's own literal, or bytes of the device. */
  datatype Effect = Cell(id: NodeId, v: int) | Bytes(address: nat, bytes: Octets)

  /** Where writing `v` to a node ends up. */
  ghost function Lands(s: Scene, n: nat, id: NodeId, v: int): Result<Effect>
    decreases n, 0
  {
    if n == 0 then Err(Circular)
    else if id >= |s.nodes| then Err(Dangling)
    else
      match s.nodes[id]
      case Feature(_, value) => LandsIn(s, n - 1, id, value, v)
      case Command(value, _) => LandsIn(s, n - 1, id, value, v)
      case Reg(r) => LandsOn(s, n - 1, r, v)
      case Converter(value, to, _) =>
        (match FormulaValue(s, n - 1, to, Some(v))
         case Err(e) => Err(e)
         case Ok(x) => LandsAt(s, n - 1, value, x))
      case _ => Err(WrongType)
  }

  ghost function LandsIn(s: Scene, n: nat, id: NodeId, vr: Ref, v: int): Result<Effect>
    decreases n, 3
  {
    if vr.Literal? then Ok(Cell(id, v)) else LandsAt(s, n, vr, v)
  }

  /** Only a link can be written through, named directly or chosen by an index. */
  ghost function LandsAt(s: Scene, n: nat, vr: Ref, v: int): Result<Effect>
    decreases n, 2
  {
    match vr
    case Reference(link) => LandsVia(s, n, link, v)
    case Indexed(index, _, _) =>
      (match LinkValue(s, n, index)
       case Err(e) => Err(e)
       case Ok(at) => if Chosen(vr, at).Reference? then LandsVia(s, n, Chosen(vr, at).link, v) else Err(Access))
    case _ => Err(Access)
  }

  ghost function LandsVia(s: Scene, n: nat, link: Link, v: int): Result<Effect>
    decreases n, 1
  {
    if link.Id? && link.id < |s.nodes| then Lands(s, n, link.id, v) else Err(Dangling)
  }

  ghost function LandsOn(s: Scene, n: nat, r: Register, v: int): Result<Effect>
    decreases n, 7
  {
    match Length(s, n, r.length)
    case Err(e) => Err(e)
    case Ok(length) =>
      if Masked(r) then
        (match Content(s, n, r)
         case Err(e) => Err(e)
         case Ok(bytes) => Stored(s, n, r, InsertInt(bytes, v, r.endianness, r.lsb, r.msb)))
      else Stored(s, n, r, EncodeInt(v, length, r.endianness))
  }

  ghost function Stored(s: Scene, n: nat, r: Register, bytes: Option<Octets>): Result<Effect> {
    if bytes.None? then Err(BadFormula)
    else if r.access.RO? then Err(Access)
    else
      match PlaceValue(s, n, r)
      case Err(e) => Err(e)
      case Ok(p) => if p.address + |bytes.value| <= |s.mem| then Ok(Bytes(p.address, bytes.value)) else Err(PortFailed)
  }

  /** A command's own value, 1 when it has none, is what running it writes. */
  ghost function Runs(s: Scene, n: nat, id: NodeId): Result<Effect> {
    if id >= |s.nodes| then Err(Dangling)
    else
      match s.nodes[id]
      case Command(value, commandValue) =>
        (match if commandValue.Nothing? then Ok(1) else RefValue(s, n, commandValue)
         case Err(e) => Err(e)
         case Ok(x) => LandsIn(s, n, id, value, x))
      case _ => Err(WrongType)
  }

  /** The nodes and the device after a write. */
  function Applied(s: Scene, effect: Result<Effect>): Scene {
    match effect
    case Err(_) => s
    case Ok(Cell(id, v)) =>
      if id >= |s.nodes| then s
      else
        (match s.nodes[id]
         case Feature(kind, _) => s.(nodes := s.nodes[id := Feature(kind, Literal(v))])
         case Command(_, commandValue) => s.(nodes := s.nodes[id := Command(Literal(v), commandValue)])
         case _ => s)
    case Ok(Bytes(address, bytes)) =>
      if address + |bytes| <= |s.mem| then s.(mem := Overwritten(s.mem, address, bytes)) else s
  }

  // --------------------------------------------------------------------- depth

  lemma {:induction false} ValueDeeper(s: Scene, n: nat, m: nat, id: NodeId)
    requires n <= m && ValueOf(s, n, id) != Err(Circular)
    ensures ValueOf(s, m, id) == ValueOf(s, n, id)
    decreases n, 0
  {
    hide Content, FormulaValue, RefValue, Extracted;
    if id < |s.nodes| {
      match s.nodes[id]
      case Feature(_, value) => RefDeeper(s, n - 1, m - 1, value);
      case Reg(r) => ContentDeeper(s, n - 1, m - 1, r);
      case Converter(value, _, from) =>
        RefDeeper(s, n - 1, m - 1, value);
        var x := RefValue(s, n - 1, value);
        if x.Ok? { FormulaDeeper(s, n - 1, m - 1, from, Some(x.value)); }
      case SwissKnife(formula) => FormulaDeeper(s, n - 1, m - 1, formula, None);
      case _ =>
    }
  }

  lemma {:induction false} LinkDeeper(s: Scene, n: nat, m: nat, link: Link)
    requires n <= m && LinkValue(s, n, link) != Err(Circular)
    ensures LinkValue(s, m, link) == LinkValue(s, n, link)
    decreases n, 1
  {
    hide ValueOf;
    if link.Id? && link.id < |s.nodes| { ValueDeeper(s, n, m, link.id); }
  }

  lemma {:induction false} RefDeeper(s: Scene, n: nat, m: nat, vr: Ref)
    requires n <= m && RefValue(s, n, vr) != Err(Circular)
    ensures RefValue(s, m, vr) == RefValue(s, n, vr)
    decreases n, 2, vr
  {
    hide LinkValue, Chosen;
    match vr
    case Reference(link) => LinkDeeper(s, n, m, link);
    case Indexed(index, _, _) =>
      LinkDeeper(s, n, m, index);
      if LinkValue(s, n, index).Ok? { RefDeeper(s, n, m, Chosen(vr, LinkValue(s, n, index).value)); }
    case _ =>
  }

  lemma {:induction false} TermsDeeper(s: Scene, n: nat, m: nat, terms: seq<Term>, builtin: Option<int>)
    requires n <= m && TermMeanings(s, n, terms, builtin) != Err(Circular)
    ensures TermMeanings(s, m, terms, builtin) == TermMeanings(s, n, terms, builtin)
    decreases n, 4, |terms|
  {
    hide LinkValue;
    if terms != [] {
      if terms[0].Variable? { LinkDeeper(s, n, m, terms[0].link); }
      if TermMeaning(s, n, terms[0], builtin).Ok? { TermsDeeper(s, n, m, terms[1..], builtin); }
    }
  }

  lemma {:induction false} FormulaDeeper(s: Scene, n: nat, m: nat, formula: Formula, builtin: Option<int>)
    requires n <= m && FormulaValue(s, n, formula, builtin) != Err(Circular)
    ensures FormulaValue(s, m, formula, builtin) == FormulaValue(s, n, formula, builtin)
    decreases n, 5
  {
    hide TermMeanings;
    if formula.parses { TermsDeeper(s, n, m, formula.terms, builtin); }
  }

  lemma {:induction false} RefsDeeper(s: Scene, n: nat, m: nat, refs: seq<Ref>)
    requires n <= m && RefValues(s, n, refs) != Err(Circular)
    ensures RefValues(s, m, refs) == RefValues(s, n, refs)
    decreases n, 4, |refs|
  {
    hide RefValue;
    if refs != [] {
      RefDeeper(s, n, m, refs[0]);
      if RefValue(s, n, refs[0]).Ok? { RefsDeeper(s, n, m, refs[1..]); }
    }
  }

  lemma {:induction false} LengthDeeper(s: Scene, n: nat, m: nat, length: Ref)
    requires n <= m && Length(s, n, length) != Err(Circular)
    ensures Length(s, m, length) == Length(s, n, length)
    decreases n, 4
  {
    hide RefValue;
    if !length.Nothing? { RefDeeper(s, n, m, length); }
  }

  lemma {:induction false} PlaceDeeper(s: Scene, n: nat, m: nat, r: Register)
    requires n <= m && PlaceValue(s, n, r) != Err(Circular)
    ensures PlaceValue(s, m, r) == PlaceValue(s, n, r)
    decreases n, 5
  {
    hide RefValues, Length;
    RefsDeeper(s, n, m, r.terms);
    if RefValues(s, n, r.terms).Ok? { LengthDeeper(s, n, m, r.length); }
  }

  lemma {:induction false} ContentDeeper(s: Scene, n: nat, m: nat, r: Register)
    requires n <= m && Content(s, n, r) != Err(Circular)
    ensures Content(s, m, r) == Content(s, n, r)
    decreases n, 6
  {
    hide PlaceValue;
    if !r.access.WO? { PlaceDeeper(s, n, m, r); }
  }

  lemma {:induction false} LandsDeeper(s: Scene, n: nat, m: nat, id: NodeId, v: int)
    requires n <= m && Lands(s, n, id, v) != Err(Circular)
    ensures Lands(s, m, id, v) == Lands(s, n, id, v)
    decreases n, 0
  {
    hide LandsAt, LandsOn, FormulaValue;
    if id < |s.nodes| {
      match s.nodes[id]
      case Feature(_, value) => LandsInDeeper(s, n - 1, m - 1, id, value, v);
      case Command(value, _) => LandsInDeeper(s, n - 1, m - 1, id, value, v);
      case Reg(r) => LandsOnDeeper(s, n - 1, m - 1, r, v);
      case Converter(value, to, _) =>
        FormulaDeeper(s, n - 1, m - 1, to, Some(v));
        var x := FormulaValue(s, n - 1, to, Some(v));
        if x.Ok? { LandsAtDeeper(s, n - 1, m - 1, value, x.value); }
      case _ =>
    }
  }

  lemma {:induction false} LandsInDeeper(s: Scene, n: nat, m: nat, id: NodeId, vr: Ref, v: int)
    requires n <= m && LandsIn(s, n, id, vr, v) != Err(Circular)
    ensures LandsIn(s, m, id, vr, v) == LandsIn(s, n, id, vr, v)
    decreases n, 3
  {
    hide LandsAt;
    if !vr.Literal? { LandsAtDeeper(s, n, m, vr, v); }
  }

  lemma {:induction false} LandsAtDeeper(s: Scene, n: nat, m: nat, vr: Ref, v: int)
    requires n <= m && LandsAt(s, n, vr, v) != Err(Circular)
    ensures LandsAt(s, m, vr, v) == LandsAt(s, n, vr, v)
    decreases n, 2
  {
    hide LinkValue, Chosen, LandsVia;
    match vr
    case Reference(link) => LandsViaDeeper(s, n, m, link, v);
    case Indexed(index, _, _) =>
      LinkDeeper(s, n, m, index);
      var at := LinkValue(s, n, index);
      if at.Ok? && Chosen(vr, at.value).Reference? { LandsViaDeeper(s, n, m, Chosen(vr, at.value).link, v); }
    case _ =>
  }

  lemma {:induction false} LandsViaDeeper(s: Scene, n: nat, m: nat, link: Link, v: int)
    requires n <= m && LandsVia(s, n, link, v) != Err(Circular)
    ensures LandsVia(s, m, link, v) == LandsVia(s, n, link, v)
    decreases n, 1
  {
    hide Lands;
    if link.Id? && link.id < |s.nodes| { LandsDeeper(s, n, m, link.id, v); }
  }

  lemma LandsOnDeeper(s: Scene, n: nat, m: nat, r: Register, v: int)
    requires n <= m && LandsOn(s, n, r, v) != Err(Circular)
    ensures LandsOn(s, m, r, v) == LandsOn(s, n, r, v)
  {
    hide Length, Content, PlaceValue, InsertInt, EncodeInt;
    LengthDeeper(s, n, m, r.length);
    var length := Length(s, n, r.length);
    if length.Ok? {
      if Masked(r) {
        ContentDeeper(s, n, m, r);
        var bytes := Content(s, n, r);
        if bytes.Ok? { StoredDeeper(s, n, m, r, InsertInt(bytes.value, v, r.endianness, r.lsb, r.msb)); }
      } else {
        StoredDeeper(s, n, m, r, EncodeInt(v, length.value, r.endianness));
      }
    }
  }

  lemma StoredDeeper(s: Scene, n: nat, m: nat, r: Register, bytes: Option<Octets>)
    requires n <= m && Stored(s, n, r, bytes) != Err(Circular)
    ensures Stored(s, m, r, bytes) == Stored(s, n, r, bytes)
  {
    hide PlaceValue;
    if bytes.Some? && !r.access.RO? { PlaceDeeper(s, n, m, r); }
  }

  // ------------------------------------------------------------------- entries

  lemma {:induction false} EntryIsFirst(entries: seq<(int, Ref)>, at: int)
    ensures var i := EntryAt(entries, at); if i < |entries| then First(entries, at, i) else forall j | 0 <= j < |entries| :: entries[j].0 != at
  {
    if entries != [] && entries[0].0 != at {
      EntryIsFirst(entries[1..], at);
      var i := EntryAt(entries[1..], at);
      if i < |entries[1..]| {
        forall j | 0 <= j < i + 1 ensures entries[j].0 != at { if j > 0 { assert entries[j] == entries[1..][j - 1]; } }
      } else {
        forall j | 0 <= j < |entries| ensures entries[j].0 != at { if j > 0 { assert entries[j] == entries[1..][j - 1]; } }
      }
    }
  }

  /** The entry picked is the first under the index's value, else the default. */
  lemma PickIsFirst(vr: Ref, at: int)
    requires vr.Indexed?
    ensures Pick(vr, at) == Chosen(vr, at)
    ensures forall i: nat | First(vr.entries, at, i) :: Pick(vr, at) == vr.entries[i].1
    ensures (forall j | 0 <= j < |vr.entries| :: vr.entries[j].0 != at) ==> Pick(vr, at) == vr.fallback
  {
    hide EntryAt;
    EntryIsFirst(vr.entries, at);
    forall i: nat, j: nat | First(vr.entries, at, i) && First(vr.entries, at, j) ensures i == j { }
    if exists i: nat :: First(vr.entries, at, i) {
      var i: nat :| First(vr.entries, at, i) && Chosen(vr, at) == vr.entries[i].1;
      assert EntryAt(vr.entries, at) == i;
    }
  }
}
