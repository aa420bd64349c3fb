/**
 * The JavaScript values the patcher walks over and the heap of plain objects
 * they point into.
 *
 * Arrays are values, not heap objects: the patcher never walks into an array
 * and every array it writes is a new array literal, so array identity is never
 * observed. Plain objects live in a heap of records addressed by ids; a record
 * keeps its own enumerable keys in `Object.keys` order. A frozen record stands
 * for any object whose properties cannot be written: in strict mode a write to
 * it throws a `TypeError`.
 */
module Values {
  import opened Wrappers

  datatype Value =
    | Undefined
    | Null
    | Bool(b: bool)
    | Num(n: int)
    | Str(s: string)
    | Arr(items: seq<Value>)
    | Ref(id: nat)

  datatype Record = Record(keys: seq<string>, fields: map<string, Value>, frozen: bool)

  type Heap = map<nat, Record>

  /** `obj[k]` for an own property; a missing property reads as `undefined`. */
  function Get(r: Record, k: string): Value
  {
    if k in r.fields then r.fields[k] else Undefined
  }

  /** The fields of record `id`, read through the heap (`undefined` for a dangling id). */
  function Field(h: Heap, id: nat, k: string): Value
  {
    if id in h then Get(h[id], k) else Undefined
  }

  /** `v && typeof v === 'object' && !Array.isArray(v)`. */
  predicate IsObject(h: Heap, v: Value)
  {
    v.Ref? && v.id in h
  }

  /** JavaScript truthiness (numbers are integers here, so NaN does not arise). */
  predicate Truthy(h: Heap, v: Value)
  {
    match v
    case Undefined => false
    case Null => false
    case Bool(b) => b
    case Num(n) => n != 0
    case Str(s) => s != ""
    case Arr(_) => true
    case Ref(id) => id in h
  }

  /** Assignment to a property: an existing key keeps its place, a new key is appended. */
  function Put(r: Record, k: string, v: Value): (r': Record)
    ensures r'.fields == r.fields[k := v] && r'.frozen == r.frozen
    ensures k in r.fields ==> r'.keys == r.keys
    ensures k !in r.fields ==> r'.keys == r.keys + [k]
  {
    Record(if k in r.fields then r.keys else r.keys + [k], r.fields[k := v], r.frozen)
  }

  /** `obj[k] = v` in strict mode: `None` is the `TypeError` a frozen object raises. */
  function SetField(h: Heap, id: nat, k: string, v: Value): (r: Option<Heap>)
    requires id in h
    ensures r.None? <==> h[id].frozen
    ensures r.Some? ==> r.value == h[id := Put(h[id], k, v)]
  {
    if h[id].frozen then None else Some(h[id := Put(h[id], k, v)])
  }

  /** The least id not yet used by the heap: where a newly created object is placed. */
  ghost function FreshId(h: Heap): (id: nat)
    ensures id !in h
    ensures forall j :: 0 <= j < id ==> j in h
  {
    var b := Bound(h.Keys);
    assert b !in h;
    LeastAbsent(h, b)
  }

  /** A bound above every id of a finite set. */
  ghost function Bound(s: set<nat>): (b: nat)
    ensures forall j :: j in s ==> j < b
  {
    if s == {} then 0
    else
      var x :| x in s;
      var b' := Bound(s - {x});
      assert forall j :: j in s ==> j == x || j in s - {x};
      if x < b' then b' else x + 1
  }

  ghost function LeastAbsent(h: Heap, b: nat): (id: nat)
    requires b !in h
    ensures id !in h && id <= b
    ensures forall j :: 0 <= j < id ==> j in h
    decreases b
  {
    if exists j :: 0 <= j < b && j !in h then
      var j :| 0 <= j < b && j !in h;
      LeastAbsent(h, j)
    else b
  }

  /** Allocation of a new object: returns the least unused id. */
  method NewId(h: Heap) returns (id: nat)
    ensures id == FreshId(h)
  {
    ghost var b := Bound(h.Keys);
    id := 0;
    while id in h
      invariant id <= b
      invariant forall j :: 0 <= j < id ==> j in h
      decreases b - id
    {
      id := id + 1;
    }
    var f := FreshId(h);
    assert !(f < id) && !(id < f);
  }
}
