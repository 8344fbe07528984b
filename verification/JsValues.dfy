/** The JavaScript values the command registry inspects: immutable primitives, and objects held in
    a heap so that sharing and cycles are real. The registry only reads these values, so the heap
    itself is a value: a reference is an index into it. */
module JsValues {
  datatype Option<+T> = None | Some(value: T)

  type Ref = nat

  /** A value of JavaScript's type "number". */
  datatype Num = Finite(r: real) | PosInf | NegInf | NaN

  datatype Value =
    | Undefined
    | Null
    | Bool(b: bool)
    | Number(n: Num)
    | Str(s: string)
    | Exotic              // function, symbol or bigint
    | Obj(ref: Ref)

  datatype Key = Name(s: string) | Symbol(id: nat)

  /** One own property. A getter is pure here: reading it always yields `v`. */
  datatype Slot = Data(v: Value, enumerable: bool) | Getter(v: Value, enumerable: bool)

  datatype Field = Field(key: Key, slot: Slot)

  /** An array index below `length`: a hole, or an own property. */
  datatype Item = Hole | Filled(slot: Slot)

  datatype Node =
    | Record(fields: seq<Field>)                                     // prototype is Object.prototype or null
    | List(items: seq<Item>, stray: nat, standardProto: bool)        // stray: own keys other than length and the indices
    | Foreign                                                        // any other object: Date, Map, class instance

  type Heap = seq<Node>

  /** A reference outside the heap stands for an object nothing is known about. */
  function Lookup(h: Heap, r: Ref): Node {
    if r < |h| then h[r] else Foreign
  }

  predicate IsRecord(h: Heap, v: Value) {
    v.Obj? && Lookup(h, v.ref).Record?
  }

  predicate IsList(h: Heap, v: Value) {
    v.Obj? && Lookup(h, v.ref).List?
  }

  /** `value.key`, for keys that no prototype defines. */
  function Get(fields: seq<Field>, key: string): Value {
    if |fields| == 0 then Undefined
    else if fields[0].key == Name(key) then fields[0].slot.v
    else Get(fields[1..], key)
  }

  /** `Object.prototype.hasOwnProperty.call(value, key)`. */
  predicate HasOwn(fields: seq<Field>, key: string) {
    exists i :: 0 <= i < |fields| && fields[i].key == Name(key)
  }

  /** The keys `Object.keys` and `Object.entries` list: own, enumerable, not symbols. */
  predicate Listed(f: Field) {
    f.key.Name? && f.slot.enumerable
  }

  /** Keys of a plain object that lookup finds on Object.prototype although no own property has them. */
  const INHERITED_NAMES: set<string> := {
    "constructor", "__defineGetter__", "__defineSetter__", "hasOwnProperty", "__lookupGetter__",
    "__lookupSetter__", "isPrototypeOf", "propertyIsEnumerable", "toString", "valueOf", "__proto__",
    "toLocaleString"
  }

  /** Keys that could reach a prototype; the registry refuses them as record keys. */
  const UNSAFE_KEYS: set<string> := {"__proto__", "prototype", "constructor"}

  const MAX_SAFE_INTEGER: real := 9007199254740991.0

  /** `Number.isSafeInteger` on a finite number. */
  predicate IsSafeInteger(r: real) {
    r == r.Floor as real && -MAX_SAFE_INTEGER <= r <= MAX_SAFE_INTEGER
  }

  /** `a > b` on numbers. */
  predicate Greater(a: Num, b: Num) {
    match (a, b)
    case (Finite(x), Finite(y)) => x > y
    case (PosInf, Finite(_)) => true
    case (PosInf, NegInf) => true
    case (Finite(_), NegInf) => true
    case (_, _) => false
  }

  /** `String(n)`. */
  function Decimal(n: nat): (s: string)
    ensures |s| > 0 && (n >= 10 ==> |s| > 1)
  {
    (if n < 10 then "" else Decimal(n / 10)) + ["0123456789"[n % 10]]
  }

  lemma {:induction false} DecimalIsInjective(a: nat, b: nat)
    requires Decimal(a) == Decimal(b)
    ensures a == b
  {
    var s, t := Decimal(a), Decimal(b);
    assert s[|s| - 1] == "0123456789"[a % 10] && t[|t| - 1] == "0123456789"[b % 10];
    assert a % 10 == b % 10;
    if a < 10 {
    } else {
      assert s[..|s| - 1] == Decimal(a / 10) && t[..|t| - 1] == Decimal(b / 10);
      DecimalIsInjective(a / 10, b / 10);
    }
  }
}
