/** Checking a command's result against its certified schema (src/commands/registry.ts).

    The checker recurses through the heap with the set of objects it is inside of and an error
    count with a cap. `Clean` says when one call adds no error; `Legal` says the same without any
    recursion or ancestor set, over the positions the schema reaches in the value. */
module ResultCheck {
  import opened JsValues
  import opened MachineSchema

  const MAX_ERRORS: nat := 16

  /** What a position is checked against. A key that `schema.properties[key]` finds on
      Object.prototype yields a function instead of a schema, and the check of that does nothing. */
  datatype Shape = Of(s: Schema) | Inherited

  datatype Position = Position(shape: Shape, v: Value)

  // ---------------------------------------------------------------- one position

  function FindProperty(props: seq<Property>, key: string): Option<Schema> {
    if |props| == 0 then None
    else if props[0].name == key then Some(props[0].schema)
    else FindProperty(props[1..], key)
  }

  /** `schema.properties[key]`. */
  function ShapeOf(props: seq<Property>, key: string): Option<Shape> {
    match FindProperty(props, key)
    case Some(s) => Some(Of(s))
    case None => if key in INHERITED_NAMES then Some(Inherited) else None
  }

  predicate JsonSlot(slot: Slot) {
    slot.Data? && slot.enumerable
  }

  predicate JsonField(f: Field) {
    f.key.Name? && f.key.s !in UNSAFE_KEYS && JsonSlot(f.slot)
  }

  predicate JsonItem(item: Item) {
    item.Filled? && JsonSlot(item.slot)
  }

  predicate NumberOk(s: Schema, n: Num)
    requires s.NumberS?
  {
    && n.Finite?
    && (s.integer ==> IsSafeInteger(n.r))
    && (s.minimum.Some? ==> n.r >= s.minimum.value)
    && (s.maximum.Some? ==> n.r <= s.maximum.value)
  }

  predicate StringOk(s: Schema, text: string)
    requires s.StringS?
  {
    && (s.options.Some? ==> Some(text) in s.options.value)
    && (s.maxLength.Some? ==> |text| <= s.maxLength.value)
  }

  /** A listed key of an object with schema `s` that the schema does not know and forbids. */
  predicate Undeclared(s: Schema, f: Field)
    requires s.ObjectS?
  {
    Listed(f) && FindProperty(s.props, f.key.s).None? && !s.additional
  }

  /** The value at one position is right, what lies below it apart. */
  ghost predicate LocalOk(h: Heap, p: Position) {
    match p.shape
    case Inherited => true
    case Of(NullS) => p.v.Null?
    case Of(BooleanS) => p.v.Bool?
    case Of(JsonS) =>
      (match p.v
       case Undefined => false
       case Exotic => false
       case Number(n) => n.Finite?
       case Obj(r) =>
         (match Lookup(h, r)
          case List(items, stray, standardProto) =>
            standardProto && stray == 0 && forall i :: 0 <= i < |items| ==> JsonItem(items[i])
          case Record(fields) => forall i :: 0 <= i < |fields| ==> JsonField(fields[i])
          case Foreign => false)
       case _ => true)
    case Of(NumberS(_, _, _)) => p.v.Number? && NumberOk(p.shape.s, p.v.n)
    case Of(StringS(_, _)) => p.v.Str? && StringOk(p.shape.s, p.v.s)
    case Of(ArrayS(_, maxItems)) =>
      IsList(h, p.v) && (maxItems.Some? ==> |Lookup(h, p.v.ref).items| <= maxItems.value)
    case Of(ObjectS(_, required, _)) =>
      && IsRecord(h, p.v)
      && (forall k :: 0 <= k < |required| ==> HasOwn(Lookup(h, p.v.ref).fields, required[k]))
      && (forall i :: 0 <= i < |Lookup(h, p.v.ref).fields| ==>
            var f := Lookup(h, p.v.ref).fields[i];
            Undeclared(p.shape.s, f) ==> f.key.s in INHERITED_NAMES)
  }

  /** The check goes inside the object at this position. */
  predicate Enters(h: Heap, p: Position) {
    match p.shape
    case Of(JsonS) => IsRecord(h, p.v) || IsList(h, p.v)
    case Of(ArrayS(_, _)) => IsList(h, p.v)
    case Of(ObjectS(_, _, _)) => IsRecord(h, p.v)
    case _ => false
  }

  /** The position below `p` at its i-th element or own property, if the check goes there. */
  function Below(h: Heap, p: Position, i: nat): Option<Position> {
    if !Enters(h, p) then None
    else
      match Lookup(h, p.v.ref)
      case List(items, _, _) =>
        if i >= |items| || items[i].Hole? then None
        else if p.shape.s.ArrayS? then Some(Position(Of(p.shape.s.items), items[i].slot.v))
        else if JsonItem(items[i]) then Some(Position(Of(JsonS), items[i].slot.v))
        else None
      case Record(fields) =>
        if i >= |fields| then None
        else if p.shape.s.JsonS? then
          if JsonField(fields[i]) then Some(Position(Of(JsonS), fields[i].slot.v)) else None
        else if !Listed(fields[i]) then None
        else
          match ShapeOf(p.shape.s.props, fields[i].key.s)
          case None => None
          case Some(shape) => Some(Position(shape, fields[i].slot.v))
  }

  /** Number of elements or own properties at `p`. */
  function Width(h: Heap, p: Position): nat {
    if !p.v.Obj? then 0
    else match Lookup(h, p.v.ref)
      case List(items, _, _) => |items|
      case Record(fields) => |fields|
      case Foreign => 0
  }

  // ---------------------------------------------------------------- what a call accepts

  /** A call at `p`, inside the objects `inside`, adds no error. */
  ghost predicate Clean(h: Heap, p: Position, depth: nat, inside: set<Ref>)
    decreases if depth > MAX_DEPTH then 0 else 1 + MAX_DEPTH - depth
  {
    && depth <= MAX_DEPTH
    && LocalOk(h, p)
    && (Enters(h, p) ==>
          && p.v.ref !in inside
          && forall i :: 0 <= i < Width(h, p) ==> CleanBelow(h, p, i, depth, inside))
  }

  ghost predicate CleanBelow(h: Heap, p: Position, i: nat, depth: nat, inside: set<Ref>)
    requires depth <= MAX_DEPTH && Enters(h, p)
    decreases 1 + MAX_DEPTH - depth, 0
  {
    var below := Below(h, p, i);
    below.Some? ==> Clean(h, below.value, depth + 1, inside + {p.v.ref})
  }

  // ---------------------------------------------------------------- the checker

  class Checker {
    const heap: Heap
    var errors: nat
    var inside: set<Ref>

    constructor (heap: Heap)
      ensures this.heap == heap && errors == 0 && inside == {}
    {
      this.heap := heap;
      errors, inside := 0, {};
    }

    /** `pushMachineResultError`. */
    method PushCapped()
      modifies this`errors
      ensures errors == if old(errors) < MAX_ERRORS then old(errors) + 1 else old(errors)
    {
      if errors < MAX_ERRORS { errors := errors + 1; }
    }

    /** `validateJsonMachineValue`. */
    method CheckJson(v: Value, depth: nat)
      modifies this
      ensures inside == old(inside) && errors >= old(errors)
      ensures old(errors) >= MAX_ERRORS ==> errors == old(errors)
      ensures old(errors) < MAX_ERRORS ==>
        (errors == old(errors) <==> Clean(heap, Position(Of(JsonS), v), depth, old(inside)))
      decreases if depth > MAX_DEPTH then 0 else 1 + MAX_DEPTH - depth, 1
    {
      ghost var p := Position(Of(JsonS), v);
      if errors >= MAX_ERRORS { return; }
      if depth > MAX_DEPTH {
        PushCapped();
        return;
      }
      if v.Null? || v.Bool? || v.Str? { return; }
      if v.Number? {
        if !v.n.Finite? { PushCapped(); }
        return;
      }
      if !v.Obj? {
        PushCapped();
        return;
      }
      if v.ref in inside {
        PushCapped();
        return;
      }
      match Lookup(heap, v.ref) {
        case List(items, stray, standardProto) =>
          if !standardProto {
            PushCapped();
            return;
          }
          CheckJsonItems(v, items, stray, depth);
        case Record(fields) =>
          CheckJsonFields(v, fields, depth);
        case Foreign =>
          PushCapped();
      }
    }

    method CheckJsonItems(v: Value, items: seq<Item>, stray: nat, depth: nat)
      requires v.Obj? && Lookup(heap, v.ref) == List(items, stray, true)
      requires depth <= MAX_DEPTH && errors < MAX_ERRORS && v.ref !in inside
      modifies this
      ensures inside == old(inside) && errors >= old(errors)
      ensures errors == old(errors) <==> Clean(heap, Position(Of(JsonS), v), depth, old(inside))
      decreases 1 + MAX_DEPTH - depth, 0
    {
      ghost var p := Position(Of(JsonS), v);
      inside := inside + {v.ref};
      var itemCount, k := 0, 0;
      while k < |items|
        invariant 0 <= itemCount <= k <= |items|
        invariant inside == old(inside) + {v.ref}
        invariant errors >= old(errors)
        invariant errors == old(errors) <==>
          forall i :: 0 <= i < k && items[i].Filled? ==>
            JsonItem(items[i]) && CleanBelow(heap, p, i, depth, old(inside))
        invariant errors == old(errors) ==> (itemCount == k <==> forall i :: 0 <= i < k ==> items[i].Filled?)
      {
        if errors >= MAX_ERRORS { break; }
        match items[k] {
          case Hole =>
          case Filled(slot) =>
            if !JsonSlot(slot) {
              PushCapped();
            } else {
              itemCount := itemCount + 1;
              CheckJson(slot.v, depth + 1);
            }
        }
        k := k + 1;
      }
      ghost var ok := errors == old(errors);
      var extra := 0;
      while extra < stray
        invariant 0 <= extra <= stray
        invariant errors >= old(errors) && inside == old(inside) + {v.ref}
        invariant errors == old(errors) <==> extra == 0 && ok
      {
        if errors >= MAX_ERRORS { break; }
        PushCapped();
        extra := extra + 1;
      }
      if itemCount != |items| { PushCapped(); }
      inside := inside - {v.ref};
    }

    method CheckJsonFields(v: Value, fields: seq<Field>, depth: nat)
      requires v.Obj? && Lookup(heap, v.ref) == Record(fields)
      requires depth <= MAX_DEPTH && errors < MAX_ERRORS && v.ref !in inside
      modifies this
      ensures inside == old(inside) && errors >= old(errors)
      ensures errors == old(errors) <==> Clean(heap, Position(Of(JsonS), v), depth, old(inside))
      decreases 1 + MAX_DEPTH - depth, 0
    {
      ghost var p := Position(Of(JsonS), v);
      inside := inside + {v.ref};
      var k := 0;
      while k < |fields|
        invariant 0 <= k <= |fields|
        invariant inside == old(inside) + {v.ref}
        invariant errors >= old(errors)
        invariant errors == old(errors) <==>
          forall i :: 0 <= i < k ==> JsonField(fields[i]) && CleanBelow(heap, p, i, depth, old(inside))
      {
        if errors >= MAX_ERRORS { break; }
        var f := fields[k];
        if f.key.Symbol? {
          PushCapped();
        } else if f.key.s in UNSAFE_KEYS {
          PushCapped();
        } else if !JsonSlot(f.slot) {
          PushCapped();
        } else {
          CheckJson(f.slot.v, depth + 1);
        }
        k := k + 1;
      }
      inside := inside - {v.ref};
    }

    /** `validateMachineValue`. */
    method Check(shape: Shape, v: Value, depth: nat)
      modifies this
      ensures inside == old(inside) && errors >= old(errors)
      ensures old(errors) >= MAX_ERRORS ==> errors == old(errors)
      ensures old(errors) < MAX_ERRORS ==>
        (errors == old(errors) <==> Clean(heap, Position(shape, v), depth, old(inside)))
      decreases if depth > MAX_DEPTH then 0 else 1 + MAX_DEPTH - depth, 3
    {
      ghost var p := Position(shape, v);
      if errors >= MAX_ERRORS { return; }
      if depth > MAX_DEPTH {
        errors := errors + 1;
        return;
      }
      match shape {
        case Inherited =>
        case Of(NullS) => if !v.Null? { errors := errors + 1; }
        case Of(BooleanS) => if !v.Bool? { errors := errors + 1; }
        case Of(JsonS) => CheckJson(v, depth);
        case Of(NumberS(integer, minimum, maximum)) =>
          if !v.Number? || !v.n.Finite? || (integer && !IsSafeInteger(v.n.r)) {
            errors := errors + 1;
            return;
          }
          if minimum.Some? && v.n.r < minimum.value { errors := errors + 1; }
          if maximum.Some? && v.n.r > maximum.value { errors := errors + 1; }
        case Of(StringS(options, maxLength)) =>
          if !v.Str? {
            errors := errors + 1;
            return;
          }
          if options.Some? && Some(v.s) !in options.value { errors := errors + 1; }
          if maxLength.Some? && |v.s| > maxLength.value { errors := errors + 1; }
        case Of(ArrayS(items, maxItems)) => CheckArray(shape.s, v, depth);
        case Of(ObjectS(props, required, additional)) => CheckObject(shape.s, v, depth);
      }
    }

    method CheckArray(s: Schema, v: Value, depth: nat)
      requires s.ArrayS? && depth <= MAX_DEPTH && errors < MAX_ERRORS
      modifies this
      ensures inside == old(inside) && errors >= old(errors)
      ensures errors == old(errors) <==> Clean(heap, Position(Of(s), v), depth, old(inside))
      decreases 1 + MAX_DEPTH - depth, 2
    {
      ghost var p := Position(Of(s), v);
      if !IsList(heap, v) {
        errors := errors + 1;
        return;
      }
      var items := Lookup(heap, v.ref).items;
      if s.maxItems.Some? && |items| > s.maxItems.value { errors := errors + 1; }
      if v.ref in inside {
        errors := errors + 1;
        return;
      }
      inside := inside + {v.ref};
      ghost var ok := errors == old(errors);
      var k := 0;
      while k < |items|
        invariant 0 <= k <= |items|
        invariant inside == old(inside) + {v.ref}
        invariant errors >= old(errors)
        invariant errors == old(errors) <==>
          ok && forall i :: 0 <= i < k && items[i].Filled? ==> CleanBelow(heap, p, i, depth, old(inside))
      {
        if items[k].Filled? { Check(Of(s.items), items[k].slot.v, depth + 1); }
        k := k + 1;
      }
      inside := inside - {v.ref};
    }

    method CheckObject(s: Schema, v: Value, depth: nat)
      requires s.ObjectS? && depth <= MAX_DEPTH && errors < MAX_ERRORS
      modifies this
      ensures inside == old(inside) && errors >= old(errors)
      ensures errors == old(errors) <==> Clean(heap, Position(Of(s), v), depth, old(inside))
      decreases 1 + MAX_DEPTH - depth, 2
    {
      ghost var p := Position(Of(s), v);
      if !IsRecord(heap, v) {
        errors := errors + 1;
        return;
      }
      if v.ref in inside {
        errors := errors + 1;
        return;
      }
      var fields := Lookup(heap, v.ref).fields;
      inside := inside + {v.ref};
      var r := 0;
      while r < |s.required|
        invariant 0 <= r <= |s.required|
        invariant errors >= old(errors) && inside == old(inside) + {v.ref}
        invariant errors == old(errors) <==> forall j :: 0 <= j < r ==> HasOwn(fields, s.required[j])
      {
        if !HasOwn(fields, s.required[r]) { errors := errors + 1; }
        r := r + 1;
      }
      ghost var ok := errors == old(errors);
      var k := 0;
      while k < |fields|
        invariant 0 <= k <= |fields|
        invariant inside == old(inside) + {v.ref}
        invariant errors >= old(errors)
        invariant errors == old(errors) <==>
          ok && forall i :: 0 <= i < k ==>
            (Undeclared(s, fields[i]) ==> fields[i].key.s in INHERITED_NAMES)
            && CleanBelow(heap, p, i, depth, old(inside))
      {
        if Listed(fields[k]) {
          var child := ShapeOf(s.props, fields[k].key.s);
          if child.None? {
            if !s.additional { errors := errors + 1; }
          } else {
            Check(child.value, fields[k].slot.v, depth + 1);
          }
        }
        k := k + 1;
      }
      inside := inside - {v.ref};
    }
  }
}
