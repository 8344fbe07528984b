/** The closed schema grammar for command results (src/commands/registry.ts): its certifier, which
    reads untrusted, possibly cyclic definitions, and the meaning of a certified schema's tree. */
module MachineSchema {
  import opened JsValues

  const MAX_DEPTH: nat := 16
  const MAX_NODES: nat := 512

  datatype Schema =
    | NullS
    | BooleanS
    | JsonS
    | NumberS(integer: bool, minimum: Option<real>, maximum: Option<real>)
    | StringS(options: Option<seq<Option<string>>>, maxLength: Option<nat>)   // a None option is a hole: it matches nothing
    | ArrayS(items: Schema, maxItems: Option<nat>)
    | ObjectS(props: seq<Property>, required: seq<string>, additional: bool)

  datatype Property = Property(name: string, schema: Schema)

  // ---------------------------------------------------------------- size of a schema tree

  function Height(s: Schema): nat {
    match s
    case ArrayS(items, _) => 1 + Height(items)
    case ObjectS(props, _, _) => TallestOf(props)
    case _ => 0
  }

  /** 0 for no properties, else one more than the tallest property. */
  function TallestOf(props: seq<Property>): nat {
    if |props| == 0 then 0
    else
      var before, last := TallestOf(props[..|props| - 1]), 1 + Height(props[|props| - 1].schema);
      if before < last then last else before
  }

  function Nodes(s: Schema): nat {
    match s
    case ArrayS(items, _) => 1 + Nodes(items)
    case ObjectS(props, _, _) => 1 + NodesOf(props)
    case _ => 1
  }

  function NodesOf(props: seq<Property>): nat {
    if |props| == 0 then 0 else NodesOf(props[..|props| - 1]) + Nodes(props[|props| - 1].schema)
  }

  // ---------------------------------------------------------------- the grammar, one object at a time

  /** What one object of a definition says, its nested definitions still raw. */
  datatype Head =
    | Leaf(schema: Schema)
    | ArrayOf(child: Value, maxItems: Option<nat>)
    | ObjectOf(entries: seq<(string, Value)>, required: seq<string>, additional: bool)

  /** Keywords beside "type" that a schema type allows. */
  function Keywords(t: string): set<string> {
    if t == "number" || t == "integer" then {"minimum", "maximum"}
    else if t == "string" then {"enum", "maxLength"}
    else if t == "array" then {"items", "maxItems"}
    else if t == "object" then {"properties", "required", "additionalProperties"}
    else {}
  }

  predicate KnownType(t: string) {
    t in {"null", "boolean", "json", "number", "integer", "string", "array", "object"}
  }

  ghost predicate OnlyKeywords(fields: seq<Field>, allowed: set<string>) {
    forall i :: 0 <= i < |fields| && Listed(fields[i]) ==> fields[i].key.s in allowed + {"type"}
  }

  predicate BoundOk(v: Value) {
    v.Undefined? || (v.Number? && v.n.Finite?)
  }

  function Bound(v: Value): Option<real>
    requires BoundOk(v)
  {
    if v.Undefined? then None else Some(v.n.r)
  }

  predicate BoundsOrdered(low: Value, high: Value) {
    low.Number? && high.Number? ==> !Greater(low.n, high.n)
  }

  predicate LimitOk(v: Value) {
    v.Undefined? || (v.Number? && v.n.Finite? && IsSafeInteger(v.n.r) && v.n.r >= 0.0)
  }

  function Limit(v: Value): Option<nat>
    requires LimitOk(v)
  {
    if v.Undefined? then None else Some(v.n.r.Floor)
  }

  /** Every present element is a string, and no element repeats (a hole reads as undefined). */
  ghost predicate UniqueStrings(items: seq<Item>) {
    && (forall i :: 0 <= i < |items| && items[i].Filled? ==> items[i].slot.v.Str?)
    && (forall i, j :: 0 <= i < j < |items| ==> Element(items[i]) != Element(items[j]))
  }

  function Element(item: Item): Value {
    if item.Hole? then Undefined else item.slot.v
  }

  function Text(item: Item): Option<string> {
    if item.Filled? && item.slot.v.Str? then Some(item.slot.v.s) else None
  }

  /** Iteration reads a hole as undefined, and a property lookup spells that "undefined". */
  function KeyText(item: Item): string {
    match Text(item) case Some(s) => s case None => "undefined"
  }

  function Texts(items: seq<Item>): seq<Option<string>> {
    seq(|items|, i requires 0 <= i < |items| => Text(items[i]))
  }

  function KeyTexts(items: seq<Item>): seq<string> {
    seq(|items|, i requires 0 <= i < |items| => KeyText(items[i]))
  }

  /** `Object.entries(value)`. */
  function Entries(fields: seq<Field>): seq<(string, Value)> {
    if |fields| == 0 then []
    else
      var before, last := Entries(fields[..|fields| - 1]), fields[|fields| - 1];
      if Listed(last) then before + [(last.key.s, last.slot.v)] else before
  }

  ghost predicate EnumOk(h: Heap, v: Value) {
    v.Undefined? || (IsList(h, v) && |Lookup(h, v.ref).items| > 0 && UniqueStrings(Lookup(h, v.ref).items))
  }

  ghost predicate RequiredOk(h: Heap, properties: Value, required: Value) {
    && IsList(h, required)
    && UniqueStrings(Lookup(h, required.ref).items)
    && (IsRecord(h, properties) ==>
          forall i :: 0 <= i < |Lookup(h, required.ref).items| ==>
            HasOwn(Lookup(h, properties.ref).fields, KeyText(Lookup(h, required.ref).items[i])))
  }

  ghost predicate SafeNames(entries: seq<(string, Value)>) {
    forall i :: 0 <= i < |entries| ==> entries[i].0 != "" && entries[i].0 !in UNSAFE_KEYS
  }

  /** The closed grammar: the one reading of a definition object, or None. */
  ghost function Parse(h: Heap, v: Value): Option<Head> {
    if !IsRecord(h, v) then None
    else
      var fields := Lookup(h, v.ref).fields;
      var t := Get(fields, "type");
      if !t.Str? || !KnownType(t.s) || !OnlyKeywords(fields, Keywords(t.s)) then None
      else ParseAs(h, fields, t.s)
  }

  ghost function ParseAs(h: Heap, fields: seq<Field>, t: string): Option<Head>
    requires KnownType(t)
  {
    if t == "null" then Some(Leaf(NullS))
    else if t == "boolean" then Some(Leaf(BooleanS))
    else if t == "json" then Some(Leaf(JsonS))
    else if t == "number" || t == "integer" then
      var low, high := Get(fields, "minimum"), Get(fields, "maximum");
      if BoundOk(low) && BoundOk(high) && BoundsOrdered(low, high)
      then Some(Leaf(NumberS(t == "integer", Bound(low), Bound(high)))) else None
    else if t == "string" then
      var options, maxLength := Get(fields, "enum"), Get(fields, "maxLength");
      if EnumOk(h, options) && LimitOk(maxLength)
      then Some(Leaf(StringS(EnumOf(h, options), Limit(maxLength)))) else None
    else if t == "array" then
      var maxItems := Get(fields, "maxItems");
      if HasOwn(fields, "items") && LimitOk(maxItems)
      then Some(ArrayOf(Get(fields, "items"), Limit(maxItems))) else None
    else
      var properties, required := Get(fields, "properties"), Get(fields, "required");
      var additional := Get(fields, "additionalProperties");
      if IsRecord(h, properties) && SafeNames(Entries(Lookup(h, properties.ref).fields))
         && RequiredOk(h, properties, required) && additional.Bool?
      then Some(ObjectOf(Entries(Lookup(h, properties.ref).fields),
                         KeyTexts(Lookup(h, required.ref).items), additional.b))
      else None
  }

  function EnumOf(h: Heap, v: Value): Option<seq<Option<string>>> {
    if IsList(h, v) then Some(Texts(Lookup(h, v.ref).items)) else None
  }

  /** The raw value `v`, unfolded through the heap, is the schema tree `s`. */
  ghost predicate Denotes(h: Heap, v: Value, s: Schema)
    decreases s
  {
    match Parse(h, v)
    case None => false
    case Some(Leaf(t)) => s == t
    case Some(ArrayOf(child, maxItems)) => s.ArrayS? && s.maxItems == maxItems && Denotes(h, child, s.items)
    case Some(ObjectOf(entries, required, additional)) =>
      s.ObjectS? && s.required == required && s.additional == additional && DenotesEach(h, entries, s.props)
  }

  ghost predicate DenotesEach(h: Heap, entries: seq<(string, Value)>, props: seq<Property>)
    decreases props
  {
    && |props| == |entries|
    && forall i :: 0 <= i < |props| ==> props[i].name == entries[i].0 && Denotes(h, entries[i].1, props[i].schema)
  }

  /** `v` unfolds to `s` within what is left of the depth and node budgets. */
  ghost predicate Fits(h: Heap, v: Value, s: Schema, depth: nat, nodes: nat) {
    Denotes(h, v, s) && depth + Height(s) <= MAX_DEPTH && nodes + Nodes(s) <= MAX_NODES
  }

  ghost predicate FitsNothing(h: Heap, v: Value, depth: nat, nodes: nat) {
    forall s :: !Fits(h, v, s, depth, nodes)
  }

  /** A definition unfolds to at most one schema. */
  lemma {:induction false} DenotesIsFunctional(h: Heap, v: Value, s: Schema, t: Schema)
    requires Denotes(h, v, s) && Denotes(h, v, t)
    ensures s == t
    decreases s
  {
    match Parse(h, v)
    case Some(Leaf(_)) =>
    case Some(ArrayOf(child, _)) => DenotesIsFunctional(h, child, s.items, t.items);
    case Some(ObjectOf(entries, _, _)) =>
      forall i | 0 <= i < |s.props| ensures s.props[i] == t.props[i] {
        DenotesIsFunctional(h, entries[i].1, s.props[i].schema, t.props[i].schema);
      }
      assert s.props == t.props;
  }

  lemma {:induction false} PrefixIsSmaller(props: seq<Property>, k: nat)
    requires k < |props|
    ensures TallestOf(props[..k]) <= TallestOf(props) && 1 + Height(props[k].schema) <= TallestOf(props)
    ensures NodesOf(props[..k]) + Nodes(props[k].schema) <= NodesOf(props)
  {
    var n := |props| - 1;
    if k == n {
    } else {
      PrefixIsSmaller(props[..n], k);
      assert props[..n][..k] == props[..k];
    }
  }

  lemma NodesArePositive(s: Schema)
    ensures Nodes(s) >= 1
  {
  }

  /** The entries of one object fit in what is left of the budgets. */
  ghost predicate FitsEach(h: Heap, entries: seq<(string, Value)>, ts: seq<Property>, depth: nat, nodes: nat) {
    DenotesEach(h, entries, ts) && depth + TallestOf(ts) <= MAX_DEPTH && nodes + NodesOf(ts) <= MAX_NODES
  }

  ghost predicate FitsNoneOf(h: Heap, entries: seq<(string, Value)>, depth: nat, nodes: nat) {
    forall ts: seq<Property> :: !FitsEach(h, entries, ts, depth, nodes)
  }

  lemma {:induction false} PrefixOfDenotation(
    h: Heap, entries: seq<(string, Value)>, ts: seq<Property>, props: seq<Property>, k: nat)
    requires k <= |entries| && DenotesEach(h, entries, ts) && DenotesEach(h, entries[..k], props)
    ensures ts[..k] == props
  {
    forall i | 0 <= i < k ensures ts[i] == props[i] {
      assert entries[..k][i] == entries[i];
      DenotesIsFunctional(h, entries[i].1, ts[i].schema, props[i].schema);
    }
  }

  lemma {:induction false} OneMoreEntry(
    h: Heap, entries: seq<(string, Value)>, props: seq<Property>, k: nat, child: Schema, depth: nat, nodes: nat)
    requires k < |entries| && FitsEach(h, entries[..k], props, depth, nodes)
    requires Fits(h, entries[k].1, child, depth + 1, nodes + NodesOf(props))
    ensures var more := props + [Property(entries[k].0, child)];
      FitsEach(h, entries[..k + 1], more, depth, nodes) && NodesOf(more) == NodesOf(props) + Nodes(child)
  {
    var more := props + [Property(entries[k].0, child)];
    assert more[..|more| - 1] == props;
    forall i | 0 <= i < |more|
      ensures more[i].name == entries[..k + 1][i].0 && Denotes(h, entries[..k + 1][i].1, more[i].schema)
    {
      if i < k { assert entries[..k][i] == entries[..k + 1][i] && more[i] == props[i]; }
    }
  }

  /** If one entry does not fit after those before it, the object does not fit. */
  lemma {:induction false} BlockedByEntry(
    h: Heap, entries: seq<(string, Value)>, props: seq<Property>, k: nat, depth: nat, nodes: nat)
    requires k < |entries| && FitsEach(h, entries[..k], props, depth, nodes)
    requires FitsNothing(h, entries[k].1, depth + 1, nodes + NodesOf(props))
    ensures FitsNoneOf(h, entries, depth, nodes)
  {
    forall ts: seq<Property> | FitsEach(h, entries, ts, depth, nodes) ensures false {
      PrefixOfDenotation(h, entries, ts, props, k);
      PrefixIsSmaller(ts, k);
      assert Fits(h, entries[k].1, ts[k].schema, depth + 1, nodes + NodesOf(props));
    }
  }

  lemma {:induction false} BlockedByEntries(h: Heap, v: Value, entries: seq<(string, Value)>, depth: nat, nodes: nat)
    requires Parse(h, v).Some? && Parse(h, v).value.ObjectOf? && Parse(h, v).value.entries == entries
    requires FitsNoneOf(h, entries, depth, nodes + 1)
    ensures FitsNothing(h, v, depth, nodes)
  {
    forall t: Schema | Fits(h, v, t, depth, nodes) ensures false {
      assert FitsEach(h, entries, t.props, depth, nodes + 1);
    }
  }

  lemma {:induction false} BlockedByItems(h: Heap, v: Value, depth: nat, nodes: nat)
    requires Parse(h, v).Some? && Parse(h, v).value.ArrayOf?
    requires FitsNothing(h, Parse(h, v).value.child, depth + 1, nodes + 1)
    ensures FitsNothing(h, v, depth, nodes)
  {
    forall t: Schema | Fits(h, v, t, depth, nodes) ensures false {
      assert Fits(h, Parse(h, v).value.child, t.items, depth + 1, nodes + 1);
    }
  }

  // ---------------------------------------------------------------- the certifier

  /** `items.some((item) => typeof item !== "string") || new Set(items).size !== items.length`. */
  method NotUniqueStrings(items: seq<Item>) returns (bad: bool)
    ensures bad <==> !UniqueStrings(items)
  {
    var seen: set<Value> := {};
    bad := false;
    var i := 0;
    while i < |items|
      invariant 0 <= i <= |items|
      invariant seen == set j | 0 <= j < i :: Element(items[j])
      invariant bad <==> !UniqueStrings(items[..i])
    {
      assert items[..i + 1] == items[..i] + [items[i]];
      if items[i].Filled? && !items[i].slot.v.Str? {
        assert items[..i + 1][i] == items[i];
        bad := true;
      }
      if Element(items[i]) in seen {
        var j :| 0 <= j < i && Element(items[j]) == Element(items[i]);
        assert items[..i + 1][j] == items[j] && items[..i + 1][i] == items[i];
        bad := true;
      }
      seen := seen + {Element(items[i])};
      i := i + 1;
    }
    assert items[..i] == items;
  }

  /** One run of the certifier: the number of errors pushed and of definition objects entered. */
  class Certifier {
    const heap: Heap
    var errors: nat
    var nodes: nat

    constructor (heap: Heap)
      ensures this.heap == heap && errors == 0 && nodes == 0
    {
      this.heap := heap;
      errors, nodes := 0, 0;
    }

    method Push()
      modifies this`errors
      ensures errors == old(errors) + 1
    {
      errors := errors + 1;
    }

    method CheckBounds(fields: seq<Field>)
      modifies this`errors
      ensures errors >= old(errors)
      ensures var low, high := Get(fields, "minimum"), Get(fields, "maximum");
        errors == old(errors) <==> BoundOk(low) && BoundOk(high) && BoundsOrdered(low, high)
    {
      var low, high := Get(fields, "minimum"), Get(fields, "maximum");
      if !low.Undefined? && (!low.Number? || !low.n.Finite?) { Push(); }
      if !high.Undefined? && (!high.Number? || !high.n.Finite?) { Push(); }
      if low.Number? && high.Number? && Greater(low.n, high.n) { Push(); }
    }

    method CheckEnum(options: Value)
      modifies this`errors
      ensures errors >= old(errors)
      ensures errors == old(errors) <==> EnumOk(heap, options)
    {
      if !options.Undefined? {
        if !IsList(heap, options) || |Lookup(heap, options.ref).items| == 0 {
          Push();
        } else {
          var bad := NotUniqueStrings(Lookup(heap, options.ref).items);
          if bad { Push(); }
        }
      }
    }

    method CheckLimit(limit: Value)
      modifies this`errors
      ensures errors >= old(errors)
      ensures errors == old(errors) <==> LimitOk(limit)
    {
      if !limit.Undefined?
         && !(limit.Number? && limit.n.Finite? && IsSafeInteger(limit.n.r) && limit.n.r >= 0.0) {
        Push();
      }
    }

    method CheckRequired(properties: Value, required: Value)
      modifies this`errors
      ensures errors >= old(errors)
      ensures errors == old(errors) <==> RequiredOk(heap, properties, required)
    {
      if !IsList(heap, required) {
        Push();
        return;
      }
      var items := Lookup(heap, required.ref).items;
      var bad := NotUniqueStrings(items);
      if bad {
        Push();
      } else if IsRecord(heap, properties) {
        var fields := Lookup(heap, properties.ref).fields;
        var i := 0;
        while i < |items|
          invariant 0 <= i <= |items|
          invariant errors >= old(errors)
          invariant errors == old(errors) <==> forall j :: 0 <= j < i ==> HasOwn(fields, KeyText(items[j]))
        {
          if !HasOwn(fields, KeyText(items[i])) { Push(); }
          i := i + 1;
        }
      }
    }

    method CheckKeywords(fields: seq<Field>, allowed: set<string>)
      modifies this`errors
      ensures errors >= old(errors)
      ensures errors == old(errors) <==> OnlyKeywords(fields, allowed)
    {
      var i := 0;
      while i < |fields|
        invariant 0 <= i <= |fields|
        invariant errors >= old(errors)
        invariant errors == old(errors) <==> OnlyKeywords(fields[..i], allowed)
      {
        assert fields[..i + 1] == fields[..i] + [fields[i]];
        assert fields[..i + 1][i] == fields[i];
        assert forall j :: 0 <= j < i ==> fields[..i + 1][j] == fields[..i][j];
        if Listed(fields[i]) && fields[i].key.s !in allowed + {"type"} { Push(); }
        i := i + 1;
      }
      assert fields[..i] == fields;
    }

    /** Visit every entry of `properties`, refusing empty and unsafe names. */
    method VisitEntries(entries: seq<(string, Value)>, depth: nat) returns (props: seq<Property>)
      requires depth <= MAX_DEPTH && nodes <= MAX_NODES
      modifies this
      ensures errors >= old(errors)
      ensures nodes > MAX_NODES ==> errors > 0
      ensures errors == 0 ==> SafeNames(entries) && FitsEach(heap, entries, props, depth, old(nodes))
      ensures errors == 0 ==> nodes == old(nodes) + NodesOf(props)
      ensures old(errors) == 0 && errors > 0 ==> !SafeNames(entries) || FitsNoneOf(heap, entries, depth, old(nodes))
      decreases 1 + MAX_DEPTH - depth, 0
    {
      props := [];
      var i := 0;
      while i < |entries|
        invariant 0 <= i <= |entries|
        invariant errors >= old(errors)
        invariant nodes > MAX_NODES ==> errors > 0
        invariant errors == 0 ==> SafeNames(entries[..i]) && FitsEach(heap, entries[..i], props, depth, old(nodes))
        invariant errors == 0 ==> nodes == old(nodes) + NodesOf(props)
        invariant old(errors) == 0 && errors > 0 ==> !SafeNames(entries) || FitsNoneOf(heap, entries, depth, old(nodes))
      {
        var name := entries[i].0;
        if name == "" || name in UNSAFE_KEYS { Push(); }
        ghost var safe := errors == 0;
        var child := Visit(entries[i].1, depth + 1);
        if safe {
          if errors > 0 {
            BlockedByEntry(heap, entries, props, i, depth, old(nodes));
          } else {
            OneMoreEntry(heap, entries, props, i, child, depth, old(nodes));
          }
        }
        props := props + [Property(name, child)];
        i := i + 1;
      }
      assert entries[..i] == entries;
    }

    method Visit(value: Value, depth: nat) returns (s: Schema)
      requires nodes > MAX_NODES ==> errors > 0
      modifies this
      ensures errors >= old(errors)
      ensures nodes > MAX_NODES ==> errors > 0
      ensures errors == 0 ==> Fits(heap, value, s, depth, old(nodes)) && nodes == old(nodes) + Nodes(s)
      ensures old(errors) == 0 && errors > 0 ==> FitsNothing(heap, value, depth, old(nodes))
      decreases if depth > MAX_DEPTH then 0 else 1 + MAX_DEPTH - depth, 2
    {
      s := NullS;
      if depth > MAX_DEPTH {
        Push();
        return;
      }
      nodes := nodes + 1;
      if nodes > MAX_NODES {
        if nodes == MAX_NODES + 1 { Push(); }
        forall t ensures !Fits(heap, value, t, depth, old(nodes)) { NodesArePositive(t); }
        return;
      }
      if !IsRecord(heap, value) || !Get(Lookup(heap, value.ref).fields, "type").Str? {
        Push();
        return;
      }
      var fields := Lookup(heap, value.ref).fields;
      var t := Get(fields, "type").s;
      if t == "array" {
        s := VisitArray(fields, depth);
      } else if t == "object" {
        s := VisitObject(fields, depth);
      } else if KnownType(t) {
        s := VisitLeaf(fields, t);
      } else {
        Push();
      }
      CheckKeywords(fields, Keywords(t));
      if Parse(heap, value).Some? && old(errors) == 0 && errors > 0 {
        if t == "array" { BlockedByItems(heap, value, depth, old(nodes)); }
        if t == "object" { BlockedByEntries(heap, value, Parse(heap, value).value.entries, depth, old(nodes)); }
      }
    }

    /** The cases of the switch that have no nested definition. */
    method VisitLeaf(fields: seq<Field>, t: string) returns (s: Schema)
      requires KnownType(t) && t != "array" && t != "object"
      modifies this`errors
      ensures errors >= old(errors)
      ensures errors == old(errors) <==> ParseAs(heap, fields, t).Some?
      ensures errors == old(errors) ==> ParseAs(heap, fields, t) == Some(Leaf(s)) && Nodes(s) == 1 && Height(s) == 0
    {
      s := NullS;
      var before := errors;
      if t == "null" {
      } else if t == "boolean" {
        s := BooleanS;
      } else if t == "json" {
        s := JsonS;
      } else if t == "number" || t == "integer" {
        CheckBounds(fields);
        if errors == before {
          s := NumberS(t == "integer", Bound(Get(fields, "minimum")), Bound(Get(fields, "maximum")));
        }
      } else {
        CheckEnum(Get(fields, "enum"));
        CheckLimit(Get(fields, "maxLength"));
        if errors == before {
          s := StringS(EnumOf(heap, Get(fields, "enum")), Limit(Get(fields, "maxLength")));
        }
      }
    }

    method VisitArray(fields: seq<Field>, depth: nat) returns (s: Schema)
      requires nodes <= MAX_NODES && depth <= MAX_DEPTH
      modifies this
      ensures errors >= old(errors)
      ensures nodes > MAX_NODES ==> errors > 0
      ensures errors == 0 ==>
        && LimitOk(Get(fields, "maxItems"))
        && ParseAs(heap, fields, "array") == Some(ArrayOf(Get(fields, "items"), Limit(Get(fields, "maxItems"))))
        && s.ArrayS? && s.maxItems == Limit(Get(fields, "maxItems"))
        && Fits(heap, Get(fields, "items"), s.items, depth + 1, old(nodes))
        && nodes == old(nodes) + Nodes(s.items)
      ensures old(errors) == 0 && errors > 0 ==>
        || ParseAs(heap, fields, "array").None?
        || FitsNothing(heap, Get(fields, "items"), depth + 1, old(nodes))
      decreases 1 + MAX_DEPTH - depth, 1
    {
      s := NullS;
      if !HasOwn(fields, "items") {
        Push();
      } else {
        s := Visit(Get(fields, "items"), depth + 1);
      }
      CheckLimit(Get(fields, "maxItems"));
      if errors == 0 { s := ArrayS(s, Limit(Get(fields, "maxItems"))); }
    }

    method VisitObject(fields: seq<Field>, depth: nat) returns (s: Schema)
      requires nodes <= MAX_NODES && depth <= MAX_DEPTH
      modifies this
      ensures errors >= old(errors)
      ensures nodes > MAX_NODES ==> errors > 0
      ensures errors == 0 ==>
        && s.ObjectS? && IsRecord(heap, Get(fields, "properties"))
        && var entries := Entries(Lookup(heap, Get(fields, "properties").ref).fields);
        && ParseAs(heap, fields, "object") == Some(ObjectOf(entries, s.required, s.additional))
        && FitsEach(heap, entries, s.props, depth, old(nodes))
        && nodes == old(nodes) + NodesOf(s.props)
      ensures old(errors) == 0 && errors > 0 ==>
        match ParseAs(heap, fields, "object")
        case Some(ObjectOf(entries, _, _)) => FitsNoneOf(heap, entries, depth, old(nodes))
        case _ => true
      decreases 1 + MAX_DEPTH - depth, 1
    {
      s := NullS;
      var properties, required := Get(fields, "properties"), Get(fields, "required");
      var additional := Get(fields, "additionalProperties");
      var props := [];
      if !IsRecord(heap, properties) {
        Push();
      } else {
        props := VisitEntries(Entries(Lookup(heap, properties.ref).fields), depth);
      }
      CheckRequired(properties, required);
      if !additional.Bool? { Push(); }
      if errors == 0 { s := ObjectS(props, KeyTexts(Lookup(heap, required.ref).items), additional.b); }
    }
  }

  /** `raw` unfolds to the schema tree `s`, and `s` keeps within both budgets. */
  ghost predicate IsSchema(h: Heap, raw: Value, s: Schema) {
    Denotes(h, raw, s) && Height(s) <= MAX_DEPTH && Nodes(s) <= MAX_NODES
  }

  /** `machineSchemaDefinitionErrors`: terminates on every heap, cyclic ones included, and finds no
      error exactly when the definition unfolds to one tree of the closed grammar within both budgets. */
  method Certify(h: Heap, raw: Value) returns (errors: nat, schema: Schema)
    ensures errors == 0 <==> exists s :: IsSchema(h, raw, s)
    ensures errors == 0 ==> IsSchema(h, raw, schema)
  {
    var certifier := new Certifier(h);
    schema := certifier.Visit(raw, 0);
    errors := certifier.errors;
    assert forall t :: Fits(h, raw, t, 0, 0) <==> IsSchema(h, raw, t);
  }
}
