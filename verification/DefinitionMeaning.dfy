/** What a raw result definition accepts (src/commands/registry.ts), told from its own keywords: no schema tree
    and no grammar between the definition as it is written and the value it is held against. */
module DefinitionMeaning {
  import opened JsValues
  import opened MachineSchema
  import opened ResultCheck
  import opened ResultMeaning

  // ---------------------------------------------------------------- rules

  /** A raw definition; anything JSON can be; or nothing, under a key found on Object.prototype. */
  datatype Rule = Defined(raw: Value) | AnyJson | Unchecked

  datatype Place = Place(rule: Rule, v: Value)

  /** What a definition says under a keyword. */
  function Says(h: Heap, raw: Value, keyword: string): Value {
    if IsRecord(h, raw) then Get(Lookup(h, raw.ref).fields, keyword) else Undefined
  }

  predicate IsOf(h: Heap, raw: Value, kind: string) {
    Says(h, raw, "type") == Str(kind)
  }

  predicate AtLeast(n: real, bound: Value) {
    bound.Number? && bound.n.Finite? ==> n >= bound.n.r
  }

  predicate AtMost(n: real, bound: Value) {
    bound.Number? && bound.n.Finite? ==> n <= bound.n.r
  }

  /** One of the listed elements, if there is a list. */
  ghost predicate OneOf(h: Heap, options: Value, v: Value) {
    IsList(h, options) ==>
      exists i :: 0 <= i < |Lookup(h, options.ref).items| && Lookup(h, options.ref).items[i].Filled?
                  && Lookup(h, options.ref).items[i].slot.v == v
  }

  /** The definition listed under a key of `properties`, the first if the key were there twice. */
  function ListedAs(fields: seq<Field>, key: string): Option<Value> {
    if |fields| == 0 then None
    else if Listed(fields[0]) && fields[0].key.s == key then Some(fields[0].slot.v)
    else ListedAs(fields[1..], key)
  }

  function Declared(h: Heap, raw: Value, key: string): Option<Value> {
    var properties := Says(h, raw, "properties");
    if IsRecord(h, properties) then ListedAs(Lookup(h, properties.ref).fields, key) else None
  }

  /** An element of `required` names this key; a hole is read as undefined and then as text. */
  predicate Names(item: Item, key: string) {
    (item == Hole && key == "undefined") || (item.Filled? && item.slot.v == Str(key))
  }

  ghost predicate HasRequired(h: Heap, required: Value, fields: seq<Field>) {
    IsList(h, required) ==>
      forall i, key :: 0 <= i < |Lookup(h, required.ref).items| && Names(Lookup(h, required.ref).items[i], key) ==>
        HasOwn(fields, key)
  }

  ghost predicate HasNoExtra(h: Heap, raw: Value, fields: seq<Field>) {
    forall f :: f in fields && Listed(f) ==> Declared(h, raw, f.key.s).Some? || f.key.s in INHERITED_NAMES
  }

  // ---------------------------------------------------------------- acceptance

  /** The value at this place is right, what lies below it apart. `h` holds the definition, `g` the value. */
  ghost predicate RightHere(h: Heap, g: Heap, p: Place) {
    match p.rule
    case Unchecked => true
    case AnyJson => LocalOk(g, JsonAt(p.v))
    case Defined(raw) =>
      && (IsOf(h, raw, "null") ==> p.v.Null?)
      && (IsOf(h, raw, "boolean") ==> p.v.Bool?)
      && (IsOf(h, raw, "json") ==> LocalOk(g, JsonAt(p.v)))
      && (IsOf(h, raw, "number") || IsOf(h, raw, "integer") ==>
            && p.v.Number? && p.v.n.Finite? && (IsOf(h, raw, "integer") ==> IsSafeInteger(p.v.n.r))
            && AtLeast(p.v.n.r, Says(h, raw, "minimum")) && AtMost(p.v.n.r, Says(h, raw, "maximum")))
      && (IsOf(h, raw, "string") ==>
            && p.v.Str? && OneOf(h, Says(h, raw, "enum"), p.v)
            && AtMost(|p.v.s| as real, Says(h, raw, "maxLength")))
      && (IsOf(h, raw, "array") ==>
            IsList(g, p.v) && AtMost(|Lookup(g, p.v.ref).items| as real, Says(h, raw, "maxItems")))
      && (IsOf(h, raw, "object") ==>
            && IsRecord(g, p.v) && HasRequired(h, Says(h, raw, "required"), Lookup(g, p.v.ref).fields)
            && (Says(h, raw, "additionalProperties") == Bool(false) ==> HasNoExtra(h, raw, Lookup(g, p.v.ref).fields)))
  }

  /** There is something below this place to look at. */
  predicate LooksInside(h: Heap, g: Heap, p: Place) {
    match p.rule
    case Unchecked => false
    case AnyJson => IsList(g, p.v) || IsRecord(g, p.v)
    case Defined(raw) =>
      || (IsOf(h, raw, "json") && (IsList(g, p.v) || IsRecord(g, p.v)))
      || (IsOf(h, raw, "array") && IsList(g, p.v))
      || (IsOf(h, raw, "object") && IsRecord(g, p.v))
  }

  /** The place at the i-th element or own property, and the rule there. */
  function PlaceBelow(h: Heap, g: Heap, p: Place, i: nat): Option<Place> {
    if !LooksInside(h, g, p) then None
    else
      match Lookup(g, p.v.ref)
      case List(items, _, _) =>
        if i >= |items| || items[i].Hole? then None
        else if p.rule.Defined? && IsOf(h, p.rule.raw, "array")
        then Some(Place(Defined(Says(h, p.rule.raw, "items")), items[i].slot.v))
        else if JsonItem(items[i]) then Some(Place(AnyJson, items[i].slot.v)) else None
      case Record(fields) =>
        if i >= |fields| then None
        else if p.rule.Defined? && IsOf(h, p.rule.raw, "object") then
          if !Listed(fields[i]) then None
          else if Declared(h, p.rule.raw, fields[i].key.s).Some?
          then Some(Place(Defined(Declared(h, p.rule.raw, fields[i].key.s).value), fields[i].slot.v))
          else if fields[i].key.s in INHERITED_NAMES then Some(Place(Unchecked, fields[i].slot.v))
          else None
        else if JsonField(fields[i]) then Some(Place(AnyJson, fields[i].slot.v)) else None
  }

  function PlaceAt(h: Heap, g: Heap, p: Place, path: seq<nat>): Option<Place>
    decreases |path|
  {
    if |path| == 0 then Some(p)
    else
      match PlaceBelow(h, g, p, path[0])
      case None => None
      case Some(q) => PlaceAt(h, g, q, path[1..])
  }

  ghost predicate NotAgain(h: Heap, g: Heap, p: Place, path: seq<nat>, q: Place) {
    LooksInside(h, g, q) ==>
      forall k, e :: 0 <= k < |path| && PlaceAt(h, g, p, path[..k]) == Some(e) ==> e.v != q.v
  }

  /** Every place the definition leads to is right, at most 16 steps down, and on no cycle. */
  ghost predicate Admits(h: Heap, g: Heap, p: Place) {
    forall path, q :: PlaceAt(h, g, p, path) == Some(q) ==>
      |path| <= MAX_DEPTH && RightHere(h, g, q) && NotAgain(h, g, p, path, q)
  }

  // ---------------------------------------------------------------- the schema tree says the same

  /** The position of the checker that stands for this place. */
  ghost predicate StandsFor(h: Heap, q: Position, p: Place) {
    && q.v == p.v
    && match p.rule
       case Defined(raw) => q.shape.Of? && Denotes(h, raw, q.shape.s)
       case AnyJson => q.shape == Of(JsonS)
       case Unchecked => q.shape == Inherited
  }

  lemma {:induction false} EntriesFirst(fields: seq<Field>)
    requires |fields| > 0
    ensures Entries(fields) ==
            (if Listed(fields[0]) then [(fields[0].key.s, fields[0].slot.v)] else []) + Entries(fields[1..])
  {
    var n := |fields| - 1;
    if n == 0 {
      assert fields[..0] == [] && fields[1..] == [];
    } else {
      EntriesFirst(fields[..n]);
      assert fields[..n][1..] == fields[1..][..n - 1] && fields[1..][n - 1] == fields[n];
    }
  }

  /** The schema found for a key is that of the definition listed under it. */
  lemma {:induction false} DenotesRest(h: Heap, fields: seq<Field>, props: seq<Property>)
    requires |fields| > 0 && DenotesEach(h, Entries(fields), props)
    ensures Listed(fields[0]) ==>
      |props| > 0 && props[0].name == fields[0].key.s && Denotes(h, fields[0].slot.v, props[0].schema)
    ensures DenotesEach(h, Entries(fields[1..]), if Listed(fields[0]) then props[1..] else props)
  {
    EntriesFirst(fields);
    if Listed(fields[0]) {
      forall i | 0 <= i < |props[1..]|
        ensures props[1..][i].name == Entries(fields[1..])[i].0 && Denotes(h, Entries(fields[1..])[i].1, props[1..][i].schema)
      {
        assert Entries(fields)[i + 1] == Entries(fields[1..])[i];
      }
    }
  }

  lemma {:induction false} FoundIsDeclared(h: Heap, fields: seq<Field>, props: seq<Property>, key: string)
    requires DenotesEach(h, Entries(fields), props)
    ensures FindProperty(props, key).Some? <==> ListedAs(fields, key).Some?
    ensures FindProperty(props, key).Some? ==> Denotes(h, ListedAs(fields, key).value, FindProperty(props, key).value)
    decreases |fields|
  {
    if |fields| == 0 {
    } else {
      DenotesRest(h, fields, props);
      FoundIsDeclared(h, fields[1..], if Listed(fields[0]) then props[1..] else props, key);
    }
  }

  lemma {:induction false} DeclaredAlike(h: Heap, raw: Value, s: Schema, key: string)
    requires Denotes(h, raw, s) && s.ObjectS?
    ensures FindProperty(s.props, key).Some? <==> Declared(h, raw, key).Some?
    ensures FindProperty(s.props, key).Some? ==> Denotes(h, Declared(h, raw, key).value, FindProperty(s.props, key).value)
  {
    FoundIsDeclared(h, Lookup(h, Says(h, raw, "properties").ref).fields, s.props, key);
  }

  /** A definition's type is its schema's. */
  lemma {:induction false} TypeAlike(h: Heap, raw: Value, s: Schema)
    requires Denotes(h, raw, s)
    ensures s.NullS? <==> IsOf(h, raw, "null")
    ensures s.BooleanS? <==> IsOf(h, raw, "boolean")
    ensures s.JsonS? <==> IsOf(h, raw, "json")
    ensures s.NumberS? <==> IsOf(h, raw, "number") || IsOf(h, raw, "integer")
    ensures s.StringS? <==> IsOf(h, raw, "string")
    ensures s.ArrayS? <==> IsOf(h, raw, "array")
    ensures s.ObjectS? <==> IsOf(h, raw, "object")
  {
  }

  lemma {:induction false} NumberAlike(h: Heap, raw: Value, s: Schema, g: Heap, v: Value)
    requires Denotes(h, raw, s) && s.NumberS?
    ensures LocalOk(g, Position(Of(s), v)) <==> RightHere(h, g, Place(Defined(raw), v))
  {
    TypeAlike(h, raw, s);
  }

  lemma {:induction false} TextsAlike(items: seq<Item>, text: string)
    ensures Some(text) in Texts(items) <==> exists i :: 0 <= i < |items| && items[i].Filled? && items[i].slot.v == Str(text)
  {
    if i :| 0 <= i < |items| && items[i].Filled? && items[i].slot.v == Str(text) {
      assert Texts(items)[i] == Some(text);
    }
  }

  lemma {:induction false} StringAlike(h: Heap, raw: Value, s: Schema, g: Heap, v: Value)
    requires Denotes(h, raw, s) && s.StringS?
    ensures LocalOk(g, Position(Of(s), v)) <==> RightHere(h, g, Place(Defined(raw), v))
  {
    TypeAlike(h, raw, s);
    var options := Says(h, raw, "enum");
    if v.Str? && IsList(h, options) { TextsAlike(Lookup(h, options.ref).items, v.s); }
  }

  lemma {:induction false} ArrayAlike(h: Heap, raw: Value, s: Schema, g: Heap, v: Value)
    requires Denotes(h, raw, s) && s.ArrayS?
    ensures LocalOk(g, Position(Of(s), v)) <==> RightHere(h, g, Place(Defined(raw), v))
  {
    TypeAlike(h, raw, s);
  }

  lemma {:induction false} RequiredAlike(h: Heap, required: Value, fields: seq<Field>)
    requires IsList(h, required) && UniqueStrings(Lookup(h, required.ref).items)
    ensures var names := KeyTexts(Lookup(h, required.ref).items);
      HasRequired(h, required, fields) <==> forall k :: 0 <= k < |names| ==> HasOwn(fields, names[k])
  {
    var items := Lookup(h, required.ref).items;
    var names := KeyTexts(items);
    forall k | 0 <= k < |names| ensures Names(items[k], names[k]) {
    }
    forall i, key | 0 <= i < |items| && Names(items[i], key) ensures names[i] == key {
    }
  }

  lemma {:induction false} ExtraAlike(h: Heap, raw: Value, s: Schema, fields: seq<Field>)
    requires Denotes(h, raw, s) && s.ObjectS? && !s.additional
    ensures HasNoExtra(h, raw, fields) <==>
      forall i :: 0 <= i < |fields| ==> (Undeclared(s, fields[i]) ==> fields[i].key.s in INHERITED_NAMES)
  {
    forall f | f in fields && Listed(f) ensures FindProperty(s.props, f.key.s).Some? <==> Declared(h, raw, f.key.s).Some? {
      DeclaredAlike(h, raw, s, f.key.s);
    }
  }

  lemma {:induction false} ObjectAlike(h: Heap, raw: Value, s: Schema, g: Heap, v: Value)
    requires Denotes(h, raw, s) && s.ObjectS?
    ensures LocalOk(g, Position(Of(s), v)) <==> RightHere(h, g, Place(Defined(raw), v))
  {
    TypeAlike(h, raw, s);
    if IsRecord(g, v) {
      RequiredAlike(h, Says(h, raw, "required"), Lookup(g, v.ref).fields);
      if !s.additional { ExtraAlike(h, raw, s, Lookup(g, v.ref).fields); }
    }
  }

  lemma {:induction false} HereAlike(h: Heap, g: Heap, q: Position, p: Place)
    requires StandsFor(h, q, p)
    ensures LocalOk(g, q) <==> RightHere(h, g, p)
    ensures Enters(g, q) <==> LooksInside(h, g, p)
  {
    if p.rule.Defined? {
      var s := q.shape.s;
      TypeAlike(h, p.rule.raw, s);
      if s.NumberS? { NumberAlike(h, p.rule.raw, s, g, p.v); }
      if s.StringS? { StringAlike(h, p.rule.raw, s, g, p.v); }
      if s.ArrayS? { ArrayAlike(h, p.rule.raw, s, g, p.v); }
      if s.ObjectS? { ObjectAlike(h, p.rule.raw, s, g, p.v); }
    }
  }

  lemma {:induction false} BelowAlike(h: Heap, g: Heap, q: Position, p: Place, i: nat)
    requires StandsFor(h, q, p)
    ensures Below(g, q, i).Some? <==> PlaceBelow(h, g, p, i).Some?
    ensures Below(g, q, i).Some? ==> StandsFor(h, Below(g, q, i).value, PlaceBelow(h, g, p, i).value)
  {
    HereAlike(h, g, q, p);
    if p.rule.Defined? {
      TypeAlike(h, p.rule.raw, q.shape.s);
      if q.shape.s.ObjectS? && IsRecord(g, p.v) && i < |Lookup(g, p.v.ref).fields| && Listed(Lookup(g, p.v.ref).fields[i]) {
        DeclaredAlike(h, p.rule.raw, q.shape.s, Lookup(g, p.v.ref).fields[i].key.s);
      }
    }
  }

  lemma {:induction false} PathAlike(h: Heap, g: Heap, q: Position, p: Place, path: seq<nat>)
    requires StandsFor(h, q, p)
    ensures At(g, q, path).Some? <==> PlaceAt(h, g, p, path).Some?
    ensures At(g, q, path).Some? ==> StandsFor(h, At(g, q, path).value, PlaceAt(h, g, p, path).value)
    decreases |path|
  {
    if |path| == 0 {
    } else {
      BelowAlike(h, g, q, p, path[0]);
      if Below(g, q, path[0]).Some? {
        PathAlike(h, g, Below(g, q, path[0]).value, PlaceBelow(h, g, p, path[0]).value, path[1..]);
      }
    }
  }

  lemma {:induction false} AgainAlike(h: Heap, g: Heap, q: Position, p: Place, path: seq<nat>, a: Position, b: Place)
    requires StandsFor(h, q, p) && Reaches(g, q, path, a) && NotAgain(h, g, p, path, b)
    requires StandsFor(h, a, b)
    ensures NoRepeat(g, q, path, a)
  {
    HereAlike(h, g, a, b);
    forall k, e | 0 <= k < |path| && Reaches(g, q, path[..k], e) ensures Enters(g, a) ==> e.v != a.v {
      PathAlike(h, g, q, p, path[..k]);
      assert PlaceAt(h, g, p, path[..k]).value.v == e.v;
    }
  }

  lemma {:induction false} AdmittedIsLegal(h: Heap, g: Heap, q: Position, p: Place)
    requires StandsFor(h, q, p) && Admits(h, g, p)
    ensures Legal(g, q)
  {
    forall path, a | Reaches(g, q, path, a) ensures |path| <= MAX_DEPTH && LocalOk(g, a) && NoRepeat(g, q, path, a) {
      PathAlike(h, g, q, p, path);
      var b := PlaceAt(h, g, p, path).value;
      HereAlike(h, g, a, b);
      AgainAlike(h, g, q, p, path, a, b);
    }
  }

  lemma {:induction false} LegalIsAdmitted(h: Heap, g: Heap, q: Position, p: Place)
    requires StandsFor(h, q, p) && Legal(g, q)
    ensures Admits(h, g, p)
  {
    forall path, b | PlaceAt(h, g, p, path) == Some(b)
      ensures |path| <= MAX_DEPTH && RightHere(h, g, b) && NotAgain(h, g, p, path, b)
    {
      PathAlike(h, g, q, p, path);
      var a := At(g, q, path).value;
      assert Reaches(g, q, path, a);
      HereAlike(h, g, a, b);
      forall k, e | 0 <= k < |path| && PlaceAt(h, g, p, path[..k]) == Some(e) ensures LooksInside(h, g, b) ==> e.v != b.v {
        PathAlike(h, g, q, p, path[..k]);
        assert Reaches(g, q, path[..k], At(g, q, path[..k]).value);
      }
    }
  }

  /** What a definition certifies to accepts exactly what the definition, as it is written, admits. */
  lemma {:induction false} AcceptsAsWritten(h: Heap, raw: Value, s: Schema, g: Heap, v: Value)
    requires Denotes(h, raw, s)
    ensures Legal(g, Position(Of(s), v)) <==> Admits(h, g, Place(Defined(raw), v))
  {
    var q, p := Position(Of(s), v), Place(Defined(raw), v);
    if Admits(h, g, p) { AdmittedIsLegal(h, g, q, p); }
    if Legal(g, q) { LegalIsAdmitted(h, g, q, p); }
  }

  // ---------------------------------------------------------------- what is a definition

  const KINDS: set<string> := {"null", "boolean", "json", "number", "integer", "string", "array", "object"}

  /** Which kinds of definition a keyword may stand in. */
  predicate Belongs(keyword: string, kind: string) {
    if keyword == "type" then true
    else if keyword in {"minimum", "maximum"} then kind in {"number", "integer"}
    else if keyword in {"enum", "maxLength"} then kind == "string"
    else if keyword in {"items", "maxItems"} then kind == "array"
    else keyword in {"properties", "required", "additionalProperties"} && kind == "object"
  }

  predicate AbsentOrFinite(v: Value) {
    v == Undefined || (v.Number? && v.n.Finite?)
  }

  /** A whole number from 0 to 2^53 - 1. */
  predicate AbsentOrCount(v: Value) {
    v == Undefined
    || (v.Number? && v.n.Finite? && 0.0 <= v.n.r <= 9007199254740991.0 && v.n.r.Floor as real == v.n.r)
  }

  /** Strings, none of them twice; one hole may stand among them. */
  ghost predicate DifferentStrings(items: seq<Item>) {
    && (forall i :: 0 <= i < |items| && items[i].Filled? ==> items[i].slot.v.Str?)
    && (forall i, j :: 0 <= i < j < |items| ==> items[i].Filled? || items[j].Filled?)
    && (forall i, j :: 0 <= i < j < |items| && items[i].Filled? && items[j].Filled? ==> items[i].slot.v != items[j].slot.v)
  }

  ghost predicate WellFormedNumber(h: Heap, raw: Value) {
    var low, high := Says(h, raw, "minimum"), Says(h, raw, "maximum");
    && AbsentOrFinite(low) && AbsentOrFinite(high)
    && (low != Undefined && high != Undefined ==> low.n.r <= high.n.r)
  }

  ghost predicate WellFormedString(h: Heap, raw: Value) {
    var options := Says(h, raw, "enum");
    && (options == Undefined ||
          (IsList(h, options) && Lookup(h, options.ref).items != [] && DifferentStrings(Lookup(h, options.ref).items)))
    && AbsentOrCount(Says(h, raw, "maxLength"))
  }

  ghost predicate WellFormedArray(h: Heap, raw: Value)
    requires IsRecord(h, raw)
  {
    && (exists f :: f in Lookup(h, raw.ref).fields && f.key == Name("items"))
    && AbsentOrCount(Says(h, raw, "maxItems"))
  }

  ghost predicate WellFormedObject(h: Heap, raw: Value) {
    var properties, required := Says(h, raw, "properties"), Says(h, raw, "required");
    && IsRecord(h, properties) && IsList(h, required) && Says(h, raw, "additionalProperties").Bool?
    && (forall f :: f in Lookup(h, properties.ref).fields && Listed(f) ==> f.key.s != "" && f.key.s !in UNSAFE_KEYS)
    && DifferentStrings(Lookup(h, required.ref).items)
    && (forall i, key :: 0 <= i < |Lookup(h, required.ref).items| && Names(Lookup(h, required.ref).items[i], key) ==>
          HasOwn(Lookup(h, properties.ref).fields, key))
  }

  /** A definition as it may be written, its nested definitions apart. */
  ghost predicate WellFormed(h: Heap, raw: Value) {
    && IsRecord(h, raw)
    && (exists kind :: kind in KINDS && IsOf(h, raw, kind)
          && forall f :: f in Lookup(h, raw.ref).fields && Listed(f) ==> Belongs(f.key.s, kind))
    && (IsOf(h, raw, "number") || IsOf(h, raw, "integer") ==> WellFormedNumber(h, raw))
    && (IsOf(h, raw, "string") ==> WellFormedString(h, raw))
    && (IsOf(h, raw, "array") ==> WellFormedArray(h, raw))
    && (IsOf(h, raw, "object") ==> WellFormedObject(h, raw))
  }

  lemma {:induction false} CountAlike(v: Value)
    ensures LimitOk(v) <==> AbsentOrCount(v)
  {
  }

  lemma {:induction false} DifferentAlike(items: seq<Item>)
    ensures UniqueStrings(items) <==> DifferentStrings(items)
  {
    if UniqueStrings(items) {
      forall i, j | 0 <= i < j < |items|
        ensures items[i].Filled? || items[j].Filled?
        ensures items[i].Filled? && items[j].Filled? ==> items[i].slot.v != items[j].slot.v
      {
        assert Element(items[i]) != Element(items[j]);
      }
    }
  }

  lemma {:induction false} KeywordsAlike(fields: seq<Field>, kind: string)
    requires kind in KINDS
    ensures OnlyKeywords(fields, Keywords(kind)) <==> forall f :: f in fields && Listed(f) ==> Belongs(f.key.s, kind)
  {
    forall keyword ensures keyword in Keywords(kind) + {"type"} <==> Belongs(keyword, kind) {
    }
  }

  lemma {:induction false} NamesAlike(fields: seq<Field>)
    ensures SafeNames(Entries(fields)) <==>
      forall f :: f in fields && Listed(f) ==> f.key.s != "" && f.key.s !in UNSAFE_KEYS
  {
    if |fields| == 0 {
    } else {
      var n := |fields| - 1;
      NamesAlike(fields[..n]);
      assert forall f :: f in fields <==> f in fields[..n] || f == fields[n] by {
        assert fields == fields[..n] + [fields[n]];
      }
      var before, all := Entries(fields[..n]), Entries(fields);
      if SafeNames(all) {
        forall i | 0 <= i < |before| ensures before[i].0 != "" && before[i].0 !in UNSAFE_KEYS {
          assert all[i] == before[i];
        }
        if Listed(fields[n]) { assert all[|before|].0 == fields[n].key.s; }
      }
    }
  }

  lemma {:induction false} OwnedAlike(items: seq<Item>, fields: seq<Field>)
    requires DifferentStrings(items)
    ensures (forall i :: 0 <= i < |items| ==> HasOwn(fields, KeyText(items[i]))) <==>
            (forall i, key :: 0 <= i < |items| && Names(items[i], key) ==> HasOwn(fields, key))
  {
    forall i | 0 <= i < |items| ensures Names(items[i], KeyText(items[i])) {
    }
    forall i, key | 0 <= i < |items| && Names(items[i], key) ensures KeyText(items[i]) == key {
    }
  }

  lemma {:induction false} ObjectReads(h: Heap, raw: Value)
    requires IsRecord(h, raw) && IsOf(h, raw, "object")
    ensures ParseAs(h, Lookup(h, raw.ref).fields, "object").Some? <==> WellFormedObject(h, raw)
  {
    var properties, required := Says(h, raw, "properties"), Says(h, raw, "required");
    if IsRecord(h, properties) && IsList(h, required) {
      NamesAlike(Lookup(h, properties.ref).fields);
      DifferentAlike(Lookup(h, required.ref).items);
      if DifferentStrings(Lookup(h, required.ref).items) {
        OwnedAlike(Lookup(h, required.ref).items, Lookup(h, properties.ref).fields);
      }
    }
  }

  lemma {:induction false} LeafReads(h: Heap, raw: Value, kind: string)
    requires IsRecord(h, raw) && IsOf(h, raw, kind) && kind in KINDS - {"object"}
    ensures ParseAs(h, Lookup(h, raw.ref).fields, kind).Some? <==>
      && (kind in {"number", "integer"} ==> WellFormedNumber(h, raw))
      && (kind == "string" ==> WellFormedString(h, raw))
      && (kind == "array" ==> WellFormedArray(h, raw))
  {
    var options := Says(h, raw, "enum");
    if IsList(h, options) { DifferentAlike(Lookup(h, options.ref).items); }
    CountAlike(Says(h, raw, "maxLength"));
    CountAlike(Says(h, raw, "maxItems"));
    var fields := Lookup(h, raw.ref).fields;
    assert HasOwn(fields, "items") <==> exists f :: f in fields && f.key == Name("items");
  }

  /** The grammar reads exactly the well-formed definitions. */
  lemma {:induction false} ReadsWellFormed(h: Heap, raw: Value)
    ensures Parse(h, raw).Some? <==> WellFormed(h, raw)
  {
    if IsRecord(h, raw) && exists kind :: kind in KINDS && IsOf(h, raw, kind) {
      var kind :| kind in KINDS && IsOf(h, raw, kind);
      KeywordsAlike(Lookup(h, raw.ref).fields, kind);
      if kind == "object" { ObjectReads(h, raw); } else { LeafReads(h, raw, kind); }
    }
  }

  // ---------------------------------------------------------------- two definitions

  function DataField(key: string, v: Value): Field {
    Field(Name(key), Data(v, true))
  }

  /** An object without properties, open or closed, and a value with one key. */
  function EmptyObject(additional: bool): Heap {
    [Record([DataField("type", Str("object")), DataField("properties", Obj(1)), DataField("required", Obj(2)),
             DataField("additionalProperties", Bool(additional))]),
     Record([]), List([], 0, true)]
  }

  function OneKey(): Heap {
    [Record([DataField("x", Null)])]
  }

  lemma {:induction false} GetFirst(fields: seq<Field>, i: nat, key: string)
    requires i < |fields| && fields[i].key == Name(key) && forall j :: 0 <= j < i ==> fields[j].key != Name(key)
    ensures Get(fields, key) == fields[i].slot.v
  {
    if i == 0 {
    } else {
      GetFirst(fields[1..], i - 1, key);
    }
  }

  lemma {:induction false} EmptyObjectSays(additional: bool)
    ensures var h := EmptyObject(additional);
      && IsOf(h, Obj(0), "object") && Says(h, Obj(0), "properties") == Obj(1) && Says(h, Obj(0), "required") == Obj(2)
      && Says(h, Obj(0), "additionalProperties") == Bool(additional)
  {
    var fields := Lookup(EmptyObject(additional), 0).fields;
    GetFirst(fields, 0, "type");
    GetFirst(fields, 1, "properties");
    GetFirst(fields, 2, "required");
    GetFirst(fields, 3, "additionalProperties");
  }

  lemma {:induction false} EmptyObjectIsSchema(additional: bool)
    ensures IsSchema(EmptyObject(additional), Obj(0), ObjectS([], [], additional))
  {
    EmptyObjectSays(additional);
  }

  /** `{type: "object", properties: {}, required: [], additionalProperties: false}` is certified, and refuses
      `{x: null}`; with `true` it takes it. */
  lemma {:induction false} AdditionalPropertiesDecide(additional: bool, s: Schema)
    ensures IsSchema(EmptyObject(additional), Obj(0), ObjectS([], [], additional))
    ensures IsSchema(EmptyObject(additional), Obj(0), s) ==> (Legal(OneKey(), Position(Of(s), Obj(0))) <==> additional)
  {
    EmptyObjectSays(additional);
    EmptyObjectIsSchema(additional);
    if IsSchema(EmptyObject(additional), Obj(0), s) {
      AcceptsAsWritten(EmptyObject(additional), Obj(0), s, OneKey(), Obj(0));
      OneKeyIsAdmitted(additional);
    }
  }

  /** A place with nothing below it. */
  lemma {:induction false} AdmitsAlone(h: Heap, g: Heap, p: Place)
    requires forall i :: PlaceBelow(h, g, p, i).None?
    ensures Admits(h, g, p) <==> RightHere(h, g, p)
  {
    assert PlaceAt(h, g, p, []) == Some(p);
    forall path: seq<nat>, q | PlaceAt(h, g, p, path) == Some(q) ensures path == [] && q == p {
    }
  }

  lemma {:induction false} OneKeyIsAdmitted(additional: bool)
    ensures Admits(EmptyObject(additional), OneKey(), Place(Defined(Obj(0)), Obj(0))) <==> additional
  {
    OneKeyHere(additional);
    forall i ensures PlaceBelow(EmptyObject(additional), OneKey(), Place(Defined(Obj(0)), Obj(0)), i).None? {
      OneKeyLeadsNowhere(additional, i);
    }
    AdmitsAlone(EmptyObject(additional), OneKey(), Place(Defined(Obj(0)), Obj(0)));
  }

  lemma {:induction false} OneKeyHere(additional: bool)
    ensures RightHere(EmptyObject(additional), OneKey(), Place(Defined(Obj(0)), Obj(0))) <==> additional
  {
    EmptyObjectSays(additional);
    var h, f := EmptyObject(additional), DataField("x", Null);
    assert f in Lookup(OneKey(), 0).fields && Listed(f);
    assert Declared(h, Obj(0), "x").None? && "x" !in INHERITED_NAMES;
  }

  lemma {:induction false} OneKeyLeadsNowhere(additional: bool, i: nat)
    ensures PlaceBelow(EmptyObject(additional), OneKey(), Place(Defined(Obj(0)), Obj(0)), i).None?
  {
    EmptyObjectSays(additional);
  }
}
