/** The budget for the coordinates of a plugin context (src/commands/registry.ts,
    `validateAuthorityJson`): depth, number of values, safe keys, no cycle. */
module CoordinateCheck {
  import opened JsValues
  import opened MachineSchema

  const MAX_VALUES: nat := 8192

  // ---------------------------------------------------------------- finite trees

  /** What hangs below a value, its repeated parts repeated. */
  datatype Tree = Tree(kids: seq<Tree>)

  function Size(t: Tree): nat {
    1 + SizeOf(t.kids)
  }

  function SizeOf(kids: seq<Tree>): nat {
    if |kids| == 0 then 0 else SizeOf(kids[..|kids| - 1]) + Size(kids[|kids| - 1])
  }

  function Levels(t: Tree): nat {
    LevelsOf(t.kids)
  }

  function LevelsOf(kids: seq<Tree>): nat {
    if |kids| == 0 then 0
    else
      var before, last := LevelsOf(kids[..|kids| - 1]), 1 + Levels(kids[|kids| - 1]);
      if before < last then last else before
  }

  lemma {:induction false} PartIsSmaller(kids: seq<Tree>, k: nat)
    requires k < |kids|
    ensures LevelsOf(kids[..k]) <= LevelsOf(kids) && 1 + Levels(kids[k]) <= LevelsOf(kids)
    ensures SizeOf(kids[..k]) + Size(kids[k]) <= SizeOf(kids)
  {
    var n := |kids| - 1;
    if k == n {
    } else {
      PartIsSmaller(kids[..n], k);
      assert kids[..n][..k] == kids[..k];
    }
  }

  // ---------------------------------------------------------------- values as trees

  /** The elements `forEach` passes. */
  function Present(items: seq<Item>): seq<Value> {
    if |items| == 0 then []
    else
      var before, last := Present(items[..|items| - 1]), items[|items| - 1];
      if last.Filled? then before + [last.slot.v] else before
  }

  function Values(entries: seq<(string, Value)>): seq<Value> {
    seq(|entries|, i requires 0 <= i < |entries| => entries[i].1)
  }

  function Kids(h: Heap, v: Value): seq<Value> {
    if !v.Obj? then []
    else match Lookup(h, v.ref)
      case List(items, _, _) => Present(items)
      case Record(fields) => Values(Entries(fields))
      case Foreign => []
  }

  /** The value is right, what lies below it apart. */
  ghost predicate NodeOk(h: Heap, v: Value) {
    match v
    case Undefined => false
    case Exotic => false
    case Number(n) => n.Finite?
    case Obj(r) =>
      (match Lookup(h, r)
       case List(_, _, _) => true
       case Record(fields) => SafeNames(Entries(fields))
       case Foreign => false)
    case _ => true
  }

  /** `v`, unfolded through the heap, is the finite tree `t`, and right at every node of it. */
  ghost predicate Spreads(h: Heap, v: Value, t: Tree)
    decreases t
  {
    NodeOk(h, v) && SpreadsEach(h, Kids(h, v), t.kids)
  }

  ghost predicate SpreadsEach(h: Heap, kids: seq<Value>, ts: seq<Tree>)
    decreases ts
  {
    |ts| == |kids| && forall i :: 0 <= i < |ts| ==> Spreads(h, kids[i], ts[i])
  }

  /** A value unfolds to at most one tree. */
  lemma {:induction false} SpreadsIsFunctional(h: Heap, v: Value, s: Tree, t: Tree)
    requires Spreads(h, v, s) && Spreads(h, v, t)
    ensures s == t
    decreases s
  {
    forall i | 0 <= i < |s.kids| ensures s.kids[i] == t.kids[i] {
      SpreadsIsFunctional(h, Kids(h, v)[i], s.kids[i], t.kids[i]);
    }
    assert s.kids == t.kids;
  }

  /** `v` unfolds to `t` within what is left of both budgets. */
  ghost predicate Within(h: Heap, v: Value, t: Tree, depth: nat, values: nat) {
    Spreads(h, v, t) && depth + Levels(t) <= MAX_DEPTH && values + Size(t) <= MAX_VALUES
  }

  ghost predicate NothingWithin(h: Heap, v: Value, depth: nat, values: nat) {
    forall t :: !Within(h, v, t, depth, values)
  }

  ghost predicate EachWithin(h: Heap, kids: seq<Value>, ts: seq<Tree>, depth: nat, values: nat) {
    SpreadsEach(h, kids, ts) && depth + LevelsOf(ts) <= MAX_DEPTH && values + SizeOf(ts) <= MAX_VALUES
  }

  ghost predicate NoneWithin(h: Heap, kids: seq<Value>, depth: nat, values: nat) {
    forall ts: seq<Tree> :: !EachWithin(h, kids, ts, depth, values)
  }

  /** What `issuePluginCommandContext` demands of one coordinate. */
  ghost predicate CoordinateOk(h: Heap, v: Value) {
    exists t :: Spreads(h, v, t) && Levels(t) <= MAX_DEPTH && Size(t) <= MAX_VALUES
  }

  lemma {:induction false} OneMoreKid(
    h: Heap, kids: seq<Value>, ts: seq<Tree>, k: nat, t: Tree, depth: nat, values: nat)
    requires k < |kids| && EachWithin(h, kids[..k], ts, depth, values)
    requires Within(h, kids[k], t, depth + 1, values + SizeOf(ts))
    ensures EachWithin(h, kids[..k + 1], ts + [t], depth, values) && SizeOf(ts + [t]) == SizeOf(ts) + Size(t)
  {
    var more := ts + [t];
    assert more[..|more| - 1] == ts;
    forall i | 0 <= i < |more| ensures Spreads(h, kids[..k + 1][i], more[i]) {
      if i < k { assert kids[..k][i] == kids[..k + 1][i] && more[i] == ts[i]; }
    }
  }

  /** If one part does not fit after those before it, the whole does not fit. */
  lemma {:induction false} BlockedByKid(
    h: Heap, kids: seq<Value>, ts: seq<Tree>, k: nat, depth: nat, values: nat)
    requires k < |kids| && EachWithin(h, kids[..k], ts, depth, values)
    requires NothingWithin(h, kids[k], depth + 1, values + SizeOf(ts))
    ensures NoneWithin(h, kids, depth, values)
  {
    forall us: seq<Tree> | EachWithin(h, kids, us, depth, values) ensures false {
      forall i | 0 <= i < k ensures us[i] == ts[i] {
        assert kids[..k][i] == kids[i];
        SpreadsIsFunctional(h, kids[i], us[i], ts[i]);
      }
      assert us[..k] == ts;
      PartIsSmaller(us, k);
      assert Within(h, kids[k], us[k], depth + 1, values + SizeOf(ts));
    }
  }

  /** A scalar is one value; what is too deep, too much or not right has no tree that fits. */
  lemma {:induction false} LeafFits(h: Heap, v: Value, depth: nat, values: nat)
    ensures !v.Obj? && NodeOk(h, v) && depth <= MAX_DEPTH && values < MAX_VALUES ==>
      Within(h, v, Tree([]), depth, values) && Size(Tree([])) == 1
    ensures !NodeOk(h, v) || depth > MAX_DEPTH || values >= MAX_VALUES ==> NothingWithin(h, v, depth, values)
  {
    assert Levels(Tree([])) == 0 && Size(Tree([])) == 1;
  }

  lemma {:induction false} BlockedByKids(h: Heap, v: Value, depth: nat, values: nat)
    requires NoneWithin(h, Kids(h, v), depth, values + 1)
    ensures NothingWithin(h, v, depth, values)
  {
    forall t: Tree | Within(h, v, t, depth, values) ensures false {
      assert EachWithin(h, Kids(h, v), t.kids, depth, values + 1);
    }
  }

  /** An object fits exactly if it is right and its parts fit behind it. */
  lemma {:induction false} ObjectFits(h: Heap, r: Ref, ts: seq<Tree>, depth: nat, values: nat, fine: bool)
    requires fine ==> NodeOk(h, Obj(r)) && EachWithin(h, Kids(h, Obj(r)), ts, depth, values + 1)
    requires !fine ==> !NodeOk(h, Obj(r)) || NoneWithin(h, Kids(h, Obj(r)), depth, values + 1)
    ensures fine ==> Within(h, Obj(r), Tree(ts), depth, values) && Size(Tree(ts)) == 1 + SizeOf(ts)
    ensures !fine ==> NothingWithin(h, Obj(r), depth, values)
  {
    if !fine && NodeOk(h, Obj(r)) { BlockedByKids(h, Obj(r), depth, values); }
  }

  // ---------------------------------------------------------------- being inside

  /** The value reached from `v` along these positions. */
  ghost function At(h: Heap, v: Value, path: seq<nat>): Option<Value> {
    if |path| == 0 then Some(v)
    else
      match At(h, v, path[..|path| - 1])
      case None => None
      case Some(w) => if path[|path| - 1] < |Kids(h, w)| then Some(Kids(h, w)[path[|path| - 1]]) else None
  }

  /** `v` lies below the object. */
  ghost predicate Encloses(h: Heap, r: Ref, v: Value) {
    exists path :: |path| > 0 && At(h, Obj(r), path) == Some(v)
  }

  ghost predicate AllEnclose(h: Heap, inside: set<Ref>, v: Value) {
    forall r :: r in inside ==> Encloses(h, r, v)
  }

  ghost predicate AllEncloseEach(h: Heap, inside: set<Ref>, kids: seq<Value>) {
    forall k :: 0 <= k < |kids| ==> AllEnclose(h, inside, kids[k])
  }

  lemma {:induction false} TreeBelow(h: Heap, v: Value, t: Tree, path: seq<nat>, w: Value) returns (u: Tree)
    requires Spreads(h, v, t) && At(h, v, path) == Some(w)
    ensures Spreads(h, w, u) && Size(u) + |path| <= Size(t)
  {
    if |path| == 0 {
      u := t;
    } else {
      var n := |path| - 1;
      u := TreeBelow(h, v, t, path[..n], At(h, v, path[..n]).value);
      PartIsSmaller(u.kids, path[n]);
      u := u.kids[path[n]];
    }
  }

  /** An object below itself unfolds to no finite tree. */
  lemma {:induction false} CycleHasNoTree(h: Heap, r: Ref, depth: nat, values: nat)
    requires Encloses(h, r, Obj(r))
    ensures NothingWithin(h, Obj(r), depth, values)
  {
    var path :| |path| > 0 && At(h, Obj(r), path) == Some(Obj(r));
    forall t | Within(h, Obj(r), t, depth, values) ensures false {
      var u := TreeBelow(h, Obj(r), t, path, Obj(r));
      SpreadsIsFunctional(h, Obj(r), t, u);
    }
  }

  /** What an object encloses, or is, encloses what lies right below it. */
  lemma {:induction false} KidIsEnclosed(h: Heap, q: Ref, r: Ref, k: nat)
    requires q == r || Encloses(h, q, Obj(r))
    requires k < |Kids(h, Obj(r))|
    ensures Encloses(h, q, Kids(h, Obj(r))[k])
  {
    var path := [];
    if q != r { path :| |path| > 0 && At(h, Obj(q), path) == Some(Obj(r)); }
    assert (path + [k])[..|path|] == path;
    assert At(h, Obj(q), path + [k]) == Some(Kids(h, Obj(r))[k]);
  }

  lemma {:induction false} KidsAreEnclosed(h: Heap, inside: set<Ref>, r: Ref)
    requires AllEnclose(h, inside, Obj(r))
    ensures AllEncloseEach(h, inside + {r}, Kids(h, Obj(r)))
  {
    forall k | 0 <= k < |Kids(h, Obj(r))| ensures AllEnclose(h, inside + {r}, Kids(h, Obj(r))[k]) {
      forall q | q in inside + {r} ensures Encloses(h, q, Kids(h, Obj(r))[k]) { KidIsEnclosed(h, q, r, k); }
    }
  }

  // ---------------------------------------------------------------- the check

  class Check {
    const heap: Heap
    var errors: nat
    var values: nat
    var inside: set<Ref>

    constructor (heap: Heap)
      ensures this.heap == heap && errors == 0 && values == 0 && inside == {}
    {
      this.heap := heap;
      errors, values, inside := 0, 0, {};
    }

    method Push()
      modifies this`errors
      ensures errors == old(errors) + 1
    {
      errors := errors + 1;
    }

    /** `validateAuthorityJson`. */
    method Visit(v: Value, depth: nat) returns (ghost t: Tree)
      requires (values > MAX_VALUES ==> errors > 0) && AllEnclose(heap, inside, v)
      modifies this
      ensures inside == old(inside) && errors >= old(errors) && (values > MAX_VALUES ==> errors > 0)
      ensures errors == 0 ==> Within(heap, v, t, depth, old(values)) && values == old(values) + Size(t)
      ensures old(errors) == 0 && errors > 0 ==> NothingWithin(heap, v, depth, old(values))
      decreases if depth > MAX_DEPTH then 0 else 1 + MAX_DEPTH - depth, 3
    {
      t := Tree([]);
      LeafFits(heap, v, depth, values);
      if depth > MAX_DEPTH {
        Push();
        return;
      }
      values := values + 1;
      if values > MAX_VALUES {
        if values == MAX_VALUES + 1 { Push(); }
        return;
      }
      if v.Null? || v.Bool? || v.Str? { return; }
      if v.Number? {
        if !v.n.Finite? { Push(); }
        return;
      }
      if !v.Obj? {
        Push();
        return;
      }
      if v.ref in inside {
        Push();
        CycleHasNoTree(heap, v.ref, depth, old(values));
        return;
      }
      t := VisitObject(v.ref, depth);
    }

    /** What lies inside an object that has been counted. */
    method VisitObject(r: Ref, depth: nat) returns (ghost t: Tree)
      requires depth <= MAX_DEPTH && 1 <= values <= MAX_VALUES && AllEnclose(heap, inside, Obj(r)) && r !in inside
      modifies this
      ensures inside == old(inside) && errors >= old(errors) && (values > MAX_VALUES ==> errors > 0)
      ensures errors == 0 ==> Within(heap, Obj(r), t, depth, old(values) - 1) && values == old(values) - 1 + Size(t)
      ensures old(errors) == 0 && errors > 0 ==> NothingWithin(heap, Obj(r), depth, old(values) - 1)
      decreases 1 + MAX_DEPTH - depth, 2
    {
      KidsAreEnclosed(heap, inside, r);
      inside := inside + {r};
      ghost var kids := VisitKids(r, depth);
      t := Tree(kids);
      inside := inside - {r};
      if old(errors) == 0 { ObjectFits(heap, r, kids, depth, old(values) - 1, errors == 0); }
    }

    method VisitKids(r: Ref, depth: nat) returns (ghost ts: seq<Tree>)
      requires depth <= MAX_DEPTH && values <= MAX_VALUES && AllEncloseEach(heap, inside, Kids(heap, Obj(r)))
      modifies this
      ensures inside == old(inside) && errors >= old(errors) && (values > MAX_VALUES ==> errors > 0)
      ensures errors == 0 ==> NodeOk(heap, Obj(r)) && EachWithin(heap, Kids(heap, Obj(r)), ts, depth, old(values))
      ensures errors == 0 ==> values == old(values) + SizeOf(ts)
      ensures old(errors) == 0 && errors > 0 ==>
        !NodeOk(heap, Obj(r)) || NoneWithin(heap, Kids(heap, Obj(r)), depth, old(values))
      decreases 1 + MAX_DEPTH - depth, 1
    {
      ts := [];
      match Lookup(heap, r) {
        case List(items, _, _) => ts := VisitItems(items, depth);
        case Record(fields) => ts := VisitEntries(Entries(fields), depth);
        case Foreign => Push();
      }
    }

    method VisitItems(items: seq<Item>, depth: nat) returns (ghost ts: seq<Tree>)
      requires depth <= MAX_DEPTH && values <= MAX_VALUES && AllEncloseEach(heap, inside, Present(items))
      modifies this
      ensures inside == old(inside) && errors >= old(errors) && (values > MAX_VALUES ==> errors > 0)
      ensures errors == 0 ==> EachWithin(heap, Present(items), ts, depth, old(values)) && values == old(values) + SizeOf(ts)
      ensures old(errors) == 0 && errors > 0 ==> NoneWithin(heap, Present(items), depth, old(values))
      decreases 1 + MAX_DEPTH - depth, 0
    {
      ghost var kids := Present(items);
      ts := [];
      var i := 0;
      while i < |items|
        invariant 0 <= i <= |items| && inside == old(inside)
        invariant |Present(items[..i])| <= |kids| && kids[..|Present(items[..i])|] == Present(items[..i])
        invariant errors >= old(errors) && (values > MAX_VALUES ==> errors > 0)
        invariant errors == 0 ==> EachWithin(heap, Present(items[..i]), ts, depth, old(values))
        invariant errors == 0 ==> values == old(values) + SizeOf(ts)
        invariant old(errors) == 0 && errors > 0 ==> NoneWithin(heap, kids, depth, old(values))
      {
        NextPresent(items, i);
        if items[i].Filled? {
          ghost var k, before := |Present(items[..i])|, errors;
          assert kids[k] == items[i].slot.v;
          ghost var t := Visit(items[i].slot.v, depth + 1);
          if before == 0 {
            if errors > 0 {
              BlockedByKid(heap, kids, ts, k, depth, old(values));
            } else {
              OneMoreKid(heap, kids, ts, k, t, depth, old(values));
            }
          }
          ts := ts + [t];
        }
        i := i + 1;
      }
      assert items[..i] == items;
    }

    method VisitEntries(entries: seq<(string, Value)>, depth: nat) returns (ghost ts: seq<Tree>)
      requires depth <= MAX_DEPTH && values <= MAX_VALUES && AllEncloseEach(heap, inside, Values(entries))
      modifies this
      ensures inside == old(inside) && errors >= old(errors) && (values > MAX_VALUES ==> errors > 0)
      ensures errors == 0 ==> SafeNames(entries) && EachWithin(heap, Values(entries), ts, depth, old(values))
      ensures errors == 0 ==> values == old(values) + SizeOf(ts)
      ensures old(errors) == 0 && errors > 0 ==> !SafeNames(entries) || NoneWithin(heap, Values(entries), depth, old(values))
      decreases 1 + MAX_DEPTH - depth, 0
    {
      ghost var kids := Values(entries);
      ts := [];
      var i := 0;
      while i < |entries|
        invariant 0 <= i <= |entries| && inside == old(inside)
        invariant errors >= old(errors) && (values > MAX_VALUES ==> errors > 0)
        invariant errors == 0 ==> forall j :: 0 <= j < i ==> entries[j].0 != "" && entries[j].0 !in UNSAFE_KEYS
        invariant errors == 0 ==> EachWithin(heap, kids[..i], ts, depth, old(values))
        invariant errors == 0 ==> values == old(values) + SizeOf(ts)
        invariant old(errors) == 0 && errors > 0 ==> !SafeNames(entries) || NoneWithin(heap, kids, depth, old(values))
      {
        var key := entries[i].0;
        if key == "" || key in UNSAFE_KEYS { Push(); }
        ghost var before := errors;
        assert kids[i] == entries[i].1;
        ghost var t := Visit(entries[i].1, depth + 1);
        if before == 0 {
          if errors > 0 {
            BlockedByKid(heap, kids, ts, i, depth, old(values));
          } else {
            OneMoreKid(heap, kids, ts, i, t, depth, old(values));
          }
        }
        ts := ts + [t];
        i := i + 1;
      }
      assert kids[..i] == kids;
    }
  }

  /** One element more of `Present`, and it is a part of the whole. */
  lemma {:induction false} NextPresent(items: seq<Item>, i: nat)
    requires i < |items|
    ensures var before, more := Present(items[..i]), Present(items[..i + 1]);
      && more == (if items[i].Filled? then before + [items[i].slot.v] else before)
      && |more| <= |Present(items)| && Present(items)[..|more|] == more
  {
    assert items[..i + 1][..i] == items[..i];
    PresentPrefix(items, i + 1);
  }

  lemma {:induction false} PresentPrefix(items: seq<Item>, n: nat)
    requires n <= |items|
    ensures |Present(items[..n])| <= |Present(items)| && Present(items)[..|Present(items[..n])|] == Present(items[..n])
  {
    if n == |items| {
      assert items[..n] == items;
    } else {
      var front := items[..|items| - 1];
      PresentPrefix(front, n);
      assert front[..n] == items[..n];
    }
  }

  ghost predicate CoordinatesOk(h: Heap, coordinates: map<string, Value>) {
    forall key :: key in coordinates ==> key != "" && key !in UNSAFE_KEYS && CoordinateOk(h, coordinates[key])
  }

  /** The loop over a context's coordinates: no error exactly when all keep the budgets. */
  method CheckCoordinates(h: Heap, coordinates: map<string, Value>) returns (errors: nat)
    ensures errors == 0 <==> CoordinatesOk(h, coordinates)
  {
    errors := 0;
    var keys := coordinates.Keys;
    while keys != {}
      invariant keys <= coordinates.Keys
      invariant errors == 0 <==>
        forall key :: key in coordinates && key !in keys ==>
          key != "" && key !in UNSAFE_KEYS && CoordinateOk(h, coordinates[key])
      decreases keys
    {
      var key :| key in keys;
      if key == "" || key in UNSAFE_KEYS { errors := errors + 1; }
      var check := new Check(h);
      ghost var t := check.Visit(coordinates[key], 0);
      assert forall u :: Within(h, coordinates[key], u, 0, 0) <==>
        Spreads(h, coordinates[key], u) && Levels(u) <= MAX_DEPTH && Size(u) <= MAX_VALUES;
      errors := errors + check.errors;
      keys := keys - {key};
    }
  }
}
