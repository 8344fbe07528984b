/** What acceptance by the result checker means, told without its recursion or its ancestor set:
    by the positions a schema reaches in a value, and for the "json" dialect by plain JSON trees. */
module ResultMeaning {
  import opened JsValues
  import opened MachineSchema
  import opened ResultCheck

  // ---------------------------------------------------------------- positions

  /** The position reached from `p` by following element and property numbers. */
  function At(h: Heap, p: Position, path: seq<nat>): Option<Position>
    decreases |path|
  {
    if |path| == 0 then Some(p)
    else
      match Below(h, p, path[0])
      case None => None
      case Some(q) => At(h, q, path[1..])
  }

  ghost predicate Reaches(h: Heap, p: Position, path: seq<nat>, q: Position) {
    At(h, p, path) == Some(q)
  }

  /** The object at the end of `path` is met nowhere earlier on it. */
  ghost predicate NoRepeat(h: Heap, p: Position, path: seq<nat>, q: Position) {
    Enters(h, q) ==>
      forall k, e :: 0 <= k < |path| && Reaches(h, p, path[..k], e) ==> e.v != q.v
  }

  /** Every position reached is at a depth of at most 16, right in itself, and on no cycle. */
  ghost predicate Legal(h: Heap, p: Position) {
    forall path, q :: Reaches(h, p, path, q) ==> |path| <= MAX_DEPTH && LocalOk(h, q) && NoRepeat(h, p, path, q)
  }

  /** `Legal` for a call made at some depth, inside some objects. */
  ghost predicate LegalFrom(h: Heap, p: Position, depth: nat, inside: set<Ref>) {
    forall path, q :: Reaches(h, p, path, q) ==>
      && depth + |path| <= MAX_DEPTH && LocalOk(h, q) && NoRepeat(h, p, path, q)
      && (Enters(h, q) ==> q.v.ref !in inside)
  }

  lemma {:induction false} CleanPath(
    h: Heap, p: Position, depth: nat, inside: set<Ref>, path: seq<nat>, q: Position)
    requires Clean(h, p, depth, inside) && Reaches(h, p, path, q)
    ensures depth + |path| <= MAX_DEPTH && LocalOk(h, q) && NoRepeat(h, p, path, q)
    ensures Enters(h, q) ==> q.v.ref !in inside
    decreases |path|
  {
    if |path| == 0 {
    } else {
      var next := Below(h, p, path[0]).value;
      assert CleanBelow(h, p, path[0], depth, inside);
      CleanPath(h, next, depth + 1, inside + {p.v.ref}, path[1..], q);
      if Enters(h, q) {
        forall k, e | 0 <= k < |path| && Reaches(h, p, path[..k], e) ensures e.v != q.v {
          if k > 0 {
            assert path[..k][1..] == path[1..][..k - 1];
            assert Reaches(h, next, path[1..][..k - 1], e);
          }
        }
      }
    }
  }

  lemma {:induction false} LegalIsClean(h: Heap, p: Position, depth: nat, inside: set<Ref>)
    requires LegalFrom(h, p, depth, inside)
    ensures Clean(h, p, depth, inside)
    decreases if depth > MAX_DEPTH then 0 else 1 + MAX_DEPTH - depth, 1
  {
    assert Reaches(h, p, [], p);
    if Enters(h, p) {
      forall i | 0 <= i < Width(h, p) ensures CleanBelow(h, p, i, depth, inside) {
        LegalIsCleanBelow(h, p, i, depth, inside);
      }
    }
  }

  lemma {:induction false} LegalIsCleanBelow(h: Heap, p: Position, i: nat, depth: nat, inside: set<Ref>)
    requires LegalFrom(h, p, depth, inside) && depth <= MAX_DEPTH && Enters(h, p)
    ensures CleanBelow(h, p, i, depth, inside)
    decreases 1 + MAX_DEPTH - depth, 0
  {
    if Below(h, p, i).Some? {
      LegalBelow(h, p, i, depth, inside);
      LegalIsClean(h, Below(h, p, i).value, depth + 1, inside + {p.v.ref});
    }
  }

  lemma {:induction false} LegalBelow(h: Heap, p: Position, i: nat, depth: nat, inside: set<Ref>)
    requires LegalFrom(h, p, depth, inside) && Below(h, p, i).Some?
    ensures LegalFrom(h, Below(h, p, i).value, depth + 1, inside + {p.v.ref})
  {
    var next := Below(h, p, i).value;
    forall path, q | Reaches(h, next, path, q)
      ensures depth + 1 + |path| <= MAX_DEPTH && LocalOk(h, q) && NoRepeat(h, next, path, q)
      ensures Enters(h, q) ==> q.v.ref !in inside + {p.v.ref}
    {
      var longer := [i] + path;
      assert longer[1..] == path;
      assert Reaches(h, p, longer, q);
      if Enters(h, q) {
        assert longer[..0] == [];
        assert Reaches(h, p, longer[..0], p);
        forall k, e | 0 <= k < |path| && Reaches(h, next, path[..k], e) ensures e.v != q.v {
          assert longer[..k + 1][1..] == path[..k];
          assert Reaches(h, p, longer[..k + 1], e);
        }
      }
    }
  }

  /** The recursive check accepts exactly the legal positions. */
  lemma {:induction false} CleanIsLegal(h: Heap, p: Position)
    ensures Clean(h, p, 0, {}) <==> Legal(h, p)
  {
    if Clean(h, p, 0, {}) {
      forall path, q | Reaches(h, p, path, q)
        ensures |path| <= MAX_DEPTH && LocalOk(h, q) && NoRepeat(h, p, path, q)
      {
        CleanPath(h, p, 0, {}, path, q);
      }
    }
    if Legal(h, p) {
      assert LegalFrom(h, p, 0, {});
      LegalIsClean(h, p, 0, {});
    }
  }

  /** `validateMachineValue(schema, data, "$.data", violations)`: no violation exactly for legal data. */
  method CheckResult(h: Heap, schema: Schema, data: Value) returns (violations: nat)
    ensures violations == 0 <==> Legal(h, Position(Of(schema), data))
  {
    var checker := new Checker(h);
    checker.Check(Of(schema), data, 0);
    violations := checker.errors;
    CleanIsLegal(h, Position(Of(schema), data));
  }

  // ---------------------------------------------------------------- the depth guard

  predicate Typed(p: Position) {
    p.shape.Of? && !p.shape.s.JsonS?
  }

  lemma {:induction false} FoundIsLower(props: seq<Property>, key: string)
    requires FindProperty(props, key).Some?
    ensures 1 + Height(FindProperty(props, key).value) <= TallestOf(props)
  {
    var i := IndexOfProperty(props, key);
    PrefixIsSmaller(props, i);
  }

  lemma {:induction false} IndexOfProperty(props: seq<Property>, key: string) returns (i: nat)
    requires FindProperty(props, key).Some?
    ensures i < |props| && props[i].name == key && FindProperty(props, key) == Some(props[i].schema)
  {
    if props[0].name == key {
      i := 0;
    } else {
      var j := IndexOfProperty(props[1..], key);
      i := j + 1;
    }
  }

  /** A path that ends at a typed position spends one level of the schema per step. */
  lemma {:induction false} TypedPathIsShort(h: Heap, s: Schema, v: Value, path: seq<nat>, q: Position)
    requires Reaches(h, Position(Of(s), v), path, q) && Typed(q)
    ensures |path| + Height(q.shape.s) <= Height(s)
    decreases |path|
  {
    if |path| == 0 {
    } else {
      var next := Below(h, Position(Of(s), v), path[0]).value;
      if !Typed(next) {
        JsonStaysJson(h, next, path[1..], q);
      } else {
        if s.ObjectS? { FoundIsLower(s.props, Lookup(h, v.ref).fields[path[0]].key.s); }
        TypedPathIsShort(h, next.shape.s, next.v, path[1..], q);
      }
    }
  }

  lemma {:induction false} JsonStaysJson(h: Heap, p: Position, path: seq<nat>, q: Position)
    requires Reaches(h, p, path, q) && !Typed(p)
    ensures !Typed(q) && (p.shape.Inherited? ==> |path| == 0)
    decreases |path|
  {
    if |path| == 0 {
    } else {
      JsonStaysJson(h, Below(h, p, path[0]).value, path[1..], q);
    }
  }

  /** On a certified schema the depth guard only ever decides about "json" data and about keys that
      lookup finds on Object.prototype. */
  lemma {:induction false} TypedGuardNeverFires(h: Heap, s: Schema, v: Value)
    requires Height(s) <= MAX_DEPTH
    ensures Legal(h, Position(Of(s), v)) <==>
      forall path, q :: Reaches(h, Position(Of(s), v), path, q) ==>
        (Typed(q) || |path| <= MAX_DEPTH) && LocalOk(h, q) && NoRepeat(h, Position(Of(s), v), path, q)
  {
    forall path, q | Reaches(h, Position(Of(s), v), path, q) && Typed(q) ensures |path| <= MAX_DEPTH {
      TypedPathIsShort(h, s, v, path, q);
    }
  }

  // ---------------------------------------------------------------- closed objects

  /** The schema at this position knows every key of the object, or allows unknown ones. */
  ghost predicate Closed(h: Heap, q: Position) {
    q.shape.Of? && q.shape.s.ObjectS? && IsRecord(h, q.v) ==>
      forall i :: 0 <= i < |Lookup(h, q.v.ref).fields| ==> !Undeclared(q.shape.s, Lookup(h, q.v.ref).fields[i])
  }

  /** What the grammar promises: an object without additional properties has none. Keys found on
      Object.prototype are keys like any other. */
  ghost predicate Promised(h: Heap, p: Position) {
    forall path, q :: Reaches(h, p, path, q) && q.shape.Of? ==>
      |path| <= MAX_DEPTH && LocalOk(h, q) && Closed(h, q) && NoRepeat(h, p, path, q)
  }

  /** A visited object has a listed key that its schema lacks but Object.prototype has. */
  ghost predicate HasInheritedKey(h: Heap, p: Position) {
    exists path, q :: Reaches(h, p, path, q) && q.shape.Inherited?
  }

  lemma {:induction false} InheritedIsBelow(h: Heap, p: Position, path: seq<nat>, q: Position, i: nat)
    requires Reaches(h, p, path, q) && q.shape.Of? && q.shape.s.ObjectS? && IsRecord(h, q.v)
    requires i < |Lookup(h, q.v.ref).fields| && Undeclared(q.shape.s, Lookup(h, q.v.ref).fields[i])
    requires Lookup(h, q.v.ref).fields[i].key.s in INHERITED_NAMES
    ensures HasInheritedKey(h, p)
  {
    var below := Below(h, q, i).value;
    OneStepFurther(h, p, path, q, i);
    assert Reaches(h, p, path + [i], below);
  }

  lemma {:induction false} OneStepFurther(h: Heap, p: Position, path: seq<nat>, q: Position, i: nat)
    requires Reaches(h, p, path, q)
    ensures At(h, p, path + [i]) == Below(h, q, i)
    decreases |path|
  {
    if |path| == 0 {
      assert (path + [i])[1..] == [];
    } else {
      assert (path + [i])[1..] == path[1..] + [i];
      OneStepFurther(h, Below(h, p, path[0]).value, path[1..], q, i);
    }
  }

  /** The check keeps the grammar's promise on every value that has no key spelled like a member of
      Object.prototype where the schema declares none. */
  lemma {:induction false} PromiseKept(h: Heap, p: Position)
    requires !HasInheritedKey(h, p)
    ensures Legal(h, p) <==> Promised(h, p)
  {
    forall path, q | Reaches(h, p, path, q) && LocalOk(h, q) ensures Closed(h, q) {
      if q.shape.Of? && q.shape.s.ObjectS? && IsRecord(h, q.v) {
        forall i | 0 <= i < |Lookup(h, q.v.ref).fields| && Undeclared(q.shape.s, Lookup(h, q.v.ref).fields[i])
          ensures false
        {
          InheritedIsBelow(h, p, path, q, i);
        }
      }
    }
    forall path, q | Reaches(h, p, path, q) ensures q.shape.Of? {
    }
  }

  /** Every declared position is right in itself, at a depth of at most 16 and on no cycle. */
  ghost predicate Base(h: Heap, p: Position) {
    forall path, q :: Reaches(h, p, path, q) && q.shape.Of? ==>
      |path| <= MAX_DEPTH && LocalOk(h, q) && NoRepeat(h, p, path, q)
  }

  /** An inherited key lies below depth 16. */
  ghost predicate HasDeepInheritedKey(h: Heap, p: Position) {
    exists path, q :: Reaches(h, p, path, q) && q.shape.Inherited? && |path| > MAX_DEPTH
  }

  /** An object without additional properties has one. */
  ghost predicate HasOpenObject(h: Heap, p: Position) {
    exists path, q :: Reaches(h, p, path, q) && !Closed(h, q)
  }

  lemma {:induction false} LegalIsBase(h: Heap, p: Position)
    ensures Legal(h, p) <==> Base(h, p) && !HasDeepInheritedKey(h, p)
  {
    if Base(h, p) && !HasDeepInheritedKey(h, p) {
      forall path, q | Reaches(h, p, path, q)
        ensures |path| <= MAX_DEPTH && LocalOk(h, q) && NoRepeat(h, p, path, q)
      {
        if q.shape.Inherited? { assert !(|path| > MAX_DEPTH); }
      }
    }
  }

  lemma {:induction false} PromisedIsBase(h: Heap, p: Position)
    ensures Promised(h, p) <==> Base(h, p) && !HasOpenObject(h, p)
  {
    if Promised(h, p) {
      forall path, q | Reaches(h, p, path, q) ensures Closed(h, q) {
      }
    }
  }

  /** The check lets an undeclared key through exactly when an object that should be closed has one and no
      inherited key lies too deep; it refuses what it should accept exactly when all objects are closed and
      one does. Otherwise it does what the grammar promises. */
  lemma {:induction false} PromiseBroken(h: Heap, p: Position)
    ensures Legal(h, p) && !Promised(h, p) <==> Base(h, p) && HasOpenObject(h, p) && !HasDeepInheritedKey(h, p)
    ensures Promised(h, p) && !Legal(h, p) <==> Base(h, p) && !HasOpenObject(h, p) && HasDeepInheritedKey(h, p)
  {
    LegalIsBase(h, p);
    PromisedIsBase(h, p);
  }

  /** An object with a function under "toString" passes the schema of the empty closed object. */
  lemma ClosedObjectTakesToString()
    ensures var h, p := [Record([Field(Name("toString"), Data(Exotic, true))])], Position(Of(ObjectS([], [], false)), Obj(0));
      Legal(h, p) && !Promised(h, p)
  {
    var h := [Record([Field(Name("toString"), Data(Exotic, true))])];
    var p := Position(Of(ObjectS([], [], false)), Obj(0));
    assert Below(h, p, 0) == Some(Position(Inherited, Exotic));
    assert Clean(h, Position(Inherited, Exotic), 1, {0});
    assert forall i :: 0 <= i < Width(h, p) ==> CleanBelow(h, p, i, 0, {});
    CleanIsLegal(h, p);
    assert Reaches(h, p, [], p);
    assert Undeclared(p.shape.s, Lookup(h, 0).fields[0]);
    assert !Closed(h, p);
  }

  /** `n` objects inside one another under "a", the innermost with a "toString". */
  function Nested(n: nat): Heap {
    seq(n + 1, i requires 0 <= i <= n =>
      Record([if i < n then Field(Name("a"), Data(Obj(i + 1), true)) else Field(Name("toString"), Data(Null, true))]))
  }

  /** Its schema: every object may have more than the declared "a". */
  function NestedSchema(n: nat): (s: Schema)
    ensures s.ObjectS? && s.additional && s.required == [] && Height(s) == n
  {
    if n == 0 then ObjectS([], [], true)
    else
      var props := [Property("a", NestedSchema(n - 1))];
      assert props[..0] == [] && TallestOf(props) == n;
      ObjectS(props, [], true)
  }

  function NestedAt(n: nat, k: nat): Position
    requires k <= n + 1
  {
    if k <= n then Position(Of(NestedSchema(n - k)), Obj(k)) else Position(Inherited, Null)
  }

  lemma {:induction false} NestedStep(n: nat, k: nat, i: nat)
    requires k <= n
    ensures Below(Nested(n), NestedAt(n, k), i) == if i == 0 then Some(NestedAt(n, k + 1)) else None
    ensures LocalOk(Nested(n), NestedAt(n, k)) && Closed(Nested(n), NestedAt(n, k)) && Enters(Nested(n), NestedAt(n, k))
  {
    assert Lookup(Nested(n), k) == Nested(n)[k];
    if k < n {
      assert FindProperty(NestedSchema(n - k).props, "a") == Some(NestedSchema(n - k - 1));
    }
  }

  predicate Zeros(path: seq<nat>) {
    forall i :: 0 <= i < |path| ==> path[i] == 0
  }

  lemma {:induction false} ZerosFront(path: seq<nat>)
    requires |path| > 0
    ensures Zeros(path) <==> path[0] == 0 && Zeros(path[1..])
  {
    if path[0] == 0 && Zeros(path[1..]) {
      forall i | 0 <= i < |path| ensures path[i] == 0 {
        if i > 0 { assert path[1..][i - 1] == path[i]; }
      }
    }
  }

  /** From each position there is one step, to the next. */
  ghost predicate IsChain(h: Heap, chain: seq<Position>) {
    forall k: nat, i: nat :: k < |chain| ==>
      Below(h, chain[k], i) == if k + 1 < |chain| && i == 0 then Some(chain[k + 1]) else None
  }

  lemma {:induction false} ChainPath(h: Heap, chain: seq<Position>, k: nat, path: seq<nat>)
    requires IsChain(h, chain) && k < |chain|
    ensures At(h, chain[k], path) == if k + |path| < |chain| && Zeros(path) then Some(chain[k + |path|]) else None
    decreases |path|
  {
    if |path| == 0 {
    } else {
      var next := Below(h, chain[k], path[0]);
      ZerosFront(path);
      if next.Some? { ChainPath(h, chain, k + 1, path[1..]); }
    }
  }

  function NestedChain(n: nat): seq<Position> {
    seq(n + 2, k requires 0 <= k <= n + 1 => NestedAt(n, k))
  }

  lemma {:induction false} NestedIsChain(n: nat)
    ensures IsChain(Nested(n), NestedChain(n))
  {
    var chain := NestedChain(n);
    forall k: nat, i: nat | k < |chain|
      ensures Below(Nested(n), chain[k], i) == if k + 1 < |chain| && i == 0 then Some(chain[k + 1]) else None
    {
      if k <= n { NestedStep(n, k, i); }
    }
  }

  lemma {:induction false} NestedPath(n: nat, path: seq<nat>)
    ensures At(Nested(n), NestedAt(n, 0), path) ==
            if |path| <= n + 1 && Zeros(path) then Some(NestedAt(n, |path|)) else None
  {
    NestedIsChain(n);
    ChainPath(Nested(n), NestedChain(n), 0, path);
  }

  lemma {:induction false} NestedIsPromised(n: nat)
    requires n <= MAX_DEPTH
    ensures Promised(Nested(n), NestedAt(n, 0))
  {
    var h, p := Nested(n), NestedAt(n, 0);
    forall path, q | Reaches(h, p, path, q) && q.shape.Of?
      ensures |path| <= MAX_DEPTH && LocalOk(h, q) && Closed(h, q) && NoRepeat(h, p, path, q)
    {
      NestedPath(n, path);
      NestedStep(n, |path|, 0);
      NestedNeverRepeats(n, path, q);
    }
  }

  lemma {:induction false} NestedNeverRepeats(n: nat, path: seq<nat>, q: Position)
    requires Reaches(Nested(n), NestedAt(n, 0), path, q) && q.shape.Of?
    ensures NoRepeat(Nested(n), NestedAt(n, 0), path, q)
  {
    NestedPath(n, path);
    forall k, e | 0 <= k < |path| && Reaches(Nested(n), NestedAt(n, 0), path[..k], e) ensures e.v != q.v {
      NestedPath(n, path[..k]);
    }
  }

  lemma {:induction false} NestedIsTooDeep(n: nat)
    requires n >= MAX_DEPTH
    ensures !Legal(Nested(n), NestedAt(n, 0))
  {
    var deep: seq<nat> := seq(n + 1, _ => 0);
    NestedPath(n, deep);
    assert Reaches(Nested(n), NestedAt(n, 0), deep, NestedAt(n, n + 1));
  }

  /** Open objects nested as deep as a schema may be, with a "toString" in the innermost: every object is as
      its certifiable schema wants it, and the check refuses the value for its depth. */
  lemma {:induction false} DeepInheritedKeyIsRefused(n: nat)
    requires n == MAX_DEPTH
    ensures Height(NestedSchema(n)) <= MAX_DEPTH
    ensures var h, p := Nested(n), Position(Of(NestedSchema(n)), Obj(0)); Promised(h, p) && !Legal(h, p)
  {
    NestedIsPromised(n);
    NestedIsTooDeep(n);
  }

  // ---------------------------------------------------------------- finite trees

  /** A finite tree of positions: what hangs below each element or property the check goes to. */
  datatype Tree = Nowhere | Tree(below: seq<Tree>)

  /** `p`, unfolded along its schema, is the finite tree `t`, and right at every node of it. */
  ghost predicate Unfolds(h: Heap, p: Position, t: Tree)
    decreases t
  {
    && t.Tree? && LocalOk(h, p) && |t.below| == Width(h, p)
    && forall i :: 0 <= i < |t.below| ==>
         if t.below[i].Nowhere? then Below(h, p, i).None?
         else Below(h, p, i).Some? && Unfolds(h, Below(h, p, i).value, t.below[i])
  }

  function Depth(t: Tree): nat {
    match t case Nowhere => 0 case Tree(below) => DepthOf(below)
  }

  function DepthOf(below: seq<Tree>): nat {
    if |below| == 0 then 0
    else
      var rest, first := DepthOf(below[1..]), if below[0].Nowhere? then 0 else 1 + Depth(below[0]);
      if rest < first then first else rest
  }

  lemma {:induction false} BranchIsLower(below: seq<Tree>, i: nat)
    requires i < |below| && below[i].Tree?
    ensures 1 + Depth(below[i]) <= DepthOf(below)
  {
    if i == 0 {
    } else {
      BranchIsLower(below[1..], i - 1);
    }
  }

  lemma {:induction false} BranchesBound(below: seq<Tree>, bound: nat)
    requires forall i :: 0 <= i < |below| && below[i].Tree? ==> Depth(below[i]) < bound
    ensures DepthOf(below) <= bound
  {
    if |below| == 0 {
    } else {
      assert forall i :: 0 <= i < |below[1..]| ==> below[1..][i] == below[i + 1];
      BranchesBound(below[1..], bound);
    }
  }

  lemma {:induction false} BelowIsWithin(h: Heap, p: Position, i: nat)
    requires Below(h, p, i).Some?
    ensures i < Width(h, p)
  {
  }

  /** A path along the value is a path along its tree. */
  lemma {:induction false} PathInTree(h: Heap, p: Position, t: Tree, path: seq<nat>, q: Position) returns (u: Tree)
    requires Unfolds(h, p, t) && Reaches(h, p, path, q)
    ensures Unfolds(h, q, u) && |path| + Depth(u) <= Depth(t)
    decreases |path|
  {
    if |path| == 0 {
      u := t;
    } else {
      BelowIsWithin(h, p, path[0]);
      BranchIsLower(t.below, path[0]);
      u := PathInTree(h, Below(h, p, path[0]).value, t.below[path[0]], path[1..], q);
    }
  }

  lemma {:induction false} CleanUnfolds(h: Heap, p: Position, depth: nat, inside: set<Ref>) returns (t: Tree)
    requires Clean(h, p, depth, inside)
    ensures Unfolds(h, p, t) && depth + Depth(t) <= MAX_DEPTH
    decreases if depth > MAX_DEPTH then 0 else 1 + MAX_DEPTH - depth
  {
    var below: seq<Tree> := [];
    var i := 0;
    while i < Width(h, p)
      invariant 0 <= i <= Width(h, p) && |below| == i
      invariant forall k :: 0 <= k < i ==>
        if below[k].Nowhere? then Below(h, p, k).None?
        else Below(h, p, k).Some? && Unfolds(h, Below(h, p, k).value, below[k]) && depth + 1 + Depth(below[k]) <= MAX_DEPTH
    {
      if Below(h, p, i).None? {
        below := below + [Nowhere];
      } else {
        assert CleanBelow(h, p, i, depth, inside);
        var u := CleanUnfolds(h, Below(h, p, i).value, depth + 1, inside + {p.v.ref});
        below := below + [u];
      }
      i := i + 1;
    }
    t := Tree(below);
    BranchesBound(below, MAX_DEPTH - depth);
  }

  /** No object is met again inside itself, as the schema leads there. */
  ghost predicate OnNoCycle(h: Heap, p: Position) {
    forall path, q :: Reaches(h, p, path, q) ==> NoRepeat(h, p, path, q)
  }

  /** The check accepts exactly the values whose unfolding along the schema is a finite tree of depth at
      most 16, right at every node, and that meet no object again inside itself. */
  lemma {:induction false} LegalIsTree(h: Heap, p: Position)
    ensures Legal(h, p) <==> OnNoCycle(h, p) && exists t :: Unfolds(h, p, t) && Depth(t) <= MAX_DEPTH
  {
    if Legal(h, p) {
      CleanIsLegal(h, p);
      var t := CleanUnfolds(h, p, 0, {});
    }
    if exists t :: Unfolds(h, p, t) && Depth(t) <= MAX_DEPTH {
      var t :| Unfolds(h, p, t) && Depth(t) <= MAX_DEPTH;
      forall path, q | Reaches(h, p, path, q) ensures |path| <= MAX_DEPTH && LocalOk(h, q) {
        var u := PathInTree(h, p, t, path, q);
      }
    }
  }

  /** The last condition says something of its own: an object that holds itself under a declared key, where
      the schema looks no further, unfolds to a finite tree and is refused. */
  lemma {:induction false} FiniteTreeOnACycle()
    ensures var h := [Record([Field(Name("self"), Data(Obj(0), true))])];
      var p := Position(Of(ObjectS([Property("self", ObjectS([], [], true))], [], false)), Obj(0));
      (exists t :: Unfolds(h, p, t) && Depth(t) <= MAX_DEPTH) && !OnNoCycle(h, p) && !Legal(h, p)
  {
    var h := [Record([Field(Name("self"), Data(Obj(0), true))])];
    var p := Position(Of(ObjectS([Property("self", ObjectS([], [], true))], [], false)), Obj(0));
    var q := Position(Of(ObjectS([], [], true)), Obj(0));
    assert Below(h, p, 0) == Some(q) && Below(h, q, 0).None?;
    var leaf := Tree([Nowhere]);
    var t := Tree([leaf]);
    assert leaf.below[0].Nowhere? && Unfolds(h, q, leaf);
    assert Unfolds(h, p, t);
    BranchesBound(leaf.below, 0);
    BranchesBound(t.below, 1);
    assert Reaches(h, p, [], p);
    assert At(h, q, []) == Some(q) && [0][1..] == [];
    assert Reaches(h, p, [0], q) && [0][..0] == [];
    assert !NoRepeat(h, p, [0], q);
  }

  // ---------------------------------------------------------------- sharing

  /** The heap has no cycle: numbered so that every object only refers to lower ones. */
  ghost predicate Acyclic(h: Heap) {
    forall p, i :: Below(h, p, i).Some? && Below(h, p, i).value.v.Obj? ==> Below(h, p, i).value.v.ref < p.v.ref
  }

  lemma {:induction false} PathDescends(h: Heap, p: Position, path: seq<nat>, q: Position)
    requires Acyclic(h) && Reaches(h, p, path, q) && |path| > 0 && q.v.Obj?
    ensures p.v.Obj? && q.v.ref < p.v.ref
    decreases |path|
  {
    var next := Below(h, p, path[0]).value;
    assert Below(h, p, path[0]) == Some(next) && At(h, next, path[1..]) == Some(q);
    if |path| <= 1 {
    } else {
      PathDescends(h, next, path[1..], q);
    }
    assert next.v.Obj?;
    assert Below(h, p, path[0]).value.v.ref < p.v.ref;
  }

  lemma {:induction false} Suffix(h: Heap, p: Position, path: seq<nat>, k: nat, e: Position)
    requires k <= |path| && Reaches(h, p, path[..k], e)
    ensures At(h, p, path) == At(h, e, path[k..])
    decreases k
  {
    if k == 0 {
      assert path[k..] == path;
    } else {
      assert path[..k][1..] == path[1..][..k - 1] && path[1..][k - 1..] == path[k..];
      Suffix(h, Below(h, p, path[0]).value, path[1..], k - 1, e);
    }
  }

  /** Without cycles only depth and the positions themselves matter: an object may be met any number
      of times. */
  lemma {:induction false} SharingIsAccepted(h: Heap, p: Position)
    requires Acyclic(h)
    ensures Legal(h, p) <==> forall path, q :: Reaches(h, p, path, q) ==> |path| <= MAX_DEPTH && LocalOk(h, q)
  {
    forall path, q | Reaches(h, p, path, q) ensures NoRepeat(h, p, path, q) {
      if Enters(h, q) {
        forall k, e | 0 <= k < |path| && Reaches(h, p, path[..k], e) ensures e.v != q.v {
          Suffix(h, p, path, k, e);
          PathDescends(h, e, path[k..], q);
        }
      }
    }
  }

  // ---------------------------------------------------------------- the "json" dialect

  /** A JSON document. */
  datatype Json =
    | JNull
    | JBool(b: bool)
    | JNumber(r: real)
    | JString(s: string)
    | JArray(items: seq<Json>)
    | JObject(members: seq<Member>)

  datatype Member = Member(key: string, value: Json)

  function Levels(j: Json): nat {
    match j
    case JArray(items) => LevelsOf(items)
    case JObject(members) => LevelsOfMembers(members)
    case _ => 0
  }

  function LevelsOf(items: seq<Json>): nat {
    if |items| == 0 then 0
    else
      var rest, first := LevelsOf(items[1..]), 1 + Levels(items[0]);
      if rest < first then first else rest
  }

  function LevelsOfMembers(members: seq<Member>): nat {
    if |members| == 0 then 0
    else
      var rest, first := LevelsOfMembers(members[1..]), 1 + Levels(members[0].value);
      if rest < first then first else rest
  }

  lemma {:induction false} ItemIsLower(items: seq<Json>, i: nat)
    requires i < |items|
    ensures 1 + Levels(items[i]) <= LevelsOf(items)
  {
    if i == 0 {
    } else {
      ItemIsLower(items[1..], i - 1);
    }
  }

  lemma {:induction false} MemberIsLower(members: seq<Member>, i: nat)
    requires i < |members|
    ensures 1 + Levels(members[i].value) <= LevelsOfMembers(members)
  {
    if i == 0 {
    } else {
      MemberIsLower(members[1..], i - 1);
    }
  }

  lemma {:induction false} ItemsBound(items: seq<Json>, bound: nat)
    requires forall i :: 0 <= i < |items| ==> Levels(items[i]) < bound
    ensures LevelsOf(items) <= bound
  {
    if |items| == 0 {
    } else {
      ItemsBound(items[1..], bound);
    }
  }

  lemma {:induction false} MembersBound(members: seq<Member>, bound: nat)
    requires forall i :: 0 <= i < |members| ==> Levels(members[i].value) < bound
    ensures LevelsOfMembers(members) <= bound
  {
    if |members| == 0 {
    } else {
      MembersBound(members[1..], bound);
    }
  }

  /** The value, unfolded through the heap, is the document `j`: dense arrays, plain objects with
      visible data properties under safe string keys, finite numbers. */
  ghost predicate Represents(h: Heap, v: Value, j: Json)
    decreases j
  {
    match j
    case JNull => v.Null?
    case JBool(b) => v == Bool(b)
    case JNumber(r) => v == Number(Finite(r))
    case JString(s) => v == Str(s)
    case JArray(docs) =>
      && IsList(h, v) && Lookup(h, v.ref).standardProto && Lookup(h, v.ref).stray == 0
      && var items := Lookup(h, v.ref).items;
      && |docs| == |items|
      && forall i :: 0 <= i < |docs| ==> JsonItem(items[i]) && Represents(h, items[i].slot.v, docs[i])
    case JObject(members) =>
      && IsRecord(h, v)
      && var fields := Lookup(h, v.ref).fields;
      && |members| == |fields|
      && forall i :: 0 <= i < |members| ==>
           && JsonField(fields[i]) && fields[i].key.s == members[i].key
           && Represents(h, fields[i].slot.v, members[i].value)
  }

  function JsonAt(v: Value): Position {
    Position(Of(JsonS), v)
  }

  lemma {:induction false} RepresentsIsFunctional(h: Heap, v: Value, j: Json, k: Json)
    requires Represents(h, v, j) && Represents(h, v, k)
    ensures j == k
    decreases j
  {
    match j
    case JArray(docs) =>
      forall i | 0 <= i < |docs| ensures docs[i] == k.items[i] {
        RepresentsIsFunctional(h, Lookup(h, v.ref).items[i].slot.v, docs[i], k.items[i]);
      }
      assert docs == k.items;
    case JObject(members) =>
      forall i | 0 <= i < |members| ensures members[i] == k.members[i] {
        RepresentsIsFunctional(h, Lookup(h, v.ref).fields[i].slot.v, members[i].value, k.members[i].value);
      }
      assert members == k.members;
    case _ =>
  }

  /** Below a represented value there is only represented values, each a lower document. */
  lemma {:induction false} StepIntoDocument(h: Heap, v: Value, j: Json, i: nat) returns (sub: Json)
    requires Represents(h, v, j) && Below(h, JsonAt(v), i).Some?
    ensures Below(h, JsonAt(v), i).value.shape == Of(JsonS)
    ensures Represents(h, Below(h, JsonAt(v), i).value.v, sub) && Levels(sub) < Levels(j)
  {
    match j
    case JArray(docs) =>
      sub := docs[i];
      ItemIsLower(docs, i);
    case JObject(members) =>
      sub := members[i].value;
      MemberIsLower(members, i);
    case _ =>
      assert false;
  }

  lemma {:induction false} WalkIntoDocument(h: Heap, v: Value, j: Json, path: seq<nat>, q: Position) returns (sub: Json)
    requires Represents(h, v, j) && Reaches(h, JsonAt(v), path, q)
    ensures q.shape == Of(JsonS) && Represents(h, q.v, sub) && Levels(sub) + |path| <= Levels(j)
    decreases |path|
  {
    sub := j;
    if |path| == 0 {
    } else {
      sub := StepIntoDocument(h, v, j, path[0]);
      sub := WalkIntoDocument(h, Below(h, JsonAt(v), path[0]).value.v, sub, path[1..], q);
    }
  }

  lemma {:induction false} DocumentIsLegal(h: Heap, v: Value, j: Json)
    requires Represents(h, v, j) && Levels(j) <= MAX_DEPTH
    ensures Legal(h, JsonAt(v))
  {
    forall path, q | Reaches(h, JsonAt(v), path, q)
      ensures |path| <= MAX_DEPTH && LocalOk(h, q) && NoRepeat(h, JsonAt(v), path, q)
    {
      var sub := WalkIntoDocument(h, v, j, path, q);
      forall k, e | 0 <= k < |path| && Reaches(h, JsonAt(v), path[..k], e) ensures e.v != q.v {
        var above := WalkIntoDocument(h, v, j, path[..k], e);
        Suffix(h, JsonAt(v), path, k, e);
        var again := WalkIntoDocument(h, e.v, above, path[k..], q);
        if e.v == q.v { RepresentsIsFunctional(h, q.v, again, above); }
      }
    }
  }

  lemma {:induction false} CleanIsDocument(h: Heap, v: Value, depth: nat, inside: set<Ref>) returns (j: Json)
    requires Clean(h, JsonAt(v), depth, inside)
    ensures Represents(h, v, j) && depth + Levels(j) <= MAX_DEPTH
    decreases if depth > MAX_DEPTH then 0 else 1 + MAX_DEPTH - depth
  {
    match v
    case Null => j := JNull;
    case Bool(b) => j := JBool(b);
    case Number(n) => j := JNumber(n.r);
    case Str(s) => j := JString(s);
    case Obj(r) =>
      if Lookup(h, r).List? {
        var docs := ItemsOfClean(h, v, depth, inside);
        ItemsBound(docs, MAX_DEPTH - depth);
        j := JArray(docs);
      } else {
        var members := MembersOfClean(h, v, depth, inside);
        MembersBound(members, MAX_DEPTH - depth);
        j := JObject(members);
      }
  }

  lemma {:induction false} ItemsOfClean(h: Heap, v: Value, depth: nat, inside: set<Ref>) returns (docs: seq<Json>)
    requires Clean(h, JsonAt(v), depth, inside) && IsList(h, v)
    ensures var items := Lookup(h, v.ref).items;
      |docs| == |items| && forall i :: 0 <= i < |docs| ==>
        JsonItem(items[i]) && Represents(h, items[i].slot.v, docs[i]) && depth + 1 + Levels(docs[i]) <= MAX_DEPTH
    decreases 1 + MAX_DEPTH - depth, 0
  {
    var items := Lookup(h, v.ref).items;
    docs := [];
    for k := 0 to |items|
      invariant |docs| == k
      invariant forall i :: 0 <= i < k ==>
        JsonItem(items[i]) && Represents(h, items[i].slot.v, docs[i]) && depth + 1 + Levels(docs[i]) <= MAX_DEPTH
    {
      assert CleanBelow(h, JsonAt(v), k, depth, inside);
      var doc := CleanIsDocument(h, items[k].slot.v, depth + 1, inside + {v.ref});
      docs := docs + [doc];
    }
  }

  lemma {:induction false} MembersOfClean(h: Heap, v: Value, depth: nat, inside: set<Ref>) returns (members: seq<Member>)
    requires Clean(h, JsonAt(v), depth, inside) && IsRecord(h, v)
    ensures var fields := Lookup(h, v.ref).fields;
      |members| == |fields| && forall i :: 0 <= i < |members| ==>
        && JsonField(fields[i]) && fields[i].key.s == members[i].key
        && Represents(h, fields[i].slot.v, members[i].value) && depth + 1 + Levels(members[i].value) <= MAX_DEPTH
    decreases 1 + MAX_DEPTH - depth, 0
  {
    var fields := Lookup(h, v.ref).fields;
    members := [];
    for k := 0 to |fields|
      invariant |members| == k
      invariant forall i :: 0 <= i < k ==>
        && JsonField(fields[i]) && fields[i].key.s == members[i].key
        && Represents(h, fields[i].slot.v, members[i].value) && depth + 1 + Levels(members[i].value) <= MAX_DEPTH
    {
      assert CleanBelow(h, JsonAt(v), k, depth, inside);
      var doc := CleanIsDocument(h, fields[k].slot.v, depth + 1, inside + {v.ref});
      members := members + [Member(fields[k].key.s, doc)];
    }
  }

  /** The "json" dialect accepts exactly the values that unfold to a JSON document of at most 16
      levels; that a cycle is refused is a consequence, since no document contains itself. */
  lemma {:induction false} JsonDialectIsJson(h: Heap, v: Value)
    ensures Legal(h, JsonAt(v)) <==> exists j :: Represents(h, v, j) && Levels(j) <= MAX_DEPTH
  {
    if Legal(h, JsonAt(v)) {
      CleanIsLegal(h, JsonAt(v));
      var j := CleanIsDocument(h, v, 0, {});
    }
    if exists j :: Represents(h, v, j) && Levels(j) <= MAX_DEPTH {
      var j :| Represents(h, v, j) && Levels(j) <= MAX_DEPTH;
      DocumentIsLegal(h, v, j);
    }
  }
}
