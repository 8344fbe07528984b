/** Looking upwards through shadow boundaries (src/commands/catalogDom.ts, `containsDeep` and
    `declaredOwnerChain`), against what the DOM Standard calls a shadow-including inclusive ancestor. */
module ComposedTree {
  import opened JsValues

  type Id = nat

  /** `owner` is `dataset.node`, "" when absent; only HTML elements are asked for it. */
  datatype Node =
    | Element(html: bool, owner: string, parent: Option<Id>)
    | ShadowRoot(host: Id)
    | Top                               // a document or a plain fragment

  type Nodes = seq<Node>

  /** Trees, hung on their hosts: numbered so that a parent, or a shadow root's host, comes first. */
  predicate Forest(d: Nodes) {
    forall n :: 0 <= n < |d| ==>
      match d[n]
      case Element(_, _, parent) => parent.Some? ==> parent.value < n
      case ShadowRoot(host) => host < n && d[host].Element?
      case Top => true
  }

  predicate IsElement(d: Nodes, n: Id) {
    n < |d| && d[n].Element?
  }

  function ParentNode(d: Nodes, n: Id): Option<Id>
    requires n < |d|
  {
    if d[n].Element? then d[n].parent else None
  }

  /** `getRootNode()`. */
  function Root(d: Nodes, n: Id): (r: Id)
    requires Forest(d) && n < |d|
    ensures r <= n && !(d[r].Element? && d[r].parent.Some?)
  {
    match ParentNode(d, n) case None => n case Some(p) => Root(d, p)
  }

  /** The host of the shadow tree that holds `n`. */
  function HostOf(d: Nodes, n: Id): (h: Option<Id>)
    requires Forest(d) && n < |d|
    ensures h.Some? ==> h.value < n && IsElement(d, h.value)
  {
    if d[Root(d, n)].ShadowRoot? then Some(d[Root(d, n)].host) else None
  }

  // ---------------------------------------------------------------- what containment means

  /** `a` is an inclusive ancestor of `n` in one tree. */
  predicate IsAncestor(d: Nodes, a: Id, n: Id)
    requires Forest(d) && n < |d|
  {
    n == a || (ParentNode(d, n).Some? && IsAncestor(d, a, ParentNode(d, n).value))
  }

  /** `a` is a shadow-including inclusive ancestor of `n`. */
  predicate Includes(d: Nodes, a: Id, n: Id)
    requires Forest(d) && n < |d|
    decreases n
  {
    IsAncestor(d, a, n) || (HostOf(d, n).Some? && Includes(d, a, HostOf(d, n).value))
  }

  // ---------------------------------------------------------------- the walk upwards

  /** `cur.parentElement ?? cur.getRootNode().host ?? null`. */
  function Up(d: Nodes, n: Id): (up: Option<Id>)
    requires Forest(d) && IsElement(d, n)
    ensures up.Some? ==> up.value < n && IsElement(d, up.value)
  {
    if d[n].parent.Some? && d[d[n].parent.value].Element? then d[n].parent else HostOf(d, n)
  }

  lemma {:induction false} IncludesOneUp(d: Nodes, a: Id, n: Id)
    requires Forest(d) && IsElement(d, n) && IsElement(d, a)
    ensures Includes(d, a, n) <==> n == a || (Up(d, n).Some? && Includes(d, a, Up(d, n).value))
  {
    if d[n].parent.Some? {
      var p := d[n].parent.value;
      assert IsAncestor(d, a, n) <==> n == a || IsAncestor(d, a, p);
      assert Root(d, n) == Root(d, p);
      if !d[p].Element? { assert IsAncestor(d, a, p) <==> p == a; }
    } else {
      assert Root(d, n) == n;
    }
  }

  /** The walk finds the container exactly when it is a shadow-including inclusive ancestor. */
  method ContainsDeep(d: Nodes, container: Option<Id>, node: Option<Id>) returns (inside: bool)
    requires Forest(d)
    requires (container.Some? ==> IsElement(d, container.value)) && (node.Some? ==> IsElement(d, node.value))
    ensures inside <==> container.Some? && node.Some? && Includes(d, container.value, node.value)
  {
    if container.None? || node.None? { return false; }
    var cur := node;
    while cur.Some?
      invariant cur.Some? ==> IsElement(d, cur.value)
      invariant Includes(d, container.value, node.value) <==> cur.Some? && Includes(d, container.value, cur.value)
      decreases if cur.Some? then cur.value + 1 else 0
    {
      IncludesOneUp(d, container.value, cur.value);
      if cur.value == container.value { return true; }
      cur := Up(d, cur.value);
    }
    inside := false;
  }

  /** From `n` to the outermost element, through every host. */
  function Walk(d: Nodes, n: Option<Id>): seq<Id>
    requires Forest(d) && (n.Some? ==> IsElement(d, n.value))
    decreases if n.Some? then n.value + 1 else 0
  {
    if n.None? then [] else [n.value] + Walk(d, Up(d, n.value))
  }

  /** The walk passes exactly the ancestors, each once and the inner before the outer. */
  lemma {:induction false} WalkIsAncestors(d: Nodes, n: Option<Id>)
    requires Forest(d) && (n.Some? ==> IsElement(d, n.value))
    ensures forall a :: a in Walk(d, n) <==> IsElement(d, a) && n.Some? && Includes(d, a, n.value)
    ensures forall i, j :: 0 <= i < j < |Walk(d, n)| ==> Walk(d, n)[j] < Walk(d, n)[i]
    decreases if n.Some? then n.value + 1 else 0
  {
    if n.None? {
    } else {
      var up := Up(d, n.value);
      WalkIsAncestors(d, up);
      forall a ensures a in Walk(d, n) <==> IsElement(d, a) && Includes(d, a, n.value) {
        if IsElement(d, a) { IncludesOneUp(d, a, n.value); }
      }
      AncestorsAreLower(d, up);
      var walk, above := Walk(d, n), Walk(d, up);
      forall i, j | 0 <= i < j < |walk| ensures walk[j] < walk[i] {
        assert walk[j] == above[j - 1] && above[j - 1] in above;
        if i > 0 { assert walk[i] == above[i - 1]; }
      }
    }
  }

  lemma {:induction false} AncestorsAreLower(d: Nodes, n: Option<Id>)
    requires Forest(d) && (n.Some? ==> IsElement(d, n.value))
    ensures forall a :: a in Walk(d, n) ==> n.Some? && a <= n.value
    decreases if n.Some? then n.value + 1 else 0
  {
    if n.None? {
    } else {
      AncestorsAreLower(d, Up(d, n.value));
    }
  }

  // ---------------------------------------------------------------- declared owners

  /** The element declares this owner. */
  predicate Declares(d: Nodes, a: Id, owner: string) {
    IsElement(d, a) && d[a].html && d[a].owner == owner && owner != ""
  }

  /** The owners declared along these elements, each at its first occurrence. */
  function OwnersOf(d: Nodes, walk: seq<Id>): seq<string> {
    if |walk| == 0 then []
    else
      var before, last := OwnersOf(d, walk[..|walk| - 1]), walk[|walk| - 1];
      if IsElement(d, last) && d[last].html && d[last].owner != "" && d[last].owner !in before
      then before + [d[last].owner] else before
  }

  method DeclaredOwnerChain(d: Nodes, el: Option<Id>) returns (owners: seq<string>)
    requires Forest(d) && (el.Some? ==> IsElement(d, el.value))
    ensures owners == OwnersOf(d, Walk(d, el))
  {
    owners := [];
    var seen: set<string> := {};
    var cur := el;
    ghost var passed: seq<Id> := [];
    while cur.Some?
      invariant cur.Some? ==> IsElement(d, cur.value)
      invariant Walk(d, el) == passed + Walk(d, cur)
      invariant owners == OwnersOf(d, passed) && seen == set o | o in owners
      decreases if cur.Some? then cur.value + 1 else 0
    {
      var n := cur.value;
      assert (passed + [n])[..|passed|] == passed;
      assert passed + Walk(d, cur) == passed + [n] + Walk(d, Up(d, n));
      if d[n].html && d[n].owner != "" && d[n].owner !in seen {
        seen := seen + {d[n].owner};
        owners := owners + [d[n].owner];
      }
      passed := passed + [n];
      cur := Up(d, n);
    }
    assert passed + [] == passed;
  }

  predicate DeclaredIn(d: Nodes, walk: seq<Id>, owner: string) {
    exists k :: 0 <= k < |walk| && Declares(d, walk[k], owner)
  }

  lemma {:induction false} OwnersAreDeclared(d: Nodes, walk: seq<Id>)
    ensures forall o :: o in OwnersOf(d, walk) <==> DeclaredIn(d, walk, o)
    ensures forall i, j :: 0 <= i < j < |OwnersOf(d, walk)| ==> OwnersOf(d, walk)[i] != OwnersOf(d, walk)[j]
  {
    if |walk| == 0 {
    } else {
      var n := |walk| - 1;
      var front := walk[..n];
      OwnersAreDeclared(d, front);
      forall o ensures DeclaredIn(d, walk, o) <==> DeclaredIn(d, front, o) || Declares(d, walk[n], o) {
        if DeclaredIn(d, front, o) {
          var k :| 0 <= k < n && Declares(d, front[k], o);
          assert Declares(d, walk[k], o);
        }
        if DeclaredIn(d, walk, o) {
          var k :| 0 <= k < |walk| && Declares(d, walk[k], o);
          if k < n { assert Declares(d, front[k], o); }
        }
      }
    }
  }

  /** The chain names exactly the owners declared by the elements that contain `el`, none twice. */
  lemma {:induction false} ChainNamesTheContainers(d: Nodes, el: Id, owner: string)
    requires Forest(d) && IsElement(d, el)
    ensures owner in OwnersOf(d, Walk(d, Some(el))) <==>
      exists a: Id :: Declares(d, a, owner) && Includes(d, a, el)
  {
    var walk := Walk(d, Some(el));
    WalkIsAncestors(d, Some(el));
    OwnersAreDeclared(d, walk);
    if DeclaredIn(d, walk, owner) {
      var k :| 0 <= k < |walk| && Declares(d, walk[k], owner);
      assert walk[k] in walk;
    }
    if exists a: Id :: Declares(d, a, owner) && Includes(d, a, el) {
      var a: Id :| Declares(d, a, owner) && Includes(d, a, el);
      assert a in walk;
      var k :| 0 <= k < |walk| && walk[k] == a;
    }
  }

  /** Nearer owners come first: what is met up to any point of the walk is listed before the rest. */
  lemma {:induction false} NearerOwnersComeFirst(d: Nodes, walk: seq<Id>, cut: nat)
    requires cut <= |walk|
    ensures OwnersOf(d, walk[..cut]) <= OwnersOf(d, walk)
    decreases |walk| - cut
  {
    if cut < |walk| {
      NearerOwnersComeFirst(d, walk, cut + 1);
      assert walk[..cut + 1][..cut] == walk[..cut];
    } else {
      assert walk[..cut] == walk;
    }
  }
}
