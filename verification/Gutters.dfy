/** Gutters, the seams between neighbouring areas of a split layout: naming one from a pane's edge
    (src/lib/gutterAddress.ts), finding its split (src/commands/catalog.ts), and moving it
    (src/commands/catalog.ts, src/state/splitTree.ts). Shares are real numbers. */
module Gutters {
  import opened JsValues

  datatype Axis = Row | Col

  datatype Tree<L> =
    | Leaf(value: L)
    | Split(id: string, dir: Axis, sizes: seq<real>, children: seq<Tree<L>>)

  /** An edge of a pane: its axis, and whether it is the trailing one (right, bottom). */
  datatype Side = Side(axis: Axis, trailing: bool)

  /** The seam behind child `index` of a split. */
  datatype Gutter = Gutter(splitId: string, index: nat)

  datatype Step<L> = Step(node: Tree<L>, child: nat)

  // ---------------------------------------------------------------- trees

  /** Every split has a child, and a share for each. */
  ghost predicate Proper<L>(t: Tree<L>) {
    t.Split? ==>
      |t.children| > 0 && |t.sizes| == |t.children| && forall i :: 0 <= i < |t.children| ==> Proper(t.children[i])
  }

  ghost function Panes<L>(t: Tree<L>): set<L> {
    match t
    case Leaf(value) => {value}
    case Split(_, _, _, children) => set i, p | 0 <= i < |children| && p in Panes(children[i]) :: p
  }

  ghost function Ids<L>(t: Tree<L>): set<string> {
    match t
    case Leaf(_) => {}
    case Split(id, _, _, children) => {id} + set i, s | 0 <= i < |children| && s in Ids(children[i]) :: s
  }

  /** No pane stands in the tree twice. */
  ghost predicate DistinctPanes<L>(t: Tree<L>) {
    t.Split? ==>
      && (forall i :: 0 <= i < |t.children| ==> DistinctPanes(t.children[i]))
      && (forall i, j :: 0 <= i < j < |t.children| ==> Panes(t.children[i]) !! Panes(t.children[j]))
  }

  /** No split id is used twice. */
  ghost predicate DistinctIds<L>(t: Tree<L>) {
    t.Split? ==>
      && (forall i :: 0 <= i < |t.children| ==> DistinctIds(t.children[i]) && t.id !in Ids(t.children[i]))
      && (forall i, j :: 0 <= i < j < |t.children| ==> Ids(t.children[i]) !! Ids(t.children[j]))
  }

  function Is<L(==)>(pane: L): L -> bool {
    p => p == pane
  }

  function Fan<L>(t: Tree<L>): nat {
    if t.Split? then |t.children| else 0
  }

  /** `pathToLeaf`: from the root to the first leaf that is hit. */
  function PathTo<L>(t: Tree<L>, hit: L -> bool): Option<seq<Step<L>>>
    decreases t, Fan(t) + 1
  {
    match t
    case Leaf(value) => if hit(value) then Some([]) else None
    case Split(_, _, _, _) => PathFrom(t, 0, hit)
  }

  function PathFrom<L>(t: Tree<L>, i: nat, hit: L -> bool): Option<seq<Step<L>>>
    requires t.Split? && i <= |t.children|
    decreases t, |t.children| - i
  {
    if i == |t.children| then None
    else
      match PathTo(t.children[i], hit)
      case Some(below) => Some([Step(t, i)] + below)
      case None => PathFrom(t, i + 1, hit)
  }

  /** `splitNodeById`. */
  function NodeById<L>(t: Tree<L>, id: string): (r: Option<Tree<L>>)
    ensures r.Some? ==> r.value.Split? && r.value.id == id
    decreases t, Fan(t) + 1
  {
    match t
    case Leaf(_) => None
    case Split(own, _, _, _) => if own == id then Some(t) else NodeFrom(t, 0, id)
  }

  function NodeFrom<L>(t: Tree<L>, i: nat, id: string): (r: Option<Tree<L>>)
    requires t.Split? && i <= |t.children|
    ensures r.Some? ==> r.value.Split? && r.value.id == id
    decreases t, |t.children| - i
  {
    if i == |t.children| then None
    else
      match NodeById(t.children[i], id)
      case Some(node) => Some(node)
      case None => NodeFrom(t, i + 1, id)
  }

  /** `firstLeafOnTrailingFace`. */
  ghost function FirstOnFace<L>(t: Tree<L>, axis: Axis): L
    requires Proper(t)
  {
    match t
    case Leaf(value) => value
    case Split(_, dir, _, children) => FirstOnFace(children[if dir == axis then |children| - 1 else 0], axis)
  }

  /** The seam one ancestor offers for an edge. */
  function SeamAt<L>(s: Step<L>, side: Side): Option<Gutter>
    requires s.node.Split?
  {
    if s.node.dir != side.axis then None
    else if side.trailing then
      if s.child + 1 < |s.node.children| then Some(Gutter(s.node.id, s.child)) else None
    else if s.child > 0 then Some(Gutter(s.node.id, s.child - 1)) else None
  }

  ghost predicate PathOk<L>(path: seq<Step<L>>) {
    forall i :: 0 <= i < |path| ==> path[i].node.Split?
  }

  /** The nearest ancestor that offers a seam. */
  ghost function Nearest<L>(path: seq<Step<L>>, side: Side): Option<Gutter>
    requires PathOk(path)
  {
    if |path| == 0 then None
    else
      match Nearest(path[1..], side)
      case Some(g) => Some(g)
      case None => SeamAt(path[0], side)
  }

  lemma {:induction false} PathIsOk<L>(t: Tree<L>, hit: L -> bool)
    ensures PathTo(t, hit).Some? ==> PathOk(PathTo(t, hit).value)
    decreases t, Fan(t) + 1
  {
    if t.Split? { PathFromIsOk(t, 0, hit); }
  }

  lemma {:induction false} PathFromIsOk<L>(t: Tree<L>, i: nat, hit: L -> bool)
    requires t.Split? && i <= |t.children|
    ensures PathFrom(t, i, hit).Some? ==> PathOk(PathFrom(t, i, hit).value)
    decreases t, |t.children| - i
  {
    if i == |t.children| {
    } else {
      PathIsOk(t.children[i], hit);
      PathFromIsOk(t, i + 1, hit);
    }
  }

  /** What `resolveGutter` answers. */
  ghost function Resolved<L>(t: Tree<L>, pane: L, side: Side): Option<Gutter> {
    match PathTo(t, Is(pane))
    case None => None
    case Some(path) =>
      PathIsOk(t, Is(pane));
      Nearest(path, side)
  }

  lemma {:induction false} NearestFromEnd<L>(path: seq<Step<L>>, side: Side, i: nat)
    requires PathOk(path) && i < |path|
    requires forall j :: i < j < |path| ==> SeamAt(path[j], side).None?
    ensures SeamAt(path[i], side).Some? ==> Nearest(path, side) == SeamAt(path[i], side)
    ensures i == 0 ==> Nearest(path, side) == SeamAt(path[0], side)
    decreases |path|
  {
    if i > 0 {
      NearestFromEnd(path[1..], side, i - 1);
    } else if |path| > 1 {
      NearestFromEnd(path[1..], side, 0);
    }
  }

  /** `resolveGutter`: up the path from the pane. */
  method ResolveGutter<L(==,!new)>(t: Tree<L>, pane: L, side: Side) returns (g: Option<Gutter>)
    ensures g == Resolved(t, pane, side)
    ensures DistinctPanes(t) && DistinctIds(t) ==>
      && (g.Some? <==> exists s :: IsBeside(t, pane, side, s))
      && (g.Some? ==> IsNearestSeam(t, pane, side, g.value))
  {
    if DistinctPanes(t) && DistinctIds(t) { ResolvedMeans(t, pane, side); }
    var found := PathTo(t, Is(pane));
    PathIsOk(t, Is(pane));
    if found.None? { return None; }
    var path := found.value;
    var i := |path|;
    while i > 0
      invariant 0 <= i <= |path|
      invariant forall j :: i <= j < |path| ==> SeamAt(path[j], side).None?
    {
      i := i - 1;
      var seam := SeamAt(path[i], side);
      NearestFromEnd(path, side, i);
      if seam.Some? { return seam; }
    }
    if |path| > 0 { NearestFromEnd(path, side, 0); }
    g := None;
  }

  // ---------------------------------------------------------------- naming a gutter

  lemma {:induction false} FaceIsInside<L>(t: Tree<L>, axis: Axis)
    requires Proper(t)
    ensures FirstOnFace(t, axis) in Panes(t)
  {
    if t.Leaf? {
    } else {
      FaceIsInside(t.children[if t.dir == axis then |t.children| - 1 else 0], axis);
    }
  }

  lemma {:induction false} PathMeansInside<L>(t: Tree<L>, pane: L)
    ensures PathTo(t, Is(pane)).Some? <==> pane in Panes(t)
    decreases t, Fan(t) + 1
  {
    if t.Split? { PathFromMeansInside(t, 0, pane); }
  }

  lemma {:induction false} PathFromMeansInside<L>(t: Tree<L>, i: nat, pane: L)
    requires t.Split? && i <= |t.children|
    ensures PathFrom(t, i, Is(pane)).Some? <==> exists j :: i <= j < |t.children| && pane in Panes(t.children[j])
    decreases t, |t.children| - i
  {
    if i == |t.children| {
    } else {
      PathMeansInside(t.children[i], pane);
      PathFromMeansInside(t, i + 1, pane);
    }
  }

  /** The path goes through the one child that holds the pane. */
  lemma {:induction false} PathThrough<L>(t: Tree<L>, i: nat, j: nat, pane: L)
    requires t.Split? && i <= j < |t.children| && DistinctPanes(t) && pane in Panes(t.children[j])
    ensures PathTo(t.children[j], Is(pane)).Some?
    ensures PathFrom(t, i, Is(pane)) == Some([Step(t, j)] + PathTo(t.children[j], Is(pane)).value)
    decreases j - i
  {
    PathMeansInside(t.children[j], pane);
    if i == j {
    } else {
      assert Panes(t.children[i]) !! Panes(t.children[j]);
      PathMeansInside(t.children[i], pane);
      PathThrough(t, i + 1, j, pane);
    }
  }

  /** Resolving inside a split: the child's own seam if it has one, else the split's. */
  lemma {:induction false} ResolvedThrough<L>(t: Tree<L>, j: nat, pane: L, side: Side)
    requires t.Split? && j < |t.children| && DistinctPanes(t) && pane in Panes(t.children[j])
    ensures Resolved(t, pane, side) ==
            match Resolved(t.children[j], pane, side) case Some(g) => Some(g) case None => SeamAt(Step(t, j), side)
  {
    PathThrough(t, 0, j, pane);
    PathIsOk(t, Is(pane));
    PathIsOk(t.children[j], Is(pane));
    var below := PathTo(t.children[j], Is(pane)).value;
    assert ([Step(t, j)] + below)[1..] == below;
  }

  /** The first pane on a trailing face has no seam of that axis inside. */
  lemma {:induction false} FaceHasNoSeam<L>(t: Tree<L>, axis: Axis)
    requires Proper(t) && DistinctPanes(t)
    ensures Resolved(t, FirstOnFace(t, axis), Side(axis, true)).None?
  {
    if t.Leaf? {
    } else {
      var j := if t.dir == axis then |t.children| - 1 else 0;
      FaceHasNoSeam(t.children[j], axis);
      FaceIsInside(t.children[j], axis);
      ResolvedThrough(t, j, FirstOnFace(t, axis), Side(axis, true));
    }
  }

  /** `gutterOwnerOf`: the pane that names the seam, by its right or bottom edge. */
  ghost function OwnerOf<L>(t: Tree<L>, g: Gutter): Option<(L, Side)>
    requires Proper(t)
  {
    NodeIsProper(t, g.splitId);
    match NodeById(t, g.splitId)
    case None => None
    case Some(node) =>
      if g.index + 1 >= |node.children| then None
      else Some((FirstOnFace(node.children[g.index], node.dir), Side(node.dir, true)))
  }

  lemma {:induction false} NodeIsProper<L>(t: Tree<L>, id: string)
    requires Proper(t)
    ensures NodeById(t, id).Some? ==> Proper(NodeById(t, id).value)
    decreases t, Fan(t) + 1
  {
    if t.Split? { NodeFromIsProper(t, 0, id); }
  }

  lemma {:induction false} NodeFromIsProper<L>(t: Tree<L>, i: nat, id: string)
    requires t.Split? && i <= |t.children| && Proper(t)
    ensures NodeFrom(t, i, id).Some? ==> Proper(NodeFrom(t, i, id).value)
    decreases t, |t.children| - i
  {
    if i == |t.children| {
    } else {
      NodeIsProper(t.children[i], id);
      NodeFromIsProper(t, i + 1, id);
    }
  }

  lemma {:induction false} NodeFromChild<L>(t: Tree<L>, i: nat, id: string) returns (j: nat)
    requires t.Split? && i <= |t.children| && NodeFrom(t, i, id).Some?
    ensures i <= j < |t.children| && NodeById(t.children[j], id) == NodeFrom(t, i, id)
    decreases |t.children| - i
  {
    if NodeById(t.children[i], id).Some? { j := i; } else { j := NodeFromChild(t, i + 1, id); }
  }

  /** Every seam has an owner, and the owner's edge resolves to that very seam. */
  lemma {:induction false} OwnerResolves<L>(t: Tree<L>, g: Gutter)
    requires Proper(t) && DistinctPanes(t)
    requires NodeById(t, g.splitId).Some? && g.index + 1 < |NodeById(t, g.splitId).value.children|
    ensures OwnerOf(t, g).Some?
    ensures OwnerOf(t, g).value.0 in Panes(t)
    ensures Resolved(t, OwnerOf(t, g).value.0, OwnerOf(t, g).value.1) == Some(g)
  {
    NodeIsProper(t, g.splitId);
    var (pane, side) := OwnerOf(t, g).value;
    if t.id == g.splitId {
      var child := t.children[g.index];
      FaceIsInside(child, t.dir);
      FaceHasNoSeam(child, t.dir);
      ResolvedThrough(t, g.index, pane, side);
    } else {
      var j := NodeFromChild(t, 0, g.splitId);
      OwnerResolves(t.children[j], g);
      ResolvedThrough(t, j, pane, side);
    }
  }

  lemma {:induction false} IdsOfNode<L>(t: Tree<L>, id: string)
    ensures NodeById(t, id).Some? <==> id in Ids(t)
    decreases t, Fan(t) + 1
  {
    if t.Split? { IdsOfNodeFrom(t, 0, id); }
  }

  lemma {:induction false} IdsOfNodeFrom<L>(t: Tree<L>, i: nat, id: string)
    requires t.Split? && i <= |t.children|
    ensures NodeFrom(t, i, id).Some? <==> exists j :: i <= j < |t.children| && id in Ids(t.children[j])
    decreases t, |t.children| - i
  {
    if i == |t.children| {
    } else {
      IdsOfNode(t.children[i], id);
      IdsOfNodeFrom(t, i + 1, id);
    }
  }

  /** With distinct ids a node inside child `j` is found there. */
  lemma {:induction false} NodeThrough<L>(t: Tree<L>, i: nat, j: nat, id: string)
    requires t.Split? && i <= j < |t.children| && DistinctIds(t) && id in Ids(t.children[j])
    ensures NodeFrom(t, i, id) == NodeById(t.children[j], id) && NodeById(t.children[j], id).Some? && t.id != id
    decreases j - i
  {
    IdsOfNode(t.children[j], id);
    if i == j {
    } else {
      assert Ids(t.children[i]) !! Ids(t.children[j]);
      IdsOfNode(t.children[i], id);
      NodeThrough(t, i + 1, j, id);
    }
  }

  /** What an edge resolves to is a seam of a split of that axis in the tree. */
  lemma {:induction false} ResolvedIsSeam<L>(t: Tree<L>, pane: L, side: Side)
    requires Proper(t) && DistinctPanes(t) && DistinctIds(t) && pane in Panes(t) && Resolved(t, pane, side).Some?
    ensures var g := Resolved(t, pane, side).value;
      && g.splitId in Ids(t) && NodeById(t, g.splitId).Some?
      && NodeById(t, g.splitId).value.dir == side.axis && g.index + 1 < |NodeById(t, g.splitId).value.children|
  {
    if t.Leaf? {
    } else {
      var j :| 0 <= j < |t.children| && pane in Panes(t.children[j]);
      ResolvedThrough(t, j, pane, side);
      if Resolved(t.children[j], pane, side).Some? {
        ResolvedIsSeam(t.children[j], pane, side);
        NodeThrough(t, 0, j, Resolved(t, pane, side).value.splitId);
      }
    }
  }

  /** `canonicalGutter`. */
  ghost function Canonical<L>(t: Tree<L>, pane: L, side: Side): Option<(L, Side)>
    requires Proper(t)
  {
    match Resolved(t, pane, side)
    case None => None
    case Some(g) => OwnerOf(t, g)
  }

  /** Every edge that names a seam, left and top included, has one canonical form: a right or bottom edge
      that names the same seam and is its own canonical form. */
  lemma {:induction false} CanonicalNamesTheSame<L>(t: Tree<L>, pane: L, side: Side)
    requires Proper(t) && DistinctPanes(t) && DistinctIds(t) && pane in Panes(t) && Resolved(t, pane, side).Some?
    ensures Canonical(t, pane, side).Some?
    ensures var (owner, edge) := Canonical(t, pane, side).value;
      && edge == Side(side.axis, true)
      && Resolved(t, owner, edge) == Resolved(t, pane, side)
      && Canonical(t, owner, edge) == Some((owner, edge))
  {
    ResolvedIsSeam(t, pane, side);
    OwnerResolves(t, Resolved(t, pane, side).value);
  }

  // ---------------------------------------------------------------- the seam beside a pane

  /** The child of its split, on the asking side of a seam. */
  function AskingChild(g: Gutter, side: Side): nat {
    if side.trailing then g.index else g.index + 1
  }

  /** A seam of that axis with the pane in the area directly before it, for a right or bottom edge, or
      directly after it. */
  ghost predicate IsBeside<L>(t: Tree<L>, pane: L, side: Side, g: Gutter) {
    && NodeById(t, g.splitId).Some?
    && var node := NodeById(t, g.splitId).value;
    && node.dir == side.axis && g.index + 1 < |node.children|
    && pane in Panes(node.children[AskingChild(g, side)])
  }

  /** The nearest one: between it and the pane there is no other. */
  ghost predicate IsNearestSeam<L>(t: Tree<L>, pane: L, side: Side, g: Gutter) {
    && IsBeside(t, pane, side, g)
    && forall h :: !IsBeside(NodeById(t, g.splitId).value.children[AskingChild(g, side)], pane, side, h)
  }

  lemma {:induction false} NodeIsInside<L>(t: Tree<L>, id: string)
    requires NodeById(t, id).Some?
    ensures Panes(NodeById(t, id).value) <= Panes(t)
  {
    if t.id == id {
    } else {
      var j := NodeFromChild(t, 0, id);
      NodeIsInside(t.children[j], id);
    }
  }

  lemma {:induction false} BesideIsInside<L>(t: Tree<L>, pane: L, side: Side, g: Gutter)
    requires IsBeside(t, pane, side, g)
    ensures pane in Panes(t)
  {
    NodeIsInside(t, g.splitId);
  }

  /** The seams beside a pane are its own split's and those inside the child that holds it. */
  lemma {:induction false} BesideThrough<L>(t: Tree<L>, j: nat, pane: L, side: Side, g: Gutter)
    requires t.Split? && j < |t.children| && pane in Panes(t.children[j]) && DistinctPanes(t) && DistinctIds(t)
    ensures IsBeside(t, pane, side, g) <==>
      || (g.splitId == t.id && t.dir == side.axis && g.index + 1 < |t.children| && AskingChild(g, side) == j)
      || IsBeside(t.children[j], pane, side, g)
    ensures IsBeside(t.children[j], pane, side, g) ==>
      g.splitId != t.id && NodeById(t, g.splitId) == NodeById(t.children[j], g.splitId)
  {
    if IsBeside(t.children[j], pane, side, g) {
      IdsOfNode(t.children[j], g.splitId);
      NodeThrough(t, 0, j, g.splitId);
    }
    if IsBeside(t, pane, side, g) {
      if g.splitId == t.id {
        OnlyHolder(t, j, AskingChild(g, side), pane);
      } else {
        var k := NodeFromChild(t, 0, g.splitId);
        BesideIsInside(t.children[k], pane, side, g);
        OnlyHolder(t, j, k, pane);
      }
    }
  }

  lemma OnlyHolder<L>(t: Tree<L>, i: nat, j: nat, pane: L)
    requires t.Split? && i < |t.children| && j < |t.children| && DistinctPanes(t)
    requires pane in Panes(t.children[i]) && pane in Panes(t.children[j])
    ensures i == j
  {
  }

  /** An edge resolves to the nearest seam beside its pane, and to nothing exactly when there is none. */
  lemma {:induction false} ResolvesToNearest<L>(t: Tree<L>, pane: L, side: Side, g: Gutter)
    requires DistinctPanes(t) && DistinctIds(t) && pane in Panes(t)
    ensures Resolved(t, pane, side) == Some(g) <==> IsNearestSeam(t, pane, side, g)
    ensures IsBeside(t, pane, side, g) ==> Resolved(t, pane, side).Some?
  {
    if t.Leaf? {
    } else {
      var j :| 0 <= j < |t.children| && pane in Panes(t.children[j]);
      var child := t.children[j];
      ResolvedThrough(t, j, pane, side);
      BesideThrough(t, j, pane, side, g);
      forall h ensures Resolved(child, pane, side) == Some(h) <==> IsNearestSeam(child, pane, side, h)
               ensures IsBeside(child, pane, side, h) ==> Resolved(child, pane, side).Some?
      {
        ResolvesToNearest(child, pane, side, h);
      }
      if g.splitId == t.id { assert !IsBeside(child, pane, side, g); }
    }
  }

  lemma {:induction false} ResolvedMeans<L(!new)>(t: Tree<L>, pane: L, side: Side)
    requires DistinctPanes(t) && DistinctIds(t)
    ensures Resolved(t, pane, side).Some? <==> exists g :: IsBeside(t, pane, side, g)
    ensures Resolved(t, pane, side).Some? ==> IsNearestSeam(t, pane, side, Resolved(t, pane, side).value)
  {
    PathMeansInside(t, pane);
    if Resolved(t, pane, side).Some? { ResolvesToNearest(t, pane, side, Resolved(t, pane, side).value); }
    forall g | IsBeside(t, pane, side, g) ensures Resolved(t, pane, side).Some? {
      BesideIsInside(t, pane, side, g);
      ResolvesToNearest(t, pane, side, g);
    }
  }

  // ---------------------------------------------------------------- sizes of a split

  /** `splitSizesOf`. */
  function SizesOf<L>(t: Tree<L>, id: string): Option<seq<real>>
    decreases t, Fan(t) + 1
  {
    match t
    case Leaf(_) => None
    case Split(own, _, sizes, _) => if own == id then Some(sizes) else SizesFrom(t, 0, id)
  }

  function SizesFrom<L>(t: Tree<L>, i: nat, id: string): Option<seq<real>>
    requires t.Split? && i <= |t.children|
    decreases t, |t.children| - i
  {
    if i == |t.children| then None
    else
      match SizesOf(t.children[i], id)
      case Some(sizes) => Some(sizes)
      case None => SizesFrom(t, i + 1, id)
  }

  /** The sizes found are those of the split with that id, the one whose seam is being moved. */
  lemma {:induction false} SizesAreTheNodes<L>(t: Tree<L>, id: string)
    ensures SizesOf(t, id) == match NodeById(t, id) case None => None case Some(node) => Some(node.sizes)
    decreases t, Fan(t) + 1
  {
    if t.Split? { SizesFromAreTheNodes(t, 0, id); }
  }

  lemma {:induction false} SizesFromAreTheNodes<L>(t: Tree<L>, i: nat, id: string)
    requires t.Split? && i <= |t.children|
    ensures SizesFrom(t, i, id) == match NodeFrom(t, i, id) case None => None case Some(node) => Some(node.sizes)
    decreases t, |t.children| - i
  {
    if i == |t.children| {
    } else {
      SizesAreTheNodes(t.children[i], id);
      SizesFromAreTheNodes(t, i + 1, id);
    }
  }

  /** `resizeSplitTree`. */
  function WithSizes<L>(t: Tree<L>, id: string, sizes: seq<real>): Tree<L> {
    match t
    case Leaf(_) => t
    case Split(own, _, _, children) =>
      if own == id && |sizes| == |children| then t.(sizes := sizes)
      else t.(children := seq(|children|, i requires 0 <= i < |children| => WithSizes(children[i], id, sizes)))
  }

  lemma {:induction false} IdsKept<L>(t: Tree<L>, id: string, sizes: seq<real>)
    ensures Ids(WithSizes(t, id, sizes)) == Ids(t)
  {
    if t.Leaf? || (t.id == id && |sizes| == |t.children|) {
    } else {
      forall i | 0 <= i < |t.children| ensures Ids(WithSizes(t, id, sizes).children[i]) == Ids(t.children[i]) {
        IdsKept(t.children[i], id, sizes);
      }
    }
  }

  lemma {:induction false} SizesMeanIds<L>(t: Tree<L>, id: string)
    ensures SizesOf(t, id).Some? <==> id in Ids(t)
    decreases t, Fan(t) + 1
  {
    if t.Split? { SizesFromMeanIds(t, 0, id); }
  }

  lemma {:induction false} SizesFromMeanIds<L>(t: Tree<L>, i: nat, id: string)
    requires t.Split? && i <= |t.children|
    ensures SizesFrom(t, i, id).Some? <==> exists j :: i <= j < |t.children| && id in Ids(t.children[j])
    decreases t, |t.children| - i
  {
    if i == |t.children| {
    } else {
      SizesMeanIds(t.children[i], id);
      SizesFromMeanIds(t, i + 1, id);
    }
  }

  lemma {:induction false} AbsentIsUnchanged<L>(t: Tree<L>, id: string, sizes: seq<real>)
    requires id !in Ids(t)
    ensures WithSizes(t, id, sizes) == t
  {
    if t.Leaf? {
    } else {
      forall i | 0 <= i < |t.children| ensures WithSizes(t.children[i], id, sizes) == t.children[i] {
        AbsentIsUnchanged(t.children[i], id, sizes);
      }
      assert WithSizes(t, id, sizes).children == t.children;
    }
  }

  lemma {:induction false} SizesThrough<L>(t: Tree<L>, i: nat, j: nat, id: string)
    requires t.Split? && i <= j < |t.children| && id in Ids(t.children[j])
    requires forall k :: i <= k < j ==> id !in Ids(t.children[k])
    ensures SizesFrom(t, i, id) == SizesOf(t.children[j], id)
    decreases j - i
  {
    SizesMeanIds(t.children[i], id);
    if i == j {
    } else {
      SizesThrough(t, i + 1, j, id);
    }
  }

  lemma {:induction false} SizesNowhere<L>(t: Tree<L>, i: nat, id: string)
    requires t.Split? && i <= |t.children| && forall k :: i <= k < |t.children| ==> id !in Ids(t.children[k])
    ensures SizesFrom(t, i, id).None?
    decreases |t.children| - i
  {
    if i == |t.children| {
    } else {
      SizesMeanIds(t.children[i], id);
      SizesNowhere(t, i + 1, id);
    }
  }

  /** The child that holds an id, and it alone, answers for it. */
  lemma {:induction false} SizesByChild<L>(t: Tree<L>, u: Tree<L>, id: string)
    requires t.Split? && u.Split? && |t.children| == |u.children| && t.id != id && u.id != id
    requires forall k :: 0 <= k < |t.children| ==> Ids(u.children[k]) == Ids(t.children[k])
    requires forall k :: 0 <= k < |t.children| ==> SizesOf(u.children[k], id) == SizesOf(t.children[k], id)
    ensures SizesOf(u, id) == SizesOf(t, id)
  {
    if k: nat :| k < |t.children| && id in Ids(t.children[k]) {
      var j := k;
      while j > 0 && exists m :: 0 <= m < j && id in Ids(t.children[m])
        invariant 0 <= j < |t.children| && id in Ids(t.children[j])
      {
        var m: nat :| m < j && id in Ids(t.children[m]);
        j := m;
      }
      SizesThrough(t, 0, j, id);
      SizesThrough(u, 0, j, id);
    } else {
      SizesNowhere(t, 0, id);
      SizesNowhere(u, 0, id);
    }
  }

  /** New sizes land on their split and nowhere else. */
  lemma {:induction false} ResizeLands<L>(t: Tree<L>, id: string, sizes: seq<real>, other: string)
    requires Proper(t) && DistinctIds(t) && SizesOf(t, id).Some? && |sizes| == |SizesOf(t, id).value|
    ensures SizesOf(WithSizes(t, id, sizes), id) == Some(sizes)
    ensures other != id ==> SizesOf(WithSizes(t, id, sizes), other) == SizesOf(t, other)
  {
    var u := WithSizes(t, id, sizes);
    if t.id == id {
      if other != id { SizesByChild(t, u, other); }
    } else {
      SizesMeanIds(t, id);
      var j :| 0 <= j < |t.children| && id in Ids(t.children[j]);
      forall k | 0 <= k < |t.children| && k != j ensures id !in Ids(t.children[k]) && u.children[k] == t.children[k] {
        assert k < j ==> Ids(t.children[k]) !! Ids(t.children[j]);
        AbsentIsUnchanged(t.children[k], id, sizes);
      }
      SizesThrough(t, 0, j, id);
      ResizeLands(t.children[j], id, sizes, other);
      IdsKept(t.children[j], id, sizes);
      SizesThrough(u, 0, j, id);
      if other != id && other != t.id { SizesByChild(t, u, other); }
    }
  }

  // ---------------------------------------------------------------- moving a seam

  function Sum(sizes: seq<real>): real {
    if |sizes| == 0 then 0.0 else sizes[0] + Sum(sizes[1..])
  }

  predicate Positive(sizes: seq<real>) {
    forall i :: 0 <= i < |sizes| ==> sizes[i] > 0.0
  }

  /** Only the two areas at the seam changed, and they still fill the same room. */
  predicate SeamMoved(before: seq<real>, after: seq<real>, index: nat) {
    && index + 1 < |before| == |after|
    && after[index] + after[index + 1] == before[index] + before[index + 1]
    && forall i :: 0 <= i < |before| && i != index && i != index + 1 ==> after[i] == before[i]
  }

  lemma {:induction false} SeamKeepsSum(before: seq<real>, after: seq<real>, index: nat)
    requires SeamMoved(before, after, index)
    ensures Sum(after) == Sum(before)
    decreases index
  {
    if index > 0 {
      SeamKeepsSum(before[1..], after[1..], index - 1);
    } else {
      assert before[1..][1..] == after[1..][1..];
      assert Sum(before) == before[0] + (before[1] + Sum(before[1..][1..]));
      assert Sum(after) == after[0] + (after[1] + Sum(after[1..][1..]));
    }
  }

  /** The new share in front of the seam. */
  method FrontShare(pair: real, trailing: bool, ratio: real) returns (front: real)
    requires 0.0 < ratio < 1.0
    ensures (if trailing then front else pair - front) == pair * ratio
    ensures pair > 0.0 ==> 0.0 < front < pair
  {
    ghost var asked := pair * ratio;
    assert pair > 0.0 ==> 0.0 < asked < pair by {
      if pair > 0.0 { ShareIsPositive(pair, ratio, asked); }
    }
    if trailing {
      front := pair * ratio;
    } else {
      front := pair * (1.0 - ratio);
      ShareOfRest(pair, ratio);
    }
    assert front == if trailing then asked else pair - asked;
  }

  /** The share arithmetic of `pane.resize`: the side that asks gets `ratio` of the pair. */
  method Resize(current: seq<real>, index: nat, trailing: bool, ratio: real) returns (sizes: seq<real>)
    requires index + 1 < |current| && 0.0 < ratio < 1.0
    ensures SeamMoved(current, sizes, index) && Sum(sizes) == Sum(current)
    ensures Positive(current) ==> Positive(sizes)
    ensures (if trailing then sizes[index] else sizes[index + 1]) == (current[index] + current[index + 1]) * ratio
  {
    var a := new real[|current|](i requires 0 <= i < |current| => current[i]);
    var pair := a[index] + a[index + 1];
    a[index] := FrontShare(pair, trailing, ratio);
    a[index + 1] := pair - a[index];
    sizes := a[..];
    SeamKeepsSum(current, sizes, index);
  }

  lemma ShareOfRest(pair: real, ratio: real)
    ensures pair * (1.0 - ratio) == pair - pair * ratio
  {
  }

  lemma ShareIsPositive(pair: real, ratio: real, asked: real)
    requires pair > 0.0 && 0.0 < ratio < 1.0 && asked == pair * ratio
    ensures 0.0 < asked && asked < pair
  {
    var rest := 1.0 - ratio;
    assert pair * rest > 0.0;
    assert pair * rest == pair - asked;
  }

  /** A seam is fixed by one share: naming it from the other side with the other ratio, as `left` or `top`
      do, gives the same sizes. */
  lemma SameFromEitherSide(current: seq<real>, a: seq<real>, b: seq<real>, index: nat, ratio: real)
    requires SeamMoved(current, a, index) && a[index] == (current[index] + current[index + 1]) * ratio
    requires SeamMoved(current, b, index) && b[index + 1] == (current[index] + current[index + 1]) * (1.0 - ratio)
    ensures a == b
  {
    var pair := current[index] + current[index + 1];
    assert pair * (1.0 - ratio) == pair - pair * ratio;
    forall i | 0 <= i < |a| ensures a[i] == b[i] {
    }
  }

  // ---------------------------------------------------------------- resizing in the whole tree

  /** The steps lead the same way past splits of the same shape. */
  ghost predicate SameSteps<L>(a: seq<Step<L>>, b: seq<Step<L>>) {
    && |a| == |b| && PathOk(a) && PathOk(b)
    && forall i :: 0 <= i < |a| ==>
         && a[i].child == b[i].child && a[i].node.id == b[i].node.id && a[i].node.dir == b[i].node.dir
         && |a[i].node.children| == |b[i].node.children|
  }

  ghost predicate SameWay<L>(a: Option<seq<Step<L>>>, b: Option<seq<Step<L>>>) {
    (a.Some? <==> b.Some?) && (a.Some? ==> SameSteps(a.value, b.value))
  }

  lemma {:induction false} NearestOnSameSteps<L>(a: seq<Step<L>>, b: seq<Step<L>>, side: Side)
    requires SameSteps(a, b)
    ensures Nearest(a, side) == Nearest(b, side)
  {
    if |a| == 0 {
    } else {
      NearestOnSameSteps(a[1..], b[1..], side);
    }
  }

  lemma {:induction false} PathKept<L>(t: Tree<L>, id: string, sizes: seq<real>, hit: L -> bool)
    ensures SameWay(PathTo(WithSizes(t, id, sizes), hit), PathTo(t, hit))
  {
    var u := WithSizes(t, id, sizes);
    if t.Leaf? {
    } else {
      forall k | 0 <= k < |t.children| ensures SameWay(PathTo(u.children[k], hit), PathTo(t.children[k], hit)) {
        PathIsOk(t.children[k], hit);
        if u.children[k] != t.children[k] { PathKept(t.children[k], id, sizes, hit); }
      }
      PathFromKept(t, u, 0, hit);
    }
  }

  lemma {:induction false} PathFromKept<L>(t: Tree<L>, u: Tree<L>, i: nat, hit: L -> bool)
    requires t.Split? && u.Split? && t.id == u.id && t.dir == u.dir && |t.children| == |u.children| && i <= |t.children|
    requires forall k :: 0 <= k < |t.children| ==> SameWay(PathTo(u.children[k], hit), PathTo(t.children[k], hit))
    ensures SameWay(PathFrom(u, i, hit), PathFrom(t, i, hit))
    decreases |t.children| - i
  {
    if i == |t.children| {
    } else {
      PathFromKept(t, u, i + 1, hit);
    }
  }

  /** Sizes do not matter to what an edge names. */
  lemma {:induction false} ResolvedKept<L>(t: Tree<L>, id: string, sizes: seq<real>, pane: L, side: Side)
    ensures Resolved(WithSizes(t, id, sizes), pane, side) == Resolved(t, pane, side)
  {
    var u := WithSizes(t, id, sizes);
    PathKept(t, id, sizes, Is(pane));
    if PathTo(t, Is(pane)).Some? { NearestOnSameSteps(PathTo(u, Is(pane)).value, PathTo(t, Is(pane)).value, side); }
  }

  lemma {:induction false} SeamHasSizes<L>(t: Tree<L>, pane: L, side: Side)
    requires Proper(t) && DistinctPanes(t) && DistinctIds(t) && Resolved(t, pane, side).Some?
    ensures var g := Resolved(t, pane, side).value;
      SizesOf(t, g.splitId).Some? && g.index + 1 < |SizesOf(t, g.splitId).value|
  {
    PathMeansInside(t, pane);
    ResolvedIsSeam(t, pane, side);
    SizesAreTheNodes(t, Resolved(t, pane, side).value.splitId);
    NodeIsProper(t, Resolved(t, pane, side).value.splitId);
  }

  /** What `pane.resize` does to the tree: the two shares at the seam change and nothing else does, every
      edge keeps its name, and the asking child reads back `ratio` of the pair. */
  ghost predicate ResizedBy<L(!new)>(t: Tree<L>, u: Tree<L>, g: Gutter, side: Side, ratio: real) {
    && SizesOf(t, g.splitId).Some? && SizesOf(u, g.splitId).Some?
    && var before, after := SizesOf(t, g.splitId).value, SizesOf(u, g.splitId).value;
    && SeamMoved(before, after, g.index) && Sum(after) == Sum(before) && (Positive(before) ==> Positive(after))
    && after[AskingChild(g, side)] == (after[g.index] + after[g.index + 1]) * ratio
    && u == WithSizes(t, g.splitId, after)
    && (forall other :: other != g.splitId ==> SizesOf(u, other) == SizesOf(t, other))
    && (forall pane, side :: Resolved(u, pane, side) == Resolved(t, pane, side))
  }

  /** `pane.resize`, from the edge to the new tree; None when no seam is beside the pane there or the ratio is
      out of range. The seam moved is the nearest, so the area that reads back `ratio` holds the pane. */
  method ResizePane<L(==,!new)>(t: Tree<L>, pane: L, side: Side, ratio: real) returns (r: Option<Tree<L>>)
    requires Proper(t) && DistinctPanes(t) && DistinctIds(t)
    ensures r.Some? <==> 0.0 < ratio < 1.0 && exists g :: IsBeside(t, pane, side, g)
    ensures r.Some? ==> exists g :: IsNearestSeam(t, pane, side, g) && ResizedBy(t, r.value, g, side, ratio)
  {
    if ratio <= 0.0 || ratio >= 1.0 { return None; }
    var gutter := ResolveGutter(t, pane, side);
    if gutter.None? { return None; }
    var g := gutter.value;
    SeamHasSizes(t, pane, side);
    var current := SizesOf(t, g.splitId).value;
    var sizes := Resize(current, g.index, side.trailing, ratio);
    SizesPutBack(t, g, side, ratio, current, sizes);
    r := Some(WithSizes(t, g.splitId, sizes));
  }

  lemma {:induction false} SizesPutBack<L(!new)>(
    t: Tree<L>, g: Gutter, side: Side, ratio: real, before: seq<real>, after: seq<real>)
    requires Proper(t) && DistinctIds(t) && SizesOf(t, g.splitId) == Some(before)
    requires SeamMoved(before, after, g.index) && (Positive(before) ==> Positive(after))
    requires after[AskingChild(g, side)] == (before[g.index] + before[g.index + 1]) * ratio
    ensures ResizedBy(t, WithSizes(t, g.splitId, after), g, side, ratio)
  {
    SeamKeepsSum(before, after, g.index);
    ResizeLands(t, g.splitId, after, g.splitId);
    var u := WithSizes(t, g.splitId, after);
    forall other | other != g.splitId ensures SizesOf(u, other) == SizesOf(t, other) {
      ResizeLands(t, g.splitId, after, other);
    }
    forall p, sd ensures Resolved(u, p, sd) == Resolved(t, p, sd) {
      ResolvedKept(t, g.splitId, after, p, sd);
    }
  }

  /** The share arithmetic of `pane.equalize`. */
  method Equalize(current: seq<real>, index: nat, all: bool) returns (sizes: seq<real>)
    requires index + 1 < |current|
    ensures |sizes| == |current| && forall i :: all && 0 <= i < |sizes| ==> sizes[i] == 1.0 / |sizes| as real
    ensures all ==> Sum(sizes) == 1.0
    ensures !all ==> SeamMoved(current, sizes, index) && sizes[index] == sizes[index + 1] && Sum(sizes) == Sum(current)
    ensures !all && current[index] == current[index + 1] ==> sizes == current
  {
    var a := new real[|current|](i requires 0 <= i < |current| => current[i]);
    if all {
      for i := 0 to a.Length
        invariant forall j :: 0 <= j < i ==> a[j] == 1.0 / |current| as real
      {
        a[i] := 1.0 / |current| as real;
      }
      sizes := a[..];
      EqualSum(sizes, 1.0 / |current| as real);
    } else {
      var half := (a[index] + a[index + 1]) / 2.0;
      a[index] := half;
      a[index + 1] := half;
      sizes := a[..];
      SeamKeepsSum(current, sizes, index);
    }
  }

  lemma {:induction false} EqualSum(sizes: seq<real>, share: real)
    requires forall i :: 0 <= i < |sizes| ==> sizes[i] == share
    ensures Sum(sizes) == |sizes| as real * share
  {
    if |sizes| == 0 {
    } else {
      EqualSum(sizes[1..], share);
    }
  }

  // ---------------------------------------------------------------- the split around a view

  /** `sidebarSplitIdOf`'s walk: the id of the split directly around the first leaf that is hit. */
  function ParentId<L>(t: Tree<L>, parent: Option<string>, hit: L -> bool): Option<string>
    decreases t, Fan(t) + 1
  {
    match t
    case Leaf(value) => if hit(value) then parent else None
    case Split(_, _, _, _) => ParentIdFrom(t, 0, hit)
  }

  function ParentIdFrom<L>(t: Tree<L>, i: nat, hit: L -> bool): Option<string>
    requires t.Split? && i <= |t.children|
    decreases t, |t.children| - i
  {
    if i == |t.children| then None
    else
      match ParentId(t.children[i], Some(t.id), hit)
      case Some(id) => Some(id)
      case None => ParentIdFrom(t, i + 1, hit)
  }

  /** The last split on a path; the given parent when the path is empty. */
  ghost function LastId<L>(path: Option<seq<Step<L>>>, parent: Option<string>): Option<string>
    requires path.Some? ==> PathOk(path.value)
  {
    match path
    case None => None
    case Some(steps) => if |steps| == 0 then parent else Some(steps[|steps| - 1].node.id)
  }

  /** It is the direct parent of the first leaf, in document order, that holds the view; a root leaf has
      none. */
  lemma {:induction false} ParentOfFirstLeaf<L>(t: Tree<L>, parent: Option<string>, hit: L -> bool)
    ensures PathTo(t, hit).Some? ==> PathOk(PathTo(t, hit).value)
    ensures ParentId(t, parent, hit) == LastId(PathTo(t, hit), parent)
    decreases t, Fan(t) + 1
  {
    PathIsOk(t, hit);
    if t.Split? { ParentFrom(t, 0, hit); }
  }

  lemma {:induction false} ParentFrom<L>(t: Tree<L>, i: nat, hit: L -> bool)
    requires t.Split? && i <= |t.children|
    ensures PathFrom(t, i, hit).Some? ==> |PathFrom(t, i, hit).value| > 0 && PathOk(PathFrom(t, i, hit).value)
    ensures ParentIdFrom(t, i, hit) == LastId(PathFrom(t, i, hit), None)
    decreases t, |t.children| - i
  {
    PathFromIsOk(t, i, hit);
    if i == |t.children| {
    } else {
      ParentOfFirstLeaf(t.children[i], Some(t.id), hit);
      ParentFrom(t, i + 1, hit);
    }
  }
}
