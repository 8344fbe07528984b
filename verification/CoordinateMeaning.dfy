/** When an accepted coordinate is a JSON document (src/commands/registry.ts, `PluginAuthorityJson`). */
module CoordinateMeaning {
  import opened JsValues
  import opened MachineSchema
  import opened ResultCheck
  import opened CoordinateCheck
  import ResultMeaning

  /** Nothing of the object itself is skipped: no hole, no property beside the elements, none out of sight. */
  predicate Whole(h: Heap, v: Value) {
    v.Obj? ==>
      match Lookup(h, v.ref)
      case List(items, stray, standardProto) =>
        standardProto && stray == 0 && forall i :: 0 <= i < |items| ==> JsonItem(items[i])
      case Record(fields) => forall i :: 0 <= i < |fields| ==> JsonField(fields[i])
      case Foreign => true
  }

  /** No object reached from `v` has a part the check skips. */
  ghost predicate AllWhole(h: Heap, v: Value) {
    forall path, w :: At(h, v, path) == Some(w) ==> Whole(h, w)
  }

  ghost predicate IsDocument(h: Heap, v: Value) {
    exists j :: ResultMeaning.Represents(h, v, j)
  }

  lemma {:induction false} PresentOfWhole(items: seq<Item>)
    requires forall i :: 0 <= i < |items| ==> JsonItem(items[i])
    ensures |Present(items)| == |items| && forall i :: 0 <= i < |items| ==>
      JsonItem(items[i]) && Present(items)[i] == items[i].slot.v
  {
    if |items| == 0 {
    } else {
      PresentOfWhole(items[..|items| - 1]);
    }
  }

  lemma {:induction false} EntriesOfWhole(fields: seq<Field>)
    requires forall i :: 0 <= i < |fields| ==> JsonField(fields[i])
    ensures |Entries(fields)| == |fields|
    ensures forall i :: 0 <= i < |fields| ==>
      JsonField(fields[i]) && Entries(fields)[i] == (fields[i].key.s, fields[i].slot.v)
  {
    if |fields| == 0 {
    } else {
      EntriesOfWhole(fields[..|fields| - 1]);
    }
  }

  lemma {:induction false} KidOfDocument(h: Heap, v: Value, j: ResultMeaning.Json, k: nat) returns (sub: ResultMeaning.Json)
    requires ResultMeaning.Represents(h, v, j) && k < |Kids(h, v)|
    ensures ResultMeaning.Represents(h, Kids(h, v)[k], sub)
  {
    match j
    case JArray(docs) =>
      PresentOfWhole(Lookup(h, v.ref).items);
      sub := docs[k];
    case JObject(members) =>
      EntriesOfWhole(Lookup(h, v.ref).fields);
      sub := members[k].value;
    case _ =>
      assert false;
  }

  lemma {:induction false} WalkIntoDocument(h: Heap, v: Value, j: ResultMeaning.Json, path: seq<nat>, w: Value)
    returns (sub: ResultMeaning.Json)
    requires ResultMeaning.Represents(h, v, j) && At(h, v, path) == Some(w)
    ensures ResultMeaning.Represents(h, w, sub)
  {
    if |path| == 0 {
      sub := j;
    } else {
      var n := |path| - 1;
      var above := At(h, v, path[..n]).value;
      sub := WalkIntoDocument(h, v, j, path[..n], above);
      sub := KidOfDocument(h, above, sub, path[n]);
    }
  }

  lemma {:induction false} AtBelow(h: Heap, v: Value, k: nat, path: seq<nat>)
    requires k < |Kids(h, v)|
    ensures At(h, v, [k] + path) == At(h, Kids(h, v)[k], path)
  {
    if |path| == 0 {
      assert At(h, v, []) == Some(v) && ([k] + path)[..0] == [];
    } else {
      var n := |path| - 1;
      AtBelow(h, v, k, path[..n]);
      assert ([k] + path)[..n + 1] == [k] + path[..n];
    }
  }

  lemma {:induction false} KidsAreWhole(h: Heap, v: Value, k: nat)
    requires AllWhole(h, v) && k < |Kids(h, v)|
    ensures AllWhole(h, Kids(h, v)[k])
  {
    forall path, w | At(h, Kids(h, v)[k], path) == Some(w) ensures Whole(h, w) { AtBelow(h, v, k, path); }
  }

  lemma {:induction false} WholeIsDocument(h: Heap, v: Value, t: Tree)
    requires Spreads(h, v, t) && AllWhole(h, v)
    ensures IsDocument(h, v)
    decreases t
  {
    assert Whole(h, v) by { assert At(h, v, []) == Some(v); }
    forall k | 0 <= k < |t.kids| ensures IsDocument(h, Kids(h, v)[k]) {
      KidsAreWhole(h, v, k);
      WholeIsDocument(h, Kids(h, v)[k], t.kids[k]);
    }
    DocumentOfKids(h, v);
  }

  lemma {:induction false} DocumentOfKids(h: Heap, v: Value)
    requires NodeOk(h, v) && Whole(h, v) && forall k :: 0 <= k < |Kids(h, v)| ==> IsDocument(h, Kids(h, v)[k])
    ensures IsDocument(h, v)
  {
    match v
    case Null => assert ResultMeaning.Represents(h, v, ResultMeaning.JNull);
    case Bool(b) => assert ResultMeaning.Represents(h, v, ResultMeaning.JBool(b));
    case Number(n) => assert ResultMeaning.Represents(h, v, ResultMeaning.JNumber(n.r));
    case Str(s) => assert ResultMeaning.Represents(h, v, ResultMeaning.JString(s));
    case Obj(r) =>
      var docs := DocumentsOf(h, Kids(h, v));
      match Lookup(h, r) {
        case List(items, _, _) =>
          PresentOfWhole(items);
          assert ResultMeaning.Represents(h, v, ResultMeaning.JArray(docs));
        case Record(fields) =>
          EntriesOfWhole(fields);
          var members := seq(|fields|, i requires 0 <= i < |fields| => ResultMeaning.Member(fields[i].key.s, docs[i]));
          assert ResultMeaning.Represents(h, v, ResultMeaning.JObject(members));
      }
  }

  lemma {:induction false} DocumentsOf(h: Heap, kids: seq<Value>) returns (docs: seq<ResultMeaning.Json>)
    requires forall k :: 0 <= k < |kids| ==> IsDocument(h, kids[k])
    ensures |docs| == |kids| && forall k :: 0 <= k < |kids| ==> ResultMeaning.Represents(h, kids[k], docs[k])
  {
    docs := [];
    for k := 0 to |kids|
      invariant |docs| == k && forall i :: 0 <= i < k ==> ResultMeaning.Represents(h, kids[i], docs[i])
    {
      var j :| ResultMeaning.Represents(h, kids[k], j);
      docs := docs + [j];
    }
  }

  /** An accepted coordinate is a JSON document exactly when no object in it has a part the check skips:
      a hole of an array, or a property beside its elements. */
  lemma {:induction false} AcceptedIsDocument(h: Heap, v: Value)
    requires CoordinateOk(h, v)
    ensures IsDocument(h, v) <==> AllWhole(h, v)
  {
    if IsDocument(h, v) {
      var j :| ResultMeaning.Represents(h, v, j);
      forall path, w | At(h, v, path) == Some(w) ensures Whole(h, w) {
        var sub := WalkIntoDocument(h, v, j, path, w);
      }
    }
    if AllWhole(h, v) {
      var t :| Spreads(h, v, t);
      WholeIsDocument(h, v, t);
    }
  }

  /** An array of one hole is accepted. */
  lemma {:induction false} HoleIsAccepted()
    ensures var h := [List([Hole], 0, true)]; CoordinateOk(h, Obj(0)) && !IsDocument(h, Obj(0))
  {
    var h := [List([Hole], 0, true)];
    assert [Hole][..0] == [] && Present([Hole]) == [];
    assert Spreads(h, Obj(0), Tree([]));
    forall j ensures !ResultMeaning.Represents(h, Obj(0), j) {
      if j.JArray? && |j.items| == 1 { assert Lookup(h, 0).items[0].Hole?; }
    }
  }
}
