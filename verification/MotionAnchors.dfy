/** Declarative motion anchors on DOM hosts (src/commands/captureMotionAnchors.ts). */
module MotionAnchors {
  import opened JsValues

  type Host = nat

  /** What an anchor touches on a host: its attribute, three custom properties ("" when absent) and the
      inline position. */
  datatype Look = Look(anchor: Option<string>, x: string, y: string, color: string, position: string)

  datatype Target = Target(host: Host, address: string, color: string, x: string, y: string)

  datatype Declaration = Declaration(
    address: string, color: string, x: string, y: string, restorePosition: string, changedPosition: bool)

  datatype Page = Page(looks: map<Host, Look>, declarations: map<Host, Declaration>)

  /** Whether a host with this look computes to `position: static`; the style sheets decide. */
  type Sheet = Look -> bool

  // ---------------------------------------------------------------- one host

  function Declared(sheet: Sheet, t: Target, look: Look): Declaration {
    Declaration(t.address, t.color, t.x, t.y, look.position, sheet(look))
  }

  /** `applyDeclaration`. */
  function Applied(look: Look, d: Declaration): Look {
    Look(Some(d.address), d.x, d.y, d.color, if d.changedPosition then "relative" else look.position)
  }

  /** `removeAnchor`. */
  function Removed(look: Look, d: Declaration): Look {
    Look(None, "", "", "", if d.changedPosition then d.restorePosition else look.position)
  }

  /** The host has no anchor state of its own. */
  predicate Bare(look: Look) {
    look.anchor.None? && look.x == "" && look.y == "" && look.color == ""
  }

  // ---------------------------------------------------------------- the page

  function Cleared(page: Page): Page {
    Page(map h | h in page.looks ::
           if h in page.declarations then Removed(page.looks[h], page.declarations[h]) else page.looks[h],
         map[])
  }

  function Added(sheet: Sheet, page: Page, t: Target): Page
    requires t.host in page.looks
  {
    var d := Declared(sheet, t, page.looks[t.host]);
    Page(page.looks[t.host := Applied(page.looks[t.host], d)], page.declarations[t.host := d])
  }

  predicate OnPage(page: Page, targets: seq<Target>) {
    forall i :: 0 <= i < |targets| ==> targets[i].host in page.looks
  }

  function AddedAll(sheet: Sheet, page: Page, targets: seq<Target>): (r: Page)
    requires OnPage(page, targets)
    ensures r.looks.Keys == page.looks.Keys
  {
    if |targets| == 0 then page
    else Added(sheet, AddedAll(sheet, page, targets[..|targets| - 1]), targets[|targets| - 1])
  }

  /** `setCaptureMotionAnchors`: everything declared before goes, and these are declared. */
  function Set(sheet: Sheet, page: Page, targets: seq<Target>): (r: Page)
    requires OnPage(page, targets)
    ensures r.looks.Keys == page.looks.Keys
  {
    AddedAll(sheet, Cleared(page), targets)
  }

  predicate DistinctHosts(targets: seq<Target>) {
    forall i, j :: 0 <= i < j < |targets| ==> targets[i].host != targets[j].host
  }

  predicate Names(targets: seq<Target>, h: Host) {
    exists i :: 0 <= i < |targets| && targets[i].host == h
  }

  // ---------------------------------------------------------------- declarative

  /** A host that looked like this, with the target's address, color and place on it. */
  function Shown(sheet: Sheet, t: Target, look: Look): Look {
    look.(anchor := Some(t.address), color := t.color, x := t.x, y := t.y,
          position := if sheet(look) then "relative" else look.position)
  }

  /** Target `t` is declared on its host as it was on `page`, and shown. */
  ghost predicate DeclaredOn(sheet: Sheet, page: Page, r: Page, t: Target) {
    && t.host in page.looks && t.host in r.looks && t.host in r.declarations
    && r.declarations[t.host] == Declared(sheet, t, page.looks[t.host])
    && r.looks[t.host] == Shown(sheet, t, page.looks[t.host])
  }

  ghost predicate Untouched(page: Page, r: Page, h: Host) {
    && (h in page.looks ==> h in r.looks && r.looks[h] == page.looks[h])
    && (h in r.declarations <==> h in page.declarations)
    && (h in page.declarations ==> r.declarations[h] == page.declarations[h])
  }

  lemma NamesFront(targets: seq<Target>, h: Host)
    requires |targets| > 0
    ensures var n := |targets| - 1;
      Names(targets, h) <==> targets[n].host == h || Names(targets[..n], h)
  {
    var n := |targets| - 1;
    assert forall i :: 0 <= i < n ==> targets[..n][i] == targets[i];
  }

  /** With distinct hosts every target is declared on its host as it was, and no other host changes. */
  lemma {:induction false} AddedAllAt(sheet: Sheet, page: Page, targets: seq<Target>)
    requires OnPage(page, targets) && DistinctHosts(targets)
    ensures var r := AddedAll(sheet, page, targets);
      && (forall i :: 0 <= i < |targets| ==> DeclaredOn(sheet, page, r, targets[i]))
      && (forall h :: !Names(targets, h) ==> Untouched(page, r, h))
  {
    if |targets| == 0 {
    } else {
      var n := |targets| - 1;
      var front, last := targets[..n], targets[n];
      assert forall i :: 0 <= i < n ==> front[i] == targets[i];
      AddedAllAt(sheet, page, front);
      var before, r := AddedAll(sheet, page, front), AddedAll(sheet, page, targets);
      assert !Names(front, last.host) && Untouched(page, before, last.host);
      forall i | 0 <= i < |targets| ensures DeclaredOn(sheet, page, r, targets[i]) {
        if i < n { assert DeclaredOn(sheet, page, before, front[i]) && targets[i].host != last.host; }
      }
      forall h | !Names(targets, h) ensures Untouched(page, r, h) {
        NamesFront(targets, h);
        assert Untouched(page, before, h);
      }
    }
  }

  /** The page is its own `base` with the declared anchors on top, each host bare underneath. */
  ghost predicate RestsOn(sheet: Sheet, page: Page, base: map<Host, Look>) {
    && page.looks.Keys == base.Keys
    && page.declarations.Keys <= base.Keys
    && forall h :: h in base ==> HostRestsOn(sheet, page, base, h)
  }

  ghost predicate HostRestsOn(sheet: Sheet, page: Page, base: map<Host, Look>, h: Host)
    requires h in base && h in page.looks
  {
    if h in page.declarations then
      var d := page.declarations[h];
      && Bare(base[h]) && page.looks[h] == Applied(base[h], d)
      && d.restorePosition == base[h].position && d.changedPosition == sheet(base[h])
    else page.looks[h] == base[h]
  }

  predicate BareTargets(base: map<Host, Look>, targets: seq<Target>) {
    forall i :: 0 <= i < |targets| ==> targets[i].host in base && Bare(base[targets[i].host])
  }

  lemma {:induction false} ClearedIsBase(sheet: Sheet, page: Page, base: map<Host, Look>)
    requires RestsOn(sheet, page, base)
    ensures Cleared(page) == Page(base, map[])
  {
    forall h | h in base ensures Cleared(page).looks[h] == base[h] {
      assert HostRestsOn(sheet, page, base, h);
    }
  }

  /** Setting anchors forgets every earlier call: only the base and the new list count. */
  lemma {:induction false} SetIsDeclarative(sheet: Sheet, page: Page, base: map<Host, Look>, targets: seq<Target>)
    requires RestsOn(sheet, page, base) && DistinctHosts(targets) && BareTargets(base, targets)
    ensures OnPage(page, targets) && Set(sheet, page, targets) == Set(sheet, Page(base, map[]), targets)
    ensures RestsOn(sheet, Set(sheet, page, targets), base)
  {
    ClearedIsBase(sheet, page, base);
    assert Cleared(Page(base, map[])) == Page(base, map[]);
    AddedAllAt(sheet, Page(base, map[]), targets);
    var r := AddedAll(sheet, Page(base, map[]), targets);
    forall h | h in base || h in r.declarations ensures h in base && HostRestsOn(sheet, r, base, h) {
      if Names(targets, h) {
        var i :| 0 <= i < |targets| && targets[i].host == h;
        assert DeclaredOn(sheet, Page(base, map[]), r, targets[i]);
      } else {
        assert Untouched(Page(base, map[]), r, h);
      }
    }
  }

  /** The page after these calls, one by one. */
  function SetAll(sheet: Sheet, page: Page, calls: seq<seq<Target>>): (r: Page)
    requires forall k :: 0 <= k < |calls| ==> OnPage(page, calls[k])
    ensures r.looks.Keys == page.looks.Keys
  {
    if |calls| == 0 then page
    else
      var before, last := SetAll(sheet, page, calls[..|calls| - 1]), calls[|calls| - 1];
      assert OnPage(page, last) && before.looks.Keys == page.looks.Keys;
      Set(sheet, before, last)
  }

  /** After any calls at all, the page is what the last call alone would have made of it. */
  lemma {:induction false} OnlyTheLastCallCounts(sheet: Sheet, base: map<Host, Look>, calls: seq<seq<Target>>)
    requires |calls| > 0
    requires forall k :: 0 <= k < |calls| ==> DistinctHosts(calls[k]) && BareTargets(base, calls[k])
    ensures var first := Page(base, map[]);
      && (forall k :: 0 <= k < |calls| ==> OnPage(first, calls[k]))
      && SetAll(sheet, first, calls) == Set(sheet, first, calls[|calls| - 1])
      && RestsOn(sheet, SetAll(sheet, first, calls), base)
  {
    var first, n := Page(base, map[]), |calls| - 1;
    if n == 0 {
    } else {
      OnlyTheLastCallCounts(sheet, base, calls[..n]);
    }
    assert DistinctHosts(calls[n]) && BareTargets(base, calls[n]);
    SetIsDeclarative(sheet, SetAll(sheet, first, calls[..n]), base, calls[n]);
  }

  /** Setting and clearing again restores every host exactly when none had anchor state before. */
  lemma {:induction false} ClearingRestores(sheet: Sheet, page: Page, targets: seq<Target>)
    requires page.declarations == map[] && OnPage(page, targets) && DistinctHosts(targets)
    ensures Set(sheet, Set(sheet, page, targets), []) == page <==> BareTargets(page.looks, targets)
  {
    assert Cleared(page) == page;
    AddedAllAt(sheet, page, targets);
    var r := AddedAll(sheet, page, targets);
    var end := Cleared(r);
    forall h | h in page.looks
      ensures end.looks[h] == if Names(targets, h) then Look(None, "", "", "", page.looks[h].position) else page.looks[h]
    {
      if Names(targets, h) {
        var i :| 0 <= i < |targets| && targets[i].host == h;
        assert DeclaredOn(sheet, page, r, targets[i]);
      } else {
        assert Untouched(page, r, h);
      }
    }
    if BareTargets(page.looks, targets) {
      forall h | h in page.looks ensures end.looks[h] == page.looks[h] {
        if Names(targets, h) { var i :| 0 <= i < |targets| && targets[i].host == h; }
      }
      assert end.looks == page.looks;
    } else {
      var i :| 0 <= i < |targets| && !Bare(page.looks[targets[i].host]);
      assert Names(targets, targets[i].host);
      assert end.looks[targets[i].host] != page.looks[targets[i].host];
    }
  }

  /** A host that already carried the attribute has lost it afterwards. */
  lemma {:induction false} EarlierAnchorIsLost(sheet: Sheet)
    ensures var look := Look(Some("win/main/chrome/tab"), "", "", "", "");
      var page, t := Page(map[0 := look], map[]), Target(0, "win/main/chrome/rail", "red", "0px", "0px");
      && OnPage(page, [t])
      && Set(sheet, Set(sheet, page, [t]), []).looks[0].anchor.None? && Set(sheet, Set(sheet, page, [t]), []) != page
  {
    var look := Look(Some("win/main/chrome/tab"), "", "", "", "");
    var page, t := Page(map[0 := look], map[]), Target(0, "win/main/chrome/rail", "red", "0px", "0px");
    assert Cleared(page) == page && [t][..0] == [];
    assert AddedAll(sheet, page, [t]) == Added(sheet, page, t);
  }

  // ---------------------------------------------------------------- one host named twice

  /** Naming a host twice may lose its position: clearing restores it exactly when the host was not static,
      or was `relative` inline anyway. */
  lemma {:induction false} TwiceOnOneHost(sheet: Sheet, page: Page, a: Target, b: Target)
    requires page.declarations == map[] && a.host == b.host && a.host in page.looks
    ensures OnPage(page, [a, b])
    ensures Set(sheet, Set(sheet, page, [a, b]), []).looks[a.host].position == page.looks[a.host].position <==>
      !sheet(page.looks[a.host]) || page.looks[a.host].position == "relative"
  {
    assert Cleared(page) == page;
    assert [a, b][..1] == [a] && [a][..0] == [];
    var one := Added(sheet, page, a);
    assert AddedAll(sheet, page, [a]) == one;
    assert AddedAll(sheet, page, [a, b]) == Added(sheet, one, b);
  }

  /** A host that is static as long as it has no inline position, named twice: it ends up `relative`. */
  lemma {:induction false} TwiceNamedStaysRelative(sheet: Sheet)
    requires forall look: Look :: sheet(look) <==> look.position == ""
    ensures var page := Page(map[0 := Look(None, "", "", "", "")], map[]);
      var a := Target(0, "win/main/chrome/tab", "red", "0px", "0px");
      OnPage(page, [a, a]) && Set(sheet, Set(sheet, page, [a, a]), []).looks[0].position == "relative"
  {
    var page := Page(map[0 := Look(None, "", "", "", "")], map[]);
    var a := Target(0, "win/main/chrome/tab", "red", "0px", "0px");
    assert Cleared(page) == page;
    assert [a, a][..1] == [a] && [a][..0] == [];
    var one := Added(sheet, page, a);
    assert AddedAll(sheet, page, [a]) == one;
    assert AddedAll(sheet, page, [a, a]) == Added(sheet, one, a);
  }

  /** The host's look is left alone by an observer of this declaration. */
  predicate Settled(look: Look, d: Declaration) {
    Applied(look, d) == look
  }

  /** Both observers of that host stay attached. Some look settles them both exactly when the two
      declarations say the same; otherwise each one's correction sets off the other, without end. */
  lemma {:induction false} SettleTogether(d: Declaration, e: Declaration)
    ensures (exists look :: Settled(look, d) && Settled(look, e)) <==>
      d.address == e.address && d.x == e.x && d.y == e.y && d.color == e.color
  {
    if d.address == e.address && d.x == e.x && d.y == e.y && d.color == e.color {
      var look := Look(Some(d.address), d.x, d.y, d.color, "relative");
      assert Settled(look, d) && Settled(look, e);
    }
  }

  // ---------------------------------------------------------------- the module's tables

  /** A mutation observer's callback: the host it watches and the declaration it re-applies. */
  datatype Watch = Watch(host: Host, declaration: Declaration)

  /** Some of the declared hosts of `before` are cleared in `now`, and nothing else happened. */
  ghost predicate HalfCleared(before: Page, now: Page) {
    && now.looks.Keys == before.looks.Keys
    && (forall h :: h in now.declarations ==> h in before.declarations && now.declarations[h] == before.declarations[h])
    && (forall h :: h in now.looks ==> now.looks[h] == HalfLook(before, now, h))
  }

  ghost function HalfLook(before: Page, now: Page, h: Host): Look
    requires h in before.looks
  {
    if h in before.declarations && h !in now.declarations then Removed(before.looks[h], before.declarations[h])
    else before.looks[h]
  }

  lemma {:induction false} StillHalfCleared(before: Page, now: Page, h: Host)
    requires HalfCleared(before, now) && h in now.declarations && h in now.looks
    ensures HalfCleared(before, Page(now.looks[h := Removed(now.looks[h], now.declarations[h])], now.declarations - {h}))
  {
    var next := Page(now.looks[h := Removed(now.looks[h], now.declarations[h])], now.declarations - {h});
    forall k | k in next.looks ensures next.looks[k] == HalfLook(before, next, k) {
      assert now.looks[k] == HalfLook(before, now, k);
    }
  }

  lemma {:induction false} OneMore(sheet: Sheet, page: Page, targets: seq<Target>, i: nat)
    requires i < |targets| && OnPage(page, targets)
    ensures OnPage(page, targets[..i]) && OnPage(page, targets[..i + 1])
    ensures AddedAll(sheet, page, targets[..i + 1]) == Added(sheet, AddedAll(sheet, page, targets[..i]), targets[i])
    ensures forall h :: Names(targets[..i + 1], h) <==> Names(targets[..i], h) || h == targets[i].host
    ensures DistinctHosts(targets) ==> !Names(targets[..i], targets[i].host)
  {
    assert targets[..i + 1][..i] == targets[..i] && targets[..i + 1][i] == targets[i];
    forall h ensures Names(targets[..i + 1], h) <==> Names(targets[..i], h) || h == targets[i].host {
      NamesFront(targets[..i + 1], h);
    }
  }

  class AnchorTables {
    const sheet: Sheet
    var looks: map<Host, Look>
    var declarations: map<Host, Declaration>
    var observers: map<Host, nat>
    var attached: map<nat, Watch>      // observers not disconnected, by identity
    var created: nat
    var writes: nat                    // attribute and style writes made

    ghost predicate Valid()
      reads this
    {
      && declarations.Keys == observers.Keys
      && declarations.Keys <= looks.Keys
      && (forall h :: h in observers ==>
            observers[h] in attached && attached[observers[h]] == Watch(h, declarations[h]))
      && (forall id :: id in attached ==> id < created && attached[id].host in looks)
    }

    ghost function View(): Page
      reads this
    {
      Page(looks, declarations)
    }

    /** Every attached observer is the one its host's table entry names. */
    ghost predicate NoStray()
      reads this
    {
      forall id :: id in attached ==> attached[id].host in observers && observers[attached[id].host] == id
    }

    constructor (sheet: Sheet, looks: map<Host, Look>)
      ensures Valid() && NoStray() && View() == Page(looks, map[]) && this.sheet == sheet
    {
      this.sheet := sheet;
      this.looks := looks;
      declarations, observers, attached, created, writes := map[], map[], map[], 0, 0;
    }

    /** `applyDeclaration`: writes only what differs. */
    method ApplyDeclaration(host: Host, d: Declaration)
      requires host in looks
      modifies this`looks, this`writes
      ensures looks == old(looks)[host := Applied(old(looks)[host], d)]
      ensures writes >= old(writes) && (writes == old(writes) <==> looks == old(looks))
    {
      var look := looks[host];
      if look.anchor != Some(d.address) {
        look := look.(anchor := Some(d.address));
        writes := writes + 1;
      }
      if d.changedPosition && look.position != "relative" {
        look := look.(position := "relative");
        writes := writes + 1;
      }
      if look.x != d.x {
        look := look.(x := d.x);
        writes := writes + 1;
      }
      if look.y != d.y {
        look := look.(y := d.y);
        writes := writes + 1;
      }
      if look.color != d.color {
        look := look.(color := d.color);
        writes := writes + 1;
      }
      looks := looks[host := look];
      assert writes == old(writes) <==> look == old(looks)[host];
    }

    /** An attached observer fires. Once its host looks as declared it writes nothing more, so it does not
        set itself off again. */
    method OnMutation(id: nat)
      requires Valid() && id in attached
      modifies this`looks, this`writes
      ensures Valid()
      ensures looks == old(looks)[attached[id].host := Applied(old(looks)[attached[id].host], attached[id].declaration)]
      ensures old(looks)[attached[id].host] == Applied(old(looks)[attached[id].host], attached[id].declaration) ==>
        writes == old(writes) && looks == old(looks)
    {
      ApplyDeclaration(attached[id].host, attached[id].declaration);
    }

    /** `removeAnchor`, for a declared host. */
    method RemoveAnchor(host: Host)
      requires Valid() && host in declarations
      modifies this
      ensures Valid() && declarations == old(declarations) - {host}
      ensures looks == old(looks)[host := Removed(old(looks)[host], old(declarations)[host])]
      ensures old(NoStray()) ==> NoStray()
    {
      attached := attached - {observers[host]};
      observers := observers - {host};
      var d := declarations[host];
      declarations := declarations - {host};
      looks := looks[host := Removed(looks[host], d)];
    }

    method ClearAll()
      requires Valid()
      modifies this
      ensures Valid() && View() == Cleared(old(View())) && (old(NoStray()) ==> NoStray())
    {
      ghost var before := View();
      var rest := declarations.Keys;
      while rest != {}
        invariant Valid() && rest == declarations.Keys
        invariant old(NoStray()) ==> NoStray()
        invariant HalfCleared(before, View())
        decreases rest
      {
        var h :| h in rest;
        ghost var half := View();
        RemoveAnchor(h);
        StillHalfCleared(before, half, h);
        rest := rest - {h};
      }
      assert declarations == map[];
      assert looks == Cleared(before).looks;
    }

    method Declare(t: Target)
      requires Valid() && t.host in looks
      modifies this
      ensures Valid() && View() == Added(sheet, old(View()), t)
      ensures old(NoStray()) && t.host !in old(declarations) ==> NoStray()
    {
      var d := Declared(sheet, t, looks[t.host]);
      declarations := declarations[t.host := d];
      ApplyDeclaration(t.host, d);
      attached := attached[created := Watch(t.host, d)];
      observers := observers[t.host := created];
      created := created + 1;
    }

    /** `setCaptureMotionAnchors`. The two tables keep one domain; with distinct hosts no observer stays
        attached outside them. */
    method SetCaptureMotionAnchors(targets: seq<Target>)
      requires Valid() && OnPage(View(), targets)
      modifies this
      ensures Valid() && View() == Set(sheet, old(View()), targets)
      ensures old(NoStray()) && DistinctHosts(targets) ==> NoStray()
    {
      ClearAll();
      ghost var cleared := View();
      var i := 0;
      while i < |targets|
        invariant 0 <= i <= |targets| && Valid()
        invariant OnPage(cleared, targets) && looks.Keys == cleared.looks.Keys
        invariant View() == AddedAll(sheet, cleared, targets[..i])
        invariant forall h :: h in declarations ==> Names(targets[..i], h)
        invariant old(NoStray()) && DistinctHosts(targets) ==> NoStray()
      {
        OneMore(sheet, cleared, targets, i);
        Declare(targets[i]);
        i := i + 1;
      }
      assert targets[..i] == targets;
    }
  }
}
