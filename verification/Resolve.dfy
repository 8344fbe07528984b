/** From an address to the one element it names (src/commands/catalogDom.ts, `collectExposed` and
    `resolveExposed`): never a guess between several. */
module Resolve {
  import opened JsValues
  import opened Text
  import opened Address

  type Element = nat

  datatype Node = Node(address: string, alias: Option<string>, el: Element)

  /** A marked element as the document shows it: inside a view container, or host chrome that may stand
      in a project plane. */
  datatype Marked =
    | InView(base: string, path: string, el: Element)
    | Chrome(path: string, project: Option<string>, active: bool, el: Element)

  datatype Resolution = Found(el: Element) | NotExposed | Ambiguous

  /** The node one marked element becomes in window `win`. */
  function Expose(win: string, m: Marked): Node {
    match m
    case InView(base, path, el) => Node("win/" + win + "/" + base + "/node/" + path, None, el)
    case Chrome(path, None, _, el) => Node("win/" + win + "/chrome/" + path, None, el)
    case Chrome(path, Some(project), active, el) =>
      Node("win/" + win + "/proj/" + project + "/chrome/" + path,
           if active then Some("win/" + win + "/chrome/" + path) else None, el)
  }

  function Collect(win: string, marked: seq<Marked>): seq<Node> {
    seq(|marked|, i requires 0 <= i < |marked| => Expose(win, marked[i]))
  }

  /** `want.startsWith("win/")`. */
  predicate UnderWin(s: string) {
    |s| >= 4 && s[..4] == "win/"
  }

  function WithWindow(win: string, want: string): string {
    if UnderWin(want) then want else "win/" + win + "/" + want
  }

  predicate Matches(win: string, n: Node, want: string) {
    n.address == want || n.address == WithWindow(win, want)
    || n.alias == Some(want) || n.alias == Some(WithWindow(win, want))
  }

  function Hits(win: string, nodes: seq<Node>, want: string): seq<Node> {
    if |nodes| == 0 then []
    else
      var before, last := Hits(win, nodes[..|nodes| - 1], want), nodes[|nodes| - 1];
      if Matches(win, last, want) then before + [last] else before
  }

  /** What `resolveExposed` answers in window `win`. */
  function Resolved(win: string, nodes: seq<Node>, input: string): Resolution {
    if Parse(input).None? then NotExposed
    else
      var hits := Hits(win, nodes, Strip(input));
      if |hits| == 0 then NotExposed else if |hits| > 1 then Ambiguous else Found(hits[0].el)
  }

  method ResolveExposed(win: string, nodes: seq<Node>, input: string) returns (r: Resolution)
    ensures r == Resolved(win, nodes, input)
  {
    var parsed := ParseAddress(input);
    if parsed.None? { return NotExposed; }
    var want := Strip(input);
    var matches: seq<Node> := [];
    var i := 0;
    while i < |nodes|
      invariant 0 <= i <= |nodes| && matches == Hits(win, nodes[..i], want)
    {
      assert nodes[..i + 1][..i] == nodes[..i] && nodes[..i + 1][i] == nodes[i];
      if Matches(win, nodes[i], want) { matches := matches + [nodes[i]]; }
      i := i + 1;
    }
    assert nodes[..i] == nodes;
    if |matches| == 0 { return NotExposed; }
    if |matches| > 1 { return Ambiguous; }
    r := Found(matches[0].el);
  }

  /** What the document shows is addressed as the grammar prints it: an element of a view below its container,
      and host chrome in its plane; the active plane alone has the shorter form as well. */
  lemma {:induction false} ExposedIsFormatted(win: string, project: string, path: string, el: Element, within: Parts)
    requires win != "" && project != "" && path != ""
    ensures Expose(win, Chrome(path, None, false, el)).address == Format(ChromeParts(win, None, path))
    ensures Expose(win, Chrome(path, Some(project), true, el)).address == Format(ChromeParts(win, Some(project), path))
    ensures Expose(win, Chrome(path, Some(project), true, el)).alias == Some(Format(ChromeParts(win, None, path)))
    ensures within.window.None? && within.chrome.None? && within.node.None? && Pushed(within) != [] ==>
      Expose(win, InView(Format(within), path, el)).address == Format(within.(window := Some(win), node := Some(path)))
  {
    ChromeIsFormatted(win, path);
    PlaneIsFormatted(win, project, path);
    if within.window.None? && within.chrome.None? && within.node.None? && Pushed(within) != [] {
      ViewIsFormatted(win, path, within);
    }
  }

  function ChromeParts(win: string, project: Option<string>, path: string): Parts {
    Parts(Some(win), project, Some(path), None, None, None, None, None)
  }

  lemma {:induction false} ViewIsFormatted(win: string, path: string, within: Parts)
    requires win != "" && path != ""
    requires within.window.None? && within.chrome.None? && within.node.None? && Pushed(within) != []
    ensures "win/" + win + "/" + Format(within) + "/node/" + path
         == Format(within.(window := Some(win), node := Some(path)))
  {
    var p := Pushed(within);
    assert Pushed(within.(window := Some(win), node := Some(path))) == ["win", win] + (p + ["node", path]);
    BehindWindow(win, p + ["node", path]);
    JoinAcross('/', p, ["node", path]);
    PairJoins("node", path);
    var base := Format(within);
    assert "win/" + win + "/" + base + "/node/" + path == "win/" + win + "/" + (base + "/" + ("node" + "/" + path));
  }

  lemma {:induction false} BehindWindow(win: string, rest: seq<string>)
    requires rest != []
    ensures Join('/', ["win", win] + rest) == "win/" + win + "/" + Join('/', rest)
  {
    JoinAcross('/', ["win", win], rest);
    PairJoins("win", win);
  }

  lemma PairJoins(a: string, b: string)
    ensures Join('/', [a, b]) == a + "/" + b
  {
    assert [a, b][1..] == [b];
  }

  lemma {:induction false} ChromeIsFormatted(win: string, path: string)
    requires win != "" && path != ""
    ensures Format(ChromeParts(win, None, path)) == "win/" + win + "/chrome/" + path
  {
    assert Pushed(ChromeParts(win, None, path)) == ["win", win] + ["chrome", path];
    BehindWindow(win, ["chrome", path]);
    PairJoins("chrome", path);
    assert "win/" + win + "/" + ("chrome" + "/" + path) == "win/" + win + "/chrome/" + path;
  }

  lemma {:induction false} PlaneIsFormatted(win: string, project: string, path: string)
    requires win != "" && project != "" && path != ""
    ensures Format(ChromeParts(win, Some(project), path)) == "win/" + win + "/proj/" + project + "/chrome/" + path
  {
    var rest := ["proj", project] + ["chrome", path];
    assert Pushed(ChromeParts(win, Some(project), path)) == ["win", win] + rest;
    BehindWindow(win, rest);
    JoinAcross('/', ["proj", project], ["chrome", path]);
    PairJoins("proj", project);
    PairJoins("chrome", path);
    assert "win/" + win + "/" + ("proj" + "/" + project + "/" + ("chrome" + "/" + path))
        == "win/" + win + "/proj/" + project + "/chrome/" + path;
  }

  // ---------------------------------------------------------------- exactly one

  /** Node `i` matches, no other does, and it is `el`. */
  ghost predicate OnlyMatch(win: string, nodes: seq<Node>, want: string, i: nat, el: Element) {
    && i < |nodes| && Matches(win, nodes[i], want) && nodes[i].el == el
    && forall j :: 0 <= j < |nodes| && j != i ==> !Matches(win, nodes[j], want)
  }

  lemma {:induction false} NoHits(win: string, nodes: seq<Node>, want: string)
    ensures |Hits(win, nodes, want)| == 0 <==> forall i :: 0 <= i < |nodes| ==> !Matches(win, nodes[i], want)
  {
    if |nodes| == 0 {
    } else {
      var n := |nodes| - 1;
      NoHits(win, nodes[..n], want);
      assert forall i :: 0 <= i < n ==> nodes[..n][i] == nodes[i];
    }
  }

  lemma {:induction false} OneHitIsOnlyMatch(win: string, nodes: seq<Node>, want: string) returns (i: nat)
    requires |Hits(win, nodes, want)| == 1
    ensures OnlyMatch(win, nodes, want, i, Hits(win, nodes, want)[0].el)
  {
    var n := |nodes| - 1;
    var front := nodes[..n];
    assert forall j :: 0 <= j < n ==> front[j] == nodes[j];
    if Matches(win, nodes[n], want) {
      NoHits(win, front, want);
      i := n;
    } else {
      i := OneHitIsOnlyMatch(win, front, want);
    }
  }

  lemma {:induction false} OnlyMatchIsOneHit(win: string, nodes: seq<Node>, want: string, i: nat, el: Element)
    requires OnlyMatch(win, nodes, want, i, el)
    ensures |Hits(win, nodes, want)| == 1 && Hits(win, nodes, want)[0].el == el
  {
    var n := |nodes| - 1;
    var front := nodes[..n];
    assert forall j :: 0 <= j < n ==> front[j] == nodes[j];
    if i == n {
      NoHits(win, front, want);
    } else {
      OnlyMatchIsOneHit(win, front, want, i, el);
    }
  }

  /** An element is returned exactly when the address reads and precisely one node answers to it. */
  lemma {:induction false} FoundExactlyOne(win: string, nodes: seq<Node>, input: string, el: Element)
    ensures Resolved(win, nodes, input) == Found(el) <==>
      Parse(input).Some? && exists i: nat :: OnlyMatch(win, nodes, Strip(input), i, el)
  {
    var want := Strip(input);
    if |Hits(win, nodes, want)| == 1 { var i := OneHitIsOnlyMatch(win, nodes, want); }
    if exists i: nat :: OnlyMatch(win, nodes, want, i, el) {
      var i: nat :| OnlyMatch(win, nodes, want, i, el);
      OnlyMatchIsOneHit(win, nodes, want, i, el);
    }
  }

  // ---------------------------------------------------------------- every node by its own address

  lemma AddressesAreUnderWin(win: string, marked: seq<Marked>)
    ensures forall n :: n in Collect(win, marked) ==> UnderWin(n.address) && (n.alias.Some? ==> UnderWin(n.alias.value))
  {
  }

  /** The addressing axiom: canonical addresses differ, and no alias is one of them. */
  ghost predicate Canonical(nodes: seq<Node>) {
    && (forall i, j :: 0 <= i < j < |nodes| ==> nodes[i].address != nodes[j].address)
    && (forall i, j :: 0 <= i < |nodes| && 0 <= j < |nodes| ==> nodes[i].alias != Some(nodes[j].address))
  }

  /** No element is collected twice. */
  ghost predicate DistinctElements(nodes: seq<Node>) {
    forall i, j :: 0 <= i < j < |nodes| ==> nodes[i].el != nodes[j].el
  }

  lemma {:induction false} NoSlashAtEnd(s: string)
    ensures StripRight(s) == "" || StripRight(s)[|StripRight(s)| - 1] != '/'
  {
    if |s| == 0 || s[|s| - 1] != '/' {
    } else {
      NoSlashAtEnd(s[..|s| - 1]);
    }
  }

  /** An alias ends like the address it abbreviates. */
  lemma AliasEndsAlike(win: string, m: Marked)
    ensures var n := Expose(win, m);
      |n.address| > 0 && (n.alias.Some? ==>
        |n.alias.value| > 0 && (n.alias.value[|n.alias.value| - 1] == '/' <==> n.address[|n.address| - 1] == '/'))
  {
    if m.Chrome? && m.project.Some? && m.path != "" {
      var a, b := "win/" + win + "/proj/" + m.project.value + "/chrome/", "win/" + win + "/chrome/";
      assert (a + m.path)[|a + m.path| - 1] == m.path[|m.path| - 1] == (b + m.path)[|b + m.path| - 1];
    }
  }

  lemma {:induction false} BareAddressMatchesItself(win: string, marked: seq<Marked>, i: nat)
    requires i < |marked| && Canonical(Collect(win, marked))
    requires Expose(win, marked[i]).address[|Expose(win, marked[i]).address| - 1] != '/'
    ensures var address := Expose(win, marked[i]).address;
      Strip(address) == address && OnlyMatch(win, Collect(win, marked), address, i, marked[i].el)
  {
    var nodes := Collect(win, marked);
    var address := nodes[i].address;
    AddressesAreUnderWin(win, marked);
    assert nodes[i] in nodes && WithWindow(win, address) == address;
    assert address[0] == address[..4][0] == 'w';
  }

  lemma {:induction false} SlashedAddressMisses(win: string, m: Marked)
    requires Expose(win, m).address[|Expose(win, m).address| - 1] == '/'
    ensures !Matches(win, Expose(win, m), Strip(Expose(win, m).address))
  {
    var n := Expose(win, m);
    var want := Strip(n.address);
    NoSlashAtEnd(StripLeft(n.address));
    WantEndsBare(win, want);
    AliasEndsAlike(win, m);
  }

  lemma {:induction false} SlashedAddressIsNotFound(win: string, marked: seq<Marked>, i: nat)
    requires i < |marked| && DistinctElements(Collect(win, marked))
    requires Expose(win, marked[i]).address[|Expose(win, marked[i]).address| - 1] == '/'
    ensures !exists j: nat :: OnlyMatch(win, Collect(win, marked), Strip(Expose(win, marked[i]).address), j, marked[i].el)
  {
    var nodes := Collect(win, marked);
    SlashedAddressMisses(win, marked[i]);
    assert nodes[i] == Expose(win, marked[i]) && nodes[i].el == marked[i].el;
    forall j: nat ensures !OnlyMatch(win, nodes, Strip(nodes[i].address), j, marked[i].el) {
      if j < |nodes| && j != i { assert nodes[j].el != nodes[i].el; }
    }
  }

  /** Under the axiom an address that reads resolves to its own element, exactly unless its path was
      written with a slash at the end: reading forgives that slash, comparing does not. */
  lemma {:induction false} OwnAddressResolves(win: string, marked: seq<Marked>, i: nat)
    requires i < |marked| && Canonical(Collect(win, marked))
    requires Parse(Expose(win, marked[i]).address).Some?
    ensures var address, nodes := Expose(win, marked[i]).address, Collect(win, marked);
      && (address[|address| - 1] != '/' ==> Resolved(win, nodes, address) == Found(marked[i].el))
      && (DistinctElements(nodes) ==>
            (Resolved(win, nodes, address) == Found(marked[i].el) <==> address[|address| - 1] != '/'))
  {
    var nodes := Collect(win, marked);
    var address := nodes[i].address;
    FoundExactlyOne(win, nodes, address, marked[i].el);
    if address[|address| - 1] != '/' {
      BareAddressMatchesItself(win, marked, i);
    } else if DistinctElements(nodes) {
      SlashedAddressIsNotFound(win, marked, i);
    }
  }

  /** Host chrome marked "x/": its own address reads, and finds nothing. */
  lemma {:induction false} SlashedChromeIsNotExposed()
    ensures var marked := [Chrome("x/", None, false, 0)];
      Parse(Expose("main", marked[0]).address).Some?
      && Resolved("main", Collect("main", marked), Expose("main", marked[0]).address) == NotExposed
  {
    var marked := [Chrome("x/", None, false, 0)];
    var bare := Expose("main", Chrome("x", None, false, 0)).address;
    var address := Expose("main", marked[0]).address;
    assert address == bare + "/";
    ChromeXReads();
    StripSlashed(bare);
    ParseOfStrip(bare);
    ParseOfStrip(address);
    FoundExactlyOne("main", Collect("main", marked), address, 0);
    SlashedAddressIsNotFound("main", marked, 0);
    assert |Hits("main", Collect("main", marked), Strip(address))| <= 1;
  }

  lemma {:induction false} ChromeXReads()
    ensures Parse(Expose("main", Chrome("x", None, false, 0)).address).Some?
  {
    var s := "chrome" + "/" + "x";
    SplitPlain('/', "chrome");
    SplitPlain('/', "x");
    SplitAcross('/', "chrome", "x");
    assert ["win", "main"] + ["chrome", "x"] == ["win", "main", "chrome", "x"];
    ParseUnder("main", s);
    ReadsChromeX();
    AddressOfChrome("main", "x");
  }

  lemma {:induction false} AddressOfChrome(win: string, path: string)
    ensures Expose(win, Chrome(path, None, false, 0)).address == "win/" + win + "/" + ("chrome" + "/" + path)
  {
  }

  lemma {:induction false} ReadsChromeX()
    ensures ReadWindow(["win", "main", "chrome", "x"]).Some?
  {
    SplitPlain('/', "x");
    assert SegOk("x") && PathOk("x") && SegOk("main");
    var segs := ["chrome", "x"];
    assert segs[1..] == ["x"] && Join('/', ["x"]) == "x";
    assert ["win", "main", "chrome", "x"][2..] == segs;
    assert ReadChrome(segs, NOTHING.(window := Some("main"))).Some?;
  }

  lemma WantEndsBare(win: string, want: string)
    requires want == "" || want[|want| - 1] != '/'
    ensures want != "" ==> WithWindow(win, want)[|WithWindow(win, want)| - 1] != '/'
    ensures want == "" ==> !UnderWin(want)
  {
  }

  // ---------------------------------------------------------------- spellings of one address

  /** What an input reads as depends on its text between the outer slashes only. */
  lemma {:induction false} ParseOfStrip(s: string)
    ensures Parse(s) == ReadWindow(Split('/', Strip(s)))
  {
    if Blank(s) {
      StripIsInside(s);
      assert '/' !in s;
      SplitPlain('/', s);
    }
  }

  lemma {:induction false} StripSlashed(s: string)
    ensures Strip("/" + s) == Strip(s) && Strip(s + "/") == Strip(s)
  {
    assert ("/" + s)[1..] == s;
    SlashAfter(s);
  }

  lemma {:induction false} SlashAfter(s: string)
    ensures StripRight(StripLeft(s + "/")) == StripRight(StripLeft(s))
  {
    if |s| > 0 && s[0] == '/' {
      assert (s + "/")[1..] == s[1..] + "/";
      SlashAfter(s[1..]);
    } else if |s| == 0 {
      assert s + "/" == "/" && "/"[1..] == "";
    } else {
      assert (s + "/")[..|s|] == s;
    }
  }

  /** Outer slashes never change the answer. */
  lemma {:induction false} OuterSlashesAreIgnored(win: string, nodes: seq<Node>, s: string)
    ensures Resolved(win, nodes, "/" + s) == Resolved(win, nodes, s) == Resolved(win, nodes, s + "/")
  {
    StripSlashed(s);
    ParseOfStrip(s);
    ParseOfStrip("/" + s);
    ParseOfStrip(s + "/");
  }

  /** Reading on from the window treats what follows alike, whatever the window. */
  lemma {:induction false} WindowIsCarried(segs: seq<string>, out: Parts, window: Option<string>)
    ensures ReadProject(segs, out.(window := window)).Some? <==> ReadProject(segs, out).Some?
  {
  }

  lemma {:induction false} SplitAnyWindow(win: string, s: string)
    requires NoSlash(win)
    ensures Split('/', "win/" + win + "/" + s) == ["win", win] + Split('/', s)
  {
    SplitPlain('/', "win");
    SplitPlain('/', win);
    SplitAcross('/', "win/" + win, s);
    SplitAcross('/', "win", win);
    assert "win/" + win == "win" + "/" + win;
    assert "win/" + win + "/" + s == ("win/" + win) + "/" + s;
  }

  lemma {:induction false} UnderWindowIsStripped(win: string, s: string)
    requires s != "" && Strip(s) == s
    ensures Strip("win/" + win + "/" + s) == "win/" + win + "/" + s
  {
    NoSlashAtEnd(s);
    EndsAsStripped(s);
  }

  /** An address under a label is read from the label's segments on. */
  lemma {:induction false} ParseUnder(win: string, s: string)
    requires NoSlash(win) && s != "" && Strip(s) == s
    ensures Parse("win/" + win + "/" + s) == ReadWindow(["win", win] + Split('/', s))
  {
    SplitAnyWindow(win, s);
    UnderWindowIsStripped(win, s);
    ParseOfStrip("win/" + win + "/" + s);
  }

  lemma {:induction false} ReadUnder(win: string, segs: seq<string>)
    requires |segs| > 0 && segs[0] != "win"
    ensures ReadWindow(["win", win] + segs).Some? <==> SegOk(win) && ReadWindow(segs).Some?
  {
    assert (["win", win] + segs)[2..] == segs;
    WindowIsCarried(segs, NOTHING, Some(win));
  }

  lemma {:induction false} FirstSegment(s: string)
    requires !UnderWin(s) && Split('/', s)[0] == "win"
    ensures s == "win"
  {
    JoinSplit('/', s);
  }

  lemma {:induction false} WinAlone(win: string)
    ensures ReadWindow(["win", win] + ["win"]).None? && ReadWindow(["win"]).None?
  {
    assert (["win", win] + ["win"])[2..] == ["win"];
  }

  lemma {:induction false} ParseUnderWindow(win: string, s: string)
    requires NoSlash(win) && s != "" && Strip(s) == s && !UnderWin(s)
    ensures Parse("win/" + win + "/" + s).Some? <==> SegOk(win) && Parse(s).Some?
  {
    ParseUnder(win, s);
    ParseOfStrip(s);
    if Split('/', s)[0] == "win" {
      FirstSegment(s);
      SplitPlain('/', s);
      WinAlone(win);
    } else {
      ReadUnder(win, Split('/', s));
    }
  }

  lemma {:induction false} EndsAsStripped(s: string)
    requires Strip(s) == s && s != ""
    ensures s[|s| - 1] != '/'
  {
    NoSlashAtEnd(StripLeft(s));
  }

  lemma {:induction false} SameHits(win: string, nodes: seq<Node>, a: string, b: string)
    requires forall i :: 0 <= i < |nodes| ==> (Matches(win, nodes[i], a) <==> Matches(win, nodes[i], b))
    ensures Hits(win, nodes, a) == Hits(win, nodes, b)
  {
    if |nodes| == 0 {
    } else {
      var n := |nodes| - 1;
      assert forall i :: 0 <= i < n ==> nodes[..n][i] == nodes[i];
      SameHits(win, nodes[..n], a, b);
    }
  }

  /** Some marked element answers to this text. */
  predicate Answers(win: string, marked: seq<Marked>, s: string) {
    exists i :: 0 <= i < |marked| && Matches(win, Expose(win, marked[i]), s)
  }

  lemma {:induction false} ExposedExactly(win: string, marked: seq<Marked>, s: string)
    requires Strip(s) == s
    ensures Resolved(win, Collect(win, marked), s) == NotExposed <==> Parse(s).None? || !Answers(win, marked, s)
  {
    var nodes := Collect(win, marked);
    NoHits(win, nodes, s);
    assert forall i :: 0 <= i < |marked| ==> nodes[i] == Expose(win, marked[i]);
  }

  /** Leaving out `win/<current>` changes the answer exactly when the current label cannot stand in an address,
      as the empty one outside a window host, and the shorter address reads and some element answers to it. */
  lemma {:induction false} CurrentWindowMayBeOmitted(win: string, marked: seq<Marked>, s: string)
    requires NoSlash(win) && s != "" && Strip(s) == s && !UnderWin(s)
    ensures Resolved(win, Collect(win, marked), s) == Resolved(win, Collect(win, marked), "win/" + win + "/" + s) <==>
      SegOk(win) || Parse(s).None? || !Answers(win, marked, s)
  {
    var nodes, full := Collect(win, marked), "win/" + win + "/" + s;
    ParseUnderWindow(win, s);
    ExposedExactly(win, marked, s);
    if SegOk(win) {
      UnderWindowIsStripped(win, s);
      AddressesAreUnderWin(win, marked);
      assert UnderWin(full);
      forall i | 0 <= i < |nodes| ensures Matches(win, nodes[i], s) <==> Matches(win, nodes[i], full) {
        assert nodes[i] in nodes;
      }
      SameHits(win, nodes, s, full);
    }
  }

  lemma AppendedAlike(a: string, b: string, c: string)
    requires a + b == a + c
    ensures b == c
  {
    assert (a + b)[|a|..] == b && (a + c)[|a|..] == c;
  }

  /** Leaving out the project means the active plane: chrome in no plane, or in the active one, answers to its
      path alone, and chrome in another plane does not. */
  lemma {:induction false} BareChromeIsActive(win: string, m: Marked, path: string)
    requires m.Chrome?
    ensures Matches(win, Expose(win, m), "chrome/" + path) <==> m.path == path && (m.project.None? || m.active)
  {
    var want, home := "chrome/" + path, "win/" + win + "/";
    var full := home + want;
    assert want[0] == 'c' && !UnderWin(want) && WithWindow(win, want) == full;
    var short := "win/" + win + "/chrome/" + m.path;
    assert short == home + ("chrome/" + m.path);
    assert short[0] == 'w' && short != want;
    if short == full {
      AppendedAlike(home, want, "chrome/" + m.path);
      AppendedAlike("chrome/", path, m.path);
    }
    if m.project.Some? {
      var long := "win/" + win + "/proj/" + m.project.value + "/chrome/" + m.path;
      assert long == home + ("proj/" + m.project.value + "/chrome/" + m.path);
      assert long[|home|] == 'p' && full[|home|] == 'c' && long[0] == 'w';
    }
  }

  /** Outside a window host: host chrome marked "x" answers to `chrome/x` and not to the longer address. */
  lemma {:induction false} EmptyLabelIsNotRead()
    ensures var marked := [Chrome("x", None, false, 0)];
      && Resolved("", Collect("", marked), "chrome/x") == Found(0)
      && Resolved("", Collect("", marked), "win/" + "" + "/" + "chrome/x") == NotExposed
  {
    BareChromeReads();
    ParseUnderWindow("", "chrome/x");
    ChromeAnswersToBare("", "x", "chrome/x");
    var marked := [Chrome("x", None, false, 0)];
    assert Collect("", marked) == [Expose("", marked[0])];
    SoleHit("", Expose("", marked[0]), "chrome/x");
  }

  lemma {:induction false} SoleHit(win: string, n: Node, want: string)
    requires Matches(win, n, want)
    ensures Hits(win, [n], want) == [n]
  {
    assert [n][..0] == [];
  }

  lemma {:induction false} ChromeAnswersToBare(win: string, path: string, s: string)
    requires s == "chrome/" + path
    ensures Matches(win, Expose(win, Chrome(path, None, false, 0)), s)
  {
    assert s[0] == 'c' && "/chrome/" + path == "/" + s;
    assert "win/" + win + "/chrome/" + path == "win/" + win + ("/chrome/" + path) == "win/" + win + "/" + s;
  }

  lemma {:induction false} BareChromeReads()
    ensures Strip("chrome/x") == "chrome/x" && Parse("chrome/x").Some? && !UnderWin("chrome/x")
  {
    var s := "chrome" + "/" + "x";
    assert s == "chrome/x";
    ParseOfStrip(s);
    ChromeXSplits();
    ReadsChrome();
  }

  lemma {:induction false} ChromeXSplits()
    ensures Split('/', "chrome" + "/" + "x") == ["chrome", "x"]
  {
    SplitPlain('/', "chrome");
    SplitPlain('/', "x");
    SplitAcross('/', "chrome", "x");
  }

  lemma {:induction false} ReadsChrome()
    ensures ReadWindow(["chrome", "x"]).Some?
  {
    SplitPlain('/', "x");
    assert SegOk("x") && PathOk("x");
    assert ["chrome", "x"][1..] == ["x"] && Join('/', ["x"]) == "x";
    assert ReadChrome(["chrome", "x"], NOTHING).Some?;
  }
}
