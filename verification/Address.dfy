/** DOM addresses (src/commands/address.ts): the reader and the printer of structural paths. */
module Address {
  import opened JsValues
  import opened Text

  // ---------------------------------------------------------------- slashes

  function StripLeft(s: string): string {
    if |s| > 0 && s[0] == '/' then StripLeft(s[1..]) else s
  }

  function StripRight(s: string): string {
    if |s| > 0 && s[|s| - 1] == '/' then StripRight(s[..|s| - 1]) else s
  }

  /** `s.replace(/^\/+|\/+$/g, "")`. */
  function Strip(s: string): string {
    StripRight(StripLeft(s))
  }

  predicate Slashes(s: string) {
    forall i :: 0 <= i < |s| ==> s[i] == '/'
  }

  /** What is stripped is every slash at either end, and nothing else. */
  lemma {:induction false} StripTakesSlashes(s: string) returns (a: string, b: string)
    ensures Slashes(a) && Slashes(b) && s == a + Strip(s) + b
    ensures Strip(s) != "" ==> Strip(s)[0] != '/' && Strip(s)[|Strip(s)| - 1] != '/'
  {
    a := StripLeftTakes(s);
    b := StripRightTakes(StripLeft(s));
  }

  lemma {:induction false} StripLeftTakes(s: string) returns (a: string)
    ensures Slashes(a) && s == a + StripLeft(s) && (StripLeft(s) != "" ==> StripLeft(s)[0] != '/')
  {
    if |s| == 0 || s[0] != '/' {
      a := "";
    } else {
      a := StripLeftTakes(s[1..]);
      a := "/" + a;
    }
  }

  lemma {:induction false} StripRightTakes(s: string) returns (b: string)
    ensures Slashes(b) && s == StripRight(s) + b
    ensures StripRight(s) != "" ==> StripRight(s)[|StripRight(s)| - 1] != '/'
  {
    if |s| == 0 || s[|s| - 1] != '/' {
      b := "";
    } else {
      b := StripRightTakes(s[..|s| - 1]);
      b := b + "/";
    }
  }

  // ---------------------------------------------------------------- structure

  /** Absent fields are None; a present field may still be malformed. */
  datatype Parts = Parts(
    window: Option<string>, project: Option<string>, chrome: Option<string>, region: Option<string>,
    pane: Option<string>, view: Option<string>, tab: Option<string>, node: Option<string>)

  const NOTHING: Parts := Parts(None, None, None, None, None, None, None, None)

  const REGIONS: set<string> := {"left", "content", "right"}

  predicate LowerOrDigit(c: char) {
    'a' <= c <= 'z' || '0' <= c <= '9'
  }

  /** `/^[a-z0-9][a-z0-9.-]*$/`. */
  predicate SegOk(s: string) {
    |s| > 0 && LowerOrDigit(s[0]) && forall i :: 0 <= i < |s| ==> LowerOrDigit(s[i]) || s[i] == '.' || s[i] == '-'
  }

  /** `NODE_PATH_RE`: segments joined by slashes. */
  predicate PathOk(s: string) {
    forall i :: 0 <= i < |Split('/', s)| ==> SegOk(Split('/', s)[i])
  }

  predicate PaneOk(s: string) {
    s == "active" || (|s| > 0 && forall i :: 0 <= i < |s| ==> '0' <= s[i] <= '9')
  }

  predicate ViewOk(s: string) {
    SegOk(s) && '.' in s
  }

  predicate ProjectOk(s: string) {
    |s| > 0
  }

  // ---------------------------------------------------------------- the printer

  function Named(keyword: string, field: Option<string>): seq<string> {
    if field.Some? && field.value != "" then [keyword, field.value] else []
  }

  /** The pieces `formatAddress` pushes. */
  function Pushed(p: Parts): seq<string> {
    Named("win", p.window) +
    if p.chrome.Some? && p.chrome.value != "" then Named("proj", p.project) + ["chrome", p.chrome.value]
    else
      Named("proj", p.project) + (if p.region.Some? && p.region.value != "" then [p.region.value] else [])
      + Named("pane", p.pane) + Named("view", p.view) + Named("tab", p.tab) + Named("node", p.node)
  }

  /** `formatAddress`. */
  function Format(p: Parts): string {
    Join('/', Pushed(p))
  }

  /** The two forms of the grammar in full. */
  lemma PrintsTheViewForm(
    win: string, proj: string, region: string, pane: string, view: string, tab: string, node: string)
    requires win != "" && proj != "" && region != "" && pane != "" && view != "" && tab != "" && node != ""
    ensures Pushed(Parts(Some(win), Some(proj), None, Some(region), Some(pane), Some(view), Some(tab), Some(node)))
         == ["win", win, "proj", proj, region, "pane", pane, "view", view, "tab", tab, "node", node]
    ensures Pushed(Parts(None, None, None, Some(region), None, Some(view), None, Some(node)))
         == [region, "view", view, "node", node]
  {
  }

  lemma PrintsTheChromeForm(win: string, proj: string, chrome: string)
    requires win != "" && proj != "" && chrome != ""
    ensures Pushed(Parts(Some(win), Some(proj), Some(chrome), None, None, None, None, None))
         == ["win", win, "proj", proj, "chrome", chrome]
    ensures Pushed(Parts(None, None, Some(chrome), None, None, None, None, None)) == ["chrome", chrome]
  {
  }

  /** Tokens the documentation and the tests name. */
  lemma TokensOfTheGrammar()
    ensures REGIONS == {"left", "content", "right"}
    ensures PaneOk("active") && PaneOk("0") && PaneOk("9") && !PaneOk("x") && !PaneOk("")
    ensures SegOk("az.b-09") && SegOk("09") && SegOk("z")
    ensures !SegOk("A") && !SegOk("-a") && !SegOk(".a") && !SegOk("a b") && !SegOk("")
    ensures ViewOk("x.y") && !ViewOk("noplugin") && ProjectOk("p") && !ProjectOk("")
  {
    assert "x"[0] == 'x' && "a b"[1] == ' ';
  }

  // ---------------------------------------------------------------- the reader, stage by stage

  /** An optional `keyword/<value>` at the front, then the rest. None when the value is bad. */
  datatype Reading = Bad | Read(field: Option<string>, rest: seq<string>)

  function ReadNamed(keyword: string, ok: string -> bool, segs: seq<string>): Reading {
    if |segs| == 0 || segs[0] != keyword then Read(None, segs)
    else if |segs| > 1 && ok(segs[1]) then Read(Some(segs[1]), segs[2..])
    else Bad
  }

  /** `keyword/<path...>` up to the end. */
  function ReadPath(segs: seq<string>): Option<string> {
    var path := Join('/', segs[if |segs| == 0 then 0 else 1..]);
    if path != "" && PathOk(path) then Some(path) else None
  }

  function ReadNode(segs: seq<string>, out: Parts): Option<Parts> {
    if |segs| == 0 then Some(out)
    else if segs[0] != "node" then None
    else match ReadPath(segs) case None => None case Some(path) => Some(out.(node := Some(path)))
  }

  function ReadTab(segs: seq<string>, out: Parts): Option<Parts> {
    match ReadNamed("tab", SegOk, segs)
    case Bad => None
    case Read(field, rest) =>
      if field.Some? && out.view.None? then None else ReadNode(rest, out.(tab := field))
  }

  function ReadView(segs: seq<string>, out: Parts): Option<Parts> {
    match ReadNamed("view", ViewOk, segs)
    case Bad => None
    case Read(field, rest) => ReadTab(rest, out.(view := field))
  }

  function ReadPane(segs: seq<string>, out: Parts): Option<Parts> {
    match ReadNamed("pane", PaneOk, segs)
    case Bad => None
    case Read(field, rest) => ReadView(rest, out.(pane := field))
  }

  function ReadRegion(segs: seq<string>, out: Parts): Option<Parts> {
    if |segs| > 0 && segs[0] in REGIONS then ReadPane(segs[1..], out.(region := Some(segs[0])))
    else ReadPane(segs, out)
  }

  function ReadChrome(segs: seq<string>, out: Parts): Option<Parts> {
    if |segs| == 0 || segs[0] != "chrome" then ReadRegion(segs, out)
    else match ReadPath(segs) case None => None case Some(path) => Some(out.(chrome := Some(path)))
  }

  function ReadProject(segs: seq<string>, out: Parts): Option<Parts> {
    match ReadNamed("proj", ProjectOk, segs)
    case Bad => None
    case Read(field, rest) => ReadChrome(rest, out.(project := field))
  }

  function ReadWindow(segs: seq<string>): Option<Parts> {
    match ReadNamed("win", SegOk, segs)
    case Bad => None
    case Read(field, rest) => if |rest| == 0 then None else ReadProject(rest, NOTHING.(window := field))
  }

  /** The characters `trim` removes. */
  predicate IsSpace(c: char) {
    var n := c as int;
    9 <= n <= 13 || n == 0x20 || n == 0xA0 || n == 0x1680 || 0x2000 <= n <= 0x200A
    || n == 0x2028 || n == 0x2029 || n == 0x202F || n == 0x205F || n == 0x3000 || n == 0xFEFF
  }

  predicate Blank(s: string) {
    forall i :: 0 <= i < |s| ==> IsSpace(s[i])
  }

  /** What `parseAddress` answers; None for its error. */
  function Parse(input: string): Option<Parts> {
    if Blank(input) then None else ReadWindow(Split('/', Strip(input)))
  }

  // ---------------------------------------------------------------- well-formed structures

  predicate FieldOk(field: Option<string>, ok: string -> bool) {
    field.Some? ==> ok(field.value)
  }

  predicate NoSlash(s: string) {
    '/' !in s
  }

  predicate WellFormed(p: Parts) {
    && FieldOk(p.window, SegOk)
    && FieldOk(p.project, s => ProjectOk(s) && NoSlash(s))
    && FieldOk(p.chrome, PathOk) && FieldOk(p.region, s => s in REGIONS) && FieldOk(p.pane, PaneOk)
    && FieldOk(p.view, ViewOk) && FieldOk(p.tab, SegOk) && FieldOk(p.node, PathOk)
    && (p.chrome.Some? ==> p.region.None? && p.pane.None? && p.view.None? && p.node.None?)
    && (p.tab.Some? ==> p.view.Some?)
    && NOTHING.(window := p.window) != p
  }

  // The pieces a well-formed structure is split into, from each stage on.

  function Field(keyword: string, field: Option<string>): seq<string> {
    match field case None => [] case Some(value) => [keyword, value]
  }

  function PathField(keyword: string, field: Option<string>): seq<string> {
    match field case None => [] case Some(path) => [keyword] + Split('/', path)
  }

  function NodeSegs(p: Parts): seq<string> { PathField("node", p.node) }

  function TabSegs(p: Parts): seq<string> { Field("tab", p.tab) + NodeSegs(p) }

  function ViewSegs(p: Parts): seq<string> { Field("view", p.view) + TabSegs(p) }

  function PaneSegs(p: Parts): seq<string> { Field("pane", p.pane) + ViewSegs(p) }

  function RegionSegs(p: Parts): seq<string> {
    (match p.region case None => [] case Some(name) => [name]) + PaneSegs(p)
  }

  function ChromeSegs(p: Parts): seq<string> {
    if p.chrome.Some? then PathField("chrome", p.chrome) else RegionSegs(p)
  }

  function ProjectSegs(p: Parts): seq<string> { Field("proj", p.project) + ChromeSegs(p) }

  function Segs(p: Parts): seq<string> { Field("win", p.window) + ProjectSegs(p) }

  // ---------------------------------------------------------------- reading back what was printed

  lemma {:induction false} PathIsRead(keyword: string, path: string)
    requires PathOk(path)
    ensures ReadPath(PathField(keyword, Some(path))) == Some(path)
  {
    JoinSplit('/', path);
    assert PathField(keyword, Some(path))[1..] == Split('/', path);
    assert path != "" by { assert SegOk(Split('/', path)[0]); }
  }

  lemma {:induction false} NamedIsRead(keyword: string, ok: string -> bool, field: Option<string>, rest: seq<string>)
    requires FieldOk(field, ok) && (field.None? ==> |rest| == 0 || rest[0] != keyword)
    ensures ReadNamed(keyword, ok, Field(keyword, field) + rest) == Read(field, rest)
  {
    if field.Some? {
      assert (Field(keyword, field) + rest)[2..] == rest;
    } else {
      assert Field(keyword, field) + rest == rest;
    }
  }

  lemma {:induction false} NodeIsRead(p: Parts, out: Parts)
    requires WellFormed(p) && out.node.None?
    ensures ReadNode(NodeSegs(p), out) == Some(out.(node := p.node))
  {
    if p.node.Some? { PathIsRead("node", p.node.value); }
  }

  lemma {:induction false} TabIsRead(p: Parts, out: Parts)
    requires WellFormed(p) && out.tab.None? && out.node.None? && out.view == p.view
    ensures ReadTab(TabSegs(p), out) == Some(out.(tab := p.tab, node := p.node))
  {
    NamedIsRead("tab", SegOk, p.tab, NodeSegs(p));
    NodeIsRead(p, out.(tab := p.tab));
  }

  lemma {:induction false} ViewIsRead(p: Parts, out: Parts)
    requires WellFormed(p) && out.view.None? && out.tab.None? && out.node.None?
    ensures ReadView(ViewSegs(p), out) == Some(out.(view := p.view, tab := p.tab, node := p.node))
  {
    assert TabSegs(p) == [] || TabSegs(p)[0] in {"tab", "node"};
    NamedIsRead("view", ViewOk, p.view, TabSegs(p));
    TabIsRead(p, out.(view := p.view));
  }

  lemma {:induction false} PaneIsRead(p: Parts, out: Parts)
    requires WellFormed(p) && out.pane.None? && out.view.None? && out.tab.None? && out.node.None?
    ensures ReadPane(PaneSegs(p), out) == Some(out.(pane := p.pane, view := p.view, tab := p.tab, node := p.node))
  {
    assert ViewSegs(p) == [] || ViewSegs(p)[0] in {"view", "tab", "node"};
    NamedIsRead("pane", PaneOk, p.pane, ViewSegs(p));
    ViewIsRead(p, out.(pane := p.pane));
  }

  lemma {:induction false} PaneSegsHead(p: Parts)
    ensures PaneSegs(p) == [] || PaneSegs(p)[0] in {"pane", "view", "tab", "node"}
  {
  }

  lemma {:induction false} RegionSegsAre(p: Parts)
    ensures p.region.Some? ==> RegionSegs(p) == [p.region.value] + PaneSegs(p)
    ensures p.region.None? ==> RegionSegs(p) == PaneSegs(p)
  {
  }

  lemma {:induction false} NamedRegionIsRead(name: string, rest: seq<string>, out: Parts)
    requires name in REGIONS
    ensures ReadRegion([name] + rest, out) == ReadPane(rest, out.(region := Some(name)))
  {
    assert ([name] + rest)[1..] == rest;
  }

  lemma {:induction false} NoRegionIsRead(segs: seq<string>, out: Parts)
    requires segs == [] || segs[0] in {"pane", "view", "tab", "node"}
    ensures ReadRegion(segs, out) == ReadPane(segs, out)
  {
  }

  lemma {:induction false} RegionIsRead(p: Parts)
    requires WellFormed(p) && p.chrome.None?
    ensures ReadRegion(RegionSegs(p), NOTHING.(window := p.window, project := p.project)) == Some(p)
  {
    var out := NOTHING.(window := p.window, project := p.project);
    PaneIsRead(p, out.(region := p.region));
    if p.region.Some? {
      NamedRegionIsRead(p.region.value, PaneSegs(p), out);
    } else {
      PaneSegsHead(p);
      RegionSegsAre(p);
      NoRegionIsRead(PaneSegs(p), out);
    }
  }

  lemma {:induction false} ChromeIsRead(p: Parts)
    requires WellFormed(p)
    ensures ReadChrome(ChromeSegs(p), NOTHING.(window := p.window, project := p.project)) == Some(p)
  {
    if p.chrome.Some? {
      PathIsRead("chrome", p.chrome.value);
    } else {
      PaneSegsHead(p);
      assert RegionSegs(p) == [] || RegionSegs(p)[0] != "chrome";
      RegionIsRead(p);
    }
  }

  lemma {:induction false} SegsAreRead(p: Parts)
    requires WellFormed(p)
    ensures ReadWindow(Segs(p)) == Some(p)
  {
    PaneSegsHead(p);
    assert ChromeSegs(p) == [] || ChromeSegs(p)[0] != "proj";
    ChromeIsRead(p);
    NamedIsRead("proj", ProjectOk, p.project, ChromeSegs(p));
    NamedIsRead("win", SegOk, p.window, ProjectSegs(p));
  }

  // ---------------------------------------------------------------- printing back what was read

  lemma {:induction false} NodeWasPrinted(segs: seq<string>, out: Parts, p: Parts)
    requires ReadNode(segs, out) == Some(p) && out.node.None?
    requires forall i :: 0 <= i < |segs| ==> NoSlash(segs[i])
    ensures p == out.(node := p.node) && segs == NodeSegs(p) && FieldOk(p.node, PathOk)
  {
    if |segs| > 0 { PathWasPrinted(segs); }
  }

  lemma {:induction false} PathWasPrinted(segs: seq<string>)
    requires |segs| > 0 && ReadPath(segs).Some? && forall i :: 0 <= i < |segs| ==> NoSlash(segs[i])
    ensures segs == PathField(segs[0], ReadPath(segs)) && PathOk(ReadPath(segs).value)
  {
    assert |segs[1..]| > 0;
    SplitJoin('/', segs[1..]);
  }

  lemma {:induction false} NamedWasPrinted(keyword: string, ok: string -> bool, segs: seq<string>)
    requires ReadNamed(keyword, ok, segs).Read?
    ensures var r := ReadNamed(keyword, ok, segs);
      segs == Field(keyword, r.field) + r.rest && FieldOk(r.field, ok)
  {
  }

  lemma {:induction false} TabWasPrinted(segs: seq<string>, out: Parts, p: Parts)
    requires ReadTab(segs, out) == Some(p) && out.tab.None? && out.node.None?
    requires forall i :: 0 <= i < |segs| ==> NoSlash(segs[i])
    ensures p == out.(tab := p.tab, node := p.node) && segs == TabSegs(p)
    ensures FieldOk(p.tab, SegOk) && FieldOk(p.node, PathOk) && (p.tab.Some? ==> p.view.Some?)
  {
    NamedWasPrinted("tab", SegOk, segs);
    var r := ReadNamed("tab", SegOk, segs);
    NodeWasPrinted(r.rest, out.(tab := r.field), p);
  }

  lemma {:induction false} ViewWasPrinted(segs: seq<string>, out: Parts, p: Parts)
    requires ReadView(segs, out) == Some(p) && out.view.None? && out.tab.None? && out.node.None?
    requires forall i :: 0 <= i < |segs| ==> NoSlash(segs[i])
    ensures p == out.(view := p.view, tab := p.tab, node := p.node) && segs == ViewSegs(p)
    ensures FieldOk(p.view, ViewOk) && FieldOk(p.tab, SegOk) && FieldOk(p.node, PathOk) && (p.tab.Some? ==> p.view.Some?)
  {
    NamedWasPrinted("view", ViewOk, segs);
    var r := ReadNamed("view", ViewOk, segs);
    TabWasPrinted(r.rest, out.(view := r.field), p);
  }

  lemma {:induction false} PaneWasPrinted(segs: seq<string>, out: Parts, p: Parts)
    requires ReadPane(segs, out) == Some(p)
    requires out.pane.None? && out.view.None? && out.tab.None? && out.node.None?
    requires forall i :: 0 <= i < |segs| ==> NoSlash(segs[i])
    ensures p == out.(pane := p.pane, view := p.view, tab := p.tab, node := p.node) && segs == PaneSegs(p)
    ensures FieldOk(p.pane, PaneOk) && FieldOk(p.view, ViewOk) && FieldOk(p.tab, SegOk) && FieldOk(p.node, PathOk)
    ensures p.tab.Some? ==> p.view.Some?
  {
    NamedWasPrinted("pane", PaneOk, segs);
    var r := ReadNamed("pane", PaneOk, segs);
    ViewWasPrinted(r.rest, out.(pane := r.field), p);
  }

  lemma {:induction false} ChromeWasPrinted(segs: seq<string>, out: Parts, p: Parts)
    requires ReadChrome(segs, out) == Some(p) && out == NOTHING.(window := out.window, project := out.project)
    requires forall i :: 0 <= i < |segs| ==> NoSlash(segs[i])
    requires FieldOk(out.window, SegOk) && FieldOk(out.project, s => ProjectOk(s) && NoSlash(s))
    requires out.project.None? ==> |segs| > 0
    ensures p.window == out.window && p.project == out.project && segs == ChromeSegs(p) && WellFormed(p)
  {
    if |segs| > 0 && segs[0] == "chrome" {
      PathWasPrinted(segs);
    } else if |segs| > 0 && segs[0] in REGIONS {
      PaneWasPrinted(segs[1..], out.(region := Some(segs[0])), p);
      assert segs == [segs[0]] + segs[1..];
    } else {
      PaneWasPrinted(segs, out, p);
      assert ChromeSegs(p) == segs;
    }
  }

  lemma {:induction false} ProjectWasPrinted(segs: seq<string>, window: Option<string>, p: Parts)
    requires ReadProject(segs, NOTHING.(window := window)) == Some(p) && FieldOk(window, SegOk) && |segs| > 0
    requires forall i :: 0 <= i < |segs| ==> NoSlash(segs[i])
    ensures p.window == window && segs == ProjectSegs(p) && WellFormed(p)
  {
    NamedWasPrinted("proj", ProjectOk, segs);
    var r := ReadNamed("proj", ProjectOk, segs);
    if r.field.Some? { assert segs[1] == r.field.value; }
    ChromeWasPrinted(r.rest, NOTHING.(window := window, project := r.field), p);
  }

  lemma {:induction false} WindowWasPrinted(segs: seq<string>, p: Parts)
    requires ReadWindow(segs) == Some(p) && forall i :: 0 <= i < |segs| ==> NoSlash(segs[i])
    ensures segs == Segs(p) && WellFormed(p)
  {
    NamedWasPrinted("win", SegOk, segs);
    var w := ReadNamed("win", SegOk, segs);
    ProjectWasPrinted(w.rest, w.field, p);
  }

  // ---------------------------------------------------------------- the two round trips

  lemma {:induction false} PathHasText(path: string)
    requires PathOk(path)
    ensures path != ""
  {
    assert SegOk(Split('/', path)[0]);
  }

  lemma Reassociate(
    a: seq<string>, b: seq<string>, c: seq<string>, d: seq<string>, e: seq<string>, f: seq<string>, g: seq<string>)
    ensures a + (b + (c + (d + (e + (f + g))))) == (a + b + c + d + e + f) + g
    ensures a + (b + c + d + e + f + g) == (a + b + c + d + e + f) + g
    ensures a + (b + c) == (a + b) + c
  {
  }

  /** Everything printed before the node path. */
  function Front(p: Parts): seq<string> {
    Field("win", p.window) + Field("proj", p.project) + (match p.region case None => [] case Some(name) => [name])
    + Field("pane", p.pane) + Field("view", p.view) + Field("tab", p.tab)
  }

  lemma {:induction false} FieldsHaveText(p: Parts)
    requires WellFormed(p)
    ensures Named("win", p.window) == Field("win", p.window) && Named("proj", p.project) == Field("proj", p.project)
    ensures Named("pane", p.pane) == Field("pane", p.pane) && Named("view", p.view) == Field("view", p.view)
    ensures Named("tab", p.tab) == Field("tab", p.tab) && Named("node", p.node) == Field("node", p.node)
    ensures p.region.Some? ==> p.region.value != ""
    ensures p.chrome.Some? ==> p.chrome.value != ""
  {
    if p.node.Some? { PathHasText(p.node.value); }
    if p.chrome.Some? { PathHasText(p.chrome.value); }
  }

  lemma {:induction false} PushedIsFront(p: Parts)
    requires WellFormed(p)
    ensures p.chrome.None? ==> Pushed(p) == Front(p) + Field("node", p.node) && Segs(p) == Front(p) + NodeSegs(p)
    ensures p.chrome.Some? ==>
      var front := Field("win", p.window) + Field("proj", p.project);
      Pushed(p) == front + Field("chrome", p.chrome) && Segs(p) == front + PathField("chrome", p.chrome)
  {
    FieldsHaveText(p);
    var region := match p.region case None => [] case Some(name) => [name];
    if p.chrome.None? {
      Reassociate(Field("win", p.window), Field("proj", p.project), region, Field("pane", p.pane),
                  Field("view", p.view), Field("tab", p.tab), Field("node", p.node));
      Reassociate(Field("win", p.window), Field("proj", p.project), region, Field("pane", p.pane),
                  Field("view", p.view), Field("tab", p.tab), NodeSegs(p));
    } else {
      Reassociate(Field("win", p.window), Field("proj", p.project), Field("chrome", p.chrome), [], [], [], []);
      Reassociate(Field("win", p.window), Field("proj", p.project), PathField("chrome", p.chrome), [], [], [], []);
    }
  }

  predicate Bare(segs: seq<string>) {
    forall i :: 0 <= i < |segs| ==> segs[i] != "" && NoSlash(segs[i])
  }

  lemma BareTogether(a: seq<string>, b: seq<string>)
    requires Bare(a) && Bare(b)
    ensures Bare(a + b)
  {
  }

  lemma {:induction false} FieldIsBare(keyword: string, field: Option<string>)
    requires keyword != "" && NoSlash(keyword) && (field.Some? ==> field.value != "" && NoSlash(field.value))
    ensures Bare(Field(keyword, field))
  {
  }

  lemma {:induction false} FrontIsBare(p: Parts)
    requires WellFormed(p)
    ensures Bare(Front(p)) && Bare(Field("win", p.window) + Field("proj", p.project))
  {
    FieldIsBare("win", p.window);
    FieldIsBare("proj", p.project);
    FieldIsBare("pane", p.pane);
    FieldIsBare("view", p.view);
    FieldIsBare("tab", p.tab);
    var region := match p.region case None => [] case Some(name) => [name];
    var front := Field("win", p.window) + Field("proj", p.project);
    BareTogether(Field("win", p.window), Field("proj", p.project));
    BareTogether(front, region);
    BareTogether(front + region, Field("pane", p.pane));
    BareTogether(front + region + Field("pane", p.pane), Field("view", p.view));
    BareTogether(front + region + Field("pane", p.pane) + Field("view", p.view), Field("tab", p.tab));
  }

  lemma Consed(front: seq<string>, keyword: string, rest: seq<string>)
    ensures front + ([keyword] + rest) == front + [keyword] + rest
  {
  }

  lemma PathEnds(front: seq<string>, keyword: string, path: string)
    requires Bare(front) && keyword != "" && NoSlash(keyword)
    ensures Bare(front + [keyword])
    ensures front + Field(keyword, Some(path)) == front + [keyword] + [path]
    ensures front + PathField(keyword, Some(path)) == front + [keyword] + Split('/', path)
  {
    BareTogether(front, [keyword]);
    Consed(front, keyword, [path]);
    Consed(front, keyword, Split('/', path));
    assert Field(keyword, Some(path)) == [keyword] + [path];
  }

  lemma BareLast(all: seq<string>)
    requires Bare(all) && all != []
    ensures Bare(all[..|all| - 1]) && Split('/', all[|all| - 1]) == [all[|all| - 1]]
    ensures all == all[..|all| - 1] + [all[|all| - 1]]
  {
    SplitPlain('/', all[|all| - 1]);
  }

  lemma {:induction false} FrontHasText(p: Parts)
    requires WellFormed(p) && p.chrome.None? && p.node.None?
    ensures Front(p) != []
  {
  }

  /** The pushed pieces are the segments, the last one perhaps a whole path. */
  lemma {:induction false} PushedAreSegs(p: Parts) returns (before: seq<string>, last: string)
    requires WellFormed(p)
    ensures Pushed(p) == before + [last] && Segs(p) == before + Split('/', last) && Bare(before)
  {
    PushedIsFront(p);
    FrontIsBare(p);
    if p.chrome.Some? {
      var named := Field("win", p.window) + Field("proj", p.project);
      before, last := named + ["chrome"], p.chrome.value;
      PathEnds(named, "chrome", last);
    } else if p.node.Some? {
      before, last := Front(p) + ["node"], p.node.value;
      PathEnds(Front(p), "node", last);
    } else {
      var all := Front(p);
      FrontHasText(p);
      BareLast(all);
      before, last := all[..|all| - 1], all[|all| - 1];
      assert all + [] == all;
    }
  }

  lemma {:induction false} FormatSplits(p: Parts)
    requires WellFormed(p)
    ensures Split('/', Format(p)) == Segs(p) && Format(p) == Join('/', Segs(p))
  {
    var before, last := PushedAreSegs(p);
    SplitJoinLast('/', before, last);
    JoinSplit('/', Format(p));
  }

  lemma {:induction false} JoinIsBare(segs: seq<string>)
    requires |segs| > 0 && Bare(segs)
    ensures var s := Join('/', segs);
      |s| > 0 && s[0] == segs[0][0] && s[0] != '/' && s[|s| - 1] != '/'
  {
    if |segs| <= 1 {
    } else {
      JoinIsBare(segs[1..]);
    }
  }

  lemma {:induction false} PathFieldIsBare(keyword: string, path: string)
    requires PathOk(path) && keyword != "" && NoSlash(keyword)
    ensures Bare(PathField(keyword, Some(path)))
  {
    SplitHasNoSeparator('/', path);
    forall i | 0 <= i < |Split('/', path)| ensures Split('/', path)[i] != "" {
      assert SegOk(Split('/', path)[i]);
    }
  }

  lemma {:induction false} SegsAreBare(p: Parts)
    requires WellFormed(p)
    ensures Bare(Segs(p)) && |Segs(p)| > 0 && LowerOrDigit(Segs(p)[0][0])
  {
    PushedIsFront(p);
    FrontIsBare(p);
    if p.chrome.Some? {
      PathFieldIsBare("chrome", p.chrome.value);
      BareTogether(Field("win", p.window) + Field("proj", p.project), PathField("chrome", p.chrome));
    } else {
      if p.node.Some? { PathFieldIsBare("node", p.node.value); }
      BareTogether(Front(p), NodeSegs(p));
    }
    HeadIsKeyword(p);
  }

  lemma {:induction false} HeadIsKeyword(p: Parts)
    requires WellFormed(p)
    ensures |Segs(p)| > 0 && |Segs(p)[0]| > 0 && LowerOrDigit(Segs(p)[0][0])
  {
    PaneSegsHead(p);
    assert PaneSegs(p) == [] ==> p.pane.None? && p.view.None? && p.tab.None? && p.node.None?;
    assert ChromeSegs(p) == [] || LowerOrDigit(ChromeSegs(p)[0][0]);
  }

  /** Reading undoes printing exactly on the well-formed structures. */
  lemma {:induction false} ParseFormat(p: Parts)
    ensures Parse(Format(p)) == Some(p) <==> WellFormed(p)
  {
    if WellFormed(p) {
      FormatSplits(p);
      SegsAreBare(p);
      JoinIsBare(Segs(p));
      SegsAreRead(p);
      assert Strip(Format(p)) == Format(p);
    }
    if Parse(Format(p)) == Some(p) { ParsedIsPrinted(Format(p), p); }
  }

  /** What is read is well formed, and prints as the input without its outer slashes. */
  lemma {:induction false} ParsedIsPrinted(input: string, p: Parts)
    requires Parse(input) == Some(p)
    ensures WellFormed(p) && Format(p) == Strip(input)
  {
    SplitHasNoSeparator('/', Strip(input));
    WindowWasPrinted(Split('/', Strip(input)), p);
    FormatSplits(p);
    JoinSplit('/', Strip(input));
  }

  lemma {:induction false} StripIsInside(s: string)
    ensures forall c :: c in Strip(s) ==> c in s
    ensures Strip(s) == s || '/' in s
  {
    LeftIsInside(s);
    RightIsInside(StripLeft(s));
  }

  lemma {:induction false} LeftIsInside(s: string)
    ensures forall c :: c in StripLeft(s) ==> c in s
    ensures StripLeft(s) == s || '/' in s
  {
    if |s| == 0 || s[0] != '/' {
    } else {
      LeftIsInside(s[1..]);
    }
  }

  lemma {:induction false} RightIsInside(s: string)
    ensures forall c :: c in StripRight(s) ==> c in s
    ensures StripRight(s) == s || '/' in s
  {
    if |s| == 0 || s[|s| - 1] != '/' {
    } else {
      RightIsInside(s[..|s| - 1]);
    }
  }

  /** The reader accepts exactly the inputs that print some well-formed structure, outer slashes aside;
      two inputs with one reading have one canonical text. */
  lemma {:induction false} AcceptsExactlyThePrinted(input: string)
    ensures Parse(input).Some? <==> exists p :: WellFormed(p) && Format(p) == Strip(input)
  {
    if Parse(input).Some? { ParsedIsPrinted(input, Parse(input).value); }
    if exists p :: WellFormed(p) && Format(p) == Strip(input) {
      var p :| WellFormed(p) && Format(p) == Strip(input);
      FormatSplits(p);
      SegsAreBare(p);
      JoinIsBare(Segs(p));
      SegsAreRead(p);
      StripIsInside(input);
      assert Strip(input)[0] in input;
    }
  }

  // ---------------------------------------------------------------- the reader as it is written

  /** `segs[i] === keyword`. */
  predicate Here(segs: seq<string>, i: nat, keyword: string) {
    i < |segs| && segs[i] == keyword
  }

  /** `parseAddress`: a cursor over the segments, filling in one field after another. */
  method ParseAddress(input: string) returns (r: Option<Parts>)
    ensures r == Parse(input)
  {
    if Blank(input) { return None; }
    var segs := Split('/', Strip(input));
    var out := NOTHING;
    var i := 0;
    if Here(segs, i, "win") {
      if i + 1 >= |segs| || !SegOk(segs[i + 1]) { return None; }
      out := out.(window := Some(segs[i + 1]));
      i := i + 2;
    }
    if i >= |segs| { return None; }
    assert ReadWindow(segs) == ReadProject(segs[i..], out);
    if Here(segs, i, "proj") {
      if i + 1 >= |segs| || segs[i + 1] == "" { return None; }
      assert segs[i..][2..] == segs[i + 2..];
      out := out.(project := Some(segs[i + 1]));
      i := i + 2;
    }
    r := ParseInside(segs, i, out);
  }

  /** From "chrome" on. */
  method ParseInside(segs: seq<string>, start: nat, found: Parts) returns (r: Option<Parts>)
    requires start <= |segs| && found.region.None? && found.pane.None? && found.view.None? && found.tab.None?
    ensures r == ReadChrome(segs[start..], found)
  {
    var i, out := start, found;
    if Here(segs, i, "chrome") {
      assert segs[i..][1..] == segs[i + 1..];
      var rest := Join('/', segs[i + 1..]);
      if rest == "" || !PathOk(rest) { return None; }
      return Some(out.(chrome := Some(rest)));
    }
    if i < |segs| && segs[i] in REGIONS {
      assert segs[i..][1..] == segs[i + 1..];
      out := out.(region := Some(segs[i]));
      i := i + 1;
    }
    if Here(segs, i, "pane") {
      if i + 1 >= |segs| || !PaneOk(segs[i + 1]) { return None; }
      assert segs[i..][2..] == segs[i + 2..];
      out := out.(pane := Some(segs[i + 1]));
      i := i + 2;
    }
    r := ParseViewPath(segs, i, out);
  }

  /** From "view" on. */
  method ParseViewPath(segs: seq<string>, start: nat, found: Parts) returns (r: Option<Parts>)
    requires start <= |segs| && found.view.None? && found.tab.None?
    ensures r == ReadView(segs[start..], found)
  {
    var i, out := start, found;
    if Here(segs, i, "view") {
      if i + 1 >= |segs| || !ViewOk(segs[i + 1]) { return None; }
      assert segs[i..][2..] == segs[i + 2..];
      out := out.(view := Some(segs[i + 1]));
      i := i + 2;
    }
    assert ReadView(segs[start..], found) == ReadTab(segs[i..], out);
    if Here(segs, i, "tab") {
      if i + 1 >= |segs| || !SegOk(segs[i + 1]) { return None; }
      if out.view.None? { return None; }
      assert segs[i..][2..] == segs[i + 2..];
      out := out.(tab := Some(segs[i + 1]));
      i := i + 2;
    }
    if Here(segs, i, "node") {
      assert segs[i..][1..] == segs[i + 1..];
      var rest := Join('/', segs[i + 1..]);
      if rest == "" || !PathOk(rest) { return None; }
      return Some(out.(node := Some(rest)));
    }
    if i < |segs| { return None; }
    r := Some(out);
  }

  /** `if (field) segs.push(keyword, field)`. */
  method PushNamed(segs: seq<string>, keyword: string, field: Option<string>) returns (more: seq<string>)
    ensures more == segs + Named(keyword, field)
  {
    more := segs;
    if field.Some? && field.value != "" { more := more + [keyword, field.value]; }
  }

  /** `formatAddress`: pushes the present fields. */
  method FormatAddress(p: Parts) returns (s: string)
    ensures s == Format(p)
  {
    var segs := PushNamed([], "win", p.window);
    var chrome := p.chrome.Some? && p.chrome.value != "";
    segs := PushNamed(segs, "proj", p.project);
    if chrome {
      segs := segs + ["chrome", p.chrome.value];
      assert segs == Pushed(p);
      return Join('/', segs);
    }
    ghost var region := if p.region.Some? && p.region.value != "" then [p.region.value] else [];
    if p.region.Some? && p.region.value != "" { segs := segs + [p.region.value]; }
    assert segs == Named("win", p.window) + Named("proj", p.project) + region;
    segs := PushNamed(segs, "pane", p.pane);
    segs := PushNamed(segs, "view", p.view);
    segs := PushNamed(segs, "tab", p.tab);
    segs := PushNamed(segs, "node", p.node);
    Reassociate(Named("win", p.window), Named("proj", p.project), region, Named("pane", p.pane),
                Named("view", p.view), Named("tab", p.tab), Named("node", p.node));
    s := Join('/', segs);
  }
}
