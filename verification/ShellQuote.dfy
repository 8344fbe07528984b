/** The release commands' shell lines (src/commands/releaseOrchestration.ts) against the shell's own
    reading of them: POSIX.1-2017, Shell & Utilities, sections 2.2.1 to 2.2.3 (quoting), 2.3 (token
    recognition) and 2.6.7 (quote removal). */
module ShellQuote {
  import opened JsValues

  // ---------------------------------------------------------------- the shell

  /** Where the reader stands; a word under way is kept with its quotes already removed. */
  datatype Mode = Between | InWord | EscapedBetween | Escaped | SingleQuoted | DoubleQuoted | EscapedInDouble

  /** Characters of section 2.2 that, unquoted, mean more than themselves. A line that has one is more
      than a plain list of words, and this reader does not take it. */
  const ACTIVE: set<char> := {'|', '&', ';', '<', '>', '(', ')', '$', '`', '*', '?', '[', '#', '~', '=', '%', '\n'}

  const NUL: char := '\0'

  predicate IsBlank(c: char) {
    c == ' ' || c == '\t'
  }

  /** The words of one plain command line; None if it is not one, or ends inside quotes. */
  function Words(s: string, mode: Mode, word: string, done: seq<string>): Option<seq<string>>
    decreases |s|
  {
    if |s| == 0 then
      match mode
      case Between => Some(done)
      case InWord => Some(done + [word])
      case _ => None
    else
      var c, rest := s[0], s[1..];
      if c == NUL then None
      else
        match mode
        case Between =>
          if IsBlank(c) then Words(rest, Between, word, done) else Unquoted(c, rest, EscapedBetween, word, done)
        case InWord =>
          if IsBlank(c) then Words(rest, Between, "", done + [word]) else Unquoted(c, rest, Escaped, word, done)
        case EscapedBetween =>
          if c == '\n' then Words(rest, Between, word, done) else Words(rest, InWord, word + [c], done)
        case Escaped => if c == '\n' then Words(rest, InWord, word, done) else Words(rest, InWord, word + [c], done)
        case SingleQuoted =>
          if c == '\'' then Words(rest, InWord, word, done) else Words(rest, SingleQuoted, word + [c], done)
        case DoubleQuoted =>
          if c == '"' then Words(rest, InWord, word, done)
          else if c == '\\' then Words(rest, EscapedInDouble, word, done)
          else if c == '$' || c == '`' then None
          else Words(rest, DoubleQuoted, word + [c], done)
        case EscapedInDouble =>
          if c == '\n' then Words(rest, DoubleQuoted, word, done)
          else if c in {'$', '`', '"', '\\'} then Words(rest, DoubleQuoted, word + [c], done)
          else Words(rest, DoubleQuoted, word + ['\\', c], done)
  }

  /** `escaped` is the mode after a backslash here: a backslash and a newline vanish altogether. */
  function Unquoted(c: char, rest: string, escaped: Mode, word: string, done: seq<string>): Option<seq<string>>
    decreases |rest| + 1, 0
  {
    if c in ACTIVE then None
    else if c == '\\' then Words(rest, escaped, word, done)
    else if c == '\'' then Words(rest, SingleQuoted, word, done)
    else if c == '"' then Words(rest, DoubleQuoted, word, done)
    else Words(rest, InWord, word + [c], done)
  }

  /** The argument vector a shell makes of the line. */
  function Argv(line: string): Option<seq<string>> {
    Words(line, Between, "", [])
  }

  // ---------------------------------------------------------------- the printers

  /** `word.replace(/'/g, "'\\''")`. */
  function EscapeQuotes(word: string): string {
    if |word| == 0 then ""
    else (if word[0] == '\'' then "'\\''" else [word[0]]) + EscapeQuotes(word[1..])
  }

  /** `shq`. */
  function Shq(word: string): string {
    "'" + EscapeQuotes(word) + "'"
  }

  const TEMPLATE: string := "/packages/plugin-spec" + "/release-template/sidecar"

  const VALIDATOR: string := TEMPLATE + "/validate-with-spec.mjs"

  const BUILDER: string := TEMPLATE + "/build-release.mjs"

  /** `buildValidateRequest(...).cmd`. */
  function ValidateLine(specRoot: string, releaseDir: string): string {
    "node " + Shq(specRoot + VALIDATOR) + " --spec-root " + Shq(specRoot) + " --release-dir " + Shq(releaseDir)
  }

  /** `buildBuildRequest(...).cmd`. */
  function BuildLine(specRoot: string, commit: string, tag: string, artifacts: string, out: string): string {
    "node " + Shq(specRoot + BUILDER) + " --commit " + Shq(commit) + " --tag " + Shq(tag) + " "
    + "--artifacts " + Shq(artifacts) + " --out " + Shq(out) + " --emit-summary"
  }

  // ---------------------------------------------------------------- quoting is undone

  predicate NoNul(s: string) {
    NUL !in s
  }

  lemma {:induction false} EscapedQuoteIsRead(after: string, word: string, done: seq<string>)
    ensures Words("'\\''" + after, SingleQuoted, word, done) == Words(after, SingleQuoted, word + ['\''], done)
  {
    var line, l1, l2, l3 := "'\\''" + after, "\\''" + after, "''" + after, "'" + after;
    assert line[1..] == l1 && l1[1..] == l2 && l2[1..] == l3 && l3[1..] == after;
    assert Words(line, SingleQuoted, word, done) == Words(l1, InWord, word, done);
    assert Words(l1, InWord, word, done) == Words(l2, Escaped, word, done);
    assert Words(l2, Escaped, word, done) == Words(l3, InWord, word + ['\''], done);
    assert Words(l3, InWord, word + ['\''], done) == Words(after, SingleQuoted, word + ['\''], done);
  }

  lemma {:induction false} QuotedTextIsRead(text: string, rest: string, word: string, done: seq<string>)
    ensures Words(EscapeQuotes(text) + "'" + rest, SingleQuoted, word, done) ==
            if NoNul(text) then Words(rest, InWord, word + text, done) else None
  {
    var line := EscapeQuotes(text) + "'" + rest;
    if |text| == 0 {
      assert line == "'" + rest && line[1..] == rest;
      assert word + text == word;
    } else {
      var after := EscapeQuotes(text[1..]) + "'" + rest;
      QuotedTextIsRead(text[1..], rest, word + [text[0]], done);
      assert (word + [text[0]]) + text[1..] == word + text;
      assert text == [text[0]] + text[1..];
      if text[0] == '\'' {
        assert line == "'\\''" + after;
        EscapedQuoteIsRead(after, word, done);
      } else {
        assert line == [text[0]] + after && line[1..] == after;
      }
    }
  }

  /** A quoted word adds exactly its text to the word under way, or opens one. */
  lemma {:induction false} ShqIsRead(text: string, rest: string, mode: Mode, word: string, done: seq<string>)
    requires mode == Between || mode == InWord
    ensures Words(Shq(text) + rest, mode, word, done) == if NoNul(text) then Words(rest, InWord, word + text, done) else None
  {
    var line := Shq(text) + rest;
    assert line == "'" + (EscapeQuotes(text) + "'" + rest) && line[1..] == EscapeQuotes(text) + "'" + rest;
    QuotedTextIsRead(text, rest, word, done);
  }

  /** Quote removal undoes quoting, for every text a command line can carry. */
  lemma {:induction false} ShqIsOneWord(text: string)
    ensures Argv(Shq(text)) == if NoNul(text) then Some([text]) else None
  {
    ShqIsRead(text, "", Between, "", []);
    assert Shq(text) + "" == Shq(text);
    assert "" + text == text;
    assert [] + [text] == [text];
  }

  // ---------------------------------------------------------------- whole lines

  /** One argument as the printers write it. */
  datatype Piece = Bare(text: string) | Quoted(text: string)

  predicate Plain(c: char) {
    c !in ACTIVE && c != NUL && !IsBlank(c) && c != '\\' && c != '\'' && c != '"'
  }

  predicate PieceOk(p: Piece) {
    p.Bare? ==> p.text != "" && forall i :: 0 <= i < |p.text| ==> Plain(p.text[i])
  }

  function Render(p: Piece): string {
    match p case Bare(text) => text case Quoted(text) => Shq(text)
  }

  function Line(pieces: seq<Piece>): string
    requires |pieces| > 0
  {
    var n := |pieces| - 1;
    if n == 0 then Render(pieces[0]) else Line(pieces[..n]) + " " + Render(pieces[n])
  }

  function Texts(pieces: seq<Piece>): seq<string> {
    seq(|pieces|, i requires 0 <= i < |pieces| => pieces[i].text)
  }

  predicate AllNoNul(pieces: seq<Piece>) {
    forall i :: 0 <= i < |pieces| ==> NoNul(pieces[i].text)
  }

  lemma {:induction false} BareIsRead(text: string, rest: string, mode: Mode, word: string, done: seq<string>)
    requires mode == Between || mode == InWord
    requires forall i :: 0 <= i < |text| ==> Plain(text[i])
    ensures Words(text + rest, if text == "" then InWord else mode, word, done) == Words(rest, InWord, word + text, done)
  {
    if text == "" {
      assert text + rest == rest && word + text == word;
    } else {
      assert (text + rest)[1..] == text[1..] + rest;
      BareIsRead(text[1..], rest, InWord, word + [text[0]], done);
      assert (word + [text[0]]) + text[1..] == word + text;
    }
  }

  lemma {:induction false} PieceIsRead(p: Piece, rest: string, done: seq<string>)
    requires PieceOk(p)
    ensures Words(Render(p) + rest, Between, "", done) == if NoNul(p.text) then Words(rest, InWord, p.text, done) else None
  {
    assert "" + p.text == p.text;
    match p
    case Bare(text) => BareIsRead(text, rest, Between, "", done);
    case Quoted(text) => ShqIsRead(text, rest, Between, "", done);
  }

  lemma {:induction false} NextPieceIsRead(p: Piece, rest: string, word: string, done: seq<string>)
    requires PieceOk(p)
    ensures Words(" " + (Render(p) + rest), InWord, word, done) ==
            if NoNul(p.text) then Words(rest, InWord, p.text, done + [word]) else None
  {
    var more := Render(p) + rest;
    assert (" " + more)[1..] == more;
    PieceIsRead(p, rest, done + [word]);
  }

  lemma Assoc(a: string, b: string, c: string)
    ensures (a + b) + c == a + (b + c)
  {
  }

  lemma {:induction false} FrontAndLast(pieces: seq<Piece>)
    requires |pieces| > 0
    ensures var n := |pieces| - 1;
      && Texts(pieces) == Texts(pieces[..n]) + [pieces[n].text]
      && (AllNoNul(pieces) <==> AllNoNul(pieces[..n]) && NoNul(pieces[n].text))
  {
    var n := |pieces| - 1;
    assert forall i :: 0 <= i < n ==> pieces[..n][i] == pieces[i];
  }

  lemma {:induction false} LineEnds(pieces: seq<Piece>, rest: string)
    requires |pieces| > 1
    ensures var n := |pieces| - 1;
      Line(pieces) + rest == Line(pieces[..n]) + (" " + (Render(pieces[n]) + rest))
  {
    var n := |pieces| - 1;
    Assoc(Line(pieces[..n]) + " ", Render(pieces[n]), rest);
    Assoc(Line(pieces[..n]), " ", Render(pieces[n]) + rest);
  }

  lemma {:induction false} PieceJoins(line: string, ok: bool, word: string, done: seq<string>, p: Piece, rest: string)
    requires PieceOk(p)
    requires Words(line + (" " + (Render(p) + rest)), Between, "", []) ==
             if ok then Words(" " + (Render(p) + rest), InWord, word, done) else None
    ensures Words(line + (" " + (Render(p) + rest)), Between, "", []) ==
            if ok && NoNul(p.text) then Words(rest, InWord, p.text, done + [word]) else None
  {
    NextPieceIsRead(p, rest, word, done);
  }

  /** The line, with `rest` behind it, is read up to the end of its last piece. */
  ghost predicate IsReadThrough(pieces: seq<Piece>, rest: string)
    requires |pieces| > 0
  {
    Words(Line(pieces) + rest, Between, "", []) ==
    if AllNoNul(pieces) then Words(rest, InWord, pieces[|pieces| - 1].text, Texts(pieces[..|pieces| - 1])) else None
  }

  lemma {:induction false} OnePieceIsReadThrough(p: Piece, rest: string)
    requires PieceOk(p)
    ensures IsReadThrough([p], rest)
  {
    PieceIsRead(p, rest, []);
    assert Line([p]) == Render(p) && Texts([p][..0]) == [];
    assert AllNoNul([p]) <==> NoNul(p.text);
  }

  lemma {:induction false} NextPieceIsReadThrough(pieces: seq<Piece>, rest: string)
    requires |pieces| > 1 && PieceOk(pieces[|pieces| - 1])
    requires IsReadThrough(pieces[..|pieces| - 1], " " + (Render(pieces[|pieces| - 1]) + rest))
    ensures IsReadThrough(pieces, rest)
  {
    var n := |pieces| - 1;
    var front, last := pieces[..n], pieces[n];
    FrontAndLast(pieces);
    FrontAndLast(front);
    LineEnds(pieces, rest);
    PieceJoins(Line(front), AllNoNul(front), front[n - 1].text, Texts(front[..n - 1]), last, rest);
  }

  lemma {:induction false} LineIsReadThrough(pieces: seq<Piece>, rest: string)
    requires |pieces| > 0 && forall i :: 0 <= i < |pieces| ==> PieceOk(pieces[i])
    ensures IsReadThrough(pieces, rest)
    decreases |pieces|
  {
    var n := |pieces| - 1;
    if n == 0 {
      OnePieceIsReadThrough(pieces[0], rest);
      assert pieces == [pieces[0]];
    } else {
      LineIsReadThrough(pieces[..n], " " + (Render(pieces[n]) + rest));
      NextPieceIsReadThrough(pieces, rest);
    }
  }

  /** A line of pieces is read as exactly its texts, whatever characters the quoted ones hold; only NUL,
      which no argument can carry, stops it. */
  lemma {:induction false} LineIsRead(pieces: seq<Piece>)
    requires |pieces| > 0 && forall i :: 0 <= i < |pieces| ==> PieceOk(pieces[i])
    ensures Argv(Line(pieces)) == if AllNoNul(pieces) then Some(Texts(pieces)) else None
  {
    LineIsReadThrough(pieces, "");
    assert Line(pieces) + "" == Line(pieces);
    FrontAndLast(pieces);
  }

  // ---------------------------------------------------------------- the two commands

  function ValidatePieces(script: string, specRoot: string, releaseDir: string): seq<Piece> {
    [Bare("node"), Quoted(script), Bare("--spec-root"), Quoted(specRoot), Bare("--release-dir"), Quoted(releaseDir)]
  }

  function BuildPieces(script: string, commit: string, tag: string, artifacts: string, out: string): seq<Piece> {
    [Bare("node"), Quoted(script), Bare("--commit"), Quoted(commit), Bare("--tag"), Quoted(tag),
     Bare("--artifacts"), Quoted(artifacts), Bare("--out"), Quoted(out), Bare("--emit-summary")]
  }

  lemma OneMorePiece(pieces: seq<Piece>, p: Piece)
    requires |pieces| > 0
    ensures Line(pieces + [p]) == Line(pieces) + " " + Render(p)
  {
    assert (pieces + [p])[..|pieces|] == pieces;
  }

  /** `... --option ${shq(text)}`. */
  lemma OptionPieces(pieces: seq<Piece>, option: string, text: string)
    requires |pieces| > 0
    ensures Line(pieces + [Bare(option), Quoted(text)]) == Line(pieces) + (" " + option + " ") + Shq(text)
  {
    OneMorePiece(pieces, Bare(option));
    OneMorePiece(pieces + [Bare(option)], Quoted(text));
    assert pieces + [Bare(option)] + [Quoted(text)] == pieces + [Bare(option), Quoted(text)];
    Assoc(Line(pieces) + " ", option, " ");
    Assoc(Line(pieces), " ", option + " ");
    Assoc(" ", option, " ");
  }

  lemma Opening(script: string)
    ensures Line([Bare("node"), Quoted(script)]) == "node " + Shq(script)
  {
    OneMorePiece([Bare("node")], Quoted(script));
    assert [Bare("node")] + [Quoted(script)] == [Bare("node"), Quoted(script)];
    assert "node " == "node" + " ";
  }

  lemma OptionLiterals()
    ensures " --spec-root " == " " + "--spec-root" + " " && " --release-dir " == " " + "--release-dir" + " "
    ensures " --commit " == " " + "--commit" + " " && " --tag " == " " + "--tag" + " "
    ensures " " + "--artifacts " == " " + "--artifacts" + " " && " --out " == " " + "--out" + " "
    ensures " --emit-summary" == " " + "--emit-summary"
  {
  }

  lemma ValidateLineIsItsPieces(script: string, specRoot: string, releaseDir: string)
    ensures Line(ValidatePieces(script, specRoot, releaseDir)) ==
      "node " + Shq(script) + " --spec-root " + Shq(specRoot) + " --release-dir " + Shq(releaseDir)
  {
    var p := [Bare("node"), Quoted(script)];
    var q := p + [Bare("--spec-root"), Quoted(specRoot)];
    Opening(script);
    OptionPieces(p, "--spec-root", specRoot);
    OptionPieces(q, "--release-dir", releaseDir);
    OptionLiterals();
    assert q + [Bare("--release-dir"), Quoted(releaseDir)] == ValidatePieces(script, specRoot, releaseDir);
  }

  lemma BuildLineOpens(script: string, commit: string, tag: string)
    ensures Line([Bare("node"), Quoted(script), Bare("--commit"), Quoted(commit), Bare("--tag"), Quoted(tag)]) ==
      "node " + Shq(script) + " --commit " + Shq(commit) + " --tag " + Shq(tag)
  {
    var p := [Bare("node"), Quoted(script)];
    var q := p + [Bare("--commit"), Quoted(commit)];
    Opening(script);
    OptionPieces(p, "--commit", commit);
    OptionPieces(q, "--tag", tag);
    OptionLiterals();
    assert q + [Bare("--tag"), Quoted(tag)] ==
      [Bare("node"), Quoted(script), Bare("--commit"), Quoted(commit), Bare("--tag"), Quoted(tag)];
  }

  lemma BuildLineCloses(front: seq<Piece>, artifacts: string, out: string)
    requires |front| > 0
    ensures Line(front + [Bare("--artifacts"), Quoted(artifacts)] + [Bare("--out"), Quoted(out)] + [Bare("--emit-summary")]) ==
      Line(front) + " " + "--artifacts " + Shq(artifacts) + " --out " + Shq(out) + " --emit-summary"
  {
    var t := front + [Bare("--artifacts"), Quoted(artifacts)];
    OptionLiterals();
    OptionPieces(front, "--artifacts", artifacts);
    Assoc(Line(front), " ", "--artifacts ");
    OptionPieces(t, "--out", out);
    OneMorePiece(t + [Bare("--out"), Quoted(out)], Bare("--emit-summary"));
    Assoc(Line(t + [Bare("--out"), Quoted(out)]), " ", "--emit-summary");
  }

  lemma BuildLineIsItsPieces(script: string, commit: string, tag: string, artifacts: string, out: string)
    ensures Line(BuildPieces(script, commit, tag, artifacts, out)) ==
      "node " + Shq(script) + " --commit " + Shq(commit) + " --tag " + Shq(tag) + " "
      + "--artifacts " + Shq(artifacts) + " --out " + Shq(out) + " --emit-summary"
  {
    var front := [Bare("node"), Quoted(script), Bare("--commit"), Quoted(commit), Bare("--tag"), Quoted(tag)];
    BuildLineOpens(script, commit, tag);
    BuildLineCloses(front, artifacts, out);
    assert front + [Bare("--artifacts"), Quoted(artifacts)] + [Bare("--out"), Quoted(out)] + [Bare("--emit-summary")] ==
      BuildPieces(script, commit, tag, artifacts, out);
  }

  predicate Safe(c: char) {
    'a' <= c <= 'z' || c == '-' || c == '/' || c == '.'
  }

  lemma SafeTextIsPlain(text: string)
    requires forall i :: 0 <= i < |text| ==> Safe(text[i])
    ensures NoNul(text) && (text != "" ==> PieceOk(Bare(text)))
  {
    forall i | 0 <= i < |text| ensures Plain(text[i]) {
      assert Safe(text[i]);
    }
  }

  lemma OptionsArePlain()
    ensures PieceOk(Bare("node")) && PieceOk(Bare("--spec-root")) && PieceOk(Bare("--release-dir"))
    ensures PieceOk(Bare("--commit")) && PieceOk(Bare("--tag")) && PieceOk(Bare("--artifacts"))
    ensures PieceOk(Bare("--out")) && PieceOk(Bare("--emit-summary"))
    ensures NoNul("node") && NoNul("--spec-root") && NoNul("--release-dir") && NoNul("--commit")
    ensures NoNul("--tag") && NoNul("--artifacts") && NoNul("--out") && NoNul("--emit-summary")
  {
    SafeTextIsPlain("node");
    SafeTextIsPlain("--spec-root");
    SafeTextIsPlain("--release-dir");
    SafeTextIsPlain("--commit");
    SafeTextIsPlain("--tag");
    SafeTextIsPlain("--artifacts");
    SafeTextIsPlain("--out");
    SafeTextIsPlain("--emit-summary");
  }

  lemma {:induction false} ValidatePiecesArgv(script: string, specRoot: string, releaseDir: string)
    ensures Argv(Line(ValidatePieces(script, specRoot, releaseDir))) ==
            if NoNul(script) && NoNul(specRoot) && NoNul(releaseDir)
            then Some(["node", script, "--spec-root", specRoot, "--release-dir", releaseDir]) else None
  {
    var pieces := ValidatePieces(script, specRoot, releaseDir);
    OptionsArePlain();
    LineIsRead(pieces);
    assert Texts(pieces) == ["node", script, "--spec-root", specRoot, "--release-dir", releaseDir];
    assert AllNoNul(pieces) ==> NoNul(pieces[1].text) && NoNul(pieces[3].text) && NoNul(pieces[5].text);
  }

  lemma {:induction false} BuildTexts(script: string, commit: string, tag: string, artifacts: string, out: string)
    ensures var pieces := BuildPieces(script, commit, tag, artifacts, out);
      && Texts(pieces) == ["node", script, "--commit", commit, "--tag", tag, "--artifacts", artifacts,
                           "--out", out, "--emit-summary"]
      && (AllNoNul(pieces) <==> NoNul(script) && NoNul(commit) && NoNul(tag) && NoNul(artifacts) && NoNul(out))
  {
    var pieces := BuildPieces(script, commit, tag, artifacts, out);
    OptionsArePlain();
    assert AllNoNul(pieces) ==> NoNul(pieces[1].text) && NoNul(pieces[3].text) && NoNul(pieces[5].text);
    assert AllNoNul(pieces) ==> NoNul(pieces[7].text) && NoNul(pieces[9].text);
  }

  lemma {:induction false} BuildPiecesArgv(script: string, commit: string, tag: string, artifacts: string, out: string)
    ensures Argv(Line(BuildPieces(script, commit, tag, artifacts, out))) ==
            if NoNul(script) && NoNul(commit) && NoNul(tag) && NoNul(artifacts) && NoNul(out)
            then Some(["node", script, "--commit", commit, "--tag", tag, "--artifacts", artifacts,
                       "--out", out, "--emit-summary"])
            else None
  {
    BuildTexts(script, commit, tag, artifacts, out);
    OptionsArePlain();
    LineIsRead(BuildPieces(script, commit, tag, artifacts, out));
  }

  lemma NoNulTogether(a: string, b: string)
    ensures NoNul(a + b) <==> NoNul(a) && NoNul(b)
  {
  }

  lemma ScriptsHaveNoNul()
    ensures NoNul(VALIDATOR) && NoNul(BUILDER)
  {
    SafeTextIsPlain("/packages/plugin-spec");
    SafeTextIsPlain("/release-template/sidecar");
    SafeTextIsPlain("/validate-with-spec.mjs");
    SafeTextIsPlain("/build-release.mjs");
    NoNulTogether("/packages/plugin-spec", "/release-template/sidecar");
    NoNulTogether(TEMPLATE, "/validate-with-spec.mjs");
    NoNulTogether(TEMPLATE, "/build-release.mjs");
  }

  /** The validator is started with exactly these six arguments, for any directories without NUL. */
  lemma {:induction false} ValidateArgv(specRoot: string, releaseDir: string)
    ensures Argv(ValidateLine(specRoot, releaseDir)) ==
            if NoNul(specRoot) && NoNul(releaseDir)
            then Some(["node", specRoot + VALIDATOR, "--spec-root", specRoot, "--release-dir", releaseDir]) else None
  {
    ScriptsHaveNoNul();
    NoNulTogether(specRoot, VALIDATOR);
    ValidateLineIsItsPieces(specRoot + VALIDATOR, specRoot, releaseDir);
    ValidatePiecesArgv(specRoot + VALIDATOR, specRoot, releaseDir);
  }

  /** The builder is started with exactly these eleven. */
  lemma {:induction false} BuildArgv(specRoot: string, commit: string, tag: string, artifacts: string, out: string)
    ensures Argv(BuildLine(specRoot, commit, tag, artifacts, out)) ==
            if NoNul(specRoot) && NoNul(commit) && NoNul(tag) && NoNul(artifacts) && NoNul(out)
            then Some(["node", specRoot + BUILDER, "--commit", commit, "--tag", tag, "--artifacts", artifacts,
                       "--out", out, "--emit-summary"])
            else None
  {
    ScriptsHaveNoNul();
    NoNulTogether(specRoot, BUILDER);
    BuildLineIsItsPieces(specRoot + BUILDER, commit, tag, artifacts, out);
    BuildPiecesArgv(specRoot + BUILDER, commit, tag, artifacts, out);
  }
}
