/**
 * `EditorActivity`: the current document path, the font spinner, the font-size check, the
 * save decisions and the `@font-face` style sheet the host builds for the page.
 */
module Editor {
  import opened Text
  import opened Wrappers
  import opened Numbers
  import opened Files
  import opened JsBridge
  import BulletDialog

  const MinFontSize: int := 8
  const MaxFontSize: int := 150

  // ---- Font size -------------------------------------------------------------------------

  /** The font-size dialog: a command is issued only for an integer in 8..150. */
  function FontSizeScript(input: string): (r: Option<string>)
    ensures r.Some? <==> ToIntOrNull(input).Some? && MinFontSize <= ToIntOrNull(input).value <= MaxFontSize
  {
    match ToIntOrNull(input)
    case Some(size) =>
      if MinFontSize <= size <= MaxFontSize then Some(ExecJs("applyFontSize", Some(IntToString(size))))
      else None
    case None => None
  }

  lemma NatToStringPlain(n: nat)
    ensures Plain(NatToString(n))
  {
    var s := NatToString(n);
    assert forall i :: 0 <= i < |s| ==> s[i] != '\'' && s[i] != '\\' && s[i] != '\n' && s[i] != '\r';
  }

  /** Typing a size in range makes the page call `applyFontSize` with exactly that size. */
  lemma FontSizeAccepted(size: int)
    requires MinFontSize <= size <= MaxFontSize
    ensures FontSizeScript(IntToString(size)).Some?
    ensures ParseCall(FontSizeScript(IntToString(size)).value) == Some(Call("applyFontSize", [IntToString(size)]))
  {
    ParseShowRoundTrip(size);
    NatToStringPlain(size);
    ExecJsOneArgument("applyFontSize", IntToString(size));
  }

  /** A number outside 8..150 issues nothing. */
  lemma FontSizeRejected(size: int)
    requires IntMin <= size <= IntMax
    requires size < MinFontSize || MaxFontSize < size
    ensures FontSizeScript(IntToString(size)) == None
  {
    ParseShowRoundTrip(size);
  }

  // ---- Current style reported by the page ------------------------------------------------

  /** `fontName.split(',')[0].trim()` with every `'` and `"` removed. */
  function PrimaryFont(fontName: string): (r: string)
    ensures ',' !in r && '\'' !in r && '"' !in r
    ensures forall d :: d in r ==> d in fontName
  {
    var first := Trim(SubstringBefore(fontName, ','));
    var unquoted := ReplaceAll(first, "'", "");
    var r := ReplaceAll(unquoted, "\"", "");
    assert forall d :: d in first ==> d in fontName by {
      forall d | d in first ensures d in fontName {
        var head := SubstringBefore(fontName, ',');
        assert d in head;
        var i :| 0 <= i < |head| && head[i] == d;
        assert fontName[i] == d;
      }
    }
    assert forall d :: d in r ==> d in unquoted && d != '"' by {
      forall d | d in r ensures d in unquoted && d != '"' {
        ReplaceCharOrigin(unquoted, '"', "", d);
      }
    }
    assert forall d :: d in unquoted ==> d in first && d != '\'' by {
      forall d | d in unquoted ensures d in first && d != '\'' {
        ReplaceCharOrigin(first, '\'', "", d);
      }
    }
    r
  }

  /** A name without commas, quotes or surrounding blanks is its own primary font. */
  predicate BareFontName(n: string) {
    && ',' !in n && '\'' !in n && '"' !in n
    && (n == [] || (!IsWhitespace(n[0]) && !IsWhitespace(n[|n| - 1])))
  }

  lemma BareHead(n: string, rest: string)
    requires ',' !in n
    ensures SubstringBefore(n + "," + rest, ',') == n
    ensures SubstringBefore(n, ',') == n
  {
    var s := n + "," + rest;
    var h := SubstringBefore(s, ',');
    assert s[|n|] == ',';
    assert forall i :: 0 <= i < |n| ==> s[i] == n[i];
    assert forall i :: 0 <= i < |h| ==> h[i] == s[i];
    assert |h| == |n|;
    assert h == s[..|n|] == n;
  }

  /** `font-family: Name, fallback` reports `Name`. */
  lemma PrimaryFontOfList(n: string, rest: string)
    requires BareFontName(n)
    ensures PrimaryFont(n + "," + rest) == n
    ensures PrimaryFont(n) == n
  {
    BareHead(n, rest);
    TrimNoop(n);
    ReplaceCharAbsent(n, '\'', "");
    ReplaceCharAbsent(n, '"', "");
  }

  /** `font-family: 'Name', fallback` reports `Name` without its quotes. */
  lemma PrimaryFontOfQuoted(n: string, rest: string)
    requires ',' !in n && '\'' !in n && '"' !in n
    ensures PrimaryFont("'" + n + "'" + "," + rest) == n
  {
    var q := "'" + n + "'";
    BareHead(q, rest);
    TrimNoop(q);
    ReplaceCharConcat("'" + n, "'", '\'', "");
    ReplaceCharConcat("'", n, '\'', "");
    ReplaceCharStep("'", '\'', "");
    ReplaceCharAbsent(n, '\'', "");
    assert ReplaceAll(q, "'", "") == n;
    ReplaceCharAbsent(n, '"', "");
  }

  /**
   * The spinner's reaction to a reported font: the position of its first occurrence, when it
   * is listed and not already selected; otherwise no change.
   */
  function SpinnerSelection(items: seq<string>, selected: int, primaryFont: string): (r: Option<nat>)
    ensures r.Some? <==> primaryFont in items && IndexOf(items, primaryFont) != selected
    ensures r.Some? ==> r.value < |items| && items[r.value] == primaryFont && primaryFont !in items[..r.value]
    ensures r.Some? ==> r.value != selected
  {
    var position := IndexOf(items, primaryFont);
    if position >= 0 && selected != position then Some(position) else None
  }

  // ---- Font list and style sheet ---------------------------------------------------------

  function BuiltInNames(files: seq<string>): (r: seq<string>)
    ensures |r| == |files|
    ensures forall i :: 0 <= i < |files| ==> r[i] == SubstringBefore(files[i], '.') && '.' !in r[i]
  {
    seq(|files|, i requires 0 <= i < |files| => SubstringBefore(files[i], '.'))
  }

  function UserNames(files: seq<string>): (r: seq<string>)
    ensures |r| == |files|
    ensures forall j :: 0 <= j < |files| ==> r[j] == NameWithoutExtension(files[j])
  {
    seq(|files|, j requires 0 <= j < |files| => NameWithoutExtension(files[j]))
  }

  /**
   * The editor's font spinner: the bundled asset names cut at their first `.`, then the user
   * files without their extension (every file of the directory, whatever its suffix).
   */
  function EditorFontList(builtIn: Option<seq<string>>, userFiles: Option<seq<string>>): (r: seq<string>)
    ensures |r| == |builtIn.GetOr([])| + |userFiles.GetOr([])|
  {
    BuiltInNames(builtIn.GetOr([])) + UserNames(userFiles.GetOr([]))
  }

  const AssetFontsUrl: string := "file:///android_asset/fonts/"

  /** One `@font-face` rule. */
  function FontFaceRule(family: string, url: string): string {
    "@font-face { font-family:'" + family + "'; src:url('" + url + "'); }"
  }

  /** The (family, url) pair declared for a bundled font file. */
  function BuiltInFace(file: string): (string, string) {
    (SubstringBefore(file, '.'), AssetFontsUrl + file)
  }

  /** The (family, url) pair declared for a user font file. */
  function UserFace(file: string): (string, string) {
    (NameWithoutExtension(file), "file://" + Child(UserFontsDir, file))
  }

  function BuiltInFaces(builtIn: seq<string>): (r: seq<(string, string)>)
    ensures |r| == |builtIn|
    ensures forall i :: 0 <= i < |builtIn| ==> r[i] == BuiltInFace(builtIn[i])
  {
    seq(|builtIn|, i requires 0 <= i < |builtIn| => BuiltInFace(builtIn[i]))
  }

  function UserFaces(userFiles: seq<string>): (r: seq<(string, string)>)
    ensures |r| == |userFiles|
    ensures forall j :: 0 <= j < |userFiles| ==> r[j] == UserFace(userFiles[j])
  {
    seq(|userFiles|, j requires 0 <= j < |userFiles| => UserFace(userFiles[j]))
  }

  /** Every declared face, bundled fonts first, each in listing order. */
  function FontFaces(builtIn: seq<string>, userFiles: seq<string>): (r: seq<(string, string)>)
    ensures |r| == |builtIn| + |userFiles|
  {
    BuiltInFaces(builtIn) + UserFaces(userFiles)
  }

  function Rules(faces: seq<(string, string)>): (r: seq<string>)
    ensures |r| == |faces|
    ensures forall i :: 0 <= i < |r| ==> r[i] == FontFaceRule(faces[i].0, faces[i].1)
  {
    seq(|faces|, i requires 0 <= i < |faces| => FontFaceRule(faces[i].0, faces[i].1))
  }

  lemma RulesAppend(a: seq<(string, string)>, b: seq<(string, string)>)
    ensures Rules(a + b) == Rules(a) + Rules(b)
  {
  }

  /** The family names the rules declare, in rule order. */
  function Families(faces: seq<(string, string)>): (r: seq<string>)
    ensures |r| == |faces|
    ensures forall i :: 0 <= i < |faces| ==> r[i] == faces[i].0
  {
    seq(|faces|, i requires 0 <= i < |faces| => faces[i].0)
  }

  /**
   * The page's spinner and its style sheet agree: the font at each spinner position is the
   * family declared by the rule at the same position.
   */
  lemma SpinnerFamiliesDeclared(builtIn: Option<seq<string>>, userFiles: Option<seq<string>>)
    ensures Families(FontFaces(builtIn.GetOr([]), userFiles.GetOr([]))) == EditorFontList(builtIn, userFiles)
  {
    var b := builtIn.GetOr([]);
    var u := userFiles.GetOr([]);
    assert Families(BuiltInFaces(b)) == BuiltInNames(b);
    assert Families(UserFaces(u)) == UserNames(u);
    assert Families(BuiltInFaces(b) + UserFaces(u)) == Families(BuiltInFaces(b)) + Families(UserFaces(u));
  }

  lemma FlattenStep(rules: seq<string>, i: nat, rule: string)
    requires i < |rules| && rules[i] == rule
    ensures Flatten(rules[..i + 1]) == Flatten(rules[..i]) + rule
  {
    assert rules[..i + 1][..i] == rules[..i];
  }

  /**
   * `injectAllFontsCSS`: one rule per bundled font, then, when the user directory can be
   * listed, one per user file; a missing listing (null, or a missing directory) adds nothing.
   */
  method BuildFontCss(builtIn: Option<seq<string>>, userFiles: Option<seq<string>>) returns (css: string)
    ensures css == Flatten(Rules(FontFaces(builtIn.GetOr([]), userFiles.GetOr([]))))
  {
    var b := builtIn.GetOr([]);
    var u := userFiles.GetOr([]);
    var builtInCss := BuiltInFontCss(b);
    var userCss := UserFontCss(u);
    css := builtInCss + userCss;
    RulesAppend(BuiltInFaces(b), UserFaces(u));
    FlattenAppend(Rules(BuiltInFaces(b)), Rules(UserFaces(u)));
  }

  /** The bundled-font loop: the family is the name before the first `.`, through the as-written escape. */
  method BuiltInFontCss(files: seq<string>) returns (css: string)
    ensures css == Flatten(Rules(BuiltInFaces(files)))
  {
    css := "";
    ghost var rules := Rules(BuiltInFaces(files));
    for i := 0 to |files|
      invariant css == Flatten(rules[..i])
    {
      var name := SubstringBefore(files[i], '.');
      var cssFriendlyName := EscapeQuoteAsWritten(name);
      var url := AssetFontsUrl + files[i];
      var rule := FontFaceRule(cssFriendlyName, url);
      FlattenStep(rules, i, rule);
      css := css + rule;
    }
    assert rules[..|files|] == rules;
  }

  /** The user-font loop: the family is the file name without extension, through the as-written escape. */
  method UserFontCss(files: seq<string>) returns (css: string)
    ensures css == Flatten(Rules(UserFaces(files)))
  {
    css := "";
    ghost var rules := Rules(UserFaces(files));
    for j := 0 to |files|
      invariant css == Flatten(rules[..j])
    {
      var name := NameWithoutExtension(files[j]);
      var cssFriendlyName := EscapeQuoteAsWritten(name);
      var url := "file://" + Child(UserFontsDir, files[j]);
      var rule := FontFaceRule(cssFriendlyName, url);
      FlattenStep(rules, j, rule);
      css := css + rule;
    }
    assert rules[..|files|] == rules;
  }

  // ---- Saving ----------------------------------------------------------------------------

  /** The name the save prompt suggests: the current file's name without extension, else "". */
  function SuggestedName(currentDocPath: Option<string>): string {
    match currentDocPath
    case Some(path) => NameWithoutExtension(Name(path))
    case None => ""
  }

  /** The file a name typed at the prompt is written to: `docs/<name>.html`; none for "". */
  function PromptTarget(fileName: string): (r: Option<string>)
    ensures r.Some? <==> fileName != ""
  {
    if fileName != "" then Some(Child(DocsDir, fileName + ".html")) else None
  }

  /**
   * Where a save goes: the current path for a plain save of an opened or saved document;
   * otherwise the prompt decides (`answer` is `None` when the prompt is cancelled).
   */
  function SaveTarget(currentDocPath: Option<string>, forceNewName: bool, answer: Option<string>): (r: Option<string>)
    ensures currentDocPath.Some? && !forceNewName ==> r == currentDocPath
    ensures currentDocPath.None? || forceNewName ==>
      (r.Some? <==> answer.Some? && answer.value != "")
    ensures (currentDocPath.None? || forceNewName) && r.Some? ==>
      StartsWith(r.value, DocsDir + "/") && EndsWith(r.value, ".html")
  {
    if currentDocPath.Some? && !forceNewName then currentDocPath
    else
      match answer
      case Some(fileName) =>
        var r := PromptTarget(fileName);
        assert r.Some? ==> r.value == DocsDir + "/" + fileName + ".html";
        r
      case None => None
  }

  /**
   * A document saved under a typed name (without `/`) is an `.html` file of the documents
   * directory whose name is the typed name, and the prompt suggests that name again.
   */
  lemma PromptedDocumentListed(fileName: string)
    requires fileName != "" && '/' !in fileName
    ensures var path := PromptTarget(fileName).value;
      && InDir(path, DocsDir)
      && Name(path) == fileName + ".html"
      && Extension(Name(path)) == "html"
      && NameWithoutExtension(Name(path)) == fileName
      && SuggestedName(Some(path)) == fileName
  {
    var n := fileName + ".html";
    assert '/' !in n;
    ChildName(DocsDir, n);
    assert fileName + "." + "html" == n;
    LastDotOf(fileName, "html");
  }

  /** The last `.` of `base + "." + ext` is the one before `ext` when `ext` has none. */
  lemma LastDotOf(base: string, ext: string)
    requires '.' !in ext
    ensures NameWithoutExtension(base + "." + ext) == base
    ensures Extension(base + "." + ext) == ext
  {
    var n := base + "." + ext;
    assert n[|base|] == '.';
    assert n[|base| + 1..] == ext;
    LastIndexOfUnique(n, '.', |base|);
    assert n[..|base|] == base;
  }

  // ---- The activity ----------------------------------------------------------------------

  class EditorActivity {
    const store: DocumentStore
    var currentDocPath: Option<string>
    /** The font spinner's items once it is set up. */
    var fontItems: Option<seq<string>>
    var selectedFont: int

    constructor (store: DocumentStore)
      ensures this.store == store
      ensures currentDocPath == None && fontItems == None && selectedFont == -1
    {
      this.store := store;
      currentDocPath := None;
      fontItems := None;
      selectedFont := -1;
    }

    /** "New document": the path is forgotten and the page is cleared. */
    method NewDocument() returns (script: string)
      modifies this
      ensures currentDocPath == None
      ensures script == ExecJs("clearAll", None)
      ensures fontItems == old(fontItems) && selectedFont == old(selectedFont)
    {
      currentDocPath := None;
      script := ExecJs("clearAll", None);
    }

    /**
     * `loadDocument`: the path passed by the opener becomes the current path; an existing file
     * is sent through the escape chain as written, a missing one sends nothing, and no path
     * sends an empty document. Text with an apostrophe then reaches the page as no call at all
     * (`JsBridge.LoadApostropheAsWrittenBreaks`); other text arrives with line feeds as `<br>`.
     */
    method LoadDocument(extraDocPath: Option<string>) returns (script: Option<string>)
      modifies this
      ensures currentDocPath == extraDocPath
      ensures extraDocPath.None? ==> script == Some(ExecJs("setDocumentHtml", Some("")))
      ensures extraDocPath.Some? && extraDocPath.value in store.files ==>
        script == Some(ExecJs("setDocumentHtml", Some(LoadEscapeAsWritten(store.files[extraDocPath.value].text))))
      ensures extraDocPath.Some? && extraDocPath.value in store.files ==>
        var text := store.files[extraDocPath.value].text;
        '\'' !in text && '\\' !in text && '\r' !in text ==>
          ParseCall(script.value) == Some(Call("setDocumentHtml", [Shown(text)]))
      ensures extraDocPath.Some? && extraDocPath.value !in store.files ==> script == None
      ensures fontItems == old(fontItems) && selectedFont == old(selectedFont)
    {
      currentDocPath := extraDocPath;
      match extraDocPath
      case Some(path) =>
        if path in store.files {
          var content := store.files[path].text;
          var escapedContent := LoadEscapeAsWritten(content);
          script := Some(ExecJs("setDocumentHtml", Some(escapedContent)));
          if '\'' !in content && '\\' !in content && '\r' !in content {
            LoadAsWrittenReadsBack(content);
          }
        } else {
          script := None;
        }
      case None =>
        script := Some(ExecJs("setDocumentHtml", Some("")));
    }

    /**
     * `saveHtmlToFile`: the file is (over)written with the text and stamped with the time of the
     * write; only a write that succeeds makes the path current.
     */
    method SaveHtmlToFile(htmlContent: string, path: string, writeSucceeds: bool, now: int)
      modifies this, store
      ensures writeSucceeds ==> store.files == old(store.files)[path := DocFile(htmlContent, now)]
      ensures writeSucceeds ==> currentDocPath == Some(path)
      ensures !writeSucceeds ==> store.files == old(store.files) && currentDocPath == old(currentDocPath)
      ensures fontItems == old(fontItems) && selectedFont == old(selectedFont)
    {
      if writeSucceeds {
        store.files := store.files[path := DocFile(htmlContent, now)];
        currentDocPath := Some(path);
      }
    }

    /**
     * `saveDocument` with the page's `getDocumentHtml()` result: the unescaped text goes to the
     * target chosen by `SaveTarget`; a result too short to unquote, a cancelled prompt, an
     * empty name or a failed write leaves files and path as they were.
     */
    method SaveDocument(jsResult: string, forceNewName: bool, answer: Option<string>,
                        writeSucceeds: bool, now: int) returns (written: bool)
      modifies this, store
      ensures var text := SaveUnescape(jsResult);
        var target := SaveTarget(old(currentDocPath), forceNewName, answer);
        && (written <==> text.Some? && target.Some? && writeSucceeds)
        && (written ==> store.files == old(store.files)[target.value := DocFile(text.value, now)]
                        && currentDocPath == target)
        && (!written ==> store.files == old(store.files) && currentDocPath == old(currentDocPath))
      ensures fontItems == old(fontItems) && selectedFont == old(selectedFont)
    {
      var unescaped := SaveUnescape(jsResult);
      written := false;
      if unescaped.Some? {
        var htmlContent := unescaped.value;
        if currentDocPath.Some? && !forceNewName {
          SaveHtmlToFile(htmlContent, currentDocPath.value, writeSucceeds, now);
          written := writeSucceeds;
        } else if answer.Some? {
          var target := PromptTarget(answer.value);
          if target.Some? {
            SaveHtmlToFile(htmlContent, target.value, writeSucceeds, now);
            written := writeSucceeds;
          }
        }
      }
    }

    /**
     * `setupFontSpinner`: the spinner lists the editor fonts and selects the first one. The
     * spinner reports that first selection to its listener, which sends `applyFont` for it.
     */
    method SetupFontSpinner(builtIn: Option<seq<string>>, userFiles: Option<seq<string>>)
      returns (script: Option<string>)
      modifies this
      ensures fontItems == Some(EditorFontList(builtIn, userFiles))
      ensures selectedFont == if |EditorFontList(builtIn, userFiles)| > 0 then 0 else -1
      ensures script.Some? <==> selectedFont == 0
      ensures script.Some? ==> script.value == ApplyFontScript(EditorFontList(builtIn, userFiles)[0])
      ensures currentDocPath == old(currentDocPath)
    {
      var allFonts := EditorFontList(builtIn, userFiles);
      fontItems := Some(allFonts);
      if |allFonts| > 0 {
        selectedFont := 0;
        script := Some(ApplyFontScript(allFonts[0]));
      } else {
        selectedFont := -1;
        script := None;
      }
    }

    /**
     * `updateCurrentStyle`: the page reports the font at the caret; the spinner moves to it when
     * it is listed and not already selected, and the move makes the listener send `applyFont`
     * for the font at the new position. Before the spinner is set up nothing happens.
     */
    method UpdateCurrentStyle(fontName: string) returns (script: Option<string>)
      modifies this
      ensures fontItems == old(fontItems) && currentDocPath == old(currentDocPath)
      ensures fontItems.None? ==> selectedFont == old(selectedFont)
      ensures fontItems.Some? ==>
        selectedFont == match SpinnerSelection(fontItems.value, old(selectedFont), PrimaryFont(fontName))
                        case Some(position) => position
                        case None => old(selectedFont)
      ensures script.Some? <==> selectedFont != old(selectedFont)
      ensures script.Some? ==> fontItems.Some? && 0 <= selectedFont < |fontItems.value|
                               && script.value == ApplyFontScript(fontItems.value[selectedFont])
    {
      var primaryFont := PrimaryFont(fontName);
      script := None;
      if fontItems.Some? {
        var position := IndexOf(fontItems.value, primaryFont);
        if position >= 0 && selectedFont != position {
          selectedFont := position;
          script := Some(ApplyFontScript(fontItems.value[position]));
        }
      }
    }

    /**
     * `insertSymbolWithFont`, the symbol dialog's callback, with its escapes as written: a symbol
     * and font without quotes or backslashes reach `insertSymbol` unchanged.
     */
    method InsertSymbolWithFont(symbol: string, fontName: string) returns (script: string)
      ensures script == InsertSymbolScriptAsWritten(symbol, fontName)
      ensures Plain(symbol) && Plain(fontName) ==>
        ParseCall(script) == Some(Call("insertSymbol", [symbol, fontName]))
    {
      var escapedSymbol := EscapeQuoteAsWritten(symbol);
      var escapedFontName := EscapeQuoteAsWritten(fontName);
      script := ExecJs2("insertSymbol", escapedSymbol, escapedFontName);
      if Plain(symbol) && Plain(fontName) {
        InsertAsWrittenReadsBack(symbol, fontName);
      }
    }
  }

  /** The scripts of the editor's other actions. */
  function ApplyFontScript(name: string): string {
    ExecJs("applyFont", Some(name))
  }

  function SetListBulletScript(bullet: string): string {
    ExecJs("setListBullet", Some(bullet))
  }

  /** A bullet that needs no escaping reaches the page as it is. */
  lemma SetListBulletReadsBack(bullet: string)
    requires Plain(bullet)
    ensures ParseCall(SetListBulletScript(bullet)) == Some(Call("setListBullet", [bullet]))
  {
    ExecJsOneArgument("setListBullet", bullet);
  }

  /** A font name without quotes or backslashes reaches `applyFont` unchanged. */
  lemma ApplyFontReadsBack(name: string)
    requires Plain(name)
    ensures ParseCall(ApplyFontScript(name)) == Some(Call("applyFont", [name]))
  {
    ExecJsOneArgument("applyFont", name);
  }

  /** Each default bullet reaches `setListBullet` unchanged. */
  lemma DefaultBulletsReachPage()
    ensures forall b :: b in BulletDialog.DefaultBullets ==>
              ParseCall(SetListBulletScript(b)) == Some(Call("setListBullet", [b]))
  {
    forall b | b in BulletDialog.DefaultBullets
      ensures ParseCall(SetListBulletScript(b)) == Some(Call("setListBullet", [b]))
    {
      SetListBulletReadsBack(b);
    }
  }
}
