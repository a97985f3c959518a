/**
 * The scripts the editor host sends to the WebView (`execJs`), a reference reader for the call
 * syntax they use (a function name and single-quoted JavaScript string literals), and the
 * escaping applied to the strings spliced into them.
 */
module JsBridge {
  import opened Text
  import opened Wrappers

  /**
   * `execJs(func, arg)`: the call `javascript:func('arg');`, or `javascript:func();` when `arg`
   * is null. The text is grouped the way the page reads it: scheme, name, `(`, then the rest.
   */
  function ExecJs(func: string, arg: Option<string>): string {
    match arg
    case Some(a) => Scheme + func + "(" + ("'" + (a + "'" + ");"))
    case None => Scheme + func + "(" + ");"
  }

  /** `execJs(func, arg1, arg2)`: the call `javascript:func('arg1', 'arg2');`. */
  function ExecJs2(func: string, arg1: string, arg2: string): string {
    Scheme + func + "(" + ("'" + (arg1 + "'" + (", '" + (arg2 + "'" + ");"))))
  }

  /** A call of a function with string arguments, as the page's script engine sees it. */
  datatype Call = Call(func: string, args: seq<string>)

  /**
   * Reads the body of a single-quoted JavaScript string literal up to its closing quote and
   * returns its value and the text after the quote. Only the escapes `\'`, `\"` and `\\` are
   * read; a line break or any other escape is rejected, and so is a literal that does not end.
   */
  function ReadLiteral(s: string): (r: Option<(string, string)>)
    ensures r.Some? ==> |r.value.1| < |s|
    decreases |s|
  {
    if s == [] then None
    else if s[0] == '\'' then Some(([], s[1..]))
    else if s[0] == '\n' || s[0] == '\r' then None
    else if s[0] == '\\' then
      if |s| >= 2 && (s[1] == '\'' || s[1] == '"' || s[1] == '\\') then
        match ReadLiteral(s[2..])
        case Some(p) => Some(([s[1]] + p.0, p.1))
        case None => None
      else None
    else
      match ReadLiteral(s[1..])
      case Some(p) => Some(([s[0]] + p.0, p.1))
      case None => None
  }

  const Scheme: string := "javascript:"

  /**
   * Reads `javascript:f();`, `javascript:f('a');` or `javascript:f('a', 'b');` back into the
   * call it denotes; any other text is not a call.
   */
  function ParseCall(script: string): Option<Call> {
    if !StartsWith(script, Scheme) then None
    else
      var rest := script[|Scheme|..];
      var k := IndexOf(rest, '(');
      if k < 0 then None
      else
        match ParseArgs(rest[k + 1..])
        case Some(args) => Some(Call(rest[..k], args))
        case None => None
  }

  /** The argument list after the opening parenthesis, up to the closing `);`. */
  function ParseArgs(tail: string): Option<seq<string>> {
    if tail == ");" then Some([])
    else if tail == [] || tail[0] != '\'' then None
    else
      match ReadLiteral(tail[1..])
      case None => None
      case Some(p) =>
        if p.1 == ");" then Some([p.0])
        else
          match ParseSecond(p.1)
          case Some(b) => Some([p.0, b])
          case None => None
  }

  /** A second argument: `, '` then a literal, then `);`. */
  function ParseSecond(r: string): Option<string> {
    if !StartsWith(r, ", '") then None
    else
      match ReadLiteral(r[3..])
      case Some(q) => if q.1 == ");" then Some(q.0) else None
      case None => None
  }

  /** A script for `func` is read by reading its argument list. */
  lemma ParseCallOf(func: string, tail: string)
    requires '(' !in func
    ensures ParseCall(Scheme + func + "(" + tail) ==
      match ParseArgs(tail)
      case Some(args) => Some(Call(func, args))
      case None => None
  {
    var rest := (Scheme + func + "(" + tail)[|Scheme|..];
    assert rest == func + "(" + tail;
    assert rest[|func|] == '(';
    assert rest[..|func|] == func;
    assert rest[|func| + 1..] == tail;
  }

  lemma ArgsOne(a: string, reader: string)
    requires ReadLiteral(reader) == Some((a, ");"))
    ensures ParseArgs("'" + reader) == Some([a])
  {
    assert ("'" + reader)[1..] == reader;
  }

  lemma ArgsTwo(a: string, reader: string, second: string, b: string)
    requires ReadLiteral(reader) == Some((a, ", '" + second))
    requires ReadLiteral(second) == Some((b, ");"))
    ensures ParseArgs("'" + reader) == Some([a, b])
  {
    assert ("'" + reader)[1..] == reader;
    var r := ", '" + second;
    assert r[..3] == ", '" && r[3..] == second;
    assert r != ");";
  }

  /** A first literal followed by neither `);` nor a second argument is not an argument list. */
  lemma ArgsStopAfterFirst(reader: string, a: string, after: string)
    requires ReadLiteral(reader) == Some((a, after))
    requires after != ");" && ParseSecond(after) == None
    ensures ParseArgs("'" + reader) == None
  {
    assert ("'" + reader)[1..] == reader;
  }

  /** A lone apostrophe as the first of two arguments ends the literal early. */
  lemma LoneApostropheBreaks(func: string, b: string)
    requires '(' !in func
    ensures ParseCall(ExecJs2(func, "'", b)) == None
  {
    var y := ", '" + (b + "'" + ");");
    var reader := "'" + "'" + y;
    var after := "'" + y;
    assert reader[1..] == after;
    ParseCallOf(func, "'" + reader);
    assert ReadLiteral(reader) == Some(([], after));
    assert after[0] == '\'';
    ArgsStopAfterFirst(reader, [], after);
  }

  /** An apostrophe inside a single argument ends the literal early. */
  lemma InnerApostropheBreaks(func: string, x: string, y: string)
    requires '(' !in func && Plain(x)
    requires y != [] && y[0] != ',' && y[0] != ')'
    ensures ParseCall(ExecJs(func, Some(x + "'" + y))) == None
  {
    var tail := "'" + (x + "'" + (y + "');"));
    assert ExecJs(func, Some(x + "'" + y)) == Scheme + func + "(" + tail;
    ParseCallOf(func, tail);
    ArgsInnerApostrophe(x, y);
  }

  lemma ArgsInnerApostrophe(x: string, y: string)
    requires Plain(x)
    requires y != [] && y[0] != ',' && y[0] != ')'
    ensures ParseArgs("'" + (x + "'" + (y + "');"))) == None
  {
    var after := y + "');";
    var reader := x + "'" + after;
    ReadPlain(x, after);
    assert after[0] == y[0];
    assert after != ");" by { assert after[0] != ')'; }
    assert ParseSecond(after) == None by {
      assert !StartsWith(after, ", '") by { assert after[0] != ','; }
    }
    ArgsStopAfterFirst(reader, x, after);
  }

  /** Text that can sit inside a single-quoted literal as it is. */
  predicate Plain(a: string) {
    '\'' !in a && '\\' !in a && '\n' !in a && '\r' !in a
  }

  lemma {:induction false} ReadPlain(a: string, rest: string)
    requires Plain(a)
    ensures ReadLiteral(a + "'" + rest) == Some((a, rest))
    decreases |a|
  {
    if a == [] {
      assert a + "'" + rest == "'" + rest;
    } else {
      ReadPlain(a[1..], rest);
      assert a[1..] + ("'" + rest) == a[1..] + "'" + rest;
      ReadPlainHead(a, "'" + rest, a[1..], rest);
      assert a + ("'" + rest) == a + "'" + rest;
      assert [a[0]] + a[1..] == a;
    }
  }

  /** A text starting with a character that needs no escape reads that character, then the rest. */
  lemma ReadPlainHead(a: string, e: string, v: string, rest: string)
    requires a != [] && a[0] != '\'' && a[0] != '\\' && a[0] != '\n' && a[0] != '\r'
    requires ReadLiteral(a[1..] + e) == Some((v, rest))
    ensures ReadLiteral(a + e) == Some(([a[0]] + v, rest))
  {
    assert (a + e)[0] == a[0];
    assert (a + e)[1..] == a[1..] + e;
  }

  /** A character that needs no escape is read as itself in front of a literal's rest. */
  lemma ReadPlainCons(c: char, e: string, v: string, rest: string)
    requires c != '\'' && c != '\\' && c != '\n' && c != '\r'
    requires ReadLiteral(e) == Some((v, rest))
    ensures ReadLiteral([c] + e) == Some(([c] + v, rest))
  {
    assert ([c] + e)[1..] == e;
  }

  /** A backslash escape of `'`, `"` or `\` is read as the escaped character. */
  lemma ReadBackslashCons(c: char, e: string, v: string, rest: string)
    requires c == '\'' || c == '"' || c == '\\'
    requires ReadLiteral(e) == Some((v, rest))
    ensures ReadLiteral(['\\', c] + e) == Some(([c] + v, rest))
  {
    assert (['\\', c] + e)[2..] == e;
  }

  /** A call without argument reads back as itself. */
  lemma ExecJsNoArgument(func: string)
    requires '(' !in func
    ensures ParseCall(ExecJs(func, None)) == Some(Call(func, []))
  {
    assert ExecJs(func, None) == Scheme + func + "(" + ");";
    ParseCallOf(func, ");");
  }

  /** A one-argument call whose argument needs no escaping reads back as itself. */
  lemma ExecJsOneArgument(func: string, a: string)
    requires '(' !in func && Plain(a)
    ensures ParseCall(ExecJs(func, Some(a))) == Some(Call(func, [a]))
  {
    var reader := a + "'" + ");";
    assert ExecJs(func, Some(a)) == Scheme + func + "(" + ("'" + reader);
    ReadPlain(a, ");");
    ArgsOne(a, reader);
    ParseCallOf(func, "'" + reader);
  }

  /** A two-argument call whose arguments need no escaping reads back as itself. */
  lemma ExecJsTwoArguments(func: string, a: string, b: string)
    requires '(' !in func && Plain(a) && Plain(b)
    ensures ParseCall(ExecJs2(func, a, b)) == Some(Call(func, [a, b]))
  {
    ReadPlain(a, ", '" + (b + "'" + ");"));
    ReadPlain(b, ");");
    TwoLiteralsReadBack(func, a, b, a, b);
  }

  /** Two spliced texts that read back as `va` and `vb` make a call with those arguments. */
  lemma TwoLiteralsReadBack(func: string, ea: string, eb: string, va: string, vb: string)
    requires '(' !in func
    requires ReadLiteral(ea + "'" + (", '" + (eb + "'" + ");"))) == Some((va, ", '" + (eb + "'" + ");")))
    requires ReadLiteral(eb + "'" + ");") == Some((vb, ");"))
    ensures ParseCall(ExecJs2(func, ea, eb)) == Some(Call(func, [va, vb]))
  {
    var second := eb + "'" + ");";
    var reader := ea + "'" + (", '" + second);
    assert ExecJs2(func, ea, eb) == Scheme + func + "(" + ("'" + reader);
    ArgsTwo(va, reader, second, vb);
    ParseCallOf(func, "'" + reader);
  }

  /** A spliced text that reads back as `v` makes a call with that argument. */
  lemma OneLiteralReadsBack(func: string, e: string, v: string)
    requires '(' !in func
    requires ReadLiteral(e + "'" + ");") == Some((v, ");"))
    ensures ParseCall(ExecJs(func, Some(e))) == Some(Call(func, [v]))
  {
    var reader := e + "'" + ");";
    assert ExecJs(func, Some(e)) == Scheme + func + "(" + ("'" + reader);
    ArgsOne(v, reader);
    ParseCallOf(func, "'" + reader);
  }

  /**
   * The apostrophe escape the host applies, `replace("'", "\'")`: in Kotlin `"\'"` is a lone
   * apostrophe, so this replaces each apostrophe by itself.
   */
  function EscapeQuoteAsWritten(s: string): (r: string)
    ensures r == s
  {
    ReplaceCharBySelf(s, '\'');
    ReplaceAll(s, "'", "'")
  }

  /** The evidently intended escape: each apostrophe becomes backslash-apostrophe. */
  function EscapeQuote(s: string): string {
    ReplaceAll(s, "'", "\\'")
  }

  /** Text that the intended apostrophe escape makes safe inside a single-quoted literal. */
  predicate Escapable(s: string) {
    '\\' !in s && '\n' !in s && '\r' !in s
  }

  /** An escaped string and a closing quote read back as the original string. */
  lemma {:induction false} ReadEscaped(s: string, rest: string)
    requires Escapable(s)
    ensures ReadLiteral(EscapeQuote(s) + "'" + rest) == Some((s, rest))
    decreases |s|
  {
    if s == [] {
      assert EscapeQuote(s) + "'" + rest == "'" + rest;
    } else {
      var c := s[0];
      var t := s[1..];
      assert s == [c] + t;
      ReplaceCharConcat([c], t, '\'', "\\'");
      ReadEscaped(t, rest);
      var e := EscapeQuote(t) + "'" + rest;
      ReadEscapedStep(c, e, t, rest);
      assert EscapeQuote(s) + "'" + rest == EscapeQuote([c]) + e;
    }
  }

  /** One escaped character in front of an escaped rest reads as that character. */
  lemma ReadEscapedStep(c: char, e: string, v: string, rest: string)
    requires c != '\\' && c != '\n' && c != '\r'
    requires ReadLiteral(e) == Some((v, rest))
    ensures ReadLiteral(EscapeQuote([c]) + e) == Some(([c] + v, rest))
  {
    ReplaceCharStep([c], '\'', "\\'");
    if c == '\'' {
      assert EscapeQuote([c]) == ['\\', c];
      ReadBackslashCons(c, e, v, rest);
    } else {
      assert EscapeQuote([c]) == [c];
      ReadPlainCons(c, e, v, rest);
    }
  }

  /** `insertSymbolWithFont` as written: the escapes change nothing. */
  function InsertSymbolScriptAsWritten(symbol: string, fontName: string): string {
    ExecJs2("insertSymbol", EscapeQuoteAsWritten(symbol), EscapeQuoteAsWritten(fontName))
  }

  /** Picking the apostrophe symbol (U+0027), in any font, yields a script that is not a call at all. */
  lemma InsertApostropheAsWrittenBreaks(fontName: string)
    ensures ParseCall(InsertSymbolScriptAsWritten("'", fontName)) == None
  {
    var symbol := "'";
    assert EscapeQuoteAsWritten(symbol) == symbol && EscapeQuoteAsWritten(fontName) == fontName;
    assert '(' !in "insertSymbol";
    LoneApostropheBreaks("insertSymbol", fontName);
  }

  /** `insertSymbolWithFont` with the intended escape. */
  function InsertSymbolScript(symbol: string, fontName: string): string {
    ExecJs2("insertSymbol", EscapeQuote(symbol), EscapeQuote(fontName))
  }

  /** With the intended escape the page receives exactly the picked symbol and font. */
  lemma InsertSymbolReadsBack(symbol: string, fontName: string)
    requires Escapable(symbol) && Escapable(fontName)
    ensures ParseCall(InsertSymbolScript(symbol, fontName)) == Some(Call("insertSymbol", [symbol, fontName]))
  {
    var b := EscapeQuote(fontName);
    ReadEscaped(symbol, ", '" + (b + "'" + ");"));
    ReadEscaped(fontName, ");");
    TwoLiteralsReadBack("insertSymbol", EscapeQuote(symbol), b, symbol, fontName);
  }

  /** Without apostrophes the escapes as written and the intended ones build the same script. */
  lemma InsertSymbolScriptsAgree(symbol: string, fontName: string)
    requires '\'' !in symbol && '\'' !in fontName
    ensures InsertSymbolScriptAsWritten(symbol, fontName) == InsertSymbolScript(symbol, fontName)
  {
    ReplaceCharAbsent(symbol, '\'', "\\'");
    ReplaceCharAbsent(fontName, '\'', "\\'");
  }

  /** A symbol and font without quotes or backslashes reach the page as they are, as written. */
  lemma InsertAsWrittenReadsBack(symbol: string, fontName: string)
    requires Plain(symbol) && Plain(fontName)
    ensures ParseCall(InsertSymbolScriptAsWritten(symbol, fontName)) == Some(Call("insertSymbol", [symbol, fontName]))
  {
    InsertSymbolScriptsAgree(symbol, fontName);
    InsertSymbolReadsBack(symbol, fontName);
  }

  /**
   * `loadDocument`'s escape chain as written: apostrophes (unchanged), then `"` to `\"`, then
   * each line feed to `<br>`.
   */
  function LoadEscapeAsWritten(content: string): string {
    ReplaceAll(ReplaceAll(EscapeQuoteAsWritten(content), "\"", "\\\""), "\n", "<br>")
  }

  /** Text without double quotes or line feeds passes the chain as written unchanged. */
  lemma LoadAsWrittenKeeps(content: string)
    requires '"' !in content && '\n' !in content
    ensures LoadEscapeAsWritten(content) == content
  {
    ReplaceCharAbsent(content, '"', "\\\"");
    ReplaceCharAbsent(content, '\n', "<br>");
  }

  /** A document containing an apostrophe, such as "don't", is sent as a script that is not a call. */
  lemma LoadApostropheAsWrittenBreaks()
    ensures ParseCall(ExecJs("setDocumentHtml", Some(LoadEscapeAsWritten("don't")))) == None
  {
    var content := "don" + "'" + "t";
    assert '"' !in content && '\n' !in content;
    LoadAsWrittenKeeps(content);
    InnerApostropheBreaks("setDocumentHtml", "don", "t");
    assert content == "don't";
  }

  /** Without apostrophes the chain as written and the intended chain agree. */
  lemma LoadEscapeAgrees(content: string)
    requires '\'' !in content
    ensures LoadEscapeAsWritten(content) == LoadEscape(content)
  {
    ReplaceCharAbsent(content, '\'', "\\'");
  }

  /** `loadDocument`'s escape chain with the intended apostrophe escape. */
  function LoadEscape(content: string): string {
    ReplaceAll(ReplaceAll(EscapeQuote(content), "\"", "\\\""), "\n", "<br>")
  }

  /** The value the page reads from the escaped content: the content with line feeds as `<br>`. */
  function Shown(content: string): string {
    ReplaceAll(content, "\n", "<br>")
  }

  lemma LoadEscapeConcat(a: string, b: string)
    ensures LoadEscape(a + b) == LoadEscape(a) + LoadEscape(b)
  {
    ReplaceCharConcat(a, b, '\'', "\\'");
    ReplaceCharConcat(EscapeQuote(a), EscapeQuote(b), '"', "\\\"");
    ReplaceCharConcat(ReplaceAll(EscapeQuote(a), "\"", "\\\""), ReplaceAll(EscapeQuote(b), "\"", "\\\""),
                      '\n', "<br>");
  }

  /** How one character is escaped, and what the page reads back from it. */
  lemma LoadEscapeChar(c: char)
    ensures LoadEscape([c]) == if c == '\'' then "\\'" else if c == '"' then "\\\"" else if c == '\n' then "<br>" else [c]
    ensures Shown([c]) == if c == '\n' then "<br>" else [c]
  {
    ReplaceCharStep([c], '\'', "\\'");
    ReplaceCharStep([c], '\n', "<br>");
    var e := EscapeQuote([c]);
    if c == '\'' {
      assert e == "\\'";
      ReplaceCharAbsent(e, '"', "\\\"");
      ReplaceCharAbsent(e, '\n', "<br>");
    } else if c == '"' {
      assert e == [c];
      ReplaceCharStep(e, '"', "\\\"");
      ReplaceCharAbsent("\\\"", '\n', "<br>");
    } else {
      assert e == [c];
      ReplaceCharStep(e, '"', "\\\"");
      ReplaceCharStep([c], '\n', "<br>");
    }
  }

  /** Characters that need no escape are read one by one in front of a literal's rest. */
  lemma {:induction false} ReadPlainPrefix(a: string, e: string, v: string, rest: string)
    requires Plain(a) && ReadLiteral(e) == Some((v, rest))
    ensures ReadLiteral(a + e) == Some((a + v, rest))
    decreases |a|
  {
    if a == [] {
      assert a + e == e && a + v == v;
    } else {
      ReadPlainPrefix(a[1..], e, v, rest);
      ReadPlainHead(a, e, a[1..] + v, rest);
      assert [a[0]] + (a[1..] + v) == a + v;
    }
  }

  /** One escaped character in front of an escaped rest reads as the shown character. */
  lemma ReadLoadStep(c: char, e: string, v: string, rest: string)
    requires c != '\\' && c != '\r'
    requires ReadLiteral(e) == Some((v, rest))
    ensures ReadLiteral(LoadEscape([c]) + e) == Some((Shown([c]) + v, rest))
  {
    LoadEscapeChar(c);
    if c == '\'' || c == '"' {
      assert LoadEscape([c]) == ['\\', c];
      ReadBackslashCons(c, e, v, rest);
    } else if c == '\n' {
      ReadPlainPrefix("<br>", e, v, rest);
    } else {
      ReadPlainCons(c, e, v, rest);
    }
  }

  /** Escaping and showing split a text into its first character and the rest. */
  lemma LoadSplit(content: string)
    requires content != []
    ensures LoadEscape(content) == LoadEscape([content[0]]) + LoadEscape(content[1..])
    ensures Shown(content) == Shown([content[0]]) + Shown(content[1..])
  {
    assert content == [content[0]] + content[1..];
    LoadEscapeConcat([content[0]], content[1..]);
    ReplaceCharConcat([content[0]], content[1..], '\n', "<br>");
  }

  /**
   * With the intended apostrophe escape, the page reads back exactly the document text, with
   * each line feed shown as `<br>`.
   */
  lemma {:induction false} ReadLoadEscaped(content: string, rest: string)
    requires '\\' !in content && '\r' !in content
    ensures ReadLiteral(LoadEscape(content) + "'" + rest) == Some((Shown(content), rest))
    decreases |content|
  {
    if content == [] {
      LoadEscapeEmpty();
      assert LoadEscape(content) + "'" + rest == "'" + rest;
    } else {
      assert '\\' !in content[1..] && '\r' !in content[1..];
      ReadLoadEscaped(content[1..], rest);
      ReadLoadCons(content, rest);
    }
  }

  lemma LoadEscapeEmpty()
    ensures LoadEscape([]) == [] && Shown([]) == []
  {
  }

  /** The reading of an escaped text extends by its first character. */
  lemma ReadLoadCons(content: string, rest: string)
    requires content != [] && content[0] != '\\' && content[0] != '\r'
    requires ReadLiteral(LoadEscape(content[1..]) + "'" + rest) == Some((Shown(content[1..]), rest))
    ensures ReadLiteral(LoadEscape(content) + "'" + rest) == Some((Shown(content), rest))
  {
    var c := content[0];
    var t := content[1..];
    LoadSplit(content);
    ReadLoadStep(c, LoadEscape(t) + "'" + rest, Shown(t), rest);
    ReadRegroup(LoadEscape(content), LoadEscape([c]), LoadEscape(t), Shown(content), Shown([c]), Shown(t), rest);
  }

  /** A literal read from a text split in two reads the same from the whole. */
  lemma ReadRegroup(whole: string, a: string, b: string, v: string, va: string, vb: string, rest: string)
    requires whole == a + b && v == va + vb
    requires ReadLiteral(a + (b + "'" + rest)) == Some((va + vb, rest))
    ensures ReadLiteral(whole + "'" + rest) == Some((v, rest))
  {
    assert whole + "'" + rest == a + (b + "'" + rest);
  }

  /** The document the page receives on load, with the intended escape. */
  lemma LoadScriptReadsBack(content: string)
    requires '\\' !in content && '\r' !in content
    ensures ParseCall(ExecJs("setDocumentHtml", Some(LoadEscape(content))))
            == Some(Call("setDocumentHtml", [Shown(content)]))
  {
    ReadLoadEscaped(content, ");");
    OneLiteralReadsBack("setDocumentHtml", LoadEscape(content), Shown(content));
  }

  /** A document without apostrophes or backslashes reaches the page even as written. */
  lemma LoadAsWrittenReadsBack(content: string)
    requires '\'' !in content && '\\' !in content && '\r' !in content
    ensures ParseCall(ExecJs("setDocumentHtml", Some(LoadEscapeAsWritten(content))))
            == Some(Call("setDocumentHtml", [Shown(content)]))
  {
    LoadEscapeAgrees(content);
    LoadScriptReadsBack(content);
  }

  /**
   * `saveDocument`'s unescape of the string the page returns: the surrounding quotes are cut
   * off (a result shorter than two characters makes `substring` throw), each `\"` becomes `"`,
   * and each apostrophe is replaced by itself.
   */
  function SaveUnescape(html: string): (r: Option<string>)
    ensures r.Some? <==> |html| >= 2
  {
    if |html| < 2 then None
    else
      var inner := html[1..|html| - 1];
      Some(EscapeQuoteAsWritten(ReplaceAll(inner, "\\\"", "\"")))
  }

  /** The load-side quote escape followed by the save-side unescape gives back the text. */
  lemma QuoteEscapeRoundTrip(s: string)
    ensures ReplaceAll(ReplaceAll(s, "\"", "\\\""), "\\\"", "\"") == s
  {
    EscapeThenUnescape(s, '"');
  }

  /** A string returned in double quotes with its quotes escaped is saved as it is. */
  lemma SaveUnescapeQuoted(s: string)
    ensures SaveUnescape("\"" + ReplaceAll(s, "\"", "\\\"") + "\"") == Some(s)
  {
    var e := ReplaceAll(s, "\"", "\\\"");
    var html := "\"" + e + "\"";
    assert html[1..|html| - 1] == e;
    QuoteEscapeRoundTrip(s);
  }
}
