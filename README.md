# UrduWriter editor logic in Dafny

UrduWriter is an Android rich-text editor for Urdu. Its screens hold a number of small rules
that can be stated exactly, and this project models them as one layer with the platform taken
away:

- the symbol picker: its catalogue of Unicode ranges, its list of recent symbols (the most
  recently used first, at most 10), and the order in which it looks for a font;
- the custom bullet list;
- the editor. This covers the JavaScript the host sends to the editing page, the escaping of a
  document on load and on save, where a save goes, how the current document path changes,
  the font-size bound, parsing of the reported font, and the font list with its
  `@font-face` style sheet;
- the home screen's document list and its diff rules;
- the font manager: built-in and user fonts, adding picked fonts, deleting fonts, and the
  adapter that shows them.

These pieces stand in for the platform:

- The app's private files are a map from absolute path to contents (`Files.DocumentStore`).
  File names and paths follow `java.io.File` (`Files.Child`, `Files.Name`,
  `Files.Extension`, `Files.NameWithoutExtension`, `Files.ChildFileName`).
- The user-font directory is a map from file name to bytes. The bundled assets are a listing
  (`FontManager.AssetListing`) or a set of paths (`Typefaces.FontSources`).
- The platform's API level (`Typefaces.ApiLevel`) is part of the font stores. The app runs
  from API level 27 (app/build.gradle.kts:12). On 27, `Typeface.createFromFile` and
  `createFromAsset` throw for a font that exists but does not load. From 28 on they return
  `Typeface.DEFAULT` for it, and throw only for a missing file or asset.
- The shared preferences are a store from key to list (`Prefs.SharedPreferences`).
- A typeface is an opaque value (`Typefaces.Typeface`).
- Anything the platform decides becomes a parameter of the operation:
  - a directory listing;
  - whether a write succeeds, and the time it happens;
  - the name typed at a prompt;
  - the answer to a content query;
  - the bytes of a picked stream.

The page's JavaScript is not part of the repository. To say what a built script *means*,
`JsBridge.ParseCall` reads a script the way a JavaScript engine reads a call whose arguments
are single-quoted string literals. The round-trip lemmas are stated against that reader.

Where the code and its description differ, the model follows the code:

- The editor's font spinner lists every file of the user-font directory, whatever its suffix.
- The symbol picker lists only `.ttf` and `.otf` files.
- The editor cuts bundled names at the first `.`, while the symbol picker cuts at the last `.`.
- Every `replace("'", "\'")` in the editor is the identity, because `"\'"` is `"'"` in Kotlin. The activity's methods keep these escapes as written (`Editor.EditorActivity.LoadDocument`, `Editor.EditorActivity.InsertSymbolWithFont`, the style sheet). The intended escapes are modelled beside them, under "## Findings".

## Model

| member | source | states |
|---|---|---|
| Recents.Promote | app/src/main/java/com/sf/urduwriter/SymbolDialogFragment.kt:129-135 | the picked pair is at the head; a list of at most 10 stays at most 10; re-picking a present pair keeps the length; a new pair grows a short list by one and keeps a full list at 10 |
| Recents.PromoteSpec | app/src/main/java/com/sf/urduwriter/SymbolDialogFragment.kt:130-135 | on a duplicate-free list of at most 10, the result is the pair followed by the old list without it, cut to 10, so the others keep their relative order |
| Recents.RemoveFirstIsWithout | app/src/main/java/com/sf/urduwriter/SymbolDialogFragment.kt:131 | on a duplicate-free list, removing the first occurrence removes every occurrence |
| Recents.RemoveFirst | app/src/main/java/com/sf/urduwriter/SymbolDialogFragment.kt:131 | a pair that is absent leaves the list unchanged; a present one makes the list one entry shorter |
| Recents.RemoveFirstMultiset | app/src/main/java/com/sf/urduwriter/SymbolDialogFragment.kt:131 | a present pair is removed exactly once: the multiset of the list less that pair |
| Recents.RemoveFirstAtFirst | app/src/main/java/com/sf/urduwriter/SymbolDialogFragment.kt:131 | the copy removed is the first one; the entries before and after it stay in order |
| Recents.PromoteNoDup | app/src/main/java/com/sf/urduwriter/SymbolDialogFragment.kt:130-135 | a list without duplicate pairs has none after a pick |
| Recents.PromoteOverflow | app/src/main/java/com/sf/urduwriter/SymbolDialogFragment.kt:133-134 | a full list and a new pair: only the oldest entry is dropped |
| Recents.PromoteIdempotent | app/src/main/java/com/sf/urduwriter/SymbolDialogFragment.kt:130-135 | on a list within the cap of 10, picking the same pair twice is the same as picking it once |
| Recents.PromoteKeepsOthers | app/src/main/java/com/sf/urduwriter/SymbolDialogFragment.kt:130-135 | every other entry survives a pick, unless it is the oldest entry of a full list and the pair is new |
| SymbolDialog.SymbolDialogFragment.constructor | app/src/main/java/com/sf/urduwriter/SymbolDialogFragment.kt:145-154 | the recent list is the stored one, or empty when nothing is stored; the typeface cache starts empty |
| SymbolDialog.SymbolDialogFragment.AddSymbolToRecents | app/src/main/java/com/sf/urduwriter/SymbolDialogFragment.kt:129-142 | the in-place remove, insert and removeAt(10) leave exactly `Promote(old, pair)`, which is stored under `recent_symbols`; nothing else changes |
| SymbolDialog.SymbolDialogFragment.PickFromGrid | app/src/main/java/com/sf/urduwriter/SymbolDialogFragment.kt:109-114 | a main-grid click delivers the symbol at that position with the selected font and promotes it in the recents |
| SymbolDialog.SymbolDialogFragment.PickRecent | app/src/main/java/com/sf/urduwriter/SymbolDialogFragment.kt:122-124 | a recent-grid click delivers the entry at that position and changes no state |
| SymbolDialog.SymbolDialogFragment.GetTypeface | app/src/main/java/com/sf/urduwriter/SymbolDialogFragment.kt:156-191 | a cached name returns the cached typeface without consulting the font stores; any other name is resolved and cached; a cache consistent with the stores stays consistent |
| SymbolDialog.SymbolDialogFragment.Destroy | app/src/main/java/com/sf/urduwriter/SymbolDialogFragment.kt:58-61 | the cache is emptied and the recents are kept |
| Typefaces.UserFontFile | app/src/main/java/com/sf/urduwriter/SymbolDialogFragment.kt:168-170 | the user file tried is `<name>.ttf` if it exists, else `<name>.otf` if that exists, else none |
| Typefaces.DefaultNameIsDefault | app/src/main/java/com/sf/urduwriter/SymbolDialogFragment.kt:162-163 | "Default" is the default typeface whatever the stores hold |
| Typefaces.CreateFromFile | app/src/main/java/com/sf/urduwriter/SymbolDialogFragment.kt:172 | a missing file throws; a loading file gives its typeface; a file that does not load throws on API level 27 and gives the default typeface from 28 on |
| Typefaces.CreateFromAsset | app/src/main/java/com/sf/urduwriter/SymbolDialogFragment.kt:179-182 | the same three outcomes for an asset path |
| Typefaces.ResolveInOrder | app/src/main/java/com/sf/urduwriter/SymbolDialogFragment.kt:165-186 | when every user file loads (and, from API level 28, every existing asset), the result is the first of user `.ttf`, user `.otf`, asset `.ttf` and asset `.otf` that loads, else the default |
| Typefaces.ResolveFirstExisting | app/src/main/java/com/sf/urduwriter/SymbolDialogFragment.kt:165-186 | from API level 28 the search stops at the first candidate that exists: its typeface if it loads, else the default |
| Typefaces.FirstExisting | app/src/main/java/com/sf/urduwriter/SymbolDialogFragment.kt:169-182 | the first existing candidate: none exactly when no candidate exists, otherwise an existing one with none before it |
| Typefaces.Resolve | app/src/main/java/com/sf/urduwriter/SymbolDialogFragment.kt:156-191 | the typeface `getTypeface` computes for a name on a cache miss: a created non-null typeface, the default included, ends the search; its order is stated by `Typefaces.ResolveInOrder` and `Typefaces.ResolveFirstExisting` |
| Typefaces.UnknownNameIsDefault | app/src/main/java/com/sf/urduwriter/SymbolDialogFragment.kt:176-186 | a name found nowhere gives the default typeface, with no error |
| Typefaces.ResolveFromCandidate | app/src/main/java/com/sf/urduwriter/SymbolDialogFragment.kt:165-186 | a typeface other than the default comes from one of the four candidate places, which loads |
| Typefaces.UnreadableTtfShadowsOtf | app/src/main/java/com/sf/urduwriter/SymbolDialogFragment.kt:169-186 | a user `.ttf` that exists but fails to load hides a loadable user `.otf`: on API level 27 the search goes on to the assets, from 28 on the result is the default typeface |
| Typefaces.FirstLoadable | app/src/main/java/com/sf/urduwriter/SymbolDialogFragment.kt:177-186 | the reference order: the default exactly when no candidate loads, otherwise a loading candidate |
| SymbolTable.TableValid | app/src/main/java/com/sf/urduwriter/SymbolDialogFragment.kt:30-38 | each of the seven subset ranges is a non-empty range of Unicode scalar values, so each code point is a character |
| SymbolTable.SubsetNamesDistinct | app/src/main/java/com/sf/urduwriter/SymbolDialogFragment.kt:30-38 | the seven names are distinct and none is "All", so each name selects exactly one range |
| SymbolTable.RangeSymbols | app/src/main/java/com/sf/urduwriter/SymbolDialogFragment.kt:106 | a range yields one one-character string per code point, in ascending order |
| SymbolTable.FlatSymbolsSize | app/src/main/java/com/sf/urduwriter/SymbolDialogFragment.kt:103 | the flattened catalogue has as many symbols as the ranges' sizes add up to |
| SymbolTable.AllSymbolsCount | app/src/main/java/com/sf/urduwriter/SymbolDialogFragment.kt:102-103 | "All" yields 1424 symbols |
| SymbolTable.AllSymbolsInTableOrder | app/src/main/java/com/sf/urduwriter/SymbolDialogFragment.kt:102-103 | "All" is the concatenation of the seven ranges in table order |
| SymbolTable.FlatSymbolsStep | app/src/main/java/com/sf/urduwriter/SymbolDialogFragment.kt:103 | each range's symbols follow the symbols of the ranges before it |
| SymbolTable.NamedSubsetSymbols | app/src/main/java/com/sf/urduwriter/SymbolDialogFragment.kt:105-106 | a named subset yields exactly its range, in ascending code-point order |
| SymbolTable.SymbolsFor | app/src/main/java/com/sf/urduwriter/SymbolDialogFragment.kt:102-107 | the grid's symbols for a subset name: "All", a named range or none; their contents are stated by `SymbolTable.AllSymbolsInTableOrder`, `SymbolTable.NamedSubsetSymbols` and `SymbolTable.UnknownSubsetEmpty` |
| SymbolTable.Lookup | app/src/main/java/com/sf/urduwriter/SymbolDialogFragment.kt:105 | the map lookup finds a subset of that name, or reports that none has it |
| SymbolTable.LookupFinds | app/src/main/java/com/sf/urduwriter/SymbolDialogFragment.kt:105 | a uniquely named subset is found by its name |
| SymbolTable.UnknownSubsetEmpty | app/src/main/java/com/sf/urduwriter/SymbolDialogFragment.kt:105-106 | an unknown subset name yields an empty grid |
| SymbolTable.GridEntries | app/src/main/java/com/sf/urduwriter/SymbolDialogFragment.kt:109 | every grid entry pairs the subset's symbol at that position with the selected font |
| SymbolTable.SubsetChoices | app/src/main/java/com/sf/urduwriter/SymbolDialogFragment.kt:82-83 | the subset spinner lists "All" and then the table's names in order |
| SymbolTable.DefaultSubsetIsArabic | app/src/main/java/com/sf/urduwriter/SymbolDialogFragment.kt:93 | the preselected position 3 is "Arabic" |
| SymbolTable.StripExtensions | app/src/main/java/com/sf/urduwriter/SymbolDialogFragment.kt:65-66 | each font file name is cut at its last `.` |
| SymbolTable.FontChoices | app/src/main/java/com/sf/urduwriter/SymbolDialogFragment.kt:64-70 | the picker's font spinner starts with "Default", has no duplicates, and lists exactly "Default" and the cut built-in and user names |
| Text.DistinctInOrder | app/src/main/java/com/sf/urduwriter/SymbolDialogFragment.kt:64-70 | `distinct()` keeps its elements in the order of their first occurrences in the input |
| BulletDialog.AppendIfAbsent | app/src/main/java/com/sf/urduwriter/BulletDialogFragment.kt:40-41 | a present symbol leaves the list unchanged; a new one is appended at the end, the length grows by one and the old bullets keep their places |
| BulletDialog.DefaultBulletsDistinct | app/src/main/java/com/sf/urduwriter/BulletDialogFragment.kt:70 | the seven default bullets are distinct |
| BulletDialog.AppendIfAbsentNoDup | app/src/main/java/com/sf/urduwriter/BulletDialogFragment.kt:40-41 | append-if-absent keeps the list free of duplicates |
| BulletDialog.AppendIfAbsentIdempotent | app/src/main/java/com/sf/urduwriter/BulletDialogFragment.kt:40-44 | defining the same symbol twice is the same as defining it once |
| BulletDialog.BulletDialogFragment.constructor | app/src/main/java/com/sf/urduwriter/BulletDialogFragment.kt:62-71 | the list is the stored one, else exactly the seven default bullets in order |
| BulletDialog.BulletDialogFragment.OnSymbolSelected | app/src/main/java/com/sf/urduwriter/BulletDialogFragment.kt:39-44 | the picked font is ignored; a new symbol is appended and the list stored under `custom_bullets`; a known one changes and stores nothing |
| BulletDialog.BulletDialogFragment.SelectBullet | app/src/main/java/com/sf/urduwriter/BulletDialogFragment.kt:32-33 | selecting position i delivers the bullet at position i |
| JsBridge.ExecJsNoArgument | app/src/main/java/com/sf/urduwriter/EditorActivity.kt:263-264 | `javascript:f();` reads back as a call of f with no argument |
| JsBridge.ExecJs | app/src/main/java/com/sf/urduwriter/EditorActivity.kt:263-266 | the `execJs(func, arg)` script text; its meaning is stated by `JsBridge.ExecJsNoArgument` and `JsBridge.ExecJsOneArgument` |
| JsBridge.ExecJs2 | app/src/main/java/com/sf/urduwriter/EditorActivity.kt:268-271 | the `execJs(func, arg1, arg2)` script text; its meaning is stated by `JsBridge.ExecJsTwoArguments` |
| JsBridge.ExecJsOneArgument | app/src/main/java/com/sf/urduwriter/EditorActivity.kt:263-264 | `javascript:f('a');` reads back as a call of f with argument a, when a holds no quote, backslash or line break |
| JsBridge.ExecJsTwoArguments | app/src/main/java/com/sf/urduwriter/EditorActivity.kt:268-269 | `javascript:f('a', 'b');` reads back as a call of f with arguments a and b, for such arguments |
| JsBridge.LoneApostropheBreaks | app/src/main/java/com/sf/urduwriter/EditorActivity.kt:268-269 | an unescaped apostrophe as the first of two arguments makes the script no call at all |
| JsBridge.InnerApostropheBreaks | app/src/main/java/com/sf/urduwriter/EditorActivity.kt:263-264 | an unescaped apostrophe inside a single argument makes the script no call at all |
| JsBridge.EscapeQuoteAsWritten | app/src/main/java/com/sf/urduwriter/EditorActivity.kt:328 | `replace("'", "\'")` returns its input unchanged, because `"\'"` is `"'"` |
| JsBridge.InsertApostropheAsWrittenBreaks | app/src/main/java/com/sf/urduwriter/EditorActivity.kt:327-330 | inserting the apostrophe symbol as written, in any font, sends a script that is not a call |
| JsBridge.InsertSymbolScriptAsWritten | app/src/main/java/com/sf/urduwriter/EditorActivity.kt:327-330 | the `insertSymbol` script with the escapes as written (the identity) |
| JsBridge.InsertSymbolScript | app/src/main/java/com/sf/urduwriter/EditorActivity.kt:327-330 | the `insertSymbol` script with each apostrophe escaped as `\'`; its meaning is stated by `JsBridge.InsertSymbolReadsBack` |
| JsBridge.InsertSymbolScriptsAgree | app/src/main/java/com/sf/urduwriter/EditorActivity.kt:327-330 | without apostrophes, the escapes as written and the intended ones build the same script |
| JsBridge.InsertAsWrittenReadsBack | app/src/main/java/com/sf/urduwriter/EditorActivity.kt:327-330 | as written, a symbol and font without quotes, backslashes or line breaks reach `insertSymbol` unchanged |
| JsBridge.ReadEscaped | app/src/main/java/com/sf/urduwriter/EditorActivity.kt:328 | with the intended escape, a literal reads back as the original text |
| JsBridge.InsertSymbolReadsBack | app/src/main/java/com/sf/urduwriter/EditorActivity.kt:327-330 | with the intended escape, the page receives exactly the picked symbol and font |
| JsBridge.LoadAsWrittenKeeps | app/src/main/java/com/sf/urduwriter/EditorActivity.kt:165 | text without double quotes or line feeds passes the load chain as written unchanged |
| JsBridge.LoadEscapeAsWritten | app/src/main/java/com/sf/urduwriter/EditorActivity.kt:165 | the load chain as written: apostrophes unchanged, `"` to `\"`, line feeds to `<br>` |
| JsBridge.LoadEscape | app/src/main/java/com/sf/urduwriter/EditorActivity.kt:165 | the load chain with the intended apostrophe escape; what the page reads from it is stated by `JsBridge.ReadLoadEscaped` |
| JsBridge.LoadEscapeAgrees | app/src/main/java/com/sf/urduwriter/EditorActivity.kt:165 | without apostrophes, the chain as written and the intended chain agree |
| JsBridge.LoadApostropheAsWrittenBreaks | app/src/main/java/com/sf/urduwriter/EditorActivity.kt:165-166 | loading "don't" as written sends a script that is not a call |
| JsBridge.LoadEscapeConcat | app/src/main/java/com/sf/urduwriter/EditorActivity.kt:165 | the load chain works character by character |
| JsBridge.LoadEscapeChar | app/src/main/java/com/sf/urduwriter/EditorActivity.kt:165 | how each character is escaped on load, and what the page reads from it |
| JsBridge.ReadLoadEscaped | app/src/main/java/com/sf/urduwriter/EditorActivity.kt:165 | the escaped content reads back as the content with line feeds shown as `<br>` |
| JsBridge.LoadScriptReadsBack | app/src/main/java/com/sf/urduwriter/EditorActivity.kt:165-166 | with the intended escape, `setDocumentHtml` receives the document with line feeds as `<br>`, apostrophes and quotes intact |
| JsBridge.LoadAsWrittenReadsBack | app/src/main/java/com/sf/urduwriter/EditorActivity.kt:165-166 | as written, a document without apostrophes, backslashes or carriage returns reaches `setDocumentHtml` with line feeds as `<br>` |
| JsBridge.SaveUnescape | app/src/main/java/com/sf/urduwriter/EditorActivity.kt:177-179 | the page's result is unquoted exactly when it has at least two characters; anything shorter makes `substring` throw |
| JsBridge.QuoteEscapeRoundTrip | app/src/main/java/com/sf/urduwriter/EditorActivity.kt:177-178 | escaping each `"` as `\"` and then unescaping each `\"` gives back the text |
| JsBridge.SaveUnescapeQuoted | app/src/main/java/com/sf/urduwriter/EditorActivity.kt:176-179 | a result in double quotes with its quotes escaped is saved as the text itself |
| Numbers.ToIntOrNull | app/src/main/java/com/sf/urduwriter/EditorActivity.kt:344 | a parsed number is a 32-bit integer, and empty input parses to nothing |
| Numbers.DigitsOfNat | app/src/main/java/com/sf/urduwriter/EditorActivity.kt:324 | the decimal digits of a number read back as that number |
| Numbers.ParseShowRoundTrip | app/src/main/java/com/sf/urduwriter/EditorActivity.kt:324 | `toString` followed by `toIntOrNull` is the identity on 32-bit integers |
| Numbers.IntToString | app/src/main/java/com/sf/urduwriter/EditorActivity.kt:324 | `Int.toString`: a sign for negatives, then the decimal digits; `Numbers.DigitsOfNat` and `Numbers.ParseShowRoundTrip` state that it reads back |
| Editor.FontSizeScript | app/src/main/java/com/sf/urduwriter/EditorActivity.kt:343-349 | a command is issued exactly when the input parses to an integer in 8..150 |
| Editor.FontSizeAccepted | app/src/main/java/com/sf/urduwriter/EditorActivity.kt:344-346 | a size in range makes the page call `applyFontSize` with exactly that size |
| Editor.FontSizeRejected | app/src/main/java/com/sf/urduwriter/EditorActivity.kt:345-348 | a size outside 8..150 issues nothing |
| Editor.PrimaryFont | app/src/main/java/com/sf/urduwriter/EditorActivity.kt:249 | the primary font holds no comma or quote and only characters of the reported name |
| Editor.PrimaryFontOfList | app/src/main/java/com/sf/urduwriter/EditorActivity.kt:249 | `Name, fallback` reports `Name`, and a bare name reports itself |
| Editor.PrimaryFontOfQuoted | app/src/main/java/com/sf/urduwriter/EditorActivity.kt:249 | `'Name', fallback` reports `Name` without its quotes |
| Editor.SpinnerSelection | app/src/main/java/com/sf/urduwriter/EditorActivity.kt:254-256 | the selection moves exactly when the font is listed and not already selected, and then to its first position |
| Editor.BuiltInNames | app/src/main/java/com/sf/urduwriter/EditorActivity.kt:131 | each bundled name is cut at its first `.` and holds no `.` |
| Editor.UserNames | app/src/main/java/com/sf/urduwriter/EditorActivity.kt:133 | each user file is listed without its extension |
| Editor.EditorFontList | app/src/main/java/com/sf/urduwriter/EditorActivity.kt:131-135 | the spinner has one entry per bundled and per user file; a null listing counts as empty |
| Editor.SpinnerFamiliesDeclared | app/src/main/java/com/sf/urduwriter/EditorActivity.kt:278-296 | the font at each spinner position is the family declared by the `@font-face` rule at the same position |
| Editor.BuildFontCss | app/src/main/java/com/sf/urduwriter/EditorActivity.kt:273-298 | the style sheet is one rule per bundled font followed by one per user file |
| Editor.BuiltInFontCss | app/src/main/java/com/sf/urduwriter/EditorActivity.kt:278-284 | the bundled-font loop appends one rule per file, in listing order, with the asset URL |
| Editor.FontFaceRule | app/src/main/java/com/sf/urduwriter/EditorActivity.kt:283 | the `@font-face` rule text for one family and URL; `Editor.SpinnerFamiliesDeclared` states which families are declared |
| Editor.UserFontCss | app/src/main/java/com/sf/urduwriter/EditorActivity.kt:287-296 | the user-font loop appends one rule per file, in listing order, with its `file://` URL |
| Editor.PromptTarget | app/src/main/java/com/sf/urduwriter/EditorActivity.kt:200-205 | a typed name is written to `docs/<name>.html`; an empty name writes nothing |
| Editor.SuggestedName | app/src/main/java/com/sf/urduwriter/EditorActivity.kt:193 | the prompt's pre-filled name: the current file's name without extension, or empty |
| Editor.SaveTarget | app/src/main/java/com/sf/urduwriter/EditorActivity.kt:181-207 | a plain save of a document with a path goes to that path; otherwise the prompt decides, and a cancelled or empty answer writes nothing; a prompted target is an `.html` file under `docs/` |
| Editor.PromptedDocumentListed | app/src/main/java/com/sf/urduwriter/EditorActivity.kt:193-205 | a document saved under a typed name is an `html` file of the documents directory, and the next prompt suggests that name again |
| Editor.EditorActivity.constructor | app/src/main/java/com/sf/urduwriter/EditorActivity.kt:37 | no current document path at start |
| Editor.EditorActivity.NewDocument | app/src/main/java/com/sf/urduwriter/EditorActivity.kt:116-118 | the path is reset to null and the page is told to `clearAll` |
| Editor.EditorActivity.LoadDocument | app/src/main/java/com/sf/urduwriter/EditorActivity.kt:156-172 | the passed path becomes current; an existing file is sent through the escape chain as written, and a text without apostrophes, backslashes or carriage returns reaches the page with line feeds as `<br>`; a missing file sends nothing; no path sends an empty document |
| Editor.EditorActivity.SaveHtmlToFile | app/src/main/java/com/sf/urduwriter/EditorActivity.kt:214-228 | only a write that succeeds changes the file and makes its path current; a failed write leaves both as they were |
| Editor.EditorActivity.SaveDocument | app/src/main/java/com/sf/urduwriter/EditorActivity.kt:175-207 | the unescaped result is written to the save target exactly when the result can be unquoted, a target exists and the write succeeds; files and path change only then |
| Editor.EditorActivity.SetupFontSpinner | app/src/main/java/com/sf/urduwriter/EditorActivity.kt:129-150 | the spinner holds the editor font list with the first entry selected, and that first selection sends `applyFont` for the first font; an empty list selects and sends nothing |
| Editor.EditorActivity.UpdateCurrentStyle | app/src/main/java/com/sf/urduwriter/EditorActivity.kt:248-259 | the spinner moves to the reported primary font as `SpinnerSelection` decides, and the listener (lines 142-147) sends `applyFont` for the new font exactly when the selection moves; before set-up nothing changes |
| Editor.EditorActivity.InsertSymbolWithFont | app/src/main/java/com/sf/urduwriter/EditorActivity.kt:327-330 | the `insertSymbol` script with the escapes as written; a plain symbol and font reach the page unchanged |
| Editor.SetListBulletReadsBack | app/src/main/java/com/sf/urduwriter/EditorActivity.kt:375-378 | a bullet without quotes or backslashes reaches `setListBullet` unchanged |
| Editor.ApplyFontReadsBack | app/src/main/java/com/sf/urduwriter/EditorActivity.kt:319-320 | a font name without quotes or backslashes reaches `applyFont` unchanged |
| Editor.DefaultBulletsReachPage | app/src/main/java/com/sf/urduwriter/EditorActivity.kt:375-378 | every default bullet reaches `setListBullet` unchanged |
| Files.ExtensionSplit | app/src/main/java/com/sf/urduwriter/HomeActivity.kt:63-65 | a name with a `.` is its name without extension, a `.` and its extension, and the extension holds no `.` |
| Files.ChildName | app/src/main/java/com/sf/urduwriter/EditorActivity.kt:204-205 | a file made in a directory lies directly in it and carries the given name |
| Files.ChildFileName | app/src/main/java/com/sf/urduwriter/FontManagerActivity.kt:88-89 | the file `File(dir, name)` opens inside the directory: a non-empty name without `/` other than `.` and `..`, and none when the name has no such single part |
| Files.SegmentsConcatSlash | app/src/main/java/com/sf/urduwriter/FontManagerActivity.kt:88 | a `/` between two names separates their parts: the parts of the whole are those of the first followed by those of the second |
| Files.PlainChildFileName | app/src/main/java/com/sf/urduwriter/FontManagerActivity.kt:88-89 | a plain file name denotes itself |
| Files.ChildFileNameSlashes | app/src/main/java/com/sf/urduwriter/FontManagerActivity.kt:88 | leading, trailing and doubled slashes do not change the file a name denotes |
| Files.SubdirectoryHasNoChildFile | app/src/main/java/com/sf/urduwriter/FontManagerActivity.kt:88-89 | a name of two parts goes through a subdirectory and opens no file of the directory |
| Home.HtmlFiles | app/src/main/java/com/sf/urduwriter/HomeActivity.kt:63 | exactly the listed files with extension `html` are kept, in listing order and without repeats |
| Home.MakeDocuments | app/src/main/java/com/sf/urduwriter/HomeActivity.kt:64-65 | one record per file, in the same order, each carrying its file's path |
| Home.MakeDocument | app/src/main/java/com/sf/urduwriter/HomeActivity.kt:65 | the record of one file carries that file's path (name and time as at line 65; a missing file has time 0) |
| Home.SortByRecency | app/src/main/java/com/sf/urduwriter/HomeActivity.kt:66 | the sort is a permutation of its input |
| Home.InsertSorted | app/src/main/java/com/sf/urduwriter/HomeActivity.kt:66 | inserting into a newest-first list keeps it newest first |
| Home.SortSorted | app/src/main/java/com/sf/urduwriter/HomeActivity.kt:66 | the sorted list is in non-increasing order of last-modified time |
| Home.LoadedDocumentsSpec | app/src/main/java/com/sf/urduwriter/HomeActivity.kt:58-67 | the home list is newest first, a permutation of the filtered files' records, and holds exactly the records of the `.html` files of the documents directory |
| Home.LoadedDocuments | app/src/main/java/com/sf/urduwriter/HomeActivity.kt:58-67 | the filter, map and sort of `loadDocuments`; its properties are stated by `Home.LoadedDocumentsSpec` |
| Home.ListedDocumentExists | app/src/main/java/com/sf/urduwriter/HomeActivity.kt:63-65 | every listed document's path names an existing file |
| Home.DeleteRemovesOnlyThat | app/src/main/java/com/sf/urduwriter/HomeActivity.kt:77-80 | after a delete and reload, no row has the deleted path and every other row is still there |
| Home.HomeActivity.LoadDocuments | app/src/main/java/com/sf/urduwriter/HomeActivity.kt:58-67 | the adapter receives the freshly built list; over a listing of the documents directory it is newest first and holds exactly the stored documents' records |
| Home.HomeActivity.OnDeleteClicked | app/src/main/java/com/sf/urduwriter/HomeActivity.kt:77-81 | the document's file is removed and the list rebuilt from the new listing; over a listing of the new directory, no row has the deleted path |
| Home.HomeActivity.OnDocumentClicked | app/src/main/java/com/sf/urduwriter/HomeActivity.kt:70-74 | the editor is opened with exactly the document's path |
| DocumentAdapter.DiffRulesConsistent | app/src/main/java/com/sf/urduwriter/DocumentAdapter.kt:43-51 | both rules are reflexive and symmetric, and equal contents imply the same item |
| DocumentAdapter.TouchedDocumentIsUpdated | app/src/main/java/com/sf/urduwriter/DocumentAdapter.kt:43-51 | a re-listed file with a new time is the same item with changed contents |
| DocumentAdapter.Bind | app/src/main/java/com/sf/urduwriter/DocumentAdapter.kt:34-39 | the row shows the document's name, and both the row and its delete button deliver the bound document itself |
| FontManager.GetBuiltInFonts | app/src/main/java/com/sf/urduwriter/FontManager.kt:10-16 | the asset listing, or an empty list when it is null or throws |
| FontManager.FontFiles | app/src/main/java/com/sf/urduwriter/FontManager.kt:20-21 | exactly the names ending in `.ttf` or `.otf` are kept, in order and without repeats |
| FontManager.UserAddedFontsExact | app/src/main/java/com/sf/urduwriter/FontManager.kt:18-22 | over a listing of the directory, the user fonts are exactly its `.ttf` and `.otf` files, each once |
| FontManager.GetUserAddedFonts | app/src/main/java/com/sf/urduwriter/FontManager.kt:18-22 | the filtered listing, or empty for a null listing; its contents are stated by `FontManager.UserAddedFontsExact` |
| FontManager.FontStore.AddFont | app/src/main/java/com/sf/urduwriter/FontManager.kt:24-28 | the write succeeds exactly when the name denotes a file of the directory; that file then holds the bytes and the other entries are unchanged; a failed write (the `FileNotFoundException`) changes nothing |
| FontManager.FontStore.DeleteFont | app/src/main/java/com/sf/urduwriter/FontManager.kt:30-34 | deletion succeeds exactly when the file exists; the name is then gone and every other file remains; otherwise nothing changes; the assets are constant |
| FontManager.AddedFontListed | app/src/main/java/com/sf/urduwriter/FontManager.kt:20-27 | a font added with a `.ttf` or `.otf` name is listed afterwards, any other name is not, and earlier fonts stay listed |
| FontManager.DeletedFontGone | app/src/main/java/com/sf/urduwriter/FontManager.kt:20-33 | after a delete, the font is no longer listed and every other user font still is |
| FontAdapter.Bind | app/src/main/java/com/sf/urduwriter/FontAdapter.kt:35-43 | the delete button is shown exactly for a deletable font, and clicking it reports the font's name |
| FontAdapter.FontAdapter.ItemCount | app/src/main/java/com/sf/urduwriter/FontAdapter.kt:24 | the count is the list's length |
| FontAdapter.FontAdapter.UpdateData | app/src/main/java/com/sf/urduwriter/FontAdapter.kt:26-30 | clearing and refilling in place leaves exactly the new list, element for element |
| FontAdapter.FontAdapter.BindAt | app/src/main/java/com/sf/urduwriter/FontAdapter.kt:19-22 | the row at a position shows the font at that position |
| FontManagerActivity.FontItems | app/src/main/java/com/sf/urduwriter/FontManagerActivity.kt:65-67 | built-in fonts come first and are not deletable, then the user fonts, which are; the count is the sum of both |
| FontManagerActivity.DeletableIffUser | app/src/main/java/com/sf/urduwriter/FontManagerActivity.kt:65-67 | a row's delete button is shown exactly on user fonts, and it reports a user font |
| FontManagerActivity.UserItemsAre | app/src/main/java/com/sf/urduwriter/FontManagerActivity.kt:63-72 | the deletable rows are exactly the user fonts |
| FontManagerActivity.PathFileName | app/src/main/java/com/sf/urduwriter/FontManagerActivity.kt:116-123 | the part after the last `/`, which holds no `/`; a path without `/` is returned whole |
| FontManagerActivity.GetFileName | app/src/main/java/com/sf/urduwriter/FontManagerActivity.kt:101-126 | a content URI's non-null display name wins; otherwise the path's last part; no name only when the path is null too |
| FontManagerActivity.SaveFont | app/src/main/java/com/sf/urduwriter/FontManagerActivity.kt:83-98 | a null name or stream writes nothing; otherwise the bytes go to the file `File(dir, name)` denotes, and nothing is written when opening it fails |
| FontManagerActivity.SavedName | app/src/main/java/com/sf/urduwriter/FontManagerActivity.kt:85-88 | the file written for a pick is the one its display name denotes |
| FontManagerActivity.SlashedNameSavesPlain | app/src/main/java/com/sf/urduwriter/FontManagerActivity.kt:88-92 | a name with a leading or trailing `/` is saved under the plain name |
| FontManagerActivity.NullPickWritesNothing | app/src/main/java/com/sf/urduwriter/FontManagerActivity.kt:87-94 | a pick with a null name or stream leaves the directory unchanged |
| FontManagerActivity.SaveAllStep | app/src/main/java/com/sf/urduwriter/FontManagerActivity.kt:29-32 | the items of a multi-pick are saved one after another |
| FontManagerActivity.SaveAllContents | app/src/main/java/com/sf/urduwriter/FontManagerActivity.kt:28-36 | after a multi-pick a name is present exactly when it was before or some item was saved under it, and it holds the last saved bytes; names no item saved keep their bytes |
| FontManagerActivity.SaveAll | app/src/main/java/com/sf/urduwriter/FontManagerActivity.kt:28-36 | the directory after saving the picked items in order; characterised by `FontManagerActivity.SaveAllStep` and `FontManagerActivity.SaveAllContents` |
| FontManagerActivity.FontManagerScreen.LoadFonts | app/src/main/java/com/sf/urduwriter/FontManagerActivity.kt:63-72 | the adapter holds the built-in fonts and then the user fonts as font items; over a listing of the directory, the deletable rows are exactly its `.ttf` and `.otf` files |
| FontManagerActivity.FontManagerScreen.SaveFontFromUri | app/src/main/java/com/sf/urduwriter/FontManagerActivity.kt:83-98 | the directory changes as `SaveFont` says |
| FontManagerActivity.FontManagerScreen.OnPickResult | app/src/main/java/com/sf/urduwriter/FontManagerActivity.kt:25-39 | on success every picked item is saved in order, then the list is reloaded once, and over a listing of the new directory its deletable rows are exactly that directory's font files; otherwise nothing changes |
| FontManagerActivity.FontManagerScreen.DeleteFont | app/src/main/java/com/sf/urduwriter/FontManagerActivity.kt:128-140 | the file is deleted; the list is reloaded only when deletion succeeded, and then, over a listing of the new directory, the deleted font has no row |

## Left out

- Gson serialisation: the preferences hold lists directly. Malformed stored JSON, which makes the source throw, is not modelled.
- The WebView, `evaluateJavascript` and the page's script are not modelled. The bridge is only the strings the host builds, read back by `JsBridge.ParseCall`.
- `JsBridge.ReadLiteral`: reads only the escapes `\'`, `\"` and `\\`. The round-trip lemmas therefore require arguments without backslashes or carriage returns, and text with those is not covered.
- The style-sheet wrapper script is not modelled (EditorActivity.kt:300-312), so no statement is made about backquotes or `${` in font names.
- CSS quoting of font families is not modelled. The CSS escape is kept as written (the identity), so an apostrophe in a font name ends the CSS string early.
- Editor.BuildFontCss: `assets.list` throwing in the middle of the loop is not modelled; a throwing listing is taken as an empty one.
- Printing and PDF export: platform pipelines.
- Coroutine dispatch: each handler runs atomically, in the order it is called.
- Toasts, dialogs, the colour picker, the toolbar wiring and the date text in the document rows.
- The `toFloatOrNull` size parse in `updateCurrentStyle`: floating point, and its result is never used.
- Numbers.ToIntOrNull: only ASCII and Arabic-Indic digits (U+0660-0669, U+06F0-06F9) are read as digits. Digits of other scripts make the parse fail here, while Kotlin accepts them.
- Strings are sequences of Unicode scalar values. Kotlin strings are UTF-16: a character above U+FFFF counts as two there and as one here, and lone surrogates have no counterpart. Index arithmetic (`substring`, `indexOf`, `lastIndexOf`) is therefore stated over scalar values. The UTF-8 encoding of saved files is not modelled.
- Paths are not normalised: `absolutePath` of an absolute path is taken as the path itself.
- A write that fails half-way is modelled as no write at all.
- Typeface creation, content queries and stream copying are parameters standing for their outcomes.
- The declaration of the `Document` record is not part of this model. It is taken as a data class of the three fields built at HomeActivity.kt:65, with field-wise equality.
- The stable order of documents with equal times is not stated; only the order by time is.
- `ListAdapter.submitList` diffing and `notifyDataSetChanged` redraws are not modelled.
- The recent-grid rows' own typefaces are left out (SymbolDialogFragment.kt:193-217).
- Recents.Promote: its length bounds are stated for lists of at most 10 entries, which is every list the dialog itself stores. A longer stored list is only cut by one per pick.
- Recents.PromoteSpec: stated for duplicate-free lists of at most 10. A stored list with duplicates keeps its later copies.
- Home.HomeActivity.OnDeleteClicked: the listing after the deletion is a parameter. `Home.DeleteRemovesOnlyThat` relates it to the files.
- Typefaces.ResolveInOrder: stated when every user file loads, and from API level 28 also every existing asset. `Typefaces.UnreadableTtfShadowsOtf` and `Typefaces.ResolveFirstExisting` cover the other cases.
- Files.ChildFileName: a `.` or `..` part among several (`./x.ttf`, `../user_fonts/x.ttf`) is taken to fail. The kernel would resolve such a path, and it could reach a file of the directory.
- FontManager.FontStore.DeleteFont: the name is taken as a plain file name, which is what every caller passes (a listed name). Slash normalisation, and deleting the directory itself when it is empty, are not modelled.
- FileUtils.kt, UrduWriterApplication.kt, MainActivity.kt, HeaderDialogFragment.kt and OpenDocumentActivity.kt: directory creation and forwarding only.

## Findings

| source | as written | input that shows it | evidently intended | confidence | as-written member | corrected member |
|---|---|---|---|---|---|---|
| app/src/main/java/com/sf/urduwriter/EditorActivity.kt:328-330 | `symbol.replace("'", "\'")` replaces an apostrophe by itself, because `"\'"` is `"'"` in Kotlin, so the symbol is inserted into a single-quoted literal unescaped | picking the apostrophe U+0027 (in the Basic Latin subset) builds `javascript:insertSymbol(''', 'Default');`, which is not a call | each apostrophe becomes `\'`, so the page receives the symbol and font unchanged | not executed | JsBridge.InsertApostropheAsWrittenBreaks | JsBridge.InsertSymbolReadsBack |
| app/src/main/java/com/sf/urduwriter/EditorActivity.kt:165-166 | the load chain's first step `replace("'", "\'")` is the identity, so a document's apostrophes reach `setDocumentHtml('…')` unescaped | a saved document whose text is `don't` | each apostrophe becomes `\'`, so the page receives the document with only line feeds turned into `<br>` | not executed | JsBridge.LoadApostropheAsWrittenBreaks | JsBridge.LoadScriptReadsBack |
