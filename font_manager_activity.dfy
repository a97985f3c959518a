/**
 * `FontManagerActivity`: the font list (built-in fonts, then user fonts), adding fonts picked
 * from the system document picker, and deleting user fonts.
 */
module FontManagerActivity {
  import opened Wrappers
  import opened Text
  import opened Files
  import opened FontManager
  import opened FontAdapter

  /** `loadFonts`: built-in fonts (not deletable) first, then user fonts (deletable). */
  function FontItems(builtIn: seq<string>, user: seq<string>): (r: seq<FontItem>)
    ensures |r| == |builtIn| + |user|
    ensures forall i :: 0 <= i < |builtIn| ==> r[i] == FontItem(builtIn[i], false)
    ensures forall i :: 0 <= i < |user| ==> r[|builtIn| + i] == FontItem(user[i], true)
  {
    seq(|builtIn|, i requires 0 <= i < |builtIn| => FontItem(builtIn[i], false))
      + seq(|user|, i requires 0 <= i < |user| => FontItem(user[i], true))
  }

  /** A row may be deleted exactly when it is a user font, and its delete reports a user font. */
  lemma DeletableIffUser(builtIn: seq<string>, user: seq<string>, i: nat)
    requires i < |builtIn| + |user|
    ensures Bind(FontItems(builtIn, user)[i]).deleteVisible <==> i >= |builtIn|
    ensures Bind(FontItems(builtIn, user)[i]).onDelete.Some? ==>
              Bind(FontItems(builtIn, user)[i]).onDelete.value in user
  {
    if i >= |builtIn| {
      assert FontItems(builtIn, user)[i] == FontItem(user[i - |builtIn|], true);
    }
  }

  /** The deletable rows are exactly the user fonts. */
  lemma UserItemsAre(builtIn: seq<string>, user: seq<string>)
    ensures forall n :: FontItem(n, true) in FontItems(builtIn, user) <==> n in user
  {
    var r := FontItems(builtIn, user);
    forall n ensures FontItem(n, true) in r <==> n in user {
      if FontItem(n, true) in r {
        var i :| 0 <= i < |r| && r[i] == FontItem(n, true);
        assert i >= |builtIn| && user[i - |builtIn|] == n;
      }
      if n in user {
        var j :| 0 <= j < |user| && user[j] == n;
        assert r[|builtIn| + j] == FontItem(n, true);
      }
    }
  }

  /** A listing that is present and lists the user-font directory. */
  predicate ListsDirectory(userListing: Option<seq<string>>, dir: map<string, seq<byte>>) {
    userListing.Some? && IsListingOf(userListing.value, dir)
  }

  /** The shown deletable rows are exactly the directory's `.ttf` and `.otf` files. */
  ghost predicate ShowsUserFonts(items: seq<FontItem>, dir: map<string, seq<byte>>) {
    forall n :: FontItem(n, true) in items <==> n in dir && HasFontSuffix(n)
  }

  /** A content URI's answer to the display-name query. */
  datatype DisplayNameQuery =
    | NoRow                              // null cursor or empty result
    | NoDisplayNameColumn
    | DisplayName(value: Option<string>)  // the column's value, which may be null

  datatype Uri = Uri(scheme: string, path: Option<string>)

  /** The path fallback of `getFileName`: what follows the last `/`, or the whole path. */
  function PathFileName(path: string): (r: string)
    ensures '/' in path ==> '/' !in r && EndsWith(path, r) && path[|path| - |r| - 1] == '/'
    ensures '/' !in path ==> r == path
  {
    SubstringAfterLast(path, '/', path)
  }

  /** `getFileName`, kept in the source's shape: a display name first, else the path's last part. */
  method GetFileName(uri: Uri, query: DisplayNameQuery) returns (result: Option<string>)
    ensures uri.scheme == "content" && query.DisplayName? && query.value.Some? ==> result == query.value
    ensures !(uri.scheme == "content" && query.DisplayName? && query.value.Some?) ==>
              result == (if uri.path.Some? then Some(PathFileName(uri.path.value)) else None)
    ensures result.None? <==> uri.path.None? && !(uri.scheme == "content" && query.DisplayName? && query.value.Some?)
  {
    result := None;
    if uri.scheme == "content" {
      if query.DisplayName? {
        result := query.value;
      }
    }
    if result.None? {
      result := uri.path;
      if result.Some? {
        var it := result.value;
        var cut := LastIndexOf(it, '/');
        if cut != -1 {
          result := Some(it[cut + 1..]);
        }
      }
    }
  }

  /** One picked document: its URI, the display-name query's answer and the stream's bytes (or null). */
  datatype PickedFont = PickedFont(uri: Uri, query: DisplayNameQuery, stream: Option<seq<byte>>)

  /** The name `getFileName` gives a picked document. */
  function PickedName(p: PickedFont): Option<string> {
    if p.uri.scheme == "content" && p.query.DisplayName? && p.query.value.Some? then p.query.value
    else if p.uri.path.Some? then Some(PathFileName(p.uri.path.value))
    else None
  }

  /** The file of the user-font directory that `saveFontFromUri` writes for a pick, if any. */
  function SavedName(p: PickedFont): (r: Option<string>)
    ensures r.Some? ==> PickedName(p).Some? && r == ChildFileName(PickedName(p).value)
  {
    match PickedName(p)
    case Some(name) => ChildFileName(name)
    case None => None
  }

  /** The effect of `saveFontFromUri` on the user-font directory. */
  function SaveFont(dir: map<string, seq<byte>>, p: PickedFont): (r: map<string, seq<byte>>)
    ensures p.stream.None? || PickedName(p).None? ==> r == dir
    ensures p.stream.Some? && SavedName(p).Some? ==> r == dir[SavedName(p).value := p.stream.value]
    ensures PickedName(p).Some? && SavedName(p).None? ==> r == dir
  {
    match (SavedName(p), p.stream)
    case (Some(file), Some(bytes)) => dir[file := bytes]
    case _ => dir
  }

  /** A display name with a leading or trailing slash saves under the plain name. */
  lemma SlashedNameSavesPlain(dir: map<string, seq<byte>>, p: PickedFont, name: string)
    requires p.stream.Some? && name != "" && '/' !in name && name != "." && name != ".."
    requires PickedName(p) == Some("/" + name) || PickedName(p) == Some(name + "/")
    ensures SaveFont(dir, p) == dir[name := p.stream.value]
  {
    ChildFileNameSlashes(name, name);
    PlainChildFileName(name);
  }

  /** The items of a multi-pick saved one after another, in order. */
  function SaveAll(dir: map<string, seq<byte>>, items: seq<PickedFont>): map<string, seq<byte>>
    decreases |items|
  {
    if items == [] then dir else SaveAll(SaveFont(dir, items[0]), items[1..])
  }

  predicate Saves(p: PickedFont) {
    p.stream.Some? && SavedName(p).Some?
  }

  lemma {:induction false} SaveAllStep(dir: map<string, seq<byte>>, items: seq<PickedFont>, p: PickedFont)
    ensures SaveAll(dir, items + [p]) == SaveFont(SaveAll(dir, items), p)
    decreases |items|
  {
    if items != [] {
      assert (items + [p])[1..] == items[1..] + [p];
      SaveAllStep(SaveFont(dir, items[0]), items[1..], p);
    }
  }

  /** What one save does to one file name. */
  lemma SaveFontAt(dir: map<string, seq<byte>>, p: PickedFont, name: string)
    ensures name in SaveFont(dir, p) <==> name in dir || (Saves(p) && SavedName(p).value == name)
    ensures Saves(p) && SavedName(p).value == name ==> SaveFont(dir, p)[name] == p.stream.value
    ensures !(Saves(p) && SavedName(p).value == name) && name in dir ==> SaveFont(dir, p)[name] == dir[name]
  {
  }

  /**
   * After a multi-pick, a file name is present exactly when it was before or some item saved
   * under it, and it holds the bytes of the last item saved under it.
   */
  lemma {:induction false} SaveAllContents(dir: map<string, seq<byte>>, items: seq<PickedFont>, name: string)
    ensures name in SaveAll(dir, items) <==>
              name in dir || exists i :: 0 <= i < |items| && Saves(items[i]) && SavedName(items[i]).value == name
    ensures forall i :: 0 <= i < |items| && Saves(items[i]) && SavedName(items[i]).value == name
              && (forall j :: i < j < |items| && Saves(items[j]) ==> SavedName(items[j]).value != name)
              ==> name in SaveAll(dir, items) && SaveAll(dir, items)[name] == items[i].stream.value
    ensures (forall i :: 0 <= i < |items| && Saves(items[i]) ==> SavedName(items[i]).value != name)
              ==> (name in SaveAll(dir, items) <==> name in dir)
                  && (name in dir ==> SaveAll(dir, items)[name] == dir[name])
    decreases |items|
  {
    if items != [] {
      var last := items[|items| - 1];
      var init := items[..|items| - 1];
      assert items == init + [last];
      SaveAllStep(dir, init, last);
      SaveFontAt(SaveAll(dir, init), last, name);
      SaveAllContents(dir, init, name);
      forall i | 0 <= i < |init| ensures init[i] == items[i] {
      }
    }
  }

  /** A pick whose name or stream is null writes no file. */
  lemma NullPickWritesNothing(dir: map<string, seq<byte>>, p: PickedFont)
    requires p.stream.None? || PickedName(p).None?
    ensures SaveFont(dir, p) == dir
  {
  }

  /** The picker's answer: a list of items (multi-pick), a single URI, or neither. */
  datatype PickResult = PickResult(clipData: Option<seq<PickedFont>>, data: Option<PickedFont>)

  /** The items a result saves: all clip items, else the single one. */
  function PickedItems(r: PickResult): seq<PickedFont> {
    if r.clipData.Some? then r.clipData.value
    else if r.data.Some? then [r.data.value]
    else []
  }

  class FontManagerScreen {
    const fontStore: FontStore
    const adapter: FontAdapter

    constructor (fontStore: FontStore, adapter: FontAdapter)
      ensures this.fontStore == fontStore && this.adapter == adapter
    {
      this.fontStore := fontStore;
      this.adapter := adapter;
    }

    /** `loadFonts`, given the listing of the user-font directory. */
    method LoadFonts(userListing: Option<seq<string>>)
      modifies adapter
      ensures adapter.fonts == FontItems(GetBuiltInFonts(fontStore.assets), GetUserAddedFonts(userListing))
      ensures ListsDirectory(userListing, fontStore.userFonts) ==> ShowsUserFonts(adapter.fonts, fontStore.userFonts)
    {
      var builtInFonts := GetBuiltInFonts(fontStore.assets);
      var userAddedFonts := GetUserAddedFonts(userListing);
      adapter.UpdateData(FontItems(builtInFonts, userAddedFonts));
      if ListsDirectory(userListing, fontStore.userFonts) {
        UserAddedFontsExact(fontStore.userFonts, userListing.value);
        UserItemsAre(builtInFonts, userAddedFonts);
      }
    }

    /** `saveFontFromUri`: the stream's bytes are written under the document's file name. */
    method SaveFontFromUri(p: PickedFont)
      modifies fontStore
      ensures fontStore.userFonts == SaveFont(old(fontStore.userFonts), p)
    {
      var fileName := GetFileName(p.uri, p.query);
      if p.stream.Some? && fileName.Some? {
        var file := ChildFileName(fileName.value);
        if file.Some? {
          fontStore.userFonts := fontStore.userFonts[file.value := p.stream.value];
        }
      }
    }

    /**
     * The picker's callback: on success every picked item is saved in order and the list is
     * reloaded once (with the listing of the directory after the saves).
     */
    method OnPickResult(resultOk: bool, data: Option<PickResult>, userListing: Option<seq<string>>)
      modifies fontStore, adapter
      ensures resultOk && data.Some? ==>
                fontStore.userFonts == SaveAll(old(fontStore.userFonts), PickedItems(data.value))
                && adapter.fonts == FontItems(GetBuiltInFonts(fontStore.assets), GetUserAddedFonts(userListing))
      ensures resultOk && data.Some? && ListsDirectory(userListing, fontStore.userFonts) ==>
                ShowsUserFonts(adapter.fonts, fontStore.userFonts)
      ensures !(resultOk && data.Some?) ==>
                fontStore.userFonts == old(fontStore.userFonts) && adapter.fonts == old(adapter.fonts)
    {
      if resultOk && data.Some? {
        var items := PickedItems(data.value);
        for i := 0 to |items|
          invariant fontStore.userFonts == SaveAll(old(fontStore.userFonts), items[..i])
        {
          assert items[..i + 1] == items[..i] + [items[i]];
          SaveAllStep(old(fontStore.userFonts), items[..i], items[i]);
          SaveFontFromUri(items[i]);
        }
        assert items[..|items|] == items;
        LoadFonts(userListing);
      }
    }

    /** `deleteFont`: the file is deleted; on success the list is reloaded, otherwise it stays. */
    method DeleteFont(fontName: string, userListing: Option<seq<string>>) returns (deleted: bool)
      modifies fontStore, adapter
      ensures deleted <==> fontName in old(fontStore.userFonts)
      ensures fontStore.userFonts == old(fontStore.userFonts) - {fontName}
      ensures deleted ==> adapter.fonts == FontItems(GetBuiltInFonts(fontStore.assets), GetUserAddedFonts(userListing))
      ensures !deleted ==> adapter.fonts == old(adapter.fonts)
      ensures deleted && ListsDirectory(userListing, fontStore.userFonts) ==>
                ShowsUserFonts(adapter.fonts, fontStore.userFonts) && FontItem(fontName, true) !in adapter.fonts
    {
      deleted := fontStore.DeleteFont(fontName);
      if deleted {
        LoadFonts(userListing);
      }
    }
  }
}
