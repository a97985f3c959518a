/**
 * `FontManager`: the bundled font assets (read-only) and the user-font directory, a map
 * from file names to file contents.
 */
module FontManager {
  import opened Text
  import opened Files
  import opened Wrappers

  /** What `assets.list("fonts")` produces: a listing, null, or an exception. */
  datatype AssetListing = Listed(names: seq<string>) | NullListing | ListingFailed

  /** `getBuiltInFonts`: the asset listing, or an empty list when it is null or throws. */
  function GetBuiltInFonts(listing: AssetListing): (r: seq<string>)
    ensures listing.Listed? ==> r == listing.names
    ensures !listing.Listed? ==> r == []
  {
    match listing
    case Listed(names) => names
    case NullListing => []
    case ListingFailed => []
  }

  /** The file-name filter of `getUserAddedFonts`. */
  predicate HasFontSuffix(name: string) {
    EndsWith(name, ".ttf") || EndsWith(name, ".otf")
  }

  /** The names of `names` that pass the font filter, in listing order. */
  function FontFiles(names: seq<string>): (r: seq<string>)
    ensures |r| <= |names|
    ensures forall n :: n in r <==> n in names && HasFontSuffix(n)
    ensures NoDup(names) ==> NoDup(r)
    decreases |names|
  {
    if names == [] then []
    else
      var rest := FontFiles(names[..|names| - 1]);
      var last := names[|names| - 1];
      assert forall n :: n in names <==> n in names[..|names| - 1] || n == last by {
        assert names == names[..|names| - 1] + [last];
      }
      if HasFontSuffix(last) then rest + [last] else rest
  }

  /** `getUserAddedFonts`: the user directory's `.ttf` and `.otf` files; none when the listing is null. */
  function GetUserAddedFonts(listing: Option<seq<string>>): seq<string> {
    match listing
    case Some(names) => FontFiles(names)
    case None => []
  }

  /** Over a listing of the directory, the user fonts are exactly its font files, each once. */
  lemma UserAddedFontsExact(dir: map<string, seq<byte>>, listing: seq<string>)
    requires IsListingOf(listing, dir)
    ensures forall n :: n in GetUserAddedFonts(Some(listing)) <==> n in dir && HasFontSuffix(n)
    ensures NoDup(GetUserAddedFonts(Some(listing)))
  {
  }

  /** The user-font directory, beside the read-only bundled assets. */
  class FontStore {
    const assets: AssetListing
    var userFonts: map<string, seq<byte>>

    constructor (assets: AssetListing, userFonts: map<string, seq<byte>>)
      ensures this.assets == assets && this.userFonts == userFonts
    {
      this.assets := assets;
      this.userFonts := userFonts;
    }

    /**
     * `addFont`: writes the bytes to `File(userFontsDir, fontName)`, replacing any file there.
     * `written` is false where `writeBytes` throws `FileNotFoundException` to the caller, and the
     * directory is then unchanged.
     */
    method AddFont(fontName: string, fontBytes: seq<byte>) returns (written: bool)
      modifies this
      ensures written <==> ChildFileName(fontName).Some?
      ensures written ==> userFonts == old(userFonts)[ChildFileName(fontName).value := fontBytes]
      ensures !written ==> userFonts == old(userFonts)
    {
      var file := ChildFileName(fontName);
      written := file.Some?;
      if written {
        userFonts := userFonts[file.value := fontBytes];
      }
    }

    /** `deleteFont`: `File.delete()` succeeds exactly when the file exists. */
    method DeleteFont(fontName: string) returns (deleted: bool)
      modifies this
      ensures deleted <==> fontName in old(userFonts)
      ensures userFonts == old(userFonts) - {fontName}
      ensures !deleted ==> userFonts == old(userFonts)
    {
      deleted := fontName in userFonts;
      if deleted {
        userFonts := userFonts - {fontName};
      }
    }
  }

  /** A font added under a `.ttf`/`.otf` name is listed afterwards; any other name is not. */
  lemma {:induction false} AddedFontListed(dir: map<string, seq<byte>>, fontName: string,
                                           fontBytes: seq<byte>, listing: seq<string>)
    requires IsListingOf(listing, dir[fontName := fontBytes])
    ensures fontName in GetUserAddedFonts(Some(listing)) <==> HasFontSuffix(fontName)
    ensures forall n :: n in dir && HasFontSuffix(n) ==> n in GetUserAddedFonts(Some(listing))
  {
    UserAddedFontsExact(dir[fontName := fontBytes], listing);
  }

  /** After deleting a font, it is no longer listed and every other user font still is. */
  lemma {:induction false} DeletedFontGone(dir: map<string, seq<byte>>, fontName: string,
                                           listing: seq<string>)
    requires IsListingOf(listing, dir - {fontName})
    ensures fontName !in GetUserAddedFonts(Some(listing))
    ensures forall n :: n in dir && n != fontName && HasFontSuffix(n) ==> n in GetUserAddedFonts(Some(listing))
  {
    UserAddedFontsExact(dir - {fontName}, listing);
  }
}
