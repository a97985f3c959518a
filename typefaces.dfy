/**
 * How the symbol picker turns a font name into a typeface: user fonts first, then the bundled
 * assets, then the platform default. Typefaces are opaque values naming where they came from.
 */
module Typefaces {
  import opened Files
  import opened Wrappers

  const DefaultFontName: string := "Default"

  datatype Typeface = DefaultTypeface | FromFile(path: string) | FromAsset(assetPath: string)

  /**
   * How `Typeface.createFromFile` and `Typeface.createFromAsset` treat a font that exists but does
   * not load. On API level 27 they throw. From API level 28 on they return `Typeface.DEFAULT`.
   * A missing file or asset throws on both.
   */
  datatype ApiLevel = Api27 | Api28OrLater

  /**
   * The font stores visible to the picker: the platform's API level, the user-font directory
   * (file name -> bytes), the user files that do not load, the asset paths that exist, and the
   * asset paths that exist but do not load.
   */
  datatype FontSources = FontSources(api: ApiLevel, userFonts: map<string, seq<byte>>, unreadable: set<string>,
                                     assets: set<string>, unreadableAssets: set<string>)

  /** The outcome of one `Typeface.createFrom…` call: a typeface, or an exception. */
  datatype Creation = Created(typeface: Typeface) | Threw

  function AssetPath(fileName: string): string {
    "fonts/" + fileName
  }

  /** `Typeface.createFromFile` on a user file. */
  function CreateFromFile(src: FontSources, file: string): (r: Creation)
    ensures r.Threw? <==> file !in src.userFonts || (file in src.unreadable && src.api == Api27)
    ensures r.Created? && file !in src.unreadable ==> r.typeface == FromFile(Child(UserFontsDir, file))
    ensures r.Created? && file in src.unreadable ==> r.typeface == DefaultTypeface
  {
    if file !in src.userFonts then Threw
    else if file !in src.unreadable then Created(FromFile(Child(UserFontsDir, file)))
    else if src.api == Api27 then Threw
    else Created(DefaultTypeface)
  }

  /** `Typeface.createFromAsset` on an asset path. */
  function CreateFromAsset(src: FontSources, path: string): (r: Creation)
    ensures r.Threw? <==> path !in src.assets || (path in src.unreadableAssets && src.api == Api27)
    ensures r.Created? && path !in src.unreadableAssets ==> r.typeface == FromAsset(path)
    ensures r.Created? && path in src.unreadableAssets ==> r.typeface == DefaultTypeface
  {
    if path !in src.assets then Threw
    else if path !in src.unreadableAssets then Created(FromAsset(path))
    else if src.api == Api27 then Threw
    else Created(DefaultTypeface)
  }

  /** A `try` around a creation whose `catch` ignores the exception. */
  function Caught(c: Creation): Option<Typeface> {
    match c
    case Created(t) => Some(t)
    case Threw => None
  }

  /** The user file the picker tries: `<name>.ttf` if it exists, else `<name>.otf` if that exists. */
  function UserFontFile(src: FontSources, fontName: string): (r: Option<string>)
    ensures r.Some? ==> r.value in src.userFonts
    ensures r.Some? ==> r.value == fontName + ".ttf" || r.value == fontName + ".otf"
    ensures r.None? <==> fontName + ".ttf" !in src.userFonts && fontName + ".otf" !in src.userFonts
  {
    if fontName + ".ttf" in src.userFonts then Some(fontName + ".ttf")
    else if fontName + ".otf" in src.userFonts then Some(fontName + ".otf")
    else None
  }

  /** What the user-font step leaves in `createdTypeface`. */
  function FromUserFonts(src: FontSources, fontName: string): Option<Typeface> {
    match UserFontFile(src, fontName)
    case Some(file) => Caught(CreateFromFile(src, file))
    case None => None
  }

  /** The asset step: `fonts/<name>.ttf`, and only when that throws, `fonts/<name>.otf`. */
  function FromAssets(src: FontSources, fontName: string): Option<Typeface> {
    match CreateFromAsset(src, AssetPath(fontName + ".ttf"))
    case Created(t) => Some(t)
    case Threw => Caught(CreateFromAsset(src, AssetPath(fontName + ".otf")))
  }

  /** The typeface `getTypeface` creates for a name that is not cached. */
  function Resolve(src: FontSources, fontName: string): Typeface {
    if fontName == DefaultFontName then DefaultTypeface
    else
      match FromUserFonts(src, fontName)
      case Some(t) => t
      case None => FromAssets(src, fontName).GetOr(DefaultTypeface)
  }

  /** A place a typeface can come from, in the order the picker tries them. */
  datatype Candidate = UserFile(fileName: string) | AssetFile(path: string)

  function Candidates(fontName: string): (r: seq<Candidate>)
    ensures |r| == 4
  {
    [UserFile(fontName + ".ttf"), UserFile(fontName + ".otf"),
     AssetFile(AssetPath(fontName + ".ttf")), AssetFile(AssetPath(fontName + ".otf"))]
  }

  /** The candidate's file or asset exists. */
  predicate Exists(src: FontSources, c: Candidate) {
    match c
    case UserFile(f) => f in src.userFonts
    case AssetFile(p) => p in src.assets
  }

  /** The candidate exists and loads. */
  predicate Loads(src: FontSources, c: Candidate) {
    match c
    case UserFile(f) => f in src.userFonts && f !in src.unreadable
    case AssetFile(p) => p in src.assets && p !in src.unreadableAssets
  }

  function Load(c: Candidate): Typeface {
    match c
    case UserFile(f) => FromFile(Child(UserFontsDir, f))
    case AssetFile(p) => FromAsset(p)
  }

  /** Reference order: the first candidate that loads, else the default typeface. */
  function FirstLoadable(src: FontSources, cs: seq<Candidate>): (r: Typeface)
    ensures r == DefaultTypeface <==> forall i :: 0 <= i < |cs| ==> !Loads(src, cs[i])
    ensures r != DefaultTypeface ==> exists i :: 0 <= i < |cs| && Loads(src, cs[i]) && r == Load(cs[i])
  {
    if cs == [] then DefaultTypeface
    else if Loads(src, cs[0]) then Load(cs[0])
    else FirstLoadable(src, cs[1..])
  }

  /** "Default" always means the platform default, whatever the stores hold. */
  lemma DefaultNameIsDefault(src: FontSources)
    ensures Resolve(src, DefaultFontName) == DefaultTypeface
  {
  }

  /**
   * When every user font loads, and on API level 28 and later every existing asset too,
   * `getTypeface` uses the first of user `.ttf`, user `.otf`, asset `.ttf`, asset `.otf` that
   * loads, and the default when none does.
   */
  lemma ResolveInOrder(src: FontSources, fontName: string)
    requires src.unreadable == {}
    requires src.api == Api27 || src.unreadableAssets == {}
    requires fontName != DefaultFontName
    ensures Resolve(src, fontName) == FirstLoadable(src, Candidates(fontName))
  {
    var cs := Candidates(fontName);
    assert cs[1..][1..][1..][1..] == [];
    assert FirstLoadable(src, cs[1..][1..]) == FromAssets(src, fontName).GetOr(DefaultTypeface);
    if !Loads(src, cs[0]) && !Loads(src, cs[1]) {
      assert FromUserFonts(src, fontName) == None;
    }
  }

  /** Reference order on API level 28 and later: the first candidate that exists, if any. */
  function FirstExisting(src: FontSources, cs: seq<Candidate>): (r: Option<Candidate>)
    ensures r.None? <==> forall i :: 0 <= i < |cs| ==> !Exists(src, cs[i])
    ensures r.Some? ==> exists i :: 0 <= i < |cs| && Exists(src, cs[i]) && r.value == cs[i]
                                    && forall j :: 0 <= j < i ==> !Exists(src, cs[j])
  {
    if cs == [] then None
    else if Exists(src, cs[0]) then Some(cs[0])
    else
      var r := FirstExisting(src, cs[1..]);
      assert r.Some? ==> exists i :: 1 <= i < |cs| && Exists(src, cs[i]) && r.value == cs[i]
                                      && forall j :: 0 <= j < i ==> !Exists(src, cs[j]) by {
        if r.Some? {
          var i :| 0 <= i < |cs[1..]| && Exists(src, cs[1..][i]) && r.value == cs[1..][i]
                   && forall j :: 0 <= j < i ==> !Exists(src, cs[1..][j]);
          assert forall j :: 0 <= j < i + 1 ==> !Exists(src, cs[j]) by {
            forall j | 0 <= j < i + 1 ensures !Exists(src, cs[j]) {
              if j > 0 {
                assert cs[j] == cs[1..][j - 1];
              }
            }
          }
        }
      }
      r
  }

  /**
   * On API level 28 and later the search stops at the first candidate that exists: its
   * typeface when it loads, and the default typeface when it does not.
   */
  lemma ResolveFirstExisting(src: FontSources, fontName: string)
    requires src.api == Api28OrLater
    requires fontName != DefaultFontName
    ensures Resolve(src, fontName) == match FirstExisting(src, Candidates(fontName))
                                      case None => DefaultTypeface
                                      case Some(c) => if Loads(src, c) then Load(c) else DefaultTypeface
  {
    var cs := Candidates(fontName);
    assert cs[1..][1..][1..][1..] == [];
    assert cs[1..][1..][1..][0] == cs[3];
    assert cs[1..][1..][0] == cs[2];
    assert cs[1..][0] == cs[1];
  }

  /** A name found nowhere resolves to the default typeface (no error escapes). */
  lemma UnknownNameIsDefault(src: FontSources, fontName: string)
    requires fontName + ".ttf" !in src.userFonts && fontName + ".otf" !in src.userFonts
    requires AssetPath(fontName + ".ttf") !in src.assets && AssetPath(fontName + ".otf") !in src.assets
    ensures Resolve(src, fontName) == DefaultTypeface
  {
  }

  /** A resolved typeface always comes from one of the four candidate places. */
  lemma ResolveFromCandidate(src: FontSources, fontName: string)
    requires fontName != DefaultFontName
    requires Resolve(src, fontName) != DefaultTypeface
    ensures exists i :: 0 <= i < 4 && Loads(src, Candidates(fontName)[i])
                        && Resolve(src, fontName) == Load(Candidates(fontName)[i])
  {
    var cs := Candidates(fontName);
    if FromUserFonts(src, fontName).Some? {
      if fontName + ".ttf" in src.userFonts {
        assert Loads(src, cs[0]);
      } else {
        assert Loads(src, cs[1]);
      }
    } else if CreateFromAsset(src, AssetPath(fontName + ".ttf")).Created? {
      assert Loads(src, cs[2]);
    } else {
      assert Loads(src, cs[3]);
    }
  }

  /**
   * A user `.ttf` that exists but does not load hides a loadable user `.otf` of the same name.
   * On API level 27 the picker goes on to the assets; from API level 28 on it gets the default
   * typeface and looks no further.
   */
  lemma UnreadableTtfShadowsOtf(src: FontSources, fontName: string)
    requires fontName != DefaultFontName
    requires fontName + ".ttf" in src.userFonts && fontName + ".ttf" in src.unreadable
    requires fontName + ".otf" in src.userFonts && fontName + ".otf" !in src.unreadable
    ensures src.api == Api27 ==> Resolve(src, fontName) == FromAssets(src, fontName).GetOr(DefaultTypeface)
    ensures src.api == Api28OrLater ==> Resolve(src, fontName) == DefaultTypeface
    ensures Resolve(src, fontName) != FromFile(Child(UserFontsDir, fontName + ".otf"))
  {
  }
}
