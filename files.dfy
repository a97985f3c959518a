/**
 * The app's private storage: fixed directories, `java.io.File` name arithmetic and
 * directory listings.
 */
module Files {
  import opened Text
  import opened Wrappers

  newtype byte = x: int | 0 <= x < 256

  /** `context.filesDir`, as Android reports it for the primary user. */
  const FilesDir: string := "/data/user/0/com.sf.urduwriter/files"
  /** `File(filesDir, "docs")`: where documents live. */
  const DocsDir: string := FilesDir + "/docs"
  /** `File(filesDir, "user_fonts")`: where imported fonts live. */
  const UserFontsDir: string := FilesDir + "/user_fonts"

  /** A document file: its text and its last-modified time (milliseconds since the epoch). */
  datatype DocFile = DocFile(text: string, lastModified: int)

  /** The document files of the app, by absolute path. */
  class DocumentStore {
    var files: map<string, DocFile>

    constructor (files: map<string, DocFile>)
      ensures this.files == files
    {
      this.files := files;
    }
  }

  /** `File(dir, name).absolutePath` for an absolute `dir`. */
  function Child(dir: string, name: string): string {
    dir + "/" + name
  }

  /** `File(path).name`: the text after the last `/`. */
  function Name(path: string): (r: string)
    ensures '/' !in r
    ensures '/' !in path ==> r == path
  {
    SubstringAfterLast(path, '/', path)
  }

  /** `File.extension`: the text after the last `.`, or "" when there is none. */
  function Extension(name: string): string {
    SubstringAfterLast(name, '.', "")
  }

  /** `File.nameWithoutExtension`: the text before the last `.`, or the whole name. */
  function NameWithoutExtension(name: string): string {
    SubstringBeforeLast(name, '.')
  }

  /** A name with a dot is its base name, the dot and its extension. */
  lemma ExtensionSplit(name: string)
    requires '.' in name
    ensures name == NameWithoutExtension(name) + "." + Extension(name)
    ensures '.' !in Extension(name)
  {
    var k := LastIndexOf(name, '.');
    assert name == name[..k] + [name[k]] + name[k + 1..];
  }

  /** The part being read, once a slash or the end closes it: nothing when it is empty. */
  function Close(part: string): (r: seq<string>)
    ensures |r| <= 1 && (r == [] <==> part == "")
  {
    if part == "" then [] else [part]
  }

  /** The parts of `part + s`, reading `s` one character at a time. */
  function PartsFrom(part: string, s: string): seq<string>
    decreases |s|
  {
    if s == "" then Close(part)
    else if s[0] == '/' then Close(part) + PartsFrom("", s[1..])
    else PartsFrom(part + [s[0]], s[1..])
  }

  /** The non-empty parts of `s` between slashes, in order. */
  function Segments(s: string): seq<string> {
    PartsFrom("", s)
  }

  /** Every part is non-empty and holds no slash. */
  lemma {:induction false} PartsArePlain(part: string, s: string)
    requires '/' !in part
    ensures forall i :: 0 <= i < |PartsFrom(part, s)| ==>
              PartsFrom(part, s)[i] != "" && '/' !in PartsFrom(part, s)[i]
    decreases |s|
  {
    if s != "" {
      if s[0] == '/' {
        PartsArePlain("", s[1..]);
      } else {
        PartsArePlain(part + [s[0]], s[1..]);
      }
    }
  }

  /**
   * The file directly inside `dir` that `File(dir, name)` opens for writing. `java.io.File`
   * drops leading, trailing and doubled slashes from `name`; what is left must be one file name
   * other than `.` and `..`. Otherwise the path is the directory itself or goes through a
   * subdirectory, and opening it fails with `FileNotFoundException`.
   */
  function ChildFileName(name: string): (r: Option<string>)
    ensures r.Some? ==> r.value != "" && '/' !in r.value && r.value != "." && r.value != ".."
    ensures r.Some? <==> |Segments(name)| == 1 && Segments(name)[0] != "." && Segments(name)[0] != ".."
  {
    var segs := Segments(name);
    PartsArePlain("", name);
    if |segs| == 1 && segs[0] != "." && segs[0] != ".." then Some(segs[0]) else None
  }

  /** A slash closes the part being read; what follows is read afresh. */
  lemma {:induction false} PartsConcatSlash(part: string, a: string, b: string)
    ensures PartsFrom(part, a + "/" + b) == PartsFrom(part, a) + PartsFrom("", b)
    decreases |a|
  {
    var s := a + "/" + b;
    if a == "" {
      assert s[0] == '/' && s[1..] == b;
    } else {
      assert s[0] == a[0] && s[1..] == a[1..] + "/" + b;
      if a[0] == '/' {
        PartsConcatSlash("", a[1..], b);
      } else {
        PartsConcatSlash(part + [a[0]], a[1..], b);
      }
    }
  }

  /** A slash between two names separates their parts. */
  lemma SegmentsConcatSlash(a: string, b: string)
    ensures Segments(a + "/" + b) == Segments(a) + Segments(b)
  {
    PartsConcatSlash("", a, b);
  }

  /** Without a slash, the rest of the text extends the part being read. */
  lemma {:induction false} PartsNoSlash(part: string, s: string)
    requires '/' !in s
    ensures PartsFrom(part, s) == Close(part + s)
    decreases |s|
  {
    if s == "" {
      assert part + s == part;
    } else {
      assert s[0] != '/' && '/' !in s[1..];
      PartsNoSlash(part + [s[0]], s[1..]);
      assert part + [s[0]] + s[1..] == part + s;
    }
  }

  lemma SegmentsLeadingSlash(b: string)
    ensures Segments("/" + b) == Segments(b)
  {
    SegmentsConcatSlash("", b);
    assert "" + "/" + b == "/" + b;
  }

  lemma SegmentsTrailingSlash(a: string)
    ensures Segments(a + "/") == Segments(a)
  {
    SegmentsConcatSlash(a, "");
    assert a + "/" + "" == a + "/";
  }

  lemma SegmentsDoubledSlash(a: string, b: string)
    ensures Segments(a + "//" + b) == Segments(a + "/" + b)
  {
    var t := "/" + b;
    SegmentsConcatSlash(a, t);
    SegmentsLeadingSlash(b);
    SegmentsConcatSlash(a, b);
    DoubledSlashIsTwo(a, b, t);
  }

  lemma DoubledSlashIsTwo(a: string, b: string, t: string)
    requires t == "/" + b
    ensures a + "/" + t == a + "//" + b
  {
  }

  /** Leading, trailing and doubled slashes do not change the file a name denotes. */
  lemma {:induction false} ChildFileNameSlashes(a: string, b: string)
    ensures ChildFileName("/" + b) == ChildFileName(b)
    ensures ChildFileName(a + "/") == ChildFileName(a)
    ensures ChildFileName(a + "//" + b) == ChildFileName(a + "/" + b)
  {
    SegmentsLeadingSlash(b);
    SegmentsTrailingSlash(a);
    SegmentsDoubledSlash(a, b);
  }

  /** A plain file name is itself. */
  lemma PlainChildFileName(name: string)
    requires name != "" && '/' !in name && name != "." && name != ".."
    ensures ChildFileName(name) == Some(name)
  {
    PartsNoSlash("", name);
    assert "" + name == name;
  }

  /** A name with two parts goes through a subdirectory and denotes no file of the directory. */
  lemma SubdirectoryHasNoChildFile(a: string, b: string)
    requires a != "" && '/' !in a && b != "" && '/' !in b
    ensures ChildFileName(a + "/" + b) == None
  {
    SegmentsConcatSlash(a, b);
    PartsNoSlash("", a);
    PartsNoSlash("", b);
    assert "" + a == a && "" + b == b;
  }

  /** A path to a file directly inside `dir`. */
  predicate InDir(path: string, dir: string) {
    |path| > |dir| + 1 && path[..|dir| + 1] == dir + "/" && '/' !in path[|dir| + 1..]
  }

  /** The child of `dir` called `name` lies in `dir` and has that name. */
  lemma ChildName(dir: string, name: string)
    requires name != [] && '/' !in name
    ensures InDir(Child(dir, name), dir)
    ensures Name(Child(dir, name)) == name
  {
    var p := Child(dir, name);
    assert p[..|dir| + 1] == dir + "/";
    assert p[|dir| + 1..] == name;
    var k := LastIndexOf(p, '/');
    assert p[|dir|] == '/';
    assert !(k > |dir|) by {
      assert forall i :: |dir| < i < |p| ==> p[i] == name[i - |dir| - 1];
    }
    assert !(k < |dir|) by {
      assert forall i :: k < i < |p| ==> p[i] == p[k + 1..][i - k - 1];
    }
  }

  /**
   * `listing` is what the platform's directory listing returns for `dir`: every entry once,
   * in an order the platform chooses.
   */
  predicate IsListingOf<V>(listing: seq<string>, dir: map<string, V>) {
    && NoDup(listing)
    && (forall i :: 0 <= i < |listing| ==> listing[i] in dir)
    && (forall n :: n in dir ==> n in listing)
  }
}
