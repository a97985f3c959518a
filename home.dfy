/**
 * `HomeActivity`: the list of saved documents (the `.html` files of the documents directory,
 * newest first), deletion from it, and opening a document in the editor.
 */
module Home {
  import opened Text
  import opened Files
  import opened DocumentAdapter

  /** `file.extension == "html"`. */
  predicate IsHtml(path: string) {
    Extension(Name(path)) == "html"
  }

  /** The listing filter of `loadDocuments`, in listing order. */
  function HtmlFiles(listing: seq<string>): (r: seq<string>)
    ensures forall p :: p in r <==> p in listing && IsHtml(p)
    ensures NoDup(listing) ==> NoDup(r)
    decreases |listing|
  {
    if listing == [] then []
    else
      var rest := HtmlFiles(listing[1..]);
      assert forall p :: p in listing <==> p == listing[0] || p in listing[1..];
      HtmlFilesStep(listing, rest);
      if IsHtml(listing[0]) then [listing[0]] + rest else rest
  }

  lemma HtmlFilesStep(listing: seq<string>, rest: seq<string>)
    requires listing != []
    requires forall p :: p in rest ==> p in listing[1..]
    requires NoDup(listing[1..]) ==> NoDup(rest)
    ensures NoDup(listing) ==> NoDup(rest) && (IsHtml(listing[0]) ==> NoDup([listing[0]] + rest))
  {
    if NoDup(listing) {
      NoDupTail(listing);
      if IsHtml(listing[0]) {
        NoDupCons(listing[0], rest);
      }
    }
  }

  /** The record for a file: `File.lastModified()` is 0 for a file that does not exist. */
  function MakeDocument(files: map<string, DocFile>, path: string): (d: Document)
    ensures d.path == path
  {
    Document(NameWithoutExtension(Name(path)), path, if path in files then files[path].lastModified else 0)
  }

  function MakeDocuments(files: map<string, DocFile>, paths: seq<string>): (r: seq<Document>)
    ensures |r| == |paths|
    ensures forall i :: 0 <= i < |r| ==> r[i] == MakeDocument(files, paths[i])
  {
    seq(|paths|, i requires 0 <= i < |paths| => MakeDocument(files, paths[i]))
  }

  predicate SortedByRecency(s: seq<Document>) {
    forall i, j :: 0 <= i < j < |s| ==> s[i].lastModified >= s[j].lastModified
  }

  /** Places `x` after every newer document and before the others (stable for equal times). */
  function Insert(x: Document, t: seq<Document>): (r: seq<Document>)
    ensures multiset(r) == multiset(t) + multiset{x}
    decreases |t|
  {
    if t == [] then [x]
    else if t[0].lastModified > x.lastModified then
      assert t == [t[0]] + t[1..];
      [t[0]] + Insert(x, t[1..])
    else [x] + t
  }

  /** `sortedByDescending { it.lastModified }`. */
  function SortByRecency(s: seq<Document>): (r: seq<Document>)
    ensures multiset(r) == multiset(s)
    decreases |s|
  {
    if s == [] then []
    else
      assert s == [s[0]] + s[1..];
      Insert(s[0], SortByRecency(s[1..]))
  }

  /** A newest-first list stays newest first under a document no older than any of its entries. */
  lemma ConsSorted(h: Document, tail: seq<Document>)
    requires SortedByRecency(tail)
    requires forall e :: e in tail ==> e.lastModified <= h.lastModified
    ensures SortedByRecency([h] + tail)
  {
    var r := [h] + tail;
    forall i, j | 0 <= i < j < |r| ensures r[i].lastModified >= r[j].lastModified {
      assert r[j] == tail[j - 1];
      if i > 0 {
        assert r[i] == tail[i - 1];
      }
    }
  }

  lemma InsertMembers(x: Document, t: seq<Document>)
    ensures forall e :: e in Insert(x, t) ==> e == x || e in t
  {
    var r := Insert(x, t);
    forall e | e in r ensures e == x || e in t {
      assert e in multiset(r);
    }
  }

  lemma {:induction false} InsertSorted(x: Document, t: seq<Document>)
    requires SortedByRecency(t)
    ensures SortedByRecency(Insert(x, t))
    decreases |t|
  {
    if t != [] && t[0].lastModified > x.lastModified {
      var rest := t[1..];
      assert SortedByRecency(rest) by {
        forall i, j | 0 <= i < j < |rest| ensures rest[i].lastModified >= rest[j].lastModified {
          assert rest[i] == t[i + 1] && rest[j] == t[j + 1];
        }
      }
      InsertSorted(x, rest);
      InsertMembers(x, rest);
      forall e | e in rest ensures e.lastModified <= t[0].lastModified {
        var j :| 0 <= j < |rest| && rest[j] == e;
        assert t[j + 1] == e;
      }
      ConsSorted(t[0], Insert(x, rest));
    } else if t != [] {
      forall e | e in t ensures e.lastModified <= x.lastModified {
        var j :| 0 <= j < |t| && t[j] == e;
        if j > 0 {
          assert t[0].lastModified >= t[j].lastModified;
        }
      }
      ConsSorted(x, t);
    }
  }

  lemma {:induction false} SortSorted(s: seq<Document>)
    ensures SortedByRecency(SortByRecency(s))
    decreases |s|
  {
    if s != [] {
      SortSorted(s[1..]);
      InsertSorted(s[0], SortByRecency(s[1..]));
    }
  }

  /** `loadDocuments`: the `.html` files of the listing as records, newest first. */
  function LoadedDocuments(files: map<string, DocFile>, listing: seq<string>): seq<Document> {
    SortByRecency(MakeDocuments(files, HtmlFiles(listing)))
  }

  /** `listing` is `docsDir.listFiles()`: every file directly inside the documents directory, once. */
  predicate IsDocsListing(listing: seq<string>, files: map<string, DocFile>) {
    && NoDup(listing)
    && (forall i :: 0 <= i < |listing| ==> listing[i] in files && InDir(listing[i], DocsDir))
    && (forall p :: p in files && InDir(p, DocsDir) ==> p in listing)
  }

  /** The record `loadDocuments` builds for the file at `path`, when that file exists. */
  predicate IsRecordOf(files: map<string, DocFile>, d: Document) {
    && d.path in files && InDir(d.path, DocsDir) && IsHtml(d.path)
    && d == Document(NameWithoutExtension(Name(d.path)), d.path, files[d.path].lastModified)
  }

  /** The shown list is newest first and holds exactly the records of the stored documents. */
  ghost predicate ShowsStore(documents: seq<Document>, files: map<string, DocFile>) {
    SortedByRecency(documents) && forall d :: d in documents <==> IsRecordOf(files, d)
  }

  lemma MadeDocumentsAreRecords(files: map<string, DocFile>, listing: seq<string>)
    requires IsDocsListing(listing, files)
    ensures forall d :: d in MakeDocuments(files, HtmlFiles(listing)) <==> IsRecordOf(files, d)
  {
    MadeAreRecords(files, listing);
    RecordsAreMade(files, listing);
  }

  lemma MadeAreRecords(files: map<string, DocFile>, listing: seq<string>)
    requires IsDocsListing(listing, files)
    ensures forall d :: d in MakeDocuments(files, HtmlFiles(listing)) ==> IsRecordOf(files, d)
  {
    var h := HtmlFiles(listing);
    var made := MakeDocuments(files, h);
    forall d | d in made ensures IsRecordOf(files, d) {
      var i :| 0 <= i < |made| && made[i] == d;
      assert h[i] in listing;
    }
  }

  lemma RecordsAreMade(files: map<string, DocFile>, listing: seq<string>)
    requires IsDocsListing(listing, files)
    ensures forall d :: IsRecordOf(files, d) ==> d in MakeDocuments(files, HtmlFiles(listing))
  {
    var h := HtmlFiles(listing);
    var made := MakeDocuments(files, h);
    forall d | IsRecordOf(files, d) ensures d in made {
      assert d.path in h;
      var i :| 0 <= i < |h| && h[i] == d.path;
      assert made[i] == d;
    }
  }

  lemma SortKeepsMembers(s: seq<Document>)
    ensures forall d :: d in SortByRecency(s) <==> d in s
  {
    var r := SortByRecency(s);
    forall d ensures d in r <==> d in s {
      assert d in r <==> d in multiset(r);
      assert d in s <==> d in multiset(s);
    }
  }

  /**
   * The home list is sorted newest first, is a reordering of the filtered listing, and holds
   * exactly the records of the `.html` files of the documents directory.
   */
  lemma LoadedDocumentsSpec(files: map<string, DocFile>, listing: seq<string>)
    requires IsDocsListing(listing, files)
    ensures SortedByRecency(LoadedDocuments(files, listing))
    ensures multiset(LoadedDocuments(files, listing)) == multiset(MakeDocuments(files, HtmlFiles(listing)))
    ensures forall d :: d in LoadedDocuments(files, listing) <==> IsRecordOf(files, d)
  {
    var made := MakeDocuments(files, HtmlFiles(listing));
    SortSorted(made);
    SortKeepsMembers(made);
    MadeDocumentsAreRecords(files, listing);
  }

  /** Every listed document refers to an existing file, so opening it finds that file. */
  lemma ListedDocumentExists(files: map<string, DocFile>, listing: seq<string>, d: Document)
    requires IsDocsListing(listing, files)
    requires d in LoadedDocuments(files, listing)
    ensures d.path in files
  {
    LoadedDocumentsSpec(files, listing);
  }

  /**
   * After deleting a document's file and reloading, no row has its path and every other row
   * is still listed.
   */
  lemma DeleteRemovesOnlyThat(files: map<string, DocFile>, listing: seq<string>,
                              listingAfter: seq<string>, d: Document)
    requires IsDocsListing(listing, files)
    requires IsDocsListing(listingAfter, files - {d.path})
    ensures forall e :: e in LoadedDocuments(files - {d.path}, listingAfter) ==> e.path != d.path
    ensures forall e :: e in LoadedDocuments(files, listing) && e.path != d.path ==>
                        e in LoadedDocuments(files - {d.path}, listingAfter)
  {
    LoadedDocumentsSpec(files, listing);
    LoadedDocumentsSpec(files - {d.path}, listingAfter);
  }

  class HomeActivity {
    const store: DocumentStore
    var documents: seq<Document>

    constructor (store: DocumentStore)
      ensures this.store == store && documents == []
    {
      this.store := store;
      documents := [];
    }

    /** `loadDocuments` (run on resume): the adapter is given the freshly built list. */
    method LoadDocuments(listing: seq<string>)
      modifies this
      ensures documents == LoadedDocuments(store.files, listing)
      ensures IsDocsListing(listing, store.files) ==> ShowsStore(documents, store.files)
    {
      documents := LoadedDocuments(store.files, listing);
      if IsDocsListing(listing, store.files) {
        LoadedDocumentsSpec(store.files, listing);
      }
    }

    /** `onDeleteClicked`: the document's file is deleted, then the list is rebuilt. */
    method OnDeleteClicked(document: Document, listingAfter: seq<string>)
      modifies this, store
      ensures store.files == old(store.files) - {document.path}
      ensures documents == LoadedDocuments(store.files, listingAfter)
      ensures IsDocsListing(listingAfter, store.files) ==>
                ShowsStore(documents, store.files) && forall e :: e in documents ==> e.path != document.path
    {
      store.files := store.files - {document.path};
      LoadDocuments(listingAfter);
    }

    /** `onDocumentClicked`: the editor is opened with the document's path. */
    method OnDocumentClicked(document: Document) returns (extraDocPath: string)
      ensures extraDocPath == document.path
    {
      extraDocPath := document.path;
    }
  }
}
