/**
 * The symbol picker's table of Unicode subsets and the grids and spinner lists built from it.
 */
module SymbolTable {
  import opened Text
  import opened Wrappers

  /** A named, inclusive range of code points. */
  datatype Subset = Subset(name: string, first: int, last: int) {
    /** Every code point of the range is a Unicode scalar value (so it is a `char`). */
    predicate Valid() {
      0 <= first <= last && (last < 0xD800 || 0xDFFF < first) && last <= 0x10FFFF
    }
    function Size(): int
    {
      last - first + 1
    }
  }

  /** The `subsets` table, in its declaration order (Kotlin's `mapOf` keeps insertion order). */
  const Subsets: seq<Subset> := [
    Subset("Basic Latin", 0x0020, 0x007F),
    Subset("Latin-1 Supplement", 0x00A0, 0x00FF),
    Subset("Arabic", 0x0600, 0x06FF),
    Subset("Arabic Supplement", 0x0750, 0x077F),
    Subset("Arabic Extended-A", 0x08A0, 0x08FF),
    Subset("Arabic Presentation Forms-A", 0xFB50, 0xFDFF),
    Subset("Arabic Presentation Forms-B", 0xFE70, 0xFEFF)
  ]

  /** The pseudo-subset that selects every range. */
  const AllSubsets: string := "All"

  predicate AllValid(subs: seq<Subset>) {
    forall i :: 0 <= i < |subs| ==> subs[i].Valid()
  }

  lemma TableValid()
    ensures AllValid(Subsets)
  {
  }

  /** `range.map { it.toChar().toString() }`: one single-character string per code point, ascending. */
  function RangeSymbols(sub: Subset): (r: seq<string>)
    requires sub.Valid()
    ensures |r| == sub.Size()
    ensures forall i :: 0 <= i < |r| ==> r[i] == [(sub.first + i) as char]
  {
    seq(sub.last - sub.first + 1, i requires 0 <= i < sub.last - sub.first + 1 => [(sub.first + i) as char])
  }

  /** `subsets.values.flatMap { ... }`: the ranges one after another, in table order. */
  function FlatSymbols(subs: seq<Subset>): (r: seq<string>)
    requires AllValid(subs)
    decreases |subs|
  {
    if subs == [] then []
    else FlatSymbols(subs[..|subs| - 1]) + RangeSymbols(subs[|subs| - 1])
  }

  /** The total number of code points in the ranges. */
  function TotalSize(subs: seq<Subset>): int
    decreases |subs|
  {
    if subs == [] then 0 else TotalSize(subs[..|subs| - 1]) + subs[|subs| - 1].Size()
  }

  lemma {:induction false} FlatSymbolsSize(subs: seq<Subset>)
    requires AllValid(subs)
    ensures |FlatSymbols(subs)| == TotalSize(subs)
    decreases |subs|
  {
    if subs != [] {
      FlatSymbolsSize(subs[..|subs| - 1]);
    }
  }

  /** `subsets[name]`: the range of the subset with that name, if any. */
  function Lookup(subs: seq<Subset>, name: string): (r: Option<Subset>)
    ensures r.Some? ==> r.value in subs && r.value.name == name
    ensures r.None? ==> forall i :: 0 <= i < |subs| ==> subs[i].name != name
  {
    if subs == [] then None
    else if subs[0].name == name then Some(subs[0])
    else Lookup(subs[1..], name)
  }

  /** The symbols that `updateSymbolGrid` shows for the selected subset name. */
  function SymbolsFor(selectedSubset: string): (r: seq<string>)
  {
    TableValid();
    if selectedSubset == AllSubsets then FlatSymbols(Subsets)
    else
      match Lookup(Subsets, selectedSubset)
      case Some(sub) => RangeSymbols(sub)
      case None => []
  }

  /** "All" shows all seven ranges, one after another: 1424 symbols. */
  lemma AllSymbolsCount()
    ensures |SymbolsFor(AllSubsets)| == 1424
  {
    TableValid();
    FlatSymbolsSize(Subsets);
    assert Subsets[..0] == [];
    assert TotalSize(Subsets[..1]) == 96;
    assert TotalSize(Subsets[..2]) == 192 by { assert Subsets[..2][..1] == Subsets[..1]; }
    assert TotalSize(Subsets[..3]) == 448 by { assert Subsets[..3][..2] == Subsets[..2]; }
    assert TotalSize(Subsets[..4]) == 496 by { assert Subsets[..4][..3] == Subsets[..3]; }
    assert TotalSize(Subsets[..5]) == 592 by { assert Subsets[..5][..4] == Subsets[..4]; }
    assert TotalSize(Subsets[..6]) == 1280 by { assert Subsets[..6][..5] == Subsets[..5]; }
    assert TotalSize(Subsets) == 1424 by { assert Subsets[..6] == Subsets[..|Subsets| - 1]; }
  }

  /** "All" is the concatenation of the ranges in table order. */
  lemma AllSymbolsInTableOrder()
    ensures SymbolsFor(AllSubsets) ==
      RangeSymbols(Subsets[0]) + RangeSymbols(Subsets[1]) + RangeSymbols(Subsets[2])
      + RangeSymbols(Subsets[3]) + RangeSymbols(Subsets[4]) + RangeSymbols(Subsets[5])
      + RangeSymbols(Subsets[6])
  {
    TableValid();
    FlatSymbolsStep(Subsets, 0);
    FlatSymbolsStep(Subsets, 1);
    FlatSymbolsStep(Subsets, 2);
    FlatSymbolsStep(Subsets, 3);
    FlatSymbolsStep(Subsets, 4);
    FlatSymbolsStep(Subsets, 5);
    FlatSymbolsStep(Subsets, 6);
    assert Subsets[..0] == [];
    assert Subsets[..7] == Subsets;
  }

  lemma FlatSymbolsStep(subs: seq<Subset>, k: nat)
    requires AllValid(subs) && k < |subs|
    ensures FlatSymbols(subs[..k + 1]) == FlatSymbols(subs[..k]) + RangeSymbols(subs[k])
  {
    assert subs[..k + 1][..k] == subs[..k];
  }

  /** A named subset shows its code points, from its first one up, each once and in ascending order. */
  lemma NamedSubsetSymbols(k: nat)
    requires k < |Subsets|
    ensures var r := SymbolsFor(Subsets[k].name);
      && |r| == Subsets[k].Size()
      && (forall i :: 0 <= i < |r| ==> |r[i]| == 1 && r[i][0] as int == Subsets[k].first + i)
      && (forall i, j :: 0 <= i < j < |r| ==> r[i][0] < r[j][0])
  {
    TableValid();
    var sub := Subsets[k];
    SubsetNamesDistinct();
    LookupFinds(Subsets, k);
    assert SymbolsFor(sub.name) == RangeSymbols(sub);
  }

  /** The table's names are distinct, and none of them is "All". */
  lemma SubsetNamesDistinct()
    ensures forall i, j :: 0 <= i < |Subsets| && 0 <= j < |Subsets| && Subsets[i].name == Subsets[j].name ==> i == j
    ensures forall i :: 0 <= i < |Subsets| ==> Subsets[i].name != AllSubsets
  {
    forall i, j | 0 <= i < |Subsets| && 0 <= j < |Subsets| && i != j
      ensures Subsets[i].name != Subsets[j].name
    {
      assert |Subsets[i].name| != |Subsets[j].name| || Subsets[i].name[0] != Subsets[j].name[0]
             || Subsets[i].name[|Subsets[i].name| - 1] != Subsets[j].name[|Subsets[j].name| - 1];
    }
  }

  /** With distinct names, looking up the name of entry `k` finds entry `k`. */
  lemma {:induction false} LookupFinds(subs: seq<Subset>, k: nat)
    requires k < |subs|
    requires forall i :: 0 <= i < |subs| && subs[i].name == subs[k].name ==> i == k
    ensures Lookup(subs, subs[k].name) == Some(subs[k])
    decreases |subs|
  {
    if k > 0 {
      assert subs[0].name != subs[k].name;
      assert subs[1..][k - 1] == subs[k];
      LookupFinds(subs[1..], k - 1);
    }
  }

  /** A name that is neither "All" nor in the table shows nothing. */
  lemma UnknownSubsetEmpty(name: string)
    requires name != AllSubsets
    requires forall i :: 0 <= i < |Subsets| ==> Subsets[i].name != name
    ensures SymbolsFor(name) == []
  {
  }

  /** The grid adapter's items: every symbol paired with the selected font. */
  function GridEntries(selectedSubset: string, selectedFont: string): (r: seq<(string, string)>)
    ensures |r| == |SymbolsFor(selectedSubset)|
    ensures forall i :: 0 <= i < |r| ==> r[i] == (SymbolsFor(selectedSubset)[i], selectedFont)
  {
    var symbols := SymbolsFor(selectedSubset);
    seq(|symbols|, i requires 0 <= i < |symbols| => (symbols[i], selectedFont))
  }

  /** The subset spinner: "All", then the table's names in order. */
  function SubsetChoices(): (r: seq<string>)
    ensures |r| == |Subsets| + 1 && r[0] == AllSubsets
    ensures forall i :: 0 <= i < |Subsets| ==> r[i + 1] == Subsets[i].name
  {
    [AllSubsets] + seq(|Subsets|, i requires 0 <= i < |Subsets| => Subsets[i].name)
  }

  /** `setSelection(3)` selects the Arabic subset. */
  lemma DefaultSubsetIsArabic()
    ensures SubsetChoices()[3] == "Arabic"
  {
    assert SubsetChoices()[3] == Subsets[2].name;
  }

  /** The names of font files without their last extension (`substringBeforeLast(".")`). */
  function StripExtensions(files: seq<string>): (r: seq<string>)
    ensures |r| == |files|
    ensures forall i :: 0 <= i < |r| ==> r[i] == SubstringBeforeLast(files[i], '.')
  {
    seq(|files|, i requires 0 <= i < |files| => SubstringBeforeLast(files[i], '.'))
  }

  /** The font spinner: "Default", the bundled fonts, then the user fonts, duplicates dropped. */
  function FontChoices(builtIn: seq<string>, user: seq<string>): (r: seq<string>)
    ensures r != [] && r[0] == "Default"
    ensures NoDup(r)
    ensures forall f :: f in r <==> f == "Default" || f in StripExtensions(builtIn) || f in StripExtensions(user)
  {
    Distinct(["Default"] + StripExtensions(builtIn) + StripExtensions(user))
  }
}
