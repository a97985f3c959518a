/**
 * `SymbolDialogFragment`: the recent-symbols list (kept in the preferences) and the typeface
 * memo cache, changed in place by the dialog's handlers.
 */
module SymbolDialog {
  import opened Wrappers
  import Text
  import Files
  import opened Prefs
  import opened Recents
  import opened SymbolTable
  import opened Typefaces

  /** Every cached typeface is the one its name resolves to over `src`. */
  ghost predicate CacheAgrees(cache: map<string, Typeface>, src: FontSources) {
    forall n :: n in cache ==> cache[n] == Resolve(src, n)
  }

  class SymbolDialogFragment {
    const prefs: SharedPreferences
    var recentSymbols: seq<(string, string)>
    var typefaceCache: map<string, Typeface>

    /** `onCreateDialog` / `loadRecentSymbols`: the stored list, or an empty one when nothing is stored. */
    constructor (prefs: SharedPreferences)
      ensures this.prefs == prefs
      ensures RecentSymbolsKey in prefs.pairLists ==> recentSymbols == prefs.pairLists[RecentSymbolsKey]
      ensures RecentSymbolsKey !in prefs.pairLists ==> recentSymbols == []
      ensures typefaceCache == map[]
    {
      this.prefs := prefs;
      recentSymbols := if RecentSymbolsKey in prefs.pairLists then prefs.pairLists[RecentSymbolsKey] else [];
      typefaceCache := map[];
    }

    /** `addSymbolToRecents`: promote the pair to the front, cap the list, store it. */
    method AddSymbolToRecents(symbol: string, fontName: string)
      modifies this, prefs
      ensures recentSymbols == Promote(old(recentSymbols), (symbol, fontName))
      ensures prefs.pairLists == old(prefs.pairLists)[RecentSymbolsKey := recentSymbols]
      ensures prefs.stringLists == old(prefs.stringLists)
      ensures typefaceCache == old(typefaceCache)
    {
      var pair := (symbol, fontName);
      var k := Text.IndexOf(recentSymbols, pair);
      if k != -1 {
        recentSymbols := recentSymbols[..k] + recentSymbols[k + 1..];
      }
      recentSymbols := [pair] + recentSymbols;
      if |recentSymbols| > MaxRecents {
        recentSymbols := recentSymbols[..MaxRecents] + recentSymbols[MaxRecents + 1..];
      }
      prefs.pairLists := prefs.pairLists[RecentSymbolsKey := recentSymbols];
    }

    /**
     * A click on the main grid: the entry at `position` is promoted in the recents and delivered
     * to the listener.
     */
    method PickFromGrid(selectedSubset: string, selectedFont: string, position: nat)
      returns (picked: (string, string))
      requires position < |GridEntries(selectedSubset, selectedFont)|
      modifies this, prefs
      ensures picked == (SymbolsFor(selectedSubset)[position], selectedFont)
      ensures recentSymbols == Promote(old(recentSymbols), picked)
      ensures prefs.pairLists == old(prefs.pairLists)[RecentSymbolsKey := recentSymbols]
      ensures prefs.stringLists == old(prefs.stringLists)
      ensures typefaceCache == old(typefaceCache)
    {
      picked := GridEntries(selectedSubset, selectedFont)[position];
      AddSymbolToRecents(picked.0, picked.1);
    }

    /** A click on the recent grid delivers the entry at `position` and changes nothing. */
    method PickRecent(position: nat) returns (picked: (string, string))
      requires position < |recentSymbols|
      ensures picked == recentSymbols[position]
      ensures picked in recentSymbols
    {
      picked := recentSymbols[position];
    }

    /**
     * `getTypeface`: a cached name returns its cached typeface without consulting the stores;
     * any other name is resolved and cached.
     */
    method GetTypeface(src: FontSources, fontName: string) returns (t: Typeface)
      modifies this
      ensures fontName in old(typefaceCache) ==> t == old(typefaceCache)[fontName]
      ensures fontName !in old(typefaceCache) ==> t == Resolve(src, fontName)
      ensures typefaceCache == old(typefaceCache)[fontName := t]
      ensures recentSymbols == old(recentSymbols)
      ensures CacheAgrees(old(typefaceCache), src) ==> CacheAgrees(typefaceCache, src) && t == Resolve(src, fontName)
    {
      if fontName in typefaceCache {
        t := typefaceCache[fontName];
        return;
      }
      if fontName == DefaultFontName {
        t := DefaultTypeface;
      } else {
        var createdTypeface: Option<Typeface> := None;
        var userFontFile: Option<string> := None;
        if fontName + ".ttf" in src.userFonts {
          userFontFile := Some(fontName + ".ttf");
        } else if fontName + ".otf" in src.userFonts {
          userFontFile := Some(fontName + ".otf");
        }
        if userFontFile.Some? {
          var created := CreateFromFile(src, userFontFile.value);
          if created.Created? {
            createdTypeface := Some(created.typeface);
          }
        }
        if createdTypeface.None? {
          var created := CreateFromAsset(src, AssetPath(fontName + ".ttf"));
          if created.Created? {
            createdTypeface := Some(created.typeface);
          } else {
            created := CreateFromAsset(src, AssetPath(fontName + ".otf"));
            if created.Created? {
              createdTypeface := Some(created.typeface);
            }
          }
        }
        t := createdTypeface.GetOr(DefaultTypeface);
      }
      typefaceCache := typefaceCache[fontName := t];
    }

    /** `onDestroy`: the cache is emptied. */
    method Destroy()
      modifies this
      ensures typefaceCache == map[]
      ensures recentSymbols == old(recentSymbols)
    {
      typefaceCache := map[];
    }
  }
}
