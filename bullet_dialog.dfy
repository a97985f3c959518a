/**
 * `BulletDialogFragment`: the custom bullet list, stored in the preferences, to which the user
 * can add a symbol picked from the symbol dialog.
 */
module BulletDialog {
  import opened Text
  import opened Prefs

  /** The bullets offered when nothing is stored: U+2022, U+25E6, U+25AA, U+27A2, U+2713, U+2192, U+2013. */
  const DefaultBullets: seq<string> := ["\U{2022}", "\U{25E6}", "\U{25AA}", "\U{27A2}", "\U{2713}", "\U{2192}", "\U{2013}"]

  /** The bullet list after the user picks `symbol`: it is appended unless already present. */
  function AppendIfAbsent(bullets: seq<string>, symbol: string): (r: seq<string>)
    ensures symbol in bullets ==> r == bullets
    ensures |r| == if symbol in bullets then |bullets| else |bullets| + 1
    ensures r[..|bullets|] == bullets
    ensures r[|r| - 1] == symbol || symbol in bullets
    ensures forall b :: b in r <==> b in bullets || b == symbol
  {
    if symbol in bullets then bullets else bullets + [symbol]
  }

  lemma DefaultBulletsDistinct()
    ensures NoDup(DefaultBullets) && |DefaultBullets| == 7
  {
  }

  /** Appending only absent symbols keeps the list free of duplicates. */
  lemma AppendIfAbsentNoDup(bullets: seq<string>, symbol: string)
    requires NoDup(bullets)
    ensures NoDup(AppendIfAbsent(bullets, symbol))
  {
    var r := AppendIfAbsent(bullets, symbol);
    if symbol !in bullets {
      forall i, j | 0 <= i < j < |r| ensures r[i] != r[j] {
        if j == |bullets| {
          assert r[i] == bullets[i];
        }
      }
    }
  }

  /** Picking the same symbol twice is the same as picking it once. */
  lemma AppendIfAbsentIdempotent(bullets: seq<string>, symbol: string)
    ensures AppendIfAbsent(AppendIfAbsent(bullets, symbol), symbol) == AppendIfAbsent(bullets, symbol)
  {
  }

  class BulletDialogFragment {
    const prefs: SharedPreferences
    var bulletList: seq<string>

    /** `onCreateDialog` / `loadBullets`: the stored list, else the default bullets. */
    constructor (prefs: SharedPreferences)
      ensures this.prefs == prefs
      ensures CustomBulletsKey in prefs.stringLists ==> bulletList == prefs.stringLists[CustomBulletsKey]
      ensures CustomBulletsKey !in prefs.stringLists ==> bulletList == DefaultBullets
    {
      this.prefs := prefs;
      bulletList := if CustomBulletsKey in prefs.stringLists then prefs.stringLists[CustomBulletsKey]
                    else DefaultBullets;
    }

    /**
     * The symbol dialog's callback: the font of the picked symbol is ignored; a new symbol is
     * appended and the list stored; a known one changes and stores nothing.
     */
    method OnSymbolSelected(symbol: string, fontName: string)
      modifies this, prefs
      ensures bulletList == AppendIfAbsent(old(bulletList), symbol)
      ensures symbol in old(bulletList) ==> prefs.stringLists == old(prefs.stringLists)
      ensures symbol !in old(bulletList) ==> prefs.stringLists == old(prefs.stringLists)[CustomBulletsKey := bulletList]
      ensures prefs.pairLists == old(prefs.pairLists)
    {
      if symbol !in bulletList {
        bulletList := bulletList + [symbol];
        prefs.stringLists := prefs.stringLists[CustomBulletsKey := bulletList];
      }
    }

    /** A click on the grid delivers the bullet at `position`. */
    method SelectBullet(position: nat) returns (bullet: string)
      requires position < |bulletList|
      ensures bullet == bulletList[position]
      ensures bullet in bulletList
    {
      bullet := bulletList[position];
    }
  }
}
