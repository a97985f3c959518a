/**
 * The recent-symbols list of the symbol picker: (symbol, font name) pairs, most recent first,
 * at most `MaxRecents` of them.
 */
module Recents {
  import opened Text

  const MaxRecents: nat := 10

  /** `MutableList.remove(x)`: drops the first occurrence of `x`, if any. */
  function RemoveFirst<T(==)>(s: seq<T>, x: T): (r: seq<T>)
    ensures x !in s ==> r == s
    ensures x in s ==> |r| == |s| - 1
  {
    var k := IndexOf(s, x);
    if k == -1 then s else s[..k] + s[k + 1..]
  }

  /** Removing a present pair takes exactly one copy of it out of the list. */
  lemma RemoveFirstMultiset<T>(s: seq<T>, x: T)
    requires x in s
    ensures multiset(RemoveFirst(s, x)) == multiset(s) - multiset{x}
  {
    var k := IndexOf(s, x);
    assert s == s[..k] + [x] + s[k + 1..];
  }

  /** The occurrence removed is the first: what precedes it and what follows it are kept in order. */
  lemma RemoveFirstAtFirst<T>(s: seq<T>, x: T, k: nat)
    requires k < |s| && s[k] == x && x !in s[..k]
    ensures RemoveFirst(s, x) == s[..k] + s[k + 1..]
  {
    IndexOfUnique(s, x, k);
  }

  /**
   * `addSymbolToRecents`: remove the pair, insert it at the front and, when the list then holds
   * more than `MaxRecents` entries, remove the one at index `MaxRecents`.
   */
  function Promote<T(==)>(s: seq<T>, x: T): (r: seq<T>)
    ensures r != [] && r[0] == x
    ensures |s| <= MaxRecents ==> |r| <= MaxRecents
    ensures x in s && |s| <= MaxRecents ==> |r| == |s|
    ensures x !in s ==> |r| == if |s| < MaxRecents then |s| + 1 else |s|
  {
    var t := [x] + RemoveFirst(s, x);
    if |t| > MaxRecents then t[..MaxRecents] + t[MaxRecents + 1..] else t
  }

  /** Every element but `x`, in order. */
  function Without<T(==,!new)>(s: seq<T>, x: T): (r: seq<T>)
    ensures x !in r
    ensures forall y :: y in r <==> y in s && y != x
    decreases |s|
  {
    if s == [] then []
    else
      assert forall y :: y in s <==> y == s[0] || y in s[1..];
      (if s[0] == x then [] else [s[0]]) + Without(s[1..], x)
  }

  /** The first `n` elements (`take(n)`). */
  function Take<T>(s: seq<T>, n: nat): (r: seq<T>)
    ensures |r| == if |s| < n then |s| else n
  {
    if |s| <= n then s else s[..n]
  }

  lemma {:induction false} WithoutAbsent<T(!new)>(s: seq<T>, x: T)
    requires x !in s
    ensures Without(s, x) == s
    decreases |s|
  {
    if s != [] {
      WithoutAbsent(s[1..], x);
      assert s == [s[0]] + s[1..];
    }
  }

  /** In a list without duplicates, removing the first occurrence removes every occurrence. */
  lemma {:induction false} RemoveFirstIsWithout<T(!new)>(s: seq<T>, x: T)
    requires NoDup(s)
    ensures RemoveFirst(s, x) == Without(s, x)
    decreases |s|
  {
    if s != [] {
      assert NoDup(s[1..]);
      if s[0] == x {
        assert x !in s[1..];
        WithoutAbsent(s[1..], x);
        assert IndexOf(s, x) == 0;
        assert RemoveFirst(s, x) == s[1..];
      } else {
        RemoveFirstIsWithout(s[1..], x);
        RemoveFirstCons(s, x);
      }
    }
  }

  /** Removing an element other than the head happens in the tail. */
  lemma RemoveFirstCons<T>(s: seq<T>, x: T)
    requires s != [] && s[0] != x
    ensures RemoveFirst(s, x) == [s[0]] + RemoveFirst(s[1..], x)
  {
    var k := IndexOf(s[1..], x);
    if k != -1 {
      assert IndexOf(s, x) == k + 1;
      assert s[..k + 1] == [s[0]] + s[1..][..k];
      assert s[k + 2..] == s[1..][k + 1..];
    } else {
      assert IndexOf(s, x) == -1;
      assert s == [s[0]] + s[1..];
    }
  }

  lemma WithoutNoDup<T(!new)>(s: seq<T>, x: T)
    requires NoDup(s)
    ensures NoDup([x] + Without(s, x))
  {
    WithoutKeepsNoDup(s, x);
  }

  lemma {:induction false} WithoutKeepsNoDup<T(!new)>(s: seq<T>, x: T)
    requires NoDup(s)
    ensures NoDup(Without(s, x))
    decreases |s|
  {
    if s != [] {
      assert NoDup(s[1..]);
      WithoutKeepsNoDup(s[1..], x);
      assert s[0] !in s[1..];
    }
  }

  lemma NoDupDropAt<T>(t: seq<T>, k: nat)
    requires NoDup(t) && k < |t|
    ensures NoDup(t[..k] + t[k + 1..])
  {
    var u := t[..k] + t[k + 1..];
    forall i, j | 0 <= i < j < |u| ensures u[i] != u[j] {
      var i' := if i < k then i else i + 1;
      var j' := if j < k then j else j + 1;
      assert u[i] == t[i'] && u[j] == t[j'];
    }
  }

  /**
   * On a list of at most `MaxRecents` distinct entries, the new list is the picked entry
   * followed by all the others in their old order, cut to `MaxRecents`.
   */
  lemma PromoteSpec<T(!new)>(s: seq<T>, x: T)
    requires NoDup(s) && |s| <= MaxRecents
    ensures Promote(s, x) == Take([x] + Without(s, x), MaxRecents)
  {
    RemoveFirstIsWithout(s, x);
    CutIsTake([x] + RemoveFirst(s, x));
  }

  /** Dropping the entry at `MaxRecents` of a list one too long is taking `MaxRecents`. */
  lemma CutIsTake<T>(t: seq<T>)
    requires |t| <= MaxRecents + 1
    ensures (if |t| > MaxRecents then t[..MaxRecents] + t[MaxRecents + 1..] else t) == Take(t, MaxRecents)
  {
    if |t| > MaxRecents {
      assert t[MaxRecents + 1..] == [];
    }
  }

  /** No entry occurs twice after a promotion if none did before. */
  lemma PromoteNoDup<T(!new)>(s: seq<T>, x: T)
    requires NoDup(s)
    ensures NoDup(Promote(s, x))
  {
    RemoveFirstIsWithout(s, x);
    WithoutNoDup(s, x);
    var t := [x] + Without(s, x);
    if |t| > MaxRecents {
      NoDupDropAt(t, MaxRecents);
    }
  }

  /** When a full list gains a new entry, only the oldest (last) entry is dropped. */
  lemma PromoteOverflow<T>(s: seq<T>, x: T)
    requires |s| == MaxRecents && x !in s
    ensures Promote(s, x) == [x] + s[..MaxRecents - 1]
  {
    assert IndexOf(s, x) == -1;
    var t := [x] + s;
    assert t[..MaxRecents] == [x] + s[..MaxRecents - 1];
    assert t[MaxRecents + 1..] == [];
  }

  /** Picking the most recent entry again changes nothing. */
  lemma PromoteIdempotent<T>(s: seq<T>, x: T)
    requires |s| <= MaxRecents
    ensures Promote(Promote(s, x), x) == Promote(s, x)
  {
    PromoteHead(Promote(s, x), x);
  }

  /** A list already headed by `x` and within the cap is left as it is. */
  lemma PromoteHead<T>(r: seq<T>, x: T)
    requires r != [] && r[0] == x && |r| <= MaxRecents
    ensures Promote(r, x) == r
  {
    assert IndexOf(r, x) == 0;
    assert RemoveFirst(r, x) == r[1..];
    assert [x] + r[1..] == r;
  }

  /** Removing `x` keeps every other element. */
  lemma RemoveFirstKeeps<T>(s: seq<T>, x: T, y: T)
    requires y in s && y != x
    ensures y in RemoveFirst(s, x)
  {
    var k := IndexOf(s, x);
    if k != -1 {
      var j := IndexOf(s, y);
      if j < k {
        assert s[..k][j] == y;
      } else {
        assert s[k + 1..][j - k - 1] == y;
      }
    }
  }

  /** An entry that is not picked stays in the list unless it was pushed out of the last place. */
  lemma PromoteKeepsOthers<T>(s: seq<T>, x: T, y: T)
    requires NoDup(s) && |s| <= MaxRecents
    requires y in s && y != x
    requires |s| < MaxRecents || x in s || y != s[|s| - 1]
    ensures y in Promote(s, x)
  {
    var t := [x] + RemoveFirst(s, x);
    if |t| > MaxRecents {
      assert IndexOf(s, x) == -1;
      assert t == [x] + s;
      var k := IndexOf(s, y);
      assert k < |s| - 1;
      assert t[..MaxRecents][k + 1] == y;
    } else {
      RemoveFirstKeeps(s, x, y);
      assert y in t;
    }
  }
}
