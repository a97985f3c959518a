/**
 * The Kotlin string and list operations the app relies on, with their library semantics:
 * `indexOf`/`lastIndexOf`, `substringBefore`/`substringBeforeLast`/`substringAfterLast`,
 * `replace(old, new)`, `trim()`, `split(',')[0]`, `distinct()`, `startsWith`/`endsWith`.
 */
module Text {

  /** No element occurs twice. */
  predicate NoDup<T(==)>(s: seq<T>) {
    forall i, j :: 0 <= i < j < |s| ==> s[i] != s[j]
  }

  /** The tail of a duplicate-free list is duplicate-free and lacks the head. */
  lemma NoDupTail<T>(s: seq<T>)
    requires s != [] && NoDup(s)
    ensures NoDup(s[1..]) && s[0] !in s[1..]
  {
    forall i, j | 0 <= i < j < |s| - 1 ensures s[1..][i] != s[1..][j] {
      assert s[1..][i] == s[i + 1] && s[1..][j] == s[j + 1];
    }
  }

  /** A new head keeps a list duplicate-free. */
  lemma NoDupCons<T>(x: T, r: seq<T>)
    requires NoDup(r) && x !in r
    ensures NoDup([x] + r)
  {
    var t := [x] + r;
    forall i, j | 0 <= i < j < |t| ensures t[i] != t[j] {
      assert t[j] == r[j - 1];
      if i > 0 {
        assert t[i] == r[i - 1];
      }
    }
  }

  predicate StartsWith(s: string, prefix: string) {
    |prefix| <= |s| && s[..|prefix|] == prefix
  }

  predicate EndsWith(s: string, suffix: string) {
    |suffix| <= |s| && s[|s| - |suffix|..] == suffix
  }

  /** Position of the first `x` in `s`, or -1 (`indexOf`, also `ArrayAdapter.getPosition`). */
  function IndexOf<T(==)>(s: seq<T>, x: T): (k: int)
    ensures -1 <= k < |s|
    ensures k == -1 <==> x !in s
    ensures 0 <= k ==> s[k] == x && x !in s[..k]
  {
    if s == [] then -1
    else if s[0] == x then 0
    else
      var k := IndexOf(s[1..], x);
      if k == -1 then -1
      else
        assert s[..k + 1] == [s[0]] + s[1..][..k];
        k + 1
  }

  /** Position of the last `x` in `s`, or -1 (`lastIndexOf`). */
  function LastIndexOf<T(==)>(s: seq<T>, x: T): (k: int)
    ensures -1 <= k < |s|
    ensures k == -1 <==> x !in s
    ensures 0 <= k ==> s[k] == x && x !in s[k + 1..]
  {
    if s == [] then -1
    else if s[|s| - 1] == x then |s| - 1
    else
      var k := LastIndexOf(s[..|s| - 1], x);
      LastIndexOfStep(s, x, k);
      k
  }

  lemma LastIndexOfStep<T>(s: seq<T>, x: T, k: int)
    requires s != [] && s[|s| - 1] != x
    requires -1 <= k < |s| - 1
    requires k == -1 <==> x !in s[..|s| - 1]
    requires 0 <= k ==> s[k] == x && x !in s[..|s| - 1][k + 1..]
    ensures k == -1 <==> x !in s
    ensures 0 <= k ==> x !in s[k + 1..]
  {
    var p := s[..|s| - 1];
    assert s == p + [s[|s| - 1]];
    if 0 <= k {
      assert s[k + 1..] == p[k + 1..] + [s[|s| - 1]];
    }
  }

  /** `s.substringBefore(c)`: the text before the first `c`, or all of `s` when there is none. */
  function SubstringBefore(s: string, c: char): (r: string)
    ensures StartsWith(s, r) && c !in r
    ensures c !in s ==> r == s
    ensures c in s ==> |r| < |s| && s[|r|] == c
  {
    var k := IndexOf(s, c);
    if k == -1 then s else s[..k]
  }

  /** `s.substringBeforeLast(c)`: the text before the last `c`, or all of `s` when there is none. */
  function SubstringBeforeLast(s: string, c: char): (r: string)
    ensures StartsWith(s, r)
    ensures c !in s ==> r == s
    ensures c in s ==> |r| < |s| && s[|r|] == c && c !in s[|r| + 1..]
  {
    var k := LastIndexOf(s, c);
    if k == -1 then s else s[..k]
  }

  /** `s.substringAfterLast(c, missing)`: the text after the last `c`, or `missing` when there is none. */
  function SubstringAfterLast(s: string, c: char, missing: string): (r: string)
    ensures c !in s ==> r == missing
    ensures c in s ==> c !in r && |r| < |s| && EndsWith(s, r) && s[|s| - |r| - 1] == c
  {
    var k := LastIndexOf(s, c);
    if k == -1 then missing else s[k + 1..]
  }

  /**
   * `s.replace(from, to)`: every occurrence of `from`, found left to right without overlap,
   * is replaced by `to`.
   */
  function ReplaceAll(s: string, from: string, to: string): string
    requires from != []
    decreases |s|
  {
    if |s| < |from| then s
    else if s[..|from|] == from then to + ReplaceAll(s[|from|..], from, to)
    else [s[0]] + ReplaceAll(s[1..], from, to)
  }

  /** Replacing a single character works one character at a time. */
  lemma ReplaceCharStep(s: string, c: char, t: string)
    requires s != []
    ensures ReplaceAll(s, [c], t) == (if s[0] == c then t else [s[0]]) + ReplaceAll(s[1..], [c], t)
  {
    assert (s[..1] == [c]) == (s[0] == c);
  }

  /** Replacing a character by itself changes nothing. */
  lemma {:induction false} ReplaceCharBySelf(s: string, c: char)
    ensures ReplaceAll(s, [c], [c]) == s
    decreases |s|
  {
    if s != [] {
      ReplaceCharStep(s, c, [c]);
      ReplaceCharBySelf(s[1..], c);
      assert s == [s[0]] + s[1..];
    }
  }

  /** A string without the character is left as it is. */
  lemma {:induction false} ReplaceCharAbsent(s: string, c: char, t: string)
    requires c !in s
    ensures ReplaceAll(s, [c], t) == s
    decreases |s|
  {
    if s != [] {
      ReplaceCharStep(s, c, t);
      ReplaceCharAbsent(s[1..], c, t);
      assert s == [s[0]] + s[1..];
    }
  }

  /** Replacing a character distributes over concatenation. */
  lemma {:induction false} ReplaceCharConcat(a: string, b: string, c: char, t: string)
    ensures ReplaceAll(a + b, [c], t) == ReplaceAll(a, [c], t) + ReplaceAll(b, [c], t)
    decreases |a|
  {
    if a == [] {
      assert a + b == b;
    } else {
      var h := if a[0] == c then t else [a[0]];
      assert (a + b)[0] == a[0];
      ReplaceCharStep(a + b, c, t);
      assert (a + b)[1..] == a[1..] + b;
      ReplaceCharConcat(a[1..], b, c, t);
      ReplaceCharStep(a, c, t);
      assert ReplaceAll(a + b, [c], t) == h + (ReplaceAll(a[1..], [c], t) + ReplaceAll(b, [c], t));
    }
  }

  /** Every character of the result comes from `s` (and is not `c`) or from `t`. */
  lemma {:induction false} ReplaceCharOrigin(s: string, c: char, t: string, d: char)
    requires d in ReplaceAll(s, [c], t)
    ensures (d in s && d != c) || d in t
    decreases |s|
  {
    if s != [] {
      ReplaceCharStep(s, c, t);
      var head := if s[0] == c then t else [s[0]];
      if d !in head {
        ReplaceCharOrigin(s[1..], c, t, d);
      }
    }
  }

  /** Escaping `c` as backslash-`c` never yields a string that starts with `c`. */
  lemma EscapedHead(s: string, c: char)
    requires c != '\\' && s != []
    ensures ReplaceAll(s, [c], ['\\', c]) != []
    ensures ReplaceAll(s, [c], ['\\', c])[0] != c
  {
    ReplaceCharStep(s, c, ['\\', c]);
  }

  /**
   * Escaping every `c` as backslash-`c` and then replacing every backslash-`c` by `c`
   * gives back the original string, whatever backslashes it already held.
   */
  lemma {:induction false} EscapeThenUnescape(s: string, c: char)
    requires c != '\\'
    ensures ReplaceAll(ReplaceAll(s, [c], ['\\', c]), ['\\', c], [c]) == s
    decreases |s|
  {
    if s != [] {
      var e := ReplaceAll(s[1..], [c], ['\\', c]);
      ReplaceCharStep(s, c, ['\\', c]);
      EscapeThenUnescape(s[1..], c);
      if s[0] == c {
        var t := ['\\', c] + e;
        assert t[..2] == ['\\', c];
        assert t[2..] == e;
        assert s == [c] + s[1..];
      } else {
        var t := [s[0]] + e;
        if e == [] {
          assert ReplaceAll(t, ['\\', c], [c]) == t;
          assert ReplaceAll(e, ['\\', c], [c]) == e;
          assert s == [s[0]] + s[1..];
        } else {
          EscapedHead(s[1..], c);
          assert t[1] == e[0] != c;
          assert t[..2] != ['\\', c];
          assert t[1..] == e;
          assert s == [s[0]] + s[1..];
        }
      }
    }
  }

  /** Kotlin's `Char.isWhitespace()`: Java whitespace plus the Unicode space separators. */
  predicate IsWhitespace(c: char) {
    var n := c as int;
    n == 0x20 || 0x09 <= n <= 0x0D || 0x1C <= n <= 0x1F || n == 0xA0 || n == 0x1680
    || 0x2000 <= n <= 0x200A || n == 0x2028 || n == 0x2029 || n == 0x202F || n == 0x205F
    || n == 0x3000
  }

  function TrimStart(s: string): (r: string)
    ensures EndsWith(s, r)
    ensures r == [] || !IsWhitespace(r[0])
    ensures forall i :: 0 <= i < |s| - |r| ==> IsWhitespace(s[i])
    decreases |s|
  {
    if s != [] && IsWhitespace(s[0]) then TrimStart(s[1..]) else s
  }

  function TrimEnd(s: string): (r: string)
    ensures StartsWith(s, r)
    ensures r == [] || !IsWhitespace(r[|r| - 1])
    ensures forall i :: |r| <= i < |s| ==> IsWhitespace(s[i])
    decreases |s|
  {
    if s != [] && IsWhitespace(s[|s| - 1]) then TrimEnd(s[..|s| - 1]) else s
  }

  /** `s.trim()`: leading and trailing whitespace removed. */
  function Trim(s: string): (r: string)
    ensures r == [] || (!IsWhitespace(r[0]) && !IsWhitespace(r[|r| - 1]))
    ensures forall d :: d in r ==> d in s
  {
    var t := TrimStart(s);
    var r := TrimEnd(t);
    TrimInside(s, t, r);
    r
  }

  lemma TrimInside(s: string, t: string, r: string)
    requires EndsWith(s, t) && StartsWith(t, r)
    requires t == [] || !IsWhitespace(t[0])
    requires r == [] || !IsWhitespace(r[|r| - 1])
    ensures r == [] || (!IsWhitespace(r[0]) && !IsWhitespace(r[|r| - 1]))
    ensures forall d :: d in r ==> d in s
  {
    forall d | d in r ensures d in s {
      var i :| 0 <= i < |r| && r[i] == d;
      assert t[i] == d;
      assert s[|s| - |t| + i] == d;
    }
    if r != [] {
      assert r[0] == t[0];
    }
  }

  /** A string that neither starts nor ends with whitespace is its own trim. */
  lemma TrimNoop(s: string)
    requires s == [] || (!IsWhitespace(s[0]) && !IsWhitespace(s[|s| - 1]))
    ensures Trim(s) == s
  {
  }

  /** `s.distinct()`: the first occurrence of every element, in order (`DistinctInOrder`). */
  function Distinct<T(==,!new)>(s: seq<T>): (r: seq<T>)
    ensures NoDup(r)
    ensures forall x :: x in r <==> x in s
    ensures |r| <= |s|
    ensures s != [] ==> r != [] && r[0] == s[0]
    decreases |s|
  {
    if s == [] then []
    else
      var d := Distinct(s[..|s| - 1]);
      assert forall x :: x in s <==> x in s[..|s| - 1] || x == s[|s| - 1] by {
        assert s == s[..|s| - 1] + [s[|s| - 1]];
      }
      if s[|s| - 1] in d then d else d + [s[|s| - 1]]
  }

  /** The last occurrence is the only index holding `x` with no `x` after it. */
  lemma {:induction false} LastIndexOfUnique<T>(s: seq<T>, x: T, i: nat)
    requires i < |s| && s[i] == x && x !in s[i + 1..]
    ensures LastIndexOf(s, x) == i
    decreases |s| - i
  {
    if i < |s| - 1 {
      var p := s[..|s| - 1];
      assert s[i + 1..][|s| - 2 - i] == s[|s| - 1];
      assert x !in p[i + 1..] by {
        assert p[i + 1..] == s[i + 1..][..|s| - 2 - i];
      }
      LastIndexOfUnique(p, x, i);
    }
  }

  /** A prefix finds an element it holds where the whole sequence does. */
  lemma IndexOfPrefix<T>(s: seq<T>, k: nat, x: T)
    requires k <= |s| && x in s[..k]
    ensures IndexOf(s, x) == IndexOf(s[..k], x)
  {
    var b := IndexOf(s[..k], x);
    assert s[..k][..b] == s[..b];
    IndexOfUnique(s, x, b);
  }

  /** The first occurrence is the only index holding `x` with no `x` before it. */
  lemma {:induction false} IndexOfUnique<T>(s: seq<T>, x: T, i: nat)
    requires i < |s| && s[i] == x && x !in s[..i]
    ensures IndexOf(s, x) == i
    decreases i
  {
    if i > 0 {
      assert s[..i][0] == s[0];
      assert s[1..][..i - 1] == s[..i][1..];
      IndexOfUnique(s[1..], x, i - 1);
    }
  }

  /** The elements of `r` appear in `r` in the order of their first occurrences in `s`. */
  predicate InFirstOccurrenceOrder<T(==)>(s: seq<T>, r: seq<T>) {
    forall i, j :: 0 <= i < j < |r| ==> IndexOf(s, r[i]) < IndexOf(s, r[j])
  }

  /** `distinct()` keeps the elements in the order of their first occurrences. */
  lemma {:induction false} DistinctInOrder<T(!new)>(s: seq<T>)
    ensures InFirstOccurrenceOrder(s, Distinct(s))
    decreases |s|
  {
    if s != [] {
      var p := s[..|s| - 1];
      DistinctInOrder(p);
      OrderExtend(s, Distinct(p));
    }
  }

  /** An order by first occurrences in all but the last element carries over to the whole. */
  lemma OrderExtend<T>(s: seq<T>, d: seq<T>)
    requires s != []
    requires forall x :: x in d ==> x in s[..|s| - 1]
    requires InFirstOccurrenceOrder(s[..|s| - 1], d)
    ensures InFirstOccurrenceOrder(s, d)
    ensures s[|s| - 1] !in s[..|s| - 1] ==> InFirstOccurrenceOrder(s, d + [s[|s| - 1]])
  {
    var p := s[..|s| - 1];
    forall x | x in d ensures IndexOf(s, x) == IndexOf(p, x) {
      IndexOfPrefix(s, |s| - 1, x);
    }
    forall i, j | 0 <= i < j < |d| ensures IndexOf(s, d[i]) < IndexOf(s, d[j]) {
      assert IndexOf(p, d[i]) < IndexOf(p, d[j]);
    }
    var last := s[|s| - 1];
    if last !in p {
      IndexOfUnique(s, last, |s| - 1);
      forall i | 0 <= i < |d| ensures IndexOf(s, d[i]) < IndexOf(s, last) {
        assert IndexOf(s, d[i]) == IndexOf(p, d[i]);
      }
      OrderAppend(s, d, last);
    }
  }

  lemma OrderAppend<T>(s: seq<T>, d: seq<T>, y: T)
    requires InFirstOccurrenceOrder(s, d)
    requires forall i :: 0 <= i < |d| ==> IndexOf(s, d[i]) < IndexOf(s, y)
    ensures InFirstOccurrenceOrder(s, d + [y])
  {
    var r := d + [y];
    forall i, j | 0 <= i < j < |r| ensures IndexOf(s, r[i]) < IndexOf(s, r[j]) {
      assert r[i] == d[i];
      if j < |d| {
        assert r[j] == d[j];
      }
    }
  }

  /** Concatenation of all the strings, in order (`StringBuilder.append` in a loop). */
  function Flatten(ss: seq<string>): string
  {
    if ss == [] then [] else Flatten(ss[..|ss| - 1]) + ss[|ss| - 1]
  }

  lemma {:induction false} FlattenAppend(a: seq<string>, b: seq<string>)
    ensures Flatten(a + b) == Flatten(a) + Flatten(b)
    decreases |b|
  {
    if b == [] {
      assert a + b == a;
    } else {
      var init := b[..|b| - 1];
      var ab := a + b;
      assert ab[..|ab| - 1] == a + init;
      assert ab[|ab| - 1] == b[|b| - 1];
      FlattenAppend(a, init);
      assert Flatten(ab) == Flatten(a + init) + b[|b| - 1];
      assert Flatten(b) == Flatten(init) + b[|b| - 1];
    }
  }
}
