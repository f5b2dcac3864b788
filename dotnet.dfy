/**
  The .NET library calls `MidiNote.GetName` makes, written out: LINQ
  `Where` and `Except` over a list of names, `String.StartsWith`,
  `String.Replace` and the decimal rendering of an int in an interpolated
  string.
 */
module DotNet {

  /** `s.Where(p)`: the elements satisfying p, in their original order. */
  function Filter<T>(s: seq<T>, p: T -> bool): (r: seq<T>)
    ensures |r| <= |s|
  {
    if s == [] then []
    else if p(s[0]) then [s[0]] + Filter(s[1..], p)
    else Filter(s[1..], p)
  }

  /**
    `first.Except(second)`: the elements of first that are not in second,
    in first's order, each distinct element yielded once. `excluded` holds
    second's elements and whatever has been yielded so far.
   */
  function ExceptFrom<T(==)>(first: seq<T>, excluded: set<T>): seq<T> {
    if first == [] then []
    else if first[0] in excluded then ExceptFrom(first[1..], excluded)
    else [first[0]] + ExceptFrom(first[1..], excluded + {first[0]})
  }

  function Except<T(==)>(first: seq<T>, second: seq<T>): seq<T> {
    ExceptFrom(first, set x | x in second)
  }

  /**
    `s.StartsWith(prefix)`, compared character by character. The .NET call
    without a `StringComparison` compares under the current culture; for
    the ASCII letters of the `MusicNote` member names both agree.
   */
  predicate StartsWith(s: string, prefix: string) {
    prefix == [] || (s != [] && s[0] == prefix[0] && StartsWith(s[1..], prefix[1..]))
  }

  /** Ordinal `s.Contains(pattern)`: pattern occurs somewhere in s. */
  predicate Contains(s: string, pattern: string) {
    StartsWith(s, pattern) || (s != [] && Contains(s[1..], pattern))
  }

  /**
    Ordinal `s.Replace(pattern, replacement)`: every occurrence of pattern,
    scanning left to right without overlaps, is replaced.
   */
  function Replace(s: string, pattern: string, replacement: string): string
    requires pattern != []
  {
    if |s| < |pattern| then s
    else if StartsWith(s, pattern) then
      replacement + Replace(s[|pattern|..], pattern, replacement)
    else [s[0]] + Replace(s[1..], pattern, replacement)
  }

  /** The decimal text of a non-negative int, as `$"{n}"` renders it. */
  function DecimalString(n: nat): (r: string)
    ensures |r| >= 1 && AllDigits(r)
  {
    if n < 10 then [Digit(n)] else DecimalString(n / 10) + [Digit(n % 10)]
  }

  function Digit(d: nat): (c: char)
    requires d < 10
    ensures '0' <= c <= '9' && c as int - '0' as int == d
  {
    ('0' as int + d) as char
  }

  predicate AllDigits(s: string) {
    forall i :: 0 <= i < |s| ==> '0' <= s[i] <= '9'
  }

  /** Reads decimal text back into its value: the reference for DecimalString. */
  function DecimalValue(s: string): nat
    requires AllDigits(s)
  {
    if s == [] then 0
    else 10 * DecimalValue(s[..|s| - 1]) + (s[|s| - 1] as int - '0' as int)
  }

  /** The rendering loses nothing: reading it back gives the number. */
  lemma {:induction false} DecimalRoundTrip(n: nat)
    ensures DecimalValue(DecimalString(n)) == n
  {
    if n >= 10 {
      DecimalRoundTrip(n / 10);
      var s := DecimalString(n);
      assert s[..|s| - 1] == DecimalString(n / 10);
    }
  }

  /** An element survives `Where` as often as it occurs, when p holds of it. */
  lemma {:induction false} FilterCount<T>(s: seq<T>, p: T -> bool, x: T)
    ensures multiset(Filter(s, p))[x] == if p(x) then multiset(s)[x] else 0
  {
    if s != [] {
      FilterCount(s[1..], p, x);
      assert s == [s[0]] + s[1..];
    }
  }

  lemma FilterMember<T>(s: seq<T>, p: T -> bool, x: T)
    ensures x in Filter(s, p) <==> x in s && p(x)
  {
    FilterCount(s, p, x);
  }

  /** `Where` sees only the elements, so it keeps equal multisets equal. */
  lemma FilterMultiset<T>(s: seq<T>, t: seq<T>, p: T -> bool)
    requires multiset(s) == multiset(t)
    ensures multiset(Filter(s, p)) == multiset(Filter(t, p))
  {
    var a, b := multiset(Filter(s, p)), multiset(Filter(t, p));
    forall x ensures a[x] == b[x] {
      FilterCount(s, p, x);
      FilterCount(t, p, x);
    }
    MultisetsAgree(a, b);
  }

  lemma MultisetsAgree<T>(a: multiset<T>, b: multiset<T>)
    requires forall x :: a[x] == b[x]
    ensures a == b
  {
  }

  /** Two predicates that agree on the elements filter alike. */
  lemma {:induction false} FilterAgree<T>(s: seq<T>, p: T -> bool, q: T -> bool)
    requires forall i :: 0 <= i < |s| ==> p(s[i]) == q(s[i])
    ensures Filter(s, p) == Filter(s, q)
  {
    if s != [] {
      FilterAgree(s[1..], p, q);
    }
  }

  /** When p holds of a prefix and of nothing after it, `Where` keeps the prefix. */
  lemma {:induction false} FilterPrefix<T>(s: seq<T>, p: T -> bool, k: nat)
    requires k <= |s|
    requires forall i :: 0 <= i < k ==> p(s[i])
    requires forall i :: k <= i < |s| ==> !p(s[i])
    ensures Filter(s, p) == s[..k]
  {
    if s != [] {
      FilterPrefix(s[1..], p, if k == 0 then 0 else k - 1);
    }
  }

  /** When p holds of a suffix and of nothing before it, `Where` keeps the suffix. */
  lemma {:induction false} FilterSuffix<T>(s: seq<T>, p: T -> bool, k: nat)
    requires k <= |s|
    requires forall i :: 0 <= i < k ==> !p(s[i])
    requires forall i :: k <= i < |s| ==> p(s[i])
    ensures Filter(s, p) == s[k..]
  {
    if s != [] {
      FilterSuffix(s[1..], p, if k == 0 then 0 else k - 1);
    }
  }

  predicate NoDuplicates<T(==)>(s: seq<T>) {
    forall i, j :: 0 <= i < j < |s| ==> s[i] != s[j]
  }

  /**
    On a list without duplicates, `Except` is `Where` with "not in second":
    the de-duplication never fires.
   */
  lemma {:induction false} ExceptIsFilter<T>(first: seq<T>, excluded: set<T>)
    requires NoDuplicates(first)
    ensures ExceptFrom(first, excluded) == Filter(first, x => x !in excluded)
  {
    if first != [] {
      var rest := first[1..];
      assert NoDuplicates(rest);
      if first[0] in excluded {
        ExceptIsFilter(rest, excluded);
      } else {
        var more := excluded + {first[0]};
        ExceptIsFilter(rest, more);
        forall i | 0 <= i < |rest| ensures (rest[i] !in more) == (rest[i] !in excluded) {
          assert rest[i] == first[i + 1] != first[0];
        }
        FilterAgree(rest, x => x !in more, x => x !in excluded);
      }
    }
  }

  /** `[a0, b0, a1, b1, ...]`: two lists of one length merged alternately. */
  function Interleave<T>(a: seq<T>, b: seq<T>): (r: seq<T>)
    requires |a| == |b|
    ensures |r| == 2 * |a|
  {
    if a == [] then [] else [a[0], b[0]] + Interleave(a[1..], b[1..])
  }

  lemma {:induction false} InterleaveMultiset<T>(a: seq<T>, b: seq<T>)
    requires |a| == |b|
    ensures multiset(Interleave(a, b)) == multiset(a) + multiset(b)
  {
    if a != [] {
      InterleaveMultiset(a[1..], b[1..]);
      assert a == [a[0]] + a[1..];
      assert b == [b[0]] + b[1..];
    }
  }

  /** Interleaving the two halves of a list keeps its elements. */
  lemma InterleaveHalvesMultiset<T>(s: seq<T>, k: nat)
    requires 2 * k == |s|
    ensures multiset(Interleave(s[..k], s[k..])) == multiset(s)
  {
    InterleaveMultiset(s[..k], s[k..]);
    assert s[..k] + s[k..] == s;
  }

  lemma {:induction false} InterleaveIndex<T>(a: seq<T>, b: seq<T>, i: nat)
    requires |a| == |b| && i < 2 * |a|
    ensures Interleave(a, b)[i] == if i % 2 == 0 then a[i / 2] else b[i / 2]
  {
    if i >= 2 {
      InterleaveIndex(a[1..], b[1..], i - 2);
    }
  }

  /** s is ordered by key, equal keys allowed. */
  predicate NonDecreasingBy<T>(s: seq<T>, key: T -> int) {
    forall i, j :: 0 <= i < j < |s| ==> key(s[i]) <= key(s[j])
  }

  /** s is ordered by key, no key repeated. */
  predicate IncreasingBy<T>(s: seq<T>, key: T -> int) {
    forall i, j :: 0 <= i < j < |s| ==> key(s[i]) < key(s[j])
  }

  /** A list whose i-th key is i / 2 is ordered by that key. */
  lemma HalfIndexOrdered<T>(s: seq<T>, key: T -> int)
    requires forall i :: 0 <= i < |s| ==> key(s[i]) == i / 2
    ensures NonDecreasingBy(s, key)
  {
  }

  /** `Where` keeps the order of what it keeps. */
  lemma {:induction false} FilterKeepsOrder<T>(s: seq<T>, p: T -> bool, key: T -> int)
    requires NonDecreasingBy(s, key)
    ensures NonDecreasingBy(Filter(s, p), key)
  {
    if s != [] {
      var rest := s[1..];
      FilterKeepsOrder(rest, p, key);
      if p(s[0]) {
        var f := Filter(rest, p);
        forall j | 0 <= j < |f| ensures key(s[0]) <= key(f[j]) {
          var y := f[j];
          assert y in f;
          FilterMember(rest, p, y);
          var m :| 0 <= m < |rest| && rest[m] == y;
          assert s[m + 1] == y;
        }
      }
    }
  }

  /**
    A sequence ordered by key holding the same elements as one strictly
    ordered by key is that sequence: the order leaves no choice.
   */
  lemma {:induction false} OrderedUnique<T>(a: seq<T>, b: seq<T>, key: T -> int)
    requires NonDecreasingBy(a, key) && IncreasingBy(b, key)
    requires multiset(a) == multiset(b)
    ensures a == b
  {
    if a == [] {
      assert |b| == |multiset(b)| == 0;
    } else {
      HeadsAgree(a, b, key);
      TailsAgree(a, b);
      OrderedUnique(a[1..], b[1..], key);
      assert a == [a[0]] + a[1..] && b == [b[0]] + b[1..];
    }
  }

  lemma HeadsAgree<T>(a: seq<T>, b: seq<T>, key: T -> int)
    requires NonDecreasingBy(a, key) && IncreasingBy(b, key)
    requires multiset(a) == multiset(b) && a != []
    ensures b != [] && a[0] == b[0]
  {
    assert a[0] in multiset(b);
    var j :| 0 <= j < |b| && b[j] == a[0];
    assert b[0] in multiset(a);
    var k :| 0 <= k < |a| && a[k] == b[0];
    assert key(a[0]) <= key(a[k]);
    assert j == 0;
  }

  lemma TailsAgree<T>(a: seq<T>, b: seq<T>)
    requires a != [] && b != [] && a[0] == b[0]
    requires multiset(a) == multiset(b)
    ensures multiset(a[1..]) == multiset(b[1..])
  {
    assert a == [a[0]] + a[1..] && b == [b[0]] + b[1..];
    var ta, tb := multiset(a[1..]), multiset(b[1..]);
    forall x ensures ta[x] == tb[x] {
      assert multiset(a)[x] == multiset{a[0]}[x] + ta[x];
      assert multiset(b)[x] == multiset{a[0]}[x] + tb[x];
    }
    MultisetsAgree(ta, tb);
  }

  /** Each element of a list without duplicates occurs once. */
  lemma {:induction false} NoDuplicatesCount<T>(s: seq<T>, x: T)
    requires NoDuplicates(s)
    ensures multiset(s)[x] <= 1
  {
    if s != [] {
      NoDuplicatesCount(s[1..], x);
      assert s == [s[0]] + s[1..];
      if s[0] == x {
        assert x !in s[1..];
      }
    }
  }

  /** Having no duplicates is a property of the multiset alone. */
  lemma NoDuplicatesShared<T>(s: seq<T>, t: seq<T>)
    requires NoDuplicates(t) && multiset(s) == multiset(t)
    ensures NoDuplicates(s)
  {
    forall i, j | 0 <= i < j < |s| ensures s[i] != s[j] {
      if s[i] == s[j] {
        assert s == s[..j] + s[j..];
        assert s[i] in s[..j] && s[j] in s[j..];
        assert multiset(s)[s[i]] == multiset(s[..j])[s[i]] + multiset(s[j..])[s[i]] >= 2;
        NoDuplicatesCount(t, s[i]);
      }
    }
  }
}
