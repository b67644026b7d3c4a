/**
 `sortBy(xs, [iteratee])`: a stable sort into ascending order of a string key,
 compared as JavaScript compares two strings. Stability is stated through
 `Ties`: for every key, the elements carrying that key appear in the same
 relative order before and after sorting.
 */
module StableSort {
  import opened Seqs
  import opened Text

  predicate Ascending<T>(s: seq<T>, key: T -> string)
  {
    forall i, j :: 0 <= i < j < |s| ==> LessEq(key(s[i]), key(s[j]))
  }

  predicate Descending<T>(s: seq<T>, key: T -> string)
  {
    forall i, j :: 0 <= i < j < |s| ==> LessEq(key(s[j]), key(s[i]))
  }

  function HasKey<T>(key: T -> string, k: string): T -> bool
  {
    e => key(e) == k
  }

  /** The events of `xs` whose key is `k`, in their order in `xs`. */
  function Ties<T>(xs: seq<T>, key: T -> string, k: string): seq<T>
  {
    Filter(xs, HasKey(key, k))
  }

  /** Puts `x` in front of the first element whose key is not smaller than its own. */
  function Insert<T>(x: T, s: seq<T>, key: T -> string): (r: seq<T>)
    ensures multiset(r) == multiset(s) + multiset{x}
  {
    if |s| == 0 || LessEq(key(x), key(s[0])) then [x] + s
    else
      assert s == [s[0]] + s[1..];
      [s[0]] + Insert(x, s[1..], key)
  }

  /** Insertion sort: each element goes in front of the sorted rest, ahead of its ties. */
  function SortAsc<T>(xs: seq<T>, key: T -> string): (r: seq<T>)
    ensures multiset(r) == multiset(xs)
  {
    if |xs| == 0 then []
    else
      assert xs == [xs[0]] + xs[1..];
      Insert(xs[0], SortAsc(xs[1..], key), key)
  }

  /** Every element of `s` has a key no smaller than `b`. */
  predicate LowerBound<T>(b: string, s: seq<T>, key: T -> string)
  {
    forall j :: 0 <= j < |s| ==> LessEq(b, key(s[j]))
  }

  lemma ConsAscending<T>(y: T, t: seq<T>, key: T -> string)
    requires LowerBound(key(y), t, key) && Ascending(t, key)
    ensures Ascending([y] + t, key)
  {
    var r := [y] + t;
    forall i, j | 0 <= i < j < |r|
      ensures LessEq(key(r[i]), key(r[j]))
    {
      assert r[j] == t[j - 1];
      if i > 0 {
        assert r[i] == t[i - 1];
      }
    }
  }

  lemma {:induction false} InsertLowerBound<T>(x: T, s: seq<T>, key: T -> string, b: string)
    requires LowerBound(b, s, key) && LessEq(b, key(x))
    ensures LowerBound(b, Insert(x, s, key), key)
    decreases |s|
  {
    if |s| > 0 && !LessEq(key(x), key(s[0])) {
      InsertLowerBound(x, s[1..], key, b);
      var rest := Insert(x, s[1..], key);
      assert forall j :: 0 < j < |rest| + 1 ==> ([s[0]] + rest)[j] == rest[j - 1];
    }
  }

  lemma {:induction false} InsertAscending<T>(x: T, s: seq<T>, key: T -> string)
    requires Ascending(s, key)
    ensures Ascending(Insert(x, s, key), key)
    decreases |s|
  {
    if |s| == 0 {
    } else if LessEq(key(x), key(s[0])) {
      forall j | 0 <= j < |s|
        ensures LessEq(key(x), key(s[j]))
      {
        if j > 0 {
          LessEqTransitive(key(x), key(s[0]), key(s[j]));
        }
      }
      ConsAscending(x, s, key);
    } else {
      InsertAscending(x, s[1..], key);
      LessEqTotal(key(x), key(s[0]));
      assert LowerBound(key(s[0]), s[1..], key) by {
        forall j | 0 <= j < |s[1..]|
          ensures LessEq(key(s[0]), key(s[1..][j]))
        {
          assert s[1..][j] == s[j + 1];
        }
      }
      InsertLowerBound(x, s[1..], key, key(s[0]));
      ConsAscending(s[0], Insert(x, s[1..], key), key);
    }
  }

  /** The result of the ascending sort is ordered by the key. */
  lemma {:induction false} SortAscAscending<T>(xs: seq<T>, key: T -> string)
    ensures Ascending(SortAsc(xs, key), key)
    decreases |xs|
  {
    if |xs| > 0 {
      SortAscAscending(xs[1..], key);
      InsertAscending(xs[0], SortAsc(xs[1..], key), key);
    }
  }

  /** The ties of a list with a given first element. */
  lemma TiesCons<T>(y: T, t: seq<T>, key: T -> string, k: string)
    ensures Ties([y] + t, key, k) == (if key(y) == k then [y] else []) + Ties(t, key, k)
  {
    FilterCons(y, t, HasKey(key, k));
  }

  /** When `x` goes past the head of `s`, the head's ties come first. */
  lemma InsertPastHead<T>(x: T, s: seq<T>, key: T -> string, k: string)
    requires |s| > 0 && !LessEq(key(x), key(s[0]))
    ensures Ties(Insert(x, s, key), key, k)
      == (if key(s[0]) == k then [s[0]] else []) + Ties(Insert(x, s[1..], key), key, k)
  {
    assert Insert(x, s, key) == [s[0]] + Insert(x, s[1..], key);
    TiesCons(s[0], Insert(x, s[1..], key), key, k);
  }

  /** The ties of a nonempty list: its head's, if the head has key `k`, then its tail's. */
  lemma TiesHead<T>(s: seq<T>, key: T -> string, k: string)
    requires |s| > 0
    ensures Ties(s, key, k) == (if key(s[0]) == k then [s[0]] else []) + Ties(s[1..], key, k)
  {
    assert s == [s[0]] + s[1..];
    TiesCons(s[0], s[1..], key, k);
  }

  /** Two single-or-empty prefixes, at most one nonempty, commute in front of a list. */
  lemma SwapPrefixes<T>(a: seq<T>, b: seq<T>, t: seq<T>)
    requires a == [] || b == []
    ensures a + (b + t) == b + (a + t)
  {
    if a == [] {
      assert a + (b + t) == b + t;
      assert a + t == t;
    } else {
      assert b + t == t;
      assert b + (a + t) == a + t;
    }
  }

  /** The step of `InsertTies`: passing the head of `s` keeps the property. */
  lemma InsertTiesPast<T>(x: T, s: seq<T>, key: T -> string, k: string)
    requires |s| > 0 && !LessEq(key(x), key(s[0]))
    requires Ties(Insert(x, s[1..], key), key, k) == (if key(x) == k then [x] else []) + Ties(s[1..], key, k)
    ensures Ties(Insert(x, s, key), key, k) == (if key(x) == k then [x] else []) + Ties(s, key, k)
  {
    var hx := if key(x) == k then [x] else [];
    var h0 := if key(s[0]) == k then [s[0]] else [];
    InsertPastHead(x, s, key, k);
    TiesHead(s, key, k);
    assert hx == [] || h0 == [] by {
      LessEqReflexive(key(x));
    }
    SwapPrefixes(h0, hx, Ties(s[1..], key, k));
  }

  /** Inserting `x` adds it in front of its ties and leaves every other key's ties alone. */
  lemma {:induction false} InsertTies<T>(x: T, s: seq<T>, key: T -> string, k: string)
    ensures Ties(Insert(x, s, key), key, k) == (if key(x) == k then [x] else []) + Ties(s, key, k)
    decreases |s|
  {
    if |s| == 0 || LessEq(key(x), key(s[0])) {
      TiesCons(x, s, key, k);
    } else {
      InsertTies(x, s[1..], key, k);
      InsertTiesPast(x, s, key, k);
    }
  }

  /** Stability: for every key, the sorted list holds that key's events in input order. */
  lemma {:induction false} SortAscStable<T>(xs: seq<T>, key: T -> string, k: string)
    ensures Ties(SortAsc(xs, key), key, k) == Ties(xs, key, k)
    decreases |xs|
  {
    if |xs| > 0 {
      SortAscStable(xs[1..], key, k);
      InsertTies(xs[0], SortAsc(xs[1..], key), key, k);
      FilterCons(xs[0], xs[1..], HasKey(key, k));
      assert xs == [xs[0]] + xs[1..];
    }
  }

  /** Reversing an ascending list gives a descending one. */
  lemma ReverseAscending<T>(s: seq<T>, key: T -> string)
    requires Ascending(s, key)
    ensures Descending(Reverse(s), key)
  {
    var r := Reverse(s);
    ReverseAt(s);
    forall i, j | 0 <= i < j < |r|
      ensures LessEq(key(r[j]), key(r[i]))
    {
      assert r[i] == s[|s| - 1 - i] && r[j] == s[|s| - 1 - j];
    }
  }

  /** Reversing a list reverses the order of every key's ties. */
  lemma ReverseTies<T>(s: seq<T>, key: T -> string, k: string)
    ensures Ties(Reverse(s), key, k) == Reverse(Ties(s, key, k))
  {
    FilterReverse(s, HasKey(key, k));
  }

  /** An element of `s` with key `k` is an element of the ties of `k`, and back. */
  lemma TiesMembership<T(!new)>(s: seq<T>, key: T -> string, k: string, x: T)
    ensures x in Ties(s, key, k) <==> x in s && key(x) == k
  {
    FilterMultiplicity(s, HasKey(key, k));
    assert x in Ties(s, key, k) <==> multiset(Ties(s, key, k))[x] > 0;
  }

  /** Dropping the first element keeps a list ascending. */
  lemma AscendingTail<T>(a: seq<T>, key: T -> string)
    requires |a| > 0 && Ascending(a, key)
    ensures Ascending(a[1..], key)
  {
    forall i, j | 0 <= i < j < |a[1..]|
      ensures LessEq(key(a[1..][i]), key(a[1..][j]))
    {
      assert a[1..][i] == a[i + 1] && a[1..][j] == a[j + 1];
    }
  }

  /** The first element of an ascending list has the smallest key of any element in it. */
  lemma AscendingHeadLeast<T>(a: seq<T>, key: T -> string, x: T)
    requires |a| > 0 && Ascending(a, key) && x in a
    ensures LessEq(key(a[0]), key(x))
  {
    var j :| 0 <= j < |a| && a[j] == x;
    if j == 0 {
      LessEqReflexive(key(a[0]));
    }
  }

  /** Two nonempty ascending lists with the same ties for every key start with the same element. */
  lemma AscendingHeadsAgree<T(!new)>(a: seq<T>, b: seq<T>, key: T -> string)
    requires |a| > 0 && |b| > 0 && Ascending(a, key) && Ascending(b, key)
    requires forall k :: Ties(a, key, k) == Ties(b, key, k)
    ensures a[0] == b[0]
  {
    var ka, kb := key(a[0]), key(b[0]);
    assert LessEq(ka, kb) by {
      TiesMembership(b, key, kb, b[0]);
      TiesMembership(a, key, kb, b[0]);
      AscendingHeadLeast(a, key, b[0]);
    }
    assert LessEq(kb, ka) by {
      TiesMembership(a, key, ka, a[0]);
      TiesMembership(b, key, ka, a[0]);
      AscendingHeadLeast(b, key, a[0]);
    }
    LessEqAntisymmetric(ka, kb);
    FilterCons(a[0], a[1..], HasKey(key, ka));
    FilterCons(b[0], b[1..], HasKey(key, ka));
    assert a == [a[0]] + a[1..] && b == [b[0]] + b[1..];
    assert Ties(a, key, ka)[0] == a[0] && Ties(b, key, ka)[0] == b[0];
  }

  /** Lists with the same head and the same ties for key `k` have tails with the same ties for `k`. */
  lemma TailTies<T>(a: seq<T>, b: seq<T>, key: T -> string, k: string)
    requires |a| > 0 && |b| > 0 && a[0] == b[0]
    requires Ties(a, key, k) == Ties(b, key, k)
    ensures Ties(a[1..], key, k) == Ties(b[1..], key, k)
  {
    FilterCons(a[0], a[1..], HasKey(key, k));
    FilterCons(b[0], b[1..], HasKey(key, k));
    assert a == [a[0]] + a[1..] && b == [b[0]] + b[1..];
    var head := if key(a[0]) == k then [a[0]] else [];
    assert Ties(a, key, k)[|head|..] == Ties(a[1..], key, k);
    assert Ties(b, key, k)[|head|..] == Ties(b[1..], key, k);
  }

  /**
   The sort is pinned down by its contract: two ascending lists that agree on
   the ties of every key are equal. So `SortAsc` is the only stable ascending
   arrangement of its input.
   */
  lemma {:induction false} AscendingWithSameTiesEqual<T(!new)>(a: seq<T>, b: seq<T>, key: T -> string)
    requires Ascending(a, key) && Ascending(b, key)
    requires forall k :: Ties(a, key, k) == Ties(b, key, k)
    ensures a == b
    decreases |a|
  {
    if |a| == 0 || |b| == 0 {
      if |a| > 0 {
        TiesMembership(a, key, key(a[0]), a[0]);
      } else if |b| > 0 {
        TiesMembership(b, key, key(b[0]), b[0]);
      }
    } else {
      AscendingHeadsAgree(a, b, key);
      forall k
        ensures Ties(a[1..], key, k) == Ties(b[1..], key, k)
      {
        TailTies(a, b, key, k);
      }
      AscendingTail(a, key);
      AscendingTail(b, key);
      AscendingWithSameTiesEqual(a[1..], b[1..], key);
      assert a == [a[0]] + a[1..] && b == [b[0]] + b[1..];
    }
  }

  /** Any ascending arrangement of `xs` that keeps every key's ties in order is `SortAsc(xs, key)`. */
  lemma SortAscUnique<T(!new)>(xs: seq<T>, s: seq<T>, key: T -> string)
    requires Ascending(s, key)
    requires forall k :: Ties(s, key, k) == Ties(xs, key, k)
    ensures s == SortAsc(xs, key)
  {
    SortAscAscending(xs, key);
    forall k
      ensures Ties(s, key, k) == Ties(SortAsc(xs, key), key, k)
    {
      SortAscStable(xs, key, k);
    }
    AscendingWithSameTiesEqual(s, SortAsc(xs, key), key);
  }
}
