/** Sorting under a strict order, and the code-point order on text that Python's `<` uses. */
module Ordering {

  predicate TextBefore(a: string, b: string) {
    if b == "" then false
    else if a == "" then true
    else if a[0] != b[0] then a[0] < b[0]
    else TextBefore(a[1..], b[1..])
  }

  /** The first text ends first, or has the smaller character, where the two part. */
  predicate PartsAt(a: string, b: string, k: nat) {
    && k <= |a| && k < |b| && a[..k] == b[..k]
    && (k == |a| || a[k] < b[k])
  }

  /** The order on text is the one by code points: a proper prefix comes first, and otherwise the
      first difference decides. */
  lemma {:induction false} TextBeforeMeaning(a: string, b: string)
    ensures TextBefore(a, b) <==> exists k: nat :: PartsAt(a, b, k)
  {
    if a == "" {
      if b != "" { assert PartsAt(a, b, 0); }
    } else if b != "" {
      if a[0] < b[0] { assert PartsAt(a, b, 0); }
      forall k: nat | PartsAt(a, b, k) && k > 0 ensures a[0] == b[0] { assert a[..k][0] == b[..k][0]; }
      if a[0] == b[0] {
        var a', b' := a[1..], b[1..];
        TextBeforeMeaning(a', b');
        if k: nat :| PartsAt(a', b', k) {
          assert a[..k + 1] == [a[0]] + a'[..k] && b[..k + 1] == [b[0]] + b'[..k];
          assert PartsAt(a, b, k + 1);
        }
        if k: nat :| PartsAt(a, b, k) {
          assert k > 0;
          assert a'[..k - 1] == a[..k][1..] && b'[..k - 1] == b[..k][1..];
          assert PartsAt(a', b', k - 1);
        }
      }
    }
  }

  lemma {:induction false} TextTotal(a: string, b: string)
    ensures a != b ==> TextBefore(a, b) || TextBefore(b, a)
    ensures TextBefore(a, b) ==> a != b && !TextBefore(b, a)
  {
    if a != "" && b != "" && a[0] == b[0] {
      TextTotal(a[1..], b[1..]);
      assert a == [a[0]] + a[1..] && b == [b[0]] + b[1..];
    }
  }

  lemma {:induction false} TextTransitive(a: string, b: string, c: string)
    requires TextBefore(a, b) && TextBefore(b, c)
    ensures TextBefore(a, c)
  {
    if a != "" && a[0] == b[0] && b[0] == c[0] { TextTransitive(a[1..], b[1..], c[1..]); }
  }

  ghost predicate Transitive<T(!new)>(less: (T, T) -> bool) {
    forall a, b, c :: less(a, b) && less(b, c) ==> less(a, c)
  }

  ghost predicate Irreflexive<T(!new)>(less: (T, T) -> bool) { forall a :: !less(a, a) }

  ghost predicate Ordered<T>(s: seq<T>, less: (T, T) -> bool) {
    forall i, j | 0 <= i < j < |s| :: less(s[i], s[j])
  }

  /** The order decides between any two entries. */
  ghost predicate Comparable<T>(s: seq<T>, less: (T, T) -> bool) {
    forall i, j | 0 <= i < j < |s| :: less(s[i], s[j]) || less(s[j], s[i])
  }

  /** Puts x after everything it is not less than, so equal entries keep their order. */
  function Insert<T>(x: T, s: seq<T>, less: (T, T) -> bool): (r: seq<T>)
    ensures |r| == |s| + 1
  {
    if s == [] then [x]
    else if less(x, s[0]) then [x] + s
    else [s[0]] + Insert(x, s[1..], less)
  }

  /** The stable sort. */
  function Sort<T>(s: seq<T>, less: (T, T) -> bool): (r: seq<T>)
    ensures |r| == |s|
  {
    if s == [] then [] else Insert(s[|s| - 1], Sort(s[..|s| - 1], less), less)
  }

  lemma {:induction false} InsertPermutes<T>(x: T, s: seq<T>, less: (T, T) -> bool)
    ensures multiset(Insert(x, s, less)) == multiset(s) + multiset{x}
  {
    if s != [] {
      assert s == [s[0]] + s[1..];
      if !less(x, s[0]) { InsertPermutes(x, s[1..], less); }
    }
  }

  lemma {:induction false} TwiceCountsTwo<T>(s: seq<T>, i: nat, j: nat)
    requires i < j < |s| && s[i] == s[j]
    ensures multiset(s)[s[i]] >= 2
  {
    assert s == s[..j] + [s[j]] + s[j + 1..];
    assert s[..j][i] == s[i] && s[i] in multiset(s[..j]);
  }

  lemma {:induction false} SortPermutes<T>(s: seq<T>, less: (T, T) -> bool)
    ensures multiset(Sort(s, less)) == multiset(s)
  {
    if s != [] {
      var n := |s| - 1;
      assert s == s[..n] + [s[n]];
      SortPermutes(s[..n], less);
      InsertPermutes(s[n], Sort(s[..n], less), less);
    }
  }

  lemma SortKeepsEntries<T>(s: seq<T>, less: (T, T) -> bool)
    ensures forall x :: x in Sort(s, less) <==> x in s
  {
    SortPermutes(s, less);
    forall x ensures x in Sort(s, less) <==> x in s {
      assert x in multiset(Sort(s, less)) <==> x in multiset(s);
    }
  }

  lemma {:induction false} InsertOrders<T(!new)>(x: T, s: seq<T>, less: (T, T) -> bool)
    requires Transitive(less) && Ordered(s, less)
    requires forall y | y in s :: less(x, y) || less(y, x)
    ensures Ordered(Insert(x, s, less), less)
  {
    var r := Insert(x, s, less);
    if s == [] {
    } else if less(x, s[0]) {
      forall i, j | 0 <= i < j < |r| ensures less(r[i], r[j]) {
        if i == 0 && j > 1 { assert less(s[0], s[j - 1]); }
      }
    } else {
      InsertOrders(x, s[1..], less);
      InsertPermutes(x, s[1..], less);
      forall j | 0 < j < |r| ensures less(r[0], r[j]) {
        assert r[j] in multiset(r[1..]);
        assert r[j] == x || r[j] in s[1..];
      }
    }
  }

  /** Sorting comparable entries leaves every one before all that follow it. */
  lemma {:induction false} SortOrders<T(!new)>(s: seq<T>, less: (T, T) -> bool)
    requires Transitive(less) && Comparable(s, less)
    ensures Ordered(Sort(s, less), less)
  {
    if s != [] {
      var n := |s| - 1;
      SortOrders(s[..n], less);
      SortKeepsEntries(s[..n], less);
      forall y | y in Sort(s[..n], less) ensures less(s[n], y) || less(y, s[n]) {
        var i :| 0 <= i < n && s[..n][i] == y;
        assert y == s[i];
      }
      InsertOrders(s[n], Sort(s[..n], less), less);
    }
  }

  lemma OrderedPositions<T(!new)>(s: seq<T>, less: (T, T) -> bool, i: nat, j: nat)
    requires Transitive(less) && Irreflexive(less) && Ordered(s, less)
    requires i < |s| && j < |s| && less(s[i], s[j])
    ensures i < j
  {
  }

  lemma OrderedHead<T(!new)>(s: seq<T>, t: seq<T>, less: (T, T) -> bool)
    requires Transitive(less) && Irreflexive(less) && Ordered(s, less) && Ordered(t, less)
    requires s != [] && t != [] && s[0] in t && t[0] in s
    ensures s[0] == t[0]
  {
    var i :| 0 <= i < |t| && t[i] == s[0];
    var j :| 0 <= j < |s| && s[j] == t[0];
  }

  /** An ordered sequence is determined by the entries it holds. */
  lemma {:induction false} OrderedOnce<T(!new)>(s: seq<T>, t: seq<T>, less: (T, T) -> bool)
    requires Transitive(less) && Irreflexive(less) && Ordered(s, less) && Ordered(t, less)
    requires forall x :: x in s <==> x in t
    ensures s == t
  {
    if s == [] {
      assert forall i | 0 <= i < |t| :: t[i] in s;
    } else {
      assert s[0] in t;
      OrderedHead(s, t, less);
      OrderedTail(s, less);
      OrderedTail(t, less);
      OrderedOnce(s[1..], t[1..], less);
      assert s == [s[0]] + s[1..] && t == [t[0]] + t[1..];
    }
  }

  lemma OrderedTail<T(!new)>(s: seq<T>, less: (T, T) -> bool)
    requires s != [] && Irreflexive(less) && Ordered(s, less)
    ensures Ordered(s[1..], less)
    ensures forall x :: x in s[1..] <==> x in s && x != s[0]
  {
    forall x ensures x in s[1..] <==> x in s && x != s[0] {
      if x in s && x != s[0] {
        var i :| 0 <= i < |s| && s[i] == x;
        assert s[1..][i - 1] == x;
      }
      if x in s[1..] {
        var i :| 0 <= i < |s[1..]| && s[1..][i] == x;
        assert less(s[0], s[i + 1]);
      }
    }
  }

  /** No two entries carry the same key. */
  ghost predicate Distinct<T>(s: seq<T>, key: T -> int) {
    forall i, j | 0 <= i < j < |s| :: key(s[i]) != key(s[j])
  }

  lemma {:induction false} DistinctCountOnce<T>(s: seq<T>, key: T -> int, x: T)
    requires Distinct(s, key)
    ensures multiset(s)[x] <= 1
  {
    if s != [] {
      var n := |s| - 1;
      assert s == s[..n] + [s[n]];
      DistinctCountOnce(s[..n], key, x);
      if x == s[n] { assert x !in s[..n]; }
    }
  }

  lemma SameEntries<T>(s: seq<T>, t: seq<T>)
    requires multiset(s) == multiset(t)
    ensures |s| == |t| && forall x :: x in s <==> x in t
  {
    assert |multiset(s)| == |s| && |multiset(t)| == |t|;
    forall x ensures x in s <==> x in t { assert x in multiset(s) <==> x in multiset(t); }
  }

  /** Keys stay distinct under reordering. */
  lemma DistinctReorder<T>(s: seq<T>, t: seq<T>, key: T -> int)
    requires multiset(s) == multiset(t) && Distinct(s, key)
    ensures Distinct(t, key)
  {
    SameEntries(s, t);
    forall i, j | 0 <= i < j < |t| ensures key(t[i]) != key(t[j]) {
      if t[i] == t[j] { TwiceCountsTwo(t, i, j); }
      DistinctCountOnce(s, key, t[i]);
      assert t[i] in s && t[j] in s;
    }
  }
}
