/** `Array.prototype.sort((a, b) => key(b) - key(a))` and `slice(0, k)`.
    ECMAScript requires `sort` to be stable, so the model is a stable
    insertion sort into non-increasing key order. */
module StableSort {
  import opened Seqs

  /** Keys never increase from left to right. */
  predicate SortedDesc<T>(s: seq<T>, key: T -> real) {
    forall i, j :: 0 <= i < j < |s| ==> key(s[i]) >= key(s[j])
  }

  /** The elements of `s` whose key is `v`, in order. */
  function KeyFilter<T>(s: seq<T>, key: T -> real, v: real): seq<T> {
    if |s| == 0 then []
    else (if key(s[0]) == v then [s[0]] else []) + KeyFilter(s[1..], key, v)
  }

  /** Puts `x` into a non-increasing sequence after every element whose key
      is at least `x`'s, so that equal keys keep their arrival order. */
  function Insert<T>(x: T, s: seq<T>, key: T -> real): (r: seq<T>)
    ensures multiset(r) == multiset(s) + multiset{x}
    ensures |r| == |s| + 1
    ensures r[0] == x || (|s| > 0 && r[0] == s[0])
  {
    if |s| == 0 then [x]
    else if key(s[0]) >= key(x) then
      assert s == [s[0]] + s[1..];
      [s[0]] + Insert(x, s[1..], key)
    else
      [x] + s
  }

  /** Inserting into a non-increasing sequence keeps it non-increasing. */
  lemma {:induction false} InsertSorted<T>(x: T, s: seq<T>, key: T -> real)
    requires SortedDesc(s, key)
    ensures SortedDesc(Insert(x, s, key), key)
  {
    if |s| > 0 && key(s[0]) >= key(x) {
      var rest := Insert(x, s[1..], key);
      InsertSorted(x, s[1..], key);
      assert key(s[0]) >= key(rest[0]);
      assert Insert(x, s, key) == [s[0]] + rest;
    }
  }

  /** The stable descending sort. */
  function SortDesc<T>(s: seq<T>, key: T -> real): (r: seq<T>)
    ensures |r| == |s|
    ensures multiset(r) == multiset(s)
    ensures SortedDesc(r, key)
  {
    if |s| == 0 then []
    else
      var init := s[..|s| - 1];
      assert s == init + [s[|s| - 1]];
      InsertSorted(s[|s| - 1], SortDesc(init, key), key);
      Insert(s[|s| - 1], SortDesc(init, key), key)
  }

  /** `KeyFilter` distributes over concatenation. */
  lemma {:induction false} KeyFilterAppend<T>(a: seq<T>, b: seq<T>, key: T -> real, v: real)
    ensures KeyFilter(a + b, key, v) == KeyFilter(a, key, v) + KeyFilter(b, key, v)
  {
    if |a| > 0 {
      var h := if key(a[0]) == v then [a[0]] else [];
      assert (a + b)[0] == a[0];
      assert (a + b)[1..] == a[1..] + b;
      KeyFilterAppend(a[1..], b, key, v);
      calc {
        KeyFilter(a + b, key, v);
        h + KeyFilter(a[1..] + b, key, v);
        h + (KeyFilter(a[1..], key, v) + KeyFilter(b, key, v));
        { AppendAssoc(h, KeyFilter(a[1..], key, v), KeyFilter(b, key, v)); }
        (h + KeyFilter(a[1..], key, v)) + KeyFilter(b, key, v);
      }
    } else {
      assert a + b == b;
    }
  }

  /** A sequence whose keys all lie below `v` has nothing with key `v`. */
  lemma {:induction false} KeyFilterBelow<T>(s: seq<T>, key: T -> real, v: real)
    requires forall i :: 0 <= i < |s| ==> key(s[i]) < v
    ensures KeyFilter(s, key, v) == []
  {
    if |s| > 0 {
      KeyFilterBelow(s[1..], key, v);
    }
  }

  /** Inserting `x` puts it after every element that shares its key. */
  lemma {:induction false} InsertStable<T>(x: T, s: seq<T>, key: T -> real, v: real)
    requires SortedDesc(s, key)
    ensures KeyFilter(Insert(x, s, key), key, v)
         == KeyFilter(s, key, v) + (if key(x) == v then [x] else [])
  {
    if |s| > 0 {
      if key(s[0]) >= key(x) {
        assert SortedDesc(s[1..], key);
        InsertStable(x, s[1..], key, v);
        InsertPast(x, s, key, v);
      } else {
        InsertFront(x, s, key, v);
      }
    }
  }

  /** The step of `InsertStable` where `x` moves past the head. */
  lemma InsertPast<T>(x: T, s: seq<T>, key: T -> real, v: real)
    requires |s| > 0 && key(s[0]) >= key(x)
    requires KeyFilter(Insert(x, s[1..], key), key, v)
          == KeyFilter(s[1..], key, v) + (if key(x) == v then [x] else [])
    ensures KeyFilter(Insert(x, s, key), key, v)
         == KeyFilter(s, key, v) + (if key(x) == v then [x] else [])
  {
    var rest := Insert(x, s[1..], key);
    var h := if key(s[0]) == v then [s[0]] else [];
    var tail := if key(x) == v then [x] else [];
    var r := Insert(x, s, key);
    assert r == [s[0]] + rest;
    assert r[0] == s[0] && r[1..] == rest;
    calc {
      KeyFilter(r, key, v);
      h + KeyFilter(rest, key, v);
      h + (KeyFilter(s[1..], key, v) + tail);
      { AppendAssoc(h, KeyFilter(s[1..], key, v), tail); }
      (h + KeyFilter(s[1..], key, v)) + tail;
    }
  }

  /** The step of `InsertStable` where `x` lands in front. */
  lemma InsertFront<T>(x: T, s: seq<T>, key: T -> real, v: real)
    requires SortedDesc(s, key)
    requires |s| > 0 && key(s[0]) < key(x)
    ensures KeyFilter(Insert(x, s, key), key, v)
         == KeyFilter(s, key, v) + (if key(x) == v then [x] else [])
  {
    var r := Insert(x, s, key);
    assert r == [x] + s;
    assert r[0] == x && r[1..] == s;
    if key(x) == v {
      assert forall i :: 0 <= i < |s| ==> key(s[i]) <= key(s[0]);
      KeyFilterBelow(s, key, v);
    }
  }

  /** Stability: the elements with any one key appear in the sorted output
      in the same order as in the input. */
  lemma {:induction false} SortStable<T>(s: seq<T>, key: T -> real, v: real)
    ensures KeyFilter(SortDesc(s, key), key, v) == KeyFilter(s, key, v)
  {
    if |s| > 0 {
      SortStable(s[..|s| - 1], key, v);
      SortStableStep(s, key, v);
    }
  }

  /** The step of `SortStable`: inserting the last element. */
  lemma SortStableStep<T>(s: seq<T>, key: T -> real, v: real)
    requires |s| > 0
    requires KeyFilter(SortDesc(s[..|s| - 1], key), key, v) == KeyFilter(s[..|s| - 1], key, v)
    ensures KeyFilter(SortDesc(s, key), key, v) == KeyFilter(s, key, v)
  {
    var init, x := s[..|s| - 1], s[|s| - 1];
    SortDescLast(s, key);
    InsertStable(x, SortDesc(init, key), key, v);
    InitLast(s);
    KeyFilterAppend(init, [x], key, v);
    KeyFilterSingle(x, key, v);
  }

  /** The sort of a non-empty sequence inserts its last element into the
      sort of the rest. */
  lemma SortDescLast<T>(s: seq<T>, key: T -> real)
    requires |s| > 0
    ensures SortDesc(s, key) == Insert(s[|s| - 1], SortDesc(s[..|s| - 1], key), key)
  {
  }

  /** The one-element case of `KeyFilter`. */
  lemma KeyFilterSingle<T>(x: T, key: T -> real, v: real)
    ensures KeyFilter([x], key, v) == if key(x) == v then [x] else []
  {
    assert [x][1..] == [];
  }

  /** Cutting a sorted sequence keeps the kept part sorted, loses no
      element, and keeps only elements whose keys are at least those of
      the dropped ones. */
  lemma PrefixFacts<T>(s: seq<T>, n: nat, key: T -> real)
    requires n <= |s|
    ensures multiset(s[..n]) + multiset(s[n..]) == multiset(s)
    ensures SortedDesc(s, key) ==> SortedDesc(s[..n], key)
    ensures SortedDesc(s, key) ==>
              forall x, y :: x in s[..n] && y in s[n..] ==> key(x) >= key(y)
  {
    assert s == s[..n] + s[n..];
    if SortedDesc(s, key) {
      forall x, y | x in s[..n] && y in s[n..] ensures key(x) >= key(y) {
        var i :| 0 <= i < n && s[..n][i] == x;
        var j :| 0 <= j < |s| - n && s[n..][j] == y;
        assert s[i] == x && s[n + j] == y;
      }
    }
  }

  /** `s.slice(0, k)` for an integer `k`: a negative `k` counts from the end. */
  function SliceTo<T>(s: seq<T>, k: int): (r: seq<T>)
    ensures |r| <= |s| && r == s[..|r|]
    ensures k >= 0 ==> |r| == if k < |s| then k else |s|
    ensures k < 0 ==> |r| == if |s| + k > 0 then |s| + k else 0
  {
    var end := if k >= 0 then (if k < |s| then k else |s|)
               else (if |s| + k > 0 then |s| + k else 0);
    s[..end]
  }

  /** `sort` then `slice(0, k)`: the result is sorted, comes from the
      input, beats everything it leaves out, and keeps the input order
      among equal keys. */
  lemma TopFacts<T>(all: seq<T>, key: T -> real, k: int, v: real)
    ensures var r := SliceTo(SortDesc(all, key), k);
            && SortedDesc(r, key)
            && multiset(r) <= multiset(all)
            && (forall x, y :: x in r && y in multiset(all) - multiset(r) ==> key(x) >= key(y))
            && KeyFilter(r, key, v) <= KeyFilter(all, key, v)
  {
    var sorted := SortDesc(all, key);
    var r := SliceTo(sorted, k);
    TopBeats(sorted, |r|, key, multiset(all));
    TopStable(sorted, |r|, key, v);
    SortStable(all, key, v);
  }

  /** The front of a sorted sequence is sorted, lies within the whole, and
      beats whatever the whole holds beyond it. */
  lemma TopBeats<T>(sorted: seq<T>, n: nat, key: T -> real, m: multiset<T>)
    requires n <= |sorted| && SortedDesc(sorted, key) && multiset(sorted) == m
    ensures SortedDesc(sorted[..n], key) && multiset(sorted[..n]) <= m
    ensures forall x, y :: x in sorted[..n] && y in m - multiset(sorted[..n]) ==> key(x) >= key(y)
  {
    PrefixFacts(sorted, n, key);
    forall x, y | x in sorted[..n] && y in m - multiset(sorted[..n]) ensures key(x) >= key(y) {
      assert y in multiset(sorted[n..]);
    }
  }

  /** The elements with key `v` in a front are a prefix of those in the whole. */
  lemma TopStable<T>(s: seq<T>, n: nat, key: T -> real, v: real)
    requires n <= |s|
    ensures KeyFilter(s[..n], key, v) <= KeyFilter(s, key, v)
  {
    assert s == s[..n] + s[n..];
    KeyFilterAppend(s[..n], s[n..], key, v);
  }
}
