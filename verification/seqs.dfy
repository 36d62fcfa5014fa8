/** Small facts about sequences used as ordered collections. */
module Seqs {
  import opened Wrappers

  /** The elements of a sequence, as a set. */
  function Elems<T>(s: seq<T>): set<T> {
    set x | x in s
  }

  /** No element occurs twice. */
  predicate NoDups<T(==)>(s: seq<T>) {
    forall i, j :: 0 <= i < j < |s| ==> s[i] != s[j]
  }

  /** `sub` is `s` with some elements removed, the rest kept in order. */
  predicate IsSubsequence<T(==)>(sub: seq<T>, s: seq<T>)
    decreases |s|
  {
    if |sub| == 0 then true
    else if |s| == 0 then false
    else if sub[0] == s[0] then IsSubsequence(sub[1..], s[1..])
    else IsSubsequence(sub, s[1..])
  }

  /** A duplicate-free sequence has as many elements as its set. */
  lemma {:induction false} NoDupsCard<T>(s: seq<T>)
    requires NoDups(s)
    ensures |Elems(s)| == |s|
  {
    if |s| > 0 {
      var last := s[|s| - 1];
      var init := s[..|s| - 1];
      assert Elems(s) == Elems(init) + {last};
      assert last !in Elems(init);
      NoDupsCard(init);
    }
  }

  /** Dropping the first element of a subsequence keeps it a subsequence. */
  lemma {:induction false} SubsequenceTail<T>(sub: seq<T>, s: seq<T>)
    requires |sub| > 0 && IsSubsequence(sub, s)
    ensures IsSubsequence(sub[1..], s)
    decreases |s|, 1
  {
    if sub[0] == s[0] {
      SubsequenceCons(sub[1..], s);
    } else {
      SubsequenceTail(sub, s[1..]);
      SubsequenceCons(sub[1..], s);
    }
  }

  /** A subsequence of the tail is a subsequence of the whole. */
  lemma {:induction false} SubsequenceCons<T>(sub: seq<T>, s: seq<T>)
    requires |s| > 0 && IsSubsequence(sub, s[1..])
    ensures IsSubsequence(sub, s)
    decreases |s|, 0
  {
    if |sub| > 0 && sub[0] == s[0] {
      SubsequenceTail(sub, s[1..]);
    }
  }

  /** A non-empty sequence is its front followed by its last element. */
  lemma InitLast<T>(s: seq<T>)
    requires |s| > 0
    ensures s == s[..|s| - 1] + [s[|s| - 1]]
  {
  }

  /** Moving the head of `s` onto the end of `acc`. */
  lemma ConsOnto<T>(acc: seq<T>, s: seq<T>)
    requires |s| > 0
    ensures acc + [s[0]] + s[1..] == acc + s
  {
    assert [s[0]] + s[1..] == s;
    AppendAssoc(acc, [s[0]], s[1..]);
  }

  /** Regrouping `a + (c + b)` followed by `d` and `e`. */
  lemma Regroup<T>(a: seq<T>, c: seq<T>, b: seq<T>, d: seq<T>, e: seq<T>)
    ensures (a + (c + b)) + d + e == a + (c + (b + d + e))
  {
  }

  /** Concatenation is associative. */
  lemma AppendAssoc<T>(a: seq<T>, b: seq<T>, c: seq<T>)
    ensures a + (b + c) == (a + b) + c
  {
    forall i | 0 <= i < |a| + |b| + |c| ensures (a + (b + c))[i] == ((a + b) + c)[i] {
      if i < |a| + |b| {
        assert ((a + b) + c)[i] == (a + b)[i];
      }
    }
  }

  /** The `make` image of the elements that pass `keep`, in order: a loop
      that pushes one result per accepted element. */
  function FilterMap<A, R>(xs: seq<A>, keep: A -> bool, make: A -> R): (r: seq<R>)
    ensures |r| <= |xs|
  {
    if |xs| == 0 then []
    else (if keep(xs[0]) then [make(xs[0])] else []) + FilterMap(xs[1..], keep, make)
  }

  /** A value is produced exactly when some accepted element makes it. */
  lemma {:induction false} FilterMapMembers<A, R>(xs: seq<A>, keep: A -> bool, make: A -> R, y: R)
    ensures y in FilterMap(xs, keep, make) <==>
              exists i :: 0 <= i < |xs| && keep(xs[i]) && y == make(xs[i])
  {
    if |xs| > 0 {
      var head := if keep(xs[0]) then [make(xs[0])] else [];
      var rest := FilterMap(xs[1..], keep, make);
      FilterMapMembers(xs[1..], keep, make, y);
      assert FilterMap(xs, keep, make) == head + rest;
      if y in rest {
        var i :| 0 <= i < |xs[1..]| && keep(xs[1..][i]) && y == make(xs[1..][i]);
        assert xs[i + 1] == xs[1..][i];
      }
      if exists i :: 0 <= i < |xs| && keep(xs[i]) && y == make(xs[i]) {
        var i :| 0 <= i < |xs| && keep(xs[i]) && y == make(xs[i]);
        if i > 0 {
          assert xs[1..][i - 1] == xs[i];
        }
      }
    }
  }

  /** A loop whose body, for each element, skips it (`None`), throws
      (`Some(Failure(e))`, which ends the loop) or pushes a value
      (`Some(Success(y))`). */
  function Collect<A, R, E>(xs: seq<A>, step: A -> Option<Result<R, E>>): (r: Result<seq<R>, E>)
    ensures r.Success? ==> |r.value| <= |xs|
  {
    if |xs| == 0 then Success([])
    else
      match step(xs[0])
      case None => Collect(xs[1..], step)
      case Some(Failure(e)) => Failure(e)
      case Some(Success(y)) =>
        match Collect(xs[1..], step)
        case Failure(e) => Failure(e)
        case Success(ys) => Success([y] + ys)
  }

  /** The loop throws exactly when some element throws, and then with the
      error of the first such element. */
  lemma {:induction false} CollectFailure<A, R, E>(xs: seq<A>, step: A -> Option<Result<R, E>>)
    ensures Collect(xs, step).Failure? <==>
              exists i :: 0 <= i < |xs| && step(xs[i]).Some? && step(xs[i]).value.Failure?
    ensures Collect(xs, step).Failure? ==>
              exists i :: 0 <= i < |xs| && step(xs[i]) == Some(Failure(Collect(xs, step).error))
                          && forall j :: 0 <= j < i ==> !(step(xs[j]).Some? && step(xs[j]).value.Failure?)
  {
    if |xs| > 0 {
      CollectFailure(xs[1..], step);
      var t := xs[1..];
      if exists i :: 0 <= i < |t| && step(t[i]).Some? && step(t[i]).value.Failure? {
        var i :| 0 <= i < |t| && step(t[i]).Some? && step(t[i]).value.Failure?;
        assert xs[i + 1] == t[i];
      }
      if exists i :: 0 <= i < |xs| && step(xs[i]).Some? && step(xs[i]).value.Failure? {
        var i :| 0 <= i < |xs| && step(xs[i]).Some? && step(xs[i]).value.Failure?;
        if i > 0 {
          assert t[i - 1] == xs[i];
        }
      }
      if Collect(xs, step).Failure? && !(step(xs[0]).Some? && step(xs[0]).value.Failure?) {
        var i :| 0 <= i < |t| && step(t[i]) == Some(Failure(Collect(t, step).error))
                 && forall j :: 0 <= j < i ==> !(step(t[j]).Some? && step(t[j]).value.Failure?);
        assert xs[i + 1] == t[i];
        forall j | 0 <= j < i + 1
          ensures !(step(xs[j]).Some? && step(xs[j]).value.Failure?)
        {
          if j > 0 {
            assert xs[j] == t[j - 1];
          }
        }
      }
    }
  }

  /** When the loop finishes, it pushed exactly the values some element
      produced. */
  lemma {:induction false} CollectMembers<A, R, E>(xs: seq<A>, step: A -> Option<Result<R, E>>, y: R)
    requires Collect(xs, step).Success?
    ensures y in Collect(xs, step).value <==>
              exists i :: 0 <= i < |xs| && step(xs[i]) == Some(Success(y))
  {
    if |xs| > 0 {
      var t := xs[1..];
      CollectMembers(t, step, y);
      if exists i :: 0 <= i < |t| && step(t[i]) == Some(Success(y)) {
        var i :| 0 <= i < |t| && step(t[i]) == Some(Success(y));
        assert xs[i + 1] == t[i];
      }
      if exists i :: 0 <= i < |xs| && step(xs[i]) == Some(Success(y)) {
        var i :| 0 <= i < |xs| && step(xs[i]) == Some(Success(y));
        if i > 0 {
          assert t[i - 1] == xs[i];
        }
      }
    }
  }
}
