/**
 What the other modules share: optional values (`None` in the Python sources), lists without
 repetition, and what it means that a list was picked from another.
 */
module Options {

  datatype Option<+T> = None | Some(value: T)

  predicate Distinct<T(==)>(s: seq<T>) {
    forall i, j :: 0 <= i < j < |s| ==> s[i] != s[j]
  }

  lemma {:induction false} Associative<T>(a: seq<T>, b: seq<T>, c: seq<T>)
    ensures a + b + c == a + (b + c)
  {
  }

  /** An element of a set of integers that is not empty. */
  lemma {:induction false} ElementOf(s: set<int>) returns (k: int)
    requires s != {}
    ensures k in s
  {
    if forall x :: x !in s {
      k := 0;
    } else {
      k :| k in s;
    }
  }

  lemma {:induction false} EqualSets(a: set<int>, b: set<int>)
    requires forall k :: k in a <==> k in b
    ensures a == b
  {
    if a - b != {} {
      var k := ElementOf(a - b);
    }
    if b - a != {} {
      var k := ElementOf(b - a);
    }
    assert a - b == {} && b - a == {};
    assert a <= b && b <= a;
  }

  // --------------------------------------------------------------------- picking elements

  predicate Increasing(at: seq<nat>) {
    forall i, j :: 0 <= i < j < |at| ==> at[i] < at[j]
  }

  /** The elements of `part` are elements of `whole`, at increasing places. */
  predicate PartAt<T(==)>(part: seq<T>, whole: seq<T>, at: seq<nat>) {
    |at| == |part| && Increasing(at) && forall i :: 0 <= i < |at| ==> at[i] < |whole| && part[i] == whole[at[i]]
  }

  /** Each element of `to` is what `f` makes of the element of `from` at its place. */
  ghost predicate Yields<A, B>(f: A -> Option<B>, from: seq<A>, to: seq<B>, at: seq<nat>) {
    |at| == |to| && forall i :: 0 <= i < |at| ==> at[i] < |from| && f(from[at[i]]) == Some(to[i])
  }

  /**
   `to` holds what `f` makes of the elements of `from`, in their order and each once: `at` is
   where they come from, and nothing that `f` makes something of is left out.
   */
  ghost predicate Picked<A, B>(f: A -> Option<B>, from: seq<A>, to: seq<B>, at: seq<nat>) {
    && Increasing(at) && Yields(f, from, to, at)
    && (forall k :: 0 <= k < |from| && f(from[k]).Some? ==> k in at)
  }

  function Shifted(at: seq<nat>, n: nat): (r: seq<nat>)
    ensures |r| == |at| && forall i :: 0 <= i < |at| ==> r[i] == at[i] + n
  {
    seq(|at|, i requires 0 <= i < |at| => at[i] + n)
  }

  lemma {:induction false} ShiftedHas(at: seq<nat>, n: nat, k: nat)
    requires k in at
    ensures k + n in Shifted(at, n)
  {
    var i :| 0 <= i < |at| && at[i] == k;
    assert Shifted(at, n)[i] == k + n;
  }

  lemma {:induction false} IncreasingBoth(a: seq<nat>, b: seq<nat>, n: nat)
    requires Increasing(a) && Increasing(b) && forall i :: 0 <= i < |a| ==> a[i] < n
    ensures Increasing(a + Shifted(b, n))
  {
    var c := a + Shifted(b, n);
    forall i, j | 0 <= i < j < |c| ensures c[i] < c[j] {
      if i < |a| <= j {
        assert c[i] < n <= c[j];
      } else if |a| <= i {
        assert b[i - |a|] < b[j - |a|];
      }
    }
  }

  lemma {:induction false} YieldsBoth<A, B>(f: A -> Option<B>, a: seq<A>, toA: seq<B>, atA: seq<nat>,
                                           b: seq<A>, toB: seq<B>, atB: seq<nat>)
    requires Yields(f, a, toA, atA) && Yields(f, b, toB, atB)
    ensures Yields(f, a + b, toA + toB, atA + Shifted(atB, |a|))
  {
    var at, to := atA + Shifted(atB, |a|), toA + toB;
    forall i | 0 <= i < |at| ensures at[i] < |a + b| && f((a + b)[at[i]]) == Some(to[i]) {
      if i < |atA| {
        assert (a + b)[at[i]] == a[atA[i]];
      } else {
        assert (a + b)[at[i]] == b[atB[i - |atA|]];
      }
    }
  }

  /** Picking from two lists one after the other. */
  lemma {:induction false} PickedBoth<A, B>(f: A -> Option<B>, a: seq<A>, toA: seq<B>, atA: seq<nat>,
                                           b: seq<A>, toB: seq<B>, atB: seq<nat>)
    requires Picked(f, a, toA, atA) && Picked(f, b, toB, atB)
    ensures Picked(f, a + b, toA + toB, atA + Shifted(atB, |a|))
  {
    hide Increasing, Yields, Shifted;
    InRange(f, a, toA, atA);
    IncreasingBoth(atA, atB, |a|);
    YieldsBoth(f, a, toA, atA, b, toB, atB);
    AllPicked(f, a, atA, b, atB);
  }

  lemma {:induction false} InRange<A, B>(f: A -> Option<B>, a: seq<A>, to: seq<B>, at: seq<nat>)
    requires Yields(f, a, to, at)
    ensures forall i :: 0 <= i < |at| ==> at[i] < |a|
  {
  }

  lemma {:induction false} AllPicked<A, B>(f: A -> Option<B>, a: seq<A>, atA: seq<nat>, b: seq<A>, atB: seq<nat>)
    requires forall k :: 0 <= k < |a| && f(a[k]).Some? ==> k in atA
    requires forall k :: 0 <= k < |b| && f(b[k]).Some? ==> k in atB
    ensures forall k :: 0 <= k < |a + b| && f((a + b)[k]).Some? ==> k in atA + Shifted(atB, |a|)
  {
    var at := Shifted(atB, |a|);
    forall k | 0 <= k < |a + b| && f((a + b)[k]).Some? ensures k in atA + at {
      if k < |a| {
        assert k in atA;
      } else {
        assert (a + b)[k] == b[k - |a|];
        ShiftedHas(atB, |a|, k - |a|);
      }
    }
  }

  lemma {:induction false} PickedOne<A, B>(f: A -> Option<B>, x: A)
    ensures f(x).Some? ==> Picked(f, [x], [f(x).value], [0])
    ensures f(x).None? ==> Picked(f, [x], [], [])
    ensures Picked(f, [], [], [])
  {
    assert 0 in [0];
  }

  /** Picking from what was picked. */
  lemma {:induction false} PickedThrough<A, B, C>(f: A -> Option<B>, g: B -> Option<C>, h: A -> Option<C>,
                                                  a: seq<A>, b: seq<B>, c: seq<C>, first: seq<nat>, then_: seq<nat>)
    returns (at: seq<nat>)
    requires Picked(f, a, b, first) && Picked(g, b, c, then_)
    requires forall x :: h(x) == if f(x).None? then None else g(f(x).value)
    ensures Picked(h, a, c, at)
  {
    at := seq(|then_|, i requires 0 <= i < |then_| => first[then_[i]]);
    forall k | 0 <= k < |a| && h(a[k]).Some? ensures k in at {
      assert k in first;
      var j :| 0 <= j < |first| && first[j] == k;
      assert b[j] == f(a[k]).value && j in then_;
      var i :| 0 <= i < |then_| && then_[i] == j;
      assert at[i] == k;
    }
  }

  lemma {:induction false} PartBehind<T>(part: seq<T>, whole: seq<T>, at: seq<nat>, x: T)
    requires PartAt(part, whole, at)
    ensures PartAt(part, [x] + whole, Shifted(at, 1)) && PartAt([x] + part, [x] + whole, [0] + Shifted(at, 1))
  {
  }

  lemma {:induction false} PartOfPart<T>(a: seq<T>, b: seq<T>, c: seq<T>, at: seq<nat>, through: seq<nat>)
    returns (places: seq<nat>)
    requires PartAt(a, b, at) && PartAt(b, c, through)
    ensures PartAt(a, c, places)
  {
    places := seq(|at|, i requires 0 <= i < |at| => through[at[i]]);
  }
}
