/** Facts about sequences and finite sets that several parts of the model share. */
module Collections {

  ghost predicate NoDup<T>(s: seq<T>) {
    forall i, j :: 0 <= i < j < |s| ==> s[i] != s[j]
  }

  ghost predicate Below(s: seq<nat>, n: nat) {
    forall i :: 0 <= i < |s| ==> s[i] < n
  }

  function Elems<T(!new)>(s: seq<T>): (r: set<T>)
    ensures forall x :: x in r <==> x in s
  {
    set x | x in s
  }

  predicate IsNat(x: nat) { true }

  function Interval(lo: nat, hi: nat): (r: set<nat>)
    ensures forall x: nat :: x in r <==> lo <= x < hi
  {
    set x: nat | lo <= x < hi && IsNat(x)
  }

  lemma {:induction false} IntervalSize(lo: nat, hi: nat)
    requires lo <= hi
    ensures |Interval(lo, hi)| == hi - lo
    decreases hi
  {
    if lo < hi {
      IntervalSize(lo, hi - 1);
      assert Interval(lo, hi) == Interval(lo, hi - 1) + {hi - 1};
    } else {
      assert Interval(lo, hi) == {};
    }
  }

  lemma Member<T>(s: set<T>) returns (x: T)
    requires s != {}
    ensures x in s
  {
    x :| x in s;
  }

  /** Whatever element a hash set yields first. */
  method AnyOf<T>(s: set<T>) returns (x: T)
    requires s != {}
    ensures x in s
  {
    x :| x in s;
  }

  lemma {:induction false} SubsetSize<T>(a: set<T>, b: set<T>)
    requires a <= b
    ensures |a| <= |b|
    ensures |a| == |b| ==> a == b
  {
    if a != {} {
      var x :| x in a;
      SubsetSize(a - {x}, b - {x});
      if |a| == |b| {
        assert a == (a - {x}) + {x} && b == (b - {x}) + {x};
      }
    }
  }

  lemma BoundedSize(a: set<nat>, n: nat)
    requires forall x :: x in a ==> x < n
    ensures |a| <= n
  {
    IntervalSize(0, n);
    SubsetSize(a, Interval(0, n));
  }

  lemma NoDupSnoc<T>(s: seq<T>, x: T)
    ensures NoDup(s + [x]) <==> NoDup(s) && x !in s
  {
    var t := s + [x];
    assert t[|s|] == x && forall i :: 0 <= i < |s| ==> t[i] == s[i];
  }

  lemma {:induction false} ElemsSize<T(!new)>(s: seq<T>)
    ensures |Elems(s)| <= |s|
    ensures NoDup(s) <==> |Elems(s)| == |s|
  {
    if s != [] {
      var init := s[..|s| - 1];
      var last := s[|s| - 1];
      assert s == init + [last];
      ElemsSize(init);
      NoDupSnoc(init, last);
      assert Elems(s) == Elems(init) + {last};
    }
  }

  /** The elements of a hash set in whatever order the set yields them. */
  method InSomeOrder(s: set<nat>) returns (t: seq<nat>)
    ensures NoDup(t) && Elems(t) == s
  {
    t := [];
    var rest := s;
    while rest != {}
      invariant NoDup(t) && Elems(t) + rest == s && Elems(t) !! rest
      decreases |rest|
    {
      var x := AnyOf(rest);
      NoDupSnoc(t, x);
      rest := rest - {x};
      t := t + [x];
    }
  }

  /** n different numbers below n are all of them. */
  lemma Covers(s: seq<nat>, n: nat)
    requires NoDup(s) && Below(s, n) && |s| == n
    ensures forall i: nat :: i < n ==> i in s
  {
    ElemsSize(s);
    IntervalSize(0, n);
    assert forall x :: x in s ==> exists i :: 0 <= i < |s| && s[i] == x;
    SubsetSize(Elems(s), Interval(0, n));
    forall i: nat | i < n ensures i in s { assert i in Interval(0, n); }
  }
}
