/** Shapes shared by every component of the model. */
module Prelude {

  datatype Option<+T> = None | Some(value: T)

  /** The elements of `xs` that satisfy `p`, in order. */
  function Filter<T(!new)>(p: T -> bool, xs: seq<T>): (r: seq<T>)
    ensures |r| <= |xs|
    ensures forall x :: x in r <==> x in xs && p(x)
  {
    if xs == [] then [] else (if p(xs[0]) then [xs[0]] else []) + Filter(p, xs[1..])
  }

  lemma {:induction false} FilterAppend<T(!new)>(p: T -> bool, xs: seq<T>, ys: seq<T>)
    ensures Filter(p, xs + ys) == Filter(p, xs) + Filter(p, ys)
  {
    if xs == [] {
      assert xs + ys == ys;
    } else {
      assert (xs + ys)[1..] == xs[1..] + ys;
      FilterAppend(p, xs[1..], ys);
    }
  }

  /** The elements of `xs` whose mark is true, in order. */
  function Keep<T>(xs: seq<T>, marks: seq<bool>): seq<T>
    requires |xs| == |marks|
  {
    if xs == [] then [] else (if marks[0] then [xs[0]] else []) + Keep(xs[1..], marks[1..])
  }

  function Map<S, T>(f: S -> T, xs: seq<S>): (r: seq<T>)
    ensures |r| == |xs| && forall i :: 0 <= i < |xs| ==> r[i] == f(xs[i])
  {
    seq(|xs|, i requires 0 <= i < |xs| => f(xs[i]))
  }

  function Max(a: int, b: int): (r: int)
    ensures a <= r && b <= r && (r == a || r == b)
  {
    if a < b then b else a
  }

  lemma ConsEqual<T>(all: seq<T>, x: T, rest: seq<T>)
    requires |all| == 1 + |rest| && all[0] == x && forall i :: 0 <= i < |rest| ==> all[i+1] == rest[i]
    ensures all == [x] + rest
  {
  }

  lemma JoinAgain<T>(a: seq<T>, b: seq<T>, c: seq<T>)
    ensures a + (b + c) == (a + b) + c
  {
  }

  lemma DropAppend<T>(head: seq<T>, rest: seq<T>, i: nat)
    requires |head| <= i <= |head| + |rest|
    ensures (head + rest)[i..] == rest[i-|head|..]
  {
  }

  lemma {:induction false} SubsetSize<T>(a: set<T>, b: set<T>)
    requires a <= b
    ensures |a| <= |b|
  {
    if a != {} {
      var x :| x in a;
      SubsetSize(a - {x}, b - {x});
    }
  }

  /** A sequence has more places than elements exactly when some element stands twice. */
  lemma {:induction false} SizeGap<T(!new)>(ts: seq<T>)
    ensures |set t | t in ts| <= |ts|
    ensures |set t | t in ts| == |ts| <==> forall d :: multiset(ts)[d] <= 1
  {
    if ts == [] {
      assert (set t | t in ts) == {};
    } else {
      var rest := ts[1..];
      SizeGap(rest);
      assert ts == [ts[0]] + rest;
      assert multiset(ts) == multiset{ts[0]} + multiset(rest);
      var s := set t | t in rest;
      assert (set t | t in ts) == {ts[0]} + s;
      if ts[0] in rest {
        assert {ts[0]} + s == s && ts[0] in multiset(rest);
        assert multiset(ts)[ts[0]] > 1 && |s| < |ts|;
      } else {
        assert multiset(rest)[ts[0]] == 0;
        assert forall d :: multiset(ts)[d] == if d == ts[0] then 1 else multiset(rest)[d];
      }
    }
  }
}
