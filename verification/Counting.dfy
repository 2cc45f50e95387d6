/** Sizes of finite sets of numbers, for pigeonhole arguments. */
module Counting {
  /** The numbers below a bound. */
  function Below(bound: nat): (all: set<int>)
    ensures |all| == bound && forall n :: n in all <==> 0 <= n < bound
  {
    if bound == 0 then {} else Below(bound - 1) + {bound - 1}
  }

  lemma HasMember(s: set<int>)
    requires s != {}
    ensures exists x :: x in s
  {
    assert (forall x :: x !in s) ==> s == {};
  }

  lemma {:induction false} Least(s: set<int>) returns (least: int)
    requires s != {}
    ensures least in s && forall x :: x in s ==> least <= x
  {
    HasMember(s);
    var x :| x in s;
    var rest := s - {x};
    least := x;
    if rest != {} {
      var other := Least(rest);
      if other < x {
        least := other;
      }
    }
    forall y | y in s ensures least <= y {
      if y != x { assert y in rest; }
    }
  }

  lemma {:induction false} Included(small: set<int>, large: set<int>)
    requires small <= large
    ensures |small| <= |large|
  {
    if small != {} {
      HasMember(small);
      var x :| x in small;
      Included(small - {x}, large - {x});
    }
  }

  function Elements(s: seq<int>): (e: set<int>)
    ensures |e| <= |s| && forall x :: x in e <==> x in s
  {
    if s == [] then {} else Elements(s[..|s| - 1]) + {s[|s| - 1]}
  }

  lemma {:induction false} DistinctElements(s: seq<int>)
    requires forall i, j :: 0 <= i < j < |s| ==> s[i] != s[j]
    ensures |Elements(s)| == |s|
  {
    if s != [] {
      DistinctElements(s[..|s| - 1]);
    }
  }

  /** Distinct numbers below a bound are at most that many. */
  lemma Pigeonhole(s: seq<int>, bound: nat)
    requires forall k :: 0 <= k < |s| ==> 0 <= s[k] < bound
    requires forall i, j :: 0 <= i < j < |s| ==> s[i] != s[j]
    ensures |s| <= bound
  {
    DistinctElements(s);
    Included(Elements(s), Below(bound));
  }

  /** To hit every number below a bound takes at least that many. */
  lemma Covering(s: seq<int>, bound: nat)
    requires forall n :: 0 <= n < bound ==> n in s
    ensures |s| >= bound
  {
    Included(Below(bound), Elements(s));
  }
}
