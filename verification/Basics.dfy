/** Lists without repetitions, and powers of two, as several models need them. */
module Basics {

  datatype Option<T> = None | Some(value: T)

  ghost predicate Distinct<T>(s: seq<T>)
  {
    forall i, j :: 0 <= i < j < |s| ==> s[i] != s[j]
  }

  function Remove<T(==)>(s: seq<T>, p: T): (r: seq<T>)
    ensures forall q {:trigger q in r} :: q in r ==> q in s && q != p
    ensures forall q {:trigger q in r} {:trigger q in s} :: q in s && q != p ==> q in r
  {
    if s == [] then [] else if s[0] == p then Remove(s[1..], p) else [s[0]] + Remove(s[1..], p)
  }

  function Reversed<T>(s: seq<T>): (r: seq<T>)
  {
    if s == [] then [] else Reversed(s[1..]) + [s[0]]
  }

  lemma {:induction false} DistinctParts<T>(s: seq<T>)
    requires Distinct(s) && s != []
    ensures Distinct(s[1..]) && s[0] !in s[1..]
    ensures forall q :: q in s <==> q == s[0] || q in s[1..]
  {
    forall q
      ensures q in s <==> q == s[0] || q in s[1..]
    {
      if q in s {
        var i :| 0 <= i < |s| && s[i] == q;
        assert i > 0 ==> s[1..][i - 1] == q;
      }
    }
  }

  lemma {:induction false} OneMember<T>(s: seq<T>, x: T)
    requires Distinct(s) && x in s && forall y :: y in s ==> y == x
    ensures s == [x]
  {
    if |s| > 1 {
      FirstTwo(s);
    }
  }

  lemma NoMember<T>(s: seq<T>, all: set<T>)
    requires forall y :: y in s ==> y in all
    ensures s == [] <==> forall y :: y in all ==> y !in s
  {
    if s != [] {
      var x := s[0];
      assert x in s && x in all;
    }
  }

  lemma FirstTwo<T>(s: seq<T>)
    requires Distinct(s) && |s| > 1
    ensures s[0] in s && s[1] in s && s[0] != s[1]
  {
  }

  lemma {:induction false} RemoveAbsent<T>(s: seq<T>, p: T)
    requires p !in s
    ensures Remove(s, p) == s
  {
    if s != [] {
      RemoveAbsent(s[1..], p);
    }
  }

  /** What is there once is taken out once. */
  lemma {:induction false} DistinctRemove<T>(s: seq<T>, p: T)
    requires Distinct(s)
    ensures Distinct(Remove(s, p)) && |Remove(s, p)| == (if p in s then |s| - 1 else |s|)
    ensures s != [] ==> Remove(s, s[0]) == s[1..]
  {
    if s != [] {
      DistinctParts(s);
      RemoveAbsent(s[1..], s[0]);
      DistinctRemove(s[1..], p);
      assert s[0] !in Remove(s[1..], p);
    }
  }

  lemma {:induction false} ReversedFirst<T>(s: seq<T>, t: seq<T>)
    requires s != []
    ensures Reversed(s[1..]) + ([s[0]] + t) == Reversed(s) + t
  {
  }

  function Pow2(n: nat): (r: nat)
    ensures r > 0
  {
    if n == 0 then 1 else 2 * Pow2(n - 1)
  }

  lemma {:induction false} PowSum(a: nat, b: nat)
    ensures Pow2(a) * Pow2(b) == Pow2(a + b)
  {
    if a > 0 {
      PowSum(a - 1, b);
      assert Pow2(a) * Pow2(b) == 2 * (Pow2(a - 1) * Pow2(b));
    }
  }

  lemma {:induction false} PowGrows(a: nat, b: nat)
    requires a <= b
    ensures Pow2(a) <= Pow2(b)
  {
    if a < b {
      PowGrows(a, b - 1);
    }
  }

  /** x >> n */
  function Shr(x: nat, n: nat): (r: nat)
    ensures r <= x
  {
    if n == 0 then x else Shr(x / 2, n - 1)
  }
}
