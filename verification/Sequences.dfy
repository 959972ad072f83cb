/** Searching, counting and adding up along a sequence. */
module Sequences {

  /** The first place where p holds, |s| if there is none. */
  function First<T>(s: seq<T>, p: T -> bool): (i: nat)
    ensures i <= |s| && (i < |s| ==> p(s[i]))
    ensures forall k :: 0 <= k < i ==> !p(s[k])
  {
    if s == [] || p(s[0]) then 0 else 1 + First(s[1..], p)
  }

  ghost predicate Distinct<T(!new)>(s: seq<T>) { forall i, j :: 0 <= i < j < |s| ==> s[i] != s[j] }

  lemma TailDistinct<T(!new)>(s: seq<T>)
    requires s != [] && Distinct(s)
    ensures Distinct(s[1..]) && s[0] !in s[1..]
  {
    forall k | 0 <= k < |s| - 1 ensures s[1..][k] != s[0] { assert s[1..][k] == s[k + 1]; }
  }

  ghost function IndexOf<T(!new)>(s: seq<T>, x: T): (k: nat)
    requires x in s
    ensures k < |s| && s[k] == x
  {
    First(s, y => y == x)
  }

  ghost function Count<T>(s: seq<T>, p: T -> bool): nat {
    if s == [] then 0 else (if p(s[0]) then 1 else 0) + Count(s[1..], p)
  }

  lemma {:induction false} CountUpdate<T>(s: seq<T>, i: nat, x: T, p: T -> bool)
    requires i < |s|
    ensures Count(s[i := x], p) == Count(s, p) - (if p(s[i]) then 1 else 0) + (if p(x) then 1 else 0)
  {
    if i == 0 {
      assert s[i := x][1..] == s[1..];
    } else {
      CountUpdate(s[1..], i - 1, x, p);
      assert s[i := x][1..] == s[1..][i - 1 := x];
    }
  }

  lemma {:induction false} CountAppend<T>(s: seq<T>, x: T, p: T -> bool)
    ensures Count(s + [x], p) == Count(s, p) + (if p(x) then 1 else 0)
  {
    if s != [] {
      CountAppend(s[1..], x, p);
      assert (s + [x])[1..] == s[1..] + [x];
    }
  }

  lemma {:induction false} CountOne<T>(s: seq<T>, i: nat, p: T -> bool)
    requires i < |s| && p(s[i])
    ensures Count(s, p) >= 1
  {
    if i > 0 { CountOne(s[1..], i - 1, p); }
  }

  lemma {:induction false} CountTwo<T>(s: seq<T>, i: nat, j: nat, p: T -> bool)
    requires i < j < |s| && p(s[i]) && p(s[j])
    ensures Count(s, p) >= 2
  {
    if i > 0 { CountTwo(s[1..], i - 1, j - 1, p); } else { CountOne(s[1..], j - 1, p); }
  }

  lemma {:induction false} CountNone<T>(s: seq<T>, p: T -> bool)
    requires forall i :: 0 <= i < |s| ==> !p(s[i])
    ensures Count(s, p) == 0
  {
    if s != [] { CountNone(s[1..], p); }
  }

  lemma {:induction false} CountFinds<T>(s: seq<T>, p: T -> bool) returns (i: nat)
    requires Count(s, p) > 0
    ensures i < |s| && p(s[i])
  {
    if p(s[0]) { i := 0; } else { i := CountFinds(s[1..], p); i := i + 1; }
  }

  lemma {:induction false} CountConst<T>(n: nat, x: T, p: T -> bool)
    requires !p(x)
    ensures Count(seq(n, _ => x), p) == 0
  {
    CountNone(seq(n, _ => x), p);
  }

  lemma {:induction false} CountAlone<T>(s: seq<T>, b: nat, p: T -> bool)
    requires b < |s| && forall a :: 0 <= a < |s| && a != b ==> !p(s[a])
    ensures Count(s, p) == if p(s[b]) then 1 else 0
  {
    if b == 0 { CountNone(s[1..], p); } else { CountAlone(s[1..], b - 1, p); }
  }

  lemma {:induction false} CountSubset<T(!new)>(s: seq<T>, p: T -> bool, q: T -> bool)
    requires forall x :: q(x) ==> p(x)
    ensures Count(s, q) <= Count(s, p)
  {
    if s != [] { CountSubset(s[1..], p, q); }
  }

  lemma {:induction false} CountMore<T(!new)>(s: seq<T>, i: nat, p: T -> bool, q: T -> bool)
    requires i < |s| && (forall x :: q(x) ==> p(x)) && p(s[i]) && !q(s[i])
    ensures Count(s, q) + 1 <= Count(s, p)
  {
    if i > 0 { CountMore(s[1..], i - 1, p, q); } else { CountSubset(s[1..], p, q); }
  }

  ghost function Sum<T>(s: seq<T>, w: T -> nat): nat {
    if s == [] then 0 else w(s[0]) + Sum(s[1..], w)
  }

  lemma {:induction false} SumUpdate<T>(s: seq<T>, i: nat, x: T, w: T -> nat)
    requires i < |s|
    ensures Sum(s[i := x], w) == Sum(s, w) - w(s[i]) + w(x)
  {
    if i == 0 {
      assert s[i := x][1..] == s[1..];
    } else {
      SumUpdate(s[1..], i - 1, x, w);
      assert s[i := x][1..] == s[1..][i - 1 := x];
    }
  }

  lemma {:induction false} SumConst<T>(n: nat, x: T, w: T -> nat)
    ensures Sum(seq(n, _ => x), w) == n * w(x)
  {
    if n > 0 {
      SumConst(n - 1, x, w);
      assert seq(n, _ => x)[1..] == seq(n - 1, _ => x);
    }
  }
}
