/** fcyc.c: the K smallest of a stream of measurements, kept in order as they come. */
module Sampler {

  ghost predicate Sorted(s: seq<real>) { forall i, j :: 0 <= i <= j < |s| ==> s[i] <= s[j] }

  /** v among the sorted s, after its equals. */
  function Insert(s: seq<real>, v: real): (r: seq<real>)
    ensures |r| == |s| + 1
  {
    if s == [] then [v] else if s[|s| - 1] > v then Insert(s[..|s| - 1], v) + [s[|s| - 1]] else s + [v]
  }

  /** All the measurements, in order: the simple form. */
  function Sort(samples: seq<real>): (r: seq<real>)
    ensures |r| == |samples|
  {
    if samples == [] then [] else Insert(Sort(samples[..|samples| - 1]), samples[|samples| - 1])
  }

  function Min(a: nat, b: nat): nat { if a < b then a else b }

  /** What the K smallest become with one more measurement: it joins, replaces the largest, or is dropped. */
  function Joined(best: seq<real>, v: real, k: nat): seq<real>
    requires |best| <= k
  {
    if |best| < k then Insert(best, v)
    else if k > 0 && v < best[k - 1] then Insert(best[..k - 1], v)
    else best
  }

  /** Where v goes: after everything up to it, before everything above it. */
  lemma {:induction false} InsertsAt(s: seq<real>, v: real, pos: nat)
    requires pos <= |s| && (pos > 0 ==> s[pos - 1] <= v) && (forall j :: pos <= j < |s| ==> s[j] > v)
    ensures Insert(s, v) == s[..pos] + [v] + s[pos..]
  {
    if pos == |s| {
      assert s[..pos] == s && s[pos..] == [];
    } else {
      var n := |s| - 1;
      InsertsAt(s[..n], v, pos);
      assert s[..n][..pos] == s[..pos] && s[..n][pos..] + [s[n]] == s[pos..];
    }
  }

  lemma {:induction false} Place(s: seq<real>, v: real) returns (pos: nat)
    requires Sorted(s)
    ensures pos <= |s| && (pos > 0 ==> s[pos - 1] <= v) && (forall j :: pos <= j < |s| ==> s[j] > v)
  {
    if s == [] || s[|s| - 1] <= v { pos := |s|; } else { pos := Place(s[..|s| - 1], v); }
  }

  lemma Between(s: seq<real>, v: real, pos: nat)
    requires Sorted(s) && pos <= |s| && (pos > 0 ==> s[pos - 1] <= v) && (forall j :: pos <= j < |s| ==> s[j] > v)
    ensures Sorted(s[..pos] + [v] + s[pos..])
  {
  }

  lemma OneMore(a: seq<real>, v: real, b: seq<real>)
    ensures multiset(a + [v] + b) == multiset(a + b) + multiset{v}
  {
  }

  lemma InsertSorted(s: seq<real>, v: real)
    requires Sorted(s)
    ensures Sorted(Insert(s, v)) && multiset(Insert(s, v)) == multiset(s) + multiset{v}
  {
    hide Insert, Sorted;
    var pos := Place(s, v);
    InsertsAt(s, v, pos);
    Between(s, v, pos);
    OneMore(s[..pos], v, s[pos..]);
    assert s == s[..pos] + s[pos..];
  }

  lemma {:induction false} SortSorts(samples: seq<real>)
    ensures Sorted(Sort(samples)) && multiset(Sort(samples)) == multiset(samples)
  {
    if samples != [] {
      var n := |samples| - 1;
      assert samples == samples[..n] + [samples[n]];
      SortSorts(samples[..n]);
      InsertSorted(Sort(samples[..n]), samples[n]);
    }
  }

  /** A v below the K smallest so far changes them as it changes all the measurements. */
  lemma JoinsBelow(s: seq<real>, v: real, k: nat)
    requires Sorted(s) && 0 < k <= |s| && v < s[k - 1]
    ensures Insert(s[..k - 1], v) == Insert(s, v)[..k]
  {
    hide Insert;
    var pos := Place(s, v);
    InsertsAt(s, v, pos);
    InsertsAt(s[..k - 1], v, pos);
    assert s[..k - 1][..pos] == s[..pos] && s[..k - 1][pos..] == s[pos..k - 1];
  }

  lemma StaysAbove(s: seq<real>, v: real, k: nat)
    requires Sorted(s) && k <= |s| && (k > 0 ==> s[k - 1] <= v)
    ensures Insert(s, v)[..k] == s[..k]
  {
  }

  /** Only the K smallest so far matter for the K smallest with one more. */
  lemma JoinedIsPrefix(s: seq<real>, v: real, k: nat)
    requires Sorted(s)
    ensures Joined(s[..Min(|s|, k)], v, k) == Insert(s, v)[..Min(|s| + 1, k)]
  {
    hide Insert;
    if |s| < k {
      assert s[..Min(|s|, k)] == s;
    } else if k > 0 && v < s[k - 1] {
      JoinsBelow(s, v, k);
      assert s[..k][..k - 1] == s[..k - 1];
    } else {
      StaysAbove(s, v, k);
    }
  }

  lemma SunkIs(vals: seq<real>, best: seq<real>, v: real, pos: nat)
    requires |vals| == |best| + 1 && pos <= |best| && vals[pos] == v
    requires forall i :: 0 <= i < pos ==> vals[i] == best[i]
    requires forall j :: pos <= j < |best| ==> vals[j + 1] == best[j]
    ensures vals == best[..pos] + [v] + best[pos..]
  {
  }

  lemma SortOneMore(samples: seq<real>, val: real)
    ensures Sort(samples + [val]) == Insert(Sort(samples), val)
  {
  }

  lemma NextBest(samples: seq<real>, val: real, k: nat, best: seq<real>)
    requires best == Sort(samples)[..Min(|samples|, k)]
    ensures Joined(best, val, k) == Sort(samples + [val])[..Min(|samples| + 1, k)]
    ensures Sorted(best) && (k == |best| > 0 ==> Sorted(best[..k - 1]))
  {
    SortSorts(samples);
    hide Insert, Sort, Joined;
    JoinedIsPrefix(Sort(samples), val, k);
    SortOneMore(samples, val);
  }

  // ---- agreement, without an order ------------------------------------------------------------

  /** m is the smallest of the measurements. */
  ghost predicate Smallest(samples: seq<real>, m: real) {
    m in samples && forall i :: 0 <= i < |samples| ==> m <= samples[i]
  }

  /** The measurements up to b. */
  ghost function UpTo(samples: seq<real>, b: real): set<int> {
    set i | 0 <= i < |samples| && samples[i] <= b
  }

  ghost function Within(samples: seq<real>, b: real): nat {
    if samples == [] then 0
    else Within(samples[..|samples| - 1], b) + if samples[|samples| - 1] <= b then 1 else 0
  }

  lemma {:induction false} WithinIsUpTo(samples: seq<real>, b: real)
    ensures |UpTo(samples, b)| == Within(samples, b)
  {
    if samples != [] {
      var n := |samples| - 1;
      WithinIsUpTo(samples[..n], b);
      assert UpTo(samples, b) == UpTo(samples[..n], b) + if samples[n] <= b then {n} else {};
    }
  }

  lemma {:induction false} InsertWithin(s: seq<real>, v: real, b: real)
    ensures Within(Insert(s, v), b) == Within(s, b) + if v <= b then 1 else 0
  {
    if s != [] && s[|s| - 1] > v {
      var n := |s| - 1;
      InsertWithin(s[..n], v, b);
      assert Insert(s, v)[..n + 1] == Insert(s[..n], v);
    } else {
      assert (s + [v])[..|s|] == s;
    }
  }

  lemma {:induction false} SortWithin(samples: seq<real>, b: real)
    ensures Within(Sort(samples), b) == Within(samples, b)
  {
    if samples != [] {
      var n := |samples| - 1;
      SortWithin(samples[..n], b);
      InsertWithin(Sort(samples[..n]), samples[n], b);
    }
  }

  /** Of values in order, at least k are up to b exactly if the k-th is. */
  lemma {:induction false} SortedWithin(s: seq<real>, k: nat, b: real)
    requires Sorted(s) && 1 <= k
    ensures Within(s, b) <= |s|
    ensures k <= Within(s, b) <==> k <= |s| && s[k - 1] <= b
  {
    if s != [] {
      var n := |s| - 1;
      SortedWithin(s[..n], k, b);
      if 1 <= n { SortedWithin(s[..n], n, b); }
    }
  }

  lemma KthIsWithin(samples: seq<real>, k: nat, b: real)
    requires 1 <= k
    ensures k <= |samples| && Sort(samples)[k - 1] <= b <==> k <= |UpTo(samples, b)|
  {
    SortSorts(samples);
    SortedWithin(Sort(samples), k, b);
    SortWithin(samples, b);
    WithinIsUpTo(samples, b);
    hide Sort, Within;
  }

  /** At least k measurements exceed the smallest by no more than the fraction epsilon of it. */
  ghost predicate Converged(samples: seq<real>, k: nat, epsilon: real) {
    exists m :: Smallest(samples, m) && Near(samples, k, epsilon, m)
  }

  function Scaled(m: real, epsilon: real): real { (1.0 + epsilon) * m }

  ghost predicate Near(samples: seq<real>, k: nat, epsilon: real, m: real) {
    k <= |UpTo(samples, Scaled(m, epsilon))|
  }

  ghost function Readings(clock: nat -> real, n: nat): seq<real> { seq(n, i requires 0 <= i => clock(i)) }

  lemma SmallestFirst(samples: seq<real>)
    requires samples != []
    ensures Smallest(samples, Sort(samples)[0])
  {
    SortSorts(samples);
    var s := Sort(samples);
    assert s[0] in multiset(s);
    forall i | 0 <= i < |samples| ensures s[0] <= samples[i] {
      assert samples[i] in multiset(samples);
      assert samples[i] in multiset(s);
    }
  }

  lemma ConvergedAt(samples: seq<real>, k: nat, epsilon: real, m: real)
    requires Smallest(samples, m)
    ensures Converged(samples, k, epsilon) <==> k <= |UpTo(samples, Scaled(m, epsilon))|
  {
    hide UpTo, Scaled;
    forall l | Smallest(samples, l) ensures l == m { }
    hide Smallest;
    assert Near(samples, k, epsilon, m) <==> k <= |UpTo(samples, Scaled(m, epsilon))|;
  }

  /** So it is enough to look at the smallest and the k-th smallest. */
  lemma ConvergedByOrder(samples: seq<real>, k: nat, epsilon: real)
    requires 1 <= k
    ensures Converged(samples, k, epsilon) <==> k <= |samples| && Scaled(Sort(samples)[0], epsilon) >= Sort(samples)[k - 1]
  {
    hide Sort, UpTo, Scaled;
    if samples != [] {
      SmallestFirst(samples);
      KthIsWithin(samples, k, Scaled(Sort(samples)[0], epsilon));
      ConvergedAt(samples, k, epsilon, Sort(samples)[0]);
      hide *;
    }
  }

  lemma FirstReadings(clock: nat -> real, n: nat, m: real)
    requires Smallest(Readings(clock, n), m)
    ensures (forall i :: 0 <= i < n ==> m <= clock(i)) && (exists i :: 0 <= i < n && m == clock(i))
  {
    assert forall i :: 0 <= i < n ==> Readings(clock, n)[i] == clock(i);
  }

  /** The statics values and samplecount. */
  class Sampler {
    const kbest: nat
    const maxsamples: int
    const epsilon: real
    var values: array<real>
    var samplecount: nat
    ghost var samples: seq<real>

    /** The first entries of values are the smallest measurements so far, in order. */
    ghost predicate Valid() reads this, values {
      && kbest >= 1 && values.Length == kbest && samplecount == |samples|
      && values[..Min(|samples|, kbest)] == Sort(samples)[..Min(|samples|, kbest)]
    }

    /** The settings: kbest below 1 has no meaning in the original. */
    constructor (kbest: nat, maxsamples: int, epsilon: real)
      requires kbest >= 1
      ensures this.kbest == kbest && this.maxsamples == maxsamples && this.epsilon == epsilon
      ensures fresh(values) && Valid() && samples == []
    {
      this.kbest, this.maxsamples, this.epsilon := kbest, maxsamples, epsilon;
      values := new real[kbest](_ => 0.0);
      samplecount := 0;
      samples := [];
    }

    method InitSampler()
      requires kbest >= 1
      modifies this
      ensures fresh(values) && Valid() && samples == []
    {
      values := new real[kbest](_ => 0.0);
      samplecount := 0;
      samples := [];
    }

    /** The insertion loop: the entry at pos sinks to its place. */
    method Sink(m: nat, ghost best: seq<real>, v: real)
      requires m < values.Length && Sorted(best) && |best| == m && values[..m] == best && values[m] == v
      modifies values
      ensures values[..m + 1] == Insert(best, v)
    {
      hide Insert, Sorted;
      var pos := m;
      assert forall i :: 0 <= i < m ==> values[i] == values[..m][i];
      while pos > 0 && values[pos - 1] > values[pos]
        invariant 0 <= pos <= m && values[pos] == v
        invariant forall i :: 0 <= i < pos ==> values[i] == best[i]
        invariant forall j :: pos <= j < m ==> values[j + 1] == best[j] && best[j] > v
      {
        var temp := values[pos - 1];
        values[pos - 1] := values[pos];
        values[pos] := temp;
        pos := pos - 1;
      }
      InsertsAt(best, v, pos);
      SunkIs(values[..m + 1], best, v, pos);
    }

    method AddSample(val: real)
      requires Valid()
      modifies this`samplecount, this`samples, values
      ensures Valid() && samples == old(samples) + [val]
    {
      ghost var best := values[..Min(|samples|, kbest)];
      NextBest(samples, val, kbest, best);
      hide Insert, Sort, Sorted;
      if samplecount < kbest {
        values[samplecount] := val;
        assert values[..samplecount] == best;
        Sink(samplecount, best, val);
        assert values[..Min(samplecount + 1, kbest)] == values[..samplecount + 1];
      } else if val < values[kbest - 1] {
        values[kbest - 1] := val;
        assert values[..kbest - 1] == best[..kbest - 1];
        Sink(kbest - 1, best[..kbest - 1], val);
      }
      samplecount := samplecount + 1;
      samples := samples + [val];
      assert values[..Min(|samples|, kbest)] == Joined(best, val, kbest);
    }

    /** Whether kbest measurements are within epsilon of the smallest. */
    method HasConverged() returns (yes: bool)
      requires Valid()
      ensures samples == [] ==> !yes
      ensures forall m :: Smallest(samples, m) ==> (yes <==> kbest <= |UpTo(samples, (1.0 + epsilon) * m)|)
      ensures yes <==> Converged(samples, kbest, epsilon)
    {
      if samplecount >= kbest {
        assert values[0] == values[..kbest][0] && values[kbest - 1] == values[..kbest][kbest - 1];
      }
      yes := samplecount >= kbest && (1.0 + epsilon) * values[0] >= values[kbest - 1];
      ConvergedByOrder(samples, kbest, epsilon);
      hide Sort, Converged, UpTo;
      forall m | Smallest(samples, m) ensures yes <==> kbest <= |UpTo(samples, (1.0 + epsilon) * m)| {
        ConvergedAt(samples, kbest, epsilon, m);
        assert Scaled(m, epsilon) == (1.0 + epsilon) * m;
      }
    }

    /** The sampling loop; clock(i) is the measurement of call i. */
    method TakeSamples(clock: nat -> real)
      requires kbest >= 1
      modifies this, values
      ensures Valid() && fresh(values) && 1 <= samplecount && samples == Readings(clock, samplecount)
      ensures samplecount <= if maxsamples < 1 then 1 else maxsamples
      ensures samplecount >= maxsamples || Converged(samples, kbest, epsilon)
      ensures forall n :: 1 <= n < samplecount ==> !Converged(Readings(clock, n), kbest, epsilon)
    {
      hide Converged, Sort, Min;
      InitSampler();
      AddSample(clock(0));
      assert samples == Readings(clock, 1);
      var done := HasConverged();
      while !done && samplecount < maxsamples
        invariant Valid() && fresh(values) && 1 <= samplecount && samples == Readings(clock, samplecount)
        invariant samplecount <= if maxsamples < 1 then 1 else maxsamples
        invariant done <==> Converged(samples, kbest, epsilon)
        invariant forall n :: 1 <= n < samplecount ==> !Converged(Readings(clock, n), kbest, epsilon)
        decreases maxsamples - samplecount
      {
        AddSample(clock(samplecount));
        assert samples == Readings(clock, samplecount);
        done := HasConverged();
      }
    }

    /** fcyc: the smallest of the measurements taken, which stop when kbest of them are within epsilon of it, and
        not before, or at the limit. */
    method Fcyc(clock: nat -> real) returns (result: real)
      requires kbest >= 1
      modifies this, values
      ensures 1 <= samplecount <= if maxsamples < 1 then 1 else maxsamples
      ensures samplecount >= maxsamples || kbest <= |UpTo(Readings(clock, samplecount), (1.0 + epsilon) * result)|
      ensures forall n, m :: 1 <= n < samplecount && Smallest(Readings(clock, n), m) ==>
                |UpTo(Readings(clock, n), (1.0 + epsilon) * m)| < kbest
      ensures forall i :: 0 <= i < samplecount ==> result <= clock(i)
      ensures exists i :: 0 <= i < samplecount && result == clock(i)
    {
      hide Converged, Sort, UpTo, Smallest;
      TakeSamples(clock);
      SmallestFirst(samples);
      assert values[0] == values[..Min(|samples|, kbest)][0];
      result := values[0];
      ConvergedAt(samples, kbest, epsilon, result);
      assert Scaled(result, epsilon) == (1.0 + epsilon) * result;
      forall n, m | 1 <= n < samplecount && Smallest(Readings(clock, n), m)
        ensures |UpTo(Readings(clock, n), (1.0 + epsilon) * m)| < kbest
      {
        ConvergedAt(Readings(clock, n), kbest, epsilon, m);
        assert Scaled(m, epsilon) == (1.0 + epsilon) * m;
      }
      FirstReadings(clock, samplecount, result);
    }
  }
}
