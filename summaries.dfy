/**
 The shared data model of the aggregator (main.go:170-177): bytes, station
 names, the per-station `Summary` record and the `Places` map, together with
 the three ways a summary is built: from a first reading, by adding one more
 reading, and by combining two summaries. `Summarize` is the independent
 reference definition those three are proved against.
 */
module Summaries {

  /** One byte of the input file. */
  newtype Byte = b: int | 0 <= b < 256

  /** A station name: the bytes in front of the `;` of a record line. */
  type Name = seq<Byte>

  /**
   A measured value. The source stores float64; the model uses integers (for
   instance tenths of a degree), which are totally ordered and add exactly.
   */
  type Value = int

  datatype Option<T> = None | Some(value: T)

  /** `Summary` of main.go:172-177. `count` is the source's `int`. */
  datatype Summary = Summary(min: Value, max: Value, sum: Value, count: int)

  /** `Places` of main.go:170: station name to summary. */
  type Places = map<Name, Summary>

  /** The invariant every stored summary keeps: at least one reading, and
      the average `sum / count` lies between `min` and `max`. */
  predicate WellFormed(s: Summary)
  {
    && s.count >= 1
    && s.min <= s.max
    && s.count * s.min <= s.sum <= s.count * s.max
  }

  // ---------------------------------------------------------------------
  // Reference definition: the summary of a non-empty sequence of readings.
  // ---------------------------------------------------------------------

  function MinOf(vs: seq<Value>): (m: Value)
    requires |vs| > 0
    ensures m in vs
    ensures forall i :: 0 <= i < |vs| ==> m <= vs[i]
  {
    if |vs| == 1 then vs[0]
    else
      var m0 := MinOf(vs[..|vs| - 1]);
      if m0 <= vs[|vs| - 1] then m0 else vs[|vs| - 1]
  }

  function MaxOf(vs: seq<Value>): (m: Value)
    requires |vs| > 0
    ensures m in vs
    ensures forall i :: 0 <= i < |vs| ==> vs[i] <= m
  {
    if |vs| == 1 then vs[0]
    else
      var m0 := MaxOf(vs[..|vs| - 1]);
      if m0 >= vs[|vs| - 1] then m0 else vs[|vs| - 1]
  }

  function SumOf(vs: seq<Value>): Value
  {
    if vs == [] then 0 else SumOf(vs[..|vs| - 1]) + vs[|vs| - 1]
  }

  /** What a station's summary should be after the readings `vs`. */
  function Summarize(vs: seq<Value>): Summary
    requires |vs| > 0
  {
    Summary(MinOf(vs), MaxOf(vs), SumOf(vs), |vs|)
  }

  // ---------------------------------------------------------------------
  // The source's update rules.
  // ---------------------------------------------------------------------

  /** The summary a station's first reading creates (main.go:115-120). */
  function Single(v: Value): (s: Summary)
    ensures s == Summarize([v])
  {
    assert [v][..0] == [];
    assert SumOf([v]) == SumOf([v][..0]) + v;
    Summary(v, v, v, 1)
  }

  /** One more reading folded into a present summary (main.go:104-113). */
  function Add(s: Summary, v: Value): (r: Summary)
    ensures r.count == s.count + 1
    ensures r.min <= s.min && r.min <= v && (r.min == s.min || r.min == v)
    ensures r.max >= s.max && r.max >= v && (r.max == s.max || r.max == v)
  {
    Summary(if s.min >= v then v else s.min,
            if s.max <= v then v else s.max,
            s.sum + v,
            s.count + 1)
  }

  /** Two summaries of the same station combined (main.go:137-146). */
  function Combine(s: Summary, t: Summary): (r: Summary)
    ensures r.count == s.count + t.count
    ensures r.min <= s.min && r.min <= t.min && (r.min == s.min || r.min == t.min)
    ensures r.max >= s.max && r.max >= t.max && (r.max == s.max || r.max == t.max)
  {
    Summary(if s.min >= t.min then t.min else s.min,
            if s.max <= t.max then t.max else s.max,
            s.sum + t.sum,
            s.count + t.count)
  }

  // ---------------------------------------------------------------------
  // Lemmas tying the update rules to the reference definition.
  // ---------------------------------------------------------------------

  lemma LastDropped(vs: seq<Value>, v: Value)
    ensures (vs + [v])[..|vs|] == vs
  {
  }

  /** Adding a reading to the summary of `vs` gives the summary of `vs + [v]`. */
  lemma AddExtends(vs: seq<Value>, v: Value)
    requires |vs| > 0
    ensures Add(Summarize(vs), v) == Summarize(vs + [v])
  {
    LastDropped(vs, v);
  }

  lemma MinOfAppend(a: seq<Value>, b: seq<Value>)
    requires |a| > 0 && |b| > 0
    ensures MinOf(a + b) == if MinOf(a) <= MinOf(b) then MinOf(a) else MinOf(b)
  {
    var m := MinOf(a + b);
    var k :| 0 <= k < |a + b| && (a + b)[k] == m;
    if k < |a| {
      assert a[k] == m;
    } else {
      assert b[k - |a|] == m;
    }
    forall i | 0 <= i < |a| ensures m <= a[i] { assert (a + b)[i] == a[i]; }
    forall i | 0 <= i < |b| ensures m <= b[i] { assert (a + b)[|a| + i] == b[i]; }
  }

  lemma MaxOfAppend(a: seq<Value>, b: seq<Value>)
    requires |a| > 0 && |b| > 0
    ensures MaxOf(a + b) == if MaxOf(a) >= MaxOf(b) then MaxOf(a) else MaxOf(b)
  {
    var m := MaxOf(a + b);
    var k :| 0 <= k < |a + b| && (a + b)[k] == m;
    if k < |a| {
      assert a[k] == m;
    } else {
      assert b[k - |a|] == m;
    }
    forall i | 0 <= i < |a| ensures a[i] <= m { assert (a + b)[i] == a[i]; }
    forall i | 0 <= i < |b| ensures b[i] <= m { assert (a + b)[|a| + i] == b[i]; }
  }

  lemma {:induction false} SumOfAppend(a: seq<Value>, b: seq<Value>)
    ensures SumOf(a + b) == SumOf(a) + SumOf(b)
    decreases |b|
  {
    if b == [] {
      assert a + b == a;
    } else {
      var b' := b[..|b| - 1];
      assert (a + b)[..|a + b| - 1] == a + b';
      SumOfAppend(a, b');
    }
  }

  /** Combining the summaries of `a` and `b` gives the summary of `a + b`. */
  lemma CombineConcat(a: seq<Value>, b: seq<Value>)
    requires |a| > 0 && |b| > 0
    ensures Combine(Summarize(a), Summarize(b)) == Summarize(a + b)
  {
    MinOfAppend(a, b);
    MaxOfAppend(a, b);
    SumOfAppend(a, b);
  }

  /** The average stays between the bounds when one reading joins. */
  lemma AverageStep(c: int, lo: int, hi: int, sum: int, v: int, lo': int, hi': int)
    requires c >= 0 && c * lo <= sum <= c * hi
    requires lo' <= lo && lo' <= v && hi <= hi' && v <= hi'
    ensures (c + 1) * lo' <= sum + v <= (c + 1) * hi'
  {
    assert c * lo' <= c * lo;
    assert c * hi <= c * hi';
  }

  /** The average stays between the bounds when two summaries join. */
  lemma AverageJoin(c: int, lo: int, hi: int, sum: int, d: int, lo2: int, hi2: int, sum2: int, lo': int, hi': int)
    requires c >= 0 && c * lo <= sum <= c * hi
    requires d >= 0 && d * lo2 <= sum2 <= d * hi2
    requires lo' <= lo && lo' <= lo2 && hi <= hi' && hi2 <= hi'
    ensures (c + d) * lo' <= sum + sum2 <= (c + d) * hi'
  {
    assert c * lo' <= c * lo;
    assert c * hi <= c * hi';
    assert d * lo' <= d * lo2;
    assert d * hi2 <= d * hi';
  }

  /** Every summary of a non-empty sequence of readings is well formed, and
      every reading lies between its `min` and `max`. */
  lemma {:induction false} SummarizeWellFormed(vs: seq<Value>)
    requires |vs| > 0
    ensures WellFormed(Summarize(vs))
    ensures forall i :: 0 <= i < |vs| ==> Summarize(vs).min <= vs[i] <= Summarize(vs).max
    decreases |vs|
  {
    if |vs| > 1 {
      var p := vs[..|vs| - 1];
      var v := vs[|vs| - 1];
      assert vs == p + [v];
      SummarizeWellFormed(p);
      var s, t := Summarize(p), Summarize(vs);
      AddExtends(p, v);
      AverageStep(s.count, s.min, s.max, s.sum, v, t.min, t.max);
    } else {
      assert vs[..0] == [];
      assert SumOf(vs) == SumOf(vs[..0]) + vs[0];
    }
  }

  /** `Combine` is commutative. */
  lemma CombineCommutative(s: Summary, t: Summary)
    ensures Combine(s, t) == Combine(t, s)
  {
  }

  /** `Combine` is associative. */
  lemma CombineAssociative(s: Summary, t: Summary, u: Summary)
    ensures Combine(Combine(s, t), u) == Combine(s, Combine(t, u))
  {
  }

  /** `Combine` keeps summaries well formed. */
  lemma CombineWellFormed(s: Summary, t: Summary)
    requires WellFormed(s) && WellFormed(t)
    ensures WellFormed(Combine(s, t))
  {
    var r := Combine(s, t);
    AverageJoin(s.count, s.min, s.max, s.sum, t.count, t.min, t.max, t.sum, r.min, r.max);
  }
}
