/** The status classifier: per-status counts of a batch (pandas' value_counts on
    the `status` column), the proportions derived from them, and the
    case-insensitive counts served by the plain-number status endpoints.
    A batch is seen here through its sequence of status strings. */
module Classifier {
  import opened Text

  /** Number of records whose status is exactly `s` (case-sensitive). */
  function Count(statuses: seq<string>, s: string): (n: nat)
    ensures n <= |statuses|
    ensures n > 0 <==> s in statuses
  {
    if statuses == [] then 0
    else
      var init := statuses[..|statuses| - 1];
      assert s in statuses <==> s in init || s == statuses[|statuses| - 1];
      Count(init, s) + (if statuses[|statuses| - 1] == s then 1 else 0)
  }

  lemma {:induction false} CountIsMultiplicity(statuses: seq<string>, s: string)
    ensures Count(statuses, s) == multiset(statuses)[s]
  {
    if statuses != [] {
      var init := statuses[..|statuses| - 1];
      assert statuses == init + [statuses[|statuses| - 1]];
      CountIsMultiplicity(init, s);
    }
  }

  lemma {:induction false} CountAppend(a: seq<string>, b: seq<string>, s: string)
    ensures Count(a + b, s) == Count(a, s) + Count(b, s)
    decreases |b|
  {
    if b != [] {
      var binit := b[..|b| - 1];
      assert (a + b)[..|a + b| - 1] == a + binit;
      CountAppend(a, binit, s);
    } else {
      assert a + b == a;
    }
  }

  predicate Distinct(keys: seq<string>)
  {
    forall i, j :: 0 <= i < j < |keys| ==> keys[i] != keys[j]
  }

  /** The statuses that occur in the batch, each once, in order of first occurrence. */
  function Observed(statuses: seq<string>): (keys: seq<string>)
    ensures forall s :: s in keys <==> s in statuses
    ensures Distinct(keys)
  {
    if statuses == [] then []
    else
      var init := statuses[..|statuses| - 1];
      var last := statuses[|statuses| - 1];
      var keys := Observed(init);
      assert forall s :: s in statuses <==> s in init || s == last;
      if last in keys then keys else keys + [last]
  }

  /** value_counts: every status that occurs, mapped to its number of occurrences. */
  function ValueCounts(statuses: seq<string>): (counts: map<string, nat>)
    ensures forall s :: s in counts <==> s in statuses
    ensures forall s :: s in counts ==> 0 < counts[s] <= |statuses|
  {
    map s | s in statuses :: Count(statuses, s)
  }

  /** The percentages dict: each count divided by the batch size. */
  function Proportions(counts: map<string, nat>, total: nat): (p: map<string, real>)
    requires total > 0
    ensures p.Keys == counts.Keys
    ensures forall s :: s in p ==> p[s] >= 0.0 && p[s] * total as real == counts[s] as real
  {
    map s | s in counts :: counts[s] as real / total as real
  }

  /** Sum of the counts of the listed keys. */
  function SumCounts(counts: map<string, nat>, keys: seq<string>): nat
    requires forall k :: k in keys ==> k in counts
  {
    if keys == [] then 0
    else SumCounts(counts, keys[..|keys| - 1]) + counts[keys[|keys| - 1]]
  }

  /** Sum of the proportions of the listed keys. */
  function SumProportions(p: map<string, real>, keys: seq<string>): real
    requires forall k :: k in keys ==> k in p
  {
    if keys == [] then 0.0
    else SumProportions(p, keys[..|keys| - 1]) + p[keys[|keys| - 1]]
  }

  /** Sum of the exact counts of the listed keys, read off the batch itself. */
  function SumOccurrences(statuses: seq<string>, keys: seq<string>): nat
  {
    if keys == [] then 0
    else SumOccurrences(statuses, keys[..|keys| - 1]) + Count(statuses, keys[|keys| - 1])
  }

  lemma {:induction false} SumCountsOccurrences(statuses: seq<string>, keys: seq<string>)
    requires forall k :: k in keys ==> k in statuses
    ensures forall k :: k in keys ==> k in ValueCounts(statuses)
    ensures SumCounts(ValueCounts(statuses), keys) == SumOccurrences(statuses, keys)
  {
    if keys != [] {
      SumCountsOccurrences(statuses, keys[..|keys| - 1]);
    }
  }

  /** One more record with status `x` raises the summed counts of `keys` by the
      number of times `x` is listed in `keys`. */
  lemma {:induction false} SumOccurrencesSnoc(init: seq<string>, x: string, keys: seq<string>)
    ensures SumOccurrences(init + [x], keys) == SumOccurrences(init, keys) + Count(keys, x)
  {
    if keys != [] {
      var k := keys[|keys| - 1];
      SumOccurrencesSnoc(init, x, keys[..|keys| - 1]);
      assert (init + [x])[..|init|] == init;
      assert Count(init + [x], k) == Count(init, k) + (if x == k then 1 else 0);
    }
  }

  lemma {:induction false} CountDistinct(keys: seq<string>, x: string)
    requires Distinct(keys)
    ensures Count(keys, x) == if x in keys then 1 else 0
  {
    if keys != [] {
      var kinit := keys[..|keys| - 1];
      assert Distinct(kinit);
      CountDistinct(kinit, x);
      assert keys[|keys| - 1] !in kinit;
    }
  }

  /** The counts of all observed statuses add up to the batch size. */
  lemma {:induction false} CountsSumToTotal(statuses: seq<string>)
    ensures SumCounts(ValueCounts(statuses), Observed(statuses)) == |statuses|
  {
    SumCountsOccurrences(statuses, Observed(statuses));
    OccurrencesSumToTotal(statuses);
  }

  lemma {:induction false} OccurrencesSumToTotal(statuses: seq<string>)
    ensures SumOccurrences(statuses, Observed(statuses)) == |statuses|
  {
    if statuses != [] {
      var init := statuses[..|statuses| - 1];
      var x := statuses[|statuses| - 1];
      assert statuses == init + [x];
      var kinit := Observed(init);
      var keys := Observed(statuses);
      OccurrencesSumToTotal(init);
      if x in kinit {
        SumOccurrencesSnoc(init, x, kinit);
        CountDistinct(kinit, x);
      } else {
        assert keys == kinit + [x];
        assert keys[..|keys| - 1] == kinit;
        SumOccurrencesSnoc(init, x, kinit);
        CountDistinct(kinit, x);
        assert Count(init, x) == 0;
      }
    }
  }

  lemma {:induction false} SumProportionsScaled(counts: map<string, nat>, total: nat, keys: seq<string>)
    requires total > 0
    requires forall k :: k in keys ==> k in counts
    ensures SumProportions(Proportions(counts, total), keys)
         == SumCounts(counts, keys) as real / total as real
  {
    if keys != [] {
      var kinit, k := keys[..|keys| - 1], keys[|keys| - 1];
      SumProportionsScaled(counts, total, kinit);
      AddRatios(SumCounts(counts, kinit), counts[k], total);
    }
  }

  lemma AddRatios(a: nat, b: nat, n: nat)
    requires n > 0
    ensures a as real / n as real + b as real / n as real == (a + b) as real / n as real
  {
  }

  lemma RatioOfEqual(a: nat, n: nat)
    requires n > 0 && a == n
    ensures a as real / n as real == 1.0
  {
  }

  /** The proportions of the observed statuses of a non-empty batch add up to one. */
  lemma ProportionsSumToOne(statuses: seq<string>)
    requires |statuses| > 0
    ensures SumProportions(Proportions(ValueCounts(statuses), |statuses|), Observed(statuses)) == 1.0
  {
    var counts, n, keys := ValueCounts(statuses), |statuses|, Observed(statuses);
    assert forall k :: k in keys ==> k in counts;
    SumProportionsScaled(counts, n, keys);
    CountsSumToTotal(statuses);
    RatioOfEqual(SumCounts(counts, keys), n);
  }

  /** The plain-number status endpoints: how many records have a status that,
      lower-cased, equals `name`. */
  function CountFolded(statuses: seq<string>, name: string): (n: nat)
    ensures n <= |statuses|
  {
    if statuses == [] then 0
    else
      CountFolded(statuses[..|statuses| - 1], name)
      + (if Lower(statuses[|statuses| - 1]) == name then 1 else 0)
  }

  /** Lower-casing every status first and then counting exactly gives the endpoint count. */
  lemma {:induction false} CountFoldedIsCountOfLowered(statuses: seq<string>, name: string)
    ensures CountFolded(statuses, name)
         == Count(seq(|statuses|, i requires 0 <= i < |statuses| => Lower(statuses[i])), name)
  {
    var lowered := seq(|statuses|, i requires 0 <= i < |statuses| => Lower(statuses[i]));
    if statuses != [] {
      var init := statuses[..|statuses| - 1];
      CountFoldedIsCountOfLowered(init, name);
      assert lowered[..|lowered| - 1]
          == seq(|init|, i requires 0 <= i < |init| => Lower(init[i]));
    }
  }

  /** For a lower-case name the endpoint count includes every exact match, so it is
      never below the classifier's count. */
  lemma {:induction false} CountFoldedCoversCount(statuses: seq<string>, name: string)
    requires IsLowerCase(name)
    ensures Count(statuses, name) <= CountFolded(statuses, name)
  {
    if statuses != [] {
      CountFoldedCoversCount(statuses[..|statuses| - 1], name);
      LowerIsLowerCase(name);
    }
  }

  /** When every stored status is already lower case, both counts agree. */
  lemma {:induction false} CountFoldedOfLowerCase(statuses: seq<string>, name: string)
    requires forall i :: 0 <= i < |statuses| ==> IsLowerCase(statuses[i])
    ensures CountFolded(statuses, name) == Count(statuses, name)
  {
    if statuses != [] {
      CountFoldedOfLowerCase(statuses[..|statuses| - 1], name);
      LowerIsLowerCase(statuses[|statuses| - 1]);
    }
  }
}
