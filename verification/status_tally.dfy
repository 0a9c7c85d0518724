/** Counting jobs per distinct `lastResult`: a map from each status that
    occurs to the number of jobs reporting it, with no ordering. */
module StatusTally {

  /** Number of occurrences of each distinct string in `statuses`. */
  function Tally(statuses: seq<string>): (m: map<string, nat>)
    ensures forall s :: s in m <==> s in statuses
    ensures forall s :: s in m ==> m[s] == multiset(statuses)[s] && m[s] > 0
  {
    if |statuses| == 0 then map[]
    else
      var prefix := statuses[..|statuses| - 1];
      var s := statuses[|statuses| - 1];
      assert statuses == prefix + [s];
      var m := Tally(prefix);
      m[s := (if s in m then m[s] else 0) + 1]
  }

  /** Some key of a non-empty map. */
  ghost function Pick(m: map<string, nat>): (k: string)
    requires |m| > 0
    ensures k in m
  {
    var k :| k in m; k
  }

  /** Sum of the values of a map, keys taken in any order. */
  ghost function SumValues(m: map<string, nat>): nat
    decreases |m|
  {
    if |m| == 0 then 0
    else
      var k := Pick(m);
      assert |m.Keys - {k}| == |m.Keys| - 1;
      m[k] + SumValues(m - {k})
  }

  /** The sum does not depend on which key is taken first. */
  lemma {:induction false} SumValuesRemove(m: map<string, nat>, k: string)
    requires k in m
    ensures SumValues(m) == m[k] + SumValues(m - {k})
    decreases |m|
  {
    var k' := Pick(m);
    if k' != k {
      var mk' := m - {k'};
      var mk := m - {k};
      assert |mk'.Keys| == |m.Keys| - 1;
      assert |mk.Keys| == |m.Keys| - 1;
      SumValuesRemove(mk', k);
      SumValuesRemove(mk, k');
      assert mk' - {k} == mk - {k'};
    }
  }

  /** Counting one more occurrence of `s` adds one to the sum. */
  lemma {:induction false} SumValuesIncrement(m: map<string, nat>, s: string)
    ensures SumValues(m[s := (if s in m then m[s] else 0) + 1]) == SumValues(m) + 1
  {
    var m' := m[s := (if s in m then m[s] else 0) + 1];
    SumValuesRemove(m', s);
    if s in m {
      SumValuesRemove(m, s);
      assert m' - {s} == m - {s};
    } else {
      assert m' - {s} == m;
    }
  }

  /** The counts of all statuses add up to the number of statuses counted. */
  lemma {:induction false} TallySum(statuses: seq<string>)
    ensures SumValues(Tally(statuses)) == |statuses|
  {
    if |statuses| > 0 {
      var prefix := statuses[..|statuses| - 1];
      var s := statuses[|statuses| - 1];
      var m := Tally(prefix);
      var m' := m[s := (if s in m then m[s] else 0) + 1];
      assert Tally(statuses) == m';
      TallySum(prefix);
      assert SumValues(m) == |prefix|;
      SumValuesIncrement(m, s);
      assert SumValues(m') == SumValues(m) + 1;
    }
  }
}
