/**
 * A Prometheus gauge vector reduced to what the collector relies on: a map from label-value
 * tuples to values, with `Reset` and `WithLabelValues(...).Set`, and the reset-then-populate
 * extraction every fixed metric of the master collector performs.
 */
module Gauges {

  /** One value per label name of a vector, in label-name order. */
  type LabelValues = seq<string>

  /** `prometheus.GaugeOpts`: the name parts and help text fixed at registration. */
  datatype Opts = Opts(namespace: string, subsystem: string, name: string, help: string)

  /** `prometheus.GaugeVec`: the series it currently holds, keyed by label values. */
  class GaugeVec {
    const opts: Opts
    const labelNames: seq<string>
    var values: map<LabelValues, real>

    /** `prometheus.NewGaugeVec`: a vector with no series. */
    constructor (opts: Opts, labelNames: seq<string>)
      ensures this.opts == opts && this.labelNames == labelNames && values == map[]
    {
      this.opts := opts;
      this.labelNames := labelNames;
      values := map[];
    }

    /** `Reset`: deletes every series. */
    method Reset()
      modifies this
      ensures values == map[]
    {
      values := map[];
    }

    /**
     * `WithLabelValues(lvs...).Set(v)`: creates the series if it is missing and sets it. The
     * label-value count must match the label names (Prometheus panics otherwise).
     */
    method Set(lvs: LabelValues, v: real)
      requires |lvs| == |labelNames|
      modifies this
      ensures values == old(values)[lvs := v]
    {
      values := values[lvs := v];
    }
  }

  /** The series of a vector that was reset and then set once per entity, in entity order. */
  function Populate<E>(entities: seq<E>, key: E -> LabelValues, value: E -> real): map<LabelValues, real> {
    if entities == [] then map[]
    else
      var e := entities[|entities| - 1];
      Populate(entities[..|entities| - 1], key, value)[key(e) := value(e)]
  }

  /**
   * One extraction closure: `Reset()`, then for each entity of the snapshot
   * `WithLabelValues(key(e)...).Set(value(e))`.
   */
  method Extract<E>(g: GaugeVec, entities: seq<E>, key: E -> LabelValues, value: E -> real)
    requires forall i :: 0 <= i < |entities| ==> |key(entities[i])| == |g.labelNames|
    modifies g
    ensures g.values == Populate(entities, key, value)
  {
    g.Reset();
    for i := 0 to |entities|
      invariant g.values == Populate(entities[..i], key, value)
    {
      assert entities[..i + 1][..i] == entities[..i];
      g.Set(key(entities[i]), value(entities[i]));
    }
    assert entities[..|entities|] == entities;
  }

  /**
   * After an extraction the vector holds exactly one series per distinct entity key: series of
   * entities absent from the snapshot are gone, and an empty snapshot leaves no series.
   */
  lemma {:induction false} PopulateKeys<E>(entities: seq<E>, key: E -> LabelValues, value: E -> real)
    ensures Populate(entities, key, value).Keys == set i | 0 <= i < |entities| :: key(entities[i])
  {
    if entities != [] {
      var init := entities[..|entities| - 1];
      PopulateKeys(init, key, value);
      assert (set i | 0 <= i < |entities| :: key(entities[i]))
          == (set i | 0 <= i < |init| :: key(init[i])) + {key(entities[|entities| - 1])} by {
        forall i | 0 <= i < |init| ensures init[i] == entities[i] { }
      }
    }
  }

  /** When several entities share a key, the series holds the value of the last of them. */
  lemma {:induction false} PopulateLastWins<E>(entities: seq<E>, key: E -> LabelValues, value: E -> real, j: nat)
    requires j < |entities|
    requires forall k :: j < k < |entities| ==> key(entities[k]) != key(entities[j])
    ensures key(entities[j]) in Populate(entities, key, value)
    ensures Populate(entities, key, value)[key(entities[j])] == value(entities[j])
  {
    var n := |entities| - 1;
    if j < n {
      var init := entities[..n];
      assert init[j] == entities[j];
      PopulateLastWins(init, key, value, j);
    }
  }

  /** Every series holds the value of some entity carrying its key. */
  lemma {:induction false} PopulateValues<E>(entities: seq<E>, key: E -> LabelValues, value: E -> real)
    ensures forall k :: k in Populate(entities, key, value) ==>
      exists i :: 0 <= i < |entities| && key(entities[i]) == k && value(entities[i]) == Populate(entities, key, value)[k]
  {
    if entities != [] {
      var init := entities[..|entities| - 1];
      PopulateValues(init, key, value);
      forall k | k in Populate(entities, key, value)
        ensures exists i :: 0 <= i < |entities| && key(entities[i]) == k && value(entities[i]) == Populate(entities, key, value)[k]
      {
        var n := |entities| - 1;
        if k == key(entities[n]) {
          assert value(entities[n]) == Populate(entities, key, value)[k];
        } else {
          var m := Populate(init, key, value);
          assert k in m && Populate(entities, key, value)[k] == m[k];
          var i :| 0 <= i < |init| && key(init[i]) == k && value(init[i]) == m[k];
          assert entities[i] == init[i];
        }
      }
    }
  }
}
