/**
 * The `slave_attributes` counter: for every slave, a label map built from its PID and the
 * allow-listed attributes, turned into one row of label values and set to 1. Unlike the gauges
 * the counter is never reset, so rows of slaves that left the cluster stay.
 */
module SlaveAttributes {
  import opened Wrappers
  import opened MasterState
  import opened Gauges

  /**
   * The helpers the counter calls that are defined outside `master_state.go`: `normaliseLabel`,
   * `attributeString` (its `err == nil` case is `Some`) and `getLabelValuesFromMap`. They are
   * parameters, and every property below holds whatever they compute.
   */
  datatype Helpers = Helpers(
    normaliseLabel: string -> string,
    attributeString: RawMessage -> Option<string>,
    labelValuesFromMap: (map<string, string>, seq<string>) -> seq<string>)

  /** `normaliseLabelList`: each allow-listed attribute name normalised, in order. */
  function NormaliseLabelList(labels: seq<string>, normalise: string -> string): (r: seq<string>)
    ensures |r| == |labels|
    ensures forall i :: 0 <= i < |labels| ==> r[i] == normalise(labels[i])
  {
    if labels == [] then [] else [normalise(labels[0])] + NormaliseLabelList(labels[1..], normalise)
  }

  /** The label map before attributes are read: `slave` is the PID and every label is "". */
  function Defaults(pid: string, labels: seq<string>): map<string, string> {
    if labels == [] then map["slave" := pid]
    else Defaults(pid, labels[..|labels| - 1])[labels[|labels| - 1] := ""]
  }

  /** One attribute applied to the label map: kept only when allow-listed and a string. */
  function Apply(m: map<string, string>, attribute: (string, RawMessage), labels: seq<string>, h: Helpers): map<string, string> {
    var lbl := h.normaliseLabel(attribute.0);
    if lbl in labels && h.attributeString(attribute.1).Some? then m[lbl := h.attributeString(attribute.1).value]
    else m
  }

  /** The attributes applied to the label map in iteration order. */
  function Overwrite(m: map<string, string>, attributes: seq<(string, RawMessage)>, labels: seq<string>, h: Helpers): map<string, string> {
    if attributes == [] then m
    else Apply(Overwrite(m, attributes[..|attributes| - 1], labels, h), attributes[|attributes| - 1], labels, h)
  }

  /** The finished label map of one slave. */
  function SlaveLabels(s: Slave, labels: seq<string>, h: Helpers): map<string, string> {
    Overwrite(Defaults(s.pid, labels), s.attributes, labels, h)
  }

  /** The loops that build `slaveAttributesExport` for one slave. */
  method BuildSlaveLabels(s: Slave, labels: seq<string>, h: Helpers) returns (m: map<string, string>)
    ensures m == SlaveLabels(s, labels, h)
  {
    m := map["slave" := s.pid];
    for i := 0 to |labels|
      invariant m == Defaults(s.pid, labels[..i])
    {
      assert labels[..i + 1][..i] == labels[..i];
      m := m[labels[i] := ""];
    }
    assert labels[..|labels|] == labels;
    for i := 0 to |s.attributes|
      invariant m == Overwrite(Defaults(s.pid, labels), s.attributes[..i], labels, h)
    {
      assert s.attributes[..i + 1][..i] == s.attributes[..i];
      var (key, value) := s.attributes[i];
      var lbl := h.normaliseLabel(key);
      if lbl in labels {
        var attribute := h.attributeString(value);
        if attribute.Some? {
          m := m[lbl := attribute.value];
        }
      }
    }
    assert s.attributes[..|s.attributes|] == s.attributes;
  }

  lemma {:induction false} DefaultsSpec(pid: string, labels: seq<string>)
    ensures Defaults(pid, labels).Keys == {"slave"} + set i | 0 <= i < |labels| :: labels[i]
    ensures forall l :: l in labels ==> Defaults(pid, labels)[l] == ""
    ensures "slave" !in labels ==> Defaults(pid, labels)["slave"] == pid
  {
    if labels != [] {
      var init := labels[..|labels| - 1];
      DefaultsSpec(pid, init);
      assert (set i | 0 <= i < |labels| :: labels[i]) == (set i | 0 <= i < |init| :: init[i]) + {labels[|labels| - 1]} by {
        forall i | 0 <= i < |init| ensures init[i] == labels[i] { }
      }
      forall l | l in labels && l != labels[|labels| - 1] ensures l in init {
        var i :| 0 <= i < |labels| && labels[i] == l;
        assert init[i] == l;
      }
    }
  }

  /** Applying attributes only ever rewrites allow-listed labels, and only with attribute strings. */
  lemma {:induction false} OverwriteSpec(m: map<string, string>, attributes: seq<(string, RawMessage)>, labels: seq<string>, h: Helpers)
    ensures Overwrite(m, attributes, labels, h).Keys <= m.Keys + set i | 0 <= i < |labels| :: labels[i]
    ensures m.Keys <= Overwrite(m, attributes, labels, h).Keys
    ensures forall k :: k in m && k !in labels ==> Overwrite(m, attributes, labels, h)[k] == m[k]
    ensures forall k :: k in Overwrite(m, attributes, labels, h) ==>
      (k in m && Overwrite(m, attributes, labels, h)[k] == m[k])
      || exists j :: 0 <= j < |attributes| && h.normaliseLabel(attributes[j].0) == k
           && h.attributeString(attributes[j].1) == Some(Overwrite(m, attributes, labels, h)[k])
  {
    if attributes != [] {
      var init := attributes[..|attributes| - 1];
      var last := attributes[|attributes| - 1];
      OverwriteSpec(m, init, labels, h);
      var prev := Overwrite(m, init, labels, h);
      var r := Overwrite(m, attributes, labels, h);
      var lbl := h.normaliseLabel(last.0);
      if lbl in labels {
        var i :| 0 <= i < |labels| && labels[i] == lbl;
      }
      forall k | k in r
        ensures (k in m && r[k] == m[k])
          || exists j :: 0 <= j < |attributes| && h.normaliseLabel(attributes[j].0) == k
               && h.attributeString(attributes[j].1) == Some(r[k])
      {
        if k == lbl && lbl in labels && h.attributeString(last.1).Some? {
          assert h.normaliseLabel(attributes[|attributes| - 1].0) == k;
        } else if !(k in m && prev[k] == m[k]) {
          var j :| 0 <= j < |init| && h.normaliseLabel(init[j].0) == k && h.attributeString(init[j].1) == Some(prev[k]);
          assert attributes[j] == init[j];
        }
      }
    }
  }

  /**
   * The label map of a slave has exactly the keys `slave` and the allow-listed labels; `hostname`
   * is never among them unless it is allow-listed itself.
   */
  lemma SlaveLabelsKeys(s: Slave, labels: seq<string>, h: Helpers)
    ensures SlaveLabels(s, labels, h).Keys == {"slave"} + set i | 0 <= i < |labels| :: labels[i]
    ensures "hostname" !in labels ==> "hostname" !in SlaveLabels(s, labels, h)
  {
    DefaultsSpec(s.pid, labels);
    OverwriteSpec(Defaults(s.pid, labels), s.attributes, labels, h);
  }

  /**
   * Every allow-listed label is present and holds either "" or the string of an attribute whose
   * name normalises to it; `slave` holds the PID when `slave` itself is not allow-listed.
   */
  lemma SlaveLabelsValues(s: Slave, labels: seq<string>, h: Helpers)
    ensures forall l :: l in labels ==>
      && l in SlaveLabels(s, labels, h)
      && (|| SlaveLabels(s, labels, h)[l] == ""
          || exists j :: 0 <= j < |s.attributes| && h.normaliseLabel(s.attributes[j].0) == l
               && h.attributeString(s.attributes[j].1) == Some(SlaveLabels(s, labels, h)[l]))
    ensures "slave" in SlaveLabels(s, labels, h)
    ensures "slave" !in labels ==> SlaveLabels(s, labels, h)["slave"] == s.pid
  {
    DefaultsSpec(s.pid, labels);
    OverwriteSpec(Defaults(s.pid, labels), s.attributes, labels, h);
  }

  /**
   * The value of an allow-listed label is the string of the last attribute that normalises to it
   * and is a string; an attribute whose normalised name no later attribute shares therefore
   * determines its label.
   */
  lemma {:induction false} OverwriteLastWins(m: map<string, string>, attributes: seq<(string, RawMessage)>, labels: seq<string>, h: Helpers, j: nat)
    requires j < |attributes|
    requires h.normaliseLabel(attributes[j].0) in labels && h.attributeString(attributes[j].1).Some?
    requires forall k :: j < k < |attributes| ==>
      h.normaliseLabel(attributes[k].0) != h.normaliseLabel(attributes[j].0) || h.attributeString(attributes[k].1).None?
    ensures h.normaliseLabel(attributes[j].0) in Overwrite(m, attributes, labels, h)
    ensures Overwrite(m, attributes, labels, h)[h.normaliseLabel(attributes[j].0)] == h.attributeString(attributes[j].1).value
  {
    var n := |attributes| - 1;
    if j < n {
      var init := attributes[..n];
      assert init[j] == attributes[j];
      OverwriteLastWins(m, init, labels, h, j);
    }
  }

  /** With no string attribute normalising to an allow-listed label, the label stays "". */
  lemma {:induction false} OverwriteUntouched(m: map<string, string>, attributes: seq<(string, RawMessage)>, labels: seq<string>, h: Helpers, l: string)
    requires l in m
    requires forall k :: 0 <= k < |attributes| ==> h.normaliseLabel(attributes[k].0) != l || h.attributeString(attributes[k].1).None?
    ensures l in Overwrite(m, attributes, labels, h) && Overwrite(m, attributes, labels, h)[l] == m[l]
  {
    if attributes != [] {
      OverwriteUntouched(m, attributes[..|attributes| - 1], labels, h, l);
    }
  }

  /** The last string attribute normalising to an allow-listed label sets it; with none it is "". */
  lemma SlaveLabelOf(s: Slave, labels: seq<string>, h: Helpers, l: string)
    requires l in labels
    ensures l in SlaveLabels(s, labels, h)
    ensures (forall k :: 0 <= k < |s.attributes| ==> h.normaliseLabel(s.attributes[k].0) != l || h.attributeString(s.attributes[k].1).None?)
      ==> SlaveLabels(s, labels, h)[l] == ""
    ensures forall j ::
      (&& 0 <= j < |s.attributes| && h.normaliseLabel(s.attributes[j].0) == l && h.attributeString(s.attributes[j].1).Some?
       && (forall k :: j < k < |s.attributes| ==> h.normaliseLabel(s.attributes[k].0) != l || h.attributeString(s.attributes[k].1).None?))
      ==> SlaveLabels(s, labels, h)[l] == h.attributeString(s.attributes[j].1).value
  {
    DefaultsSpec(s.pid, labels);
    OverwriteSpec(Defaults(s.pid, labels), s.attributes, labels, h);
    var m := Defaults(s.pid, labels);
    if forall k :: 0 <= k < |s.attributes| ==> h.normaliseLabel(s.attributes[k].0) != l || h.attributeString(s.attributes[k].1).None? {
      OverwriteUntouched(m, s.attributes, labels, h, l);
    }
    forall j | 0 <= j < |s.attributes| && h.normaliseLabel(s.attributes[j].0) == l && h.attributeString(s.attributes[j].1).Some?
      && (forall k :: j < k < |s.attributes| ==> h.normaliseLabel(s.attributes[k].0) != l || h.attributeString(s.attributes[k].1).None?)
      ensures SlaveLabels(s, labels, h)[l] == h.attributeString(s.attributes[j].1).value
    {
      OverwriteLastWins(m, s.attributes, labels, h, j);
    }
  }

  /**
   * An allow-listed label that is `slave` itself is blanked by the defaults loop, so unless a
   * string attribute normalising to `slave` sets it, the PID is lost and the label is "".
   */
  lemma SlavePidBlanked(s: Slave, labels: seq<string>, h: Helpers)
    requires "slave" in labels
    requires forall k :: 0 <= k < |s.attributes| ==>
      h.normaliseLabel(s.attributes[k].0) != "slave" || h.attributeString(s.attributes[k].1).None?
    ensures "slave" in SlaveLabels(s, labels, h) && SlaveLabels(s, labels, h)["slave"] == ""
  {
    SlaveLabelOf(s, labels, h, "slave");
  }

  /** `settableCounterVec`: rows keyed by label values, each set to an explicit value. */
  class CounterVec {
    const subsystem: string
    const name: string
    const help: string
    const labelNames: seq<string>
    var rows: map<seq<string>, real>

    /** `counter(subsystem, name, help, labels...)`: a vector with no rows. */
    constructor (subsystem: string, name: string, help: string, labelNames: seq<string>)
      ensures this.subsystem == subsystem && this.name == name && this.help == help
      ensures this.labelNames == labelNames && rows == map[]
    {
      this.subsystem := subsystem;
      this.name := name;
      this.help := help;
      this.labelNames := labelNames;
      rows := map[];
    }

    /** `Set(v, lvs...)`: creates or overwrites one row. */
    method Set(v: real, lvs: seq<string>)
      modifies this
      ensures rows == old(rows)[lvs := v]
    {
      rows := rows[lvs := v];
    }
  }

  /** The row a slave is counted under: its label map read in export-label order. */
  function RowKey(labels: seq<string>, exportLabels: seq<string>, h: Helpers): Slave -> seq<string> {
    s => h.labelValuesFromMap(SlaveLabels(s, labels, h), exportLabels)
  }

  /** Every row the closure writes is set to 1. */
  function One(s: Slave): real {
    1.0
  }

  /**
   * The counter closure: for each slave, build its label map and set its row to 1. The vector is
   * not reset, so the new rows are laid over the old ones.
   */
  method ExtractAttributes(c: CounterVec, slaves: seq<Slave>, labels: seq<string>, exportLabels: seq<string>, h: Helpers)
    modifies c
    ensures c.rows == old(c.rows) + Populate(slaves, RowKey(labels, exportLabels, h), One)
  {
    for i := 0 to |slaves|
      invariant c.rows == old(c.rows) + Populate(slaves[..i], RowKey(labels, exportLabels, h), One)
    {
      assert slaves[..i + 1][..i] == slaves[..i];
      var m := BuildSlaveLabels(slaves[i], labels, h);
      c.Set(1.0, h.labelValuesFromMap(m, exportLabels));
    }
    assert slaves[..|slaves|] == slaves;
  }

  /**
   * A pass adds one row per slave, each with value 1, and keeps every earlier row: rows of slaves
   * missing from the snapshot are never removed, and the rows of slaves it holds are 1 again.
   */
  lemma AttributeRowsSpec(rows: map<seq<string>, real>, slaves: seq<Slave>, labels: seq<string>, exportLabels: seq<string>, h: Helpers)
    ensures (rows + Populate(slaves, RowKey(labels, exportLabels, h), One)).Keys
         == rows.Keys + set i | 0 <= i < |slaves| :: RowKey(labels, exportLabels, h)(slaves[i])
    ensures forall i :: 0 <= i < |slaves| ==>
      (rows + Populate(slaves, RowKey(labels, exportLabels, h), One))[RowKey(labels, exportLabels, h)(slaves[i])] == 1.0
    ensures forall k :: k in rows && k !in Populate(slaves, RowKey(labels, exportLabels, h), One) ==>
      (rows + Populate(slaves, RowKey(labels, exportLabels, h), One))[k] == rows[k]
  {
    PopulateKeys(slaves, RowKey(labels, exportLabels, h), One);
    PopulateValues(slaves, RowKey(labels, exportLabels, h), One);
  }
}
