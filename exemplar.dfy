/** Exemplar rows: a reusable row filled from a Prometheus exemplar, and the
    raw exemplar record handed to the part's exemplar marshaler. */
module Exemplars {
  import opened StorageTypes

  /** The storage tag a wire label becomes: name as key, value as value. */
  function TagOf(l: PromLabel): Tag
  {
    Tag(l.Name, l.Value)
  }

  /** The labels of a row initialised from `ls`: one tag per label, in order.
      Built by appending at the end, as the initialisation loop does. */
  function TagsFromLabels(ls: seq<PromLabel>): (ts: seq<Tag>)
    ensures |ts| == |ls|
    ensures forall i :: 0 <= i < |ls| ==> ts[i].Key == ls[i].Name && ts[i].Value == ls[i].Value
  {
    if ls == [] then [] else TagsFromLabels(ls[..|ls| - 1]) + [TagOf(ls[|ls| - 1])]
  }

  /** An exemplar after series resolution, as the exemplar marshaler receives it. */
  datatype RawExemplar = RawExemplar(TSID: TSID, Labels: seq<Tag>, Timestamp: int64, Value: float64, PrecisionBits: uint8)

  /** A row that is reused across exemplars. Its label slice is a backing
      array `labels` (whose length is the slice's capacity) and a length
      `labelsLen`. */
  class ExemplarRow {
    var MetricNameRaw: seq<byte>
    var labels: array<Tag>
    var labelsLen: nat
    var Timestamp: int64
    var Value: float64

    /** The slice fits its backing array, and no slot past the slice's end
        keeps label bytes from an earlier use of the row. */
    ghost predicate Valid()
      reads this, labels
    {
      labelsLen <= labels.Length &&
      forall k :: labelsLen <= k < labels.Length ==> labels[k] == EmptyTag
    }

    /** The row's labels, `e.Labels`. */
    ghost function Labels(): seq<Tag>
      reads this, labels
      requires Valid()
    {
      labels[..labelsLen]
    }

    /** The capacity of the label slice, `cap(e.Labels)`. */
    function Cap(): nat
      reads this
    {
      labels.Length
    }

    /** The zero row: no metric name, a nil label slice, zero timestamp and value. */
    constructor ()
      ensures Valid() && fresh(labels)
      ensures MetricNameRaw == [] && Labels() == [] && Cap() == 0 && Timestamp == 0 && Value == 0
    {
      MetricNameRaw := [];
      labels := new Tag[0];
      labelsLen := 0;
      Timestamp := 0;
      Value := 0;
    }

    /** The first step of `InitFromPB`: every tag in the slice is reset, so
        the backing array holds only empty tags. */
    method ResetLabels()
      requires Valid()
      modifies labels
      ensures forall k :: 0 <= k < labels.Length ==> labels[k] == EmptyTag
    {
      var i := 0;
      while i < labelsLen
        invariant 0 <= i <= labelsLen <= labels.Length
        invariant forall k :: 0 <= k < i ==> labels[k] == EmptyTag
        invariant forall k :: labelsLen <= k < labels.Length ==> labels[k] == EmptyTag
      {
        labels[i] := EmptyTag;
        i := i + 1;
      }
    }

    /** Extends the full-capacity slice by `n` zero tags. This allocates a
        new backing array; the tags copied over from the old one are all
        empty after `ResetLabels`, so every slot of the new array is empty. */
    method GrowLabels(n: nat)
      requires forall k :: 0 <= k < labels.Length ==> labels[k] == EmptyTag
      modifies this`labels
      ensures fresh(labels) && labels.Length == old(labels.Length) + n
      ensures forall k :: 0 <= k < labels.Length ==> labels[k] == EmptyTag
    {
      labels := new Tag[labels.Length + n](k => EmptyTag);
    }

    /** Appends one tag per wire label to the empty slice, in order. The
        labels fit the capacity, so the backing array is written in place. */
    method AppendLabels(ls: seq<PromLabel>)
      requires labelsLen == 0 && |ls| <= labels.Length
      requires forall k :: 0 <= k < labels.Length ==> labels[k] == EmptyTag
      modifies this`labelsLen, labels
      ensures Valid()
      ensures Labels() == TagsFromLabels(ls)
    {
      var j := 0;
      while j < |ls|
        invariant 0 <= j <= |ls| <= labels.Length
        invariant labelsLen == j
        invariant forall k :: 0 <= k < j ==> labels[k] == TagOf(ls[k])
        invariant forall k :: j <= k < labels.Length ==> labels[k] == EmptyTag
      {
        var lbl := ls[j];
        labels[j] := Tag(lbl.Name, lbl.Value);
        labelsLen := j + 1;
        j := j + 1;
      }
      ghost var tags := TagsFromLabels(ls);
      assert forall k :: 0 <= k < |tags| ==> labels[..labelsLen][k] == tags[k];
    }

    /** Fills the row from `rawExemplar`, reusing its label storage. */
    method InitFromPB(metricNameRaw: seq<byte>, rawExemplar: PromExemplar)
      requires Valid()
      modifies this, labels
      ensures Valid()
      ensures Labels() == TagsFromLabels(rawExemplar.Labels)
      ensures MetricNameRaw == metricNameRaw
      ensures Timestamp == rawExemplar.Timestamp && Value == rawExemplar.Value
      ensures Cap() >= |rawExemplar.Labels| && Cap() >= old(Cap())
      ensures |rawExemplar.Labels| <= old(Cap()) ==> labels == old(labels)
      ensures |rawExemplar.Labels| > old(Cap()) ==> fresh(labels) && Cap() == |rawExemplar.Labels|
    {
      ResetLabels();

      MetricNameRaw := metricNameRaw;
      var n := |rawExemplar.Labels| - labels.Length;
      if n > 0 {
        GrowLabels(n);
      }
      labelsLen := 0;
      AppendLabels(rawExemplar.Labels);

      Timestamp := rawExemplar.Timestamp;
      Value := rawExemplar.Value;
    }
  }

  /** Re-initialising a used row yields the same contents as initialising a
      fresh one: nothing of the row's earlier labels shows through. */
  method ReinitMatchesFresh(used: ExemplarRow, metricNameRaw: seq<byte>, rawExemplar: PromExemplar)
    returns (newRow: ExemplarRow)
    requires used.Valid()
    modifies used, used.labels
    ensures used.Valid() && newRow.Valid()
    ensures used.Labels() == newRow.Labels()
    ensures used.MetricNameRaw == newRow.MetricNameRaw
    ensures used.Timestamp == newRow.Timestamp && used.Value == newRow.Value
  {
    used.InitFromPB(metricNameRaw, rawExemplar);
    newRow := new ExemplarRow();
    newRow.InitFromPB(metricNameRaw, rawExemplar);
  }
}
