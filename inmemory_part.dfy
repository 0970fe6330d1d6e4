/** The in-memory part: six byte buffers, a header and a creation time, filled
    from a batch of rows by the row marshaler and the exemplar marshaler.

    The block encoder behind the row marshaler is not part of this model: what
    it produces for a batch is an input, `RowsEncoding`. The clock reading
    stamped as the creation time is an input too. */
module Parts {
  import opened StorageTypes
  import opened Exemplars

  /** What the block encoder produces for one batch of rows: the new header and
      the bytes it writes to each of the four metric buffers. */
  datatype RowsEncoding = RowsEncoding(
    Header: PartHeader,
    Timestamps: seq<byte>,
    Values: seq<byte>,
    Index: seq<byte>,
    Metaindex: seq<byte>)

  /** The value of an in-memory part's fields at one moment. */
  datatype PartState = PartState(
    ph: PartHeader,
    timestampsData: seq<byte>,
    valuesData: seq<byte>,
    indexData: seq<byte>,
    metaindexData: seq<byte>,
    exemplarData: seq<byte>,
    exemplarIndexData: seq<byte>,
    creationTime: uint64)
  {
    /** The header is the reset header, and the four metric buffers and the
        creation time are zero; the exemplar buffers may hold anything. */
    predicate IsReset() {
      ph == ResetHeader &&
      timestampsData == [] && valuesData == [] && indexData == [] && metaindexData == [] &&
      creationTime == 0
    }

    /** The exemplar payload and exemplar index buffers are both empty. */
    predicate ExemplarBuffersEmpty() {
      exemplarData == [] && exemplarIndexData == []
    }

    /** The size `NewPart` reports: the total length of all six buffers. */
    function Size(): nat {
      |timestampsData| + |valuesData| + |indexData| + |metaindexData|
      + |exemplarData| + |exemplarIndexData|
    }

    /** Reset: the header is reset, four of the six buffers are truncated and
        the creation time is zeroed. The two exemplar buffers are not touched. */
    function Reset(): (r: PartState)
      ensures r.IsReset()
      ensures r.exemplarData == exemplarData && r.exemplarIndexData == exemplarIndexData
    {
      this.(ph := ResetHeader,
            timestampsData := [], valuesData := [], indexData := [], metaindexData := [],
            creationTime := 0)
    }

    /** The row marshaler's effect: it sets the header and appends the
        encoder's bytes to the four metric buffers. */
    function MarshalRows(enc: RowsEncoding): (r: PartState)
      ensures r.ph == enc.Header
      ensures r.timestampsData == timestampsData + enc.Timestamps
      ensures r.valuesData == valuesData + enc.Values
      ensures r.indexData == indexData + enc.Index
      ensures r.metaindexData == metaindexData + enc.Metaindex
      ensures r.exemplarData == exemplarData && r.exemplarIndexData == exemplarIndexData
      ensures r.creationTime == creationTime
    {
      this.(ph := enc.Header,
            timestampsData := timestampsData + enc.Timestamps,
            valuesData := valuesData + enc.Values,
            indexData := indexData + enc.Index,
            metaindexData := metaindexData + enc.Metaindex)
    }

    /** Initialisation from a non-empty batch: reset, marshal the rows, marshal
        the exemplars (which writes nothing), stamp the clock reading `now`.
        The metric buffers end up holding exactly the encoder's output, and the
        exemplar buffers are carried over from before. */
    function InitFromRowsWithExemplars(rows: seq<RawRow>, exemplars: seq<RawExemplar>,
                                       enc: RowsEncoding, now: uint64): (r: PartState)
      requires |rows| > 0
      ensures r.ph == enc.Header
      ensures r.timestampsData == enc.Timestamps && r.valuesData == enc.Values
      ensures r.indexData == enc.Index && r.metaindexData == enc.Metaindex
      ensures r.exemplarData == exemplarData && r.exemplarIndexData == exemplarIndexData
      ensures r.creationTime == now
    {
      Reset().MarshalRows(enc).(creationTime := now)
    }
  }

  /** The state of a newly allocated part, `&inmemoryPart{}`. */
  const ZeroPart: PartState := PartState(ZeroHeader, [], [], [], [], [], [], 0)

  /** A reset forgets everything but the exemplar buffers: two parts are
      equal after a reset exactly when their exemplar buffers were. In
      particular a reset used part equals a reset newly allocated one exactly
      when its exemplar buffers are empty. */
  lemma ResetForgetsAllButExemplarBuffers(s: PartState, t: PartState)
    ensures s.Reset() == t.Reset() <==>
            s.exemplarData == t.exemplarData && s.exemplarIndexData == t.exemplarIndexData
  {
  }

  /** Resetting twice is resetting once. */
  lemma ResetIsIdempotent(s: PartState)
    ensures s.Reset().Reset() == s.Reset()
  {
  }

  /** Initialising a used part gives the same state as initialising a newly
      allocated one exactly when the used part's exemplar buffers are empty:
      nothing else of the earlier contents survives. */
  lemma InitMatchesZeroPartIff(s: PartState, rows: seq<RawRow>, exemplars: seq<RawExemplar>,
                               enc: RowsEncoding, now: uint64)
    requires |rows| > 0
    ensures s.InitFromRowsWithExemplars(rows, exemplars, enc, now)
            == ZeroPart.InitFromRowsWithExemplars(rows, exemplars, enc, now)
            <==> s.ExemplarBuffersEmpty()
  {
  }

  /** The operations that change a part after it is allocated: `Reset` (also
      what returning it to the pool does) and initialisation from a batch. */
  datatype PartOp =
    | ResetOp
    | InitOp(rows: seq<RawRow>, exemplars: seq<RawExemplar>, enc: RowsEncoding, now: uint64)

  /** An operation a caller may issue: initialisation needs a non-empty batch. */
  predicate Callable(op: PartOp) {
    op.InitOp? ==> |op.rows| > 0
  }

  function Apply(s: PartState, op: PartOp): PartState
    requires Callable(op)
  {
    match op
    case ResetOp => s.Reset()
    case InitOp(rows, exemplars, enc, now) => s.InitFromRowsWithExemplars(rows, exemplars, enc, now)
  }

  /** The state after the operations `ops`, in order. */
  function ApplyAll(s: PartState, ops: seq<PartOp>): PartState
    requires forall i :: 0 <= i < |ops| ==> Callable(ops[i])
    decreases |ops|
  {
    if ops == [] then s else ApplyAll(Apply(s, ops[0]), ops[1..])
  }

  /** No sequence of resets and initialisations ever changes the exemplar
      buffers: whatever they held is carried over. */
  lemma {:induction false} ExemplarBuffersCarryOver(s: PartState, ops: seq<PartOp>)
    requires forall i :: 0 <= i < |ops| ==> Callable(ops[i])
    ensures ApplyAll(s, ops).exemplarData == s.exemplarData
    ensures ApplyAll(s, ops).exemplarIndexData == s.exemplarIndexData
    decreases |ops|
  {
    if ops != [] {
      ExemplarBuffersCarryOver(Apply(s, ops[0]), ops[1..]);
    }
  }

  /** Starting from a newly allocated part, the exemplar buffers stay empty
      whatever is done to it. */
  lemma {:induction false} ExemplarBuffersStayEmpty(ops: seq<PartOp>)
    requires forall i :: 0 <= i < |ops| ==> Callable(ops[i])
    ensures ApplyAll(ZeroPart, ops).ExemplarBuffersEmpty()
  {
    ExemplarBuffersCarryOver(ZeroPart, ops);
  }

  /** The number of bytes the block encoder produced. */
  function EncodedSize(enc: RowsEncoding): nat {
    |enc.Timestamps| + |enc.Values| + |enc.Index| + |enc.Metaindex|
  }

  /** After initialisation the size is the encoder's output plus whatever the
      exemplar buffers carried over: a reused part counts stale exemplar bytes. */
  lemma InitSizeCountsCarriedExemplarBytes(s: PartState, rows: seq<RawRow>, exemplars: seq<RawExemplar>,
                                           enc: RowsEncoding, now: uint64)
    requires |rows| > 0
    ensures s.InitFromRowsWithExemplars(rows, exemplars, enc, now).Size()
            == EncodedSize(enc) + |s.exemplarData| + |s.exemplarIndexData|
  {
  }

  /** For a part that started newly allocated, the size counts metric bytes
      only, whatever was done to it; right after an initialisation it is
      exactly the encoder's output. */
  lemma {:induction false} SizeCountsMetricBytesOnly(ops: seq<PartOp>)
    requires forall i :: 0 <= i < |ops| ==> Callable(ops[i])
    ensures var r := ApplyAll(ZeroPart, ops);
            r.Size() == |r.timestampsData| + |r.valuesData| + |r.indexData| + |r.metaindexData|
    ensures ops != [] && ops[|ops| - 1].InitOp? ==>
            ApplyAll(ZeroPart, ops).Size() == EncodedSize(ops[|ops| - 1].enc)
  {
    ExemplarBuffersStayEmpty(ops);
    if ops != [] && ops[|ops| - 1].InitOp? {
      ApplyAllLast(ZeroPart, ops);
    }
  }

  /** The state after `ops` is the last operation applied to the state after
      all the others. */
  lemma {:induction false} ApplyAllLast(s: PartState, ops: seq<PartOp>)
    requires ops != []
    requires forall i :: 0 <= i < |ops| ==> Callable(ops[i])
    ensures ApplyAll(s, ops) == Apply(ApplyAll(s, ops[..|ops| - 1]), ops[|ops| - 1])
    decreases |ops|
  {
    if |ops| > 1 {
      ApplyAllLast(Apply(s, ops[0]), ops[1..]);
      assert ops[1..][..|ops| - 2] == ops[..|ops| - 1][1..];
    }
  }

  /** What `newPart` receives from an in-memory part: a copy of the header,
      the total size and the six buffers. */
  datatype Part = Part(
    Header: PartHeader,
    Size: nat,
    TimestampsData: seq<byte>,
    ValuesData: seq<byte>,
    IndexData: seq<byte>,
    MetaindexData: seq<byte>,
    ExemplarData: seq<byte>,
    ExemplarIndexData: seq<byte>)

  class InmemoryPart {
    var ph: PartHeader

    var timestampsData: seq<byte>
    var valuesData: seq<byte>
    var indexData: seq<byte>
    var metaindexData: seq<byte>
    var exemplarData: seq<byte>
    var exemplarIndexData: seq<byte>

    var creationTime: uint64

    /** The current value of all fields. */
    function State(): PartState
      reads this
    {
      PartState(ph, timestampsData, valuesData, indexData, metaindexData,
                exemplarData, exemplarIndexData, creationTime)
    }

    /** A newly allocated part: every field zero. */
    constructor ()
      ensures State() == ZeroPart
    {
      ph := ZeroHeader;
      timestampsData, valuesData, indexData, metaindexData := [], [], [], [];
      exemplarData, exemplarIndexData := [], [];
      creationTime := 0;
    }

    method Reset()
      modifies this
      ensures State() == old(State()).Reset()
      ensures State().IsReset()
      ensures exemplarData == old(exemplarData) && exemplarIndexData == old(exemplarIndexData)
    {
      ph := ResetHeader;

      timestampsData := [];
      valuesData := [];
      indexData := [];
      metaindexData := [];

      creationTime := 0;
    }

    /** Fills the part from a non-empty batch; `enc` is what the block encoder
        makes of `rows` and `now` is the clock reading. An empty batch is a
        fatal programming error in the source, hence the precondition. */
    method InitFromRowsWithExemplars(rows: seq<RawRow>, exemplars: seq<RawExemplar>,
                                     enc: RowsEncoding, now: uint64)
      requires |rows| > 0
      modifies this
      ensures State() == old(State()).InitFromRowsWithExemplars(rows, exemplars, enc, now)
      ensures creationTime == now
      ensures exemplarData == old(exemplarData) && exemplarIndexData == old(exemplarIndexData)
    {
      Reset();
      var rrm := new RawRowsMarshaler();
      rrm.MarshalToInmemoryPart(this, rows, enc);

      var rem := new RawExemplarMarshaler();
      rem.MarshalToInmemoryPart(this, exemplars);

      creationTime := now;
    }

    /** Fills the part from a non-empty batch without exemplars. */
    method InitFromRows(rows: seq<RawRow>, enc: RowsEncoding, now: uint64)
      requires |rows| > 0
      modifies this
      ensures State() == old(State()).InitFromRowsWithExemplars(rows, [], enc, now)
    {
      InitFromRowsWithExemplars(rows, [], enc, now);
    }

    /** Hands the part's contents to the part constructor. The size is the
        total length of all six buffers, the exemplar buffers included. The
        method changes no field, so calling it again gives the same part. */
    method NewPart() returns (p: Part)
      ensures p.Size == State().Size()
      ensures p.Header == ph
      ensures p.TimestampsData == timestampsData && p.ValuesData == valuesData
      ensures p.IndexData == indexData && p.MetaindexData == metaindexData
      ensures p.ExemplarData == exemplarData && p.ExemplarIndexData == exemplarIndexData
    {
      var size := |timestampsData| + |valuesData| + |indexData| + |metaindexData|
                  + |exemplarData| + |exemplarIndexData|;
      p := Part(ph, size, timestampsData, valuesData, indexData, metaindexData,
                exemplarData, exemplarIndexData);
    }
  }

  /** The marshaler that runs the block encoder over the metric rows. */
  class RawRowsMarshaler {
    constructor () {}

    /** Sets the header and appends the encoder's output `enc` for `rows` to
        the four metric buffers; the exemplar buffers and the creation time are
        left alone. */
    method MarshalToInmemoryPart(mp: InmemoryPart, rows: seq<RawRow>, enc: RowsEncoding)
      modifies mp
      ensures mp.State() == old(mp.State()).MarshalRows(enc)
    {
      mp.ph := enc.Header;
      mp.timestampsData := mp.timestampsData + enc.Timestamps;
      mp.valuesData := mp.valuesData + enc.Values;
      mp.indexData := mp.indexData + enc.Index;
      mp.metaindexData := mp.metaindexData + enc.Metaindex;
    }
  }

  /** The marshaler for exemplars. Its method has an empty body. */
  class RawExemplarMarshaler {
    constructor () {}

    /** Writes nothing: every field of `mp` is left as it was, whatever the
        exemplars. */
    method MarshalToInmemoryPart(mp: InmemoryPart, exemplars: seq<RawExemplar>)
      modifies mp
      ensures mp.State() == old(mp.State())
    {
    }
  }
}
