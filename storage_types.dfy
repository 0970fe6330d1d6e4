/** Scalar types of the storage package and the records it borrows from
    neighbouring packages (tags, Prometheus wire labels, series identifiers,
    raw rows and the part header). Only the fields the in-memory part and the
    exemplar row touch are modelled. */
module StorageTypes {

  /** Go's fixed-width integers, as bounded subsets of `int`. */
  type uint8 = x: int | 0 <= x < 0x100
  type byte = uint8
  type int64 = x: int | -0x8000_0000_0000_0000 <= x < 0x8000_0000_0000_0000
  type uint64 = x: int | 0 <= x < 0x1_0000_0000_0000_0000

  /** A float64 is carried as its 64-bit pattern: values are copied, never computed on. */
  type float64 = bv64

  /** A label pair of the storage package: key and value bytes. */
  datatype Tag = Tag(Key: seq<byte>, Value: seq<byte>)

  /** What `Tag.Reset` leaves behind: both byte slices truncated. */
  const EmptyTag: Tag := Tag([], [])

  /** A label of the Prometheus remote-write message. */
  datatype PromLabel = PromLabel(Name: seq<byte>, Value: seq<byte>)

  /** An exemplar of the Prometheus remote-write message. */
  datatype PromExemplar = PromExemplar(Labels: seq<PromLabel>, Value: float64, Timestamp: int64)

  /** The series identifier; opaque here, only compared and carried. */
  datatype TSID = TSID(MetricID: uint64)

  /** One ingested sample, as the row marshaler consumes it. */
  datatype RawRow = RawRow(TSID: TSID, Timestamp: int64, Value: float64, PrecisionBits: uint8)

  /** Summary statistics of a part. */
  datatype PartHeader = PartHeader(RowsCount: uint64, BlocksCount: uint64, MinTimestamp: int64, MaxTimestamp: int64)

  /** The zero value of a header, as in a newly allocated part. */
  const ZeroHeader: PartHeader := PartHeader(0, 0, 0, 0)

  /** The header after `partHeader.Reset`. That method is not part of this
      model, so the value is left unspecified: nothing proved here depends on
      what it is, nor on whether it equals `ZeroHeader`. */
  const ResetHeader: PartHeader
}
