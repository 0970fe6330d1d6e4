# In-memory part, part pool and exemplar rows of the storage engine

This project models two small stateful pieces of the storage engine's
ingestion path, in Dafny, and proves what they do.

- **The in-memory part** (`Parts`, `inmemory_part.dfy`). An `InmemoryPart`
  object owns a part header, six byte buffers and a creation time:
  timestamps, values, index, metaindex, exemplar payload and exemplar index.
  - `Reset` resets the header and zeroes the creation time. It truncates the
    four metric buffers only. The exemplar buffers keep whatever they held.
    The header's reset value comes from code outside the model, and nothing
    proved here depends on it.
  - `InitFromRowsWithExemplars` needs a non-empty batch. It resets the part,
    runs the row marshaler, then the exemplar marshaler, then stamps the clock
    reading.
  - `InitFromRows` is the same call with no exemplars.
  - `NewPart` reports the header, the six buffers and their total length.
    It changes nothing. After an initialisation the total length is the
    encoder's output plus any carried-over exemplar bytes.
  - Every mutating method is tied to a function on `PartState`, the value of
    the part's fields. The lemmas are stated about those functions.
- **The part pool** (`PartPool`, `part_pool.dfy`). This is a bounded FIFO free
  list of parts that never blocks.
  - Taking from an empty pool allocates a new part.
  - Returning a part resets it. The part is kept if there is room and dropped
    otherwise.
  - The pool's invariant: it stays within capacity, and every idle part has
    been reset.
- **Exemplar rows** (`Exemplars`, `exemplar.dfy`). An `ExemplarRow` is reused
  from one exemplar to the next.
  - Its label slice is a backing array plus a length. The array's length is
    the slice's capacity.
  - `InitFromPB` clears the old labels in place and grows the array only when
    the new exemplar has more labels than the capacity. It then appends one
    tag per wire label and copies the metric name, timestamp and value.
  - The row's invariant: no slot past the slice's end keeps label bytes.
- The exemplar marshaler has an empty body. Together with the four-buffer
  `Reset`, this means the exemplar buffers are never written and never
  cleared.
  - `ExemplarBuffersCarryOver` proves that no sequence of resets and
    initialisations changes them.
  - `ExemplarBuffersStayEmpty` proves that a part that starts newly allocated
    keeps them empty.
  - `ResetForgetsAllButExemplarBuffers` and `InitMatchesZeroPartIff` prove
    that reusing a part matches a newly allocated one exactly when its
    exemplar buffers are empty.

Shared types are in `storage_types.dfy` (`StorageTypes`).

Inputs that stand in for code outside the model:
- `RowsEncoding`: what the block encoder produces for a batch (the new
  header and the bytes for the four metric buffers).
- `now`: the clock reading stamped as the creation time.
- `cap`: the pool's capacity, which the source sizes to the available CPUs.

`Reset` truncates four of the six buffers, and the exemplar marshaler writes
nothing. So the exemplar buffers are never cleared, and the model keeps
exactly that behaviour.

## Model

| member | source | states |
|---|---|---|
| `Parts.InmemoryPart.constructor` | lib/storage/inmemory_part.go:11-22 | a newly allocated part has a zero header, six empty buffers and creation time 0 |
| `Parts.PartState.Reset` | lib/storage/inmemory_part.go:25-34 | after a reset the header is the reset header, the timestamps, values, index and metaindex buffers are empty and the creation time is 0, while the exemplar payload and exemplar index buffers are unchanged |
| `Parts.InmemoryPart.Reset` | lib/storage/inmemory_part.go:25-34 | the method's new state is `PartState.Reset` of the old state: four buffers truncated, header reset, time zeroed, exemplar buffers unchanged |
| `Parts.ResetIsIdempotent` | lib/storage/inmemory_part.go:25-34 | two resets give the same state as one |
| `Parts.ResetForgetsAllButExemplarBuffers` | lib/storage/inmemory_part.go:25-34 | two parts are equal after a reset if and only if their exemplar buffers were equal; so a reset used part equals a reset newly allocated part exactly when its exemplar buffers are empty, whatever the header's reset value |
| `Parts.PartState.MarshalRows` | lib/storage/inmemory_part.go:42-44 | the row marshaler sets the header and appends the encoder's bytes to the four metric buffers; it leaves the exemplar buffers and creation time alone |
| `Parts.RawRowsMarshaler.MarshalToInmemoryPart` | lib/storage/inmemory_part.go:42-44 | the marshaler's effect on the part is exactly `PartState.MarshalRows` |
| `Parts.RawExemplarMarshaler.MarshalToInmemoryPart` | lib/storage/exemplar.go:47-49 | every field of the part is unchanged, for any list of exemplars |
| `Parts.PartState.InitFromRowsWithExemplars` | lib/storage/inmemory_part.go:36-51 | only defined for a non-empty batch; afterwards the header and the four metric buffers hold exactly the encoder's output, the exemplar buffers are carried over and the creation time is the clock reading |
| `Parts.InmemoryPart.InitFromRowsWithExemplars` | lib/storage/inmemory_part.go:36-51 | requires a non-empty batch; the new state is `PartState.InitFromRowsWithExemplars` of the old one, so the creation time is the clock reading and the exemplar buffers are unchanged |
| `Parts.InmemoryPart.InitFromRows` | lib/storage/inmemory_part.go:54-56 | has exactly the effect of initialising with the same rows and an empty exemplar list |
| `Parts.InitMatchesZeroPartIff` | lib/storage/inmemory_part.go:36-51 | initialising a used part gives the same state as initialising a newly allocated one if and only if the used part's exemplar buffers are empty |
| `Parts.ExemplarBuffersCarryOver` | lib/storage/inmemory_part.go:25-51 | over any sequence of resets and initialisations the exemplar payload and exemplar index buffers keep their contents |
| `Parts.ExemplarBuffersStayEmpty` | lib/storage/inmemory_part.go:36-51 | a part that starts newly allocated has empty exemplar buffers after any sequence of resets and initialisations |
| `Parts.InmemoryPart.NewPart` | lib/storage/inmemory_part.go:62-66 | the reported size is `PartState.Size` of the part, the total length of all six buffers; the header and buffers handed on are the part's own; no field of the part changes |
| `Parts.InitSizeCountsCarriedExemplarBytes` | lib/storage/inmemory_part.go:36-64 | after an initialisation the reported size is the encoder's output plus the exemplar bytes the part carried over, so a reused part counts stale exemplar bytes |
| `Parts.SizeCountsMetricBytesOnly` | lib/storage/inmemory_part.go:25-64 | for a part that started newly allocated, after any resets and initialisations the reported size is the length of the four metric buffers; right after an initialisation it is exactly the encoder's output |
| `PartPool.AfterGet` | lib/storage/inmemory_part.go:69-71 | taking from a non-empty pool removes its front element and keeps the rest in order; an empty pool stays empty |
| `PartPool.AfterPut` | lib/storage/inmemory_part.go:79-83 | returning a part appends it if and only if the pool is below capacity, never removes or reorders anything, and never takes a pool within capacity beyond it |
| `PartPool.PoolNeverExceedsCap` | lib/storage/inmemory_part.go:68-90 | for any sequence of takes and returns, a pool that starts within capacity stays within capacity |
| `PartPool.PoolHoldsOnlyReturnedParts` | lib/storage/inmemory_part.go:68-84 | every part in the pool after a sequence of requests was there at the start or was returned by one of the requests |
| `PartPool.InmemoryPartPool.constructor` | lib/storage/inmemory_part.go:90 | the pool starts empty with the given positive capacity |
| `PartPool.InmemoryPartPool.GetInmemoryPart` | lib/storage/inmemory_part.go:68-75 | a non-empty pool hands out its front part and shrinks by one; an empty pool hands out a newly allocated zero part and stays empty; a part taken from the pool is reset; with no duplicates in the pool, the part handed out is no longer in it |
| `PartPool.InmemoryPartPool.PutInmemoryPart` | lib/storage/inmemory_part.go:77-84 | the part is reset, then appended if the pool is below capacity and dropped otherwise; the pool stays within capacity and every idle part stays reset |
| `Exemplars.ExemplarRow.constructor` | lib/storage/exemplar.go:5-11 | a zero row has no metric name, no labels, label capacity 0, and zero timestamp and value |
| `Exemplars.TagsFromLabels` | lib/storage/exemplar.go:24-30 | the labels built from the wire labels have the same count, and each tag's key and value equal the corresponding label's name and value, in the same order |
| `Exemplars.ExemplarRow.ResetLabels` | lib/storage/exemplar.go:14-16 | every tag in the old label slice is reset, so the whole backing array holds only empty tags |
| `Exemplars.ExemplarRow.GrowLabels` | lib/storage/exemplar.go:19-21 | growing replaces the backing array by a new one that is longer by exactly the shortfall and holds only empty tags |
| `Exemplars.ExemplarRow.AppendLabels` | lib/storage/exemplar.go:22-30 | starting from the truncated slice, the row's labels become `TagsFromLabels` of the wire labels, written in place into the backing array |
| `Exemplars.ExemplarRow.InitFromPB` | lib/storage/exemplar.go:13-34 | the row's labels are `TagsFromLabels` of the exemplar's labels; the metric name, timestamp and value are the arguments'; the capacity is at least the label count and never shrinks; the backing array is reused when the labels fit, and replaced only when there are more labels than the capacity; no slot past the labels keeps old label bytes |
| `Exemplars.ReinitMatchesFresh` | lib/storage/exemplar.go:14-30 | re-initialising a used row gives the same labels, metric name, timestamp and value as initialising a newly allocated row |

## Left out

- The block encoder behind the row marshaler is not part of this model. The
  model takes its output (`RowsEncoding`: header and bytes for the four
  metric buffers) as an input, so nothing is proved about block layout,
  offsets or value encoding.
- `PartState.InitFromRowsWithExemplars` keeps its `rows` parameter only for
  the non-empty precondition. What the rows become is carried by the
  encoder-output input.
- The marshaler pools (`getRawRowsMarshaler`, `putRawRowsMarshaler`,
  `getRawExemplarMarshaler`, `putRawExemplarMarshaler`) are not part of this
  model. Each initialisation allocates its marshalers.
- `partHeader` and its `Reset` are not part of this model. The header is a
  record of row count, block count and minimum and maximum timestamp. The
  value a reset gives it is an unspecified constant. A newly allocated part
  has the all-zero header, and no lemma assumes the two coincide.
- `newPart` and `metaindexData.NewReader` are not part of this model. `NewPart`
  returns the values it would pass on, so the constructor's error result is
  not modelled.
- Parts.InmemoryPart.NewPart: the size is an unbounded `nat`; the conversion
  of Go's `int` sum to `uint64` is not modelled, since buffer lengths in
  memory cannot make it wrap.
- Parts.InmemoryPart.NewPart: the buffers are handed on by value. The source
  passes pointers to the part's own buffers. Because of that aliasing it is
  unsafe to reuse a part while the part built from it is in use, and the
  model does not capture this.
- Byte buffers and label slices are modelled as value sequences. The backing
  storage that truncation keeps for reuse is not modelled, and neither is
  labels borrowing bytes from the wire message.
- The pool's channel semantics under concurrent access are left out. The pool
  is modelled as a sequential bounded queue. The capacity, which the source
  takes from the available CPU count, is a constructor parameter.
- The clock reading (`fasttime.UnixTimestamp`) is a method parameter.
- The fatal panic on an empty batch is a precondition.
- Float values are opaque 64-bit patterns that are copied and never
  computed on.
- Exemplars.ExemplarRow.InitFromPB: when the label slice grows, the model's
  new capacity is exactly the label count. Go's `append` may round the
  capacity up, and the source promises only that it is at least the label
  count.
- PartPool.InmemoryPartPool.GetInmemoryPart: a part from an empty pool is
  promised to be the all-zero part, not to be reset. Whether the two agree
  depends on the header's reset value, which is not modelled.
- `Tag.Reset` is not part of this model. A reset tag is a tag with empty key
  and value.
