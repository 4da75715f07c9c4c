# Verified models of an HDF5 benchmark's storage, conversion and measuring code

The repository compares C++ wrappers around HDF5. These Dafny modules model the code in it that
decides something: how chunks are buffered, filtered, written by workers and read back; how nested
containers and matrices become one flat stream; which coordinates a partial write or read selects;
how the bundled benchmark engine chooses iteration counts, shuffles, fits complexities and renders
its reports. Each class method is proved against a function on values, and what the code is meant to
guarantee is proved about those functions, for all inputs and all runs.

`dafny verify dfyconfig.toml` checks everything.

| file | what it models |
|---|---|
| `Common.dfy`, `Arith.dfy`, `Dims.dfy` | shared types; products, quotients, row-major positions |
| `Filters.dfy`, `Pipeline.dfy` | a filter chain on chunks; the synchronous and the pooled pipeline with their two scratch buffers |
| `Shuffle.dfy`, `ShuffleSimd.dfy` | the byte shuffle filter, across two buffers and in one: its scalar loops and its SSSE3 variant |
| `Bits.dfy`, `BitBuffer.dfy`, `Gorilla.dfy`, `GorillaFilter.dfy` | words as bits; the bit writer and reader; the Gorilla codec on values and on bytes |
| `Split.dfy` | how the pipelines cut the rows of a block of data into chunks |
| `PacketTable.dfy` | `h5::pt_t`: buffering, appending, flushing |
| `ChunkView.dfy` | `h5::view` and its one-chunk iterator |
| `StreamCopy.dfy` | the gzip copy benchmark, which composes the three above |
| `IterationLogic.dfy`, `IterationRuns.dfy` | nanobench's warmup / upscaling / measuring state machine and `Bench::run`; which rounds of a run are recorded and how many iterations come next |
| `Rng.dfy`, `RngVectors.dfy` | nanobench's generator, its seeding and its shuffle, on 64-bit words; known outputs |
| `Mustache.dfy`, `MustachePrinter.dfy`, `MustacheRender.dfy`, `MustacheMeaning.dfy` | the template parser, a printer that inverts it, the renderer, what a template means |
| `BigO.dfy` | the least-squares fit |
| `Inspector.dfy`, `EigenInspector.dfy` | HighFive's flattening of nested containers and of matrices |
| `Hyperslab.dfy` | which coordinates h5cpp's pointer `write` and `read` select |
| `CompressBound.dfy` | zstd's bound on compressed size |

## Modelling choices

- A filter is three arbitrary byte functions: what it makes of its input in another buffer, what it
  makes of it when it writes over it, and its reverse; and a mark saying that its id is one the
  synchronous writer runs in one buffer. A result of length 0 means that it refused. Nothing is
  assumed of a filter except where a statement says so (`Lossless`, `UndoesStages`, `Fits`,
  `AliasSafe`), with one exception: a filter that returns 0 is taken to have written nothing into its
  output buffer. A compressor that fails half-way may have written there, so that less of chunk0
  survives than `Pipeline.CacheSurvivesIff` says; what is stored for the chunk is the same.
- The stored dataset is a map from chunk offset to stored chunk. HDF5 rejects chunk writes that are
  not on a chunk boundary or have size 0, and the pipelines ignore its error code; so does
  `Pipeline.Store`.
- Which futures are ready, when the alarm goes off, what the clock reports and what noise is drawn
  are arbitrary. Clock readings are non-negative.
- Floating-point values are reals; 64-bit unsigned counts wrap where the source's do. Where the
  source divides by zero, or casts a value too large for 64 bits, the state machine ends in
  `Undefined`.
- Products in index arithmetic are written `Times(k, m)`, repeated addition, proved equal to `k * m`.
- A template is a string and positions in it stand for the source's pointers. Formatted numbers
  arrive as strings.
- A hyperslab is HDF5's: per dimension `count` blocks of `block` positions, `stride` apart, elements
  transferred in row-major order, refused when a stride is 0 or blocks overlap, when it leaves the
  extent, or when it has another size than the caller's memory.

## Findings

Where the code does not do what its documentation or its use suggests, the condition is proved.

- A pointer append to a packet table writes its chunk through the same scratch buffer that holds
  pending scalars. If no filter refuses the chunk, they survive exactly if the pipeline is pooled, has
  no filter, or has one filter that needs a second buffer (`Pipeline.CacheSurvivesIff`,
  `Pipeline.SparesByConfiguration`, `PacketTable.ConservedIff`).
- The synchronous writer runs shuffle in one buffer, where the scalar loops read bytes they have
  already replaced. Chunks of several elements of several bytes can come back changed, whereas a
  worker with the scalar loops stores them properly (`Shuffle.OneBufferIff`,
  `Shuffle.ShuffledChunksSurviveIff`).
- Built with SSSE3, elements of 2, 4 and 8 bytes take another path, whose reverse applies the forward
  mask once more. It restores chunks of less than 16 bytes, which see the scalar loops only, and
  multiples of four 4-byte elements; no others, not even across two buffers
  (`ShuffleSimd.SimdRestoresIff`, `ShuffleSimd.InPlaceRestoresIff`). What it stores is in the order of
  HDF5's shuffle for at most one block of 16 bytes (`ShuffleSimd.SimdIsShuffleIff`).
- Gorilla passes chunks on without a header if its parameter is not 4 or 8, and its reverse then takes
  the first byte for an element size (`GorillaFilter.AllComeBackIff`). What it makes of a chunk can be
  longer than the scratch buffers, whose size is said to bound the output of all filters:
  `GorillaFilter.FitsIff` gives the exact worst case, `GorillaFilter.FourBytesFitIff` and
  `GorillaFilter.SomeChunkOutgrows` compare it with that size.
- In two dimensions and more the splitting writer computes the residual of its rows from the offset in
  the slowest dimension and modulo 2^64, the reader does not; the condition under which that does no harm is
  `Split.WriterCutsRowsIff`, two inputs for which it does are `Split.TakesTooMuch`.
- A packet table opened on an extent that is not a chunk multiple never stores anything
  (`PacketTable.MisalignedBlocksVanish`).
- A chunk that a filter refuses is gone, although the mask records the refusal: with filters that
  undo what they make, a chunk is stored and comes back exactly if its offset is aligned and no filter
  refuses (`Filters.RestoredIff`, `Pipeline.StoredAndRestoredIff`; an input is
  `Filters.RefusedChunkIsLost`). For arbitrary filters it leaves the chain like every other chunk
  that filter refuses first (`Filters.RefusedChunksAreIndistinguishable`), and if it was the last
  filter nothing is stored (`Pipeline.RefusedChunkIsNotStored`).
- `*it++` on a view reads the wrong chunk at each chunk boundary before the end, and nowhere else
  (`ChunkView.PostIncrementIff`, `ChunkView.PostIncrementMisreads`).
- `select_hyperslab`, which only `read` uses, hands HDF5 its block as the count and its count as the
  block. A read with a block therefore selects what the write with the same arguments did only under
  the condition of `Hyperslab.SelectionsAgreeIff`; otherwise it is refused or returns other elements
  (`Hyperslab.ReadBackIff`, `Hyperslab.WriteLegalReadIllegal`, `Hyperslab.ReadSelectsOther`).
- Without a block, write and read both ignore the stride (`Hyperslab.StrideIgnored`). That changes what
  is selected unless nothing is, or every dimension has one element or stride 1
  (`Hyperslab.IgnoredStrideIff`; an input is `Hyperslab.StrideOfTwoIgnored`).
- `calcBestNumIters` divides the target by 0 if a warmup epoch met it, epoch iterations are not fixed
  and the first measured epoch takes no time (`IterationLogic.DividesByZeroIff`).
- The check for overflow in `upscale` misses the wraps of eight intervals of counts
  (`IterationLogic.WrapMissedIff`, `IterationLogic.WrapMissedIntervals`); a run stops nevertheless
  (`IterationLogic.TerminatesIff`). When no run meets that report or anything undefined is stated in
  `IterationLogic.FinishesAtRate`.
- With a warmup, fixed epoch iterations hold from the third recorded epoch on; when the second may
  differ depends on the settings as `IterationLogic.FixedFromSecondIff` says.
- An unclosed section duplicates the final text, so that exactly the balanced templates are what
  their parse prints (`MustachePrinter.UnclosedSectionRepeatsText`,
  `MustachePrinter.PrintGivesBackIff`).
- In measurements and results a text or tag reading `-first` or `-last` is swallowed, and nothing else
  is (`MustacheRender.SwallowedIff`, `MustacheRender.SwallowedInResultIff`).
- With no results, a tag outside of sections that comes before any error reads past an empty list
  (`MustacheRender.UndefinedIff`).
- `getDimensions` of an empty `multi_array` of containers reads a missing element
  (`Inspector.DimensionsUndefinedIff`).
- zstd's macro also refuses its maximum input size itself, where the sum would still fit
  (`CompressBound.FitsIff`).

## Model

| member | source | states |
|---|---|---|
| Filters.DecodeInvertsEncode | wrappers/vargalabs/include/h5cpp/H5Zpipeline_basic.hpp:26-114 | For every filter chain and chunk: if each filter accepts what it is given and undoes what it did, the read path restores the chunk the write path stored, and the stored mask is empty. |
| Filters.RefusedChunksAreIndistinguishable | wrappers/vargalabs/include/h5cpp/H5Zpipeline_basic.hpp:45-57 | Two chunks that the same filter is the first to refuse (length 0) leave the chain alike, in bytes and mask, so at most one of them can be read back. |
| Filters.RestoredIff | wrappers/vargalabs/include/h5cpp/H5Zpipeline_basic.hpp:45-114 | For filters that undo what they make and make nothing of nothing on the way back: a non-empty chunk comes back from the chain if and only if no filter refuses what it is given of it; otherwise nothing comes back. |
| Filters.UsedRestoredIff | wrappers/vargalabs/include/h5cpp/H5Zpipeline_basic.hpp:26-114 | The same for the functions each pipeline really applies and the reader's chain. |
| Filters.RefusedChunkIsLost | wrappers/vargalabs/include/h5cpp/H5Zpipeline_basic.hpp:45-57 | An input: behind a filter that refuses [1], a second one stores one byte under the mask {0}, which reads back as nothing. |
| Filters.AliasSafeEncode | wrappers/vargalabs/include/h5cpp/H5Zpipeline_basic.hpp:12-43 | If overwriting its own input makes no difference to any filter that the writer lets do so, the synchronous writer encodes every chunk as a worker does. |
| Pipeline.RefusedChunkIsNotStored | wrappers/vargalabs/include/h5cpp/H5Zpipeline_basic.hpp:57 | A chunk that the last filter refuses has size 0, which HDF5 rejects: the dataset stays as it was. |
| Pipeline.StoredAndRestoredIff | wrappers/vargalabs/include/h5cpp/H5Zpipeline_basic.hpp:8-114 | After a chunk write the dataset reads back as the chunk at that offset if and only if the offset is aligned and no filter refused anything, or HDF5 rejected the write and what was there already reads back as the same. |
| Pipeline.OrderIrrelevant | wrappers/vargalabs/include/h5cpp/H5Zpipeline_pool.hpp:102-119 | Chunk writes with pairwise different offsets give the same dataset in every order. |
| Pipeline.FirstByteOverwritten | wrappers/vargalabs/include/h5cpp/H5Zpipeline_basic.hpp:32-55 | A synchronous write that puts anything into chunk0 leaves in its first byte something independent of what was buffered there. |
| Pipeline.CacheSurvivesIff | wrappers/vargalabs/include/h5cpp/H5Zpipeline_basic.hpp:26-55 | Whatever is buffered in chunk0 survives the write of another chunk if and only if the pipeline is pooled, has no filter, or works with two buffers and every second filter returns nothing for that chunk, having written nothing. |
| Pipeline.SparesByConfiguration | wrappers/vargalabs/include/h5cpp/H5Zpipeline_basic.hpp:12-51 | If the second filter accepts the chunk, that is the case exactly for a pooled pipeline, no filter, or a single filter that needs a second buffer. |
| Pipeline.LosslessFitsBack | wrappers/vargalabs/include/h5cpp/H5Zpipeline_basic.hpp:77-114 | Undoing a lossless chain never outgrows the scratch buffers the write fitted in. |
| Pipeline.Pipe.ApplyFilter | wrappers/vargalabs/include/h5cpp/H5Zpipeline_basic.hpp:36-40 | One filter step, across buffers or over its own input: the target starts with stage j+1 of the chain of the functions that apply in that case, with the right mask bit, and is otherwise unchanged. |
| Pipeline.Pipe.FilterInPlace | wrappers/vargalabs/include/h5cpp/H5Zpipeline_basic.hpp:32-43 | The in-place path stores what the filters make of the chunk when each writes over its own input, and leaves chunk0 as the value-level description says. |
| Pipeline.Pipe.FilterPingPong | wrappers/vargalabs/include/h5cpp/H5Zpipeline_basic.hpp:45-57 | The ping-pong path stores what the filters make of the chunk across buffers, also when the chunk itself lies in chunk0. |
| Pipeline.Pipe.BasicWrite | wrappers/vargalabs/include/h5cpp/H5Zpipeline_basic.hpp:8-58 | A synchronous write puts exactly one chunk at its offset, encoded in one buffer if every filter id allows it and across two otherwise. |
| Pipeline.Pipe.WorkerEncode | wrappers/vargalabs/include/h5cpp/H5Zpipeline_pool.hpp:174-214 | The worker's closure, on its own two buffers, never runs a filter over its own input and computes the two-buffer encoding. |
| Pipeline.Pipe.DrainFront | wrappers/vargalabs/include/h5cpp/H5Zpipeline_pool.hpp:104-110 | Waiting for the front future writes its chunk and keeps the sequence written-then-in-flight. |
| Pipeline.Pipe.DrainReady | wrappers/vargalabs/include/h5cpp/H5Zpipeline_pool.hpp:112-118 | However many front futures happen to be ready, what was submitted and its order are unchanged. |
| Pipeline.Pipe.Drain | wrappers/vargalabs/include/h5cpp/H5Zpipeline_pool.hpp:66-69 | After draining nothing is in flight and the dataset is the one sequential writes of everything submitted give. |
| Pipeline.Pipe.PoolWrite | wrappers/vargalabs/include/h5cpp/H5Zpipeline_pool.hpp:121-223 | A pooled write snapshots the chunk, submits its encoding last and never leaves cap or more chunks in flight. |
| Pipeline.Pipe.WriteChunk | wrappers/vargalabs/include/h5cpp/H5Zpipeline.hpp:208-210 | Both pipelines submit one job at the given offset: the chunk encoded by the functions that pipeline uses; nothing is assumed about running in one buffer. |
| Pipeline.Pipe.ReadChunk | wrappers/vargalabs/include/h5cpp/H5Zpipeline_basic.hpp:61-98 | Reading a chunk puts its decoded bytes at the front of chunk0. |
| Pipeline.Pipe.UndoFilters | wrappers/vargalabs/include/h5cpp/H5Zpipeline_basic.hpp:100-115 | The parity of the number of filters makes the reverse ping-pong end in chunk0, masked filters passing bytes through. |
| Shuffle.Shuffle | wrappers/vargalabs/include/h5cpp/H5Zall.hpp:271-285 | The scalar loops, either direction, on whole elements: the byte permutation they stand for across buffers, and the specified other result when output and input are one buffer. |
| Shuffle.Plane | wrappers/vargalabs/include/h5cpp/H5Zall.hpp:281-284 | The inner loop of the forward direction assigns one byte plane, in either case. |
| Shuffle.ShuffleLoops | wrappers/vargalabs/include/h5cpp/H5Zall.hpp:281-284 | The forward loop nest, across buffers or in one. |
| Shuffle.UnshuffleLoops | wrappers/vargalabs/include/h5cpp/H5Zall.hpp:276-279 | The reverse loop nest across buffers. |
| Shuffle.ShuffleBijective | wrappers/vargalabs/include/h5cpp/H5Zall.hpp:276-284 | On whole elements shuffle and its reverse undo each other, in both orders. |
| Shuffle.SecondPlane | wrappers/vargalabs/include/h5cpp/H5Zall.hpp:281-284 | In one buffer the second byte plane starts with a byte the first plane has replaced. |
| Shuffle.OneBufferIff | wrappers/vargalabs/include/h5cpp/H5Zall.hpp:281-284 | One buffer gives the shuffled data for every chunk if and only if elements are single bytes or there is at most one. |
| Shuffle.ShuffleAliasSafeIff | wrappers/vargalabs/include/h5cpp/H5Zpipeline_basic.hpp:15-24 | Of the ids the writer runs in one buffer, shuffle with the scalar loops tolerates it exactly for elements of one byte. |
| Shuffle.ShuffledChunksSurviveIff | wrappers/vargalabs/include/h5cpp/H5Zpipeline_basic.hpp:32-43 | With the scalar loops: every chunk of n whole elements written through the shuffle filter is read back if and only if the pipeline is pooled, elements are single bytes, or n is 1. |
| Shuffle.TwoElementsInOneBuffer | wrappers/vargalabs/include/h5cpp/H5Zall.hpp:281-284 | 10 11 20 21 becomes 10 20 11 21 across buffers and 10 20 20 21 in one. |
| ShuffleSimd.SimdRestoresIff | wrappers/vargalabs/include/h5cpp/H5Zall.hpp:215-256 | The SSSE3 variant across two buffers: its reverse restores every chunk of n elements of 2, 4 or 8 bytes if and only if n is less than a block of 16 bytes, or elements have 4 bytes and n is a multiple of 4. |
| ShuffleSimd.InPlaceRestoresIff | wrappers/vargalabs/include/h5cpp/H5Zall.hpp:215-256 | After the forward direction over its own input: if and only if n is 1, or elements have 4 bytes and n is a multiple of 4. |
| ShuffleSimd.LostByte | wrappers/vargalabs/include/h5cpp/H5Zall.hpp:241-255 | With elements in and behind whole blocks one byte of the input does not reach the output at all. |
| ShuffleSimd.MaskIsPlanes | wrappers/vargalabs/include/h5cpp/H5Zall.hpp:222-226 | Each mask takes a block of 16 bytes to its byte planes. |
| ShuffleSimd.SimdIsShuffleIff | wrappers/vargalabs/include/h5cpp/H5Zall.hpp:209-256 | The variant orders the bytes as the scalar loops do, that is as HDF5's shuffle does, if and only if there is at most one block. |
| ShuffleSimd.BlockLoop | wrappers/vargalabs/include/h5cpp/H5Zall.hpp:241-245 | The block loop puts each 16 bytes through the mask, across buffers or in one. |
| ShuffleSimd.TailLoop | wrappers/vargalabs/include/h5cpp/H5Zall.hpp:252-254 | The forward loops behind the blocks are the specified sequence of single assignments, in either case. |
| ShuffleSimd.TailBackLoop | wrappers/vargalabs/include/h5cpp/H5Zall.hpp:248-250 | The reverse loops behind the blocks take each byte from its plane. |
| ShuffleSimd.SimdShuffle | wrappers/vargalabs/include/h5cpp/H5Zall.hpp:215-256 | The forward direction as a whole computes its function on bytes across buffers, and the other one in a single buffer. |
| ShuffleSimd.SimdUnshuffle | wrappers/vargalabs/include/h5cpp/H5Zall.hpp:215-256 | The reverse direction as a whole. |
| ShuffleSimd.ForwardSteps | wrappers/vargalabs/include/h5cpp/H5Zall.hpp:241-255 | Done one assignment after the other, the forward direction across buffers is the function whose bytes the theorems speak of. |
| BitBuffer.BitWriter.WriteBit | wrappers/vargalabs/include/h5cpp/H5Zall.hpp:520-529 | A written bit stands behind those written before; clearing a byte on its first bit and setting bits is packing them, highest first, zeros behind. |
| BitBuffer.BitWriter.WriteBits | wrappers/vargalabs/include/h5cpp/H5Zall.hpp:530-533 | The lowest n bits of a value, highest first, and nothing before the writer's start changes. |
| BitBuffer.BitReader.ReadBit | wrappers/vargalabs/include/h5cpp/H5Zall.hpp:536-545 | The next bit of the bytes. |
| BitBuffer.BitReader.ReadBits | wrappers/vargalabs/include/h5cpp/H5Zall.hpp:546-551 | The number that the next n bits are. |
| BitBuffer.StreamOfPack | wrappers/vargalabs/include/h5cpp/H5Zall.hpp:520-552 | The bits of packed bytes, whatever follows, begin with the bits that were packed. |
| Gorilla.OneBack | wrappers/vargalabs/include/h5cpp/H5Zall.hpp:578-608 | Wherever the bits of an XORed value stand, the decoder reads that value and exactly those bits and arrives at the encoder's block: for zero, for a reused block and for a new one, 64 written as 0. |
| Gorilla.ValuesBack | wrappers/vargalabs/include/h5cpp/H5Zall.hpp:571-656 | From any bits that begin with the encoder's, the decoder finds all values, the encoder's block, and the end of its bits. |
| Gorilla.ValuesSize | wrappers/vargalabs/include/h5cpp/H5Zall.hpp:578-608 | n values take at most 13 bits more than a word each, the first excepted, and one bit. |
| Gorilla.MostBitsAttained | wrappers/vargalabs/include/h5cpp/H5Zall.hpp:578-608 | Some n values take exactly that, for every n. |
| Gorilla.CheaperForm | wrappers/vargalabs/include/h5cpp/H5Zall.hpp:588-606 | Of its two forms for a value that differs the encoder takes the shorter: never more than 14 bits and the meaningful ones, never more than 2 bits and the old block's length if all its 1 bits lie inside that block; the block is kept exactly if keeping it is possible and costs no more. |
| Gorilla.EachValueIsCheap | wrappers/vargalabs/include/h5cpp/H5Zall.hpp:578-608 | In every sequence of values each adds exactly the bits of the shorter form to the encoding of those before it, and leaves the block that form leaves. |
| Gorilla.NeverWorseThanNewBlocks | wrappers/vargalabs/include/h5cpp/H5Zall.hpp:588-606 | No sequence takes more bits than a new block for every value that differs would. |
| Gorilla.MeaningfulBits | wrappers/vargalabs/include/h5cpp/H5Zall.hpp:585-587 | The meaningful bits are an odd number of exactly that length, which shifted back is the value. |
| Gorilla.WideThenNarrow | wrappers/vargalabs/include/h5cpp/H5Zall.hpp:588-606 | The words 0, all ones, and all ones but the last: the third takes a new block of 15 bits, not the whole word of the old one. |
| GorillaFilter.ElementsBack | wrappers/vargalabs/include/h5cpp/H5Zall.hpp:555-658 | What the encoder writes for fewer than 2^32 elements of 4 or 8 bytes decodes to all whole elements of the chunk. |
| GorillaFilter.ComesBackIff | wrappers/vargalabs/include/h5cpp/H5Zall.hpp:555-691 | A non-empty chunk comes back if and only if it is whole elements and fewer than 2^32 of them; the header's count wraps and bytes behind the last element are dropped. |
| GorillaFilter.AllComeBackIff | wrappers/vargalabs/include/h5cpp/H5Zall.hpp:661-692 | The filter restores all chunks of n bytes if and only if its parameter is 4 or 8, divides n, and the quotient is below 2^32: with any other parameter chunks are passed on without the header the reverse reads. |
| GorillaFilter.CompressedDecodes | wrappers/vargalabs/include/h5cpp/H5Zall.hpp:614-656 | The decoder never runs out of bits in what the encoder wrote. |
| GorillaFilter.FitsIff | wrappers/vargalabs/include/h5cpp/H5Zall.hpp:555-611 | A buffer takes the encoding of every chunk of n elements if and only if it has the exact worst case's size. |
| GorillaFilter.ChunkNeverWorse | wrappers/vargalabs/include/h5cpp/H5Zall.hpp:555-611 | No chunk gets longer than header, first element and a new block for every element that differs from the one before. |
| GorillaFilter.TwoWordsCompressed | wrappers/vargalabs/include/h5cpp/H5Zall.hpp:555-611 | A chunk byte by byte: the 4-byte words 0 and 1 become 4, 0 0 0 2, 0 0 0 0, 223 6. |
| GorillaFilter.EightBytesFit | wrappers/vargalabs/include/h5cpp/H5Zall.hpp:99-114 | Where zstd is not built in, every chunk of 8-byte elements fits the scratch buffers. |
| GorillaFilter.FourBytesFitIff | wrappers/vargalabs/include/h5cpp/H5Zall.hpp:93-114 | Where neither lz4 nor zstd is built in and deflate asks for no more, all chunks of n 4-byte elements fit if and only if n is at most 199. |
| GorillaFilter.SomeChunkOutgrows | wrappers/vargalabs/include/h5cpp/H5Zall.hpp:93-114 | Where no compressor asks for more than an eighth above the chunk, some chunk of every number of elements above one does not fit. |
| GorillaFilter.WriteValue | wrappers/vargalabs/include/h5cpp/H5Zall.hpp:579-607 | The body of the encoder's loop writes the bits of one value, of which `Gorilla.CheaperForm` says which form they have, and keeps or replaces the block. |
| GorillaFilter.EncodeImpl | wrappers/vargalabs/include/h5cpp/H5Zall.hpp:555-611 | The encoder fills its output with the specified bytes and returns their number. |
| GorillaFilter.ReadValue | wrappers/vargalabs/include/h5cpp/H5Zall.hpp:635-653 | The body of the decoder's loop reads one value where the bits are there. |
| GorillaFilter.DecodeImpl | wrappers/vargalabs/include/h5cpp/H5Zall.hpp:614-658 | The decoder, on bytes that do not end too early, stores the specified values and returns their size. |
| GorillaFilter.Run | wrappers/vargalabs/include/h5cpp/H5Zall.hpp:661-692 | The branches on direction and parameter: passing on, encoding, decoding, refusing. |
| Split.ResidualsAgreeIff | wrappers/vargalabs/include/h5cpp/H5Zpipeline.hpp:341-384 | The writer's residual, computed modulo 2^64 from the offset in the slowest dimension, is the reader's if and only if the row reaches the end of the piece that offset leaves and the offset is a multiple of the chunk's width, or it does not and 2^64 plus the offset is one. |
| Split.CutsRowsIff | wrappers/vargalabs/include/h5cpp/H5Zpipeline.hpp:424-427 | A residual makes every piece of a row a chunk's width or what is left of the row if and only if it is the remainder, or there is none. |
| Split.WriterCutsRowsIff | wrappers/vargalabs/include/h5cpp/H5Zpipeline.hpp:341-427 | The reader cuts all rows right, the writer exactly those that are whole chunks or for which the residuals agree. |
| Split.TakesTooMuch | wrappers/vargalabs/include/h5cpp/H5Zpipeline.hpp:384-427 | Two inputs for which the writer takes a chunk's width where two elements are left. |
| PacketTable.RunKeepsInv | wrappers/vargalabs/include/h5cpp/H5Dappend.hpp:218-281 | Over every run of appends and flushes all blocks are whole chunks and fewer than N whole elements are buffered. |
| PacketTable.Conservation | wrappers/vargalabs/include/h5cpp/H5Dappend.hpp:218-281 | Over every safe run the buffered-block bytes followed by what is still pending are the appended scalars in order, and the direct blocks are the pointer chunks in order: nothing is lost, repeated or invented. |
| PacketTable.ConservedIff | wrappers/vargalabs/include/h5cpp/H5Dappend.hpp:218-281 | A sequence of calls conserves the scalars at every moment, whatever the scalars are, if and only if no pointer append meets pending elements while its write reaches their buffer. |
| PacketTable.UnsafeAppendLoses | wrappers/vargalabs/include/h5cpp/H5Dappend.hpp:218-228 | Every pointer append that meets pending elements and whose write reaches their buffer, after any run of calls, loses data for all scalars 0 or for all scalars 1. |
| PacketTable.UnsafeAppendLosesAnElement | wrappers/vargalabs/include/h5cpp/H5Dappend.hpp:218-228 | The smallest case of that: one pending element and one chunk. |
| PacketTable.OnlyFlushPads | wrappers/vargalabs/include/h5cpp/H5Dappend.hpp:331-355 | Padding appears only in blocks a flush wrote and is k copies of the fill value with 0 < k < N. |
| PacketTable.PointerChunkPrecedesBuffered | wrappers/vargalabs/include/h5cpp/H5Dappend.hpp:218-281 | In every run a pointer chunk directly follows what was written before it, and in a safe run the scalars pending when it came are the first to come behind it. |
| PacketTable.PoolRefinesBasic | wrappers/vargalabs/include/h5cpp/H5Dappend.hpp:331-364 | Over every run that is safe for the synchronous pipeline both pipelines are handed the same blocks and keep the same pending bytes. |
| PacketTable.PoolWritesSameRun | wrappers/vargalabs/include/h5cpp/H5Dappend.hpp:331-364 | If no filter minds writing over its input, they also store the same bytes for them, at the same places and in the same order. |
| PacketTable.OffsetsIncrease | wrappers/vargalabs/include/h5cpp/H5Dappend.hpp:221-224 | Write offsets are at least one chunk apart, so they never repeat. |
| PacketTable.OffsetAligned | wrappers/vargalabs/include/h5cpp/H5Dappend.hpp:221-224 | Write offsets stay congruent to the initial extent modulo the chunk length. |
| PacketTable.AlignedBlocksLand | wrappers/vargalabs/include/h5cpp/H5Dappend.hpp:275-278 | From a chunk-aligned extent every block of which the filters left something is found at its own offset, and nothing else changes. |
| PacketTable.MisalignedBlocksVanish | wrappers/vargalabs/include/h5cpp/H5Dappend.hpp:167-216 | From any other extent every chunk write is rejected and the dataset's chunks never change. |
| PacketTable.AnyCompletionOrder | wrappers/vargalabs/include/h5cpp/H5Dappend.hpp:356-363 | Every order in which the in-flight chunk writes could complete gives the same dataset. |
| PacketTable.PacketTable.constructor | wrappers/vargalabs/include/h5cpp/H5Dappend.hpp:167-216 | A new table starts at the dataset's extent with nothing buffered, its buffer being the pipeline's chunk0. |
| PacketTable.PacketTable.WriteBlock | wrappers/vargalabs/include/h5cpp/H5Dappend.hpp:219-225 | The extent grows by one chunk and the block is submitted at the old extent. |
| PacketTable.PacketTable.Append | wrappers/vargalabs/include/h5cpp/H5Dappend.hpp:268-281 | The object's step for a scalar is the value-level step: buffered, or written when the chunk is full. |
| PacketTable.PacketTable.AppendPtr | wrappers/vargalabs/include/h5cpp/H5Dappend.hpp:218-228 | The object's step for a pointer chunk is the value-level step, including what it does to the buffer. |
| PacketTable.PacketTable.FillElement | wrappers/vargalabs/include/h5cpp/H5Dappend.hpp:350-353 | The inner byte loop appends exactly one fill value. |
| PacketTable.PacketTable.FillRemainder | wrappers/vargalabs/include/h5cpp/H5Dappend.hpp:350-353 | The nested byte loop leaves the pending elements followed by N - n fill values. |
| PacketTable.PacketTable.FlushTable | wrappers/vargalabs/include/h5cpp/H5Dappend.hpp:331-364 | Flush writes the padded chunk if anything is pending; afterwards nothing is in flight and the disk is what sequential writes give. |
| ChunkView.Iterator.constructor | wrappers/vargalabs/include/h5cpp/H5Dranges.hpp:66-79 | A new iterator is coherent: its buffer is the chunk of its own offset; an end sentinel loads nothing. |
| ChunkView.Iterator.Copy | wrappers/vargalabs/include/h5cpp/H5Dranges.hpp:92-93 | A copy shares the pipeline and all positions. |
| ChunkView.Iterator.LoadChunk | wrappers/vargalabs/include/h5cpp/H5Dranges.hpp:106-109 | Loading makes the iterator coherent and records one load of its chunk. |
| ChunkView.Iterator.Deref | wrappers/vargalabs/include/h5cpp/H5Dranges.hpp:81-83 | A coherent iterator yields the dataset's element at its offset; any other one yields whatever its buffer holds in that slot. |
| ChunkView.Iterator.Next | wrappers/vargalabs/include/h5cpp/H5Dranges.hpp:86-91 | Incrementing keeps coherence and loads a chunk exactly at a chunk boundary before the end. |
| ChunkView.Iterator.PostNext | wrappers/vargalabs/include/h5cpp/H5Dranges.hpp:92-96 | The copy returned by post-increment stays coherent as long as the increment stays inside the chunk, and otherwise looks into the next chunk. |
| ChunkView.Iterator.DerefPostIncrement | wrappers/vargalabs/include/h5cpp/H5Dranges.hpp:92-96 | `*it++` yields the element at it, except at the end of a chunk that is not the last, where it yields the last slot of the following chunk. |
| ChunkView.PostIncrementIff | wrappers/vargalabs/include/h5cpp/H5Dranges.hpp:92-96 | It yields the iterator's element on every dataset of that shape if and only if it does not stand at the end of a chunk that is followed by another. |
| ChunkView.PostIncrementMisreads | wrappers/vargalabs/include/h5cpp/H5Dranges.hpp:92-96 | For every chunk length, element size and boundary a dataset on which it yields another element. |
| ChunkView.HeldByOne | wrappers/vargalabs/include/h5cpp/H5Dranges.hpp:86-96 | After any increments of an iterator and its copy, in any order, the common buffer holds the chunk of one of them as long as both are inside the dataset. |
| ChunkView.Advance | wrappers/vargalabs/include/h5cpp/H5Dranges.hpp:86-91 | One increment of either iterator keeps: whoever is in the chunk the buffer holds is coherent. |
| ChunkView.Interleave | wrappers/vargalabs/include/h5cpp/H5Dranges.hpp:86-96 | Over any sequence of increments of both, each reads its own element whenever it is in the chunk loaded last, and at least one of them does. |
| ChunkView.Visit | wrappers/vargalabs/include/h5cpp/H5Dranges.hpp:81-91 | One round of a range-for loop yields the element and extends the list of loads exactly at a chunk boundary. |
| ChunkView.Traverse | wrappers/vargalabs/include/h5cpp/H5Dranges.hpp:144-150 | A range-for loop over a view yields the dataset, loading each chunk once and in order. |
| ChunkView.LoadCount | wrappers/vargalabs/include/h5cpp/H5Dranges.hpp:106-109 | That is ceil(total / chunk) loads at strictly increasing offsets. |
| StreamCopy.AppendedContents | wrappers/vargalabs/include/h5cpp/H5Dappend.hpp:268-281 | Appending whole blocks to a readable aligned dataset makes it read as its old elements followed by the blocks' elements, for a lossless chain. |
| StreamCopy.FlushedStream | wrappers/vargalabs/include/h5cpp/H5Dappend.hpp:331-364 | Appending any elements and flushing writes them and fewer than N fill values, cut into chunks. |
| StreamCopy.CopyOne | bench/h5cpp/copy_gzip6.cpp:88-92 | One iteration appends the element under the iterator and advances it. |
| StreamCopy.CopyNext | bench/h5cpp/copy_gzip6.cpp:88-92 | It leads from having copied k elements to having copied k + 1, the iterator still reading the source. |
| StreamCopy.CopyLoop | bench/h5cpp/copy_gzip6.cpp:87-100 | At every exit the table is the run of appends of a prefix of the input, all of it unless the alarm went off. |
| StreamCopy.FlushStream | bench/h5cpp/copy_gzip6.cpp:103 | After the flush the disk is what sequential writes of the stream's blocks give. |
| StreamCopy.CopiedContents | wrappers/vargalabs/include/h5cpp/H5Dappend.hpp:331-364 | For every chain that restores what it is really applied to, a flushed stream reads back as the former contents, the stream and its padding. |
| StreamCopy.Copy | bench/h5cpp/copy_gzip6.cpp:87-103 | For all chunk sizes, inputs and chains lossless as the output pipeline applies them: afterwards the output reads as its former contents, the copied prefix and fewer than one chunk of fill values. |
| IterationLogic.RunKeepsInv | thirdparty/nanobench/nanobench.h:2205-2259 | In every reachable state: results within epochs, at least one iteration while running, totals equal to the sums over recorded epochs (the count modulo 2^64), and the phases and outcomes consistent. |
| IterationLogic.SumProductIsTotal | thirdparty/nanobench/nanobench.h:3027-3040 | sumProduct(iterations, elapsed) is the sum of the measured times, over the reals. |
| IterationLogic.TotalColumnIsMeasuredTime | thirdparty/nanobench/nanobench.h:2924-2931 | That equality, and mTotalElapsed, hold after every run under every clock. |
| IterationLogic.UpscaleGrows | thirdparty/nanobench/nanobench.h:2190-2203 | An upscaling step that goes on strictly increases the iteration count below 2^64, even when the tenfold product wraps unnoticed. |
| IterationLogic.StepBurnsFuel | thirdparty/nanobench/nanobench.h:2205-2259 | Each round of a run that stops strictly lowers a bound on the rounds left. |
| IterationLogic.SteadyClockNeverStops | thirdparty/nanobench/nanobench.h:2157-2171 | For any other settings a constant clock keeps the run going for ever. |
| IterationLogic.TerminatesIff | thirdparty/nanobench/nanobench.h:1212-1230 | A number of rounds suffices under every clock and noise if and only if the run is not endless with at least one epoch, or asks for no epochs and is endless or has a warmup; an undefined quotient or cast counts as an end. |
| IterationLogic.FinishesAtRate | thirdparty/nanobench/nanobench.h:1212-1230 | If every epoch takes time and no fewer than one tick per K iterations, and 1.2 times the larger of K times the target and minEpochIterations, plus 1, is below 2^64, then no run meets an undefined quotient or cast or the overflow report: each is going on or has recorded all epochs, and after a fixed number of rounds it has. |
| IterationLogic.AtRateRun | thirdparty/nanobench/nanobench.h:2205-2259 | In every state such a run reaches, the totals keep the rate and nothing is undefined. |
| IterationLogic.BestDefined | thirdparty/nanobench/nanobench.h:2174-2188 | calcBestNumIters yields a count for every epoch that takes time at such a rate. |
| IterationLogic.HowRunsEnd | thirdparty/nanobench/nanobench.h:2255-2259 | A run that finishes has recorded exactly the epochs asked for; one that ends with the overflow report has recorded none. |
| IterationLogic.WrapMissedIff | thirdparty/nanobench/nanobench.h:2190-2199 | The tenfold step goes on with a wrapped product if and only if, with k the number of wraps of 10x, k >= 1 and 9x >= k * 2^64. |
| IterationLogic.WrapMissedIntervals | thirdparty/nanobench/nanobench.h:2193-2199 | These counts are eight intervals: from k/9 of 2^64 up to (k+1)/10 of it, for k from 1 to 8. |
| IterationLogic.WrapCheckMissesWraps | thirdparty/nanobench/nanobench.h:2193-2199 | One of them from the start of a run: 2^61 iterations become 2^62. |
| IterationLogic.DividesByZeroIff | thirdparty/nanobench/nanobench.h:2174-2188 | Some clock makes calcBestNumIters divide by zero exactly under a condition on the settings alone; with a positive target that condition is a warmup without fixed epoch iterations and at least one epoch. |
| IterationLogic.RunFixedCounts | thirdparty/nanobench/nanobench.h:2205-2248 | With epochIterations set, every recorded epoch uses that count if there is no warmup; after a warmup the third and later ones do, and the second if the warmup epoch met the target. |
| IterationLogic.FixedFromSecondIff | thirdparty/nanobench/nanobench.h:2205-2248 | With epochIterations set, all recorded epochs from the second on use it under every clock if and only if there is no warmup, at most one epoch, a target of 0, no way for upscaling to go on, or both the minimum and the fixed count are 2^64 - 1. |
| IterationLogic.DifferingRun | thirdparty/nanobench/nanobench.h:2224-2235 | For all other settings a run whose second recorded epoch uses another count. |
| IterationLogic.SmallWarmupUpscales | thirdparty/nanobench/nanobench.h:2190-2203 | Below a tenth of 2^64 warmup iterations upscaling can always go on. |
| IterationLogic.SecondEpochNotFixed | thirdparty/nanobench/nanobench.h:2224-2231 | One such run in full: the second recorded epoch runs 10 iterations although 100 were fixed. |
| IterationLogic.Impl.constructor | thirdparty/nanobench/nanobench.h:2142-2171 | The four ways a run starts. |
| IterationLogic.Impl.AssignBest | thirdparty/nanobench/nanobench.h:2174-2188 | The next count is the computed best, or the undefined quotient or cast is reported. |
| IterationLogic.Impl.DoUpscale | thirdparty/nanobench/nanobench.h:2190-2203 | upscale on the object is the value-level step with 64-bit wrap-around. |
| IterationLogic.Impl.RecordEpoch | thirdparty/nanobench/nanobench.h:2228-2230 | Totals and results gain one epoch. |
| IterationLogic.Impl.Add | thirdparty/nanobench/nanobench.h:2205-2259 | add on the object is the value-level step. |
| IterationLogic.BenchRun | thirdparty/nanobench/nanobench.h:1212-1230 | The loop of Bench::run ends under every clock and returns the results of the run its readings determine: all epochs if it finished, each of the fixed count if one is set without warmup. |
| IterationRuns.RecordedIff | thirdparty/nanobench/nanobench.h:2211-2248 | In every run a round is recorded, with its reading and the iterations it ran, if and only if the iterations are fixed without a warmup, or the warmup, or a round behind it, took at least two thirds of the target; a warmup itself never is. |
| IterationRuns.CountFromTotals | thirdparty/nanobench/nanobench.h:2226-2246 | In every run without fixed iterations: after each recorded epoch the next count is within 1/2 of max(minEpochIterations, target * SumIters / SumElapsed) * (1 + noise / 5), the sums taken over all recorded epochs, while the sum of iterations is below 2^64. |
| IterationRuns.SteadyCount | thirdparty/nanobench/nanobench.h:2174-2188 | If every iteration takes time t and no noise is drawn, every count from the first recorded epoch on is within 1/2 of max(minEpochIterations, target / t). |
| IterationRuns.CountWhileUpscaling | thirdparty/nanobench/nanobench.h:2190-2203 | Until measuring begins, a round below a tenth of the target is followed by ten times its iterations, and any other by the aim that this round alone gives. |
| IterationRuns.CountAfterWarmup | thirdparty/nanobench/nanobench.h:2212-2216 | A warmup of two thirds of the target gives the first count by itself. |
| IterationRuns.FirstCount | thirdparty/nanobench/nanobench.h:2157-2171 | The iterations of the first round under each setting. |
| Rng.StepIsBijective | thirdparty/nanobench/nanobench.h:1165-1172 | The generator step has a two-sided inverse on pairs of 64-bit words. |
| Rng.StatesNeverMerge | thirdparty/nanobench/nanobench.h:1165-1172 | Two states coincide after n steps only if they were equal. |
| Rng.XorShiftInjective | thirdparty/nanobench/nanobench.h:3366-3368 | z ^ (z >> k) determines z for every k > 0. |
| Rng.MixInjective | thirdparty/nanobench/nanobench.h:3366-3368 | splitMix64's output determines its incremented state. |
| Rng.MixZeroIff | thirdparty/nanobench/nanobench.h:3366-3368 | That output is 0 only for state 0. |
| Rng.SeededNeverZero | thirdparty/nanobench/nanobench.h:3372-3378 | From every 64-bit seed the generator never reaches the all-zero state. |
| Rng.SeedsNeverCoincide | thirdparty/nanobench/nanobench.h:3372-3378 | Generators with different seeds are in different states after every number of steps. |
| Rng.SeededFromSplitMix | thirdparty/nanobench/nanobench.h:3362-3378 | Ten steps before the state of a seeded generator there are the first two outputs of splitMix64 from the seed, in order. |
| RngVectors.SplitMixVectors | thirdparty/nanobench/nanobench.h:3362-3369 | splitMix64's known first outputs from seed 0: e220a8397b1dcdaf and 6e789e6aa1b965f4. |
| RngVectors.StepVector | thirdparty/nanobench/nanobench.h:1165-1172 | The generator's first step from there, in numbers. |
| Rng.PickInBounds | thirdparty/nanobench/nanobench.h:1197-1200 | Both picks of a round are in bounds for every 64-bit size, wrap of the product included. |
| Rng.PickIff | thirdparty/nanobench/nanobench.h:1197-1200 | Below 2^32 a pick is b exactly if r / 2^32 lies in [b / size, (b + 1) / size). |
| Rng.PickReaches | thirdparty/nanobench/nanobench.h:1197-1200 | Every position is picked by some 32-bit number. |
| Rng.ShufflePermutes | thirdparty/nanobench/nanobench.h:1191-1203 | The shuffled sequence is a permutation from every generator state. |
| Rng.ShuffleIsOblivious | thirdparty/nanobench/nanobench.h:1191-1203 | It is one permutation of positions, independent of the contents. |
| Rng.RoundPlaces | thirdparty/nanobench/nanobench.h:1195-1201 | One round puts the element picked with the lower half of the number into the last place, the one then picked with the upper half into the place before, and leaves what lies behind. |
| Rng.ShuffleDrawn | thirdparty/nanobench/nanobench.h:1191-1203 | The shuffle uses the generator's next numbers in order, one for two places. |
| Rng.EveryPermutationReached | thirdparty/nanobench/nanobench.h:1191-1203 | For every size below 2^32 and every rearrangement of the elements there are drawn numbers under which the shuffle is that rearrangement. |
| Rng.Generator.constructor | thirdparty/nanobench/nanobench.h:3372-3378 | Seeding is two splitMix64 words and ten discarded steps. |
| Rng.Generator.Call | thirdparty/nanobench/nanobench.h:1165-1172 | A call returns the old x and takes the step. |
| Rng.Generator.SwapTwice | thirdparty/nanobench/nanobench.h:1195-1201 | On the array itself: which element gets into the last place and which into the one before, what lies behind stays, and nothing is lost; the last round of an even size included. |
| Rng.Generator.Shuffle | thirdparty/nanobench/nanobench.h:1191-1203 | The loop ends, leaves the array as the specified permutation and advances the generator by half the size. |
| Mustache.ParseMustacheTemplate | thirdparty/nanobench/nanobench.h:1496-1541 | On every string the parser ends and returns the specified nodes and cursor; each recursive call starts at least four characters later. |
| Mustache.ParseGoesOn | thirdparty/nanobench/nanobench.h:1515-1539 | After a text and a tag the nodes are those two followed by what parsing on from behind the tag or its section gives. |
| MustachePrinter.ParseShowsTree | thirdparty/nanobench/nanobench.h:1496-1541 | On every string the nodes, span by span, show the text tree of the template. |
| MustachePrinter.NodesAlternate | thirdparty/nanobench/nanobench.h:1511-1537 | Node lists have odd length, content exactly at even positions and every span inside the template. |
| MustachePrinter.PrintOfTree | thirdparty/nanobench/nanobench.h:1496-1541 | Where all sections are closed, texts, delimiters, names and closers tile the consumed text. |
| MustachePrinter.TreeIsWellFormed | thirdparty/nanobench/nanobench.h:1496-1541 | The tree of a template with closed sections is well formed: names and texts hold nothing the parser would have read as a delimiter. |
| MustachePrinter.ParseOfPrint | thirdparty/nanobench/nanobench.h:1496-1541 | Anywhere in a longer template, parsing the print of a well-formed tree returns the tree and stops behind it. |
| MustachePrinter.PrintThenParse | thirdparty/nanobench/nanobench.h:1496-1541 | Parsing the print of a well-formed tree returns it, in text and in spans. |
| MustachePrinter.ParseThenPrint | thirdparty/nanobench/nanobench.h:1496-1541 | Printing the tree of a balanced template gives the template, and no other well-formed tree prints to it: the two are inverse bijections. |
| MustachePrinter.PrintGivesBackIff | thirdparty/nanobench/nanobench.h:1496-1541 | For every string: printing what was parsed gives the string back if and only if all its sections are closed and it has no stray closing tag. |
| MustachePrinter.PrintOfUnclosed | thirdparty/nanobench/nanobench.h:1508-1513 | If a section is not closed, the parsed tree prints longer than the text it was parsed from. |
| MustachePrinter.NotClosed | thirdparty/nanobench/nanobench.h:1508-1513 | A template with a section that is not closed is read to its end, and the parser comes to such a section. |
| MustachePrinter.UnclosedSectionRepeatsText | thirdparty/nanobench/nanobench.h:1508-1513 | Every unclosed section, whatever tags it holds, ends with the template's final text, and the same text is the node behind it. |
| MustacheRender.GenerateFirstLast | thirdparty/nanobench/nanobench.h:1543-1566 | Renders the plain text of a -first/-last section when its condition holds; any node with one of these texts, whatever its kind, is consumed. |
| MustacheRender.GenerateResultMeasurement | thirdparty/nanobench/nanobench.h:1718-1745 | One measurement renders as specified on the text of the nodes, sections inside it raising an error. |
| MustacheRender.GenerateMeasurements | thirdparty/nanobench/nanobench.h:1933-1935 | All measurements are rendered in order. |
| MustacheRender.GenerateResult | thirdparty/nanobench/nanobench.h:1747-1776 | One result renders as specified, nested measurements included. |
| MustacheRender.Render | thirdparty/nanobench/nanobench.h:1903-1954 | The whole template renders as the specification on its nodes says, which `MustacheMeaning.RendersItsMeaning` ties to the meaning of the tree. |
| MustacheMeaning.RendersItsMeaning | thirdparty/nanobench/nanobench.h:1903-1954 | Every well-formed template, through parser and renderer, renders as what its tree means for the results: texts, tags of a single result or of the last one's config, sections repeated in order with the right index, `#-first`, `^-first`, `#-last` and `^-last` showing their texts where they should, errors where they arise. |
| MustacheMeaning.TagsFilled | thirdparty/nanobench/nanobench.h:1939-1951 | A template of texts and tags renders as the texts with the values in between, of a single result or of the last one's config if there are several, or as the error at the first unknown name. |
| MustacheMeaning.FilledIff | thirdparty/nanobench/nanobench.h:1939-1951 | It renders without error exactly if all names are known. |
| MustacheMeaning.SectionOfOneResult | thirdparty/nanobench/nanobench.h:1920-1943 | With a single result a template without -first, -last and {{#result}} renders the same inside of {{#result}} and outside. |
| MustacheRender.UndefinedIff | thirdparty/nanobench/nanobench.h:1941-1951 | Rendering reads past an empty list of results if and only if there are none and a top-level tag stands before every inverted node and every section other than result. |
| MustacheRender.OneTagIsUndefined | thirdparty/nanobench/nanobench.h:1941-1951 | The template {{x}} does so. |
| MustacheRender.SwallowedInMeasurementIff | thirdparty/nanobench/nanobench.h:1720 | In a measurement a text or tag is consumed if and only if it reads -first or -last, and renders as itself otherwise. |
| MustacheRender.SwallowedInResultIff | thirdparty/nanobench/nanobench.h:1750 | The same in a result. |
| MustacheRender.SwallowedIff | thirdparty/nanobench/nanobench.h:1718-1745 | Through parser and renderer, for every well-formed body: {{#measurement}}body{{/..}} shows every text and tag of the body for every result if and only if none of them reads -first or -last, or the body holds a section that raises an error. |
| MustacheRender.UnknownThrows | thirdparty/nanobench/nanobench.h:1731-1738 | Such a section raises its error for every measurement, whatever else is in the body. |
| MustacheRender.NothingSwallowed | thirdparty/nanobench/nanobench.h:1718-1745 | If none does, a body renders plainly for every measurement, errors included. |
| MustacheRender.SomethingSwallowed | thirdparty/nanobench/nanobench.h:1718-1745 | If one does, a body renders shorter than plainly for a result with one measurement whose tags all read x. |
| MustacheRender.SwallowedThroughParser | thirdparty/nanobench/nanobench.h:1931-1935 | A measurement section of plain text renders as the text once per measurement, or as nothing if it is one of the two names. |
| MustacheRender.TextFirstIsSwallowed | thirdparty/nanobench/nanobench.h:1545-1549 | {{#measurement}}-first{{/}} renders as nothing for every result. |
| MustacheRender.RenderPrinted | thirdparty/nanobench/nanobench.h:1903-1954 | Rendering a printed tree depends on the tree only. |
| MustacheRender.SeparatedMeasurements | thirdparty/nanobench/nanobench.h:1543-1566 | k measurements of a body with a {{^-last}} separator render as the bodies, each but the last of all followed by it. |
| MustacheRender.SeparatorIsJoin | thirdparty/nanobench/nanobench.h:1931-1935 | Through parser and renderer: {{#measurement}}body{{^-last}}sep{{/..}}{{/..}} renders as the bodies joined by sep, for any number of measurements. |
| MustacheRender.ResultSeparatorIsJoin | thirdparty/nanobench/nanobench.h:1920-1924 | {{#result}}body{{^-last}}sep{{/..}}{{/..}} renders as the results' bodies joined by sep, for any number of results. |
| Inspector.FlatSize | wrappers/highfive/include/highfive/bits/compute_total_size.hpp:10-12 | The stream of a value with dimensions dims has product(dims) entries. |
| Inspector.StreamIsRowMajor | wrappers/highfive/include/highfive/boost_multi_array.hpp:84-92 | For every nesting the element with coordinates c stands at the row-major position of c in the stream. |
| Inspector.Serialize | wrappers/highfive/include/highfive/boost_multi_array.hpp:84-92 | Serializing fills exactly the product(dims) slots from its position on with the value's stream and changes no other. |
| Inspector.SerializeElems | wrappers/highfive/include/highfive/bits/H5Inspector_misc.hpp:270-280 | The vector's moving pointer and the multi_array's i * subsize address the same slots. |
| Inspector.PrepareFits | wrappers/highfive/include/highfive/boost_multi_array.hpp:47-65 | A prepared value has exactly the requested dimensions. |
| Inspector.Unserialize | wrappers/highfive/include/highfive/boost_multi_array.hpp:94-104 | Reading back fills a prepared value whose stream is the slots read. |
| Inspector.UnserializeElems | wrappers/highfive/include/highfive/bits/H5Inspector_misc.hpp:282-289 | Each element is read from its own run of slots. |
| Inspector.DimensionsFit | wrappers/highfive/include/highfive/boost_multi_array.hpp:31-45 | The dimensions reported for a rectangular value fit all of it. |
| Inspector.FlatDecides | wrappers/highfive/include/highfive/boost_multi_array.hpp:84-104 | Dimensions and stream determine the value. |
| Inspector.WriteThenRead | wrappers/highfive/include/highfive/boost_multi_array.hpp:47-104 | For every rectangular value of every nesting, writing and reading back returns it, exactly when its dimensions are defined. |
| Inspector.DimensionsUndefinedIff | wrappers/highfive/include/highfive/boost_multi_array.hpp:27-45 | getDimensions reads a missing element exactly when, going down first elements, an empty multi_array of containers is met. |
| EigenInspector.PlaceInjective | wrappers/highfive/include/highfive/eigen.hpp:78-83 | No two entries share a place in storage. |
| EigenInspector.Matrix.StreamEntry | wrappers/highfive/include/highfive/eigen.hpp:74-86 | Entry (i, j) stands in the stream at its row-major position, whatever the storage order. |
| EigenInspector.Matrix.StreamOfStorage | wrappers/highfive/include/highfive/eigen.hpp:58-86 | Row-major storage is the stream; column-major storage is the stream once it is read by rows. |
| EigenInspector.ByRowsAt | wrappers/highfive/include/highfive/eigen.hpp:80-84 | Read by rows, what lies at j * rows + i comes to i * cols + j. |
| EigenInspector.ByRowsBack | wrappers/highfive/include/highfive/eigen.hpp:74-110 | Reading by rows and by columns undo each other. |
| EigenInspector.StorageIsStreamIff | wrappers/highfive/include/highfive/eigen.hpp:25-36 | The storage of a column-major matrix can be handed over as it lies, whatever the entries, if and only if it has at most one row or one column. |
| EigenInspector.TwoByThree | wrappers/highfive/include/highfive/eigen.hpp:80-84 | The 2 x 3 matrix kept as 0 1 2 3 4 5 by columns is streamed as 0 2 4 1 3 5. |
| EigenInspector.Matrix.Prepare | wrappers/highfive/include/highfive/eigen.hpp:50-56 | A matrix of another shape is resized; a mapped one refuses exactly then. |
| EigenInspector.Matrix.Serialize | wrappers/highfive/include/highfive/eigen.hpp:74-86 | The output is the row-major stream, that is the storage as it lies for row-major matrices and the storage read by rows for column-major ones; nothing around it changes. |
| EigenInspector.Matrix.Unserialize | wrappers/highfive/include/highfive/eigen.hpp:88-110 | With two dimensions or more the storage becomes the stream read, as it lies or by columns according to the order; with fewer it refuses and changes nothing. |
| EigenInspector.WriteThenRead | wrappers/highfive/include/highfive/eigen.hpp:50-110 | Between matrices of any two storage orders every entry is copied, and with equal orders the storages agree. |
| Hyperslab.SelectedIff | wrappers/vargalabs/include/h5cpp/H5Dwrite.hpp:145-155 | A coordinate is selected exactly when in each dimension it lies in one of the count blocks. |
| Hyperslab.WriteSelectsIff | wrappers/vargalabs/include/h5cpp/H5Dwrite.hpp:133-155 | A write without a block goes to the box of count elements at the offset, missing arguments standing for offset 0 and count 1; one with a block to count / block blocks, a stride apart. |
| Hyperslab.ReadSelectsIff | wrappers/vargalabs/include/h5cpp/H5capi.hpp:136-141 | A read goes to as many blocks of count elements as a block has, a stride apart from the offset on. |
| Hyperslab.SelectedInOrder | wrappers/vargalabs/include/h5cpp/H5Dwrite.hpp:145-155 | A legal selection inside the extent runs through strictly increasing row-major places, none of them twice. |
| Hyperslab.AllInOrder | wrappers/vargalabs/include/h5cpp/H5Dwrite.hpp:156-157 | Selecting everything takes element k from row-major place k. |
| Hyperslab.SelectionSize | wrappers/vargalabs/include/h5cpp/H5Dread.hpp:73-75 | A selection has product(count * block) elements, for a read as many as its memory although the two are swapped. |
| Hyperslab.AxisSwaps | wrappers/vargalabs/include/h5cpp/H5capi.hpp:136-141 | In one dimension k blocks of b positions are b blocks of k if and only if k == b, or one of them is 1 and the stride is 1. |
| Hyperslab.SelectionsAgreeIff | wrappers/vargalabs/include/h5cpp/H5capi.hpp:136-141 | A write and the read with its arguments select the same if and only if there is no block, nothing is selected, or every dimension is such that count and block may be swapped. |
| Hyperslab.HarmlessIsLegal | wrappers/vargalabs/include/h5cpp/H5capi.hpp:136-141 | Where they may be swapped and something is selected, the read's selection is legal if the write's is. |
| Hyperslab.WriteLegalReadIllegal | wrappers/vargalabs/include/h5cpp/H5Dread.hpp:132 | Count 8, block 2, stride 3: the write is legal, the matching read asks for overlapping blocks. |
| Hyperslab.ReadSelectsOther | wrappers/vargalabs/include/h5cpp/H5Dread.hpp:132 | Count 8, block 2, stride 5: both are legal, and the read selects place 2, which was not written. |
| Hyperslab.StrideIgnored | wrappers/vargalabs/include/h5cpp/H5Dwrite.hpp:151-155 | Without a block the write and the read ask for the same single block, whatever stride was given. |
| Hyperslab.IgnoredStrideIff | wrappers/vargalabs/include/h5cpp/H5Dwrite.hpp:151-155 | That single block is what the count and stride ask for if and only if nothing is selected, or every dimension has a single element or stride 1. |
| Hyperslab.StrideOfTwoIgnored | wrappers/vargalabs/include/h5cpp/H5Dwrite.hpp:151-155 | Count 2, stride 2: places 0 and 1 are written and read instead of 0 and 2. |
| Hyperslab.WriteSizeIff | wrappers/vargalabs/include/h5cpp/H5Dwrite.hpp:84-89 | Selection and memory sizes of a write agree exactly without a block, for an empty write, or when each block divides its count. |
| Hyperslab.ReadBack | wrappers/vargalabs/include/h5cpp/H5Dread.hpp:124-133 | For every accepted write whose arguments allow it the matching read is accepted and returns the data, and every other element is as it was. |
| Hyperslab.ReadBackIff | wrappers/vargalabs/include/h5cpp/H5Dread.hpp:61-133 | The matching read returns whatever was written, over whatever was there, if and only if the arguments meet a condition a caller can check before the write. |
| Hyperslab.Normalize | wrappers/vargalabs/include/h5cpp/H5Dwrite.hpp:149 | The loop divides the first rank counts by their blocks and leaves the others. |
| Hyperslab.MemorySize | wrappers/vargalabs/include/h5cpp/H5Dread.hpp:73-75 | The loop multiplies each count by its block. |
| Hyperslab.Dataset.Write | wrappers/vargalabs/include/h5cpp/H5Dwrite.hpp:133-157 | A write succeeds exactly when HDF5 accepts the selection it asks for, and then stores the data at its coordinates in order. |
| Hyperslab.Dataset.Read | wrappers/vargalabs/include/h5cpp/H5Dread.hpp:61-133 | A read fails for another rank or a bad selection and otherwise returns the selected elements in order, as many as the memory holds. |
| BigO.FitConstant | thirdparty/nanobench/nanobench.h:3417-3442 | The two loops find the unique constant of least squared error and that error's mean, failing exactly when every range value is 0. |
| BigO.ErrorAboveMinimum | thirdparty/nanobench/nanobench.h:3420-3436 | Every constant's error exceeds the fitted one's by the sum of squares times the squared distance. |
| BigO.ExactIff | thirdparty/nanobench/nanobench.h:3430-3436 | The error is 0 exactly when all times are proportional to the complexity. |
| BigO.CollectRangeMeasure | thirdparty/nanobench/nanobench.h:3407-3415 | The loop collects in order. |
| BigO.CollectedIff | thirdparty/nanobench/nanobench.h:3407-3415 | Exactly the benchmarks with a positive N are collected. |
| BigO.LinearFit | thirdparty/nanobench/nanobench.h:3407-3442 | The fit of what was collected is defined exactly when one benchmark set its N, and is optimal. |
| CompressBound.MarginIff | thirdparty/zstd/zstd.h:249 | The margin is at least k exactly for inputs at least k times 2 KB short of 128 KB, and 64 at most. |
| CompressBound.FitsIff | thirdparty/zstd/zstd.h:248-249 | The unwrapped sum fits size_t exactly up to the maximum input size. |
| CompressBound.NoOverflow | thirdparty/zstd/zstd.h:249 | Below the maximum no sum wraps and the bound is at least the input. |
| CompressBound.ZeroIff | thirdparty/zstd/zstd.h:248-249 | The macro is 0 exactly for inputs that are too large. |
| CompressBound.Monotone | thirdparty/zstd/zstd.h:249 | A larger input has at least as large a bound, across the 128 KB threshold too. |
| CompressBound.PairIff | thirdparty/zstd/zstd.h:249 | Two parts fit the bound of their sum exactly when their margins are covered by the sum's margin and the carry. |
| CompressBound.PartsWithinBound | thirdparty/zstd/zstd.h:249 | The bounds of any number of parts of at least 128 KB add up to at most the bound of the whole. |
| CompressBound.SmallPartsNeedMore | thirdparty/zstd/zstd.h:249 | 128 KB and 126 KB together already need more than the bound of their sum. |

## Left out

- Packet tables: `reset`, strings, appends of whole containers, a dataset without a fill value, and
  chunk dimensions behind the first (a chunk is N elements in storage order).
- HDF5 itself: handles, property lists, error classes, attributes, type conversion; a call either
  has the effect described above or is refused.
- Of the pipelines' splitting of N-dimensional selections into chunks, everything but the length of the
  pieces of a row; the pooled parallel read.
- A pool whose cap is 0, with which the source's back-pressure loop would not end; in `Pipeline.Pipe`
  a cap of 0 stands for the synchronous pipeline.
- The pooled pipeline without a pool, a fallback its own comment calls unreachable.
- Filter internals other than shuffle and Gorilla; of shuffle, chunks that end in part of an element;
  of Gorilla, the bridge that registers it with HDF5.
- GorillaFilter.Run: asks for an output buffer that takes the result, and for encoded bytes that do not
  end before their values do; the source checks neither, and `GorillaFilter.Decoded` makes nothing of
  such bytes.
- GorillaFilter.FourBytesFitIff: takes what deflate asks for as a parameter, since its bound is part of
  the compression library.
- Iterators: incrementing past the end, comparison of iterators of different datasets.
- The copy benchmark's checksum and progress reports.
- nanobench: clock resolution and clamping of the target (an input here), performance counters,
  console tables, `elapsed * 10` and the sum of elapsed times beyond 63 bits, the
  rounding of doubles.
- `Rng::bounded` and the bits of `uniform01`, whose value enters as arbitrary noise.
- Rendering: number formatting, the commands inside result tags, and the output already written when
  an error is raised.
- BigO: the square root of the mean error, the median, the ordering of fits.
- HighFive: `std::array`, `std::vector<bool>`, strings, Eigen matrices of containers (their
  `serialize` passes the outer dimensions inward), multi_arrays in another than C order (an error),
  ragged containers, for which the reported dimensions describe the first elements only.
- h5cpp `write` and `read`: the variable-length, scalar-dataspace and high-throughput paths.
- Hyperslab.Legal: asks for legal strides in every dimension, where HDF5 stops checking at a dimension
  in which nothing is selected.
- IterationLogic.TerminatesIff: counts a run as ended where the source's behaviour is undefined;
  `IterationLogic.FinishesAtRate` says when that does not happen.
- zstd: everything except the two macros.
