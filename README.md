# DShuffle core, modelled in Dafny

DShuffle moves data between a host and a DOCA BlueField device. It is a C++
RPC and bulk-transfer transport with a shuffle/spill pipeline, and a Java
object serializer built on top of it. This project models the sequential
core of the system and proves properties of that model. Each source file
has a Dafny module of its own, in the same form as the source: classes with
mutable fields and loops where the source updates state step by step, and
datatypes, functions and lemmas where it only computes.

- **RPC transport** (`rpc_header.dfy`, `rpc_concept.dfy`, `transport.dfy`,
  `endpoint_lifecycle.dfy`, `op_context.dfy`, `comch_endpoint.dfy`,
  `rdma_endpoint.dfy`, `tcp_endpoint.dfy`):
  - the 16-byte payload header and its flag bits;
  - the split of an RPC list into oneway and normal RPCs;
  - the `Transport` engine: sequence numbers, outstanding calls, handler
    tables, the serve and response-progress steps;
  - the endpoint status machine (Idle, Ready, Running, Stopping, Exited);
  - bulk accounting in the DMA, RDMA and socket endpoints.
- **Memory** (`memory_region.dfy`, `naive_buffer.dfy`, `local_buffer.dfy`,
  `buffer_pool.dfy`, `simple_allocator.dfy`, `upper_align.dfy`,
  `object_pool.dfy`): region predicates, piece slicing, the FIFO buffer
  pool, the bump allocator, `upper_align` and the object pool.
- **Spill and shuffle** (`partition_buffer.dfy`, `spill_agent.dfy`,
  `shuffle_worker.dfy`, `partitioner.dfy`):
  - partition buffers and append-or-spill;
  - task routing and the round-robin transfer queue;
  - the scatter of partitions and the byte-level key/value partitioner.
- **Serializer** (`rw_buffer.dfy`, `chain_map.dfy`, `basic_types.dfy`,
  `jvm_args.dfy`, `class_info.dfy`, `class_registry.dfy`, `class_walk.dfy`,
  `class_resolver.dfy`, `field_layout.dfy`, `record_format.dfy`,
  `record_parse.dfy`, `record_round_trip.dfy`, `object_walker.dfy`,
  `object_reviver.dfy`, `serialize_context.dfy`, `kernel_buffer.dfy`,
  `kernel_serializer.dfy`, `device_mem.dfy`, `dpa_thread.dfy`):
  - the cursor buffer and the two chained hash maps;
  - type tables and compressed pointers;
  - class-info records and the class registry;
  - the record format written by `ObjectWalker` and read back by
    `ObjectReviver`, with the round trip proved;
  - batched array serialization;
  - the device-side serializer and its `d_memcpy`/`d_memset`;
  - the DPA thread slot table.
- **Utilities** (`hex_dump.dfy`, `numerals.dfy`, `serde_input_stream.dfy`,
  `huge_bench.dfy`): the hex dump, the Java stream that reads
  length-prefixed records, and the benchmark's size table.

Shared definitions live in `wrappers.dfy` (`Option`, `Result`), `bytes.dfy`
(fixed-width integer types and little-endian encoding) and `arith.dfy`
(small non-linear arithmetic facts).

Some things become parameters:
- a completion reported by the DOCA SDK, socket or device becomes the byte
  count or status it reports;
- an RPC id, which the source takes from a SHA-1 hash of the name, becomes a
  function of the name;
- the bytes that device threads copy back become an input of the host code.

The JVM heap is modelled as values: an object is a `JObj` datatype, and a
klass is a `Klass` datatype.

## Model

| member | source | states |
|---|---|---|
| Alignment.UpperAlign | lib/util/upper_align.hxx:9-12 | the result is a multiple of `align` and lies in `[x, x + align)` |
| Alignment.AlignedIsFixpoint | lib/util/upper_align.hxx:9-12 | an already aligned value is returned unchanged |
| Alignment.UpperAlignIdempotent | lib/util/upper_align.hxx:9-12 | aligning twice gives the same value as aligning once |
| Alignment.UpperAlignIsLeast | lib/util/upper_align.hxx:9-12 | the result is the least multiple of `align` that is at least `x` |
| MemoryRegions.ContainReflexive | lib/memory/memory_region.hxx:32-38 | a region contains itself exactly when it is not empty |
| MemoryRegions.ContainTransitive | lib/memory/memory_region.hxx:16-18 | containment is transitive |
| MemoryRegions.WithinIsConverseOfContain | lib/memory/memory_region.hxx:34-38 | `a.within(b)` holds exactly when `b.contain(a)` |
| MemoryRegions.EmptyRelatesToNothing | lib/memory/memory_region.hxx:32-42 | an empty region neither contains, lies within nor overlaps any region, in either direction |
| MemoryRegions.ContainImpliesOverlap | lib/memory/memory_region.hxx:12-18 | a region overlaps every region it contains, both ways round |
| MemoryRegions.OverlapSymmetric | lib/memory/memory_region.hxx:12-14 | overlap is symmetric |
| MemoryRegions.TouchingRegionsOverlap | lib/memory/memory_region.hxx:12-14 | two non-empty regions where one ends at the other's start count as overlapping (the test uses `<=`) |
| MemoryRegions.EqualityIgnoresDescriptor | lib/memory/memory_region.hxx:44 | two remote buffers compare equal exactly when base and length agree, whatever their descriptors |
| LocalBuffers.View | lib/memory/local_buffer.hxx:19-22 | the bytes of the buffer, one per index, `len` of them |
| LocalBuffers.At | lib/memory/local_buffer.hxx:19-26 | indexing returns byte `i` of the buffer's bytes |
| LocalBuffers.Reset | lib/memory/local_buffer.hxx:28-33 | the buffer's bytes become zeros and every byte outside it keeps its value; an empty buffer changes nothing |
| NaiveBuffers.OwnedBuffer.constructor | lib/memory/naive_buffer.hxx:25-27 | a fresh allocation of exactly `size` bytes at the given address |
| NaiveBuffers.OwnedBuffer.Aligned | lib/memory/naive_buffer.hxx:21-24 | the allocation's length is `upper_align(size, align)`: a multiple of `align` at least `size` and less than `size + align` |
| NaiveBuffers.OwnedBuffer.Borrow | lib/memory/naive_buffer.hxx:34 | the borrowed view has the owner's base and length, so a non-empty view and the owner's region lie within each other |
| NaiveBuffers.Pieces | lib/memory/naive_buffer.hxx:41-46 | the handle list has `n` pieces, or none when the piece length is 0 |
| NaiveBuffers.PiecesDisjoint | lib/memory/naive_buffer.hxx:43-45 | a later piece starts at or after the end of every earlier piece |
| NaiveBuffers.PiecesWithin | lib/memory/naive_buffer.hxx:41-45 | every piece lies within the `n * piece_len` allocation |
| NaiveBuffers.Buffers.constructor | lib/memory/naive_buffer.hxx:41-46 | one fresh allocation of `piece_len * n` bytes cut into the pieces `Pieces(addr, n, piece)` |
| NaiveBuffers.Buffers.NumElements | lib/memory/naive_buffer.hxx:50 | on a valid `Buffers`, the handles are exactly the first k pieces of the owned allocation, the allocation is `piece_len * k` bytes, and for a positive piece length k is the allocation size divided by the piece length |
| BufferPools.BufferPool.Local | lib/memory/simple_buffer_pool.hxx:69-73 | a piece of the pool is a region inside the owned allocation of the same length |
| BufferPools.BufferPool.constructor | lib/memory/simple_buffer_pool.hxx:30-35 | the free list holds every piece in order, single-threaded, and the whole allocation is zero |
| BufferPools.BufferPool.Populate | lib/memory/simple_buffer_pool.hxx:31-34 | each piece is reset and queued: the queue becomes the handle list and every byte is zero |
| BufferPools.BufferPool.HandlesArePieces | lib/memory/naive_buffer.hxx:43-45 | every handle passes the release assertion's test (right size, inside the allocation) |
| BufferPools.BufferPool.ZeroPiece | lib/memory/simple_buffer_pool.hxx:32 | resetting piece `i` extends the zeroed prefix of the allocation by one piece |
| BufferPools.BufferPool.EnableMt | lib/memory/simple_buffer_pool.hxx:38 | the multithreaded flag is set and the queue is unchanged |
| BufferPools.BufferPool.AcquireOne | lib/memory/simple_buffer_pool.hxx:40-68 | an empty queue gives nothing and stays empty; otherwise the front piece is returned and removed |
| BufferPools.BufferPool.ReleaseOne | lib/memory/simple_buffer_pool.hxx:48-74 | the released piece is zeroed, every other byte is kept, and the piece joins the back of the queue |
| SimpleAllocators.Offsets | lib/memory/simple_allocator.hxx:17-29 | a run of allocations gives one offset per request |
| SimpleAllocators.OffsetsDisjoint | lib/memory/simple_allocator.hxx:20-24 | successive allocations never overlap and each starts 8-aligned |
| SimpleAllocators.OffsetsAtLeast | lib/memory/simple_allocator.hxx:20-21 | no allocation starts before the starting position, and each starts 8-aligned |
| SimpleAllocators.SimpleAllocator.constructor | lib/memory/simple_allocator.hxx:15 | the allocator starts at position 0 with the region's base and size as handle and limit |
| SimpleAllocators.SimpleAllocator.Allocate | lib/memory/simple_allocator.hxx:17-29 | returns base plus the old position; the new position is the old one plus `size`, rounded up to 8, and so strictly greater and less than 8 past the end of the request |
| SimpleAllocators.SimpleAllocator.Allocated | lib/memory/simple_allocator.hxx:31-34 | the bytes allocated so far, always a multiple of 8 |
| ObjectPools.SimpleObjectPool.constructor | lib/util/simple_object_pool.hxx:18 | an empty pool with the given capacity and nothing handed out |
| ObjectPools.SimpleObjectPool.Size | lib/util/simple_object_pool.hxx:26 | the number of objects waiting in the queue |
| ObjectPools.SimpleObjectPool.Add | lib/util/simple_object_pool.hxx:30 | the object joins the back of the queue |
| ObjectPools.SimpleObjectPool.Acquire | lib/util/simple_object_pool.hxx:32-44 | nothing from an empty queue; otherwise the front object is removed, returned and recorded as handed out |
| ObjectPools.SimpleObjectPool.Release | lib/util/simple_object_pool.hxx:46-54 | an object that was handed out is no longer handed out and rejoins the back of the queue |
| Bytes.LE | lib/sd/native/rw_buffer.hxx:16-19 | the little-endian image of a value below `256^n` is exactly `n` bytes long |
| Bytes.FromLE | lib/sd/native/rw_buffer.hxx:34-38 | reading `n` bytes little-endian gives a value below `256^n` |
| Bytes.FromLEOfLE | lib/sd/native/rw_buffer.hxx:16-38 | reading back what was stored gives the stored value |
| Bytes.LEOfFromLE | lib/sd/native/rw_buffer.hxx:16-38 | storing what was read gives the bytes back |
| Bytes.LEInjective | lib/sd/native/rw_buffer.hxx:16-19 | two values of the same width with the same image are equal |
| Bytes.Zeros | lib/sd/native/rw_buffer.hxx:69 | `n` zero bytes |
| Bytes.WriteBytes | lib/sd/native/rw_buffer.hxx:21 | `memcpy` into a buffer: the copied bytes replace as many bytes as the source holds at the offset and every other byte keeps its value |
| Bytes.WrittenParts | lib/sd/native/rw_buffer.hxx:21 | after such a copy the prefix and suffix are unchanged and the window holds the source |
| Bytes.FillBytes | lib/sd/native/rw_buffer.hxx:69 | `memset`: `n` copies of the value replace the window and nothing else changes |
| EndpointLifecycle.Next | lib/trans/common/endpoint.hxx:24-46 | exactly the four asserted steps Idle→Ready, Ready→Running, Running→Stopping, Stopping→Exited are allowed, and each moves one rank up |
| EndpointLifecycle.ApplyAdvances | lib/trans/common/endpoint.hxx:24-46 | a run of allowed steps ends exactly as many ranks up as it has steps |
| EndpointLifecycle.ExitedIsFinal | lib/trans/common/endpoint.hxx:42-46 | no step is allowed out of Exited |
| EndpointLifecycle.OnlyFullLifecycleReachesExited | lib/trans/common/endpoint.hxx:24-46 | the only way from Idle to Exited is prepare, run, stop, shutdown in that order |
| EndpointLifecycle.EndpointBase.constructor | lib/trans/common/endpoint.hxx:14 | the endpoint starts in the given status (Idle by default) |
| EndpointLifecycle.EndpointBase.Prepare | lib/trans/common/endpoint.hxx:24-28 | from Idle, the status becomes Ready |
| EndpointLifecycle.EndpointBase.Run | lib/trans/common/endpoint.hxx:30-34 | from Ready, the status becomes Running |
| EndpointLifecycle.EndpointBase.Stop | lib/trans/common/endpoint.hxx:36-40 | from Running, the status becomes Stopping |
| EndpointLifecycle.EndpointBase.Shutdown | lib/trans/common/endpoint.hxx:42-46 | from Stopping, the status becomes Exited |
| RpcConcept.DefaultHandler | lib/trans/concept/rpc.hxx:26-31 | the dummy handler answers a normal RPC with a default-constructed response and a oneway RPC with nothing |
| RpcConcept.FilterMembers | lib/trans/concept/rpc.hxx:72-84 | the filter keeps exactly the members that satisfy the predicate and is no longer than its input |
| RpcConcept.FilterConcat | lib/trans/concept/rpc.hxx:80-84 | filtering a concatenation is the concatenation of the filtered parts |
| RpcConcept.SplitAppend | lib/trans/concept/rpc.hxx:88-106 | a new oneway RPC is appended to the oneway list and leaves the normal list alone, and the reverse for a normal RPC |
| RpcConcept.FilterAll | lib/trans/concept/rpc.hxx:80-84 | a filter that every member passes returns its input |
| RpcConcept.SplitIsPartition | lib/trans/concept/rpc.hxx:88-106 | the oneway and normal lists together hold every RPC exactly once: the oneway list the void-response ones, the normal list the others |
| RpcHeader.DefaultIsPlainRequest | lib/trans/common/rpc.hxx:7-10 | a default header (all zero) is neither a response nor a oneway request (also lines 36-38) |
| RpcHeader.MarkRespEffect | lib/trans/common/rpc.hxx:22-36 | `as_resp` sets the response bit, keeps the oneway bit, the other flag bits, the sequence number and the id, and is idempotent |
| RpcHeader.MarkOnewayReqEffect | lib/trans/common/rpc.hxx:27-38 | `as_oneway_req` sets the oneway bit, keeps the response bit, the other flag bits, the sequence number and the id, and is idempotent |
| RpcHeader.Encode | lib/trans/common/rpc.hxx:7-10 | the packed header is 16 bytes (also line 41) |
| RpcHeader.Decode | lib/trans/common/rpc.hxx:7-10 | a header can be read exactly when at least 16 bytes are present (also line 41) |
| RpcHeader.DecodeEncode | lib/trans/common/rpc.hxx:7-10 | reading the packed header back, whatever follows it, gives the header |
| RpcHeader.PayloadHeader.constructor | lib/trans/common/rpc.hxx:8-10 | a fresh header is all zero |
| RpcHeader.PayloadHeader.WithSeq | lib/trans/common/rpc.hxx:12-15 | only the sequence number changes, to the given one |
| RpcHeader.PayloadHeader.WithId | lib/trans/common/rpc.hxx:17-20 | only the id changes, to the given one |
| RpcHeader.PayloadHeader.AsResp | lib/trans/common/rpc.hxx:22-25 | the header becomes `MarkResp` of the old one |
| RpcHeader.PayloadHeader.AsOnewayReq | lib/trans/common/rpc.hxx:27-30 | the header becomes `MarkOnewayReq` of the old one |
| OpContexts.OpContext.constructor | lib/trans/common/context.hxx:14 | the length is the local buffer's size, nothing is transferred yet and there is no remote buffer |
| OpContexts.OpContext.WithLen | lib/trans/common/context.hxx:15 | the length is the given one, nothing is transferred yet |
| OpContexts.OpContext.Bulk | lib/trans/common/context.hxx:21-22 | a bulk context's length is the remote buffer's size |
| OpContexts.OpContext.Resolve | lib/trans/priv/doca/rdma/endpoint.cxx:221-239 | setting the operation's result appends that value and leaves the transferred count alone |
| OpContexts.DocaOutcome | lib/trans/priv/doca/rdma/endpoint.cxx:215-246 | a bad-state failure resolves with 0; a message operation, or a bulk operation whose transferred count reached its length, resolves with the count on success and with minus the status on failure; any other bulk chunk resolves nothing |
| OpContexts.Delivered | lib/trans/priv/doca/rdma/endpoint.cxx:217-246 | at most one value is delivered, exactly when the outcome has one |
| OpContexts.DocaComplete | lib/trans/priv/doca/comch/endpoint.cxx:227-268 | a completion on a stopped endpoint changes nothing; otherwise the transferred count grows by the chunk's length and the outcome, if any, is delivered |
| OpContexts.AllChunksSucceed | lib/trans/priv/doca/comch/endpoint.cxx:91-112 | when every chunk of a bulk operation succeeds and the chunks add up to its length, exactly one result is delivered, the full length (also lines 253-260) |
| OpContexts.RegisterRemote | lib/trans/priv/doca/comch/endpoint.cxx:116-128 | an empty slot takes the remote region, the same region again is accepted unchanged, and a different region is the fatal duplicate registration |
| ComchEndpoints.Chunks | lib/trans/priv/doca/comch/endpoint.cxx:91-112 | every DMA task of a bulk operation has the operation's direction and a non-empty length |
| ComchEndpoints.Lengths | lib/trans/priv/doca/comch/endpoint.cxx:97 | one DMA task length per task |
| ComchEndpoints.ChunkShape | lib/trans/priv/doca/comch/endpoint.cxx:91-97 | task `i` starts at `i * max_bulk_task_size` and covers `min(max_bulk_task_size, len - off)` bytes |
| ComchEndpoints.ChunksTile | lib/trans/priv/doca/comch/endpoint.cxx:91-97 | DMA tasks of a non-empty operation start at 0, each starts where the previous one ends, and the last ends at the length |
| ComchEndpoints.ChunksSum | lib/trans/priv/doca/comch/endpoint.cxx:91-97 | DMA task lengths add up to the operation's length |
| ComchEndpoints.BulkResolvesOnceToLen | lib/trans/priv/doca/comch/endpoint.cxx:91-112 | when all of a bulk operation's DMA tasks succeed, its result is set once, to the full length (also lines 253-260) |
| ComchEndpoints.ComchEndpoint.constructor | lib/trans/priv/doca/comch/endpoint.cxx:19-24 | a new endpoint is idle, with no remote memory, nothing submitted and no context running |
| ComchEndpoints.ComchEndpoint.PostRecv | lib/trans/priv/doca/comch/endpoint.cxx:47-59 | with the consumer stopped the result is 0 and nothing is submitted; otherwise one receive task over the whole local buffer is submitted |
| ComchEndpoints.ComchEndpoint.PostSend | lib/trans/priv/doca/comch/endpoint.cxx:61-74 | with the producer stopped the result is 0 and nothing is submitted; otherwise one send task of the context's length is submitted |
| ComchEndpoints.ComchEndpoint.PostBulk | lib/trans/priv/doca/comch/endpoint.cxx:79-114 | with DMA stopped the result is 0; otherwise the operation is submitted as the DMA tasks `Chunks(op, 0, len, max_bulk_task_size)` in order |
| ComchEndpoints.ComchEndpoint.TaskCb | lib/trans/priv/doca/comch/endpoint.cxx:227-268 | a completion on a stopped endpoint changes nothing; otherwise the transferred count grows by the chunk and the DOCA completion rule decides the result |
| ComchEndpoints.ComchEndpoint.RegisterRemoteMemory | lib/trans/priv/doca/comch/endpoint.cxx:116-128 | the remote-memory slot follows `RegisterRemote`; a different second region is an error that leaves the slot as it was |
| ComchEndpoints.ComchEndpoint.UnregisterRemoteMemory | lib/trans/priv/doca/comch/endpoint.cxx:130-136 | the remote-memory slot becomes empty |
| RdmaEndpoints.RdmaEndpoint.constructor | lib/trans/priv/doca/rdma/endpoint.cxx:15-24 | a new endpoint is idle, remembers whether the data path is enabled, and has nothing running or submitted |
| RdmaEndpoints.RdmaEndpoint.DataPathRunning | lib/trans/priv/doca/rdma/endpoint.cxx:19-23 | the data path can only be running when it was enabled (also line 81) |
| RdmaEndpoints.RdmaEndpoint.PostCtrl | lib/trans/priv/doca/rdma/endpoint.cxx:55-76 | with the control path stopped the result is 0; otherwise one task is submitted: a receive over the whole buffer or a send of the context's length |
| RdmaEndpoints.RdmaEndpoint.PostBulk | lib/trans/priv/doca/rdma/endpoint.cxx:46-53 | with the data path stopped the result is 0; otherwise exactly one read or write task of the whole length is submitted (also lines 78-114) |
| RdmaEndpoints.RdmaEndpoint.TaskCb | lib/trans/priv/doca/rdma/endpoint.cxx:207-249 | a completion on a stopped endpoint changes nothing; otherwise the transferred count grows and the DOCA completion rule decides the result |
| RdmaEndpoints.RdmaEndpoint.RegisterRemoteMemory | lib/trans/priv/doca/rdma/endpoint.cxx:116-128 | the remote-memory slot follows `RegisterRemote`; a different second region is an error |
| RdmaEndpoints.RdmaEndpoint.UnregisterRemoteMemory | lib/trans/priv/doca/rdma/endpoint.cxx:130-136 | the remote-memory slot becomes empty |
| RdmaEndpoints.RdmaEndpoint.Stop | lib/trans/priv/doca/rdma/endpoint.cxx:251-261 | a running endpoint becomes stopping |
| RdmaEndpoints.OneTaskOutcome | lib/trans/priv/doca/rdma/endpoint.cxx:234-240 | a bulk operation's single task resolves it with the full length when it moved all of it, and with nothing otherwise |
| TcpEndpoints.PostRange | lib/trans/priv/tcp/endpoint.cxx:84-98 | every post covers the rest of the buffer: a write starts at the bytes already written, any other operation at 0 |
| TcpEndpoints.Step | lib/trans/priv/tcp/endpoint.cxx:38-54 | a non-positive completion resolves with that value; a positive one adds to the count, and a short write is resubmitted for the rest while anything else resolves with the count |
| TcpEndpoints.WriteRun | lib/trans/priv/tcp/endpoint.cxx:38-54 | a run of write completions gives one action per completion |
| TcpEndpoints.PartialWritesComplete | lib/trans/priv/tcp/endpoint.cxx:47-52 | positive partial writes that add up to the buffer size resubmit exactly the unwritten rest each time and resolve once, with the full size (also line 95) |
| TcpEndpoints.TcpEndpoint.constructor | lib/trans/priv/tcp/endpoint.cxx:9-23 | a new endpoint is ready with an empty submission queue |
| TcpEndpoints.TcpEndpoint.Post | lib/trans/priv/tcp/endpoint.cxx:84-103 | one submission over `PostRange` of the buffer is queued |
| TcpEndpoints.TcpEndpoint.Progress | lib/trans/priv/tcp/endpoint.cxx:32-55 | no completion means no progress; otherwise the context's count and result, or a resubmission of the unwritten rest, follow `Step` |
| TcpEndpoints.TcpEndpoint.Stop | lib/trans/priv/tcp/endpoint.cxx:105-115 | a running endpoint becomes stopping |
| Transports.NextSeq | lib/trans/transport.hxx:151 | `current_seq++` on a 32-bit counter: one more, or 0 after the largest value (also lines 171, 550) |
| Transports.Issued | lib/trans/transport.hxx:151-171 | `k` successive calls or oneways take `k` sequence numbers |
| Transports.IssuedIncreasing | lib/trans/transport.hxx:151 | until the counter wraps, the numbers issued from `s` are `s, s+1, …`, so they strictly increase and never repeat (also lines 171, 550) |
| Transports.FindRpc | lib/trans/transport.hxx:362-376 | the or-fold over an RPC list finds an RPC with the given id, and finds none exactly when no RPC of the list has that id (also lines 386-397, 417-429) |
| Transports.DefaultsShape | lib/trans/transport.hxx:61-104 | after the default registrations, the table holds exactly the ids of the registered RPCs, each with the default handler (also lines 119-126) |
| Transports.DefaultTables | lib/trans/transport.hxx:69 | the constructor's registrations put each user RPC's default handler into the table for its kind (normal or oneway) (also lines 119-126) |
| Transports.ReplyHeaderEchoes | lib/trans/transport.hxx:399-412 | the reply header is a response, not a oneway request, and echoes the request's seq and id |
| Transports.OnewayHeaderShape | lib/trans/transport.hxx:151 | a oneway header is a oneway request and not a response, with the given seq and id |
| Transports.CheckCount | lib/trans/transport.hxx:234-250 | a bulk read or write succeeds exactly when the endpoint reports a positive count, and returns that count |
| Transports.Deliver | lib/trans/transport.hxx:360-373 | taking response completions in order delivers one (seq, body) pair per completion and only removes pending calls |
| Transports.DeliverOnce | lib/trans/transport.hxx:360-373 | when each completion names a call still pending, the completions name distinct calls that were pending, and exactly those calls stop being pending |
| Transports.Transport.constructor | lib/trans/transport.hxx:61-104 | a new transport has the default handler tables, seq 1, no outstanding call and nothing sent (also lines 545-552) |
| Transports.Transport.RegisterHandler | lib/trans/transport.hxx:127-143 | the handler goes into the oneway table for a oneway RPC and into the normal table otherwise; nothing else changes |
| Transports.Transport.RegisterBulkHandler | lib/trans/transport.hxx:108-116 | `Bulk` gets the user handler and `RegMem`/`UnregMem` get the memory hooks; nothing else changes (also lines 318-327) |
| Transports.Transport.Oneway | lib/trans/transport.hxx:145-162 | one oneway-request frame with the current seq and the RPC's id is sent, the seq advances, no call becomes outstanding, and a non-positive send count is fatal |
| Transports.Transport.Call | lib/trans/transport.hxx:164-189 | one request frame with the current seq is sent, the seq advances, the call becomes outstanding under that seq with a response receive posted, and a non-positive send count is fatal (also lines 329-333) |
| Transports.Transport.OnResponse | lib/trans/transport.hxx:334-356 | a response is accepted exactly when the receive succeeded, the frame is a response, its id names a normal RPC and its seq is outstanding; it then fulfils that call once and removes it (also lines 358-373) |
| Transports.Transport.RunOneway | lib/trans/transport.hxx:318-327 | the oneway handler for the id runs: the default does nothing, a user handler is logged, `UnregMem` clears and `RegMem` registers the remote region on the DOCA backends (also lines 386-397) |
| Transports.Transport.NormalResponse | lib/trans/transport.hxx:398-412 | a normal request gets a response exactly when its table entry is a callable handler; the default handler's response is the default value |
| Transports.Transport.ServeOnce | lib/trans/transport.hxx:436-506 | a stop or a failed receive ends the worker, a response frame is fatal, a oneway request runs its oneway handler and is never answered, and a normal request is answered with a response echoing its seq and id |
| Transports.Transport.ServeNormal | lib/trans/transport.hxx:477-505 | the normal-request half of `serve_once`: the reply frame is sent and the worker goes on only when no stop was requested and the send succeeded |
| Transports.Transport.ProgressUntil | lib/trans/transport.hxx:533-539 | the loop stops once nothing is outstanding, no worker is active and the predicate holds; the completions it consumed are delivered in order to the calls they name |
| PartitionBuffers.PartitionBuffer.ActualSize | lib/native/offload.hxx:38 | the data size is the total size less the 16-byte header, and is the length of the buffer's contents |
| PartitionBuffers.PartitionBuffer.constructor | lib/native/offload.hxx:25-29 | the header holds the partition id and a length of 16, so the buffer is empty; the bytes after the header are untouched |
| PartitionBuffers.PartitionBuffer.Append | lib/native/offload.hxx:32-36 | the data is copied at the current length, the length grows by its size, the contents become the old contents followed by the data, and the partition id and the bytes beyond are kept |
| PartitionBuffers.AppendLayout | lib/native/offload.hxx:33-36 | copying the data and then rewriting the length field keeps the partition id, keeps the old contents and puts the data right after them |
| SpillAgents.Snapshot | lib/native/spill_agent.hxx:103-123 | a buffer queued for spilling is sent as its first `total_size` bytes, whose part after the header is its contents |
| SpillAgents.AppendRecord | lib/native/spill_agent.hxx:58-70 | appending the key and then the value adds both, in that order, to the buffer's contents |
| SpillAgents.SpillAgent.constructor | lib/native/spill_agent.hxx:15-21 | a new agent has no active buffer for any of its `max_n_partition` partitions and an empty spill queue |
| SpillAgents.SpillAgent.AcquireOne | lib/native/spill_agent.hxx:125-135 | the buffer handed out has the pool's buffer size, the partition id in its header and no contents |
| SpillAgents.SpillAgent.AppendOrSpill | lib/native/spill_agent.hxx:53-72 | the record lands in the partition's active buffer; a full buffer is queued for spilling first and replaced by a fresh one; other partitions are untouched |
| SpillAgents.SpillAgent.ForceSpill | lib/native/spill_agent.hxx:74-81 | a partition without an active buffer is left alone; otherwise its buffer is queued and replaced by an empty fresh one |
| SpillAgents.SpillAgent.IssueSpillOnce | lib/native/spill_agent.hxx:89-112 | when stopped with an empty queue the spiller ends; otherwise it takes the whole queue, and succeeds exactly when each bulk transfer moved its buffer's total size, releasing every buffer |
| ShuffleWorkers.Fronts | lib/native/shuffle_worker.hxx:384-403 | one pass takes at most one task from each queue: the head of every non-empty queue, in queue order |
| ShuffleWorkers.Popped | lib/native/shuffle_worker.hxx:384-403 | after a pass each non-empty queue has lost its head and nothing else |
| ShuffleWorkers.FlattenAppend | lib/native/shuffle_worker.hxx:391 | pushing a task onto one transfer queue adds exactly that task to those held by all transfer queues |
| ShuffleWorkers.NextTi | lib/native/shuffle_worker.hxx:413-417 | `++trsqs_i` on a 32-bit counter |
| ShuffleWorkers.ModBySucc | lib/native/shuffle_worker.hxx:413 | stepping the counter by one moves the remainder to the next queue, wrapping to 0 |
| ShuffleWorkers.ChosenIndexAsWritten | lib/native/shuffle_worker.hxx:413 | the index as written, `(++trsqs_i) % rsqs.size()`, is a valid transfer queue exactly when there is a remote queue and the remainder is below the number of transfer queues |
| ShuffleWorkers.AsWrittenIndexOutOfRange | lib/native/shuffle_worker.hxx:413 | with fewer transfer queues than remote queues, some counter value indexes past the transfer queues |
| ShuffleWorkers.AsWrittenSkipsQueues | lib/native/shuffle_worker.hxx:413 | with more transfer queues than remote queues, the queues at or beyond the remote count are never chosen |
| ShuffleWorkers.ChosenIndex | lib/native/shuffle_worker.hxx:413 | the corrected choice, the counter modulo the number of transfer queues, is always a valid queue |
| ShuffleWorkers.AsWrittenAgreesWhenEqual | lib/native/shuffle_worker.hxx:413 | when there are as many transfer queues as remote queues the code as written picks the same queue as the corrected choice |
| ShuffleWorkers.RoundRobin | lib/native/shuffle_worker.hxx:413 | successive choices visit the transfer queues round-robin |
| ShuffleWorkers.RouteOne | lib/native/shuffle_worker.hxx:388-394 | routing one local task keeps the number of transfer queues |
| ShuffleWorkers.RouteSnoc | lib/native/shuffle_worker.hxx:384-395 | routing a list of tasks is routing them one at a time, in order |
| ShuffleWorkers.RouteDsq | lib/native/shuffle_worker.hxx:390-394 | the disk queue receives exactly the local tasks that stay local, in order |
| ShuffleWorkers.RouteTi | lib/native/shuffle_worker.hxx:391-413 | the counter advances once per task sent to a transfer queue, modulo 2^32 |
| ShuffleWorkers.RouteTrsqs | lib/native/shuffle_worker.hxx:390-391 | the transfer queues receive exactly the local tasks whose partition goes remote |
| ShuffleWorkers.SelectPartition | lib/native/shuffle_worker.hxx:390-394 | every local task goes either to the transfer queues or to the disk queue |
| ShuffleWorkers.AllEmpty | lib/native/shuffle_worker.hxx:408-411 | `all_of(empty)`: true exactly when every queue is empty |
| ShuffleWorkers.PipelineDispatcher.constructor | lib/native/shuffle_worker.hxx:353-355 | the dispatcher holds the given queues, an empty disk queue and a zero counter |
| ShuffleWorkers.PipelineDispatcher.ChooseOneTrsq | lib/native/shuffle_worker.hxx:413 | the counter is bumped and the corrected choice is returned; the queues are untouched |
| ShuffleWorkers.PipelineDispatcher.DispatchPass | lib/native/shuffle_worker.hxx:377-404 | one pass pops the head of every local and remote queue, routes the local heads and appends the remote heads to the disk queue |
| ShuffleWorkers.PipelineDispatcher.DispatchLocal | lib/native/shuffle_worker.hxx:384-395 | the local half of a pass pops every local head and routes it |
| ShuffleWorkers.PipelineDispatcher.DispatchLocalQueue | lib/native/shuffle_worker.hxx:385-394 | one iteration of the local loop pops one queue's head and routes it |
| ShuffleWorkers.PipelineDispatcher.RouteFront | lib/native/shuffle_worker.hxx:390-394 | one task goes to the chosen transfer queue when its partition goes remote, and to the disk queue otherwise |
| ShuffleWorkers.PipelineDispatcher.DispatchRemote | lib/native/shuffle_worker.hxx:396-403 | every remote head is popped and appended to the disk queue in order |
| ShuffleWorkers.DispatchConserves | lib/native/shuffle_worker.hxx:384-403 | a pass loses no task and adds none: what the transfer and disk queues hold after it are those before it plus the heads taken |
| ShuffleWorkers.ShuffleWorker.constructor | lib/native/shuffle_worker.hxx:15-26 | a new worker holds the two task queues, with nothing spilled or resolved |
| ShuffleWorkers.ShuffleWorker.HandleSpillTaskOnce | lib/native/shuffle_worker.hxx:63-89 | when stopped nothing changes; otherwise the head task is popped, and a partition that goes remote is transferred and resolved with its size (a short transfer is fatal) while any other is pushed on the spill queue |
| ShuffleWorkers.WorkerRoles | lib/native/shuffle_worker.hxx:106-116 | fewer than 4 workers is fatal; otherwise the first half serves local tasks and the rest remote ones |
| ShuffleWorkers.BothQueuesServed | lib/native/shuffle_worker.hxx:106-116 | with at least 4 workers both the local and the remote queue have two workers |
| ShuffleWorkers.ConcatPrefix | lib/native/shuffle_worker.hxx:217-221 | the scatter buffer built so far is a prefix of the final one |
| ShuffleWorkers.PartitionInRange | lib/native/shuffle_worker.hxx:217-221 | each partition lies in the scatter buffer at its recorded offset |
| ShuffleWorkers.Scatter | lib/native/shuffle_worker.hxx:212-222 | the scatter buffer is all partitions concatenated, each partition's length and offset are recorded, and each partition lies at its offset |
| ShuffleWorkers.SplitPartitions | lib/native/shuffle_worker.hxx:226-234 | the partition ids are split in increasing order into those that go remote and those that stay local |
| ShuffleWorkers.PostBulks | lib/native/shuffle_worker.hxx:243-250 | one bulk transfer of (offset, length) is posted per listed partition, in order |
| ShuffleWorkers.ShuffleTransfersAsWritten | lib/native/shuffle_worker.hxx:212-283 | as written, both transfer blocks send the local partitions, so a partition that goes remote is never sent |
| ShuffleWorkers.ShuffleTransfers | lib/native/shuffle_worker.hxx:212-283 | the intended transfers: local partitions over the I/O transport and remote partitions over RDMA, each sent as its own byte range |
| ShuffleWorkers.CheckBulkCounts | lib/native/shuffle_worker.hxx:251-281 | the transfer block succeeds exactly when every bulk count equals its expected count |
| ShuffleWorkers.AsWrittenExpected | lib/native/shuffle_worker.hxx:253-278 | as written, every count is compared with the size of the whole mapped region |
| ShuffleWorkers.IntendedExpected | lib/native/shuffle_worker.hxx:245-253 | the intended comparison is with each partition's own length |
| ShuffleWorkers.AsWrittenRejectsCompleteTransfers | lib/native/shuffle_worker.hxx:247-253 | when another partition is non-empty, transfers that each move their whole partition fail the check as written |
| ShuffleWorkers.IntendedAcceptsCompleteTransfers | lib/native/shuffle_worker.hxx:245-253 | transfers that each move their whole partition pass the intended check |
| Partitioner.HashStep | app/naive_offload_serde_server/naive_offload_serde_server.cxx:13-19 | the hash of the empty key is 0 and each byte folds in as `h * 31 + v` on a 64-bit `size_t` |
| Partitioner.JavaStringHash | app/naive_offload_serde_server/naive_offload_serde_server.cxx:13-19 | the loop computes the specification hash of the key |
| Partitioner.PidOf | app/naive_offload_serde_server/naive_offload_serde_server.cxx:40-41 | a pair's partition is its key hash modulo 32, so always one of the 32 partitions |
| Partitioner.Object | app/naive_offload_serde_server/naive_offload_serde_server.cxx:26-32 | `get_object` yields the non-empty run of bytes at the offset whose first 8 bytes give its length, inside the input |
| Partitioner.FlatPrepend | app/naive_offload_serde_server/naive_offload_serde_server.cxx:36-44 | a pair's bytes are its key followed by its value |
| Partitioner.RecordsTile | app/naive_offload_serde_server/naive_offload_serde_server.cxx:36-44 | when the input splits into pairs, their bytes cover the rest of the input exactly |
| Partitioner.SumBodiesStep | app/naive_offload_serde_server/naive_offload_serde_server.cxx:42-43 | one more pair adds its key and value to the size of its partition |
| Partitioner.BodiesTile | app/naive_offload_serde_server/naive_offload_serde_server.cxx:36-44 | the 32 partition bodies together hold exactly the bytes of all pairs |
| Partitioner.BodyBounded | app/naive_offload_serde_server/naive_offload_serde_server.cxx:42-43 | no partition body is larger than the input's pairs |
| Partitioner.Partition | app/naive_offload_serde_server/naive_offload_serde_server.cxx:33-49 | each partition is its 16-byte header followed by its body |
| Partitioner.RecordsStep | app/naive_offload_serde_server/naive_offload_serde_server.cxx:36-38 | one iteration of the loop takes a key and a value and moves the offset past both |
| Partitioner.BodyStep | app/naive_offload_serde_server/naive_offload_serde_server.cxx:41-43 | a pair's key and value are appended to its own partition and to no other |
| Partitioner.AppendToPartition | app/naive_offload_serde_server/naive_offload_serde_server.cxx:42-43 | appending to the pair's partition keeps every result equal to the zeroed header plus that partition's body |
| Partitioner.NativePartition | app/naive_offload_serde_server/naive_offload_serde_server.cxx:21-51 | the input is accepted exactly when it splits into pairs; then there are 32 results, each the header (partition id, total length) followed by the pairs hashed to it |
| Partitioner.CollectBodies | app/naive_offload_serde_server/naive_offload_serde_server.cxx:33-44 | the loop over the input gives, per partition, the zeroed header followed by that partition's pairs in input order |
| Partitioner.OutputSize | app/naive_offload_serde_server/naive_offload_serde_server.cxx:36-49 | the partition bodies add up to the input size: no byte is lost or duplicated |
| ChainMaps.Bucket | lib/sd/native/map.hxx:11-23 | the bucket (16-bit word sum, or plain modulo in the kernel map) is below the prime |
| ChainMaps.LastIn | lib/sd/native/map.hxx:91-102 | the head of a bucket's chain is the last entry added to that bucket, or the invalid mark |
| ChainMaps.LastEq | lib/sd/native/map.hxx:103-112 | the last entry whose key is the one sought, and no later entry has it |
| ChainMaps.Lookup | lib/sd/native/map.hxx:103-112 | a lookup finds nothing exactly when the key was never added |
| ChainMaps.LookupInserted | lib/sd/native/map.hxx:91-112 | after adding a key, looking it up gives the value added |
| ChainMaps.LookupOther | lib/sd/native/map.hxx:91-112 | adding a key leaves every other key's lookup unchanged |
| ChainMaps.LookupDistinct | lib/sd/native/map.hxx:103-112 | with distinct keys, looking up the i-th key gives the i-th value |
| ChainMaps.LastInAppend | lib/sd/native/map.hxx:91-102 | adding an entry does not change the chain heads seen up to an earlier point |
| ChainMaps.LastEqAppend | lib/sd/native/map.hxx:91-102 | adding an entry does not change the matches before it |
| ChainMaps.ChainStep | lib/sd/native/map.hxx:104-110 | one step of the chain walk: an empty bucket has no match, a matching head is the match, and otherwise the match is further down the chain |
| ChainMaps.Link | lib/sd/native/map.hxx:91-98 | linking a new entry at the head of its bucket keeps every chain exactly the entries of its bucket, newest first |
| ChainMaps.Search | lib/sd/native/map.hxx:103-112 | walking the bucket's chain finds the last entry with the key, or none |
| ChainMaps.ChainMap.constructor | lib/sd/native/map.hxx:75-90 | `init` leaves an empty map with every bucket empty |
| ChainMaps.ChainMap.Size | lib/sd/native/map.hxx:72 | the size is the number of entries and never exceeds the capacity |
| ChainMaps.ChainMap.Add | lib/sd/native/map.hxx:91-102 | the entry is appended and the map stays well formed |
| ChainMaps.ChainMap.InsertKV | lib/sd/native/map.hxx:125-139 | the pair is added exactly when the key is new; otherwise nothing changes |
| ChainMaps.ChainMap.InsertVK | lib/sd/native/map.hxx:140-156 | in a bidirectional map, the pair is added exactly when the value is new; otherwise nothing changes |
| ChainMaps.ChainMap.LookupV | lib/sd/native/map.hxx:177-180 | the value reported is the one stored under the key, or the invalid value, and `found` says which |
| ChainMaps.ChainMap.LookupK | lib/sd/native/map.hxx:182-187 | in a bidirectional map, the key reported is the one stored with the value, or the invalid value |
| ChainMaps.ChainMap.LookupVRef | lib/sd/native/map.hxx:157-168 | a slot is returned exactly when the key is present, and it is the slot a lookup reads (also lines 189-194) |
| ChainMaps.ChainMap.StoreV | lib/doca/kernel/map.h:64-73 | a store through the returned slot changes that key's lookup to the new value and no other key's lookup |
| ChainMaps.ChainMap.ForEach | lib/sd/native/map.hxx:196-201 | every entry is visited once, in insertion order |
| ChainMaps.InitKernelMap | lib/doca/kernel/map.h:7-8 | the kernel map is a fresh empty one-way map with prime 23, capacity 64 and plain modulo hashing (also lines 36-42) |
| BasicTypes.TypeSize | lib/sd/native/basic_type.hxx:13-40 | a primitive is 1, 2, 4 or 8 bytes, a reference 4 bytes (compressed oops), anything else 0 |
| BasicTypes.Char2Type | lib/sd/native/basic_type.hxx:42-68 | a descriptor character gives a basic type, primitive exactly for `ZCFDBSIJ` and a reference exactly for `L` and `[` |
| BasicTypes.Type2Sig | lib/sd/native/basic_type.hxx:70-100 | each primitive type has a one-letter signature that maps back to it |
| BasicTypes.SigRoundTrip | lib/sd/native/basic_type.hxx:42-100 | a primitive signature letter survives `char2type` then `type2sig` |
| BasicTypes.CtrlNibble | lib/sd/native/basic_type.hxx:138-142 | the control part of a flag is its low nibble |
| BasicTypes.TypeNibble | lib/sd/native/basic_type.hxx:138-142 | the type part of a flag is its high nibble |
| BasicTypes.FlagsExclusive | lib/sd/native/basic_type.hxx:138-142 | null, enum and redirect exclude each other, object and array exclude each other, and an enum is an object |
| BasicTypes.WrittenFlags | lib/sd/native/basic_type.hxx:138-142 | the flags the serializers write are classified as intended: null, enum object, plain object and array |
| ClassInfos.KindsComplementary | lib/sd/native/class_info.hxx:57-58 | a record is an array exactly when it is not an object |
| ClassInfos.ObjectBodySize | lib/sd/native/class_info.hxx:50 | the body size is the object size less the header size, wrapping as a 32-bit value when the header is larger |
| ClassInfos.ArrayBodySize | lib/sd/native/class_info.hxx:54 | an array body is length times the element size, as a 32-bit value; zero for an element type without a size |
| ClassInfos.ArraySize | lib/sd/native/class_info.hxx:52 | an array's size is its header plus its body, as a 32-bit value |
| ClassInfos.MirrorSize | lib/sd/native/class_info.hxx:16-19 | `mirror_size` as written: header, field table and, for an enum, 8 bytes per static field |
| ClassInfos.Size | lib/sd/native/class_info.hxx:20 | the size is the mirror size plus the signature area |
| ClassInfos.SetEnum | lib/sd/native/class_info.hxx:27-31 | `set_enum` changes only the enum table, keeping its length |
| ClassInfos.GetEnum | lib/sd/native/class_info.hxx:60-63 | `get_enum` returns an entry of the enum table |
| ClassInfos.GetAfterSetEnum | lib/sd/native/class_info.hxx:27-31 | reading a slot after `set_enum` gives what was set there, and other slots are unchanged (also lines 60-63) |
| ClassInfos.CStringIsPrefix | lib/sd/native/class_info.hxx:67 | `std::string(raw(sig_off))` reads up to the first NUL: a NUL-free prefix of the stored bytes |
| ClassInfos.CStringOfStored | lib/sd/native/class_resolver.cxx:59-65 | a NUL-terminated signature reads back as the text stored |
| ClassInfos.InstanceNeededSize | lib/sd/native/class_resolver.cxx:29-37 | the allocation for an instance record: header, field table, `(n_static - 1) * 16` bytes for an enum, and the signature area |
| ClassInfos.FromInstanceKlass | lib/sd/native/class_resolver.cxx:23-68 | an unregistered object record with header size 255, the klass's counts and size, an enum table for enums, blank fields and the signature `L<name>;` padded with `?`; its `n_field` (non-static plus static) is the klass's field count, the bound of the collecting loop in `walk_instance_klass` |
| ClassInfos.SizeVersusAllocation | lib/sd/native/class_info.hxx:16-20 | `size()` equals the allocation exactly for non-enums and for enums with two static fields |
| ClassInfos.RecordSize | lib/sd/native/class_info.hxx:16-20 | the corrected size: header, field table, 16 bytes per enum constant and the signature area |
| ClassInfos.RecordSizeIsAllocation | lib/sd/native/class_resolver.cxx:29-37 | the corrected size is what `from_instance_klass` allocates, and it ends where the signature area ends |
| ClassInfos.SizeShortForThreeConstants | lib/sd/native/class_info.hxx:16-19 | for an enum with three constants `size()` is 16 bytes short of the allocation |
| ClassInfos.FromArrayKlass | lib/sd/native/class_resolver.cxx:70-99 | an unregistered array record with one element slot (type `T_ILLEGAL`, id -1, offset 0), object size equal to header size, and the klass's signature |
| FieldLayouts.FieldType | lib/sd/native/class_walker.cxx:93 | a field's type comes from its descriptor: a reference for `L` or `[`, a primitive otherwise |
| FieldLayouts.InstanceFields | lib/sd/native/class_walker.cxx:62-80 | the collected fields are exactly the fields that are neither internal nor static |
| FieldLayouts.HeaderIsLeast | lib/sd/native/class_walker.cxx:74-78 | the header size is the smallest instance-field offset, or 255 when there is none |
| FieldLayouts.CollectInstanceFields | lib/sd/native/class_walker.cxx:62-80 | the loop over the first `n_field` fields collects exactly the instance fields among them, in order, and lowers the header size to their least offset (255 when there is none) |
| FieldLayouts.InsertByOffset | lib/sd/native/class_walker.cxx:84-85 | inserting one field keeps all fields and adds that one |
| FieldLayouts.InsertKeepsAscending | lib/sd/native/class_walker.cxx:84-85 | inserting into an offset-sorted list keeps it sorted |
| FieldLayouts.SortByOffset | lib/sd/native/class_walker.cxx:84-85 | the sort is a permutation of the fields in ascending offset order |
| FieldLayouts.SortedInstanceFields | lib/sd/native/class_walker.cxx:59-85 | the instance fields in ascending offset order |
| FieldLayouts.HeaderBelowSorted | lib/sd/native/class_walker.cxx:76-92 | no sorted field lies below the header, so subtracting the header never underflows |
| FieldLayouts.FirstSortedAtHeader | lib/sd/native/class_walker.cxx:76-92 | the first sorted field starts at the header, so its relative offset is 0 |
| ClassRegistry.IdIndexInverse | lib/sd/native/class_resolver.hxx:54-61 | `id2index` and `index2id` are inverse on the id range, and every id is above every basic-type code |
| ClassRegistry.Patch | lib/sd/native/class_walker.cxx:160-165 | patching the waiting fields changes only fields, and keeps every record's field count |
| ClassRegistry.PatchSetsIds | lib/sd/native/class_walker.cxx:160-165 | exactly the waiting fields get the new id, and only their id changes |
| ClassRegistry.LowerBound | lib/sd/native/class_walker.cxx:154-157 | the lower bound is the first position whose key is not below the key searched |
| ClassRegistry.LowerBoundOfSorted | lib/sd/native/class_resolver.hxx:36-40 | on a strictly sorted table a present key sits at its lower bound |
| ClassRegistry.LookupKlassFinds | lib/sd/native/class_resolver.hxx:36-40 | the lookup by klass finds the registered record with that klass, and none when no record has it |
| ClassRegistry.KlassUnique | lib/sd/native/class_walker.cxx:149-158 | two registered records never share a klass |
| ClassRegistry.Inserted | lib/sd/native/class_walker.cxx:154-157 | `insert` at a position shifts the later entries by one |
| ClassRegistry.InsertSortedKey | lib/sd/native/class_walker.cxx:154-157 | inserting a new key at its lower bound keeps the keys strictly sorted |
| ClassRegistry.InsertKeepsOrder | lib/sd/native/class_walker.cxx:154-157 | inserting the new record at its lower bound keeps the klass table a permutation in klass order |
| ClassRegistry.RegisterKeepsValid | lib/sd/native/class_walker.cxx:149-166 | `register_class_info` keeps the registry valid: ids in order, klass table sorted, signatures indexed, waiting fields valid |
| ClassRegistry.LookupKlassSpec | lib/sd/native/class_resolver.hxx:36-40 | on a valid registry the lookup by klass succeeds exactly for a registered klass, and returns the record stored under its id |
| ClassRegistry.GrownTrans | lib/sd/native/class_walker.cxx:149-166 | registering only appends records and patches field ids, and two such steps compose |
| ClassWalks.InstanceRecord | lib/sd/native/class_walker.cxx:50-122 | the record `walk_instance_klass` builds: an object record with the klass's signature and one field per instance field |
| ClassWalks.InstanceRecordHeader | lib/sd/native/class_walker.cxx:62-85 | the fields are the instance fields sorted by offset, the header is below every instance field, and the first field sits at offset 0 |
| ClassWalks.InstanceRecordSlot | lib/sd/native/class_walker.cxx:88-118 | each slot has its field's offset less the header, its type, flags and JNI id, and the class id of its descriptor when known |
| ClassWalks.EnumRecord | lib/sd/native/class_walker.cxx:8-48 | an enum record has header 12, object size 16, no fields, and each constant's object and handle at its ordinal |
| ClassWalks.ArrayRecord | lib/sd/native/class_walker.cxx:124-147 | an array record's element slot has the element type and the element class id |
| ClassWalks.InstanceRegistrable | lib/sd/native/class_walker.cxx:50-122 | registering an instance record patches the fields waiting for it and appends it with its own waiting-resolved fields (also lines 149-166) |
| ClassResolvers.PatchFields | lib/sd/native/class_walker.cxx:160-165 | the patching loop computes `Patch` |
| ClassResolvers.Register | lib/sd/native/class_walker.cxx:149-166 | one registration: the id is the next index, the record is appended and inserted in klass order, the signature mapped, and the waiting fields patched |
| ClassResolvers.ResolveSlot | lib/sd/native/class_walker.cxx:89-117 | resolving one field gives its resolved form and adds it to the waiting list when its class is unknown |
| ClassResolvers.ResolveFields | lib/sd/native/class_walker.cxx:88-118 | the loop resolves every sorted field and records every field that has to wait |
| ClassResolvers.BuildInstance | lib/sd/native/class_walker.cxx:56-118 | the built instance record is `InstanceRecord` and the waiting list grows by its unknown references |
| ClassResolvers.BuildEnum | lib/sd/native/class_walker.cxx:15-45 | the built enum record is `EnumRecord` |
| ClassResolvers.ClassResolver.constructor | lib/sd/native/class_resolver.hxx:20 | a new resolver is empty and valid |
| ClassResolvers.ClassResolver.GetById | lib/sd/native/class_resolver.hxx:28-31 | a record is returned exactly for an id below the number registered, and it carries that id |
| ClassResolvers.ClassResolver.GetBySig | lib/sd/native/class_resolver.hxx:32-35 | a record is returned exactly for a registered signature, and it has that signature and id |
| ClassResolvers.ClassResolver.GetByKlass | lib/sd/native/class_resolver.hxx:36-40 | a record is returned exactly for a registered klass, and it is the one stored under its id |
| ClassResolvers.ClassResolver.GetByKlassCptr | lib/sd/native/class_resolver.hxx:41-43 | the lookup by a compressed class pointer finds a record exactly when the klass it decodes to is registered, and that record is for that klass |
| ClassResolvers.ClassResolver.RegisterClass | lib/sd/native/class_resolver.cxx:109-129 | the klass (and the classes it needs) end up registered, records are only appended or patched, and an already registered klass changes nothing |
| ClassResolvers.ClassResolver.RegisterClasses | lib/sd/native/class_resolver.cxx:101-107 | every klass of the set ends up registered |
| ClassResolvers.GrownKeepsRegistered | lib/sd/native/class_walker.cxx:149-166 | a registered klass stays registered |
| ClassResolvers.ClassWalker.RegisterClassInfo | lib/sd/native/class_walker.cxx:149-166 | one `register_class_info` step, keeping the registry valid |
| ClassResolvers.ClassWalker.WalkInstanceKlass | lib/sd/native/class_walker.cxx:50-122 | an already registered klass changes nothing; otherwise the record gets the next id, waiting fields are patched, and its unknown references start waiting |
| ClassResolvers.ClassWalker.WalkEnumKlass | lib/sd/native/class_walker.cxx:8-48 | an already registered enum changes nothing; otherwise its record gets the next id and the fields waiting for it are patched |
| ClassResolvers.ClassWalker.WalkElement | lib/sd/native/class_walker.cxx:129-144 | the element slot gets the element type, and the element class (instance, enum or lower array) is registered first |
| ClassResolvers.ClassWalker.WalkArrayKlass | lib/sd/native/class_walker.cxx:124-147 | the array klass and its element classes end up registered, the array record last |
| ClassResolvers.ClassWalker.WalkNewArray | lib/sd/native/class_walker.cxx:128-146 | an unregistered array klass gets its element classes registered first and its own record last, under the newest id |
| JvmArgs.ParseCptr | lib/sd/native/jvm_args.hxx:25-38 | a raw pointer is the value itself; zero-based shifts it left; non-zero-based adds the base after shifting |
| JvmArgs.CompressPtr | lib/sd/native/jvm_args.hxx:40-52 | `compress_ptr` as written, truncated to 32 bits; non-zero-based subtracts the base after shifting |
| JvmArgs.Raw32RoundTrip | lib/sd/native/jvm_args.hxx:25-52 | raw mode: compressing a parsed pointer gives the compressed value back |
| JvmArgs.ZeroBasedRoundTrip | lib/sd/native/jvm_args.hxx:25-52 | zero-based mode: compressing a parsed pointer gives the compressed value back |
| JvmArgs.NonZeroBasedAsWrittenFails | lib/sd/native/jvm_args.hxx:33-47 | non-zero-based mode as written: value 1 with base 8 and shift 3 parses to 16, which compresses to `0xFFFFFFFA` |
| JvmArgs.NonZeroBasedIntendedRoundTrip | lib/sd/native/jvm_args.hxx:33-47 | with the corrected compression, non-zero-based mode round-trips |
| JvmArgs.HeapAndMetaspaceRoundTrip | lib/sd/native/jvm_args.hxx:54-77 | for the heap and the class space in a supported mode, compressing a parsed pointer gives it back |
| ClassWalks.ResolveAll | lib/sd/native/class_walker.cxx:88-118 | one resolved field per sorted instance field, each the field's resolved form |
| ClassWalks.ResolvedOnceKnown | lib/sd/native/class_walker.cxx:102-112 | once a class is registered, a field waiting for it resolves to its id and any other field is unchanged (also lines 160-165) |
| ClassWalks.PatchedAll | lib/sd/native/class_walker.cxx:149-166 | registering a record whose own fields wait for it patches the old records and resolves those fields of the new one as well |
| RecordFormat.RegistryClasses | lib/sd/native/class_resolver.hxx:28-40 | the walker's tables hold the registry's records by id, and the lookup by klass is the registry's binary search |
| RecordFormat.RegistrySound | lib/sd/native/class_resolver.hxx:28-40 | on a valid registry a record found by klass has that klass, sits under its own id, and the id fits in 16 bits |
| RecordFormat.LE16 | lib/sd/native/object_walker.cxx:82-83 | `put<int16_t>`/`put<uint16_t>` write two bytes that read back as the value when it fits |
| RecordFormat.LE32 | lib/sd/native/object_walker.cxx:44 | `put<uint32_t>` writes four bytes that read back as the value when it fits (also line 103) |
| RecordFormat.Rec | lib/sd/native/object_walker.cxx:64-113 | every record has at least its 4-byte id and flag header; its layout is given per kind (null, enum, object, array) |
| RecordFormat.FieldsOut | lib/sd/native/object_walker.cxx:19-34 | the field loop keeps the body's length: reference slots are overwritten in place and member records go after the body |
| RecordParse.U16At | lib/sd/native/object_reviver.cxx:148-149 | `get<uint16_t>` reads a value below 2^16 |
| RecordParse.I16 | lib/sd/native/object_reviver.cxx:148 | the class id is read as a signed 16-bit value, equal to the stored word below 0x8000 |
| RecordParse.ById | lib/sd/native/class_resolver.hxx:28-31 | a record is found by id exactly for ids in the registered range, and it is the record at that index |
| RecordParse.Parse | lib/sd/native/object_reviver.cxx:145-180 | a record is read at the next 8-aligned offset; a successful read consumes bytes and stays inside the input; a redirect or an unknown id is an error |
| RecordParse.ParseKind | lib/sd/native/object_reviver.cxx:162-179 | the record kind comes from the class, and a flag that disagrees with it is an error |
| RecordParse.ParseEnum | lib/sd/native/object_reviver.cxx:165-169 | an enum record is 8 bytes and gives the registered constant for its ordinal; an ordinal outside the table is an error |
| RecordParse.ParseObject | lib/sd/native/object_reviver.cxx:10-91 | an object record skips the body as one block, then reads its fields; the result stays inside the input |
| RecordParse.ParseFields | lib/sd/native/object_reviver.cxx:29-85 | the field loop makes one store per field and never moves the cursor backwards |
| RecordParse.ParseArray | lib/sd/native/object_reviver.cxx:93-143 | an array record reads its length, then either a primitive body or one record per element |
| RecordParse.ParsePrimArray | lib/sd/native/object_reviver.cxx:116-128 | the corrected primitive copy: the whole body of `array_body_size(length)` bytes is kept and the cursor ends after it |
| RecordParse.ParsePrimArrayAsWritten | lib/sd/native/object_reviver.cxx:121-127 | the copy as written: `SetByteArrayRegion` gets `length` bytes, while the cursor still skips `array_body_size(length)` |
| RecordParse.PrimArrayAsWrittenTruncates | lib/sd/native/object_reviver.cxx:126-127 | for elements wider than a byte the as-written copy keeps only the first `length` bytes of the body, fewer than the body holds |
| RecordParse.ParseElems | lib/sd/native/object_reviver.cxx:129-134 | the element loop reads one record per element and never moves the cursor backwards |
| RecordRoundTrip.ViewFields | lib/sd/native/object_reviver.cxx:29-85 | the expected stores of an object: one per field |
| RecordRoundTrip.RoundTrip | lib/sd/native/object_walker.cxx:64-113 | reading back the record the walker wrote for any encodable object gives the object's view, ending exactly after the record |
| RecordRoundTrip.Revives | lib/sd/native/object_reviver.cxx:145-180 | the round trip by induction on the object, for each record kind |
| RecordRoundTrip.FieldsRevive | lib/sd/native/object_reviver.cxx:29-85 | the field loop over a walker-written body gives the view's stores, primitive slots read from the body and reference fields from the member records |
| RecordRoundTrip.ElemsRevive | lib/sd/native/object_reviver.cxx:129-134 | the element loop over walker-written element records gives the view of each element |
| ObjectWalkers.ObjectWalker.constructor | lib/sd/native/object_walker.cxx:117 | the walker reads the resolver's tables and writes the output buffer from offset 0 |
| ObjectWalkers.ObjectWalker.PutHeader | lib/sd/native/object_walker.cxx:82-102 | the id and the flag go at the cursor, which moves by 4 |
| ObjectWalkers.ObjectWalker.PutObjectHeader | lib/sd/native/object_walker.cxx:16-18 | the id, the object flag and the padding to 8 go at the cursor |
| ObjectWalkers.ObjectWalker.PutArrayHeader | lib/sd/native/object_walker.cxx:42-45 | the id, the array flag, the length and the padding to 8 go at the cursor |
| ObjectWalkers.ObjectWalker.Walk | lib/sd/native/object_walker.cxx:75-113 | `walk` pads the cursor to 8, returns that base, and leaves exactly the object's record there with the cursor after it |
| ObjectWalkers.ObjectWalker.WalkObject | lib/sd/native/object_walker.cxx:12-35 | `do_walk_object` writes the object record: header, body, member records, and each reference slot holding its member's offset |
| ObjectWalkers.ObjectWalker.WalkFields | lib/sd/native/object_walker.cxx:21-34 | the field loop appends every member record and patches every reference slot |
| ObjectWalkers.ObjectWalker.WalkArray | lib/sd/native/object_walker.cxx:37-63 | `do_walk_array` writes the array record: header, length, then the raw elements or one record per element |
| ObjectWalkers.ObjectWalker.WalkElems | lib/sd/native/object_walker.cxx:47-52 | the element loop appends one record per element |
| ObjectWalkers.ObjectWalker.WalkRoot | lib/sd/native/object_walker.cxx:115-126 | the static `walk` skips the meta header, writes the root's record and stores the total length at offset 0, which it returns |
| ObjectWalkers.ObjectWalker.Serialize | lib/sd/native/object_walker.cxx:115-126 | `ObjectWalker::walk` over a fresh walker returns the total length, which is the meta header plus the root record, and leaves the output equal to the serialized form of the object |
| ObjectWalkers.Serialized | lib/sd/native/object_walker.cxx:115-126 | the serialized buffer keeps the length of the buffer it starts from |
| ObjectWalkers.SerializedLayout | lib/sd/native/object_walker.cxx:118-125 | the meta header holds the total length and the root's record follows it |
| ObjectWalkers.SerializedParses | lib/sd/native/object_reviver.cxx:182-194 | a serialized buffer parses at `OBJECT_DATA_OFFSET` to the root's view, ending at the total length in the header |
| ObjectRevivers.Revival | lib/sd/native/object_reviver.cxx:20-22 | `revive` succeeds exactly when the root record parses; it returns the parsed value only when the reader allocated it (object or array), and null for an enum or null root (also lines 112-114, 182-194) |
| ObjectRevivers.FieldsErrSticks | lib/sd/native/object_reviver.cxx:29-85 | once a field fails, every longer prefix of the field loop fails |
| ObjectRevivers.ElemsErrSticks | lib/sd/native/object_reviver.cxx:130-134 | once an element fails, every longer prefix of the element loop fails |
| ObjectRevivers.ObjectReviver.constructor | lib/sd/native/object_reviver.cxx:186 | the reader starts at offset 0 with no root |
| ObjectRevivers.ObjectReviver.ParseRec | lib/sd/native/object_reviver.cxx:145-180 | `parse` succeeds exactly when `Parse` does, returns its value and cursor, and sets `root` only at the first allocation |
| ObjectRevivers.ObjectReviver.DoParseObject | lib/sd/native/object_reviver.cxx:10-91 | `do_parse_object` computes `ParseObject` and makes the object the root when there is none |
| ObjectRevivers.ObjectReviver.ReadFields | lib/sd/native/object_reviver.cxx:29-85 | the field loop computes `ParseFields` and leaves the root unchanged |
| ObjectRevivers.ObjectReviver.ReviveField | lib/sd/native/object_reviver.cxx:30-84 | one field: a primitive read from the body at its offset or a reference read as the next record |
| ObjectRevivers.ObjectReviver.DoParseArray | lib/sd/native/object_reviver.cxx:93-143 | `do_parse_array` computes `ParseArray` and makes the array the root when there is none |
| ObjectRevivers.ObjectReviver.ReadPrimElems | lib/sd/native/object_reviver.cxx:116-128 | the primitive body is read as the corrected `ParsePrimArray` |
| ObjectRevivers.ObjectReviver.ReadElems | lib/sd/native/object_reviver.cxx:129-134 | the element loop computes `ParseElems` and leaves the root unchanged |
| ObjectRevivers.ObjectReviver.Revive | lib/sd/native/object_reviver.cxx:182-194 | an unregistered root class is an error; otherwise the result is `Revival` of the input |
| ObjectRevivers.ReviveSerialized | lib/sd/native/object_reviver.cxx:182-194 | reviving what the walker serialized gives the root's view for an object or array root, and null for an enum root |
| ObjectRevivers.PrimArrayAsWrittenLoses | lib/sd/native/object_reviver.cxx:126-127 | on a walker-written primitive array with elements wider than a byte (such as `long[]{6,6,6}`), the as-written copy differs from the array's view while the corrected one gives it |
| RWBuffers.Splice | lib/sd/native/rw_buffer.hxx:21-31 | a `memcpy` into the buffer keeps its length |
| RWBuffers.SpliceKeeps | lib/sd/native/rw_buffer.hxx:17-31 | a write leaves every byte outside its range unchanged |
| RWBuffers.Pad8 | lib/sd/native/rw_buffer.hxx:64-75 | the padding to the next multiple of 8 is below 8 |
| RWBuffers.Pad8Aligns | lib/sd/native/rw_buffer.hxx:64-75 | the offset plus its padding is a multiple of 8 |
| RWBuffers.Pad8Closed | lib/sd/native/rw_buffer.hxx:64-75 | the padding is `(8 - off % 8) % 8` |
| RWBuffers.Pad8IsUpperAlign | lib/sd/native/rw_buffer.hxx:65-73 | the offset plus its padding is `upper_align(off, 8)` |
| RWBuffers.PutGetRoundTrip | lib/sd/native/rw_buffer.hxx:17-38 | `get_at` after `put_at` of a value that fits its width gives the value back |
| RWBuffers.LaterPutKeepsEarlier | lib/sd/native/rw_buffer.hxx:23-32 | a later write past an earlier one keeps the earlier bytes |
| RWBuffers.SpliceThenNext | lib/sd/native/rw_buffer.hxx:23-32 | two consecutive `put`s write the concatenation |
| RWBuffers.RWBuffer.constructor | lib/sd/native/rw_buffer.hxx:12 | the buffer is borrowed and the cursor starts at 0 |
| RWBuffers.RWBuffer.PutAt | lib/sd/native/rw_buffer.hxx:21 | `put_at` copies the bytes at the offset and leaves the cursor |
| RWBuffers.RWBuffer.PutIntAt | lib/sd/native/rw_buffer.hxx:16-19 | `put_at<T>` writes the value little-endian at the offset, reads back as it, and leaves the cursor |
| RWBuffers.RWBuffer.Put | lib/sd/native/rw_buffer.hxx:29-32 | `put` copies the bytes at the cursor and moves the cursor past them |
| RWBuffers.RWBuffer.PutInt | lib/sd/native/rw_buffer.hxx:23-27 | `put<T>` writes the value at the cursor, which moves by its width, and it reads back as the value |
| RWBuffers.RWBuffer.GetAt | lib/sd/native/rw_buffer.hxx:40 | `get_at` of n bytes gives n bytes |
| RWBuffers.RWBuffer.GetIntAt | lib/sd/native/rw_buffer.hxx:34-38 | `get_at<T>` gives a value that fits the width |
| RWBuffers.RWBuffer.Peek | lib/sd/native/rw_buffer.hxx:42-46 | `peek<T>` reads relative to the cursor and gives a value that fits the width |
| RWBuffers.RWBuffer.Get | lib/sd/native/rw_buffer.hxx:55-58 | `get` of n bytes gives the bytes at the cursor and moves it by n |
| RWBuffers.RWBuffer.GetInt | lib/sd/native/rw_buffer.hxx:48-53 | `get<T>` gives the value at the cursor and moves it by the width |
| RWBuffers.RWBuffer.Skip | lib/sd/native/rw_buffer.hxx:63 | `skip` moves the cursor by n |
| RWBuffers.RWBuffer.FillNextAlign8 | lib/sd/native/rw_buffer.hxx:64-71 | the padding is zeroed and the cursor moves to the next multiple of 8 |
| RWBuffers.RWBuffer.SkipNextAlign8 | lib/sd/native/rw_buffer.hxx:72-75 | the cursor moves to the next multiple of 8 and no byte changes |
| KernelBuffers.Pad8Shift | lib/sd/kernel/sd.c:279-283 | aligning a pointer is unchanged by a multiple of 8 in its address, so an 8-aligned buffer pads like its offset |
| KernelBuffers.DeviceBuffer.constructor | lib/sd/kernel/sd.c:471-473 | the device buffer has its base, its limit and its cursor at the given start |
| KernelBuffers.DeviceBuffer.UAt | lib/sd/kernel/sd.c:256-258 | `get_u<w>_at` gives a value that fits its width |
| KernelBuffers.DeviceBuffer.PutU | lib/sd/kernel/sd.c:239-242 | `put_u<w>` writes the value little-endian at the cursor, which moves by the width, and it reads back as the value |
| KernelBuffers.DeviceBuffer.PutUAt | lib/sd/kernel/sd.c:235-238 | `put_u<w>_at` writes the value at the offset, and it reads back as the value |
| KernelBuffers.DeviceBuffer.GetU | lib/sd/kernel/sd.c:259-263 | `get_u<w>` gives the value at the cursor and moves it by the width |
| KernelBuffers.DeviceBuffer.GetUAt | lib/sd/kernel/sd.c:256-258 | `get_u<w>_at` gives the value at the offset |
| KernelBuffers.DeviceBuffer.Put | lib/sd/kernel/sd.c:249-252 | `put` copies the bytes at the cursor and moves it past them |
| KernelBuffers.DeviceBuffer.Get | lib/sd/kernel/sd.c:270-273 | `get` gives the n bytes at the cursor and moves it by n |
| KernelBuffers.DeviceBuffer.Skip | lib/sd/kernel/sd.c:278 | `skip` moves the cursor by n |
| KernelBuffers.DeviceBuffer.SkipNextAlign8 | lib/sd/kernel/sd.c:279-281 | the cursor's address moves to the next multiple of 8 |
| KernelBuffers.DeviceBuffer.FillNextAlign8 | lib/sd/kernel/sd.c:282-314 | the padding up to the next 8-aligned address is zeroed and skipped; on an 8-aligned buffer it is the offset's padding |
| KernelBuffers.DeviceBuffer.FillZeros | lib/sd/kernel/sd.c:284-313 | the switch over the padding writes exactly that many zero bytes with 1-, 2- and 4-byte stores |
| KernelBuffers.DeviceBuffer.PutZeros | lib/sd/kernel/sd.c:288-311 | one zero store extends the zeroed run by its width |
| KernelSerializer.LowerBoundBetween | lib/sd/kernel/sd.c:40-51 | a position with smaller keys before it and no smaller key from it on is the lower bound |
| KernelSerializer.GetClassInfoByKlass | lib/sd/kernel/sd.c:33-53 | the device binary search over the klass-sorted table finds exactly what the host lookup by klass finds |
| KernelSerializer.DeviceLookupFinds | lib/sd/kernel/sd.c:33-53 | on a valid registry the search finds the registered record of a klass, and whatever it finds has that klass |
| KernelSerializer.EnumRecShape | lib/sd/kernel/sd.c:424-429 | an enum record is the id, the enum and object flags together and the ordinal |
| KernelSerializer.DeviceSerializer.constructor | lib/sd/kernel/sd.c:466-473 | the device context writes the device output from the given start, using the registry's tables |
| KernelSerializer.DeviceSerializer.Align | lib/sd/kernel/sd.c:282-314 | `fill_next_align_8` on the output: zeros up to the next multiple of 8 |
| KernelSerializer.DeviceSerializer.PutHeader | lib/sd/kernel/sd.c:393-394 | the id and the flag go at the cursor, which moves by 4 (also lines 426-427) |
| KernelSerializer.DeviceSerializer.PutObjectHeader | lib/sd/kernel/sd.c:326-331 | the id, the object flag and the padding to 8 |
| KernelSerializer.DeviceSerializer.PutArrayHeader | lib/sd/kernel/sd.c:358-365 | the id, the array flag, the length and the padding to 8 |
| KernelSerializer.DeviceSerializer.Recur | lib/sd/kernel/sd.c:383-443 | `_do_serialize_recur` writes the same record as the host walker at the next 8-aligned offset and returns that offset |
| KernelSerializer.DeviceSerializer.SerializeNonNull | lib/sd/kernel/sd.c:413-440 | a non-null object's class, found by the device search, selects the enum, object or array record |
| KernelSerializer.DeviceSerializer.SerializeObject | lib/sd/kernel/sd.c:321-349 | `_do_serialize_object` writes the object record of the host walker |
| KernelSerializer.DeviceSerializer.SerializeFields | lib/sd/kernel/sd.c:338-348 | the field loop appends every member record and patches every reference slot |
| KernelSerializer.DeviceSerializer.SerializeArray | lib/sd/kernel/sd.c:351-381 | `_do_serialize_array` writes the array record of the host walker |
| KernelSerializer.DeviceSerializer.SerializeElems | lib/sd/kernel/sd.c:368-373 | the element loop appends one record per element |
| KernelSerializer.DeviceSerializer.SerializeRoot | lib/sd/kernel/sd.c:445-452 | `_do_serialize` leaves the same buffer as the host's `walk` and returns its total length |
| KernelSerializer.DoSerialize | lib/sd/kernel/sd.c:465-485 | `do_serialize` reports the total length and the caller's output handle, and the bytes copied to the host are the serialized buffer up to that length |
| KernelSerializer.ConsumeCompletion | lib/sd/kernel/sd.c:487-507 | a request is answered with its own id and the output of `do_serialize` for its object |
| KernelSerializer.CopiedParses | lib/sd/kernel/sd.c:476-479 | the copied bytes start with their own length and parse back to the object's view |
| SerializeContexts.HostSerialize | lib/sd/native/sd.cxx:8-17 | `Context::serialize` leaves the walker's serialized buffer and returns its first `total_length` bytes, which parse back to the object's view |
| SerializeContexts.RouteSound | lib/sd/native/sd.cxx:34-47 | only an unregistered class gives null; one device thread never takes the batched path; the batched path is taken only for an array of references, whose record is the array header followed by the element records |
| SerializeContexts.ArrayHeader | lib/sd/native/sd.cxx:70-75 | the array header plus padding ends at the next multiple of 8 after its 8 bytes |
| SerializeContexts.PiecesStep | lib/sd/native/sd.cxx:93-96 | one more element output adds padding to 8 and the output without its meta header |
| SerializeContexts.PiecesGrow | lib/sd/native/sd.cxx:79-98 | appending outputs never shortens the buffer |
| SerializeContexts.BatchBounds | lib/sd/native/sd.cxx:76-77 | `n_batch = ceil(length / batch_size)`: the batches cover the array, there is none for an empty array, and the last one is not empty |
| SerializeContexts.BatchTasks | lib/sd/native/sd.cxx:81 | a batch has between 1 and `batch_size` tasks and stays inside the array; a short batch ends at `length` |
| SerializeContexts.BatchAdvance | lib/sd/native/sd.cxx:79-81 | each batch starts where the previous stopped, and after the last one every element has been handed out |
| SerializeContexts.AppendOutput | lib/sd/native/sd.cxx:93-96 | one element output appended after padding, without its meta header |
| SerializeContexts.PutBatchedHeader | lib/sd/native/sd.cxx:69-75 | the array header goes right after the meta header and the cursor ends 8-aligned after it |
| SerializeContexts.TriggerBatch | lib/sd/native/sd.cxx:84-89 | a batch triggers the next `n_task` elements in order |
| SerializeContexts.CollectBatch | lib/sd/native/sd.cxx:90-98 | a batch's outputs are appended in element order |
| SerializeContexts.RunBatches | lib/sd/native/sd.cxx:76-100 | every element is triggered exactly once, in order, and every output appended in that order |
| SerializeContexts.WriteTotal | lib/sd/native/sd.cxx:101-105 | the total length, truncated to 32 bits, is written at offset 0 and that many bytes are returned |
| SerializeContexts.SerializeArrayBatched | lib/sd/native/sd.cxx:67-107 | the batched path leaves the array header and the stripped element outputs after the meta header, the total length at offset 0, and returns that prefix |
| SerializeContexts.ObjSerialize | lib/sd/native/sd.cxx:49-65 | one device thread serializes the whole object; the returned bytes are the serialized buffer up to its length and parse back to the object's view |
| SerializeContexts.DoSerialize | lib/sd/native/sd.cxx:34-47 | null exactly for an unregistered class; otherwise the device's serialized buffer or the batched buffer, as the route decides |
| SerializeContexts.KernelPiece | lib/sd/native/sd.cxx:94-96 | a device output without its meta header is exactly the element's record, so the batched path appends element records |
| DeviceMem.MoveWord | lib/doca/kernel/mem.h:19-35 | `*d.uW++ = *s.uW++` copies one w-byte word and changes nothing else |
| DeviceMem.MoveWordOver | lib/doca/kernel/mem.h:19-43 | one more word extends the copied range by its width |
| DeviceMem.CopiedChain | lib/doca/kernel/mem.h:9-64 | a copy of k bytes followed by a copy of the next m bytes is a copy of k + m bytes |
| DeviceMem.MoveWords | lib/doca/kernel/mem.h:15-32 | the fall-through switch copies `count` words and advances both pointers by `count * w` |
| DeviceMem.MoveRounds | lib/doca/kernel/mem.h:34-43 | the unrolled loop copies `n` rounds of eight words |
| DeviceMem.CopyU64 | lib/doca/kernel/mem.h:9-65 | `d_memcpy_u64` copies exactly `bytes` bytes (prologue, rounds and tail bytes) and returns `s + bytes` |
| DeviceMem.CopyU32 | lib/doca/kernel/mem.h:67-115 | `d_memcpy_u32` copies exactly `bytes` bytes and returns `s + bytes` |
| DeviceMem.DMemcpy | lib/doca/kernel/mem.h:255-288 | `d_memcpy` returns `d_src + len` and leaves the destination with the source bytes in `[dest, dest+len)` and every other byte unchanged, for either alignment |
| DeviceMem.FillWordBytes | lib/doca/kernel/mem.h:120-122 | every byte of the replicated fill word is the fill value (also lines 172-175) |
| DeviceMem.FillWordShift | lib/doca/kernel/mem.h:120-122 | shifting the fill word by a whole number of bytes leaves the fill value in its low byte (also lines 172-175) |
| DeviceMem.FillWordBits | lib/doca/kernel/mem.h:120-122 | each of the 4 (or 8) byte lanes of the fill word holds the fill value (also lines 172-175) |
| DeviceMem.StoreWord | lib/doca/kernel/mem.h:130 | `*p.uW++ = u` stores the word's bytes little-endian and changes nothing else (also line 183) |
| DeviceMem.FilledMoreWord | lib/doca/kernel/mem.h:126-154 | storing the fill word extends the filled range by its width |
| DeviceMem.FilledChain | lib/doca/kernel/mem.h:117-229 | a fill of k bytes followed by a fill of the next n bytes is a fill of k + n bytes |
| DeviceMem.StoreWords | lib/doca/kernel/mem.h:126-154 | the switch and the unrolled loop store `count` fill words |
| DeviceMem.StoreBytes | lib/doca/kernel/mem.h:156-165 | the tail stores single fill bytes |
| DeviceMem.FillU64 | lib/doca/kernel/mem.h:169-229 | `d_memset_u64` sets exactly `len` bytes to the value and returns `p + len` |
| DeviceMem.FillU32 | lib/doca/kernel/mem.h:117-167 | `d_memset_u32` sets exactly `len` bytes to the value and returns `p + len` |
| DeviceMem.DMemset | lib/doca/kernel/mem.h:231-253 | `d_memset` returns `p + len` and leaves `len` copies of the value from p, every other byte unchanged |
| DpaThreads.TaskContext.constructor | lib/doca/dpa_thread.hxx:24-33 | a new task context holds its input and has not been triggered |
| DpaThreads.TlsCheck | lib/doca/dpa_thread.cxx:126-128 | a thread is created exactly when its local storage can hold the thread arguments; a smaller size dies |
| DpaThreads.DPAThreadGroup.constructor | lib/doca/dpa_thread.cxx:14-23 | a new group has `n_thread` inactive slots, no thread and no outstanding task |
| DpaThreads.DPAThreadGroup.Add | lib/doca/dpa_thread.hxx:112-114 | `add` appends a thread in the next slot, with local storage for the thread's and the user's arguments |
| DpaThreads.DPAThreadGroup.GetOneInactive | lib/doca/dpa_thread.cxx:36-49 | one pass of the search marks the lowest inactive slot busy and returns it; when all are busy nothing changes (the source yields and searches again) |
| DpaThreads.DPAThreadGroup.Trigger | lib/doca/dpa_thread.cxx:51-73 | `trigger` takes the lowest inactive slot, stamps its task with that slot's id and records it as the outstanding task for that id |
| DpaThreads.DPAThreadGroup.OnRecv | lib/doca/dpa_thread.cxx:84-97 | a reply for an outstanding id completes exactly that task with the reply, removes it and frees its slot; a reply for any other id is dropped and changes nothing |
| DpaThreads.DPAThreadGroup.OutstandingDistinct | lib/doca/dpa_thread.cxx:69-95 | two outstanding ids never share a task context |
| HexDump.Shown | lib/util/hex_dump.hxx:45 | a byte in the ASCII column is never a line break (unprintable bytes show as `.`) |
| HexDump.Cell | lib/util/hex_dump.hxx:36 | a byte's cell is two hex digits and a space |
| HexDump.Slot | lib/util/hex_dump.hxx:35-39 | each slot of a row is three characters, blank past the data |
| HexDump.Cells | lib/util/hex_dump.hxx:34-40 | the hex part of a row is three characters per slot |
| HexDump.HexCells | lib/util/hex_dump.hxx:34-40 | the slot loop builds the hex part of a row |
| HexDump.AsciiCells | lib/util/hex_dump.hxx:43-47 | the ASCII loop builds the ASCII column |
| HexDump.RowLine | lib/util/hex_dump.hxx:33-48 | one row: offset, hex part, a space and the optional ASCII column |
| HexDump.ToString | lib/util/hex_dump.hxx:25-54 | `to_string` produces the header line followed by the rows |
| HexDump.AppendRows | lib/util/hex_dump.hxx:32-52 | the row loop appends all rows |
| HexDump.AppendRow | lib/util/hex_dump.hxx:33-51 | one iteration appends the row and a newline unless it is the last |
| HexDump.RowList | lib/util/hex_dump.hxx:32 | there are `ceil(size / RowSize)` rows |
| HexDump.RowsAreJoined | lib/util/hex_dump.hxx:49-51 | the rows are joined by single newlines |
| HexDump.CeilDivIsDivision | lib/util/hex_dump.hxx:32 | the row count is `(size + RowSize - 1) / RowSize` |
| HexDump.CellsLayout | lib/util/hex_dump.hxx:34-40 | slot k of a row sits at characters `3k .. 3k+3` |
| HexDump.CellReadsBack | lib/util/hex_dump.hxx:36 | the two hex digits of a cell read back as the byte |
| HexDump.AsciiColumnLayout | lib/util/hex_dump.hxx:43-47 | the ASCII column has one character per byte present in the row, each the byte as shown |
| HexDump.RowOffset | lib/util/hex_dump.hxx:33 | a row starts with its offset as 8 hex digits, then `": "` |
| HexDump.RowLastChar | lib/util/hex_dump.hxx:41-48 | a row never ends in a newline |
| HexDump.NoTrailingNewline | lib/util/hex_dump.hxx:49-51 | the dump of a non-empty buffer does not end with a newline |
| Numerals.DigitChar | lib/util/hex_dump.hxx:31 | a decimal digit character reads back as its value |
| Numerals.DecimalRoundTrip | lib/util/hex_dump.hxx:31 | the decimal text of a size reads back as the size |
| Numerals.HexChar | lib/util/hex_dump.hxx:26-36 | a hex digit character reads back as its value |
| Numerals.HexCharIsLookup | lib/util/hex_dump.hxx:26 | the hex digit is `hex_lookup[d]` |
| Numerals.HexRoundTrip | lib/util/hex_dump.hxx:30-33 | the hex text of a number reads back as the number |
| Numerals.ZeroPadShape | lib/util/hex_dump.hxx:29-33 | `setw` with fill `'0'` puts zeros before the text |
| Numerals.HexValueZeroPad | lib/util/hex_dump.hxx:29-33 | zero padding does not change the hex value |
| HugeBench.WrapLong | src/main/java/pdsl/dpx/bench/HugeBench.java:67-69 | Java `long` arithmetic: the result is the value modulo 2^64 in the signed range, and the value itself when it fits |
| HugeBench.DigitBlocksApart | src/main/java/pdsl/dpx/bench/HugeBench.java:67-69 | the blocks of ten digits that `Character.digit` reads (used by `Long.parseLong`) are ascending and never overlap |
| HugeBench.DigitFromInBlock | src/main/java/pdsl/dpx/bench/HugeBench.java:67-69 | searching the digit blocks from block i finds a digit exactly when the character lies in one of those blocks, and reads its distance from that block's zero |
| HugeBench.JavaDigit | src/main/java/pdsl/dpx/bench/HugeBench.java:67-69 | `Character.digit(c, 10)` is a digit value from 0 to 9, or -1 for a character that is not a decimal digit |
| HugeBench.JavaDigitInBlock | src/main/java/pdsl/dpx/bench/HugeBench.java:67-69 | `Character.digit(c, 10)` is non-negative exactly when c lies in a block of decimal digits, and is then c's distance from the block's zero |
| HugeBench.DigitFromSkips | src/main/java/pdsl/dpx/bench/HugeBench.java:67-69 | the search passes over every block before the one holding c and reads c's place in it |
| HugeBench.DigitBlockInBmp | src/main/java/pdsl/dpx/bench/HugeBench.java:67-69 | every digit of every block is a 16-bit `char` outside the surrogate range |
| HugeBench.JavaDigitOfBlock | src/main/java/pdsl/dpx/bench/HugeBench.java:67-69 | digit k of every block reads as k |
| HugeBench.JavaDigitOfAscii | src/main/java/pdsl/dpx/bench/HugeBench.java:67-69 | the ASCII digits read as their ordinary values |
| HugeBench.JavaDecimalOfAscii | src/main/java/pdsl/dpx/bench/HugeBench.java:67-69 | on ASCII digits the value of a digit string is its ordinary decimal value |
| HugeBench.ParseLong | src/main/java/pdsl/dpx/bench/HugeBench.java:67-69 | `Long.parseLong` accepts only text of an optional sign and at least one digit of any script; the value is the digits' decimal value, negated after a '-', and lies in the `long` range |
| HugeBench.ParseLongArabicIndic | src/main/java/pdsl/dpx/bench/HugeBench.java:67-69 | Arabic-Indic digits one and two parse to 12 |
| HugeBench.ParseLongFullwidth | src/main/java/pdsl/dpx/bench/HugeBench.java:67-69 | a minus followed by fullwidth digits one and two parses to -12 |
| HugeBench.ParseLongOfDecimal | src/main/java/pdsl/dpx/bench/HugeBench.java:67-69 | the decimal text of a `long`, with an optional sign, parses to that value |
| HugeBench.ParseLongRejects | src/main/java/pdsl/dpx/bench/HugeBench.java:67-69 | empty text, a lone sign, or unsigned text holding a character that is not a digit of any script is rejected |
| HugeBench.GetActualSize | src/main/java/pdsl/dpx/bench/HugeBench.java:65-73 | a size that succeeds is a `long` |
| HugeBench.SizeOfKiB | src/main/java/pdsl/dpx/bench/HugeBench.java:66-67 | `nKB` is `1024 * n`, wrapped to 64 bits; it differs from `1024 * n` exactly when that overflows |
| HugeBench.SizeOfFullwidthKiB | src/main/java/pdsl/dpx/bench/HugeBench.java:65-73 | a size written with a fullwidth digit one and `KB` is 1024 bytes |
| HugeBench.SizeOfMiB | src/main/java/pdsl/dpx/bench/HugeBench.java:68-69 | `nMB` is `1024 * 1024 * n`, wrapped to 64 bits; it differs exactly when that overflows |
| HugeBench.GetActualSizeFails | src/main/java/pdsl/dpx/bench/HugeBench.java:65-73 | the size fails exactly when it ends in neither `KB` nor `MB` or its number does not parse |
| HugeBench.Name | src/main/java/pdsl/dpx/bench/HugeBench.java:49-62 | every key of the table ends in its unit |
| HugeBench.SizeOf | src/main/java/pdsl/dpx/bench/HugeBench.java:43-63 | `size_m.get` finds a shape exactly for a key in the table (also line 80) |
| HugeBench.Lookup | src/main/java/pdsl/dpx/bench/HugeBench.java:80 | a lookup succeeds exactly for a present key and gives that entry's rows and columns |
| HugeBench.SizeTableMatches | src/main/java/pdsl/dpx/bench/HugeBench.java:49-69 | every entry's matrix of doubles, rows times columns times 8 bytes, is exactly the size its key names |
| SerdeStream.Unsigned | src/main/java/pdsl/dpx/SerdeInputStream.java:56-62 | `b & 0xff` is the byte modulo 256 |
| SerdeStream.Signed | src/main/java/pdsl/dpx/SerdeInputStream.java:55-62 | a stored Java byte reads back as the unsigned byte |
| SerdeStream.UnsignedAll | src/main/java/pdsl/dpx/SerdeInputStream.java:55-62 | each byte masked with `0xff` |
| SerdeStream.LengthOf | src/main/java/pdsl/dpx/SerdeInputStream.java:54-63 | the little-endian length in the first 8 bytes is a signed 64-bit value |
| SerdeStream.LengthOfLongBytes | src/main/java/pdsl/dpx/SerdeInputStream.java:54-63 | the length read back from a `long` written little-endian is that `long` |
| SerdeStream.LengthOfWrittenLength | src/main/java/pdsl/dpx/SerdeInputStream.java:54-63 | the length the serializer writes at offset 0 reads back as the total length |
| SerdeStream.WrapInt | src/main/java/pdsl/dpx/SerdeInputStream.java:50 | the `(int)` cast keeps the value modulo 2^32 in the signed range |
| SerdeStream.BodyLengthOfRecord | src/main/java/pdsl/dpx/SerdeInputStream.java:44-50 | for a length between 8 and 1 MiB the body to read is the length less the 8-byte header |
| SerdeStream.InputStream.Read | src/main/java/pdsl/dpx/SerdeInputStream.java:28 | `is.read` returns 0 for an empty request, -1 at the end of the stream, otherwise between 1 and the requested count, and moves exactly those bytes |
| SerdeStream.SerdeInputStream.constructor | src/main/java/pdsl/dpx/SerdeInputStream.java:12-18 | the stream gets a fresh 1 MiB reuse buffer |
| SerdeStream.SerdeInputStream.ReadInto | src/main/java/pdsl/dpx/SerdeInputStream.java:24-38 | `readInto` fills exactly `[offset, offset + length)` with the next bytes of the stream, or fails with EOF having consumed the rest, or rejects bad bounds |
| SerdeStream.SerdeInputStream.ReadObject | src/main/java/pdsl/dpx/SerdeInputStream.java:40-52 | `readObject` reads the 8-byte length and then the rest of the record into the reuse buffer; too short a stream is EOF and a length over 1 MiB is "Too long" |


## Left out

- Concurrency is left out: fibers, threads, locks, condition variables and the poller. Each handler, completion and queue step is one sequential step.
- The `serve_until` worker loop and its spawning and joining of workers are left out; one `serve_once` step is modelled.
- The DOCA SDK and device plumbing, the socket and CM connection handshakes and the verbs backend are left out. A task's submission and completion are abstract events that carry a byte count or a status.
- zpp_bits serialization and the SHA-1 RPC ids are left out. An id is a function of the RPC's name.
- Futures are not modelled as objects. A fulfilled promise is a value appended to a list of results.
- File, disk, NVMe and io_uring I/O in the spill workers is left out. A spilled buffer is the byte snapshot handed to the spill queue.
- JNI and JVM glue is left out. That covers the object allocation and field setting done by the reviver and the reads of `FakeObject`/`FakeKlass` memory. The heap is the `JObj` and `Klass` values.
- The simdutf UTF-16 to UTF-8 conversion of strings is left out. A string is serialized like any other object of its class.
- `register_jvm_heap`, `Context::deserialize` and the relocation of class records in `register_class_infos` are left out. These are device-side and JNI entry points around the modelled serializer.
- The device-side RPC entry points (`comch_*_comp`, `register_*`, `serialize`) are left out, as is the wakeup kernel. Only the helpers they call are modelled.
- The redirect/visited map of the walkers is commented out in the source and is not modelled. Shared or cyclic object graphs are outside the model: `JObj` is a tree.
- SerializeContexts.DoSerialize: requires `maxThreads < 2^32` and, on the batched path, `|outs| + maxThreads <= 2^32`. Larger values overflow the source's 32-bit counters and are not modelled.
- SerializeContexts.SerializeArrayBatched: proves the layout of the concatenated record and its total length. It does not prove that the batched record reads back with `ObjectReviver`.
- DpaThreads.DPAThreadGroup.GetOneInactive: models one pass of the search. When every thread is busy the source yields and searches again; the model returns `None`.
- SpillAgents.SpillAgent.AppendOrSpill: requires `HEADER_SIZE + |key| + |value| <= bufferSize`. The source has no such check and copies an oversized record past the end of a fresh buffer.
- SpillAgents.SpillAgent.AcquireOne: allocates a fresh zeroed array. The source takes a piece of the pool's region, so aliasing between pieces and the pool is not modelled.
- Partitioner.Object: a zero length, or a length or prefix that runs past the input, gives `None`. The source's loop does not advance on a zero length, and it reads out of bounds on the others.
- RWBuffers.RWBuffer: every put, get, peek and skip requires its bytes to lie inside the buffer. `rw_buffer.hxx` does no bounds checking, and an access outside is undefined behaviour.
- KernelBuffers.DeviceBuffer: its puts and gets require their bytes to lie inside the device buffer, whose base is 8-aligned. `sd.c` checks neither.
- DeviceMem.DMemcpy: requires both pointers to be word-aligned when the length is not zero. The source reaches `unreachable()` on a misaligned pointer.
- DeviceMem.DMemset: requires a word-aligned pointer. The source reaches `unreachable()` on a misaligned pointer.
- ShuffleWorkers.PipelineDispatcher: `choose_one_trsq` uses the corrected index (the counter modulo the number of transfer queues). The index as written is modelled separately; see Findings.
- ObjectRevivers.ObjectReviver.ReadPrimElems: the reviver keeps the whole primitive body, `array_body_size(length)` bytes, as the corrected `RecordParse.ParsePrimArray` does. The copy as written, which hands `SetByteArrayRegion` only `length` bytes, is modelled separately; see Findings.
- RecordParse.ParsePrimArray: the corrected primitive copy; the copy as written is `RecordParse.ParsePrimArrayAsWritten` (see Findings).
- KernelSerializer.DeviceSerializer: every method requires the output buffer to hold the whole record it writes. `sd.c` does not check for an overrun, and a record that does not fit writes past the device buffer.
- ObjectWalkers.ObjectWalker: every method requires the output buffer to hold the whole record it writes. `object_walker.cxx` and `rw_buffer.hxx` do not check for an overrun, and a record that does not fit writes past the buffer.
- ObjectPools.SimpleObjectPool.Capacity: `capacity()` only reports the `max_size` given to the constructor. The pool never compares its queue with it, so no contract relates the two, and the getter has no row of its own.
- Transports.NextSeq: the 32-bit `current_seq` wraps to 0 after its largest value, as written. Sequence numbers are unique only until it wraps.
- Transports.Transport.ServeOnce: when the stop predicate fires after a receive, the receive buffer is not released, as written; `recvHeld` grows by one.
- OpContexts.DocaOutcome: a failed DMA chunk does not resolve the operation until the byte total reaches the length, as written.
- HugeBench.JavaDigit: the digit table is the Basic Multilingual Plane part of Unicode category Nd as of Unicode 7.0 (Java 9 and later); Java 8's Unicode 6.2 lacks the Sinhala Lith (U+0DE6) and Myanmar Tai Laing (U+A9F0) blocks. A Dafny `char` is a Unicode scalar value, not a UTF-16 unit: a supplementary-plane digit, which Java sees as two surrogates that are not digits, is likewise rejected, because no block lies outside the Basic Multilingual Plane.
- HugeBench: the benchmark bodies, their timing and the floating-point formatting are left out. `get_actual_size` and the size table are kept.
- Options parsing from process output, the Java wrappers and the reflection helpers are left out; they are JVM glue.

## Findings

| source | as written | input that shows it | evidently intended | confidence | as-written member | corrected member |
|---|---|---|---|---|---|---|
| lib/native/shuffle_worker.hxx:413 | `choose_one_trsq` indexes the transfer queues with the counter modulo the number of remote spill queues | 2 remote queues and 1 transfer queue, counter at 0: the index is 1, past the only transfer queue | the counter modulo the number of transfer queues | not executed | ShuffleWorkers.AsWrittenIndexOutOfRange | ShuffleWorkers.ChosenIndex |
| lib/sd/native/class_info.hxx:16-19 | `size()` counts the enum constants area as 8 bytes per static field | an enum with three constants: `size()` is 16 bytes less than `from_instance_klass` allocates | the size `from_instance_klass` allocates (class_resolver.cxx:29-37) | not executed | ClassInfos.SizeShortForThreeConstants | ClassInfos.RecordSizeIsAllocation |
| lib/native/shuffle_worker.hxx:253 | every per-partition bulk count is compared with the size of the whole mapped region | two non-empty partitions, each transferred whole: each count is below the region size, so the check fails | each count compared with its own partition's length | not executed | ShuffleWorkers.AsWrittenRejectsCompleteTransfers | ShuffleWorkers.IntendedAcceptsCompleteTransfers |
| lib/native/shuffle_worker.hxx:267-282 | the RDMA transfer block iterates the local partitions | any partition that goes remote: it is never sent | the RDMA block sends the remote partitions | not executed | ShuffleWorkers.ShuffleTransfersAsWritten | ShuffleWorkers.ShuffleTransfers |
| lib/sd/native/jvm_args.hxx:47 | non-zero-based `compress_ptr` shifts before it subtracts the base, so it does not invert `parse_cptr` | value 1, base 8, shift 3: `parse_cptr` gives 16 and `compress_ptr(16)` gives `0xFFFFFFFA` | subtract the base, then shift | not executed | JvmArgs.NonZeroBasedAsWrittenFails | JvmArgs.NonZeroBasedIntendedRoundTrip |
| lib/sd/native/object_reviver.cxx:126 | a primitive array's copy passes the element count as the byte count | `long[]{6,6,6}`: 3 of its 24 body bytes are kept | the whole body of `array_body_size(length)` bytes is copied | not executed | ObjectRevivers.PrimArrayAsWrittenLoses | RecordRoundTrip.RoundTrip |
