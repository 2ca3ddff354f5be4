/** Reading all variables at once, in bounded chunks (SumReadRequest.cpp). */
module SumReadRequests {
  import opened Types
  import opened Errors
  import opened Wire
  import opened Connections
  import opened Variables
  import opened Packing
  import R = Readback

  /** A request table asks for these variables' sizes. */
  predicate LengthsMatch(reqs: seq<Request>, vars: seq<ADSVariable>)
  {
    |reqs| == |vars| && forall i | 0 <= i < |vars| :: reqs[i].length == vars[i].Size()
  }

  lemma {:induction false} LengthsAddUp(reqs: seq<Request>, vars: seq<ADSVariable>)
    requires LengthsMatch(reqs, vars)
    ensures TotalLength(reqs) == Total(vars)
  {
    hide ADSVariable.Size;
    if vars != [] {
      LengthsAddUp(reqs[..|reqs| - 1], vars[..|vars| - 1]);
    }
  }

  function Elements(list: seq<ADSVariable>): set<ADSVariable>
  {
    set x | x in list
  }

  /** Everything needed for one sum-read. */
  class ReadRequestChunk {
    const adsPort: uint16
    var variables: seq<ADSVariable>
    var requestBuffer: seq<Request>
    const dataBuffer: SumReadBuffer
    ghost const rank: nat           // place among the chunks of its port
    ghost var answeredFrom: Memory  // device memory that the last good reply was read from

    constructor (adsPort: uint16, maxVariables: uint16, ghost rank: nat)
      requires maxVariables > 0
      ensures this.adsPort == adsPort && this.rank == rank && variables == [] && Consistent()
      ensures fresh(dataBuffer) && dataBuffer.maxNVariables == maxVariables && dataBuffer.Arrays() == {}
      ensures !dataBuffer.bufferInitialized && dataBuffer.bufferState == Invalid
    {
      this.adsPort, this.rank := adsPort, rank;
      variables, requestBuffer := [], [];
      dataBuffer := new SumReadBuffer(maxVariables);
      answeredFrom := p => Symbol(0, []);
      new;
      dataBuffer.home := this;
    }

    /** The buffer is this chunk's own and holds the chunk's variables. */
    ghost predicate Consistent()
      reads this`variables, this`requestBuffer, dataBuffer`variables, dataBuffer`nextResultOffset
      reads dataBuffer`nextDataOffset, dataBuffer`bufferSize, dataBuffer`buffer, dataBuffer`prevDataBuffer
      reads dataBuffer`bufferInitialized, dataBuffer`home
    {
      && dataBuffer.Consistent() && dataBuffer.home == this
      && variables == dataBuffer.variables && |requestBuffer| == |variables|
    }

    /** The buffer is what the device held, in full when its size needs no more than 32 bits. */
    ghost predicate Filled()
      reads this`answeredFrom, this`requestBuffer
      reads dataBuffer`bufferState, dataBuffer`bufferSize, dataBuffer`buffer, dataBuffer.buffer
    {
      && dataBuffer.bufferState == Valid
      && dataBuffer.buffer != null
      && (dataBuffer.bufferSize < 0x1_0000_0000 ==>
            dataBuffer.buffer[..] == SumReply(answeredFrom, adsPort, requestBuffer))
    }

    /** The device has answered this chunk's table from that memory, in this session and after the first
      `from` answers it gave. */
    ghost predicate AnsweredSince(device: AdsDevice, session: nat, from: nat)
      reads this`answeredFrom, this`requestBuffer, device`answers
    {
      exists i :: from <= i < |device.answers| &&
                  device.answers[i] == Answer(session, adsPort, requestBuffer, answeredFrom)
    }

    lemma JustAnswered(device: AdsDevice, session: nat, from: nat)
      requires from < |device.answers| && device.answers[from] == Answer(session, adsPort, requestBuffer, answeredFrom)
      ensures AnsweredSince(device, session, from)
    {
    }

    /** False stands for the exception thrown when the buffer refuses the variable. */
    method AddVariable(variable: ADSVariable) returns (ok: bool)
      requires Consistent()
      modifies this`variables, this`requestBuffer, variable`bufferReader
      modifies dataBuffer`variables, dataBuffer`nextResultOffset, dataBuffer`nextDataOffset, dataBuffer`bufferSize
      ensures Consistent()
      ensures ok <==> !dataBuffer.bufferInitialized && !Full(old(variables), dataBuffer.maxNVariables)
      ensures ok ==>
                && variables == old(variables) + [variable]
                && variable.InSlot() && variable.bufferReader.buffer == dataBuffer
      ensures !ok ==> unchanged(this) && variable.bufferReader == old(variable.bufferReader)
    {
      var rc := dataBuffer.AddVariable(variable);
      if rc != 0 {
        return false;
      }
      requestBuffer := requestBuffer + [ZERO_REQUEST];
      variables := variables + [variable];
      return true;
    }

    /** Every variable is resolved, and entry `i` is where and how much to read for variable `i`. */
    ghost predicate TableCurrent()
      reads this`variables, this`requestBuffer, set v | v in variables :: v.addr
    {
      && |requestBuffer| == |variables|
      && forall i | 0 <= i < |variables| ::
           && variables[i].addr.nameIsResolved
           && requestBuffer[i] == variables[i].Row()
    }

    /** Every row of the table names a live handle. */
    ghost predicate RowsLive(device: AdsDevice)
      reads this`requestBuffer, device`live
    {
      forall r | r in requestBuffer :: LiveRow(device.live, r)
    }

    /** False when some variable is not resolved. */
    method FillTable() returns (ok: bool)
      requires Consistent()
      modifies this`requestBuffer
      ensures Consistent()
      ensures ok <==> forall v | v in variables :: v.addr.nameIsResolved
      ensures ok ==> TableCurrent() && LengthsMatch(requestBuffer, variables)
    {
      hide ADSVariable.Size;
      var i := 0;
      while i < |variables|
        invariant 0 <= i <= |variables| == |requestBuffer|
        invariant forall k | 0 <= k < i ::
                    && variables[k].addr.nameIsResolved
                    && requestBuffer[k] == variables[k].Row()
      {
        var v := variables[i];
        if !v.addr.nameIsResolved {
          return false;
        }
        requestBuffer := requestBuffer[i := v.Row()];
        i := i + 1;
      }
      return true;
    }

    ghost predicate TableBlank()
      reads this`requestBuffer
    {
      forall i | 0 <= i < |requestBuffer| :: requestBuffer[i] == ZERO_REQUEST
    }

    method ClearTable()
      requires Consistent()
      modifies this`requestBuffer
      ensures Consistent() && TableBlank()
    {
      var i := 0;
      while i < |requestBuffer|
        invariant 0 <= i <= |requestBuffer| == |old(requestBuffer)|
        invariant forall k | 0 <= k < i :: requestBuffer[k] == ZERO_REQUEST
      {
        requestBuffer := requestBuffer[i := ZERO_REQUEST];
        i := i + 1;
      }
    }

    /** Cut the variables loose from the buffer. */
    method DetachVariables()
      modifies (set v | v in variables)`bufferReader
      ensures forall v | v in variables :: v.bufferReader == EMPTY_BUFFER_DATA_POSITION
    {
      var i := 0;
      while i < |variables|
        invariant 0 <= i <= |variables|
        invariant forall k | 0 <= k < i :: variables[k].bufferReader == EMPTY_BUFFER_DATA_POSITION
      {
        variables[i].SetBufferReader(EMPTY_BUFFER_DATA_POSITION);
        i := i + 1;
      }
    }

    /** A full reply has just the size of the buffer. */
    lemma ReplySize(m: Memory)
      requires Consistent() && dataBuffer.bufferInitialized && LengthsMatch(requestBuffer, variables)
      ensures dataBuffer.Consistent()
      ensures dataBuffer.buffer != null && dataBuffer.buffer != dataBuffer.prevDataBuffer
      ensures dataBuffer.prevDataBuffer != null
      ensures |SumReply(m, adsPort, requestBuffer)| == dataBuffer.buffer.Length == dataBuffer.bufferSize
    {
      hide ADSVariable.Size, Full, LengthsMatch;
      LengthsAddUp(requestBuffer, variables);
    }

    /** One turn of the loop in `read`: keep the old contents, then let the device refill the buffer. */
    method Refill(conn: Connection) returns (rc: int, ghost answer: int)
      requires Consistent() && dataBuffer.bufferInitialized && LengthsMatch(requestBuffer, variables)
      requires dataBuffer.buffer != null && dataBuffer.prevDataBuffer != null && RowsLive(conn.device)
      modifies this`answeredFrom, conn.device`memory, conn.device`answers, conn.device`replies
      modifies dataBuffer`bufferState, dataBuffer`session, dataBuffer.Arrays()
      ensures Consistent() && old(conn.device.answers) <= conn.device.answers
      ensures conn.device.replies == old(conn.device.replies) + [Sum(conn.adsPort, adsPort, answer)]
      ensures rc == EpicsCode(answer)
      ensures dataBuffer.prevDataBuffer[..] == old(dataBuffer.buffer[..])
      ensures rc == 0 ==>
                && answeredFrom == conn.device.memory
                && AnsweredSince(conn.device, conn.session, |old(conn.device.answers)|)
                && |SumReply(answeredFrom, adsPort, requestBuffer)| == |old(dataBuffer.buffer[..])|
                && Wrap32(dataBuffer.bufferSize) <= |old(dataBuffer.buffer[..])|
                && dataBuffer.buffer[..]
                   == Deliver(old(dataBuffer.buffer[..]), SumReply(answeredFrom, adsPort, requestBuffer),
                              Wrap32(dataBuffer.bufferSize))
                && dataBuffer.bufferState == Valid && dataBuffer.session == conn.session
      ensures rc != 0 ==>
                && dataBuffer.bufferState == old(dataBuffer.bufferState)
                && dataBuffer.session == old(dataBuffer.session)
                && dataBuffer.buffer[..] == old(dataBuffer.buffer[..])
    {
      hide EpicsCode, SumReply, LengthsMatch, SumReadBuffer.Consistent, ReadRequestChunk.Consistent, AnsweredSince;
      ReplySize(conn.device.memory);
      dataBuffer.SaveBuffer();
      var reply;
      rc, reply := conn.device.SumRead(conn.adsPort, adsPort, requestBuffer, Wrap32(dataBuffer.bufferSize),
                                        conn.session);
      answer := rc;
      rc := EpicsCode(rc);
      if rc == 0 {
        ReplySize(conn.device.memory);
        dataBuffer.Receive(reply);
        answeredFrom := conn.device.memory;
        dataBuffer.bufferState := Valid;
        dataBuffer.session := conn.session;
        JustAnswered(conn.device, conn.session, |old(conn.device.answers)|);
      }
    }

    lemma BufferStorage()
      requires Consistent()
      ensures 2 * dataBuffer.bufferSize == Storage(variables) && dataBuffer.Consistent()
      ensures dataBuffer.variables == variables
    {
    }

    /** Slot by slot, a filled buffer answers as the device does when asked for that variable alone. */
    lemma SlotHoldsSingleRead(v: ADSVariable, size: uint32)
      requires Consistent() && Filled() && TableCurrent() && dataBuffer.bufferSize < 0x1_0000_0000
      requires v.Readable() && v.bufferReader.buffer == dataBuffer && v.addr.spec.adsPort == adsPort
      ensures v.addr.nameIsResolved && v.Row() in requestBuffer
      ensures var (code, data) := SingleRead(answeredFrom, v.DevicePlace(), Min(size, v.Size()));
              v.Seen(size) == R.Fetched(code, data)
    {
      hide ADSVariable.Size, Full, SingleRead, SumReply, SlotCode, SlotData, Total, TotalLength;
      var i, n := v.bufferReader.offResult, Min(size, v.Size());
      LengthsAddUp(requestBuffer[..i], variables[..i]);
      BatchedReadRefinesSingleRead(answeredFrom, adsPort, requestBuffer, i, n);
      TotalMonotone(variables, i);
      assert requestBuffer[i] == v.Row();
    }
  }

  /** One reply per chunk, in order, for as many as were asked for: `rcs` are the codes. */
  function SumReplies(port: int, chunks: seq<ReadRequestChunk>, rcs: seq<int>): (replies: seq<Reply>)
    requires |rcs| <= |chunks|
    ensures |replies| == |rcs|
  {
    seq(|rcs|, k requires 0 <= k < |rcs| => Sum(port, chunks[k].adsPort, rcs[k]))
  }

  /** Every chunk has been read. */
  function GoodSums(port: int, chunks: seq<ReadRequestChunk>): (replies: seq<Reply>)
    ensures |replies| == |chunks|
  {
    seq(|chunks|, k requires 0 <= k < |chunks| => Sum(port, chunks[k].adsPort, 0))
  }

  lemma AllSummed(port: int, chunks: seq<ReadRequestChunk>, rcs: seq<int>)
    requires |rcs| == |chunks| && forall k | 0 <= k < |rcs| :: rcs[k] == 0
    ensures SumReplies(port, chunks, rcs) == GoodSums(port, chunks)
  {
  }

  /** What one more answer does to the log. */
  lemma OneMoreSum(was: seq<Reply>, soFar: seq<Reply>, port: int, chunks: seq<ReadRequestChunk>, rcs: seq<int>, rc: int)
    requires |rcs| < |chunks| && soFar == was + SumReplies(port, chunks, rcs)
    requires NoRefusal(was, soFar)
    ensures soFar + [Sum(port, chunks[|rcs|].adsPort, rc)] == was + SumReplies(port, chunks, rcs + [rc])
    ensures Continues(was, soFar + [Sum(port, chunks[|rcs|].adsPort, rc)])
    ensures NoRefusal(was, soFar + [Sum(port, chunks[|rcs|].adsPort, rc)]) <==> rc == 0
  {
    hide Refusals;
    OneMoreReply(soFar, Sum(port, chunks[|rcs|].adsPort, rc));
    assert SumReplies(port, chunks, rcs + [rc])
        == SumReplies(port, chunks, rcs) + [Sum(port, chunks[|rcs|].adsPort, rc)];
  }

  lemma NoSumYet(was: seq<Reply>, port: int, chunks: seq<ReadRequestChunk>)
    ensures was == was + SumReplies(port, chunks, []) && Continues(was, was) && NoRefusal(was, was)
  {
  }

  type ChunkMap = map<uint16, seq<ReadRequestChunk>>

  /** The chunks in ascending order of port, as iterating a `std::map` yields them. */
  function InPortOrder(m: ChunkMap, below: nat): seq<ReadRequestChunk>
    requires below <= 0x1_0000
  {
    if below == 0 then []
    else InPortOrder(m, below - 1) + if below - 1 in m then m[below - 1] else []
  }

  /** Chunk `c` is filed in `m`, under its port and rank. */
  predicate InPlace(m: ChunkMap, c: ReadRequestChunk, port: nat, rank: nat)
  {
    port in m && rank < |m[port]| && m[port][rank] == c
  }

  lemma {:induction false} ChunksInOrder(m: ChunkMap, below: nat)
    requires below <= 0x1_0000
    requires forall p, i | p in m && 0 <= i < |m[p]| :: m[p][i].adsPort == p && m[p][i].rank == i
    ensures forall k | 0 <= k < |InPortOrder(m, below)| ::
              var c := InPortOrder(m, below)[k]; c.adsPort < below && InPlace(m, c, c.adsPort, c.rank)
    ensures forall p, i | p in m && p < below && 0 <= i < |m[p]| :: m[p][i] in InPortOrder(m, below)
    ensures NoDuplicates(InPortOrder(m, below))
    ensures forall i, j | 0 <= i < j < |InPortOrder(m, below)| ::
              InPortOrder(m, below)[i].adsPort <= InPortOrder(m, below)[j].adsPort
  {
    if below > 0 {
      ChunksInOrder(m, below - 1);
    }
  }

  lemma EmptyHasRoom(max: uint16)
    requires 0 < max
    ensures !Full([], max)
  {
  }

  class SumReadRequest {
    const conn: Connection
    const maxVarsPerBuffer: uint16
    var isAllocated: bool
    var isInitialized: bool
    var chunksByAdsPort: ChunkMap
    ghost var listed: seq<ADSVariable>          // the variables the chunks hold
    ghost var chunkSet: set<ReadRequestChunk>
    ghost var bufferSet: set<SumReadBuffer>
    ghost var storeSet: set<array<Byte>>

    constructor (maxVariablesPerBuffer: uint16, connection: Connection)
      requires maxVariablesPerBuffer > 0
      ensures Valid() && !isAllocated && chunkSet == {} && bufferSet == {} && storeSet == {}
      ensures conn == connection && maxVarsPerBuffer == maxVariablesPerBuffer
    {
      conn, maxVarsPerBuffer := connection, maxVariablesPerBuffer;
      isAllocated, isInitialized, chunksByAdsPort := false, false, map[];
      listed, chunkSet, bufferSet, storeSet := [], {}, {}, {};
    }

    /** The map and the ghost set agree: every chunk is filed once, under its port and rank. */
    ghost predicate Filed()
      reads this`chunksByAdsPort, this`chunkSet
    {
      && (forall p, i | p in chunksByAdsPort && 0 <= i < |chunksByAdsPort[p]| ::
            var c := chunksByAdsPort[p][i]; c in chunkSet && c.adsPort == p && c.rank == i)
      && (forall c | c in chunkSet ::
            && c.adsPort in chunksByAdsPort && c.rank < |chunksByAdsPort[c.adsPort]|
            && chunksByAdsPort[c.adsPort][c.rank] == c)
    }

    ghost predicate Sound()
      reads this`chunkSet, this`bufferSet, this`storeSet
      reads chunkSet`variables, chunkSet`requestBuffer, bufferSet`variables, bufferSet`nextResultOffset
      reads bufferSet`nextDataOffset
      reads bufferSet`bufferSize, bufferSet`buffer, bufferSet`prevDataBuffer, bufferSet`bufferInitialized
      reads bufferSet`home
    {
      forall c | c in chunkSet ::
        && c.dataBuffer in bufferSet && c.dataBuffer.Arrays() <= storeSet
        && c.Consistent() && c.dataBuffer.maxNVariables == maxVarsPerBuffer
    }

    ghost predicate Owned()
      reads this`chunkSet, this`bufferSet
    {
      bufferSet == set c | c in chunkSet :: c.dataBuffer
    }

    ghost predicate Kept()
      reads this`chunksByAdsPort, this`chunkSet, this`bufferSet, this`storeSet
      reads chunkSet`variables, chunkSet`requestBuffer, bufferSet`variables, bufferSet`nextResultOffset
      reads bufferSet`nextDataOffset
      reads bufferSet`bufferSize, bufferSet`buffer, bufferSet`prevDataBuffer, bufferSet`bufferInitialized
      reads bufferSet`home
      ensures Kept() ==> 0 < maxVarsPerBuffer && Filed()
    {
      0 < maxVarsPerBuffer && Filed() && Sound() && Owned()
    }

    /** The chunks hold exactly `vars`: per port, packed greedily in order. */
    ghost predicate Dealt(vars: seq<ADSVariable>)
      reads this`chunksByAdsPort, this`chunkSet, chunkSet`variables
      requires Filed()
    {
      && chunksByAdsPort.Keys == Ports(vars)
      && (forall p | p in chunksByAdsPort :: |chunksByAdsPort[p]| == |Pack(OnPort(vars, p), maxVarsPerBuffer)|)
      && (forall p, i | p in chunksByAdsPort && 0 <= i < |chunksByAdsPort[p]| ::
            chunksByAdsPort[p][i].variables == Pack(OnPort(vars, p), maxVarsPerBuffer)[i])
    }

    /** No two chunks share storage. */
    ghost predicate StoresApart()
      reads this`chunkSet, (set c | c in chunkSet :: c.dataBuffer)`buffer
      reads (set c | c in chunkSet :: c.dataBuffer)`prevDataBuffer
    {
      forall c, d | c in chunkSet && d in chunkSet && c != d :: c.dataBuffer.Arrays() !! d.dataBuffer.Arrays()
    }

    ghost predicate Valid()
      reads this, (set c | c in chunkSet :: c.dataBuffer)`buffer, (set c | c in chunkSet :: c.dataBuffer)`prevDataBuffer
      reads chunkSet`variables, chunkSet`requestBuffer, bufferSet`variables, bufferSet`nextResultOffset
      reads bufferSet`nextDataOffset
      reads bufferSet`bufferSize, bufferSet`buffer, bufferSet`prevDataBuffer, bufferSet`bufferInitialized
      reads bufferSet`home
    {
      && Kept() && Dealt(listed) && StoresApart()
      && (isInitialized ==> isAllocated)
      && (!isAllocated ==> listed == [] && storeSet == {})
      && (isAllocated ==> forall c | c in chunkSet :: c.dataBuffer.bufferInitialized)
      && (isInitialized ==> forall c | c in chunkSet :: LengthsMatch(c.requestBuffer, c.variables))
    }

    /** Every listed variable has its slot in the buffer of a live chunk. */
    ghost predicate Slotted(vars: seq<ADSVariable>)
      reads this`bufferSet, bufferSet`variables, (set v | v in vars)`bufferReader
    {
      forall v | v in vars :: v.bufferReader.buffer in bufferSet && v.InSlot()
    }

    lemma NoneSlotted()
      ensures Slotted([])
    {
    }

    ghost predicate TablesCurrent()
      reads this`chunkSet, chunkSet`variables, chunkSet`requestBuffer
      reads set c, v | c in chunkSet && v in c.variables :: v.addr
    {
      forall c | c in chunkSet :: c.TableCurrent()
    }

    /** `get_chunks`: every chunk once, in order of port. */
    method GetChunks() returns (chunks: seq<ReadRequestChunk>)
      requires Filed()
      ensures chunks == InPortOrder(chunksByAdsPort, 0x1_0000)
      ensures forall c :: c in chunks <==> c in chunkSet
      ensures NoDuplicates(chunks)
    {
      chunks := [];
      for port := 0 to 0x1_0000
        invariant chunks == InPortOrder(chunksByAdsPort, port)
      {
        if port in chunksByAdsPort {
          chunks := chunks + chunksByAdsPort[port];
        }
      }
      ChunksInOrder(chunksByAdsPort, 0x1_0000);
    }

    method ClearTables()
      requires Kept()
      modifies chunkSet`requestBuffer
      ensures Kept()
      ensures forall c | c in chunkSet :: c.TableBlank()
    {
      hide SumReadBuffer.Consistent, ReadRequestChunk.Consistent, ReadRequestChunk.TableBlank, Filed, Owned,
        SumReadBuffer.Arrays, InPortOrder, NoDuplicates;
      var chunks := GetChunks();
      var k := 0;
      while k < |chunks|
        invariant 0 <= k <= |chunks|
        invariant Kept()
        invariant forall j | 0 <= j < k :: chunks[j].TableBlank()
      {
        chunks[k].ClearTable();
        k := k + 1;
      }
    }

    method Deinitialize()
      requires Kept()
      modifies this`isInitialized, chunkSet`requestBuffer
      ensures Kept() && !isInitialized
      ensures old(Valid()) ==> Valid()
      ensures forall c | c in chunkSet :: c.TableBlank()
    {
      hide Kept, Dealt, StoresApart, LengthsMatch, ReadRequestChunk.TableBlank;
      ClearTables();
      isInitialized := false;
    }

    method SetBuffersState(state: SumReadBufferState)
      requires Kept()
      modifies bufferSet`bufferState
      ensures Kept()
      ensures forall c | c in chunkSet :: c.dataBuffer.bufferState == state
    {
      hide SumReadBuffer.Consistent, ReadRequestChunk.Consistent, Filed, Owned, SumReadBuffer.Arrays, InPortOrder,
        NoDuplicates;
      var chunks := GetChunks();
      var k := 0;
      while k < |chunks|
        invariant 0 <= k <= |chunks|
        invariant Kept()
        invariant forall j | 0 <= j < k :: chunks[j].dataBuffer.bufferState == state
      {
        chunks[k].dataBuffer.bufferState := state;
        k := k + 1;
      }
    }

    method FillTables() returns (ok: bool)
      requires Kept()
      modifies chunkSet`requestBuffer
      ensures Kept()
      ensures ok <==> forall c, v | c in chunkSet && v in c.variables :: v.addr.nameIsResolved
      ensures ok ==> TablesCurrent()
      ensures ok ==> forall c | c in chunkSet :: LengthsMatch(c.requestBuffer, c.variables)
    {
      hide SumReadBuffer.Consistent, ReadRequestChunk.Consistent, ReadRequestChunk.TableCurrent, LengthsMatch, Filed,
        Owned, SumReadBuffer.Arrays, InPortOrder, NoDuplicates;
      var chunks := GetChunks();
      var k := 0;
      while k < |chunks|
        invariant 0 <= k <= |chunks|
        invariant Kept()
        invariant forall j | 0 <= j < k ::
                    chunks[j].TableCurrent() && LengthsMatch(chunks[j].requestBuffer, chunks[j].variables)
        invariant forall j, v | 0 <= j < k && v in chunks[j].variables :: v.addr.nameIsResolved
      {
        ok := chunks[k].FillTable();
        if !ok {
          return;
        }
        k := k + 1;
      }
      return true;
    }

    /** Fill every request table; the listed variables must be resolved. */
    method Initialize() returns (rc: int)
      requires Valid()
      modifies this`isInitialized, chunkSet`requestBuffer
      ensures Valid()
      ensures !isAllocated ==> rc == EPICSADS_NOT_ALLOCATED
      ensures isAllocated && old(isInitialized) ==> rc == EPICSADS_INV_CALL
      ensures isAllocated && !old(isInitialized) ==>
                rc == if (forall v | v in listed :: v.addr.nameIsResolved) then 0 else EPICSADS_NOT_RESOLVED
      ensures rc == 0 ==> isInitialized && TablesCurrent()
      ensures rc != 0 ==> isInitialized == old(isInitialized)
    {
      hide Kept, Dealt, StoresApart, TablesCurrent, LengthsMatch;
      if !isAllocated {
        return EPICSADS_NOT_ALLOCATED;
      }
      if isInitialized {
        return EPICSADS_INV_CALL;
      }
      Holds(listed);
      var ok := FillTables();
      if !ok {
        return EPICSADS_NOT_RESOLVED;
      }
      isInitialized := true;
      return 0;
    }

    lemma ChunkReady(c: ReadRequestChunk)
      requires Valid() && isInitialized && c in chunkSet
      ensures Filed() && Kept()
      ensures c.Consistent() && c.dataBuffer.bufferInitialized && LengthsMatch(c.requestBuffer, c.variables)
      ensures c.dataBuffer in bufferSet && c.dataBuffer.Arrays() <= storeSet
    {
      hide Filed, Dealt, LengthsMatch, StoresApart;
    }

    lemma IsKept()
      requires Valid()
      ensures Kept()
    {
    }

    lemma BuffersApart(c: ReadRequestChunk, d: ReadRequestChunk)
      requires Kept() && StoresApart()
      requires c in chunkSet && d in chunkSet && c != d
      ensures c.dataBuffer != d.dataBuffer && c.dataBuffer.Arrays() !! d.dataBuffer.Arrays()
    {
      hide Filed, SumReadBuffer.Consistent;
      assert c.Consistent() && d.Consistent();
    }

    /** The chunk's buffer was filled from an answer of the device over the connection that stands, after
      the first `from` answers the device gave. */
    ghost predicate FreshSince(c: ReadRequestChunk, from: nat)
      reads c`answeredFrom, c`requestBuffer, conn`session, conn.device`answers, c.dataBuffer`session
      reads c.dataBuffer`bufferState, c.dataBuffer`bufferSize, c.dataBuffer`buffer, c.dataBuffer.buffer
    {
      c.Filled() && c.dataBuffer.session == conn.session && c.AnsweredSince(conn.device, conn.session, from)
    }

    ghost predicate Fresh(c: ReadRequestChunk)
      reads c`answeredFrom, c`requestBuffer, conn`session, conn.device`answers, c.dataBuffer`session
      reads c.dataBuffer`bufferState, c.dataBuffer`bufferSize, c.dataBuffer`buffer, c.dataBuffer.buffer
    {
      FreshSince(c, 0)
    }

    /** The buffers in the order of their chunks. */
    lemma BuffersInOrder() returns (buffers: seq<SumReadBuffer>)
      requires Kept()
      ensures bufferSet == set b | b in buffers
    {
      hide Sound;
      var chunks := InPortOrder(chunksByAdsPort, 0x1_0000);
      ChunksInOrder(chunksByAdsPort, 0x1_0000);
      buffers := seq(|chunks|, i requires 0 <= i < |chunks| => chunks[i].dataBuffer);
      forall c | c in chunkSet ensures c.dataBuffer in buffers {
        var i :| 0 <= i < |chunks| && chunks[i] == c;
        assert buffers[i] == c.dataBuffer;
      }
      forall b | b in buffers ensures b in bufferSet {
        var i :| 0 <= i < |buffers| && buffers[i] == b;
        assert InPlace(chunksByAdsPort, chunks[i], chunks[i].adsPort, chunks[i].rank);
      }
    }

    /** What is said of the chunks, said of their buffers. */
    lemma BufferStates()
      requires Valid()
      ensures (forall c | c in chunkSet :: Fresh(c)) ==>
                forall b | b in bufferSet :: b.bufferState == SumReadBufferState.Valid && b.session == conn.session
      ensures (forall c | c in chunkSet :: c.dataBuffer.bufferState == Invalid) ==>
                forall b | b in bufferSet :: b.bufferState == Invalid
      ensures chunkSet != {} ==> bufferSet != {}
    {
      hide Filed, Sound, Dealt, StoresApart, LengthsMatch;
      if c :| c in chunkSet {
        assert c.dataBuffer in bufferSet;
      }
    }

    /** If there is a chunk, it is visited. */
    lemma ChunksAreListed()
      requires Valid()
      ensures chunkSet != {} ==> InPortOrder(chunksByAdsPort, 0x1_0000) != []
    {
      hide Sound, Owned, Dealt, StoresApart, InPortOrder;
      ChunksInOrder(chunksByAdsPort, 0x1_0000);
      if c :| c in chunkSet {
        assert InPlace(chunksByAdsPort, c, c.adsPort, c.rank);
      }
    }

    /** Read every chunk, one request each in the order of ports; the first failure ends that, and invalidates all
      buffers, filled or not. `rcs` are the device's answers. */
    method Read() returns (rc: int, ghost rcs: seq<int>)
      requires Valid() && (isInitialized ==> forall c | c in chunkSet :: c.RowsLive(conn.device))
      modifies chunkSet`answeredFrom, conn.device`memory, conn.device`answers, conn.device`replies
      modifies bufferSet`bufferState, bufferSet`session, storeSet
      ensures Valid() && old(conn.device.answers) <= conn.device.answers
      ensures !isInitialized ==> rc == EPICSADS_INV_CALL && unchanged(bufferSet) && unchanged(storeSet)
      ensures !isInitialized ==> conn.device.replies == old(conn.device.replies)
      ensures isInitialized ==>
                var chunks := InPortOrder(chunksByAdsPort, 0x1_0000);
                && |rcs| <= |chunks| && (rc == 0 ==> |rcs| == |chunks|)
                && rc == (if rcs == [] then 0 else EpicsCode(Last(rcs)))
                && (forall k | 0 <= k < |rcs| - 1 :: rcs[k] == 0)
                && conn.device.replies == old(conn.device.replies) + SumReplies(conn.adsPort, chunks, rcs)
      ensures isInitialized && rc == 0 ==>
                conn.device.replies
                == old(conn.device.replies) + GoodSums(conn.adsPort, InPortOrder(chunksByAdsPort, 0x1_0000))
      ensures Continues(old(conn.device.replies), conn.device.replies)
      ensures isInitialized ==> (rc == 0 <==> NoRefusal(old(conn.device.replies), conn.device.replies))
      ensures isInitialized && rc == 0 ==>
                forall c | c in chunkSet :: Fresh(c) && FreshSince(c, |old(conn.device.answers)|)
      ensures isInitialized && rc != 0 ==>
                chunkSet != {} && forall c | c in chunkSet :: c.dataBuffer.bufferState == Invalid
      ensures isInitialized ==> rc != EPICSADS_NOT_INITIALIZED
    {
      hide Kept, Filed, Dealt, StoresApart, LengthsMatch, FreshSince, ReadRequestChunk.RowsLive, InPortOrder,
        SumReplies, GoodSums, EpicsCode, Continues, NoRefusal;
      rcs := [];
      NoSumYet(conn.device.replies, conn.adsPort, []);
      if !isInitialized {
        return EPICSADS_INV_CALL, rcs;
      }
      var chunks := GetChunks();
      ghost var from := |conn.device.answers|;
      NoSumYet(conn.device.replies, conn.adsPort, chunks);
      var k := 0;
      while k < |chunks|
        invariant 0 <= k <= |chunks| && |rcs| == k && forall j | 0 <= j < k :: rcs[j] == 0
        invariant Valid() && old(conn.device.answers) <= conn.device.answers
        invariant forall j | 0 <= j < k :: Fresh(chunks[j]) && FreshSince(chunks[j], from)
        invariant conn.device.replies == old(conn.device.replies) + SumReplies(conn.adsPort, chunks, rcs)
        invariant Continues(old(conn.device.replies), conn.device.replies)
        invariant NoRefusal(old(conn.device.replies), conn.device.replies)
      {
        ghost var answer;
        ghost var soFar := conn.device.replies;
        rc, answer := ReadChunk(chunks[k], from);
        OneMoreSum(old(conn.device.replies), soFar, conn.adsPort, chunks, rcs, answer);
        rcs := rcs + [answer];
        if rc != 0 {
          SetBuffersState(Invalid);
          return;
        }
        k := k + 1;
      }
      AllSummed(conn.adsPort, chunks, rcs);
      return 0, rcs;
    }

    /** One turn of the loop in `read`. */
    method ReadChunk(chunk: ReadRequestChunk, ghost from: nat) returns (rc: int, ghost answer: int)
      requires Valid() && isInitialized && chunk in chunkSet && chunk.RowsLive(conn.device)
      requires from <= |conn.device.answers|
      modifies chunkSet`answeredFrom, conn.device`memory, conn.device`answers, conn.device`replies
      modifies bufferSet`bufferState, bufferSet`session, storeSet
      ensures Valid() && old(conn.device.answers) <= conn.device.answers
      ensures conn.device.replies == old(conn.device.replies) + [Sum(conn.adsPort, chunk.adsPort, answer)]
      ensures rc == EpicsCode(answer) != EPICSADS_NOT_INITIALIZED
      ensures rc == 0 ==> FreshSince(chunk, 0) && FreshSince(chunk, from)
      ensures forall c | c in chunkSet && c != chunk && old(FreshSince(c, from) && FreshSince(c, 0)) ::
                FreshSince(c, from) && FreshSince(c, 0)
    {
      hide Kept, Dealt, StoresApart, LengthsMatch, ReadRequestChunk.Consistent, SumReply, SumReadBuffer.Consistent,
        ReadRequestChunk.RowsLive;
      ChunkReady(chunk);
      assert chunk.dataBuffer.bufferInitialized; // so `read` never answers EPICSADS_NOT_INITIALIZED
      chunk.ReplySize(chunk.answeredFrom);
      rc, answer := chunk.Refill(conn);
      forall c | c in chunkSet && c != chunk && old(FreshSince(c, from) && FreshSince(c, 0))
        ensures FreshSince(c, from) && FreshSince(c, 0)
      {
        BuffersApart(c, chunk);
      }
    }

    ghost predicate Storeless()
      reads this`bufferSet, bufferSet
    {
      forall b | b in bufferSet :: !b.bufferInitialized && b.bufferState == Invalid
    }

    function OnPortNow(port: uint16): seq<ReadRequestChunk>
      reads this`chunksByAdsPort
    {
      if port in chunksByAdsPort then chunksByAdsPort[port] else []
    }

    /** The last chunk of a port, if there is one: all that putting one more variable may touch. */
    ghost function Tip(port: uint16): set<ReadRequestChunk>
      reads this`chunksByAdsPort
    {
      if port in chunksByAdsPort && chunksByAdsPort[port] != [] then {Last(chunksByAdsPort[port])} else {}
    }

    ghost function TipBuffer(port: uint16): set<SumReadBuffer>
      reads this`chunksByAdsPort
    {
      if port in chunksByAdsPort && chunksByAdsPort[port] != [] then {Last(chunksByAdsPort[port]).dataBuffer} else {}
    }

    lemma TipIsHeld(port: uint16)
      requires Kept()
      ensures Tip(port) <= chunkSet && TipBuffer(port) <= bufferSet
    {
    }

    method OpenChunk(port: uint16) returns (chunk: ReadRequestChunk)
      requires Kept() && Storeless()
      modifies this`chunksByAdsPort, this`chunkSet, this`bufferSet
      ensures Kept() && Storeless()
      ensures fresh(chunk) && fresh(chunk.dataBuffer) && chunk.variables == []
      ensures chunksByAdsPort
           == old(chunksByAdsPort)[port := old(OnPortNow(port)) + [chunk]]
      ensures chunkSet == old(chunkSet) + {chunk} && bufferSet == old(bufferSet) + {chunk.dataBuffer}
    {
      hide SumReadBuffer.Consistent;
      var chunks := OnPortNow(port);
      chunk := new ReadRequestChunk(port, maxVarsPerBuffer, |chunks|);
      chunksByAdsPort := chunksByAdsPort[port := chunks + [chunk]];
      chunkSet := chunkSet + {chunk};
      bufferSet := bufferSet + {chunk.dataBuffer};
    }

    method AddTo(chunk: ReadRequestChunk, v: ADSVariable)
      requires Kept() && Storeless()
      requires chunk in chunkSet && !Full(chunk.variables, maxVarsPerBuffer)
      modifies chunk, chunk.dataBuffer, v`bufferReader
      ensures Kept() && Storeless()
      ensures chunk.variables == old(chunk.variables) + [v]
      ensures v.InSlot() && v.bufferReader.buffer == chunk.dataBuffer
      ensures old(chunk.dataBuffer.variables) <= chunk.dataBuffer.variables
    {
      hide Full, ADSVariable.Size;
      ghost var others := chunkSet - {chunk};
      assert forall c | c in others :: c.dataBuffer.home == c;
      assert forall c | c in others :: c.dataBuffer != chunk.dataBuffer;
      var ok := chunk.AddVariable(v);
      assert ok;
      forall c | c in others ensures c.Consistent() {
        assert old(c.Consistent());
      }
    }

    /** `v` goes into a chunk that has room. */
    method InsertIntoLast(v: ADSVariable, port: uint16, ghost before: seq<ADSVariable>)
      requires Kept() && Storeless() && Dealt(before) && port == v.addr.spec.adsPort
      requires OnPortNow(port) != [] && !Full(Last(OnPortNow(port)).variables, maxVarsPerBuffer)
      modifies Tip(port), TipBuffer(port), v`bufferReader
      ensures Kept() && Storeless() && Dealt(before + [v])
      ensures v.InSlot() && v.bufferReader.buffer in bufferSet
      ensures forall b | b in TipBuffer(port) :: old(b.variables) <= b.variables
    {
      hide Pack, OnPort, Ports, Full, ADSVariable.InSlot, ADSVariable.Size, Storeless, Owned,
        ReadRequestChunk.Consistent, SumReadBuffer.Consistent, SumReadBuffer.Arrays;
      ListedOneMore(before, v, port, maxVarsPerBuffer);
      var chunk := Last(OnPortNow(port));
      AddTo(chunk, v);
    }

    /** `v` goes into a new chunk. */
    method InsertIntoNew(v: ADSVariable, port: uint16, ghost before: seq<ADSVariable>)
      requires Kept() && Storeless() && Dealt(before) && port == v.addr.spec.adsPort
      requires OnPortNow(port) == [] || Full(Last(OnPortNow(port)).variables, maxVarsPerBuffer)
      modifies this`chunksByAdsPort, this`chunkSet, this`bufferSet, v`bufferReader
      ensures Kept() && Storeless() && Dealt(before + [v])
      ensures v.InSlot() && v.bufferReader.buffer in bufferSet
      ensures old(chunkSet) <= chunkSet && fresh(chunkSet - old(chunkSet))
      ensures old(bufferSet) <= bufferSet && fresh(bufferSet - old(bufferSet))
    {
      hide Pack, OnPort, Ports, Full, ADSVariable.InSlot, ADSVariable.Size, Sound, Storeless, Filed, Owned,
        ReadRequestChunk.Consistent, SumReadBuffer.Consistent, SumReadBuffer.Arrays;
      ListedOneMore(before, v, port, maxVarsPerBuffer);
      EmptyHasRoom(maxVarsPerBuffer);
      var chunk := OpenChunk(port);
      AddTo(chunk, v);
    }

    /** One turn of the allocation loop: put `v` into the last chunk of its port, or into a new one
      if there is none or it is at capacity. */
    method Insert(v: ADSVariable, ghost before: seq<ADSVariable>)
      requires Kept() && Storeless() && Dealt(before)
      modifies this`chunksByAdsPort, this`chunkSet, this`bufferSet
      modifies Tip(v.addr.spec.adsPort), TipBuffer(v.addr.spec.adsPort), v`bufferReader
      ensures Kept() && Storeless() && Dealt(before + [v])
      ensures v.InSlot() && v.bufferReader.buffer in bufferSet
      ensures old(chunkSet) <= chunkSet && fresh(chunkSet - old(chunkSet))
      ensures old(bufferSet) <= bufferSet && fresh(bufferSet - old(bufferSet))
      ensures forall b | b in old(TipBuffer(v.addr.spec.adsPort)) :: old(b.variables) <= b.variables
    {
      hide Pack, OnPort, Ports, Full, Dealt, ADSVariable.InSlot, ADSVariable.Size, SumReadBuffer.AtCapacity,
        SumReadBuffer.Consistent;
      var port := v.addr.spec.adsPort;
      var chunks := OnPortNow(port);
      if |chunks| > 0 {
        chunks[|chunks| - 1].dataBuffer.Bounded();
      }
      if |chunks| == 0 || chunks[|chunks| - 1].dataBuffer.AtCapacity() {
        InsertIntoNew(v, port, before);
      } else {
        InsertIntoLast(v, port, before);
      }
    }

    /** `Insert` leaves the slots it has dealt before in place. */
    method InsertNext(vars: seq<ADSVariable>, i: nat)
      requires i < |vars|
      requires Kept() && Storeless() && Dealt(vars[..i]) && Slotted(vars[..i])
      modifies this`chunksByAdsPort, this`chunkSet, this`bufferSet, chunkSet, bufferSet
      modifies (set v | v in vars)`bufferReader
      ensures Kept() && Storeless() && Dealt(vars[..i + 1]) && Slotted(vars[..i + 1])
      ensures old(chunkSet) <= chunkSet && fresh(chunkSet - old(chunkSet))
      ensures old(bufferSet) <= bufferSet && fresh(bufferSet - old(bufferSet))
    {
      hide Dealt, Sound, Owned, Total, ADSVariable.Size;
      var v := vars[i];
      assert vars[..i + 1] == vars[..i] + [v];
      assert v in Elements(vars);
      ghost var tip := TipBuffer(v.addr.spec.adsPort);
      TipIsHeld(v.addr.spec.adsPort);
      Insert(v, vars[..i]);
      forall u | u in vars[..i] && u != v ensures u.bufferReader.buffer in bufferSet && u.InSlot() {
        var b := u.bufferReader.buffer;
        assert old(u.bufferReader.buffer in bufferSet && u.InSlot());
        var k := u.bufferReader.offResult;
        assert b in tip ==> old(b.variables) <= b.variables;
        assert b.variables[..k] == old(b.variables[..k]);
      }
    }

    /** The chunks hold the listed variables, each on its own port, and no chunk is empty. */
    lemma Holds(vars: seq<ADSVariable>)
      requires Kept() && Dealt(vars)
      ensures forall c | c in chunkSet :: c.variables != []
      ensures forall c, v | c in chunkSet && v in c.variables :: v in vars && v.addr.spec.adsPort == c.adsPort
      ensures forall v | v in vars :: exists c :: c in chunkSet && v in c.variables
    {
      hide Pack, OnPort, Sound, Owned, ADSVariable.Size;
      forall c | c in chunkSet
        ensures c.variables != []
        ensures forall v | v in c.variables :: v in vars && v.addr.spec.adsPort == c.adsPort
      {
        GroupsHold(vars, c.adsPort, maxVarsPerBuffer);
        var groups := Pack(OnPort(vars, c.adsPort), maxVarsPerBuffer);
        assert chunksByAdsPort[c.adsPort][c.rank].variables == groups[c.rank] && groups[c.rank] in groups;
        forall v | v in c.variables ensures v in vars && v.addr.spec.adsPort == c.adsPort {
          assert Among(groups, v);
        }
      }
      forall v | v in vars ensures exists c :: c in chunkSet && v in c.variables {
        var p := v.addr.spec.adsPort;
        GroupsHold(vars, p, maxVarsPerBuffer);
        var groups := Pack(OnPort(vars, p), maxVarsPerBuffer);
        assert Among(groups, v);
        var i :| 0 <= i < |groups| && v in groups[i];
        assert chunksByAdsPort[p][i].variables == groups[i];
      }
    }

    method DetachAll(ghost vars: seq<ADSVariable>)
      requires Kept() && Dealt(vars)
      modifies (set v | v in vars)`bufferReader
      ensures forall v | v in vars :: v.bufferReader == EMPTY_BUFFER_DATA_POSITION
    {
      hide Sound, Owned, Dealt, Filed;
      Holds(vars);
      var chunks := GetChunks();
      ghost var done: set<ADSVariable> := {};
      var k := 0;
      while k < |chunks|
        invariant 0 <= k <= |chunks|
        invariant forall j | 0 <= j < k :: Elements(chunks[j].variables) <= done
        invariant forall v | v in done :: v.bufferReader == EMPTY_BUFFER_DATA_POSITION
      {
        assert chunks[k] in chunks;
        assert Elements(chunks[k].variables) <= Elements(vars);
        chunks[k].DetachVariables();
        done := done + Elements(chunks[k].variables);
        k := k + 1;
      }
      forall v | v in vars ensures v in done {
        var c :| c in chunkSet && v in c.variables;
        assert c in chunks;
        assert v in Elements(c.variables);
      }
    }

    /** A chunk's data passes the soft limit by less than its largest variable, so the 32-bit copy of
      the buffer size is exact whenever this bound and the result codes fit into 32 bits. */
    lemma ChunkBounded(c: ReadRequestChunk, largest: nat)
      requires Kept() && c in chunkSet
      requires forall v | v in c.variables :: v.Size() <= largest
      ensures Total(c.variables) <= 999_999 + largest
      ensures 999_999 + largest + 4 * maxVarsPerBuffer < 0x1_0000_0000 ==>
                Wrap32(c.dataBuffer.bufferSize) == c.dataBuffer.bufferSize
    {
      hide Filed, Owned, ADSVariable.Size;
      var b := c.dataBuffer;
      b.Bounded();
      if b.variables != [] {
        assert b.variables[|b.variables| - 1] in c.variables;
      }
    }

    /** Whoever is not the last chunk of its port holds all the variables it may, or a megabyte of data. */
    lemma ChunkClosed(vars: seq<ADSVariable>, c: ReadRequestChunk)
      requires Kept() && Dealt(vars) && c in chunkSet && c.rank + 1 < |chunksByAdsPort[c.adsPort]|
      ensures |c.variables| == maxVarsPerBuffer
              || (|c.variables| < maxVarsPerBuffer && Total(c.variables) >= 1_000_000)
    {
      hide Pack, OnPort, Sound, Owned, ADSVariable.Size, Greedy, Total;
      var groups := Pack(OnPort(vars, c.adsPort), maxVarsPerBuffer);
      PackIsGreedy(OnPort(vars, c.adsPort), maxVarsPerBuffer);
      GroupClosed(groups, maxVarsPerBuffer, c.rank);
    }

    /** The chunk in whose buffer `v` has its slot. */
    lemma SlotOf(v: ADSVariable) returns (c: ReadRequestChunk)
      requires Valid() && Slotted(listed) && v in listed
      ensures c in chunkSet && c.Consistent() && c.dataBuffer == v.bufferReader.buffer
      ensures v.InSlot() && v.Readable()
      ensures v.addr.spec.adsPort == c.adsPort
    {
      hide Filed, Dealt, StoresApart, SumReadBuffer.Consistent, ADSVariable.InSlot;
      c :| c in chunkSet && c.dataBuffer == v.bufferReader.buffer;
      assert v in c.variables by { InSlotIsMember(v); }
      Holds(listed);
    }

    lemma InSlotIsMember(v: ADSVariable)
      requires v.InSlot() && v.bufferReader.buffer != null
      ensures v in v.bufferReader.buffer.variables
    {
    }

    /** A lookup fails for want of a valid buffer only, so no code of the buffer's own ever comes back. */
    lemma LookupFailsIffInvalid(v: ADSVariable, size: uint32)
      requires Valid() && isAllocated && Slotted(listed) && v in listed
      ensures v.Readable() && v.bufferReader.buffer != null
      ensures v.Seen(size).Unavailable? <==> v.bufferReader.buffer.bufferState == Invalid
      ensures v.Seen(size).Unavailable? ==> v.Seen(size).rc == EPICSADS_DISCONNECTED
    {
      hide Kept, Filed, Dealt, StoresApart, Slotted;
      var c := SlotOf(v);
    }

    /** After a good sum-read the shared buffer offers, for every listed variable, the result code and
      bytes that the device gives when the variable is read on its own. */
    lemma BatchedReadIsSingleRead(v: ADSVariable, size: uint32) returns (c: ReadRequestChunk)
      requires Valid() && Slotted(listed) && v in listed
      requires TablesCurrent()
      requires forall d | d in chunkSet :: d.Filled() && d.dataBuffer.bufferSize < 0x1_0000_0000
      ensures c in chunkSet && c.dataBuffer == v.bufferReader.buffer && v.addr.nameIsResolved && v.Readable()
      ensures c.adsPort == v.addr.spec.adsPort && v.Row() in c.requestBuffer
      ensures var (code, data) := SingleRead(c.answeredFrom, v.DevicePlace(), Min(size, v.Size()));
              && v.Seen(size) == R.Fetched(code, data)
              && (v.lastWritten == [] ==>
                    R.ReadCell(v.writeReadback, R.Cell(v.lastWritten, v.Seen(size))).0
                    == if code == 0 then R.Got(data) else R.Failed(EPICSADS_NO_DATA))
    {
      hide Kept, Dealt, Filed, StoresApart, Slotted, ReadRequestChunk.Consistent, ReadRequestChunk.Filled,
        ADSVariable.Readable, ADSVariable.Seen, SingleRead, ReadRequestChunk.TableCurrent;
      c := SlotOf(v);
      assert c.TableCurrent();
      c.SlotHoldsSingleRead(v, size);
    }

    /** Undo an allocation, finished or not: `vars` are the variables dealt so far. */
    method Deallocate(ghost vars: seq<ADSVariable>)
      requires Kept() && Dealt(vars)
      modifies this, chunkSet`requestBuffer, (set v | v in vars)`bufferReader
      ensures Valid() && !isAllocated && !isInitialized
      ensures chunkSet == {} && bufferSet == {} && storeSet == {}
      ensures forall v | v in vars :: v.bufferReader == EMPTY_BUFFER_DATA_POSITION
    {
      hide Kept, Dealt, Valid;
      Deinitialize();
      DetachAll(vars);
      chunksByAdsPort := map[];
      isAllocated := false;
      listed, chunkSet, bufferSet, storeSet := [], {}, {}, {};
      NothingIsValid();
    }

    lemma NoStores()
      requires Kept() && Storeless()
      ensures StoresApart()
    {
      hide Filed;
    }

    /** `initialize_buffer` for one chunk. */
    method GiveStorage(chunk: ReadRequestChunk, supply: nat) returns (rc: int, left: nat)
      requires Kept() && StoresApart() && chunk in chunkSet
      requires chunk.variables != [] && !chunk.dataBuffer.bufferInitialized
      modifies this`storeSet
      modifies chunk.dataBuffer`buffer, chunk.dataBuffer`prevDataBuffer, chunk.dataBuffer`bufferInitialized
      ensures Kept() && StoresApart()
      ensures rc == 0 <==> Storage(chunk.variables) <= supply
      ensures rc == 0 ==> chunk.dataBuffer.bufferInitialized && left == supply - Storage(chunk.variables)
      ensures old(storeSet) <= storeSet && fresh(storeSet - old(storeSet))
    {
      hide Filed, Owned, Storage, SumReadBuffer.Consistent;
      chunk.BufferStorage();
      rc, left := chunk.dataBuffer.InitializeBuffer(supply);
      storeSet := storeSet + chunk.dataBuffer.Arrays();
      forall c | c in chunkSet && c != chunk
        ensures c.dataBuffer != chunk.dataBuffer && c.Consistent()
      {
        assert old(c.Consistent());
      }
    }

    /** Storage for all chunks: it is had exactly when the supply covers what they need together. */
    method GiveStorages(supply: nat, ghost vars: seq<ADSVariable>) returns (rc: int)
      requires Kept() && Storeless() && storeSet == {} && Dealt(vars) && Slotted(vars)
      modifies this`storeSet, bufferSet`buffer, bufferSet`prevDataBuffer, bufferSet`bufferInitialized
      ensures Kept() && StoresApart() && fresh(storeSet) && Dealt(vars) && Slotted(vars)
      ensures rc == 0 <==> Storage(vars) <= supply
      ensures rc == 0 ==> forall c | c in chunkSet :: c.dataBuffer.bufferInitialized
      ensures forall b | b in bufferSet :: b.bufferState == Invalid
    {
      hide Kept, StoresApart, Filed, Dealt, Slotted, Storage, StorageOf, InPortOrder;
      NoStores();
      Holds(vars);
      var chunks := GetChunks();
      ghost var groups := GroupsInOrder(chunks, vars);
      assert forall j | 0 <= j < |chunks| :: chunks[j] in chunks;
      forall j | 0 <= j < |chunks| ensures chunks[j].dataBuffer in bufferSet {
        BufferHeld(chunks[j]);
      }
      var k, left := 0, supply;
      assert groups[..0] == [];
      StorageNothing();
      while k < |chunks|
        invariant 0 <= k <= |chunks|
        invariant Kept() && StoresApart() && fresh(storeSet) && Slotted(vars)
        invariant forall j | 0 <= j < |chunks| :: chunks[j].dataBuffer.bufferInitialized <==> j < k
        invariant left == supply - StorageOf(groups[..k])
      {
        forall j | 0 <= j < |chunks| && j != k ensures chunks[j].dataBuffer != chunks[k].dataBuffer {
          BuffersApart(chunks[j], chunks[k]);
        }
        StorageStep(groups, k);
        rc, left := GiveStorage(chunks[k], left);
        if rc != 0 {
          StorageGrows(groups, k + 1);
          return;
        }
        k := k + 1;
      }
      assert groups[..k] == groups;
      return 0;
    }

    /** The chunks' variables, chunk after chunk, and the storage they need together. */
    lemma GroupsInOrder(chunks: seq<ReadRequestChunk>, vars: seq<ADSVariable>) returns (groups: seq<seq<ADSVariable>>)
      requires Kept() && Dealt(vars) && chunks == InPortOrder(chunksByAdsPort, 0x1_0000)
      ensures |groups| == |chunks| && forall k | 0 <= k < |chunks| :: groups[k] == chunks[k].variables
      ensures StorageOf(groups) == Storage(vars)
    {
      hide Storage, StorageOf, PortsStorage, Sound, Owned;
      groups := AllGroups(vars, maxVarsPerBuffer, 0x1_0000);
      GroupsAreChunks(vars, 0x1_0000);
      AllGroupsStorage(vars, maxVarsPerBuffer, 0x1_0000);
      StorageConserved(vars);
    }

    lemma {:induction false} GroupsAreChunks(vars: seq<ADSVariable>, below: nat)
      requires Kept() && Dealt(vars) && below <= 0x1_0000
      ensures var groups, chunks := AllGroups(vars, maxVarsPerBuffer, below), InPortOrder(chunksByAdsPort, below);
              |groups| == |chunks| && forall k | 0 <= k < |chunks| :: groups[k] == chunks[k].variables
    {
      hide Pack, OnPort, Sound, Owned;
      if below > 0 {
        GroupsAreChunks(vars, below - 1);
        if below - 1 !in chunksByAdsPort {
          NoGroups(vars, below - 1, maxVarsPerBuffer);
        }
      }
    }

    lemma BufferHeld(c: ReadRequestChunk)
      requires Kept() && c in chunkSet
      ensures c.dataBuffer in bufferSet
    {
    }

    /** Deal `variables` into chunks. That works exactly when the supply of memory covers their storage. */
    method Allocate(variables: seq<ADSVariable>, supply: nat) returns (rc: int)
      requires Valid()
      modifies this, (set v | v in variables)`bufferReader
      ensures Valid()
      ensures old(isAllocated) ==>
                && rc == EPICSADS_INV_CALL && unchanged(this)
                && forall v | v in variables :: unchanged(v)
      ensures !old(isAllocated) ==> rc == if Storage(variables) <= supply then 0 else EPICSADS_ERROR
      ensures !old(isAllocated) && rc == 0 ==>
                && isAllocated && !isInitialized && listed == variables && Slotted(variables)
                && forall b | b in bufferSet :: b.bufferState == Invalid
      ensures !old(isAllocated) && rc != 0 ==>
                && !isAllocated && !isInitialized
                && forall v | v in variables :: v.bufferReader == EMPTY_BUFFER_DATA_POSITION
      ensures !old(isAllocated) ==> fresh(chunkSet) && fresh(bufferSet) && fresh(storeSet)
    {
      if isAllocated {
        return EPICSADS_INV_CALL;
      }
      hide Dealt, Kept, Storeless, StoresApart, Slotted, Valid, Storage;
      Empty();
      rc := DealAndStore(variables, supply);
      if rc != 0 {
        Deallocate(variables);
        return EPICSADS_ERROR;
      }
      Conclude(variables);
      return 0;
    }

    /** Both loops of `allocate`. */
    method DealAndStore(variables: seq<ADSVariable>, supply: nat) returns (rc: int)
      requires Kept() && Storeless() && Dealt([]) && Slotted([])
      requires chunkSet == {} && bufferSet == {} && storeSet == {}
      modifies this`chunksByAdsPort, this`chunkSet, this`bufferSet, this`storeSet
      modifies (set v | v in variables)`bufferReader
      ensures Kept() && StoresApart() && Dealt(variables) && Slotted(variables)
      ensures fresh(chunkSet) && fresh(bufferSet) && fresh(storeSet)
      ensures rc == 0 <==> Storage(variables) <= supply
      ensures rc == 0 ==> forall c | c in chunkSet :: c.dataBuffer.bufferInitialized
      ensures forall b | b in bufferSet :: b.bufferState == Invalid
    {
      hide Dealt, Kept, StoresApart, Slotted;
      Deal(variables);
      rc := GiveStorages(supply, variables);
    }

    /** The first loop of `allocate`. */
    method Deal(variables: seq<ADSVariable>)
      requires Kept() && Storeless() && Dealt([]) && Slotted([]) && chunkSet == {} && bufferSet == {}
      modifies this`chunksByAdsPort, this`chunkSet, this`bufferSet, (set v | v in variables)`bufferReader
      ensures Kept() && Storeless() && Dealt(variables) && Slotted(variables)
      ensures fresh(chunkSet) && fresh(bufferSet)
    {
      hide Dealt, Kept, Storeless, Slotted;
      var i := 0;
      while i < |variables|
        invariant 0 <= i <= |variables|
        invariant Kept() && Storeless() && Dealt(variables[..i]) && Slotted(variables[..i])
        invariant fresh(chunkSet) && fresh(bufferSet)
      {
        InsertNext(variables, i);
        i := i + 1;
      }
      assert variables[..i] == variables;
    }

    method Conclude(ghost variables: seq<ADSVariable>)
      requires Kept() && Dealt(variables) && StoresApart() && !isInitialized
      requires forall c | c in chunkSet :: c.dataBuffer.bufferInitialized
      modifies this`isAllocated, this`listed
      ensures Valid() && isAllocated && listed == variables
    {
      hide Dealt, Kept, StoresApart;
      isAllocated := true;
      listed := variables;
    }

    lemma Empty()
      requires Valid() && !isAllocated
      ensures Kept() && Storeless() && Dealt([]) && Slotted([]) && !isInitialized
      ensures chunkSet == {} && bufferSet == {} && storeSet == {} && chunksByAdsPort == map[] && listed == []
    {
    }

    lemma NothingIsValid()
      requires 0 < maxVarsPerBuffer && chunksByAdsPort == map[] && chunkSet == {} && bufferSet == {} && storeSet == {}
      requires listed == [] && !isAllocated && !isInitialized
      ensures Valid()
    {
    }
  }

  /** The layout depends on nothing but the list: whoever deals it again makes the same chunks, so that
    every slot of the one is a slot of the other. */
  lemma SameLayout(a: SumReadRequest, b: SumReadRequest, vars: seq<ADSVariable>, c: ReadRequestChunk)
    returns (d: ReadRequestChunk)
    requires a.Kept() && b.Kept() && a.maxVarsPerBuffer == b.maxVarsPerBuffer
    requires a.Dealt(vars) && b.Dealt(vars) && c in a.chunkSet
    ensures d in b.chunkSet && d.adsPort == c.adsPort && d.rank == c.rank && d.variables == c.variables
  {
    hide Pack, OnPort, SumReadRequest.Sound, SumReadRequest.Owned, ADSVariable.Size;
    assert a.chunksByAdsPort[c.adsPort][c.rank] == c;
    d := b.chunksByAdsPort[c.adsPort][c.rank];
  }

  /** A variable listed once has the same slot whoever deals the list. */
  lemma SameSlot(a: SumReadRequest, b: SumReadRequest, vars: seq<ADSVariable>,
                 c: ReadRequestChunk, k: nat, d: ReadRequestChunk, l: nat)
    requires a.Kept() && b.Kept() && a.maxVarsPerBuffer == b.maxVarsPerBuffer
    requires a.Dealt(vars) && b.Dealt(vars) && NoDuplicates(vars)
    requires c in a.chunkSet && k < |c.variables| && d in b.chunkSet && l < |d.variables|
    requires c.variables[k] == d.variables[l]
    ensures c.adsPort == d.adsPort && c.rank == d.rank && c.variables == d.variables && k == l
  {
    hide Pack, OnPort, SumReadRequest.Sound, SumReadRequest.Owned, ADSVariable.Size;
    var port, max := c.adsPort, a.maxVarsPerBuffer;
    assert c.variables[k] in c.variables && d.variables[l] in d.variables;
    a.Holds(vars);
    b.Holds(vars);
    assert c.variables[k].addr.spec.adsPort == d.adsPort;
    assert c.variables[k].addr.spec.adsPort == c.adsPort;
    assert a.chunksByAdsPort[port][c.rank] == c && b.chunksByAdsPort[port][d.rank] == d;
    OnePlace(vars, port, max, c.rank, k, d.rank, l);
  }

  /** What one more listed variable does to the ports and their packing. */
  lemma ListedOneMore(vars: seq<ADSVariable>, v: ADSVariable, port: uint16, max: nat)
    requires port == v.addr.spec.adsPort
    ensures Ports(vars + [v]) == Ports(vars) + {port}
    ensures port !in Ports(vars) ==> Pack(OnPort(vars, port), max) == []
    ensures Pack(OnPort(vars + [v], port), max) == Put(Pack(OnPort(vars, port), max), v, max)
    ensures forall q: uint16 | q != port :: OnPort(vars + [v], q) == OnPort(vars, q)
  {
    var more := vars + [v];
    assert more[..|vars|] == vars;
    assert forall i | 0 <= i < |vars| :: more[i] == vars[i];
    assert more[|vars|] == v;
    PortsPartition(vars, port, v);
    var old_ := OnPort(vars, port);
    assert OnPort(more, port) == old_ + [v];
    assert (old_ + [v])[..|old_|] == old_;
  }
}
