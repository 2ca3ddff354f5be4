/** PLC variables and the shared buffers their sum-read values live in
  (Variable.cpp, SumReadBuffer.cpp, SumReadBuffer.h, BufferDataPosition.h). */
module Variables {
  import opened Types
  import opened Errors
  import opened Wire
  import opened Connections
  import A = AddressText
  import R = Readback

  /** Soft limit of a buffer's data section, in bytes. */
  const MAX_DATA_SIZE_SOFT_LIMIT: uint64 := 1000000

  /** Where a variable's result code and data sit. */
  datatype BufferDataPosition = BufferDataPosition(buffer: SumReadBuffer?, offResult: uint32, offData: uint64)

  const EMPTY_BUFFER_DATA_POSITION := BufferDataPosition(null, 0, 0)

  datatype SumReadBufferState = Valid | Invalid

  /** Bytes taken by the data of a list of variables. */
  function Total(vars: seq<ADSVariable>): nat
  {
    if vars == [] then 0 else Total(vars[..|vars| - 1]) + vars[|vars| - 1].Size()
  }

  /** A buffer holding just these takes no more variables. */
  predicate Full(vars: seq<ADSVariable>, maxVars: nat)
  {
    Total(vars) >= MAX_DATA_SIZE_SOFT_LIMIT || |vars| >= maxVars
  }

  class ADSVariable {
    const addr: ADSAddress
    const elemSize: uint32
    var conn: Connection?
    var bufferReader: BufferDataPosition
    var writeReadback: bool
    var lastWritten: seq<Byte>

    constructor (addr: ADSAddress)
      ensures this.addr == addr && elemSize == ElemSize(addr.spec.dataType)
      ensures conn == null && bufferReader == EMPTY_BUFFER_DATA_POSITION
      ensures !writeReadback && lastWritten == []
    {
      this.addr := addr;
      elemSize := ElemSize(addr.spec.dataType);
      conn := null;
      bufferReader := EMPTY_BUFFER_DATA_POSITION;
      writeReadback := false;
      lastWritten := [];
    }

    /** Size in bytes; the 32-bit product wraps. */
    function Size(): uint32
    {
      Wrap32(elemSize * addr.spec.nelem)
    }

    function DevicePlace(): Place
      reads addr
    {
      Place(addr.spec.adsPort, addr.indexGroup, addr.indexOffset)
    }

    /** The variable's row in a request table. */
    function Row(): Request
      reads addr
    {
      Request(addr.indexGroup, addr.indexOffset, Size())
    }

    method SetBufferReader(position: BufferDataPosition)
      modifies this`bufferReader
      ensures bufferReader == position
    {
      bufferReader := position;
    }

    /** The variable's position, if it names a buffer, is its slot in that buffer. */
    ghost predicate InSlot()
      reads this`bufferReader, (if bufferReader.buffer == null then {} else {bufferReader.buffer})`variables
    {
      var b := bufferReader.buffer;
      b != null ==>
        && bufferReader.offResult < |b.variables|
        && b.variables[bufferReader.offResult] == this
        && bufferReader.offData == Total(b.variables[..bufferReader.offResult])
    }

    ghost predicate Readable()
      reads this`bufferReader, bufferReader.buffer
    {
      InSlot() && (bufferReader.buffer != null ==> bufferReader.buffer.Consistent())
    }

    /** What the shared buffer offers for a read of `size` bytes. */
    ghost function Seen(size: uint32): (view: R.View)
      requires Readable()
      reads this`bufferReader, bufferReader.buffer
      reads if bufferReader.buffer == null then null else bufferReader.buffer.buffer
      ensures view.Fetched? ==> |view.bytes| == Min(size, Size())
    {
      var b := bufferReader.buffer;
      if bufferReader == EMPTY_BUFFER_DATA_POSITION then R.Unavailable(EPICSADS_NO_DATA)
      else if b == null then R.Unavailable(EPICSADS_ERROR)
      else if b.bufferState == Invalid then R.Unavailable(EPICSADS_DISCONNECTED)
      else if b.buffer == null then R.Unavailable(EpicsCode(EPICSADS_NOT_INITIALIZED))
      else
        TotalMonotone(b.variables, bufferReader.offResult);
        R.Fetched(SlotCode(b.buffer[..], bufferReader.offResult),
                  SlotData(b.buffer[..], |b.variables|, bufferReader.offData, Min(size, Size())))
    }

    /** Look the variable up in its buffer: a nonzero `rc`, or the result code with the bytes. */
    method FetchFromBuffer(size: uint32, dest: array<Byte>) returns (rc: int, code: bv32)
      requires Readable()
      requires size <= dest.Length
      requires bufferReader.buffer != null ==> dest !in bufferReader.buffer.Arrays()
      modifies dest
      ensures rc != 0 ==> old(Seen(size)) == R.Unavailable(rc)
      ensures rc == 0 ==> old(Seen(size)) == R.Fetched(code, dest[..Min(size, Size())])
    {
      hide Size;
      code := 0;
      if bufferReader == EMPTY_BUFFER_DATA_POSITION {
        return EPICSADS_NO_DATA, code;
      }
      var b := bufferReader.buffer;
      if b == null {
        return EPICSADS_ERROR, code;
      }
      if b.bufferState == Invalid {
        return EPICSADS_DISCONNECTED, code;
      }
      TotalMonotone(b.variables, bufferReader.offResult);
      Unwrapped(bufferReader.offResult);
      rc, code := b.ReadData(Wrap16(bufferReader.offResult), bufferReader.offData, Min(size, Size()), dest);
      rc := EpicsCode(rc);
    }

    /** Deliver what the buffer offers, or once the value last written. */
    method ReadFromBuffer(size: uint32, dest: array<Byte>) returns (rc: int)
      requires Readable()
      requires size <= dest.Length
      requires bufferReader.buffer != null ==> dest !in bufferReader.buffer.Arrays()
      requires writeReadback ==> |lastWritten| <= dest.Length
      modifies dest, this`lastWritten
      ensures var (outcome, cell) := R.ReadCell(writeReadback, R.Cell(old(lastWritten), old(Seen(size))));
              && lastWritten == cell.pending
              && (outcome.Failed? ==> rc == outcome.rc != 0)
              && (outcome.Got? ==> rc == 0)
              && (outcome.Got? ==> |outcome.bytes| <= dest.Length && dest[..|outcome.bytes|] == outcome.bytes)
    {
      hide Size, Readable, Seen, EpicsCode;
      var code;
      rc, code := FetchFromBuffer(size, dest);
      if rc != 0 {
        return rc;
      }
      if code != 0 {
        return EPICSADS_NO_DATA;
      }
      if writeReadback && lastWritten != [] {
        forall i | 0 <= i < |lastWritten| {
          dest[i] := lastWritten[i];
        }
        lastWritten := [];
      }
      return 0;
    }

    /** One block, as long as the variable, goes to the variable's own place, or none; `answer` is what the
      device said to it. */
    method Write(data: array?<Byte>, size: uint32) returns (rc: int, ghost answer: int)
      requires data != null ==> size <= data.Length
      modifies this`lastWritten, (if conn == null then {} else {conn.device})`memory
      modifies (if conn == null then {} else {conn.device})`writes
      ensures conn != null ==>
                conn.device.writes
                == old(conn.device.writes)
                   + if data != null && addr.nameIsResolved && size <= Size()
                     then [Written(conn.adsPort, DevicePlace(), Fit(data[..size], Size()), answer)] else []
      ensures rc == 0 <==> data != null && conn != null && addr.nameIsResolved && size <= Size() && answer == 0
      ensures data == null ==> rc == EPICSADS_INV_PARAM
      ensures data != null && conn == null ==> rc == EPICSADS_NOT_INITIALIZED
      ensures data == null || conn == null ==> lastWritten == old(lastWritten)
      ensures data != null && conn != null ==>
                && rc == R.WriteStatus(addr.nameIsResolved, Size(), data[..size], answer)
                && lastWritten == R.WriteCell(writeReadback, addr.nameIsResolved, Size(), data[..size], answer,
                                              R.Cell(old(lastWritten), R.Unavailable(0))).pending
                && (rc == 0 ==> conn.device.memory(DevicePlace()) == Symbol(0, Fit(data[..size], Size())))
    {
      answer := 0;
      if data == null {
        return EPICSADS_INV_PARAM, answer;
      }
      if conn == null {
        return EPICSADS_NOT_INITIALIZED, answer;
      }
      if !addr.nameIsResolved {
        return EPICSADS_NOT_RESOLVED, answer;
      }
      if size > Size() {
        return EPICSADS_OVERFLOW, answer;
      }
      var block := Fit(data[..size], Size());
      var code := conn.device.Write(conn.adsPort, DevicePlace(), block);
      answer := code;
      if code != 0 {
        return EpicsCode(code), answer;
      }
      if writeReadback {
        lastWritten := block;
      }
      return 0, answer;
    }

    /** Read this one variable straight from the device; `answer` is what the device said, if it was asked. */
    method Read(data: array?<Byte>, size: uint32) returns (rc: int, ghost answer: int)
      requires data != null ==> size <= data.Length
      modifies data, (if conn == null then {} else {conn.device})`memory
      modifies (if conn == null then {} else {conn.device})`singles
      ensures conn != null ==>
                conn.device.singles
                == old(conn.device.singles)
                   + if data != null && addr.nameIsResolved
                     then [Single(conn.adsPort, DevicePlace(), Min(size, Size()), answer)] else []
      ensures data == null ==> rc == EPICSADS_INV_PARAM
      ensures data != null && conn == null ==> rc == EPICSADS_NOT_INITIALIZED
      ensures data != null && conn != null ==>
                rc == if addr.nameIsResolved then EpicsCode(answer) else EPICSADS_NOT_RESOLVED
      ensures rc == 0 ==>
                && data != null && conn != null
                && (0, data[..Min(size, Size())]) == SingleRead(conn.device.memory, DevicePlace(), Min(size, Size()))
    {
      answer := 0;
      if data == null {
        return EPICSADS_INV_PARAM, answer;
      }
      if conn == null {
        return EPICSADS_NOT_INITIALIZED, answer;
      }
      if !addr.nameIsResolved {
        return EPICSADS_NOT_RESOLVED, answer;
      }
      var bytesToRead := Min(size, Size());
      var code, block := conn.device.Read(conn.adsPort, DevicePlace(), bytesToRead);
      answer := code;
      if code != 0 {
        return EpicsCode(code), answer;
      }
      forall i | 0 <= i < bytesToRead {
        data[i] := block[i];
      }
      assert data[..bytesToRead] == block;
      return 0, answer;
    }
  }

  /** The size is the true one exactly when it needs no more than 32 bits. */
  lemma SizeIsExactIff(v: ADSVariable)
    ensures v.Size() == v.elemSize * v.addr.spec.nelem <==> v.elemSize * v.addr.spec.nelem < 0x1_0000_0000
  {
    WrapIsExactIff(v.elemSize * v.addr.spec.nelem);
    hide Wrap32;
  }

  lemma WrapIsExactIff(n: nat)
    ensures Wrap32(n) == n <==> n < 0x1_0000_0000
  {
  }

  /** An address in the documented form with 2^29 elements of 8 bytes. */
  const HUGE := A.AddressSpec(LREAL, 0x2000_0000, Operation.Read, 851, "x")

  /** It parses, yet its variable has size 0, and a good read delivers no byte. */
  lemma SizeWraps(v: ADSVariable, size: uint32)
    requires v.addr.spec == HUGE && v.elemSize == ElemSize(LREAL) && v.Readable()
    ensures A.ParseDeviceAddress(A.FunctionText(HUGE, A.Array), A.Join(A.ArgumentWords(HUGE, A.Array, A.Number(10))))
         == Some(HUGE)
    ensures v.Size() == 0 && (v.Seen(size).Fetched? ==> v.Seen(size).bytes == [])
  {
    hide A.ParseDeviceAddress, A.FunctionText, A.Join, A.ArgumentWords, ADSVariable.Seen, ADSVariable.Readable;
    A.AddressRoundTrip(HUGE, A.Array, A.Number(10));
  }

  lemma {:induction false} TotalMonotone(vars: seq<ADSVariable>, i: nat)
    requires i <= |vars|
    ensures Total(vars[..i]) <= Total(vars)
    ensures i < |vars| ==> Total(vars[..i]) + vars[i].Size() <= Total(vars)
  {
    if i == |vars| {
      assert vars[..i] == vars;
    } else {
      var init := vars[..|vars| - 1];
      assert init[..i] == vars[..i];
      if i < |init| {
        TotalMonotone(init, i);
      }
    }
  }

  lemma TotalOneMore(vars: seq<ADSVariable>, v: ADSVariable)
    ensures (vars + [v])[..|vars|] == vars
    ensures Total(vars + [v]) == Total(vars) + v.Size()
  {
  }

  method CodeAt(buffer: array<Byte>, i: nat) returns (code: bv32)
    requires 4 * i + 4 <= buffer.Length
    ensures code == SlotCode(buffer[..], i)
  {
    code := Decode32(buffer[4 * i..4 * i + 4]);
    assert buffer[4 * i..4 * i + 4] == buffer[..][4 * i..4 * i + 4];
  }

  /** memcpy. */
  method CopyOut(source: array<Byte>, start: nat, count: nat, dest: array<Byte>)
    requires start + count <= source.Length && count <= dest.Length && source != dest
    modifies dest
    ensures dest[..count] == source[..][start..start + count]
  {
    forall i | 0 <= i < count {
      dest[i] := source[start + i];
    }
  }

  class SumReadBuffer {
    var variables: seq<ADSVariable>
    const maxNVariables: uint16
    var nextResultOffset: uint16
    var nextDataOffset: uint64
    var bufferSize: uint64
    var buffer: array?<Byte>
    var bufferInitialized: bool
    var prevDataBuffer: array?<Byte>
    var bufferState: SumReadBufferState
    ghost var session: nat     // the connection in which the buffer was last filled; 0 before any
    ghost var home: object?    // the chunk this buffer belongs to

    constructor (maxNVariables: uint16)
      requires maxNVariables > 0
      ensures this.maxNVariables == maxNVariables && Consistent()
      ensures variables == [] && buffer == null && bufferState == Invalid && session == 0
    {
      this.maxNVariables, home := maxNVariables, null;
      variables, nextResultOffset, nextDataOffset, bufferSize := [], 0, 0, 0;
      buffer, bufferInitialized, prevDataBuffer, bufferState := null, false, null, Invalid;
      session := 0;
    }

    ghost function Arrays(): set<array<Byte>>
      reads this`buffer, this`prevDataBuffer
    {
      (if buffer == null then {} else {buffer}) + (if prevDataBuffer == null then {} else {prevDataBuffer})
    }

    /** The counters describe the layout: one result code per variable, then the data blocks end to
      end; there was room before the last variable came in. */
    ghost predicate Consistent()
      reads this`variables, this`nextResultOffset, this`nextDataOffset, this`bufferSize
      reads this`buffer, this`prevDataBuffer, this`bufferInitialized
    {
      && 0 < maxNVariables
      && nextResultOffset == |variables|
      && nextDataOffset == Total(variables)
      && bufferSize == RESULT_SIZE * |variables| + Total(variables)
      && (variables != [] ==> !Full(variables[..|variables| - 1], maxNVariables))
      && (bufferInitialized <==> buffer != null)
      && (bufferInitialized <==> prevDataBuffer != null)
      && (bufferInitialized ==> buffer != prevDataBuffer && buffer.Length == prevDataBuffer.Length == bufferSize)
    }

    function ResultsSize(): uint64
      reads this
    {
      Wrap64(|variables| * RESULT_SIZE)
    }

    function DataSize(): uint64
      reads this
    {
      Wrap64(bufferSize - ResultsSize())
    }

    predicate AtCapacity()
      reads this
    {
      DataSize() >= MAX_DATA_SIZE_SOFT_LIMIT || nextResultOffset >= maxNVariables
    }

    /** Data never outgrows the soft limit by more than the last variable, so no counter wraps. */
    lemma Bounded()
      requires Consistent()
      ensures |variables| <= maxNVariables
      ensures variables != [] ==> Total(variables) < MAX_DATA_SIZE_SOFT_LIMIT + variables[|variables| - 1].Size()
      ensures Total(variables) < 0x1_0010_0000
      ensures Full(variables, maxNVariables) <== |variables| >= maxNVariables
      ensures ResultsSize() == RESULT_SIZE * |variables| && DataSize() == Total(variables)
      ensures AtCapacity() <==> Full(variables, maxNVariables)
    {
    }

    method AddVariable(variable: ADSVariable) returns (rc: int)
      requires Consistent()
      modifies this`variables, this`nextResultOffset, this`nextDataOffset, this`bufferSize, variable`bufferReader
      ensures Consistent()
      ensures rc == if bufferInitialized then EPICSADS_NOT_INITIALIZED
                    else if Full(old(variables), maxNVariables) then EPICSADS_LIMIT else 0
      ensures rc == 0 ==>
                && variables == old(variables) + [variable]
                && variable.bufferReader == BufferDataPosition(this, |old(variables)|, Total(old(variables)))
                && variable.InSlot()
      ensures rc != 0 ==> unchanged(this) && variable.bufferReader == old(variable.bufferReader)
    {
      if bufferInitialized {
        return EPICSADS_NOT_INITIALIZED;
      }
      hide ADSVariable.Size, Total, Full, AtCapacity, ResultsSize, DataSize;
      Bounded();
      TotalOneMore(variables, variable);
      if |variables| == maxNVariables {
        return EPICSADS_LIMIT;
      }
      if AtCapacity() {
        return EPICSADS_LIMIT;
      }
      hide Wrap16, Wrap64;
      Unwrapped(bufferSize + variable.Size() + RESULT_SIZE);
      var newSize := Wrap64(bufferSize + variable.Size() + RESULT_SIZE);
      if newSize < bufferSize {
        return EPICSADS_OVERFLOW;
      }
      Take(variable, newSize);
      return 0;
    }

    /** The updates of `add_variable`, once nothing speaks against it. */
    method Take(variable: ADSVariable, newSize: uint64)
      requires Consistent() && !bufferInitialized && !Full(variables, maxNVariables)
      requires newSize == bufferSize + variable.Size() + RESULT_SIZE
      modifies this`variables, this`nextResultOffset, this`nextDataOffset, this`bufferSize, variable`bufferReader
      ensures Consistent()
      ensures variables == old(variables) + [variable]
      ensures variable.bufferReader == BufferDataPosition(this, |old(variables)|, Total(old(variables)))
      ensures variable.InSlot()
    {
      hide ADSVariable.Size, Total, Full, AtCapacity, ResultsSize, DataSize, Wrap16, Wrap64;
      Bounded();
      TotalOneMore(variables, variable);
      Unwrapped(nextDataOffset + variable.Size());
      Unwrapped(nextResultOffset + 1);
      variables := variables + [variable];
      variable.SetBufferReader(BufferDataPosition(this, nextResultOffset, nextDataOffset));
      nextResultOffset := Wrap16(nextResultOffset + 1);
      nextDataOffset := Wrap64(nextDataOffset + variable.Size());
      bufferSize := newSize;
    }

    /** `dataSize` bytes of one slot, and the result code beside them. */
    method ReadData(offsetResult: uint16, offsetData: uint64, dataSize: uint32, data: array?<Byte>)
      returns (rc: int, result: bv32)
      requires Consistent()
      requires data != null ==> dataSize <= data.Length && data !in Arrays()
      requires offsetData + dataSize < 0x1_0000_0000_0000_0000
      modifies data
      ensures rc == if buffer == null then EPICSADS_NOT_INITIALIZED
                    else if data == null then EPICSADS_INV_PARAM
                    else if offsetResult >= |variables| then EPICSADS_OUT_OF_RANGE
                    else if offsetData + dataSize > Total(variables) then EPICSADS_OUT_OF_RANGE else 0
      ensures rc == 0 ==>
                && result == SlotCode(buffer[..], offsetResult)
                && data[..dataSize] == SlotData(buffer[..], |variables|, offsetData, dataSize)
    {
      result := 0;
      if buffer == null {
        return EPICSADS_NOT_INITIALIZED, result;
      } else if data == null {
        return EPICSADS_INV_PARAM, result;
      } else if offsetResult >= nextResultOffset {
        return EPICSADS_OUT_OF_RANGE, result;
      } else if Wrap64(offsetData + dataSize) > nextDataOffset {
        return EPICSADS_OUT_OF_RANGE, result;
      }
      Bounded();
      result := CodeAt(buffer, offsetResult);
      CopyOut(buffer, ResultsSize() + offsetData, dataSize, data);
      return 0, result;
    }

    /** Storage for the results and the data, and as much again for the previous contents: it is had
      exactly when the `supply` of memory suffices; `left` is what remains of it. */
    method InitializeBuffer(supply: nat) returns (rc: int, left: nat)
      requires Consistent()
      modifies this`buffer, this`prevDataBuffer, this`bufferInitialized
      ensures Consistent()
      ensures rc == if variables == [] then EPICSADS_NO_DATA
                    else if old(bufferInitialized) then EPICSADS_INV_CALL
                    else if supply < 2 * bufferSize then EPICSADS_ERROR else 0
      ensures rc == 0 ==> left == supply - 2 * bufferSize && bufferInitialized && fresh(Arrays())
      ensures rc != 0 ==> left == supply && unchanged(this)
    {
      if |variables| == 0 {
        return EPICSADS_NO_DATA, supply;
      }
      if bufferInitialized {
        return EPICSADS_INV_CALL, supply;
      }
      if supply < bufferSize {
        return EPICSADS_ERROR, supply;
      }
      buffer := new Byte[bufferSize](i => 0);
      left := supply - bufferSize;
      if left < bufferSize {
        buffer := null;
        return EPICSADS_ERROR, supply;
      }
      prevDataBuffer := new Byte[bufferSize](i => 0);
      left := left - bufferSize;
      bufferInitialized := true;
      return 0, left;
    }

    /** The device writes its reply through `get_buffer()`. */
    method Receive(reply: seq<Byte>)
      requires buffer != null && |reply| <= buffer.Length && buffer != prevDataBuffer
      modifies buffer
      ensures buffer[..] == reply + old(buffer[..])[|reply|..]
    {
      forall i | 0 <= i < |reply| {
        buffer[i] := reply[i];
      }
    }

    method SaveBuffer()
      requires Consistent()
      modifies prevDataBuffer
      ensures Consistent()
      ensures prevDataBuffer != null ==> prevDataBuffer[..] == buffer[..] == old(buffer[..])
    {
      if prevDataBuffer == null {
        return;
      }
      forall i | 0 <= i < bufferSize {
        prevDataBuffer[i] := buffer[i];
      }
    }
  }
}
