/** What travels between the driver and the device: request tables, device memory and replies.

  A sum-read reply (index group 0xF080) holds one 4-byte result code per request, in request
  order, followed by the data blocks in the same order, each as long as its request asked for.
 */
module Wire {
  import opened Types

  const RESULT_SIZE: uint32 := 4

  const ADSIGRP_SYM_VALBYHND: uint32 := 0xF005

  /** One row of a request table (`AdsSymbolInfoByName`). */
  datatype Request = Request(group: uint32, offset: uint32, length: uint32)

  const ZERO_REQUEST := Request(0, 0, 0)

  /** What the device holds at one address: its verdict on a read, and the bytes there. */
  datatype Symbol = Symbol(code: bv32, content: seq<Byte>)

  datatype Place = Place(port: uint16, group: uint32, offset: uint32)

  type Memory = Place -> Symbol

  /** Exactly `length` bytes of `content`, zero-padded. */
  function Fit(content: seq<Byte>, length: nat): (block: seq<Byte>)
    ensures |block| == length
    ensures forall i | 0 <= i < length :: block[i] == if i < |content| then content[i] else 0
  {
    if length <= |content| then content[..length]
    else content + seq(length - |content|, i => 0)
  }

  /** The answer to reading one place on its own. */
  function SingleRead(m: Memory, place: Place, length: nat): (bv32, seq<Byte>)
  {
    (m(place).code, Fit(m(place).content, length))
  }

  function PlaceOf(port: uint16, r: Request): Place { Place(port, r.group, r.offset) }

  // ---------- little-endian 32-bit words ----------

  function Encode32(x: bv32): (word: seq<Byte>)
    ensures |word| == 4
  {
    [(x & 0xFF) as Byte, ((x >> 8) & 0xFF) as Byte, ((x >> 16) & 0xFF) as Byte, ((x >> 24) & 0xFF) as Byte]
  }

  function Decode32(word: seq<Byte>): bv32
    requires |word| == 4
  {
    (word[0] as bv32) | ((word[1] as bv32) << 8) | ((word[2] as bv32) << 16) | ((word[3] as bv32) << 24)
  }

  lemma DecodeEncode(x: bv32)
    ensures Decode32(Encode32(x)) == x
  {
  }

  // ---------- request lengths and data offsets ----------

  function TotalLength(reqs: seq<Request>): nat
  {
    if reqs == [] then 0 else TotalLength(reqs[..|reqs| - 1]) + reqs[|reqs| - 1].length
  }

  // ---------- the sum-read reply ----------

  function ResultBlock(m: Memory, port: uint16, reqs: seq<Request>): (block: seq<Byte>)
    ensures |block| == 4 * |reqs|
  {
    if reqs == [] then []
    else
      ResultBlock(m, port, reqs[..|reqs| - 1]) + Encode32(m(PlaceOf(port, reqs[|reqs| - 1])).code)
  }

  function DataBlock(m: Memory, port: uint16, reqs: seq<Request>): (block: seq<Byte>)
    ensures |block| == TotalLength(reqs)
  {
    if reqs == [] then []
    else
      var last := reqs[|reqs| - 1];
      DataBlock(m, port, reqs[..|reqs| - 1]) + SingleRead(m, PlaceOf(port, last), last.length).1
  }

  function SumReply(m: Memory, port: uint16, reqs: seq<Request>): (reply: seq<Byte>)
    ensures |reply| == 4 * |reqs| + TotalLength(reqs)
  {
    ResultBlock(m, port, reqs) + DataBlock(m, port, reqs)
  }

  // ---------- reading one slot back out of a buffer ----------

  function SlotCode(buf: seq<Byte>, i: nat): bv32
    requires 4 * i + 4 <= |buf|
  {
    Decode32(buf[4 * i..4 * i + 4])
  }

  /** `length` bytes at data offset `off` of a buffer whose result block holds `count` codes. */
  function SlotData(buf: seq<Byte>, count: nat, off: nat, length: nat): (data: seq<Byte>)
    requires 4 * count + off + length <= |buf|
    ensures |data| == length
  {
    buf[4 * count + off..4 * count + off + length]
  }

  lemma {:induction false} TotalLengthMonotone(reqs: seq<Request>, i: nat)
    requires i <= |reqs|
    ensures TotalLength(reqs[..i]) <= TotalLength(reqs)
    ensures i < |reqs| ==> TotalLength(reqs[..i]) + reqs[i].length <= TotalLength(reqs)
  {
    if i == |reqs| {
      assert reqs[..i] == reqs;
    } else {
      var init := reqs[..|reqs| - 1];
      assert init[..i] == reqs[..i];
      if i < |init| {
        TotalLengthMonotone(init, i);
      }
    }
  }

  lemma {:induction false} ResultBlockAt(m: Memory, port: uint16, reqs: seq<Request>, i: nat)
    requires i < |reqs|
    ensures ResultBlock(m, port, reqs)[4 * i..4 * i + 4] == Encode32(m(PlaceOf(port, reqs[i])).code)
  {
    var init := reqs[..|reqs| - 1];
    if i < |init| {
      ResultBlockAt(m, port, init, i);
      assert ResultBlock(m, port, reqs)[4 * i..4 * i + 4] == ResultBlock(m, port, init)[4 * i..4 * i + 4];
    }
  }

  lemma {:induction false} DataBlockAt(m: Memory, port: uint16, reqs: seq<Request>, i: nat)
    requires i < |reqs|
    ensures TotalLength(reqs[..i]) + reqs[i].length <= TotalLength(reqs)
    ensures DataBlock(m, port, reqs)[TotalLength(reqs[..i])..TotalLength(reqs[..i]) + reqs[i].length]
         == SingleRead(m, PlaceOf(port, reqs[i]), reqs[i].length).1
  {
    TotalLengthMonotone(reqs, i);
    var init := reqs[..|reqs| - 1];
    assert reqs[..i] == init[..i] by { assert i <= |init|; }
    if i < |init| {
      DataBlockAt(m, port, init, i);
      var lo, hi := TotalLength(reqs[..i]), TotalLength(reqs[..i]) + reqs[i].length;
      assert DataBlock(m, port, reqs)[lo..hi] == DataBlock(m, port, init)[lo..hi];
    } else {
      assert init[..i] == init;
    }
  }

  lemma FitPrefix(content: seq<Byte>, long: nat, short: nat)
    requires short <= long
    ensures Fit(content, long)[..short] == Fit(content, short)
  {
  }

  lemma PrefixOfSlice(a: seq<Byte>, b: seq<Byte>, off: nat, long: nat, short: nat)
    requires short <= long && off + long <= |b|
    ensures (a + b)[|a| + off..|a| + off + short] == b[off..off + long][..short]
  {
  }

  /** Slot `i` of a sum-read reply holds the result code and, for any number of bytes up to the
    slot's length, the data that the device gives when that one place is read on its own. */
  lemma BatchedReadRefinesSingleRead(
    m: Memory, port: uint16, reqs: seq<Request>, i: nat, length: nat)
    requires i < |reqs| && length <= reqs[i].length
    ensures TotalLength(reqs[..i]) + length <= TotalLength(reqs)
    ensures SlotCode(SumReply(m, port, reqs), i) == SingleRead(m, PlaceOf(port, reqs[i]), length).0
    ensures SlotData(SumReply(m, port, reqs), |reqs|, TotalLength(reqs[..i]), length)
         == SingleRead(m, PlaceOf(port, reqs[i]), length).1
  {
    SlotCodeOfReply(m, port, reqs, i);
    SlotDataOfReply(m, port, reqs, i, length);
  }

  lemma SlotCodeOfReply(m: Memory, port: uint16, reqs: seq<Request>, i: nat)
    requires i < |reqs|
    ensures SlotCode(SumReply(m, port, reqs), i) == m(PlaceOf(port, reqs[i])).code
  {
    ResultBlockAt(m, port, reqs, i);
    var codes := ResultBlock(m, port, reqs);
    assert SumReply(m, port, reqs)[4 * i..4 * i + 4] == codes[4 * i..4 * i + 4];
    DecodeEncode(m(PlaceOf(port, reqs[i])).code);
  }

  lemma {:induction false} SlotDataOfReply(m: Memory, port: uint16, reqs: seq<Request>, i: nat, length: nat)
    requires i < |reqs| && length <= reqs[i].length
    ensures TotalLength(reqs[..i]) + length <= TotalLength(reqs)
    ensures SlotData(SumReply(m, port, reqs), |reqs|, TotalLength(reqs[..i]), length)
         == Fit(m(PlaceOf(port, reqs[i])).content, length)
  {
    hide Fit, ResultBlock, DataBlock, TotalLength;
    DataBlockAt(m, port, reqs, i);
    PrefixOfSlice(ResultBlock(m, port, reqs), DataBlock(m, port, reqs), TotalLength(reqs[..i]), reqs[i].length, length);
    FitPrefix(m(PlaceOf(port, reqs[i])).content, reqs[i].length, length);
  }

  // ---------- the 32-bit copy of the buffer size ----------

  /** A buffer after the device delivered the first `length` bytes of a reply into it. */
  function Deliver(buf: seq<Byte>, reply: seq<Byte>, length: nat): (after: seq<Byte>)
    requires length <= |reply| == |buf|
    ensures |after| == |buf|
  {
    reply[..length] + buf[length..]
  }

  lemma FullDelivery(buf: seq<Byte>, reply: seq<Byte>)
    requires |reply| == |buf|
    ensures Deliver(buf, reply, |reply|) == reply
  {
  }

  /** The whole reply arrives in every buffer, for every device memory. */
  ghost predicate AlwaysExact(port: uint16, reqs: seq<Request>)
  {
    var size := 4 * |reqs| + TotalLength(reqs);
    forall m: Memory, buf: seq<Byte> | |buf| == size ::
      Deliver(buf, SumReply(m, port, reqs), Wrap32(size)) == SumReply(m, port, reqs)
  }

  lemma {:induction false} BlankReply(m: Memory, port: uint16, reqs: seq<Request>)
    requires forall p: Place :: m(p) == Symbol(0, [])
    ensures forall k | 0 <= k < |SumReply(m, port, reqs)| :: SumReply(m, port, reqs)[k] == 0
  {
    if reqs != [] {
      var init := reqs[..|reqs| - 1];
      BlankReply(m, port, init);
      var last := reqs[|reqs| - 1];
      assert m(PlaceOf(port, last)) == Symbol(0, []);
      forall k | 0 <= k < |ResultBlock(m, port, init)| ensures ResultBlock(m, port, init)[k] == 0 {
        assert SumReply(m, port, init)[k] == ResultBlock(m, port, init)[k];
      }
      forall k | 0 <= k < |DataBlock(m, port, init)| ensures DataBlock(m, port, init)[k] == 0 {
        assert SumReply(m, port, init)[4 * |init| + k] == DataBlock(m, port, init)[k];
      }
    }
  }

  lemma {:induction false} TruncatedDeliveryLosesBytes(port: uint16, reqs: seq<Request>)
    requires 4 * |reqs| + TotalLength(reqs) >= 0x1_0000_0000
    ensures !AlwaysExact(port, reqs)
  {
    var size := 4 * |reqs| + TotalLength(reqs);
    var m: Memory := p => Symbol(0, []);
    var reply := SumReply(m, port, reqs);
    var buf: seq<Byte> := seq(size, i => 1);
    BlankReply(m, port, reqs);
    assert Deliver(buf, reply, Wrap32(size))[size - 1] == buf[size - 1];
    assert reply[size - 1] == 0;
  }

  /** `read` hands the device a 32-bit copy of the buffer size. The buffer is filled exactly,
    whatever the device holds, if and only if the size needs no more than 32 bits. */
  lemma {:induction false} ExactIffSizeFits32Bits(port: uint16, reqs: seq<Request>)
    ensures AlwaysExact(port, reqs) <==> 4 * |reqs| + TotalLength(reqs) < 0x1_0000_0000
  {
    var size := 4 * |reqs| + TotalLength(reqs);
    if size >= 0x1_0000_0000 {
      TruncatedDeliveryLosesBytes(port, reqs);
    } else {
      forall m: Memory, buf: seq<Byte> | |buf| == size
        ensures Deliver(buf, SumReply(m, port, reqs), Wrap32(size)) == SumReply(m, port, reqs)
      {
        FullDelivery(buf, SumReply(m, port, reqs));
      }
    }
  }
}
