/** Masked digital writes: read-modify-write through the readback overlay
  (ADSPortDriver::digitalRead and digitalWrite). */
module Digital {
  import opened Types
  import opened Wire
  import opened Readback

  /** The PLC types a digital record may have: 8, 16 or 32 bits wide. */
  datatype Width = W8 | W16 | W32

  function ByteCount(w: Width): (n: nat)
    ensures 1 <= n <= 4
  {
    match w case W8 => 1 case W16 => 2 case W32 => 4
  }

  /** The bits of `x` that survive a cast to the PLC type. */
  function Cast(w: Width, x: bv32): bv32
  {
    match w case W8 => x & 0xFF case W16 => x & 0xFFFF case W32 => x
  }

  const FULL_MASK: bv32 := 0xFFFF_FFFF

  /** A value cast to the PLC type, as it is laid out in memory. */
  function ToBytes(w: Width, x: bv32): (bytes: seq<Byte>)
    ensures |bytes| == ByteCount(w)
  {
    Encode32(x)[..ByteCount(w)]
  }

  function FromBytes(w: Width, bytes: seq<Byte>): bv32
    requires |bytes| == ByteCount(w)
  {
    match w
    case W8 => bytes[0] as bv32
    case W16 => (bytes[0] as bv32) | ((bytes[1] as bv32) << 8)
    case W32 => Decode32(bytes)
  }

  /** The two assignments of `digitalWrite` that blend the masked bits into the current value. */
  function Blend(current: bv32, val: bv32, mask: bv32): bv32
  {
    (current | (val & mask)) & (val | !mask)
  }

  predicate OneBit(b: bv32) { b != 0 && b & (b - 1) == 0 }

  /** Bit `b` (a one-bit word) is set in `x`. */
  predicate Has(x: bv32, b: bv32) { x & b == b }

  function Masked(x: bv32, mask: bv32): bv32 { x & mask }

  /** Bit by bit, `value` is what `x` and `mask` share. */
  ghost predicate Shares(value: bv32, x: bv32, mask: bv32)
  {
    forall b | OneBit(b) :: Has(value, b) <==> Has(mask, b) && Has(x, b)
  }

  lemma NothingMasked(x: bv32)
    ensures Masked(x, FULL_MASK) == x
  {
  }

  // ---------- runs ----------

  /** A digital variable: its bytes on the device, and the driver's cell for it. */
  datatype Point = Point(device: seq<Byte>, cell: Cell)

  /** A refused write is taken not to have reached the device; nobody else writes to the variable. */
  datatype Event =
    | Put(val: bv32, mask: bv32, acked: bool)  // digitalWrite, with the device's verdict
    | Scan                                     // a successful sum-read
    | Look                                     // a digitalRead, of a record or of its I/O Intr callback

  predicate Sized(w: Width, p: Point)
  {
    && |p.device| == ByteCount(w)
    && p.cell.view.Fetched? && p.cell.view.code == 0 && |p.cell.view.bytes| == ByteCount(w)
    && (p.cell.pending == [] || |p.cell.pending| == ByteCount(w))
  }

  /** What the next read through the overlay returns. */
  function Shown(p: Point): seq<Byte>
    requires p.cell.view.Fetched?
  {
    if p.cell.pending != [] then p.cell.pending else p.cell.view.bytes
  }

  /** The value `digitalWrite` sends; a partial mask reads (and so consumes) the overlay first. */
  function ValueToWrite(w: Width, p: Point, val: bv32, mask: bv32): bv32
    requires Sized(w, p)
  {
    if mask == FULL_MASK then val else Blend(FromBytes(w, ReadCell(true, p.cell).0.bytes), val, mask)
  }

  /** The point once the overlay has been read. */
  function Looked(p: Point): Point
  {
    p.(cell := ReadCell(true, p.cell).1)
  }

  /** The point once `digitalWrite` has looked up the value to send. */
  function AfterLook(p: Point, mask: bv32): Point
  {
    if mask == FULL_MASK then p else Looked(p)
  }

  function Step(w: Width, p: Point, e: Event): (q: Point)
    requires Sized(w, p)
    ensures Sized(w, q)
  {
    match e
    case Scan => p.(cell := p.cell.(view := Fetched(0, p.device)))
    case Look => Looked(p)
    case Put(val, mask, acked) =>
      var bytes := ToBytes(w, ValueToWrite(w, p, val, mask));
      var cell := AfterLook(p, mask).cell;
      if acked then Point(bytes, cell.(pending := bytes)) else p.(cell := cell)
  }

  lemma PutStep(w: Width, p: Point, val: bv32, mask: bv32)
    requires Sized(w, p)
    ensures var q, bytes := AfterLook(p, mask), ToBytes(w, ValueToWrite(w, p, val, mask));
            && Step(w, p, Put(val, mask, true)) == Point(bytes, q.cell.(pending := bytes))
            && Step(w, p, Put(val, mask, false)).cell == q.cell
  {
  }

  function Run(w: Width, start: Point, events: seq<Event>): (p: Point)
    requires Sized(w, start)
    ensures Sized(w, p)
  {
    if events == [] then start
    else Step(w, Run(w, start, events[..|events| - 1]), events[|events| - 1])
  }

  predicate Covers(e: Event, b: bv32) { e.Put? && e.acked && Has(e.mask, b) }

  /** The value of the most recent acknowledged write whose mask covers bit `b`, or else `first`. */
  function LastCovering(events: seq<Event>, b: bv32, first: bv32): bv32
  {
    if events == [] then first
    else
      var e := events[|events| - 1];
      if Covers(e, b) then e.val else LastCovering(events[..|events| - 1], b, first)
  }

  /** Bit `b` was written since the last scan. */
  predicate Written(events: seq<Event>, b: bv32)
  {
    events != [] && !events[|events| - 1].Scan? &&
    (Covers(events[|events| - 1], b) || Written(events[..|events| - 1], b))
  }

  /** The value written last has been used up, by a read or by a refused partial write. */
  predicate UsedUp(events: seq<Event>)
  {
    if events == [] then true
    else
      match events[|events| - 1]
      case Scan => UsedUp(events[..|events| - 1])
      case Look => true
      case Put(_, mask, acked) => !acked && (mask != FULL_MASK || UsedUp(events[..|events| - 1]))
  }

  /** A partial write that sends a stale bit `b` along: the bit is not covered, was written since the
    last scan, and what was written is used up. */
  predicate Bad(before: seq<Event>, e: Event, b: bv32)
  {
    e.Put? && e.acked && e.mask != FULL_MASK && !Has(e.mask, b) && Written(before, b) && UsedUp(before)
  }

  predicate LostAt(events: seq<Event>, i: nat, b: bv32)
    requires i < |events|
  {
    Bad(events[..i], events[i], b) && forall k | i < k < |events| :: !Covers(events[k], b)
  }

  /** A bad write has come after the last acknowledged write that covers `b`. */
  predicate Lost(events: seq<Event>, b: bv32)
  {
    exists i | 0 <= i < |events| :: LostAt(events, i, b)
  }

  lemma LowByte(x: bv32)
    ensures ((x & 0xFF) as Byte) as bv32 == x & 0xFF
  {
  }

  lemma LowWord(x: bv32)
    ensures (((x & 0xFF) as Byte) as bv32) | (((((x >> 8) & 0xFF) as Byte) as bv32) << 8) == x & 0xFFFF
  {
  }

  lemma ByteRoundTrip(x: bv32)
    ensures FromBytes(W8, ToBytes(W8, x)) == x & 0xFF
  {
    LowByte(x);
    assert ToBytes(W8, x) == [(x & 0xFF) as Byte];
  }

  lemma WordRoundTrip(x: bv32)
    ensures FromBytes(W16, ToBytes(W16, x)) == x & 0xFFFF
  {
    LowWord(x);
    assert ToBytes(W16, x) == [(x & 0xFF) as Byte, ((x >> 8) & 0xFF) as Byte];
  }

  lemma DwordRoundTrip(x: bv32)
    ensures FromBytes(W32, ToBytes(W32, x)) == x
  {
    DecodeEncode(x);
    assert ToBytes(W32, x) == Encode32(x);
  }

  /** The low byte comes first. */
  lemma ByteOrder()
    ensures ToBytes(W8, 0x0403_0201) == [1] && ToBytes(W16, 0x0403_0201) == [1, 2]
    ensures ToBytes(W32, 0x0403_0201) == [1, 2, 3, 4]
    ensures FromBytes(W8, [1]) == 0x01 && FromBytes(W16, [1, 2]) == 0x0201
    ensures FromBytes(W32, [1, 2, 3, 4]) == 0x0403_0201
  {
  }

  lemma BytesRoundTrip(w: Width, x: bv32)
    ensures FromBytes(w, ToBytes(w, x)) == Cast(w, x)
  {
    match w {
      case W8 => ByteRoundTrip(x);
      case W16 => WordRoundTrip(x);
      case W32 => DwordRoundTrip(x);
    }
  }

  lemma AllOnes(x: bv32)
    ensures x & 0xFFFF_FFFF == x
  {
  }

  lemma OneBitIsCoveredOrNot(mask: bv32, b: bv32)
    requires OneBit(b)
    ensures mask & b == b || mask & b == 0
  {
  }

  lemma BlendCovered(current: bv32, val: bv32, mask: bv32, b: bv32)
    requires mask & b == b
    ensures Blend(current, val, mask) & b == val & b
  {
  }

  lemma BlendUncovered(current: bv32, val: bv32, mask: bv32, b: bv32)
    requires mask & b == 0
    ensures Blend(current, val, mask) & b == current & b
  {
  }

  lemma BlendAtBit(current: bv32, val: bv32, mask: bv32, b: bv32)
    requires OneBit(b)
    ensures Has(Blend(current, val, mask), b) == if Has(mask, b) then Has(val, b) else Has(current, b)
  {
    OneBitIsCoveredOrNot(mask, b);
    if mask & b == b {
      BlendCovered(current, val, mask, b);
    } else {
      BlendUncovered(current, val, mask, b);
    }
  }

  lemma MaskedCovered(x: bv32, mask: bv32, b: bv32)
    requires mask & b == b
    ensures Masked(x, mask) & b == x & b
  {
  }

  lemma MaskedUncovered(x: bv32, mask: bv32, b: bv32)
    requires mask & b == 0
    ensures Masked(x, mask) & b == 0
  {
  }

  /** A masked value has just the bits that mask and value share. */
  lemma MaskedBits(x: bv32, mask: bv32)
    ensures Shares(Masked(x, mask), x, mask)
  {
    hide Masked;
    forall b | OneBit(b) ensures Has(Masked(x, mask), b) <==> Has(mask, b) && Has(x, b) {
      OneBitIsCoveredOrNot(mask, b);
      if mask & b == b {
        MaskedCovered(x, mask, b);
      } else {
        MaskedUncovered(x, mask, b);
      }
    }
  }

  lemma FullMaskHas(b: bv32)
    ensures Has(FULL_MASK, b)
  {
    AllOnes(b);
  }

  lemma MaskedAtBit(x: bv32, all: bv32, b: bv32)
    requires b & all == b
    ensures Has(x & all, b) == Has(x, b)
  {
  }

  lemma CastAtBit(w: Width, x: bv32, b: bv32)
    requires Cast(w, b) == b
    ensures Has(Cast(w, x), b) == Has(x, b)
  {
    hide Has;
    match w {
      case W8 => MaskedAtBit(x, 0xFF, b);
      case W16 => MaskedAtBit(x, 0xFFFF, b);
      case W32 =>
    }
  }

  /** A buffer in step with the device, and no pending value that says otherwise. */
  predicate InStep(w: Width, p: Point)
  {
    Sized(w, p) && p.cell.view.bytes == p.device && (p.cell.pending == [] || p.cell.pending == p.device)
  }

  /** A pending value is what the device holds; a bit not written since the last scan is the same in the
    buffer and on the device; and for one that was, the pending value is there until used up. */
  lemma {:induction false} OverlayIsTrue(w: Width, start: Point, events: seq<Event>, b: bv32)
    requires InStep(w, start)
    requires OneBit(b) && Cast(w, b) == b
    ensures var p := Run(w, start, events);
            && (p.cell.pending != [] ==> p.cell.pending == p.device)
            && (Written(events, b) ==> (UsedUp(events) <==> p.cell.pending == []))
            && (!Written(events, b) ==>
                  Has(FromBytes(w, p.cell.view.bytes), b) == Has(FromBytes(w, p.device), b))
  {
    hide FromBytes, ToBytes, Blend, Cast, OneBit, Has;
    if events != [] {
      var init, e := events[..|events| - 1], events[|events| - 1];
      OverlayIsTrue(w, start, init, b);
      if e.Put? && e.acked {
        AckedStepAtBit(w, Run(w, start, init), e, b);
      }
    }
  }

  /** What an acknowledged write leaves in bit `b`: the new value if the mask covers the bit, and
    otherwise whatever the overlay showed. */
  lemma AckedStepAtBit(w: Width, p: Point, e: Event, b: bv32)
    requires Sized(w, p) && e.Put? && e.acked
    requires OneBit(b) && Cast(w, b) == b
    ensures Has(FromBytes(w, Step(w, p, e).device), b)
         == if Has(e.mask, b) then Has(e.val, b) else Has(FromBytes(w, Shown(p)), b)
  {
    hide FromBytes, ToBytes, Blend, Cast, OneBit, Has;
    var value := ValueToWrite(w, p, e.val, e.mask);
    BytesRoundTrip(w, value);
    CastAtBit(w, value, b);
    if e.mask == FULL_MASK {
      FullMaskHas(b);
    } else {
      assert ReadCell(true, p.cell).0 == Got(Shown(p));
      BlendAtBit(FromBytes(w, Shown(p)), e.val, e.mask, b);
    }
  }

  /** A masked write leaves the bits outside its mask alone. */
  ghost predicate KeepsOthers(w: Width, p: Point, e: Event)
    requires Sized(w, p) && e.Put?
  {
    forall b | OneBit(b) && Cast(w, b) == b && !Has(e.mask, b) ::
      Has(FromBytes(w, Step(w, p, e).device), b) == Has(FromBytes(w, p.device), b)
  }

  /** It does so exactly when the overlay agrees with the device outside the mask beforehand. */
  lemma KeepsOthersIffOverlayAgrees(w: Width, p: Point, e: Event)
    requires Sized(w, p) && e.Put? && e.acked
    ensures KeepsOthers(w, p, e) <==>
              forall b | OneBit(b) && Cast(w, b) == b && !Has(e.mask, b) ::
                Has(FromBytes(w, Shown(p)), b) == Has(FromBytes(w, p.device), b)
  {
    forall b | OneBit(b) && Cast(w, b) == b && !Has(e.mask, b)
      ensures Has(FromBytes(w, Step(w, p, e).device), b) == Has(FromBytes(w, Shown(p)), b)
    {
      AckedStepAtBit(w, p, e, b);
    }
    hide FromBytes, ToBytes, Blend, Cast, OneBit, Has, Step;
  }

  /** Bit `b` on the device has the value given by the most recent acknowledged write that covers it. */
  predicate LastWins(w: Width, start: Point, events: seq<Event>, b: bv32)
    requires InStep(w, start)
  {
    Has(FromBytes(w, Run(w, start, events).device), b)
    == Has(LastCovering(events, b, FromBytes(w, start.device)), b)
  }

  lemma LostOneMore(events: seq<Event>, b: bv32)
    requires events != []
    ensures var init, e := events[..|events| - 1], events[|events| - 1];
            Lost(events, b) <==> Bad(init, e, b) || (Lost(init, b) && !Covers(e, b))
  {
    hide Bad, Covers;
    var init, e := events[..|events| - 1], events[|events| - 1];
    if Lost(init, b) && !Covers(e, b) {
      var i :| 0 <= i < |init| && LostAt(init, i, b);
      assert init[..i] == events[..i];
      assert LostAt(events, i, b);
    }
    if Bad(init, e, b) {
      assert LostAt(events, |init|, b);
    }
    if Lost(events, b) && !Bad(init, e, b) {
      var i :| 0 <= i < |events| && LostAt(events, i, b);
      assert init[..i] == events[..i];
      assert LostAt(init, i, b);
    }
  }

  /** Over a run of masked writes, reads and scans that starts in step and does not lose bit `b`,
    the last acknowledged covering write wins. */
  lemma {:induction false} MaskedWritesCompose(w: Width, start: Point, events: seq<Event>, b: bv32)
    requires InStep(w, start) && !Lost(events, b)
    requires OneBit(b) && Cast(w, b) == b
    ensures LastWins(w, start, events, b)
  {
    hide FromBytes, ToBytes, Blend, Cast, OneBit, Has, Lost;
    if events != [] {
      var init, e := events[..|events| - 1], events[|events| - 1];
      var p := Run(w, start, init);
      LostOneMore(events, b);
      OverlayIsTrue(w, start, init, b);
      if !Covers(e, b) {
        MaskedWritesCompose(w, start, init, b);
      }
      if e.Put? && e.acked {
        FullMaskHas(b);
        AckedStepAtBit(w, p, e, b);
      } else {
        assert Step(w, p, e).device == p.device;
      }
    }
  }

  // ---------- the condition is exact ----------

  function Valued(e: Event, val: bv32): Event
  {
    if e.Put? then e.(val := val) else e
  }

  /** The same masks, verdicts, reads and scans with other values to write. */
  function With(shape: seq<Event>, vals: seq<bv32>): (events: seq<Event>)
    requires |vals| == |shape|
    ensures |events| == |shape| && forall i | 0 <= i < |shape| :: events[i] == Valued(shape[i], vals[i])
  {
    seq(|shape|, i requires 0 <= i < |shape| => Valued(shape[i], vals[i]))
  }

  lemma WithPrefix(shape: seq<Event>, vals: seq<bv32>, n: nat)
    requires |vals| == |shape| && n <= |shape|
    ensures With(shape, vals)[..n] == With(shape[..n], vals[..n])
  {
  }

  lemma {:induction false} SameShape(shape: seq<Event>, vals: seq<bv32>, b: bv32)
    requires |vals| == |shape|
    ensures Written(With(shape, vals), b) == Written(shape, b)
    ensures UsedUp(With(shape, vals)) == UsedUp(shape)
  {
    hide Has;
    if shape != [] {
      var n := |shape| - 1;
      WithPrefix(shape, vals, n);
      SameShape(shape[..n], vals[..n], b);
    }
  }

  lemma SameLoss(shape: seq<Event>, vals: seq<bv32>, b: bv32)
    requires |vals| == |shape|
    ensures Lost(With(shape, vals), b) == Lost(shape, b)
  {
    hide Has, Written, UsedUp;
    var events := With(shape, vals);
    forall i | 0 <= i < |shape| ensures LostAt(events, i, b) == LostAt(shape, i, b) {
      WithPrefix(shape, vals, i);
      SameShape(shape[..i], vals[..i], b);
      assert forall k | 0 <= k < |shape| :: Covers(events[k], b) == Covers(shape[k], b);
    }
  }

  /** For every start and every choice of values, the last covering write wins bit `b`. */
  ghost predicate AlwaysLastWins(w: Width, shape: seq<Event>, b: bv32)
  {
    forall start: Point, vals: seq<bv32> | InStep(w, start) && |vals| == |shape| ::
      LastWins(w, start, With(shape, vals), b)
  }

  /** Bit `b` set or clear, at will. */
  lemma BitOf(b: bv32, on: bool) returns (x: bv32)
    requires OneBit(b)
    ensures Has(x, b) == on
  {
    x := if on then b else 0;
  }

  predicate BitIn(w: Width, bytes: seq<Byte>, b: bv32)
    requires |bytes| == ByteCount(w)
  {
    Has(FromBytes(w, bytes), b)
  }

  /** One step of the argument below; `last` is the bit that the last covering write asked for. */
  lemma AdverseStep(w: Width, p: Point, e: Event, b: bv32,
                                       written: bool, usedUp: bool, lost: bool, last: bool)
    requires Sized(w, p) && OneBit(b) && Cast(w, b) == b
    requires p.cell.pending != [] ==> p.cell.pending == p.device
    requires written ==> (usedUp <==> p.cell.pending == []) && BitIn(w, p.cell.view.bytes, b) != last
    requires !written ==> BitIn(w, p.cell.view.bytes, b) == BitIn(w, p.device, b)
    requires lost ==> BitIn(w, p.device, b) != last
    requires Covers(e, b) ==> Has(e.val, b) != BitIn(w, p.cell.view.bytes, b)
    ensures var q, now := Step(w, p, e), if Covers(e, b) then Has(e.val, b) else last;
            && (!e.Scan? && (Covers(e, b) || written) ==> BitIn(w, q.cell.view.bytes, b) != now)
            && (lost && !Covers(e, b) ==> BitIn(w, q.device, b) != now)
            && (e.Put? && e.acked && e.mask != FULL_MASK && !Has(e.mask, b) && written && usedUp ==>
                  BitIn(w, q.device, b) != now)
  {
    hide FromBytes, ToBytes, Blend, Cast, OneBit, Has;
    if e.Put? && e.acked {
      AckedStepAtBit(w, p, e, b);
    }
  }

  lemma AsValued(e: Event, val: bv32, b: bv32)
    ensures var f := Valued(e, val);
            && Covers(f, b) == Covers(e, b) && f.Scan? == e.Scan? && (e.Put? ==> f == e.(val := val))
            && (f.Put? <==> e.Put?)
  {
  }

  /** Values that differ from the buffer in bit `b` wherever `b` is covered: then a lost bit is wrong. */
  lemma {:induction false} Adverse(w: Width, start: Point, shape: seq<Event>, b: bv32) returns (vals: seq<bv32>)
    requires InStep(w, start)
    requires OneBit(b) && Cast(w, b) == b
    ensures |vals| == |shape|
    ensures var events := With(shape, vals);
            var p, last := Run(w, start, events), LastCovering(events, b, FromBytes(w, start.device));
            && (Written(shape, b) ==> Has(FromBytes(w, p.cell.view.bytes), b) != Has(last, b))
            && (Lost(shape, b) ==> Has(FromBytes(w, p.device), b) != Has(last, b))
  {
    hide FromBytes, ToBytes, Blend, Cast, OneBit, Has, Lost, Step, UsedUp, With, Valued;
    if shape == [] {
      vals := [];
      NothingLostYet(b);
    } else {
      var init, e := shape[..|shape| - 1], shape[|shape| - 1];
      var before := Adverse(w, start, init, b);
      var p := Run(w, start, With(init, before));
      var val := BitOf(b, !Has(FromBytes(w, p.cell.view.bytes), b));
      vals := before + [val];
      var events := With(shape, vals);
      WithPrefix(shape, vals, |init|);
      assert vals[..|init|] == before;
      assert events[..|init|] == With(init, before) && events[|init|] == Valued(e, val);
      LostOneMore(shape, b);
      AsValued(e, val, b);
      OverlayIsTrue(w, start, With(init, before), b);
      SameShape(init, before, b);
      AdverseStep(w, p, Valued(e, val), b, Written(init, b), UsedUp(init), Lost(init, b),
                  Has(LastCovering(With(init, before), b, FromBytes(w, start.device)), b));
    }
  }

  lemma NothingLostYet(b: bv32)
    ensures !Lost([], b)
  {
  }

  lemma Settled(w: Width) returns (start: Point)
    ensures InStep(w, start)
  {
    start := Point(ToBytes(w, 0), Cell([], Fetched(0, ToBytes(w, 0))));
  }

  /** The last acknowledged write that covers a bit wins it, whatever the start and the values, if and
    only if no bad write follows: a partial write past the bit while the value last written is used
    up and no scan has come since the bit was written. */
  lemma LastWinsIffNothingLost(w: Width, shape: seq<Event>, b: bv32)
    requires OneBit(b) && Cast(w, b) == b
    ensures AlwaysLastWins(w, shape, b) <==> !Lost(shape, b)
  {
    hide FromBytes, ToBytes, Blend, Cast, OneBit, Has, Lost, LastWins, InStep, With;
    if Lost(shape, b) {
      var start := Settled(w);
      var vals := Adverse(w, start, shape, b);
      assert !LastWins(w, start, With(shape, vals), b) by { WrongBit(w, start, With(shape, vals), b); }
    } else {
      forall start: Point, vals: seq<bv32> | InStep(w, start) && |vals| == |shape|
        ensures LastWins(w, start, With(shape, vals), b)
      {
        SameLoss(shape, vals, b);
        MaskedWritesCompose(w, start, With(shape, vals), b);
      }
    }
  }

  lemma WrongBit(w: Width, start: Point, events: seq<Event>, b: bv32)
    requires InStep(w, start)
    requires Has(FromBytes(w, Run(w, start, events).device), b)
          != Has(LastCovering(events, b, FromBytes(w, start.device)), b)
    ensures !LastWins(w, start, events, b)
  {
  }

  /** A run in which the device acknowledges every write and nothing else reads the overlay loses no bit. */
  lemma AcknowledgedWritesCompose(w: Width, start: Point, events: seq<Event>, b: bv32)
    requires InStep(w, start)
    requires forall i | 0 <= i < |events| :: !events[i].Look? && (events[i].Put? ==> events[i].acked)
    requires OneBit(b) && Cast(w, b) == b
    ensures LastWins(w, start, events, b)
  {
    hide FromBytes, ToBytes, Blend, Cast, OneBit, Has, LastWins, InStep;
    forall i | 0 <= i < |events| ensures !LostAt(events, i, b) {
      NeverUsedUp(events[..i], b);
    }
    MaskedWritesCompose(w, start, events, b);
  }

  lemma {:induction false} NeverUsedUp(events: seq<Event>, b: bv32)
    requires forall i | 0 <= i < |events| :: !events[i].Look? && (events[i].Put? ==> events[i].acked)
    ensures !(Written(events, b) && UsedUp(events))
  {
    if events != [] {
      NeverUsedUp(events[..|events| - 1], b);
    }
  }

  lemma RunSnoc(w: Width, start: Point, init: seq<Event>, e: Event)
    requires Sized(w, start)
    ensures Run(w, start, init + [e]) == Step(w, Run(w, start, init), e)
  {
    assert (init + [e])[..|init|] == init;
  }

  lemma LastCoveringSnoc(init: seq<Event>, e: Event, b: bv32, first: bv32)
    ensures LastCovering(init + [e], b, first)
         == if Covers(e, b) then e.val else LastCovering(init, b, first)
  {
    assert (init + [e])[..|init|] == init;
  }

  /** Bit 0 was set last, yet it ends up clear: a refused partial write uses up the pending value, and the
    next partial write then puts a stale bit back. */
  lemma RefusedWriteLosesABit()
    ensures var start := Point([0], Cell([], Fetched(0, [0])));
            var events := [] + [Put(1, 1, true)] + [Put(2, 2, false)] + [Put(4, 4, true)];
            && Has(LastCovering(events, 1, 0), 1)
            && !Has(FromBytes(W8, Run(W8, start, events).device), 1)
  {
    var start := Point([0], Cell([], Fetched(0, [0])));
    var e1, e2, e3 := Put(1, 1, true), Put(2, 2, false), Put(4, 4, true);
    RunSnoc(W8, start, [], e1);
    assert Run(W8, start, [] + [e1]) == Point([1], Cell([1], Fetched(0, [0])));
    RunSnoc(W8, start, [] + [e1], e2);
    assert Run(W8, start, [] + [e1] + [e2]) == Point([1], Cell([], Fetched(0, [0])));
    RunSnoc(W8, start, [] + [e1] + [e2], e3);
    assert Run(W8, start, [] + [e1] + [e2] + [e3]).device == [4];
    LastCoveringSnoc([], e1, 1, 0);
    LastCoveringSnoc([] + [e1], e2, 1, 0);
    LastCoveringSnoc([] + [e1] + [e2], e3, 1, 0);
  }

  /** The same with every write acknowledged and one read in between, as the I/O Intr callbacks make it. */
  lemma ReadLosesABit()
    ensures var start := Point([0], Cell([], Fetched(0, [0])));
            var events := [] + [Put(1, 1, true)] + [Look] + [Put(2, 2, true)];
            && Has(LastCovering(events, 1, 0), 1)
            && !Has(FromBytes(W8, Run(W8, start, events).device), 1)
  {
    var start := Point([0], Cell([], Fetched(0, [0])));
    var e1, e3 := Put(1, 1, true), Put(2, 2, true);
    RunSnoc(W8, start, [], e1);
    assert Run(W8, start, [] + [e1]) == Point([1], Cell([1], Fetched(0, [0])));
    RunSnoc(W8, start, [] + [e1], Look);
    assert Run(W8, start, [] + [e1] + [Look]) == Point([1], Cell([], Fetched(0, [0])));
    RunSnoc(W8, start, [] + [e1] + [Look], e3);
    assert Run(W8, start, [] + [e1] + [Look] + [e3]).device == [2];
    LastCoveringSnoc([], e1, 1, 0);
    LastCoveringSnoc([] + [e1], Look, 1, 0);
    LastCoveringSnoc([] + [e1] + [Look], e3, 1, 0);
  }
}
