/** The scan thread, one record handler at a time, and shutdown, interleaved step by step
  (ADSPortDriver.cpp).

  The scan thread holds the driver lock only while it connects, while it delivers I/O Intr values
  and for its last disconnect; a sum-read or device-info failure in the loop tears the connection
  down without the lock, in the middle of whatever a handler is doing. A handler reads a variable from the
  shared buffers, but for one that was written since its last read: that one shows the value written.
 */
module Lifecycle {
  import opened Types

  /** One buffer of the sum-read: usable or not, and the connection it was last filled in. */
  datatype Chunk = Chunk(usable: bool, stamp: nat)

  /** How much of the variable lists is resolved. */
  datatype Held = Nothing | Part | Everything

  datatype Holder = Free | ByScan | ByHandler

  /** Why the scan thread disconnects, which says where it goes on afterwards. */
  datatype Cause =
    | InitialRead   // the sum-read inside ADSConnect failed
    | NoConnect     // ADSConnect failed
    | Scanning      // a failure in the loop; the lock is not held
    | Leaving       // the loop has ended

  /** The steps of ADSDisconnect. */
  datatype Teardown = Deinitialize | Look | UnresolveReads | UnresolveWrites | Close

  /** What the scan thread does next. */
  datatype Scan =
    | Head
    | Sampled(connected: bool)
    | WantConnect
    | Guards
    | Open
    | ResolveReads
    | ResolveWrites
    | FillTables
    | ReadChunk(k: nat, cause: Cause)
    | Invalidate(k: nat, cause: Cause)
    | Disconnect(at: Teardown, cause: Cause)
    | DeviceInfo
    | DeviceState
    | WantDeliver
    | Deliver(i: nat)
    | Left
    | WantClose
    | Done

  /** A record handler: after `Passed` it has seen the connection up, in that session. */
  datatype Handler = Idle | Locked | Passed(session: nat)

  /** Where the bytes of a read came from: the shared buffer, or the value last written. */
  datatype Source = Buffer | LastWritten

  /** A value handed to a record: the variable, the session it was asked for in, and the session in
    which its bytes were read from, or acknowledged by, the device. */
  datatype Delivered = Delivered(variable: nat, asked: nat, source: Source, made: nat)

  datatype State = State(
    exitCalled: bool, initialized: bool,
    connected: bool, session: nat,
    tables: bool, held: Held, chunks: seq<Chunk>,
    places: seq<nat>,        // the chunk of each allocated variable
    scanned: seq<nat>,       // the I/O Intr variables
    pending: map<nat, nat>,  // variables with an unread written value, and the session of that write
    lock: Holder, scan: Scan, handler: Handler,
    log: seq<Delivered>)

  const START := State(false, false, false, 0, false, Nothing, [], [], [], map[], Free, Head, Idle, [])

  datatype Event =
    | ScanStep(ok: bool)  // `ok` is the device's answer, where the step asks it
    | Lock                // a handler takes the driver lock
    | Check               // is_connected
    | Copy(v: nat, good: bool)  // read_from_buffer for a variable; was its result code good?
    | Acknowledge(v: nat) // a write to a variable with readback was acknowledged
    | Unlock
    | InitHook(n: nat, places: seq<nat>, scanned: seq<nat>)  // allocates `n` chunks
    | Exit

  predicate ScanHolds(scan: Scan)
  {
    match scan
    case Guards | Open | ResolveReads | ResolveWrites | FillTables | Deliver(_) => true
    case ReadChunk(_, cause) => cause != Scanning
    case Invalidate(_, cause) => cause != Scanning
    case Disconnect(_, cause) => cause != Scanning
    case _ => false
  }

  predicate Enabled(s: State, e: Event)
  {
    match e
    case ScanStep(_) =>
      && s.scan != Done
      && (s.scan.WantConnect? || s.scan.WantDeliver? || s.scan.WantClose? ==> s.lock == Free)
    case Lock => s.lock == Free && s.handler == Idle
    case Check => s.handler == Locked
    case Copy(v, _) => s.handler.Passed? && v < |s.places|
    case Acknowledge(v) => s.handler != Idle && v < |s.places|
    case Unlock => s.handler != Idle
    case InitHook(n, places, scanned) =>
      && s.lock == Free && !s.initialized
      && (forall v | 0 <= v < |places| :: places[v] < n)
      && (forall i | 0 <= i < |scanned| :: scanned[i] < |places|)
    case Exit => s.lock == Free
  }

  function Unheld(s: State): State { s.(lock := Free, scan := Head) }

  /** What `read_from_buffer` can hand out: the variable's buffer is usable and its result code good. */
  predicate Offered(s: State, v: nat, good: bool)
  {
    good && v < |s.places| && s.places[v] < |s.chunks| && s.chunks[s.places[v]].usable
  }

  /** It hands out a pending written value, once, or else the buffer's bytes. */
  function HandOut(s: State, v: nat, asked: nat, good: bool): (t: State)
    ensures t == s.(log := t.log, pending := t.pending) && s.log <= t.log
  {
    if !Offered(s, v, good) then s
    else if v in s.pending then
      s.(pending := s.pending - {v}, log := s.log + [Delivered(v, asked, LastWritten, s.pending[v])])
    else s.(log := s.log + [Delivered(v, asked, Buffer, s.chunks[s.places[v]].stamp)])
  }

  /** Where a disconnect returns to. */
  function After(cause: Cause): Scan
  {
    match cause
    case InitialRead => Disconnect(Deinitialize, NoConnect)
    case NoConnect | Scanning => Head
    case Leaving => Done
  }

  function Return(s: State, cause: Cause): State
  {
    s.(lock := if cause == NoConnect || cause == Leaving then Free else s.lock, scan := After(cause))
  }

  function Failed(s: State): State { s.(scan := Disconnect(Deinitialize, NoConnect)) }

  function DisconnectNext(s: State, at: Teardown, cause: Cause): State
  {
    match at
    case Deinitialize => s.(tables := false, scan := Disconnect(Look, cause))
    case Look =>
      if s.exitCalled then s.(scan := Disconnect(Close, cause))
      else if !s.connected then Return(s, cause)
      else s.(scan := Disconnect(UnresolveReads, cause))
    case UnresolveReads => s.(held := Part, scan := Disconnect(UnresolveWrites, cause))
    case UnresolveWrites => s.(held := Nothing, scan := Disconnect(Close, cause))
    case Close => Return(s.(connected := false), cause)
  }

  predicate InConnect(scan: Scan)
  {
    match scan
    case WantConnect | Guards | Open | ResolveReads | ResolveWrites | FillTables => true
    case _ => false
  }

  /** A step of ADSConnect, before its sum-read. */
  function ConnectNext(s: State, ok: bool): State
    requires InConnect(s.scan)
  {
    match s.scan
    case WantConnect => s.(lock := ByScan, scan := Guards)
    case Guards =>
      if s.exitCalled || !s.initialized then Failed(s)
      else if s.connected then Unheld(s)  // "Already connected"
      else s.(scan := Open)
    case Open =>
      if ok then s.(connected := true, session := s.session + 1, scan := ResolveReads) else Failed(s)
    case ResolveReads => if ok then s.(held := Part, scan := ResolveWrites) else Failed(s.(held := Part))
    case ResolveWrites => if ok then s.(held := Everything, scan := FillTables) else Failed(s.(held := Part))
    case FillTables =>
      if s.tables || s.held != Everything then Failed(s) else s.(tables := true, scan := ReadChunk(0, InitialRead))
  }

  /** A step of a sum-read. */
  function SumReadNext(s: State, ok: bool): (t: State)
    requires s.scan.ReadChunk? || s.scan.Invalidate?
    ensures t == s.(chunks := t.chunks, lock := t.lock, scan := t.scan)
  {
    match s.scan
    case ReadChunk(i, cause) =>
      if i >= |s.chunks| then (if cause == InitialRead then Unheld(s) else s.(scan := WantDeliver))
      else if ok then s.(chunks := s.chunks[i := Chunk(true, s.session)], scan := ReadChunk(i + 1, cause))
      else s.(scan := Invalidate(0, cause))
    case Invalidate(i, cause) =>
      if i >= |s.chunks| then s.(scan := Disconnect(Deinitialize, cause))
      else s.(chunks := s.chunks[i := s.chunks[i].(usable := false)], scan := Invalidate(i + 1, cause))
  }

  /** A step of handing out the values of the I/O Intr variables. */
  function DeliverNext(s: State, i: nat, ok: bool): State
  {
    if i >= |s.scanned| then Unheld(s)
    else
      var t := s.(scan := Deliver(i + 1));
      if s.connected then HandOut(t, s.scanned[i], s.session, ok) else t
  }

  /** The I/O Intr variables one after the other; `goods` are their result codes' verdicts. */
  function Deliveries(s: State, goods: seq<bool>): State
  {
    if goods == [] then s
    else DeliverNext(Deliveries(s, goods[..|goods| - 1]), |goods| - 1, goods[|goods| - 1])
  }

  predicate InLoop(scan: Scan)
  {
    !InConnect(scan) && !scan.ReadChunk? && !scan.Invalidate? && !scan.Disconnect? && !scan.Deliver?
  }

  /** A step between these. */
  function LoopNext(s: State, ok: bool): (t: State)
    requires InLoop(s.scan)
    ensures t == s.(lock := t.lock, scan := t.scan)
  {
    match s.scan
    case Head => s.(scan := if s.exitCalled then Left else Sampled(s.connected))
    case Sampled(connected) =>
      if !s.initialized then s.(scan := Head)
      else if !connected || !s.tables then s.(scan := WantConnect)
      else s.(scan := DeviceInfo)
    case DeviceInfo => s.(scan := if ok then DeviceState else Disconnect(Deinitialize, Scanning))
    case DeviceState => s.(scan := if ok then ReadChunk(0, Scanning) else Disconnect(Deinitialize, Scanning))
    case WantDeliver => s.(lock := ByScan, scan := Deliver(0))
    case Left => s.(scan := if s.connected then WantClose else Done)
    case WantClose => s.(lock := ByScan, scan := Disconnect(Deinitialize, Leaving))
    case Done => s
  }

  /** One step of the scan thread. */
  function ScanNext(s: State, ok: bool): State
  {
    match s.scan
    case WantConnect | Guards | Open | ResolveReads | ResolveWrites | FillTables => ConnectNext(s, ok)
    case ReadChunk(_, _) => SumReadNext(s, ok)
    case Invalidate(_, _) => SumReadNext(s, ok)
    case Disconnect(at, cause) => DisconnectNext(s, at, cause)
    case Deliver(i) => DeliverNext(s, i, ok)
    case _ => LoopNext(s, ok)
  }

  function Next(s: State, e: Event): State
    requires Enabled(s, e)
  {
    match e
    case ScanStep(ok) => ScanNext(s, ok)
    case Lock => s.(lock := ByHandler, handler := Locked)
    case Check => if s.connected then s.(handler := Passed(s.session)) else s
    case Copy(v, good) => HandOut(s, v, s.handler.session, good).(handler := Locked)
    case Acknowledge(v) => s.(pending := s.pending[v := s.session])
    case Unlock => s.(lock := Free, handler := Idle)
    case InitHook(n, places, scanned) =>
      s.(initialized := true, places := places, scanned := scanned, chunks := seq(n, i => Chunk(false, 0)))
    case Exit => s.(exitCalled := true)
  }

  /** Where a run leads from `s`; None if some event was not enabled. */
  function Play(s: State, events: seq<Event>): Option<State>
  {
    if events == [] then Some(s)
    else
      var before, e := Play(s, events[..|events| - 1]), events[|events| - 1];
      if before.Some? && Enabled(before.value, e) then Some(Next(before.value, e)) else None
  }

  ghost predicate Reachable(s: State)
  {
    exists events :: Play(START, events) == Some(s)
  }

  // ---------- the invariant ----------

  /** Every usable buffer was filled in the current session. */
  predicate AllFresh(s: State)
  {
    forall k | 0 <= k < |s.chunks| && s.chunks[k].usable :: s.chunks[k].stamp == s.session
  }

  predicate MutualExclusion(s: State)
  {
    (s.lock == ByScan <==> ScanHolds(s.scan)) && (s.lock == ByHandler <==> s.handler != Idle)
  }

  /** Connection, tables and handles, place by place in the scan thread. */
  predicate Placed(s: State)
  {
    match s.scan
    case Head | Left => s.connected == s.tables
    case Sampled(c) => c == s.connected == s.tables
    case WantConnect | Guards => !s.connected && !s.tables && s.initialized
    case Open => !s.connected && !s.tables && s.initialized
    case ResolveReads | ResolveWrites | FillTables =>
      s.connected && !s.tables && (s.scan == FillTables ==> s.held == Everything)
    case ReadChunk(_, cause) => s.connected && s.tables && (cause == InitialRead || cause == Scanning)
    case Invalidate(_, cause) => s.connected && s.tables && (cause == InitialRead || cause == Scanning)
    case Disconnect(Deinitialize, cause) => if cause == NoConnect then !s.tables else s.connected && s.tables
    case Disconnect(Look, cause) => !s.tables && (cause == NoConnect || s.connected)
    case Disconnect(Close, _) => !s.tables && (s.held == Nothing || s.exitCalled)
    case Disconnect(_, _) => s.connected && !s.tables
    case DeviceInfo | DeviceState | WantDeliver | Deliver(_) | WantClose => s.connected && s.tables
    case Done => !s.connected && !s.tables
  }

  /** Where the scan thread can be before the buffers are allocated. */
  predicate OutsideConnect(scan: Scan)
  {
    scan in {Head, Sampled(false), Left, Done}
  }

  predicate HandlesKept(s: State)
  {
    && (s.tables ==> s.held == Everything)
    && (!s.connected && !s.exitCalled ==> s.held == Nothing)
    && (s.connected ==> s.initialized)
    && (!s.initialized ==> s.held == Nothing && OutsideConnect(s.scan))
    && (s.connected ==> s.session > 0)
  }

  /** Is the scan thread between opening a connection and completing its first sum-read? */
  predicate Connecting(scan: Scan)
  {
    match scan
    case ResolveReads | ResolveWrites | FillTables => true
    case ReadChunk(_, cause) => cause == InitialRead
    case Invalidate(_, cause) => cause == InitialRead
    case Disconnect(_, cause) => cause == InitialRead || cause == NoConnect
    case _ => false
  }

  /** Shutdown cannot begin while ADSConnect runs past its guards. */
  predicate ExitHeldOff(s: State)
  {
    s.exitCalled ==>
      s.scan != Open && (Connecting(s.scan) ==> s.scan.Disconnect? && s.scan.cause == NoConnect && !s.connected)
  }

  predicate Freshness(s: State)
  {
    && (s.connected && !Connecting(s.scan) ==> AllFresh(s))
    && (s.handler.Passed? ==> s.handler.session == s.session > 0 && AllFresh(s))
    && (s.scan.ReadChunk? ==>
          forall k | 0 <= k < s.scan.k && k < |s.chunks| :: s.chunks[k] == Chunk(true, s.session))
    && (s.scan.Invalidate? ==> forall k | 0 <= k < s.scan.k && k < |s.chunks| :: !s.chunks[k].usable)
  }

  /** Bytes from the buffer are of the session they were asked for in; a written value may be older. */
  predicate LogFresh(s: State)
  {
    && (forall v | v in s.pending :: v < |s.places| && s.pending[v] <= s.session)
    && (!s.initialized ==> s.places == [] && s.scanned == [])
    && forall i | 0 <= i < |s.log| ::
         && s.log[i].made <= s.log[i].asked <= s.session
         && (s.log[i].source == Buffer ==> s.log[i].made == s.log[i].asked)
  }

  predicate Control(s: State)
  {
    MutualExclusion(s) && Placed(s) && HandlesKept(s) && ExitHeldOff(s)
  }

  predicate Inv(s: State)
  {
    Control(s) && Freshness(s) && LogFresh(s)
  }

  lemma ConnectControl(s: State, ok: bool)
    requires Control(s) && InConnect(s.scan) && Enabled(s, ScanStep(ok))
    ensures Control(ConnectNext(s, ok))
  {
  }

  lemma SumReadControl(s: State, ok: bool)
    requires Control(s) && (s.scan.ReadChunk? || s.scan.Invalidate?)
    ensures Control(SumReadNext(s, ok))
  {
  }

  lemma DisconnectControl(s: State, at: Teardown, cause: Cause)
    requires Control(s) && s.scan == Disconnect(at, cause)
    ensures Control(DisconnectNext(s, at, cause))
  {
  }

  lemma LoopControl(s: State, ok: bool)
    requires Control(s) && InLoop(s.scan) && Enabled(s, ScanStep(ok))
    ensures Control(LoopNext(s, ok))
  {
  }

  lemma DeliverControl(s: State, i: nat, ok: bool)
    requires Control(s) && s.scan == Deliver(i)
    ensures Control(DeliverNext(s, i, ok))
  {
    hide HandOut;
  }

  lemma ScanControl(s: State, ok: bool)
    requires Control(s) && Enabled(s, ScanStep(ok))
    ensures Control(ScanNext(s, ok))
  {
    hide LoopNext, DeliverNext, ConnectNext, SumReadNext, DisconnectNext, Control;
    if InLoop(s.scan) {
      LoopControl(s, ok);
    } else if InConnect(s.scan) {
      ConnectControl(s, ok);
    } else if s.scan.Deliver? {
      DeliverControl(s, s.scan.i, ok);
    } else if s.scan.ReadChunk? || s.scan.Invalidate? {
      SumReadControl(s, ok);
    } else if s.scan.Disconnect? {
      DisconnectControl(s, s.scan.at, s.scan.cause);
    }
  }

  lemma OtherControl(s: State, e: Event)
    requires Control(s) && Enabled(s, e) && !e.ScanStep?
    ensures Control(Next(s, e))
  {
    hide HandOut;
  }

  lemma SumReadFreshness(s: State, ok: bool)
    requires Control(s) && Freshness(s) && (s.scan.ReadChunk? || s.scan.Invalidate?)
    ensures Freshness(SumReadNext(s, ok))
  {
    hide ExitHeldOff, HandlesKept;
  }

  lemma ConnectFreshness(s: State, ok: bool)
    requires Control(s) && Freshness(s) && InConnect(s.scan)
    ensures Freshness(ConnectNext(s, ok))
  {
    hide AllFresh, ExitHeldOff, HandlesKept;
    SameBuffers(s, ConnectNext(s, ok));
  }

  lemma DisconnectFreshness(s: State, at: Teardown, cause: Cause)
    requires Control(s) && Freshness(s) && s.scan == Disconnect(at, cause)
    ensures Freshness(DisconnectNext(s, at, cause))
  {
    hide AllFresh, ExitHeldOff, HandlesKept;
    SameBuffers(s, DisconnectNext(s, at, cause));
  }

  lemma ScanFreshness(s: State, ok: bool)
    requires Control(s) && Freshness(s) && Enabled(s, ScanStep(ok))
    ensures Freshness(ScanNext(s, ok))
  {
    hide HandOut, AllFresh, ExitHeldOff, ConnectNext, SumReadNext, DisconnectNext;
    if InConnect(s.scan) {
      ConnectFreshness(s, ok);
    } else if s.scan.ReadChunk? || s.scan.Invalidate? {
      SumReadFreshness(s, ok);
    } else if s.scan.Disconnect? {
      DisconnectFreshness(s, s.scan.at, s.scan.cause);
    } else {
      SameBuffers(s, ScanNext(s, ok));
    }
  }

  lemma SameBuffers(s: State, t: State)
    ensures t.chunks == s.chunks && t.session == s.session ==> AllFresh(t) == AllFresh(s)
  {
  }

  lemma OtherFreshness(s: State, e: Event)
    requires Inv(s) && Enabled(s, e) && !e.ScanStep?
    ensures Freshness(Next(s, e))
  {
    hide HandOut;
  }

  lemma HandOutPending(s: State, v: nat, asked: nat, good: bool)
    ensures HandOut(s, v, asked, good).pending == if Offered(s, v, good) then s.pending - {v} else s.pending
  {
    if v !in s.pending {
      assert s.pending - {v} == s.pending;
    }
  }

  lemma HandedOut(s: State, v: nat, asked: nat, good: bool)
    requires LogFresh(s) && asked == s.session
    requires Offered(s, v, good) ==> s.chunks[s.places[v]].stamp == s.session
    ensures LogFresh(HandOut(s, v, asked, good))
  {
  }

  lemma SameLog(s: State, t: State)
    requires LogFresh(s) && LogSame(s, t)
    ensures LogFresh(t)
  {
  }

  predicate LogSame(s: State, t: State)
  {
    && t.log == s.log && t.pending == s.pending && s.session <= t.session
    && t.places == s.places && t.scanned == s.scanned && t.initialized == s.initialized
  }

  lemma SumReadLog(s: State, ok: bool)
    requires s.scan.ReadChunk? || s.scan.Invalidate?
    ensures LogSame(s, SumReadNext(s, ok))
  {
    hide SumReadNext;
  }

  lemma ConnectLog(s: State, ok: bool)
    requires InConnect(s.scan)
    ensures LogSame(s, ConnectNext(s, ok))
  {
  }

  lemma LoopLog(s: State, ok: bool)
    requires InLoop(s.scan)
    ensures LogSame(s, LoopNext(s, ok))
  {
    hide LoopNext;
  }

  lemma LogUntouched(s: State, ok: bool)
    requires !s.scan.Disconnect? && !(s.scan.Deliver? && s.scan.i < |s.scanned| && s.connected)
    ensures LogSame(s, ScanNext(s, ok))
  {
    hide HandOut, DisconnectNext, SumReadNext, ConnectNext, LoopNext;
    if s.scan.ReadChunk? || s.scan.Invalidate? {
      SumReadLog(s, ok);
    } else if InConnect(s.scan) {
      ConnectLog(s, ok);
    } else if InLoop(s.scan) {
      LoopLog(s, ok);
    }
  }

  lemma ScanLog(s: State, ok: bool)
    requires Inv(s) && Enabled(s, ScanStep(ok))
    ensures LogFresh(ScanNext(s, ok))
  {
    hide LogFresh, HandOut, DisconnectNext, Enabled, ScanNext, ExitHeldOff, HandlesKept, MutualExclusion;
    var t := ScanNext(s, ok);
    if s.scan.Deliver? && s.scan.i < |s.scanned| && s.connected {
      DeliverLog(s, ok);
    } else if s.scan.Disconnect? {
      DisconnectLog(s, s.scan.at, s.scan.cause, ok);
      SameLog(s, t);
    } else {
      LogUntouched(s, ok);
      SameLog(s, t);
    }
  }

  lemma DeliverLog(s: State, ok: bool)
    requires Inv(s) && s.scan.Deliver? && s.scan.i < |s.scanned| && s.connected
    ensures LogFresh(ScanNext(s, ok))
  {
    hide LogFresh, HandOut, DisconnectNext, ExitHeldOff, HandlesKept, MutualExclusion, Placed;
    var u := s.(scan := Deliver(s.scan.i + 1));
    SameLog(s, u);
    HandedOut(u, s.scanned[s.scan.i], s.session, ok);
  }

  lemma DisconnectLog(s: State, at: Teardown, cause: Cause, ok: bool)
    requires s.scan == Disconnect(at, cause)
    ensures LogSame(s, ScanNext(s, ok))
  {
  }

  lemma OtherLog(s: State, e: Event)
    requires Inv(s) && Enabled(s, e) && !e.ScanStep?
    ensures LogFresh(Next(s, e))
  {
    hide HandOut;
    if e.Copy? {
      HandedOut(s, e.v, s.handler.session, e.good);
      SameLog(HandOut(s, e.v, s.handler.session, e.good), Next(s, e));
    } else if !e.Acknowledge? && !e.InitHook? {
      SameLog(s, Next(s, e));
    }
  }

  lemma InvKept(s: State, e: Event)
    requires Inv(s) && Enabled(s, e)
    ensures Inv(Next(s, e))
  {
    hide HandOut;
    if e.ScanStep? {
      ScanLog(s, e.ok);
      ScanControl(s, e.ok);
      ScanFreshness(s, e.ok);
    } else {
      OtherLog(s, e);
      OtherControl(s, e);
      OtherFreshness(s, e);
    }
  }

  lemma {:induction false} RunKeepsInv(s: State, events: seq<Event>)
    requires Inv(s) && Play(s, events).Some?
    ensures Inv(Play(s, events).value)
  {
    hide Inv, Next, Enabled;
    if events != [] {
      RunKeepsInv(s, events[..|events| - 1]);
      InvKept(Play(s, events[..|events| - 1]).value, events[|events| - 1]);
    }
  }

  lemma ReachableInv(s: State)
    requires Reachable(s)
    ensures Inv(s)
  {
    var events :| Play(START, events) == Some(s);
    RunKeepsInv(START, events);
  }

  // ---------- what holds in every run ----------

  /** Whatever the interleaving: bytes from the shared buffer that reach a record were filled in over the
    very connection that the handler saw when it asked. */
  lemma SessionFreshness(s: State, d: Delivered)
    requires Reachable(s) && d in s.log && d.source == Buffer
    ensures d.made == d.asked
  {
    ReachableInv(s);
  }

  /** Event `e` hands out a value of variable `v`. */
  predicate HandsOut(s: State, e: Event, v: nat)
  {
    match e
    case Copy(u, good) => u == v && Offered(s, v, good)
    case ScanStep(ok) =>
      && s.scan.Deliver? && s.scan.i < |s.scanned| && s.scanned[s.scan.i] == v
      && s.connected && Offered(s, v, ok)
    case _ => false
  }

  /** The session of the last acknowledged write of `v` that no read has shown since, found by looking
    back over the run. */
  function UnreadWrite(events: seq<Event>, v: nat): Option<nat>
  {
    if events == [] then None
    else
      var init, e := events[..|events| - 1], events[|events| - 1];
      var before := Play(START, init);
      if before.None? then None
      else if e == Acknowledge(v) then Some(before.value.session)
      else if HandsOut(before.value, e, v) then None
      else UnreadWrite(init, v)
  }

  lemma ScanPending(s: State, ok: bool, v: nat)
    ensures var t := ScanNext(s, ok);
            if HandsOut(s, ScanStep(ok), v) then v !in t.pending
            else (v in t.pending <==> v in s.pending) && (v in s.pending ==> t.pending[v] == s.pending[v])
  {
    hide DisconnectNext, SumReadNext, ConnectNext;
    if s.scan.Disconnect? {
      DisconnectLog(s, s.scan.at, s.scan.cause, ok);
    } else if !s.scan.Deliver? {
      LogUntouched(s, ok);
    }
  }

  lemma OtherPending(s: State, e: Event, v: nat)
    requires Enabled(s, e) && !e.ScanStep?
    ensures var t := Next(s, e);
            if e == Acknowledge(v) then v in t.pending && t.pending[v] == s.session
            else if HandsOut(s, e, v) then v !in t.pending
            else (v in t.pending <==> v in s.pending) && (v in s.pending ==> t.pending[v] == s.pending[v])
  {
  }

  lemma EventPending(s: State, e: Event, v: nat)
    requires Enabled(s, e)
    ensures var t := Next(s, e);
            if e == Acknowledge(v) then v in t.pending && t.pending[v] == s.session
            else if HandsOut(s, e, v) then v !in t.pending
            else (v in t.pending <==> v in s.pending) && (v in s.pending ==> t.pending[v] == s.pending[v])
  {
    hide HandsOut, ScanNext;
    if e.ScanStep? {
      ScanPending(s, e.ok, v);
    } else {
      OtherPending(s, e, v);
    }
  }

  lemma {:induction false} PendingIsUnread(events: seq<Event>, v: nat)
    requires Play(START, events).Some?
    ensures var s := Play(START, events).value;
            && (v in s.pending <==> UnreadWrite(events, v).Some?)
            && (v in s.pending ==> s.pending[v] == UnreadWrite(events, v).value)
  {
    hide Enabled, Next, HandsOut;
    if events != [] {
      var init, e := events[..|events| - 1], events[|events| - 1];
      PendingIsUnread(init, v);
      EventPending(Play(START, init).value, e, v);
    }
  }

  /** Exactly when a value is of the session it was asked for in, over every run: unless a write
    acknowledged in an earlier session is still unread. */
  lemma FreshIffNothingUnread(events: seq<Event>, e: Event, v: nat)
    requires Play(START, events).Some?
    requires var s := Play(START, events).value; Enabled(s, e) && HandsOut(s, e, v)
    ensures var s := Play(START, events).value;
            && |Next(s, e).log| == |s.log| + 1 && Next(s, e).log[..|s.log|] == s.log
            && var d := Next(s, e).log[|s.log|];
               && d.variable == v && d.asked == s.session
               && (d.made == d.asked <==>
                     !(UnreadWrite(events, v).Some? && UnreadWrite(events, v).value < s.session))
  {
    var s := Play(START, events).value;
    RunKeepsInv(START, events);
    PendingIsUnread(events, v);
    HandsOutOne(s, e, v);
  }

  lemma HandsOutOne(s: State, e: Event, v: nat)
    requires Inv(s) && Enabled(s, e) && HandsOut(s, e, v)
    ensures Next(s, e).log == s.log + [if v in s.pending then Delivered(v, s.session, LastWritten, s.pending[v])
                                       else Delivered(v, s.session, Buffer, s.session)]
  {
    hide DisconnectNext, ExitHeldOff, HandlesKept;
  }

  /** No sum-read is sent unless connected, with filled tables and every variable resolved. (That its rows
    then name live handles is `TablesAreLive` of module Drivers.) */
  lemma NoStaleRequest(s: State)
    requires Reachable(s) && s.scan.ReadChunk?
    ensures s.connected && s.tables && s.held == Everything
  {
    ReachableInv(s);
  }

  /** Between iterations the connection stands exactly when the tables are filled, no handle is held
    without a connection (unless shutting down), and every usable buffer is of this session. */
  lemma AtLoopHead(s: State)
    requires Reachable(s) && s.scan == Head
    ensures s.connected == s.tables
    ensures s.tables ==> s.held == Everything
    ensures !s.connected && !s.exitCalled ==> s.held == Nothing
    ensures s.connected ==> AllFresh(s)
  {
    ReachableInv(s);
  }

  /** ADSConnect never takes its "already connected" way out. */
  lemma NeverAlreadyConnected(s: State)
    requires Reachable(s) && s.scan == Guards
    ensures !s.connected && !s.tables
  {
    ReachableInv(s);
  }

  /** A connect that reports success leaves every handle held and every buffer filled over the new connection. */
  lemma ConnectedMeansFilled(s: State, ok: bool)
    requires Reachable(s) && s.scan == ReadChunk(|s.chunks|, InitialRead)
    ensures var t := ScanNext(s, ok);
            && t.scan == Head && t.lock == Free && t.connected && t.tables && t.held == Everything
            && forall k | 0 <= k < |t.chunks| :: t.chunks[k] == Chunk(true, t.session)
  {
    ReachableInv(s);
  }

  /** A device failure in a sum-read, at whichever chunk, leaves no buffer usable. */
  lemma FailedReadInvalidatesAll(s: State, ok: bool)
    requires Reachable(s) && s.scan.Invalidate? && s.scan.k >= |s.chunks|
    ensures forall k | 0 <= k < |s.chunks| :: !ScanNext(s, ok).chunks[k].usable
  {
    ReachableInv(s);
  }

  lemma EndsClean(s: State)
    requires Reachable(s) && s.scan == Done
    ensures !s.connected && !s.tables
  {
    ReachableInv(s);
  }

  lemma LockIsExclusive(s: State)
    requires Reachable(s)
    ensures !(ScanHolds(s.scan) && s.handler != Idle)
    ensures s.lock == Free <==> !ScanHolds(s.scan) && s.handler == Idle
  {
    ReachableInv(s);
  }

  lemma ReachableNext(s: State, e: Event)
    requires Reachable(s) && Enabled(s, e)
    ensures Reachable(Next(s, e))
  {
    var events :| Play(START, events) == Some(s);
    assert (events + [e])[..|events|] == events;
    assert Play(START, events + [e]) == Some(Next(s, e));
  }

  lemma Happens(s: State, e: Event) returns (t: State)
    requires Reachable(s) && Enabled(s, e)
    ensures Reachable(t) && t == Next(s, e)
  {
    ReachableNext(s, e);
    t := Next(s, e);
  }

  lemma ScanAlone(s: State, ok: bool) returns (t: State)
    requires Reachable(s) && s.handler == Idle && s.scan != Done
    ensures t == ScanNext(s, ok) && Reachable(t)
  {
    hide ScanNext;
    ReachableInv(s);
    ReachableNext(s, ScanStep(ok));
    t := ScanNext(s, ok);
  }

  /** ADSDisconnect from beginning to end. */
  lemma TearsDown(s: State) returns (t: State)
    requires Reachable(s) && s.handler == Idle && s.scan.Disconnect? && s.scan.at == Deinitialize
    ensures Reachable(t) && t.handler == Idle
    ensures !s.exitCalled && !s.connected ==> t == Return(s.(tables := false), s.scan.cause)
    ensures !s.exitCalled && s.connected ==>
              t == Return(s.(tables := false, held := Nothing, connected := false), s.scan.cause)
    ensures s.exitCalled ==> t == Return(s.(tables := false, connected := false), s.scan.cause)
  {
    hide Reachable;
    t := ScanAlone(s, true);
    t := ScanAlone(t, true);
    if s.exitCalled {
      t := ScanAlone(t, true);
    } else if s.connected {
      t := ScanAlone(t, true);
      t := ScanAlone(t, true);
      t := ScanAlone(t, true);
    }
  }

  function Filled(s: State): seq<Chunk>
  {
    seq(|s.chunks|, i => Chunk(true, s.session))
  }

  function Invalidated(chunks: seq<Chunk>): seq<Chunk>
  {
    seq(|chunks|, i requires 0 <= i < |chunks| => chunks[i].(usable := false))
  }

  lemma Answered(s: State)
    requires s.scan.ReadChunk? && s.scan.k < |s.chunks|
    ensures ScanNext(s, true)
         == s.(chunks := s.chunks[s.scan.k := Chunk(true, s.session)], scan := ReadChunk(s.scan.k + 1, s.scan.cause))
    ensures ScanNext(s, false) == s.(scan := Invalidate(0, s.scan.cause))
  {
  }

  lemma AllRead(s: State)
    requires s.scan.ReadChunk? && s.scan.k == |s.chunks|
    ensures ScanNext(s, true) == if s.scan.cause == InitialRead then Unheld(s) else s.(scan := WantDeliver)
  {
  }

  /** A sum-read in which the device answers every request. */
  lemma {:induction false} ReadsAll(s: State, from: nat) returns (t: State)
    requires Reachable(s) && s.handler == Idle && s.scan.ReadChunk? && s.scan.k == from <= |s.chunks|
    requires forall i | 0 <= i < from :: s.chunks[i] == Chunk(true, s.session)
    ensures Reachable(t)
    ensures t == s.(chunks := Filled(s), scan := ReadChunk(|s.chunks|, s.scan.cause))
    decreases |s.chunks| - from
  {
    hide Reachable, ScanNext;
    if from == |s.chunks| {
      t := s;
      assert s.chunks == Filled(s);
    } else {
      Answered(s);
      t := ScanAlone(s, true);
      t := ReadsAll(t, from + 1);
    }
  }

  lemma {:induction false} InvalidatesAll(s: State, from: nat) returns (t: State)
    requires Reachable(s) && s.handler == Idle && s.scan.Invalidate? && s.scan.k == from <= |s.chunks|
    requires forall i | 0 <= i < from :: !s.chunks[i].usable
    ensures Reachable(t)
    ensures t == s.(chunks := Invalidated(s.chunks), scan := Disconnect(Deinitialize, s.scan.cause))
    decreases |s.chunks| - from
  {
    hide Reachable, DisconnectNext;
    t := ScanAlone(s, true);
    if from == |s.chunks| {
      assert s.chunks == Invalidated(s.chunks);
    } else {
      assert Invalidated(t.chunks) == Invalidated(s.chunks);
      t := InvalidatesAll(t, from + 1);
    }
  }

  /** A sum-read that the device refuses. */
  lemma ReadFails(s: State) returns (t: State)
    requires Reachable(s) && s.handler == Idle && s.scan.ReadChunk? && s.scan.k == 0 < |s.chunks|
    ensures Reachable(t)
    ensures t == s.(chunks := Invalidated(s.chunks), scan := Disconnect(Deinitialize, s.scan.cause))
  {
    hide Reachable, ScanNext;
    Answered(s);
    t := ScanAlone(s, false);
    t := InvalidatesAll(t, 0);
  }

  /** A handler that holds the lock asks for the connection and, if it stands, reads variable `v`. */
  lemma HandlerReads(s: State, v: nat, good: bool) returns (t: State)
    requires Reachable(s) && s.handler == Locked
    ensures Reachable(t)
    ensures t == if s.connected && v < |s.places| then HandOut(s, v, s.session, good) else s
  {
    hide Reachable, HandOut, ScanNext;
    t := s;
    if s.connected && v < |s.places| {
      t := Happens(s, Check);
      t := Happens(t, Copy(v, good));
      SameHandOut(s, s.(handler := Passed(s.session)), v, good);
    }
  }

  /** One I/O Intr variable. */
  lemma DeliversOne(s: State, i: nat, ok: bool) returns (t: State)
    requires Reachable(s) && s.handler == Idle && s.scan == Deliver(i) && i < |s.scanned|
    ensures Reachable(t) && t == DeliverNext(s, i, ok)
    ensures t == HandOut(s.(scan := Deliver(i + 1)), s.scanned[i], s.session, ok)
  {
    hide Reachable, HandOut, ScanNext;
    t := Delivering(s, ok);
    DeliversConnected(s);
  }

  lemma DeliversConnected(s: State)
    requires Reachable(s) && s.scan.Deliver?
    ensures s.connected
  {
    ReachableInv(s);
  }

  lemma OneMoreDelivery(s: State, goods: seq<bool>, ok: bool)
    ensures Deliveries(s, goods + [ok]) == DeliverNext(Deliveries(s, goods), |goods|, ok)
  {
    assert (goods + [ok])[..|goods|] == goods;
  }

  lemma SameHandOut(s: State, t: State, v: nat, good: bool)
    requires t == s.(handler := t.handler, lock := t.lock)
    ensures HandOut(t, v, s.session, good) == HandOut(s, v, s.session, good).(handler := t.handler, lock := t.lock)
  {
  }

  /** The guards of ADSConnect. */
  lemma Guarded(s: State) returns (t: State)
    requires Reachable(s) && s.handler == Idle && s.scan == Guards
    ensures Reachable(t) && !s.connected && !s.tables
    ensures t == if s.exitCalled || !s.initialized then Failed(s) else s.(scan := Open)
  {
    NeverAlreadyConnected(s);
    hide Reachable;
    t := ScanAlone(s, true);
  }

  /** From the loop head to taking the lock for ADSConnect. */
  lemma GoesToConnect(s: State) returns (t: State)
    requires Reachable(s) && s.handler == Idle && s.scan == Sampled(s.connected)
    requires s.initialized && !(s.connected && s.tables)
    ensures Reachable(t)
    ensures t == s.(lock := ByScan, scan := Guards)
  {
    LockIsExclusive(s);
    hide Reachable;
    t := ScanAlone(s, true);
    t := ScanAlone(t, true);
  }

  lemma PollsConnected(s: State)
    requires Reachable(s) && (s.scan == DeviceInfo || s.scan == DeviceState)
    ensures s.connected && s.tables
  {
    ReachableInv(s);
  }

  lemma OutsideLoop(s: State)
    ensures s.scan == Head && s.exitCalled ==> ScanNext(s, true) == s.(scan := Left)
    ensures s.scan == Left ==> ScanNext(s, true) == s.(scan := if s.connected then WantClose else Done)
    ensures s.scan == WantClose ==> ScanNext(s, true) == s.(lock := ByScan, scan := Disconnect(Deinitialize, Leaving))
  {
  }

  /** The end of the loop, up to the last disconnect. */
  lemma Leaves(s: State) returns (t: State)
    requires Reachable(s) && s.handler == Idle && s.scan == Head && s.exitCalled
    ensures Reachable(t)
    ensures t == if s.connected then s.(lock := ByScan, scan := Disconnect(Deinitialize, Leaving)) else s.(scan := Done)
  {
    hide Reachable, ScanNext;
    OutsideLoop(s);
    t := ScanAlone(s, true);
    OutsideLoop(t);
    t := ScanAlone(t, true);
    if s.connected {
      OutsideLoop(t);
      t := ScanAlone(t, true);
    }
  }

  lemma BeforeAllocation(s: State)
    requires Reachable(s) && !s.initialized
    ensures !s.connected && !s.tables && s.held == Nothing && OutsideConnect(s.scan)
    ensures s.places == [] && s.scanned == [] && s.pending == map[]
  {
    ReachableInv(s);
  }

  lemma Allocates(s: State, n: nat, places: seq<nat>, scanned: seq<nat>) returns (t: State)
    requires Reachable(s) && s.handler == Idle && !s.initialized
    requires forall v | 0 <= v < |places| :: places[v] < n
    requires forall i | 0 <= i < |scanned| :: scanned[i] < |places|
    ensures Reachable(t)
    ensures t == s.(initialized := true, places := places, scanned := scanned, chunks := seq(n, i => Chunk(false, 0)))
  {
    ReachableInv(s);
    ReachableNext(s, InitHook(n, places, scanned));
    t := Next(s, InitHook(n, places, scanned));
  }

  /** Resolving both lists, or failing at one of them. */
  lemma ResolvesLists(s: State, ok: bool) returns (t: State)
    requires Reachable(s) && s.handler == Idle && s.scan == ResolveReads
    ensures Reachable(t)
    ensures t == if ok then s.(held := Everything, scan := FillTables) else Failed(s.(held := Part))
  {
    hide Reachable;
    t := ScanAlone(s, ok);
    if ok {
      t := ScanAlone(t, true);
    }
  }

  lemma TablesFilled(s: State)
    requires Reachable(s) && s.scan == FillTables
    ensures ScanNext(s, true) == s.(tables := true, scan := ReadChunk(0, InitialRead))
  {
    ReachableInv(s);
  }

  /** A whole sum-read, as far as the next thing done outside it. */
  lemma SumReads(s: State, ok: bool) returns (t: State)
    requires Reachable(s) && s.handler == Idle && s.scan.ReadChunk? && s.scan.k == 0 && (ok || s.chunks != [])
    ensures Reachable(t)
    ensures ok ==>
              t == (if s.scan.cause == InitialRead then Unheld(s) else s.(scan := WantDeliver)).(chunks := Filled(s))
    ensures !ok ==> t == s.(chunks := Invalidated(s.chunks), scan := Disconnect(Deinitialize, s.scan.cause))
  {
    hide Reachable, ScanNext;
    if ok {
      t := ReadsAll(s, 0);
      AllRead(t);
      t := ScanAlone(t, true);
    } else {
      t := ReadFails(s);
    }
  }

  /** Before, between and after the values of the I/O Intr variables. */
  lemma Delivering(s: State, ok: bool) returns (t: State)
    requires Reachable(s) && s.handler == Idle && (s.scan == WantDeliver || s.scan.Deliver?)
    ensures Reachable(t)
    ensures s.scan == WantDeliver ==> t == s.(lock := ByScan, scan := Deliver(0))
    ensures s.scan.Deliver? && s.scan.i >= |s.scanned| ==> t == Unheld(s)
    ensures s.scan.Deliver? && s.scan.i < |s.scanned| ==>
              t == HandOut(s.(scan := Deliver(s.scan.i + 1)), s.scanned[s.scan.i], s.session, ok)
  {
    LockIsExclusive(s);
    ReachableInv(s);
    hide Reachable, HandOut, DisconnectNext;
    t := ScanAlone(s, ok);
  }

  predicate AtRest(s: State)
  {
    s.scan == Head && s.lock == Free && s.handler == Idle && s.initialized && !s.exitCalled
  }

  /** From the loop head into ADSConnect, up to the open connection. */
  lemma Opens(s: State) returns (t: State)
    requires Reachable(s) && AtRest(s) && !s.connected
    ensures Reachable(t)
    ensures t == s.(connected := true, session := s.session + 1, lock := ByScan, scan := ResolveReads)
  {
    hide Reachable;
    t := ScanAlone(s, true);
    t := ScanAlone(t, true);
    t := ScanAlone(t, true);
    t := ScanAlone(t, true);
    t := ScanAlone(t, true);
  }

  /** The rest of a successful ADSConnect, for a single chunk. */
  lemma Connects(s: State) returns (t: State)
    requires Reachable(s) && s.scan == ResolveReads && |s.chunks| == 1 && !s.tables && s.handler == Idle
    ensures Reachable(t)
    ensures t == s.(tables := true, held := Everything, chunks := [Chunk(true, s.session)], lock := Free, scan := Head)
  {
    hide Reachable;
    t := ScanAlone(s, true);
    t := ScanAlone(t, true);
    t := ScanAlone(t, true);
    t := ScanAlone(t, true);
    t := ScanAlone(t, true);
  }

  /** An iteration in which the device does not answer the request for its name and version. */
  lemma LosesDevice(s: State) returns (t: State)
    requires Reachable(s) && AtRest(s) && s.connected && s.tables
    ensures Reachable(t)
    ensures t == s.(connected := false, tables := false, held := Nothing)
  {
    hide Reachable;
    t := ScanAlone(s, true);
    t := ScanAlone(t, true);
    t := ScanAlone(t, false);
    t := ScanAlone(t, true);
    t := ScanAlone(t, true);
    t := ScanAlone(t, true);
    t := ScanAlone(t, true);
    t := ScanAlone(t, true);
  }

  /** A handler writes variable 0. */
  lemma Writes(s: State) returns (t: State)
    requires Reachable(s) && AtRest(s) && s.places == [0]
    ensures Reachable(t) && t == s.(pending := s.pending[0 := s.session])
  {
    hide Reachable, ScanNext;
    t := Happens(s, Lock);
    t := Happens(t, Acknowledge(0));
    t := Happens(t, Unlock);
  }

  /** A handler reads it. */
  lemma Reads(s: State) returns (t: State)
    requires Reachable(s) && AtRest(s) && s.connected && s.places == [0] && |s.chunks| == 1 && s.chunks[0].usable
    requires 0 in s.pending
    ensures Reachable(t)
    ensures t.log == s.log + [Delivered(0, s.session, LastWritten, s.pending[0])]
  {
    hide Reachable, ScanNext;
    t := Happens(s, Lock);
    t := Happens(t, Check);
    t := Happens(t, Copy(0, true));
  }

  /** A value from before the reconnect can reach a record: written and acknowledged in session 1, not
    read until the connection was lost and opened again, it is what the first good read returns. */
  lemma UnreadWriteOutlivesSession() returns (s: State)
    ensures Reachable(s) && Delivered(0, 2, LastWritten, 1) in s.log
  {
    assert Play(START, []) == Some(START);
    s := Happens(START, InitHook(1, [0], []));
    hide Reachable, Next;
    s := Opens(s);
    s := Connects(s);
    s := Writes(s);
    s := LosesDevice(s);
    s := Opens(s);
    s := Connects(s);
    s := Reads(s);
    assert s.log[0] in s.log;
  }

  /** Why handlers must ask for the connection first: buffers of an earlier session stay usable
    after a disconnect, and through a reconnect until its first sum-read. */
  lemma OldBuffersStayUsable() returns (apart: State, again: State)
    ensures Reachable(apart) && !apart.connected && apart.chunks == [Chunk(true, 1)]
    ensures Reachable(again) && again.connected && again.chunks == [Chunk(true, 1)] && again.session == 2
  {
    assert Play(START, []) == Some(START);
    var ready := Next(START, InitHook(1, [0], []));
    ReachableNext(START, InitHook(1, [0], []));
    hide Reachable;
    var up := Opens(ready);
    up := Connects(up);
    apart := LosesDevice(up);
    again := Opens(apart);
  }

  // ---------- never stuck ----------

  function TeardownLeft(at: Teardown): nat
  {
    match at case Deinitialize => 5 case Look => 4 case UnresolveReads => 3 case UnresolveWrites => 2 case Close => 1
  }

  /** A bound on the scan thread's steps until it is back at the loop head, or for good outside. */
  function StepsLeft(s: State): nat
  {
    var n, m := |s.chunks|, |s.scanned|;
    match s.scan
    case Done => 0
    case Disconnect(at, cause) =>
      TeardownLeft(at) + (match cause case Leaving => 0 case InitialRead => 13 case _ => 8)
    case WantClose => 6
    case Left => 7
    case Head => 8
    case Deliver(i) => 9 + m - Min(i, m)
    case WantDeliver => 10 + m
    case Invalidate(k, _) => 19 + n - Min(k, n)
    case ReadChunk(k, _) => 20 + m + n + n - Min(k, n)
    case FillTables | DeviceState => 21 + m + n + n
    case ResolveWrites | DeviceInfo => 22 + m + n + n
    case ResolveReads => 23 + m + n + n
    case Open => 24 + m + n + n
    case Guards => 25 + m + n + n
    case WantConnect => 26 + m + n + n
    case Sampled(_) => 27 + m + n + n
  }

  lemma DisconnectRunsOut(s: State, at: Teardown, cause: Cause)
    requires s.scan == Disconnect(at, cause)
    ensures StepsLeft(DisconnectNext(s, at, cause)) < StepsLeft(s)
  {
  }

  lemma SumReadRunsOut(s: State, ok: bool)
    requires s.scan.ReadChunk? || s.scan.Invalidate?
    ensures StepsLeft(SumReadNext(s, ok)) < StepsLeft(s)
  {
  }

  lemma ConnectRunsOut(s: State, ok: bool)
    requires InConnect(s.scan)
    ensures StepsLeft(ConnectNext(s, ok)) < StepsLeft(s)
  {
  }

  lemma LoopRunsOut(s: State, ok: bool)
    requires InLoop(s.scan) && s.scan != Done && (s.scan == Head ==> s.exitCalled)
    ensures StepsLeft(LoopNext(s, ok)) < StepsLeft(s)
  {
  }

  lemma DeliverRunsOut(s: State, i: nat, ok: bool)
    requires s.scan == Deliver(i)
    ensures StepsLeft(DeliverNext(s, i, ok)) < StepsLeft(s)
  {
    hide HandOut;
  }

  /** Every step brings the scan thread closer to the loop head and, once shutdown is called, to its end. */
  lemma StepsRunOut(s: State, ok: bool)
    requires s.scan != Done && (s.scan == Head ==> s.exitCalled)
    ensures StepsLeft(ScanNext(s, ok)) < StepsLeft(s)
  {
    hide LoopNext, DeliverNext, ConnectNext, SumReadNext, DisconnectNext, StepsLeft;
    if InLoop(s.scan) {
      LoopRunsOut(s, ok);
    } else if InConnect(s.scan) {
      ConnectRunsOut(s, ok);
    } else if s.scan.Deliver? {
      DeliverRunsOut(s, s.scan.i, ok);
    } else if s.scan.ReadChunk? || s.scan.Invalidate? {
      SumReadRunsOut(s, ok);
    } else if s.scan.Disconnect? {
      DisconnectRunsOut(s, s.scan.at, s.scan.cause);
    }
  }

  /** The scan thread waits for nothing but a handler that holds the lock and is free to release it. */
  lemma NeverStuck(s: State, ok: bool)
    requires Reachable(s) && s.scan != Done
    ensures Enabled(s, ScanStep(ok)) || (Enabled(s, Unlock) && Enabled(Next(s, Unlock), ScanStep(ok)))
  {
    ReachableInv(s);
  }

  function ScanSteps(events: seq<Event>): nat
  {
    if events == [] then 0
    else ScanSteps(events[..|events| - 1]) + if events[|events| - 1].ScanStep? then 1 else 0
  }

  /** The same bound once shutdown is called: ADSConnect then gives up at its guards. It does not depend on
    whether the buffers are allocated in the meantime. */
  function LastSteps(s: State): nat
  {
    match s.scan
    case Guards => 14
    case WantConnect => 15
    case Sampled(false) => 16
    case _ => StepsLeft(s)
  }

  lemma LastStepsRunOut(s: State, ok: bool)
    requires Inv(s) && s.exitCalled && s.scan != Done
    ensures LastSteps(ScanNext(s, ok)) < LastSteps(s)
  {
    if s.scan.Guards? || s.scan.WantConnect? || s.scan == Sampled(false) {
      hide Freshness, LogFresh, ExitHeldOff, MutualExclusion, SumReadNext, DeliverNext, DisconnectNext;
    } else {
      StepsRunOut(s, ok);
      NoMoreThanStepsLeft(ScanNext(s, ok));
    }
  }

  lemma NoMoreThanStepsLeft(s: State)
    ensures LastSteps(s) <= StepsLeft(s)
  {
  }

  lemma SameLastSteps(s: State, t: State)
    requires s.scan == t.scan
    requires OutsideConnect(s.scan) || (|s.chunks| == |t.chunks| && |s.scanned| == |t.scanned|)
    ensures LastSteps(s) == LastSteps(t)
  {
  }

  lemma OthersLeaveLastSteps(s: State, e: Event)
    requires Inv(s) && Enabled(s, e) && !e.ScanStep?
    ensures LastSteps(Next(s, e)) == LastSteps(s)
  {
    hide HandOut, Freshness, LogFresh, ExitHeldOff, MutualExclusion, Placed, LastSteps, StepsLeft;
    SameLastSteps(s, Next(s, e));
  }

  lemma ShuttingDown(s: State, e: Event)
    requires Inv(s) && s.exitCalled && Enabled(s, e)
    ensures var t := Next(s, e);
            t.exitCalled && LastSteps(t) + (if e.ScanStep? then 1 else 0) <= LastSteps(s)
  {
    hide HandOut, LastSteps, Inv;
    if e.ScanStep? {
      LastStepsRunOut(s, e.ok);
    } else {
      OthersLeaveLastSteps(s, e);
    }
  }

  /** Once shutdown is called, the scan thread ends within a bounded number of its own steps, whatever the
    device answers and whatever the handlers, or an allocation, do in between. */
  lemma {:induction false} ShutdownEnds(s: State, events: seq<Event>)
    requires Reachable(s) && s.exitCalled && Play(s, events).Some?
    ensures var t := Play(s, events).value;
            t.exitCalled && ScanSteps(events) + LastSteps(t) <= LastSteps(s)
    ensures ScanSteps(events) >= LastSteps(s) ==> Play(s, events).value.scan == Done
  {
    hide Reachable, LastSteps, Next, Enabled, Inv;
    if events != [] {
      var init := events[..|events| - 1];
      ShutdownEnds(s, init);
      ReachableInv(s);
      RunKeepsInv(s, init);
      ShuttingDown(Play(s, init).value, events[|events| - 1]);
    }
    NoStepsLeft(Play(s, events).value);
  }

  lemma NoStepsLeft(s: State)
    ensures LastSteps(s) == 0 ==> s.scan == Done
  {
  }
}
