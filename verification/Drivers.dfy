/** The driver: connecting, scanning and disconnecting (ADSPortDriver.cpp). */
module Drivers {
  import opened Types
  import opened Errors
  import opened AddressText
  import opened Connections
  import opened Variables
  import opened Packing
  import opened SumReadRequests
  import opened Wire
  import L = Lifecycle
  import R = Readback
  import D = Digital

  const ASYN_ERROR := 3

  function Addresses(vars: seq<ADSVariable>): (addrs: seq<ADSAddress>)
    ensures |addrs| == |vars| && forall i | 0 <= i < |vars| :: addrs[i] == vars[i].addr
  {
    seq(|vars|, i requires 0 <= i < |vars| => vars[i].addr)
  }

  function Addressed(vars: seq<ADSVariable>): set<ADSAddress>
  {
    set v | v in vars :: v.addr
  }

  lemma AddressesOf(vars: seq<ADSVariable>)
    ensures forall a :: a in Addresses(vars) <==> a in Addressed(vars)
  {
    forall a | a in Addressed(vars) ensures a in Addresses(vars) {
      var v :| v in vars && v.addr == a;
      var i :| 0 <= i < |vars| && vars[i] == v;
      assert Addresses(vars)[i] == a;
    }
  }

  /** Those of `vars` that records write to. */
  function Writables(vars: seq<ADSVariable>): (written: seq<ADSVariable>)
    ensures forall v | v in written :: v in vars && v.addr.spec.operation == Write
    ensures forall v | v in vars && v.addr.spec.operation == Write :: v in written
  {
    if vars == [] then []
    else
      var init, v := Writables(vars[..|vars| - 1]), vars[|vars| - 1];
      if v.addr.spec.operation == Write then init + [v] else init
  }

  /** The place of the first `x` in a list, or the list's length if there is none. */
  function IndexIn<T(==)>(list: seq<T>, x: T): (n: nat)
    ensures if x in list then n < |list| && list[n] == x else n == |list|
  {
    if list == [] || list[0] == x then 0 else 1 + IndexIn(list[1..], x)
  }

  /** The numbers of the variables' buffers. */
  ghost function PlacesIn(buffers: seq<SumReadBuffer>, vars: seq<ADSVariable>): (places: seq<nat>)
    reads (set v | v in vars)`bufferReader
    ensures |places| == |vars|
    ensures forall i | 0 <= i < |vars| :: places[i] == IndexIn<SumReadBuffer?>(buffers, vars[i].bufferReader.buffer)
  {
    if vars == [] then []
    else
      PlacesIn(buffers, vars[..|vars| - 1]) + [IndexIn<SumReadBuffer?>(buffers, vars[|vars| - 1].bufferReader.buffer)]
  }

  class ADSPortDriver {
    const adsConnection: Connection
    const sumRead: SumReadRequest
    var exitCalled: bool
    var initialized: bool
    var adsReadVars: seq<ADSVariable>
    var adsWriteVars: seq<ADSVariable>
    var interruptVars: seq<ADSVariable>  // the variables of I/O Intr records
    ghost var known: set<ADSVariable>    // all these variables
    ghost var all: set<ADSAddress>       // and their addresses
    ghost var at: L.State                // where a run of the interleaving machine stands
    ghost var order: seq<SumReadBuffer>  // the buffers, numbered as that machine numbers them

    constructor (sumBufferSize: uint16, device: AdsDevice)
      requires sumBufferSize > 0 && device.live == multiset{} && device.releases == []
      ensures Valid() && Settled() && InStep() && at == L.START && fresh(adsConnection) && fresh(sumRead)
      ensures adsConnection.device == device
      ensures !exitCalled && !initialized && !adsConnection.IsConnected() && known == {} && all == {}
      ensures adsReadVars == [] && adsWriteVars == [] && interruptVars == []
    {
      var connection := new Connection(device);
      adsConnection := connection;
      sumRead := new SumReadRequest(sumBufferSize, connection);
      exitCalled, initialized := false, false;
      adsReadVars, adsWriteVars, interruptVars, known, all := [], [], [], {}, {};
      at, order := L.START, [];
      new;
      hide *;
      BlankDriver();
    }

    lemma BlankDriver()
      requires sumRead.conn == adsConnection && sumRead.Valid() && !sumRead.isAllocated && sumRead.chunkSet == {}
      requires sumRead.bufferSet == {}
      requires adsConnection.adsPort == 0 && adsConnection.session == 0 && adsConnection.leaked == multiset{}
      requires adsConnection.device.live == multiset{} && adsConnection.device.releases == []
      requires adsReadVars == [] && adsWriteVars == [] && interruptVars == [] && known == {} && all == {}
      requires !exitCalled && !initialized && at == L.START && order == []
      ensures Valid() && Settled() && InStep() && !adsConnection.IsConnected()
    {
      hide SumReadRequest.Kept, Pack, OnPort, LengthsMatch, L.Next, L.Enabled;
      assert L.Play(L.START, []) == Some(L.START);
    }

    /** The lists and the ghost set name the same variables; those allocated are read variables. */
    ghost predicate Registered()
      reads this`adsReadVars, this`adsWriteVars, this`known, this`all, sumRead`listed
    {
      && known == (set v | v in adsReadVars) + (set v | v in adsWriteVars)
      && all == Addressed(adsReadVars) + Addressed(adsWriteVars)
      && (forall v | v in sumRead.listed :: v in adsReadVars)
      && (forall v | v in adsWriteVars :: v.addr.spec.operation == Write)
    }

    /** Every variable uses this driver's connection, and only allocated ones have a position in a buffer. */
    ghost predicate NoStrays()
      reads this`known, sumRead`listed, known`conn, known`bufferReader
    {
      forall v | v in known ::
        v.conn == adsConnection && (v in sumRead.listed || v.bufferReader == EMPTY_BUFFER_DATA_POSITION)
    }

    /** The parts fit together: lists, request and handles. */
    ghost predicate Coherent()
      reads this`adsReadVars, this`adsWriteVars, this`known, this`all
      reads sumRead, sumRead.chunkSet`variables, sumRead.chunkSet`requestBuffer, sumRead.bufferSet
      reads (set c | c in sumRead.chunkSet :: c.dataBuffer)`buffer
      reads (set c | c in sumRead.chunkSet :: c.dataBuffer)`prevDataBuffer
      reads (set v | v in sumRead.listed)`bufferReader
      reads known`conn, known`bufferReader
      reads adsConnection`leaked, adsConnection.device`live, adsConnection.device`releases, all
      reads set c, v | c in sumRead.chunkSet && v in c.variables :: v.addr
    {
      && sumRead.conn == adsConnection
      && Registered() && NoStrays() && sumRead.Valid() && sumRead.Slotted(sumRead.listed)
      && adsConnection.Accounted(all)
      && (adsConnection.leaked == multiset{} <==> AllAcknowledged(adsConnection.device.releases))
      && (sumRead.isInitialized ==> sumRead.TablesCurrent())
    }

    ghost predicate Valid()
      reads this`initialized, this`adsReadVars, this`adsWriteVars, this`known, this`all
      reads sumRead, sumRead.chunkSet`variables, sumRead.chunkSet`requestBuffer, sumRead.bufferSet
      reads (set c | c in sumRead.chunkSet :: c.dataBuffer)`buffer
      reads (set c | c in sumRead.chunkSet :: c.dataBuffer)`prevDataBuffer
      reads (set v | v in sumRead.listed)`bufferReader
      reads known`conn, known`bufferReader
      reads adsConnection`adsPort, adsConnection`leaked, adsConnection.device`live
      reads adsConnection.device`releases, all
      reads set c, v | c in sumRead.chunkSet && v in c.variables :: v.addr
    {
      && Coherent()
      && (initialized <==> sumRead.isAllocated)
      && (adsConnection.IsConnected() ==> initialized)
    }

    /** Every buffer was filled over the connection that stands. */
    ghost predicate AllFresh()
      reads sumRead`chunkSet, sumRead.chunkSet`answeredFrom, sumRead.chunkSet`requestBuffer
      reads sumRead.conn`session, sumRead.conn.device`answers
      reads set c | c in sumRead.chunkSet :: c.dataBuffer
      reads set c | c in sumRead.chunkSet && c.dataBuffer.buffer != null :: c.dataBuffer.buffer
    {
      forall c | c in sumRead.chunkSet :: sumRead.Fresh(c)
    }

    /** Every buffer holds what the device answered after the first `from` answers it gave. */
    ghost predicate FilledSince(from: nat)
      reads sumRead`chunkSet, sumRead.chunkSet`answeredFrom, sumRead.chunkSet`requestBuffer
      reads sumRead.conn`session, sumRead.conn.device`answers
      reads set c | c in sumRead.chunkSet :: c.dataBuffer
      reads set c | c in sumRead.chunkSet && c.dataBuffer.buffer != null :: c.dataBuffer.buffer
    {
      forall c | c in sumRead.chunkSet :: sumRead.FreshSince(c, from)
    }

    lemma SinceEarlier(from: nat, later: nat)
      requires from <= later
      ensures FilledSince(later) ==> FilledSince(from)
    {
      hide ReadRequestChunk.Filled;
    }

    /** What holds at every head of the scan loop. */
    ghost predicate Settled()
      reads *
    {
      && (adsConnection.IsConnected() <==> sumRead.isInitialized)
      && (sumRead.isInitialized ==> AllFresh())
      && (!adsConnection.IsConnected() && !exitCalled ==> Resolved(all) == {})
    }

    /** `order` lists the buffers; the machine of module Lifecycle has as many chunks. */
    ghost predicate Numbered(n: nat)
      reads this`order, sumRead`bufferSet
    {
      sumRead.bufferSet == (set b | b in order) && |order| == n
    }

    /** The machine's chunks are the buffers' states and sessions. */
    ghost predicate BuffersMatch(chunks: seq<L.Chunk>)
      reads this`order, sumRead`bufferSet, (set b | b in order)`bufferState, (set b | b in order)`session
      ensures BuffersMatch(chunks) ==> Numbered(|chunks|)
    {
      && Numbered(|chunks|)
      && forall k | 0 <= k < |order| ::
           && (chunks[k].usable <==> order[k].bufferState == SumReadBufferState.Valid)
           && (chunks[k].usable ==> chunks[k].stamp == order[k].session)
    }

    lemma MatchFilled(s: L.State)
      requires Numbered(|s.chunks|)
      requires forall b | b in sumRead.bufferSet :: b.bufferState == SumReadBufferState.Valid && b.session == s.session
      ensures BuffersMatch(L.Filled(s))
    {
      assert forall k | 0 <= k < |order| :: order[k] in sumRead.bufferSet;
    }

    lemma MatchNone(chunks: seq<L.Chunk>)
      requires Numbered(|chunks|) && sumRead.bufferSet == {}
      ensures BuffersMatch(chunks)
    {
      assert forall k | 0 <= k < |order| :: order[k] in sumRead.bufferSet;
    }

    lemma MatchUnfilled()
      requires sumRead.bufferSet == set b | b in order
      requires forall b | b in sumRead.bufferSet :: b.bufferState == Invalid
      ensures BuffersMatch(seq(|order|, i => L.Chunk(false, 0)))
    {
      assert forall k | 0 <= k < |order| :: order[k] in sumRead.bufferSet;
    }

    lemma MatchInvalidated(chunks: seq<L.Chunk>)
      requires Numbered(|chunks|)
      requires forall b | b in sumRead.bufferSet :: b.bufferState == Invalid
      ensures BuffersMatch(L.Invalidated(chunks))
      ensures sumRead.bufferSet != {} ==> chunks != []
    {
      assert forall k | 0 <= k < |order| :: order[k] in sumRead.bufferSet;
    }

    /** The machine's word for the handles held is true. */
    ghost predicate HandlesMatch(held: L.Held)
      reads this`all, all, sumRead`listed, set v | v in sumRead.listed :: v.addr
    {
      && (held == L.Nothing ==> Resolved(all) == {})
      && (held == L.Everything ==> forall v | v in sumRead.listed :: v.addr.nameIsResolved)
    }

    /** Everything in which the driver shows state `s` of the interleaving machine, but the buffers and
      the pending values. */
    ghost predicate ControlMatches(s: L.State)
      reads this`exitCalled, this`initialized, this`all, adsConnection`adsPort, adsConnection`session
      reads sumRead`isInitialized, all, sumRead`listed, set v | v in sumRead.listed :: v.addr
    {
      && L.Reachable(s)
      && s.exitCalled == exitCalled && s.initialized == initialized
      && s.connected == adsConnection.IsConnected() && s.session == adsConnection.session
      && s.tables == sumRead.isInitialized
      && HandlesMatch(s.held)
    }

    /** Variables are numbered by their place in the allocated list. */
    ghost predicate PlacesMatch(places: seq<nat>, scanned: seq<nat>)
      reads this`order, this`interruptVars, sumRead`listed, (set v | v in sumRead.listed)`bufferReader
    {
      && |places| == |sumRead.listed|
      && (forall i | 0 <= i < |places| ::
            places[i] < |order| && order[places[i]] == sumRead.listed[i].bufferReader.buffer)
      && |scanned| == |interruptVars|
      && forall i | 0 <= i < |scanned| ::
           interruptVars[i] in sumRead.listed && scanned[i] == IndexIn(sumRead.listed, interruptVars[i])
    }

    /** A variable with a pending value has readback, is allocated, and is known to have one. */
    ghost predicate Overlay(v: ADSVariable, pending: map<nat, nat>)
      reads this`initialized, sumRead`listed, v`lastWritten, v`writeReadback
    {
      && (v.lastWritten != [] ==> v.writeReadback && v in sumRead.listed && |v.lastWritten| == v.Size())
      && (v.writeReadback && initialized ==> v in sumRead.listed)
      && (v in sumRead.listed ==> (IndexIn(sumRead.listed, v) in pending <==> v.lastWritten != []))
    }

    ghost predicate OverlayMatches(pending: map<nat, nat>)
      reads this`adsReadVars, this`known, this`initialized, sumRead`listed, known`lastWritten, known`writeReadback
    {
      forall v | v in known :: Overlay(v, pending) && (v.writeReadback ==> v in adsReadVars)
    }

    ghost predicate RecordsMatch(places: seq<nat>, scanned: seq<nat>, pending: map<nat, nat>)
      reads this`order, this`interruptVars, sumRead`listed, (set v | v in sumRead.listed)`bufferReader
      reads this`adsReadVars, this`known, this`initialized, known`lastWritten, known`writeReadback
    {
      PlacesMatch(places, scanned) && OverlayMatches(pending)
    }

    /** The driver is where some run of the interleaving machine of module Lifecycle has led. */
    ghost predicate Mirrors()
      reads this`at, this`order, this`exitCalled, this`initialized, this`all, adsConnection`adsPort
      reads adsConnection`session
      reads sumRead`isInitialized, sumRead`bufferSet, (set b | b in order)`bufferState, (set b | b in order)`session
      reads all, sumRead`listed, set v | v in sumRead.listed :: v.addr
      reads this`interruptVars, (set v | v in sumRead.listed)`bufferReader
      reads this`adsReadVars, this`known, known`lastWritten, known`writeReadback
    {
      ControlMatches(at) && BuffersMatch(at.chunks) && RecordsMatch(at.places, at.scanned, at.pending)
    }

    /** It mirrors that run, and no handler holds the lock. */
    ghost predicate InStep()
      reads this`at, this`order, this`exitCalled, this`initialized, this`all, adsConnection`adsPort
      reads adsConnection`session
      reads sumRead`isInitialized, sumRead`bufferSet, (set b | b in order)`bufferState, (set b | b in order)`session
      reads all, sumRead`listed, set v | v in sumRead.listed :: v.addr
      reads this`interruptVars, (set v | v in sumRead.listed)`bufferReader
      reads this`adsReadVars, this`known, known`lastWritten, known`writeReadback
    {
      Mirrors() && at.handler == L.Idle
    }

    /** Give back every handle. */
    method UnresolveAll()
      requires Coherent() && !sumRead.isInitialized && adsConnection.IsConnected()
      modifies adsConnection`leaked, adsConnection.device`live, adsConnection.device`releases, all
      ensures Coherent() && Resolved(all) == {}
    {
      hide Connection.Accounted, SumReadRequest.Slotted, SumReadRequest.Valid, NoStrays, Registered, Resolved;
      UnresolveLists();
    }

    method UnresolveLists()
      requires Registered() && adsConnection.Accounted(all) && adsConnection.IsConnected()
      requires adsConnection.leaked == multiset{} <==> AllAcknowledged(adsConnection.device.releases)
      modifies adsConnection`leaked, adsConnection.device`live, adsConnection.device`releases, all
      ensures adsConnection.Accounted(all) && Resolved(all) == {}
      ensures adsConnection.leaked == multiset{} <==> AllAcknowledged(adsConnection.device.releases)
    {
      hide Connection.Accounted, GivenBack, Due;
      AddressesOf(adsReadVars);
      AddressesOf(adsWriteVars);
      var ignored := adsConnection.UnresolveVariables(Addresses(adsReadVars), all);
      ignored := adsConnection.UnresolveVariables(Addresses(adsWriteVars), all);
    }

    method Deinitialize()
      requires Coherent()
      modifies sumRead`isInitialized, sumRead.chunkSet`requestBuffer
      ensures Coherent() && !sumRead.isInitialized
    {
      hide SumReadRequest.Slotted, Connection.Accounted, SumReadRequest.Valid, SumReadRequest.TablesCurrent,
        SumReadRequest.Kept, Registered, NoStrays, ReadRequestChunk.TableBlank;
      sumRead.IsKept();
      sumRead.Deinitialize();
    }

    /** Cut the connection; while shutting down, without giving handles back. */
    method ADSDisconnect() returns (status: int)
      requires Valid() && InStep() && at.scan.Disconnect? && at.scan.at == L.Deinitialize
      modifies this`at, sumRead`isInitialized, sumRead.chunkSet`requestBuffer
      modifies adsConnection`adsPort, adsConnection`leaked, adsConnection.device`live, adsConnection.device`releases
      modifies adsConnection.device`replies, all
      ensures Valid() && status == 0
      ensures Continues(old(adsConnection.device.replies), adsConnection.device.replies)
      ensures NoRefusal(old(adsConnection.device.replies), adsConnection.device.replies)
      ensures InStep() && at.scan == L.After(old(at).scan.cause)
      ensures !sumRead.isInitialized && !adsConnection.IsConnected()
      ensures !exitCalled && old(adsConnection.IsConnected()) ==> Resolved(all) == {}
      ensures exitCalled || !old(adsConnection.IsConnected()) ==> Resolved(all) == old(Resolved(all))
    {
      hide Valid, InStep, BuffersMatch, RecordsMatch, HandlesMatch, Resolved, Continues, NoRefusal, L.Reachable;
      ghost var torn := Torn();
      status := Teardown(at.held);
      FollowTeardown(torn);
    }

    /** Where the interleaving machine will be after the disconnect. */
    lemma Torn() returns (t: L.State)
      requires InStep() && at.scan.Disconnect? && at.scan.at == L.Deinitialize
      ensures L.Reachable(t) && t.handler == L.Idle && t.scan == L.After(at.scan.cause)
      ensures t == at.(tables := false, connected := false, held := t.held, lock := t.lock, scan := t.scan)
      ensures t.held == if !exitCalled && adsConnection.IsConnected() then L.Nothing else at.held
      ensures t.exitCalled == exitCalled && t.initialized == initialized && t.session == adsConnection.session
      ensures HandlesMatch(at.held) && BuffersMatch(at.chunks) && RecordsMatch(at.places, at.scanned, at.pending)
    {
      hide L.Reachable, BuffersMatch, RecordsMatch, HandlesMatch;
      t := L.TearsDown(at);
    }

    ghost method FollowTeardown(t: L.State)
      requires L.Reachable(t) && t.handler == L.Idle
      requires t == at.(tables := false, connected := false, held := t.held, lock := t.lock, scan := t.scan)
      requires t.exitCalled == exitCalled && t.initialized == initialized && t.session == adsConnection.session
      requires HandlesMatch(t.held) && BuffersMatch(at.chunks) && RecordsMatch(at.places, at.scanned, at.pending)
      requires !sumRead.isInitialized && !adsConnection.IsConnected()
      modifies this`at
      ensures InStep() && at == t
    {
      hide L.Reachable, BuffersMatch, RecordsMatch, HandlesMatch;
      at := t;
    }

    /** The body of ADSDisconnect. */
    method Teardown(ghost held: L.Held) returns (status: int)
      requires Valid() && HandlesMatch(held)
      modifies sumRead`isInitialized, sumRead.chunkSet`requestBuffer
      modifies adsConnection`adsPort, adsConnection`leaked, adsConnection.device`live, adsConnection.device`releases
      modifies adsConnection.device`replies, all
      ensures Valid() && status == 0
      ensures Continues(old(adsConnection.device.replies), adsConnection.device.replies)
      ensures NoRefusal(old(adsConnection.device.replies), adsConnection.device.replies)
      ensures !sumRead.isInitialized && !adsConnection.IsConnected()
      ensures !exitCalled && old(adsConnection.IsConnected()) ==> Resolved(all) == {}
      ensures exitCalled || !old(adsConnection.IsConnected()) ==>
                Resolved(all) == old(Resolved(all)) && forall a | a in all :: unchanged(a)
      ensures HandlesMatch(if !exitCalled && old(adsConnection.IsConnected()) then L.Nothing else held)
    {
      hide Coherent, Resolved, Continues, NoRefusal;
      Deinitialize();
      NothingYet(adsConnection.device.replies);
      if !exitCalled {
        if !adsConnection.IsConnected() {
          return 0;
        }
        UnresolveAll();
      }
      Close();
      return 0;
    }

    method Close()
      requires Coherent()
      modifies adsConnection`adsPort, adsConnection.device`replies
      ensures Coherent() && !adsConnection.IsConnected()
      ensures Continues(old(adsConnection.device.replies), adsConnection.device.replies)
      ensures NoRefusal(old(adsConnection.device.replies), adsConnection.device.replies)
    {
      hide Coherent, Continues, NoRefusal;
      NothingYet(adsConnection.device.replies);
      OnlyClosed(adsConnection.device.replies, adsConnection.adsPort);
      var status := adsConnection.Disconnect();
      adsConnection.SetDisconnected();
    }

    /** No row of any table asks for a handle that was given back, or for none. */
    lemma TablesAreLive()
      requires Coherent() && sumRead.isInitialized
      ensures forall c | c in sumRead.chunkSet :: c.RowsLive(adsConnection.device)
    {
      hide SumReadRequest.Slotted, Connection.Accounted, NoStrays;
      sumRead.Holds(sumRead.listed);
      forall c, r | c in sumRead.chunkSet && r in c.requestBuffer
        ensures LiveRow(adsConnection.device.live, r)
      {
        assert c.TableCurrent();
        var i :| 0 <= i < |c.requestBuffer| && c.requestBuffer[i] == r;
        var v := c.variables[i];
        assert v in c.variables;
        adsConnection.HandleIsLive(all, v.addr);
      }
    }

    /** The device's replies to a sum-read of which it refuses nothing: one per chunk, in the order of ports. */
    ghost function ScanReplies(): seq<Reply>
      reads sumRead`chunksByAdsPort, adsConnection`adsPort
    {
      GoodSums(adsConnection.adsPort, InPortOrder(sumRead.chunksByAdsPort, 0x1_0000))
    }

    method ReadBuffers() returns (status: int)
      requires Valid() && sumRead.isInitialized && RecordsMatch(at.places, at.scanned, at.pending)
      modifies sumRead.chunkSet`answeredFrom, adsConnection.device`memory, adsConnection.device`answers
      modifies adsConnection.device`replies
      modifies sumRead.bufferSet`bufferState, sumRead.bufferSet`session, sumRead.storeSet
      ensures Continues(old(adsConnection.device.replies), adsConnection.device.replies)
      ensures status == 0 ==> adsConnection.device.replies == old(adsConnection.device.replies) + ScanReplies()
      ensures |old(adsConnection.device.answers)| <= |adsConnection.device.answers|
      ensures status == 0 <==> NoRefusal(old(adsConnection.device.replies), adsConnection.device.replies)
      ensures sumRead.chunkSet != {} ==> |old(adsConnection.device.replies)| < |adsConnection.device.replies|
      ensures Valid() && RecordsMatch(at.places, at.scanned, at.pending)
      ensures status == 0 ==> AllFresh() && FilledSince(|old(adsConnection.device.answers)|)
      ensures status == 0 ==> forall b | b in sumRead.bufferSet ::
                b.bufferState == SumReadBufferState.Valid && b.session == adsConnection.session
      ensures status != 0 ==> sumRead.bufferSet != {} && forall b | b in sumRead.bufferSet :: b.bufferState == Invalid
      ensures status != 0 ==> forall c | c in sumRead.chunkSet :: c.dataBuffer.bufferState == Invalid
    {
      hide SumReadRequest.Slotted, Connection.Accounted, SumReadRequest.Valid, SumReadRequest.TablesCurrent,
        Registered, NoStrays, SumReadRequest.Fresh, SumReadRequest.FreshSince, RecordsMatch, Continues, NoRefusal,
        InPortOrder, SumReplies, GoodSums;
      TablesAreLive();
      ghost var rcs;
      status, rcs := sumRead.Read();
      sumRead.ChunksAreListed();
      sumRead.BufferStates();
      assert Coherent();
    }

    /** The interleaving machine keeps pace with a sum-read. */
    lemma SumReadMatches(ok: bool) returns (s: L.State)
      requires ControlMatches(at) && at.handler == L.Idle && at.scan.ReadChunk? && at.scan.k == 0
      requires Numbered(|at.chunks|)
      requires ok ==> forall b | b in sumRead.bufferSet ::
                 b.bufferState == SumReadBufferState.Valid && b.session == adsConnection.session
      requires !ok ==> sumRead.bufferSet != {} && forall b | b in sumRead.bufferSet :: b.bufferState == Invalid
      ensures ControlMatches(s) && BuffersMatch(s.chunks) && s.handler == L.Idle
      ensures s.places == at.places && s.scanned == at.scanned && s.pending == at.pending && s.log == at.log
      ensures s.scan == if !ok then L.Disconnect(L.Deinitialize, at.scan.cause)
                        else if at.scan.cause == L.InitialRead then L.Head else L.WantDeliver
    {
      hide BuffersMatch, RecordsMatch, Numbered, HandlesMatch, L.Reachable, L.Filled, L.Invalidated;
      if ok {
        MatchFilled(at);
      } else {
        MatchInvalidated(at.chunks);
      }
      s := L.SumReads(at, ok);
    }

    lemma ReadsWhileConnected()
      requires InStep() && at.scan.ReadChunk?
      ensures sumRead.isInitialized && adsConnection.IsConnected()
      ensures forall v | v in sumRead.listed :: v.addr.nameIsResolved
    {
      L.NoStaleRequest(at);
    }

    /** One sum-read; if it fails, the connection is cut. */
    method DoSumRead() returns (status: int)
      requires Valid() && InStep() && at.scan.ReadChunk? && at.scan.k == 0
      modifies this`at, sumRead`isInitialized, sumRead.chunkSet`requestBuffer, sumRead.chunkSet`answeredFrom
      modifies sumRead.bufferSet`bufferState, sumRead.bufferSet`session, sumRead.storeSet
      modifies adsConnection`adsPort, adsConnection`leaked, adsConnection.device, all
      ensures Valid() && InStep()
      ensures Continues(old(adsConnection.device.replies), adsConnection.device.replies)
      ensures status == 0 ==> adsConnection.device.replies == old(adsConnection.device.replies) + ScanReplies()
      ensures |old(adsConnection.device.answers)| <= |adsConnection.device.answers|
      ensures status == 0 <==> NoRefusal(old(adsConnection.device.replies), adsConnection.device.replies)
      ensures sumRead.chunkSet != {} ==> |old(adsConnection.device.replies)| < |adsConnection.device.replies|
      ensures status == 0 ==>
                && sumRead.isInitialized == old(sumRead.isInitialized)
                && AllFresh() && FilledSince(|old(adsConnection.device.answers)|)
                && adsConnection.adsPort == old(adsConnection.adsPort)
                && (old(AllResolved()) ==> AllResolved())
                && (forall a | a in all :: unchanged(a))
                && at.log == old(at).log
                && at.scan == if old(at).scan.cause == L.InitialRead then L.Head else L.WantDeliver
      ensures status != 0 ==>
                && !sumRead.isInitialized && !adsConnection.IsConnected()
                && (forall c | c in sumRead.chunkSet :: c.dataBuffer.bufferState == Invalid)
                && (!exitCalled ==> Resolved(all) == {})
                && at.scan == L.After(old(at).scan.cause)
    {
      hide Valid, InStep, AllResolved, Resolved, AllFresh, FilledSince, Refusals, ScanReplies;
      ReadsWhileConnected();
      status := ReadInStep();
      if status != 0 {
        var ignored := ADSDisconnect();
      }
    }

    /** `SumRead.read`, followed in the interleaving machine. */
    method ReadInStep() returns (status: int)
      requires Valid() && InStep() && at.scan.ReadChunk? && at.scan.k == 0
      modifies this`at, sumRead.chunkSet`answeredFrom, adsConnection.device`memory, adsConnection.device`answers
      modifies adsConnection.device`replies
      modifies sumRead.bufferSet`bufferState, sumRead.bufferSet`session, sumRead.storeSet
      ensures Valid() && InStep() && at.log == old(at).log
      ensures Continues(old(adsConnection.device.replies), adsConnection.device.replies)
      ensures status == 0 ==> adsConnection.device.replies == old(adsConnection.device.replies) + ScanReplies()
      ensures |old(adsConnection.device.answers)| <= |adsConnection.device.answers|
      ensures status == 0 <==> NoRefusal(old(adsConnection.device.replies), adsConnection.device.replies)
      ensures sumRead.chunkSet != {} ==> |old(adsConnection.device.replies)| < |adsConnection.device.replies|
      ensures status == 0 ==> AllFresh() && FilledSince(|old(adsConnection.device.answers)|)
      ensures status != 0 ==> forall c | c in sumRead.chunkSet :: c.dataBuffer.bufferState == Invalid
      ensures at.scan == if status != 0 then L.Disconnect(L.Deinitialize, old(at).scan.cause)
                         else if old(at).scan.cause == L.InitialRead then L.Head else L.WantDeliver
    {
      hide Valid, ControlMatches, BuffersMatch, RecordsMatch, Numbered, AllFresh, FilledSince, Continues, NoRefusal,
        ScanReplies;
      ReadsWhileConnected();
      status := ReadBuffers();
      assert ControlMatches(at);
      at := SumReadMatches(status == 0);
    }

    /** Resolve one of the two lists, if there is anything in it. */
    method ResolveList(vars: seq<ADSVariable>) returns (status: int)
      requires Registered() && adsConnection.Accounted(all)
      requires vars == adsReadVars || vars == adsWriteVars
      modifies adsConnection.device`live, adsConnection.device`replies, all
      ensures adsConnection.Accounted(all)
      ensures Continues(old(adsConnection.device.replies), adsConnection.device.replies)
      ensures adsConnection.IsConnected() ==>
                (status == 0 <==> NoRefusal(old(adsConnection.device.replies), adsConnection.device.replies))
      ensures status == 0 ==> forall v | v in vars :: v.addr.nameIsResolved
      ensures forall a | a in all && old(a.nameIsResolved) :: a.nameIsResolved
    {
      hide Connection.Accounted, Refusals;
      status := 0;
      if |vars| > 0 {
        AddressesOf(vars);
        ghost var rcs;
        status, rcs := adsConnection.ResolveVariables(Addresses(vars), all);
        if status == 0 {
          forall v | v in vars ensures v.addr.nameIsResolved {
            assert v.addr in Addressed(vars);
          }
        }
      }
    }

    /** Resolve everything. */
    method ResolveLists() returns (status: int)
      requires Registered() && adsConnection.Accounted(all)
      modifies adsConnection.device`live, adsConnection.device`replies, all
      ensures adsConnection.Accounted(all)
      ensures Continues(old(adsConnection.device.replies), adsConnection.device.replies)
      ensures adsConnection.IsConnected() ==>
                (status == 0 <==> NoRefusal(old(adsConnection.device.replies), adsConnection.device.replies))
      ensures status == 0 ==> AllResolved()
    {
      hide Connection.Accounted, Refusals;
      status := ResolveList(adsReadVars);
      if status != 0 {
        return;
      }
      status := ResolveList(adsWriteVars);
    }

    ghost predicate AllResolved()
      reads this`all, all
    {
      forall a | a in all :: a.nameIsResolved
    }

    lemma ListedResolved()
      requires Registered()
      ensures HandlesMatch(L.Part)
      ensures AllResolved() ==> HandlesMatch(L.Everything) && forall v | v in sumRead.listed :: v.addr.nameIsResolved
    {
    }

    /** Connect, resolve, fill the tables and read everything once. */
    method ADSConnect() returns (status: int)
      requires Valid() && Settled() && InStep() && at.scan == L.Guards
      modifies this`at, sumRead`isInitialized, sumRead.chunkSet`requestBuffer, sumRead.chunkSet`answeredFrom
      modifies sumRead.bufferSet`bufferState, sumRead.bufferSet`session, sumRead.storeSet
      modifies adsConnection`adsPort, adsConnection`session, adsConnection`leaked, adsConnection.device, all
      ensures Valid() && InStep()
      ensures exitCalled || !initialized ==> status == ASYN_ERROR
      ensures Continues(old(adsConnection.device.replies), adsConnection.device.replies)
      ensures |old(adsConnection.device.answers)| <= |adsConnection.device.answers|
      ensures exitCalled || !initialized ==> adsConnection.device.replies == old(adsConnection.device.replies)
      ensures !exitCalled && initialized ==>
                (status == 0 <==> NoRefusal(old(adsConnection.device.replies), adsConnection.device.replies))
                && |old(adsConnection.device.replies)| < |adsConnection.device.replies|
      ensures status == 0 ==> FilledSince(|old(adsConnection.device.answers)|)
      ensures status == 0 ==> Settled() && adsConnection.IsConnected() && at.scan == L.Head
      ensures status == 0 ==> AllResolved() && adsConnection.session == old(adsConnection.session) + 1
      ensures status != 0 ==> at.scan == L.Disconnect(L.Deinitialize, L.NoConnect)
      ensures status != 0 ==>
                !sumRead.isInitialized && (!adsConnection.IsConnected() && !exitCalled ==> Resolved(all) == {})
    {
      hide Valid, InStep, Settled, AllFresh, FilledSince, AllResolved, Resolved, Continues, NoRefusal, ScanReplies;
      NothingYet(adsConnection.device.replies);
      PassGuards();
      assert !adsConnection.IsConnected(); // so the answer "already connected" is never given
      if exitCalled {
        return ASYN_ERROR;
      }
      if !initialized {
        return ASYN_ERROR;
      }
      status := ConnectAndRead();
    }

    /** ADSConnect once its guards are passed. */
    method ConnectAndRead() returns (status: int)
      requires Valid() && InStep() && at.scan == L.Open && initialized && !exitCalled
      requires !sumRead.isInitialized && Resolved(all) == {}
      modifies this`at, sumRead`isInitialized, sumRead.chunkSet`requestBuffer, sumRead.chunkSet`answeredFrom
      modifies sumRead.bufferSet`bufferState, sumRead.bufferSet`session, sumRead.storeSet
      modifies adsConnection`adsPort, adsConnection`session, adsConnection`leaked, adsConnection.device, all
      ensures Valid() && InStep()
      ensures Continues(old(adsConnection.device.replies), adsConnection.device.replies)
      ensures |old(adsConnection.device.answers)| <= |adsConnection.device.answers|
      ensures status == 0 <==> NoRefusal(old(adsConnection.device.replies), adsConnection.device.replies)
      ensures |old(adsConnection.device.replies)| < |adsConnection.device.replies|
      ensures status == 0 ==> FilledSince(|old(adsConnection.device.answers)|)
      ensures status == 0 ==> Settled() && adsConnection.IsConnected() && at.scan == L.Head
      ensures status == 0 ==> AllResolved() && adsConnection.session == old(adsConnection.session) + 1
      ensures status != 0 ==> at.scan == L.Disconnect(L.Deinitialize, L.NoConnect)
      ensures status != 0 ==>
                !sumRead.isInitialized && (!adsConnection.IsConnected() && !exitCalled ==> Resolved(all) == {})
    {
      hide Valid, InStep, Settled, AllFresh, FilledSince, AllResolved, Resolved, Continues, NoRefusal, ScanReplies;
      status := OpenAndResolve();
      if status == 0 {
        ghost var soFar := adsConnection.device.replies;
        status := DoSumRead();
        ContinuesOn(old(adsConnection.device.replies), soFar, adsConnection.device.replies);
        if status == 0 {
          SettledWhenFresh();
        }
      }
    }

    lemma SettledWhenFresh()
      requires AllFresh() && adsConnection.IsConnected() && sumRead.isInitialized
      ensures Settled()
    {
    }

    /** The interleaving machine passes the guards of ADSConnect, or fails there. */
    ghost method PassGuards()
      requires Valid() && Settled() && InStep() && at.scan == L.Guards
      modifies this`at
      ensures Valid() && InStep() && !adsConnection.IsConnected() && !sumRead.isInitialized
      ensures !exitCalled ==> Resolved(all) == {}
      ensures at.scan == if exitCalled || !initialized then L.Disconnect(L.Deinitialize, L.NoConnect) else L.Open
    {
      hide Coherent, L.Reachable, BuffersMatch, RecordsMatch, HandlesMatch;
      at := L.Guarded(at);
    }

    /** The middle of ADSConnect: up to the filled tables. */
    method OpenAndResolve() returns (status: int)
      requires Valid() && InStep() && at.scan == L.Open && initialized
      requires !sumRead.isInitialized && (!exitCalled ==> Resolved(all) == {})
      modifies this`at, sumRead`isInitialized, sumRead.chunkSet`requestBuffer
      modifies adsConnection`adsPort, adsConnection`session, adsConnection.device`live, adsConnection.device`replies
      modifies all
      ensures Valid() && InStep()
      ensures Continues(old(adsConnection.device.replies), adsConnection.device.replies)
      ensures status == 0 <==> NoRefusal(old(adsConnection.device.replies), adsConnection.device.replies)
      ensures |old(adsConnection.device.replies)| < |adsConnection.device.replies|
      ensures status == 0 ==>
                && AllResolved() && sumRead.isInitialized
                && adsConnection.IsConnected() && adsConnection.session == old(adsConnection.session) + 1
                && at.scan == L.ReadChunk(0, L.InitialRead)
      ensures status != 0 ==>
                && !sumRead.isInitialized && (!adsConnection.IsConnected() && !exitCalled ==> Resolved(all) == {})
                && at.scan == L.Disconnect(L.Deinitialize, L.NoConnect)
    {
      hide Coherent, L.Reachable, L.ScanNext, BuffersMatch, RecordsMatch, Numbered, HandlesMatch, Resolved, AllResolved,
        Refusals;
      status := OpenConnection();
      if status == 0 {
        status := ResolveEverything();
        if status == 0 {
          FillTables();
        }
      }
    }

    method OpenConnection() returns (status: int)
      requires Valid() && InStep() && at.scan == L.Open && initialized
      modifies this`at, adsConnection`adsPort, adsConnection`session, adsConnection.device`replies
      ensures Valid() && InStep()
      ensures Continues(old(adsConnection.device.replies), adsConnection.device.replies)
      ensures status == 0 <==> NoRefusal(old(adsConnection.device.replies), adsConnection.device.replies)
      ensures |old(adsConnection.device.replies)| < |adsConnection.device.replies|
      ensures status == 0 ==>
                && adsConnection.IsConnected() && adsConnection.session == old(adsConnection.session) + 1
                && at.scan == L.ResolveReads
      ensures status != 0 ==> unchanged(adsConnection) && at.scan == L.Disconnect(L.Deinitialize, L.NoConnect)
    {
      hide Coherent, L.Reachable, BuffersMatch, RecordsMatch, HandlesMatch, Refusals;
      status := adsConnection.Connect();
      at := L.ScanAlone(at, status == 0);
    }

    method ResolveEverything() returns (status: int)
      requires Valid() && InStep() && at.scan == L.ResolveReads && !sumRead.isInitialized
      requires adsConnection.IsConnected()
      modifies this`at, adsConnection.device`live, adsConnection.device`replies, all
      ensures Valid() && InStep()
      ensures Continues(old(adsConnection.device.replies), adsConnection.device.replies)
      ensures status == 0 <==> NoRefusal(old(adsConnection.device.replies), adsConnection.device.replies)
      ensures status == 0 ==> AllResolved() && at.scan == L.FillTables
      ensures status != 0 ==> at.scan == L.Disconnect(L.Deinitialize, L.NoConnect)
    {
      hide SumReadRequest.Slotted, Connection.Accounted, SumReadRequest.Valid, SumReadRequest.TablesCurrent,
        Registered, NoStrays, BuffersMatch, RecordsMatch, HandlesMatch, AllResolved, L.Reachable, L.ScanNext, Refusals;
      status := ResolveLists();
      assert Coherent() && BuffersMatch(at.chunks);
      ListedResolved();
      at := L.ResolvesLists(at, status == 0);
    }

    method FillTables()
      requires Valid() && InStep() && at.scan == L.FillTables && AllResolved()
      requires initialized && !sumRead.isInitialized
      modifies this`at, sumRead`isInitialized, sumRead.chunkSet`requestBuffer
      ensures Valid() && InStep()
      ensures sumRead.isInitialized && at.scan == L.ReadChunk(0, L.InitialRead)
    {
      hide SumReadRequest.Slotted, Connection.Accounted, SumReadRequest.Valid, Registered, NoStrays, BuffersMatch,
        RecordsMatch, HandlesMatch, SumReadRequest.TablesCurrent, L.Reachable;
      L.TablesFilled(at);
      ListedResolved();
      var status := sumRead.Initialize();
      assert status == 0; // so EPICSADS_NOT_RESOLVED is never the answer here
      assert Coherent();
      at := L.ScanAlone(at, true);
    }

    /** Ask for the device's name and version, or for its state; if it fails, the connection is cut. */
    method ReadADSDevice() returns (status: int)
      requires Valid() && InStep() && (at.scan == L.DeviceInfo || at.scan == L.DeviceState)
      modifies this`at, sumRead`isInitialized, sumRead.chunkSet`requestBuffer
      modifies adsConnection`adsPort, adsConnection`leaked, adsConnection.device`live, adsConnection.device`releases
      modifies adsConnection.device`replies, all
      ensures Valid() && InStep()
      ensures Continues(old(adsConnection.device.replies), adsConnection.device.replies)
      ensures status == 0 <==> NoRefusal(old(adsConnection.device.replies), adsConnection.device.replies)
      ensures status == 0 ==> unchanged(sumRead) && unchanged(adsConnection) && (old(Settled()) ==> Settled())
      ensures status == 0 ==> adsConnection.IsConnected() && forall a | a in all :: unchanged(a)
      ensures status == 0 ==> at.log == old(at).log
      ensures status == 0 ==>
                adsConnection.device.replies == old(adsConnection.device.replies) + [Info(adsConnection.adsPort, 0)]
      ensures status == 0 ==>
                at.scan == if old(at).scan == L.DeviceInfo then L.DeviceState else L.ReadChunk(0, L.Scanning)
      ensures status != 0 ==>
                && !sumRead.isInitialized && !adsConnection.IsConnected() && at.scan == L.Head
                && (!exitCalled ==> Resolved(all) == {})
      ensures status != 0 ==> Settled()
    {
      hide Valid, InStep, AllFresh, Resolved, Refusals;
      ghost var answer;
      status, answer := adsConnection.ReadDeviceInfo();
      OneMoreReply(old(adsConnection.device.replies), Info(adsConnection.adsPort, answer));
      AnswerDevice(status == 0);
      if status != 0 {
        var ignored := ADSDisconnect();
      }
    }

    /** The interleaving machine keeps pace with the device's answer. */
    ghost method AnswerDevice(ok: bool)
      requires Valid() && InStep() && (at.scan == L.DeviceInfo || at.scan == L.DeviceState)
      modifies this`at
      ensures Valid() && InStep() && adsConnection.IsConnected() && (old(Settled()) ==> Settled())
      ensures at.log == old(at).log
      ensures at.scan == if !ok then L.Disconnect(L.Deinitialize, L.Scanning)
                         else if old(at).scan == L.DeviceInfo then L.DeviceState else L.ReadChunk(0, L.Scanning)
    {
      hide Coherent, L.Reachable, BuffersMatch, RecordsMatch, HandlesMatch, Resolved, AllFresh;
      L.PollsConnected(at);
      at := L.ScanAlone(at, ok);
    }

    /** What another thread may do meanwhile, unless the scan thread holds the lock: call shutdown, or let a
      record read or write some variable. */
    method LetOthersRun()
      requires Valid() && InStep() && !L.ScanHolds(at.scan)
      modifies this`at, this`exitCalled, known`lastWritten
      modifies adsConnection.device`memory, adsConnection.device`writes
      ensures Valid() && InStep() && at.scan == old(at).scan && old(at).log <= at.log
      ensures (old(exitCalled) ==> exitCalled) && (old(Settled()) ==> Settled())
    {
      hide Valid, InStep, Settled;
      var what: nat := *;
      if what == 0 {
        ShutDown();
      } else if what == 1 {
        ReadSome();
      } else if what == 2 {
        WriteSome();
      }
    }

    /** The first half of the destructor. */
    method ShutDown()
      requires Valid() && InStep() && !L.ScanHolds(at.scan)
      modifies this`at, this`exitCalled
      ensures Valid() && InStep() && at.scan == old(at).scan && at.log == old(at).log
      ensures exitCalled && (old(Settled()) ==> Settled())
    {
      hide Coherent, L.Reachable, BuffersMatch, RecordsMatch, HandlesMatch, Resolved, AllFresh;
      L.LockIsExclusive(at);
      L.ReachableNext(at, L.Exit);
      at := L.Next(at, L.Exit);
      exitCalled := true;
    }

    method ReadSome()
      requires Valid() && InStep() && !L.ScanHolds(at.scan)
      modifies this`at, known`lastWritten
      ensures Valid() && InStep() && at.scan == old(at).scan && old(at).log <= at.log && (old(Settled()) ==> Settled())
    {
      hide Valid, InStep, AllFresh, Resolved, ADSVariable.Size, ADSVariable.Readable, ADSVariable.Seen, R.ReadCell,
        L.HandOut, MayRead;
      var v := SomeVariable();
      if v != null {
        var buffer := new Byte[v.Size()];
        var status := ReadRecord(v, v.Size(), buffer);
      }
    }

    method WriteSome()
      requires Valid() && InStep() && !L.ScanHolds(at.scan)
      modifies this`at, known`lastWritten, adsConnection.device`memory, adsConnection.device`writes
      ensures Valid() && InStep() && at.scan == old(at).scan && at.log == old(at).log && (old(Settled()) ==> Settled())
    {
      hide Valid, InStep, AllFresh, Resolved, ADSVariable.Size, ADSVariable.Readable, Fit;
      var v := SomeVariable();
      var bytes: seq<Byte> := *;
      if v != null && |bytes| < 0x1_0000_0000 {
        var status;
        ghost var answer;
        status, answer := WriteRecord(v, bytes);
      }
    }

    method SomeVariable() returns (v: ADSVariable?)
      requires Valid()
      ensures v != null ==> v in known
    {
      var vars := adsReadVars + adsWriteVars;
      var i: int := *;
      v := if 0 <= i < |vars| then vars[i] else null;
    }

    /** Reconnect: what the scan loop does while the connection is down. Unless shutdown has been called, it
      asks the device, and ends connected if and only if nothing is refused. */
    method Reconnect()
      requires Valid() && Settled() && InStep() && at.scan == L.Sampled(adsConnection.IsConnected())
      requires initialized && !(adsConnection.IsConnected() && sumRead.isInitialized)
      modifies this`at, sumRead`isInitialized, sumRead.chunkSet`requestBuffer, sumRead.chunkSet`answeredFrom
      modifies sumRead.bufferSet`bufferState, sumRead.bufferSet`session, sumRead.storeSet
      modifies adsConnection`adsPort, adsConnection`session, adsConnection`leaked, adsConnection.device, all
      ensures Valid() && Settled() && InStep() && at.scan == L.Head
      ensures Continues(old(adsConnection.device.replies), adsConnection.device.replies)
      ensures |old(adsConnection.device.answers)| <= |adsConnection.device.answers|
      ensures exitCalled ==> !adsConnection.IsConnected()
      ensures !exitCalled ==>
                && (adsConnection.IsConnected() <==>
                      NoRefusal(old(adsConnection.device.replies), adsConnection.device.replies))
                && |old(adsConnection.device.replies)| < |adsConnection.device.replies|
      ensures adsConnection.IsConnected() ==>
                && AllResolved() && FilledSince(|old(adsConnection.device.answers)|)
                && adsConnection.session == old(adsConnection.session) + 1
    {
      hide Coherent, L.Reachable, L.ScanNext, BuffersMatch, RecordsMatch, HandlesMatch, AllFresh, FilledSince,
        AllResolved, Resolved, Continues, NoRefusal, Valid, InStep;
      StartConnecting();
      var status := ADSConnect();
      if status != 0 {
        ghost var soFar := adsConnection.device.replies;
        var ignored := ADSDisconnect();
        ContinuesOn(old(adsConnection.device.replies), soFar, adsConnection.device.replies);
      }
    }

    ghost method StartConnecting()
      requires Valid() && Settled() && InStep() && at.scan == L.Sampled(adsConnection.IsConnected())
      requires initialized && !(adsConnection.IsConnected() && sumRead.isInitialized)
      modifies this`at
      ensures Valid() && Settled() && InStep() && at.scan == L.Guards
    {
      hide Coherent, L.Reachable, BuffersMatch, RecordsMatch, HandlesMatch, AllFresh, Resolved;
      at := L.GoesToConnect(at);
    }

    /** What a turn of the loop over a standing connection does: unless something is refused, the connection
      stands and every buffer holds what the device answered meanwhile. */
    method Poll(infoIsDue: bool) returns (ghost from: L.State, ghost goods: seq<bool>)
      requires Valid() && Settled() && InStep() && at.scan == L.DeviceInfo
      modifies this`at, this`exitCalled, known`lastWritten
      modifies sumRead`isInitialized, sumRead.chunkSet`requestBuffer, sumRead.chunkSet`answeredFrom
      modifies sumRead.bufferSet`bufferState, sumRead.bufferSet`session, sumRead.storeSet
      modifies adsConnection`adsPort, adsConnection`leaked, adsConnection.device, all
      ensures Valid() && Settled() && InStep() && at.scan == L.Head
      ensures Continues(old(adsConnection.device.replies), adsConnection.device.replies)
      ensures |old(adsConnection.device.answers)| <= |adsConnection.device.answers|
      ensures adsConnection.IsConnected() <==>
                NoRefusal(old(adsConnection.device.replies), adsConnection.device.replies)
      ensures adsConnection.IsConnected() ==>
                && FilledSince(|old(adsConnection.device.answers)|) && (old(AllResolved()) ==> AllResolved())
                && (sumRead.chunkSet != {} ==> |old(adsConnection.device.replies)| < |adsConnection.device.replies|)
                && Delivered(from, goods) && old(at).log <= from.log
                && adsConnection.adsPort == old(adsConnection.adsPort)
                && adsConnection.device.replies
                   == old(adsConnection.device.replies) + InfoReplies(infoIsDue) + ScanReplies()
    {
      hide Valid, Settled, InStep, L.ScanNext, AllResolved, FilledSince, Continues, NoRefusal, Delivered, ScanReplies,
        InfoReplies;
      from, goods := at, [];
      var ok := PollDevice(infoIsDue);
      if ok {
        LetOthersRun();
        ghost var soFar := adsConnection.device.replies;
        from, goods := ReadAndDeliver();
        ContinuesOn(old(adsConnection.device.replies), soFar, adsConnection.device.replies);
      }
    }

    /** The sum-read of such a turn, and what follows. */
    method ReadAndDeliver() returns (ghost from: L.State, ghost goods: seq<bool>)
      requires Valid() && Settled() && InStep() && at.scan == L.ReadChunk(0, L.Scanning)
      modifies this`at, this`exitCalled, known`lastWritten
      modifies sumRead`isInitialized, sumRead.chunkSet`requestBuffer, sumRead.chunkSet`answeredFrom
      modifies sumRead.bufferSet`bufferState, sumRead.bufferSet`session, sumRead.storeSet
      modifies adsConnection`adsPort, adsConnection`leaked, adsConnection.device, all
      ensures Valid() && Settled() && InStep() && at.scan == L.Head
      ensures Continues(old(adsConnection.device.replies), adsConnection.device.replies)
      ensures |old(adsConnection.device.answers)| <= |adsConnection.device.answers|
      ensures adsConnection.IsConnected() <==>
                NoRefusal(old(adsConnection.device.replies), adsConnection.device.replies)
      ensures adsConnection.IsConnected() ==>
                && FilledSince(|old(adsConnection.device.answers)|) && (old(AllResolved()) ==> AllResolved())
                && (sumRead.chunkSet != {} ==> |old(adsConnection.device.replies)| < |adsConnection.device.replies|)
                && Delivered(from, goods) && old(at).log <= from.log
                && adsConnection.adsPort == old(adsConnection.adsPort)
                && adsConnection.device.replies == old(adsConnection.device.replies) + ScanReplies()
    {
      hide Valid, Settled, InStep, L.ScanNext, AllResolved, FilledSince, Continues, NoRefusal, Delivered, ScanReplies,
        InfoReplies;
      from, goods := at, [];
      var ok := SumReadInLoop();
      if ok {
        from, goods := DeliverInTurn();
      }
    }

    method DeliverInTurn() returns (ghost from: L.State, ghost goods: seq<bool>)
      requires Valid() && Settled() && InStep() && at.scan == L.WantDeliver
      modifies this`at, this`exitCalled, known`lastWritten, adsConnection.device`memory, adsConnection.device`writes
      ensures Valid() && Settled() && InStep() && at.scan == L.Head
      ensures Delivered(from, goods) && old(at).log <= from.log
    {
      hide Valid, Settled, InStep, Delivered;
      LetOthersRun();
      from, goods := Deliver();
    }

    /** From `from` on every I/O Intr variable has been read once, and handed out if its buffer offered
      something good. */
    ghost predicate Delivered(from: L.State, goods: seq<bool>)
      reads *
    {
      && from.scan == L.Deliver(0) && from.session == adsConnection.session
      && at == L.Unheld(L.Deliveries(from, goods))
      && |goods| == |interruptVars| && forall i | 0 <= i < |goods| :: goods[i] <==> Offers(interruptVars[i])
    }

    method SumReadInLoop() returns (ok: bool)
      requires Valid() && Settled() && InStep() && at.scan == L.ReadChunk(0, L.Scanning)
      modifies this`at, sumRead`isInitialized, sumRead.chunkSet`requestBuffer, sumRead.chunkSet`answeredFrom
      modifies sumRead.bufferSet`bufferState, sumRead.bufferSet`session, sumRead.storeSet
      modifies adsConnection`adsPort, adsConnection`leaked, adsConnection.device, all
      ensures Valid() && Settled() && InStep() && at.scan == if ok then L.WantDeliver else L.Head
      ensures Continues(old(adsConnection.device.replies), adsConnection.device.replies)
      ensures |old(adsConnection.device.answers)| <= |adsConnection.device.answers|
      ensures ok <==> NoRefusal(old(adsConnection.device.replies), adsConnection.device.replies)
      ensures ok <==> adsConnection.IsConnected()
      ensures ok ==> at.log == old(at).log
      ensures ok ==>
                && adsConnection.adsPort == old(adsConnection.adsPort)
                && adsConnection.device.replies == old(adsConnection.device.replies) + ScanReplies()
      ensures ok ==>
                && FilledSince(|old(adsConnection.device.answers)|) && (old(AllResolved()) ==> AllResolved())
                && (sumRead.chunkSet != {} ==> |old(adsConnection.device.replies)| < |adsConnection.device.replies|)
    {
      hide Coherent, L.Reachable, L.ScanNext, BuffersMatch, RecordsMatch, HandlesMatch, AllFresh, FilledSince,
        AllResolved, Resolved, Continues, NoRefusal, ScanReplies;
      L.NoStaleRequest(at);
      var status := DoSumRead();
      return status == 0;
    }

    /** The values of I/O Intr records are handed out under the lock. */
    method Deliver() returns (ghost from: L.State, ghost goods: seq<bool>)
      requires Valid() && Settled() && InStep() && at.scan == L.WantDeliver
      modifies this`at, known`lastWritten
      ensures Valid() && Settled() && InStep() && at.scan == L.Head
      ensures Delivered(from, goods) && from.log == old(at).log
    {
      hide Valid, Settled, InStep, Offers, L.Deliveries;
      BeginDelivery();
      from := at;
      goods := PerformIOIntr();
      EndDelivery();
      InterruptsNumbered();
    }

    ghost method BeginDelivery()
      requires Valid() && Settled() && InStep() && at.scan == L.WantDeliver
      modifies this`at
      ensures Valid() && Settled() && InStep() && at.scan == L.Deliver(0) && at.session == adsConnection.session
      ensures at == old(at).(lock := L.ByScan, scan := L.Deliver(0))
    {
      hide Coherent, L.Reachable, BuffersMatch, RecordsMatch, HandlesMatch, AllFresh, Resolved;
      at := L.Delivering(at, true);
    }

    ghost method EndDelivery()
      requires Valid() && Settled() && InStep() && at.scan == L.Deliver(|at.scanned|)
      modifies this`at
      ensures Valid() && Settled() && InStep() && at.scan == L.Head && at == L.Unheld(old(at))
      ensures forall u | u in known :: Offers(u) <==> old(Offers(u))
    {
      hide Coherent, L.Reachable, BuffersMatch, RecordsMatch, HandlesMatch, AllFresh, Resolved, Offers;
      at := L.Delivering(at, true);
      forall u | u in known ensures Offers(u) <==> old(Offers(u)) {
        assert u.bufferReader == old(u.bufferReader);
      }
    }

    /** A read of all its bytes would succeed. */
    ghost predicate Offers(v: ADSVariable)
      reads v`bufferReader, v`writeReadback, v.bufferReader.buffer, adsConnection`adsPort
      reads if v.bufferReader.buffer == null then null else v.bufferReader.buffer.buffer
    {
      v.Readable() && MayRead(v) && R.Available(v.Seen(v.Size()))
    }

    /** performIOIntr: every I/O Intr variable is read once, and handed out if its read can succeed. */
    method PerformIOIntr() returns (ghost goods: seq<bool>)
      requires Valid() && Settled() && InStep() && at.scan == L.Deliver(0)
      modifies this`at, known`lastWritten
      ensures Valid() && Settled() && InStep() && at.scan == L.Deliver(|at.scanned|)
      ensures |goods| == |interruptVars| && forall i | 0 <= i < |goods| :: goods[i] <==> old(Offers(interruptVars[i]))
      ensures forall i | 0 <= i < |goods| :: Offers(interruptVars[i]) <==> old(Offers(interruptVars[i]))
      ensures at == L.Deliveries(old(at), goods)
    {
      hide Valid, Settled, InStep, Offers, L.DeliverNext;
      InterruptsNumbered();
      goods := [];
      var i := 0;
      while i < |interruptVars|
        invariant 0 <= i <= |interruptVars| == |at.scanned| && |goods| == i
        invariant Valid() && Settled() && InStep() && at.scan == L.Deliver(i)
        invariant forall u | u in known :: Offers(u) <==> old(Offers(u))
        invariant forall j | 0 <= j < i :: goods[j] <==> old(Offers(interruptVars[j]))
        invariant at == L.Deliveries(old(at), goods)
      {
        InterruptsNumbered();
        ghost var good := DeliverOne(i);
        L.OneMoreDelivery(old(at), goods, good);
        goods := goods + [good];
        i := i + 1;
      }
      InterruptsNumbered();
    }

    lemma InterruptsNumbered()
      requires Valid() && InStep()
      ensures |interruptVars| == |at.scanned|
      ensures forall i | 0 <= i < |interruptVars| ::
                interruptVars[i] in known && at.scanned[i] == IndexIn(sumRead.listed, interruptVars[i])
    {
    }

    method DeliverOne(i: nat) returns (ghost good: bool)
      requires Valid() && Settled() && InStep() && at.scan == L.Deliver(i) && i < |interruptVars|
      modifies this`at, known`lastWritten
      ensures Valid() && Settled() && InStep() && at.scan == L.Deliver(i + 1) && |at.scanned| == |interruptVars|
      ensures good <==> old(Offers(interruptVars[i]))
      ensures at == L.DeliverNext(old(at), i, good)
      ensures forall u | u in known :: Offers(u) <==> old(Offers(u))
    {
      hide Valid, AllFresh, Resolved, L.Reachable, HandlesMatch, BuffersMatch, PlacesMatch, OverlayMatches, AfterRead,
        L.HandOut, L.Offered, L.DeliverNext, Offers;
      InterruptsNumbered();
      ghost var next := at.(scan := L.Deliver(i + 1));
      var status := ReadInterrupt(i);
      good := status == 0;
      ReadPending(next, interruptVars[i], at.session, good);
      ghost var t := L.DeliversOne(at, i, good);
      MovesOn(t);
      at := t;
      forall u | u in known ensures Offers(u) <==> old(Offers(u)) {
        assert u.bufferReader == old(u.bufferReader);
      }
    }

    /** State `t` differs from the present one only in the scan thread's place and what a read changes. */
    lemma MovesOn(t: L.State)
      requires ControlMatches(at) && L.Reachable(t)
      requires t == at.(scan := t.scan, handler := t.handler, lock := t.lock, log := t.log, pending := t.pending)
      ensures ControlMatches(t)
    {
    }

    method ReadInterrupt(i: nat) returns (status: int)
      requires Valid() && Settled() && InStep() && i < |interruptVars|
      modifies known`lastWritten
      ensures Valid() && Settled() && ControlMatches(at) && BuffersMatch(at.chunks)
      ensures PlacesMatch(at.places, at.scanned)
      ensures var v := interruptVars[i];
              && OverlayMatches(AfterRead(v, at.pending, status == 0))
              && (status == 0 <==> old(Offers(v)))
              && (status == 0 ==> v in sumRead.listed && v.bufferReader.buffer != null
                                  && v.bufferReader.buffer.bufferState == SumReadBufferState.Valid)
    {
      hide Coherent, L.Reachable, BuffersMatch, PlacesMatch, OverlayMatches, HandlesMatch, AllFresh, Resolved,
        ADSVariable.Size, AfterRead, MayRead, R.ReadCell, ADSVariable.Readable, ADSVariable.Seen;
      InterruptsNumbered();
      var v := interruptVars[i];
      KnownIsReadable(v);
      ReadCellFacts(v.writeReadback, R.Cell(v.lastWritten, v.Seen(v.Size())));
      var buffer := new Byte[v.Size()];
      status := ReadGuarded(v, v.Size(), buffer, at.pending);
    }

    /** What a read of `v` does to the pending values, in the machine as in the driver. */
    lemma ReadPending(s: L.State, v: ADSVariable, asked: nat, ok: bool)
      requires s.chunks == at.chunks && s.places == at.places && s.pending == at.pending
      requires BuffersMatch(at.chunks) && PlacesMatch(at.places, at.scanned)
      requires ok ==> v in sumRead.listed && v.bufferReader.buffer != null
                      && v.bufferReader.buffer.bufferState == SumReadBufferState.Valid
      ensures L.HandOut(s, IndexIn(sumRead.listed, v), asked, ok).pending == AfterRead(v, at.pending, ok)
      ensures v in sumRead.listed <==> IndexIn(sumRead.listed, v) < |at.places|
      ensures !ok ==> L.HandOut(s, IndexIn(sumRead.listed, v), asked, ok) == s
    {
      L.HandOutPending(s, IndexIn(sumRead.listed, v), asked, ok);
    }

    /** The device's replies when it is asked for name and version and for its state. */
    ghost function InfoReplies(infoIsDue: bool): seq<Reply>
      reads adsConnection`adsPort
    {
      if infoIsDue then [Info(adsConnection.adsPort, 0), Info(adsConnection.adsPort, 0)] else []
    }

    /** The periodic requests for device information and state. */
    method PollDevice(infoIsDue: bool) returns (ok: bool)
      requires Valid() && Settled() && InStep() && at.scan == L.DeviceInfo
      modifies this`at, this`exitCalled, known`lastWritten
      modifies adsConnection.device`memory, adsConnection.device`writes
      modifies sumRead`isInitialized, sumRead.chunkSet`requestBuffer
      modifies adsConnection`adsPort, adsConnection`leaked, adsConnection.device`live, adsConnection.device`releases
      modifies adsConnection.device`replies, all
      ensures Valid() && Settled() && InStep() && at.scan == if ok then L.ReadChunk(0, L.Scanning) else L.Head
      ensures Continues(old(adsConnection.device.replies), adsConnection.device.replies)
      ensures ok <==> NoRefusal(old(adsConnection.device.replies), adsConnection.device.replies)
      ensures ok <==> adsConnection.IsConnected()
      ensures ok ==> old(at).log <= at.log
      ensures ok && old(AllResolved()) ==> AllResolved()
      ensures ok ==> adsConnection.adsPort == old(adsConnection.adsPort)
      ensures ok ==>
                adsConnection.device.replies == old(adsConnection.device.replies) + InfoReplies(infoIsDue)
    {
      hide Valid, InStep, Settled, Refusals;
      if !infoIsDue {
        NothingDue();
        return true;
      }
      var status := ReadADSDevice();
      if status != 0 {
        return false;
      }
      LetOthersRun();
      status := ReadADSDevice();
      return status == 0;
    }

    ghost method NothingDue()
      requires Valid() && Settled() && InStep() && at.scan == L.DeviceInfo
      modifies this`at
      ensures Valid() && Settled() && InStep() && at.scan == L.ReadChunk(0, L.Scanning) && adsConnection.IsConnected()
      ensures at.log == old(at).log
    {
      hide Coherent, L.Reachable, BuffersMatch, RecordsMatch, HandlesMatch, AllFresh, Resolved;
      L.PollsConnected(at);
      at := L.ScanAlone(at, true);
      at := L.ScanAlone(at, true);
    }

    /** The scan thread, for up to `turns` turns of its loop. Once the buffers are allocated every turn asks the
      device; after a turn the connection is down only if the device refused something. */
    method AdsScan(turns: nat) returns (finished: bool)
      requires Valid() && Settled() && InStep() && at.scan == L.Head
      modifies this`at, this`exitCalled, known`lastWritten
      modifies sumRead`isInitialized, sumRead.chunkSet`requestBuffer, sumRead.chunkSet`answeredFrom
      modifies sumRead.bufferSet`bufferState, sumRead.bufferSet`session, sumRead.storeSet
      modifies adsConnection`adsPort, adsConnection`session, adsConnection`leaked, adsConnection.device, all
      ensures Valid() && Settled() && InStep()
      ensures finished <==> exitCalled
      ensures finished ==> !adsConnection.IsConnected() && !sumRead.isInitialized && at.scan == L.Done
      ensures !finished ==> at.scan == L.Head
      ensures !finished && initialized && (turns > 0 || old(adsConnection.IsConnected()))
              && NoRefusal(old(adsConnection.device.replies), adsConnection.device.replies) ==>
                adsConnection.IsConnected()
      ensures !finished && turns > 0 && adsConnection.IsConnected() ==>
                && FilledSince(|old(adsConnection.device.answers)|)
                && (old(!adsConnection.IsConnected() || AllResolved()) ==> AllResolved())
      ensures adsConnection.IsConnected() ==> turns > 0 || old(adsConnection.IsConnected())
      ensures !finished && initialized && sumRead.chunkSet != {} ==>
                |adsConnection.device.replies| >= |old(adsConnection.device.replies)| + turns
    {
      hide Valid, Settled, InStep, AllResolved, FilledSince, Delivered, Continues, NoRefusal;
      NothingYet(adsConnection.device.replies);
      var turn := 0;
      while !exitCalled && turn < turns
        invariant turn <= turns && (turn == 0 ==> adsConnection.adsPort == old(adsConnection.adsPort))
        invariant Valid() && Settled() && InStep() && at.scan == L.Head
        invariant Continues(old(adsConnection.device.replies), adsConnection.device.replies)
        invariant !exitCalled && initialized && (turn > 0 || old(adsConnection.IsConnected()))
                  && NoRefusal(old(adsConnection.device.replies), adsConnection.device.replies) ==>
                    adsConnection.IsConnected()
        invariant |old(adsConnection.device.answers)| <= |adsConnection.device.answers|
        invariant turn > 0 && adsConnection.IsConnected() ==> FilledSince(|old(adsConnection.device.answers)|)
        invariant adsConnection.IsConnected() && old(!adsConnection.IsConnected() || AllResolved()) ==> AllResolved()
        invariant !exitCalled && initialized && sumRead.chunkSet != {} ==>
                    |adsConnection.device.replies| >= |old(adsConnection.device.replies)| + turn
      {
        turn := turn + 1;
        ghost var before, soFar := |adsConnection.device.answers|, adsConnection.device.replies;
        TurnAmongOthers();
        SinceEarlier(|old(adsConnection.device.answers)|, before);
        ContinuesOn(old(adsConnection.device.replies), soFar, adsConnection.device.replies);
      }
      if exitCalled {
        EndScan();
      }
      return exitCalled;
    }

    /** One turn, and what other threads do before the next. */
    method TurnAmongOthers()
      requires Valid() && Settled() && InStep() && at.scan == L.Head && !exitCalled
      modifies this`at, this`exitCalled, known`lastWritten
      modifies sumRead`isInitialized, sumRead.chunkSet`requestBuffer, sumRead.chunkSet`answeredFrom
      modifies sumRead.bufferSet`bufferState, sumRead.bufferSet`session, sumRead.storeSet
      modifies adsConnection`adsPort, adsConnection`session, adsConnection`leaked, adsConnection.device, all
      ensures Valid() && Settled() && InStep() && at.scan == L.Head
      ensures Continues(old(adsConnection.device.replies), adsConnection.device.replies)
      ensures |old(adsConnection.device.answers)| <= |adsConnection.device.answers|
      ensures !exitCalled && initialized ==>
                (adsConnection.IsConnected() <==>
                   NoRefusal(old(adsConnection.device.replies), adsConnection.device.replies))
      ensures adsConnection.IsConnected() ==>
                && FilledSince(|old(adsConnection.device.answers)|)
                && (old(!adsConnection.IsConnected() || AllResolved()) ==> AllResolved())
      ensures !exitCalled && initialized && sumRead.chunkSet != {} ==>
                |old(adsConnection.device.replies)| < |adsConnection.device.replies|
    {
      hide Valid, Settled, InStep, AllResolved, FilledSince, Delivered, Continues, NoRefusal;
      var infoIsDue: bool := *;
      ghost var from, goods := Turn(infoIsDue);
      LetOthersRun();
    }

    /** One turn of the scan loop: it connects, or it polls. Unless shutdown is called meanwhile it ends connected
      if and only if the device refused nothing that it was asked; then every buffer holds what the device answered
      during this turn, and if the connection stood before, the I/O Intr records have got their values. */
    method Turn(infoIsDue: bool) returns (ghost from: L.State, ghost goods: seq<bool>)
      requires Valid() && Settled() && InStep() && at.scan == L.Head && !exitCalled
      modifies this`at, this`exitCalled, known`lastWritten
      modifies sumRead`isInitialized, sumRead.chunkSet`requestBuffer, sumRead.chunkSet`answeredFrom
      modifies sumRead.bufferSet`bufferState, sumRead.bufferSet`session, sumRead.storeSet
      modifies adsConnection`adsPort, adsConnection`session, adsConnection`leaked, adsConnection.device, all
      ensures Valid() && Settled() && InStep() && at.scan == L.Head
      ensures Continues(old(adsConnection.device.replies), adsConnection.device.replies)
      ensures |old(adsConnection.device.answers)| <= |adsConnection.device.answers|
      ensures !initialized ==>
                !adsConnection.IsConnected() && adsConnection.device.replies == old(adsConnection.device.replies)
      ensures initialized && (!exitCalled || old(adsConnection.IsConnected())) ==>
                (adsConnection.IsConnected() <==>
                   NoRefusal(old(adsConnection.device.replies), adsConnection.device.replies))
      ensures adsConnection.IsConnected() ==>
                && FilledSince(|old(adsConnection.device.answers)|)
                && (old(!adsConnection.IsConnected() || AllResolved()) ==> AllResolved())
                && adsConnection.session
                   == old(adsConnection.session) + if old(adsConnection.IsConnected()) then 0 else 1
      ensures old(adsConnection.IsConnected()) && adsConnection.IsConnected() ==>
                && Delivered(from, goods) && old(at).log <= from.log
                && adsConnection.adsPort == old(adsConnection.adsPort)
                && adsConnection.device.replies
                   == old(adsConnection.device.replies) + InfoReplies(infoIsDue) + ScanReplies()
      ensures !exitCalled && initialized && sumRead.chunkSet != {} ==>
                |old(adsConnection.device.replies)| < |adsConnection.device.replies|
    {
      hide Valid, InStep, Settled, AllResolved, FilledSince, Delivered, Refusals, InfoReplies, ScanReplies;
      from, goods := at, [];
      var adsConnected := adsConnection.IsConnected();
      Sample();
      LetOthersRun();
      ConnectedIsAllocated();
      if !initialized {
        Decide();
        return;
      }
      if !adsConnected || !sumRead.isInitialized || !sumRead.isAllocated {
        Reconnect();
        return;
      }
      Decide();
      from, goods := Poll(infoIsDue);
      RefusedWasAsked(old(adsConnection.device.replies), adsConnection.device.replies);
    }

    ghost method Sample()
      requires Valid() && Settled() && InStep() && at.scan == L.Head && !exitCalled
      modifies this`at
      ensures Valid() && Settled() && InStep() && at.scan == L.Sampled(adsConnection.IsConnected())
      ensures at.log == old(at).log
    {
      hide Coherent, L.Reachable, BuffersMatch, RecordsMatch, HandlesMatch, AllFresh, Resolved;
      at := L.ScanAlone(at, true);
    }

    ghost method Decide()
      requires Valid() && Settled() && InStep() && at.scan == L.Sampled(adsConnection.IsConnected())
      requires !initialized || (adsConnection.IsConnected() && sumRead.isInitialized)
      modifies this`at
      ensures Valid() && Settled() && InStep() && at.scan == if initialized then L.DeviceInfo else L.Head
      ensures at.log == old(at).log
    {
      hide Coherent, L.Reachable, BuffersMatch, RecordsMatch, HandlesMatch, AllFresh, Resolved;
      at := L.ScanAlone(at, true);
    }

    lemma ConnectedIsAllocated()
      requires Valid() && Settled()
      ensures initialized ==> sumRead.isAllocated
      ensures adsConnection.IsConnected() ==> initialized
      ensures adsConnection.IsConnected() <==> sumRead.isInitialized
    {
      hide Coherent;
    }

    lemma ReadsHaveChunks()
      requires Valid() && sumRead.listed == adsReadVars
      ensures adsReadVars != [] ==> sumRead.chunkSet != {}
    {
      hide SumReadRequest.Kept, SumReadRequest.Dealt, SumReadRequest.StoresApart, SumReadRequest.Slotted,
        SumReadRequest.TablesCurrent, Connection.Accounted, NoStrays, Registered;
      sumRead.Holds(sumRead.listed);
      if |adsReadVars| > 0 {
        assert adsReadVars[0] in sumRead.listed;
      }
    }

    /** What the scan thread does when its loop has ended. */
    method EndScan()
      requires Valid() && Settled() && InStep() && at.scan == L.Head && exitCalled
      modifies this`at, sumRead`isInitialized, sumRead.chunkSet`requestBuffer
      modifies adsConnection`adsPort, adsConnection`leaked, adsConnection.device`live, adsConnection.device`releases
      modifies adsConnection.device`replies, all
      ensures Valid() && Settled() && InStep()
      ensures !adsConnection.IsConnected() && !sumRead.isInitialized && at.scan == L.Done
    {
      hide Coherent, L.Reachable, BuffersMatch, RecordsMatch, HandlesMatch, AllFresh, Resolved;
      at := L.Leaves(at);
      if adsConnection.IsConnected() {
        var ignored := ADSDisconnect();
      }
    }

    /** A record names a new variable. */
    method CreateDeviceVariable(spec: AddressSpec) returns (v: ADSVariable)
      requires Valid() && InStep() && spec.variableName != ""
      modifies this`adsReadVars, this`adsWriteVars, this`known, this`all
      ensures Valid() && InStep() && (old(Settled()) ==> Settled())
      ensures fresh(v) && fresh(v.addr) && v.addr.spec == spec && v.conn == adsConnection && !v.writeReadback
      ensures adsReadVars == old(adsReadVars) + if spec.operation == Read then [v] else []
      ensures adsWriteVars == old(adsWriteVars) + if spec.operation == Write then [v] else []
      ensures known == old(known) + {v} && all == old(all) + {v.addr}
    {
      hide Coherent, BuffersMatch, PlacesMatch, L.Reachable, AllFresh, Resolved;
      var addr := new ADSAddress(spec);
      v := new ADSVariable(addr);
      v.conn := adsConnection;
      Register(v);
    }

    method Register(v: ADSVariable)
      requires Valid() && InStep() && v !in known
      requires v.conn == adsConnection && v.bufferReader == EMPTY_BUFFER_DATA_POSITION
      requires v.lastWritten == [] && !v.writeReadback && !v.addr.nameIsResolved && v.addr.spec.variableName != ""
      modifies this`adsReadVars, this`adsWriteVars, this`known, this`all
      ensures Valid() && InStep() && (old(Settled()) ==> Settled())
      ensures adsReadVars == old(adsReadVars) + if v.addr.spec.operation == Read then [v] else []
      ensures adsWriteVars == old(adsWriteVars) + if v.addr.spec.operation == Write then [v] else []
      ensures known == old(known) + {v} && all == old(all) + {v.addr}
    {
      hide Coherent, BuffersMatch, PlacesMatch, OverlayMatches, L.Reachable, AllFresh, Resolved, Overlay;
      KnownOverlays(at.pending);
      Enlist(v);
      forall u | u in known ensures Overlay(u, at.pending) {
        if u == v {
          OverlayOfNew(v, at.pending);
        }
      }
      AllOverlays(at.pending);
    }

    lemma OverlayOfNew(v: ADSVariable, pending: map<nat, nat>)
      requires v.lastWritten == [] && !v.writeReadback && v !in sumRead.listed
      ensures Overlay(v, pending)
    {
    }

    lemma AllOverlays(pending: map<nat, nat>)
      requires forall u | u in known :: Overlay(u, pending)
      requires forall u | u in known && u.writeReadback :: u in adsReadVars
      ensures OverlayMatches(pending)
    {
    }

    method Enlist(v: ADSVariable)
      requires Coherent() && v !in known
      requires v.conn == adsConnection && v.bufferReader == EMPTY_BUFFER_DATA_POSITION
      requires !v.addr.nameIsResolved && v.addr.spec.variableName != ""
      modifies this`adsReadVars, this`adsWriteVars, this`known, this`all
      ensures Coherent() && Resolved(all) == old(Resolved(all))
      ensures adsReadVars == old(adsReadVars) + if v.addr.spec.operation == Read then [v] else []
      ensures adsWriteVars == old(adsWriteVars) + if v.addr.spec.operation == Write then [v] else []
      ensures known == old(known) + {v} && all == old(all) + {v.addr} && v !in sumRead.listed
    {
      hide SumReadRequest.Slotted, Connection.Accounted, SumReadRequest.Valid, SumReadRequest.TablesCurrent, Resolved,
        Registered, NoStrays;
      adsConnection.OneMoreAddress(all, v.addr);
      AddToLists(v);
    }

    method AddToLists(v: ADSVariable)
      requires Registered() && NoStrays() && v !in known
      requires v.conn == adsConnection && v.bufferReader == EMPTY_BUFFER_DATA_POSITION
      modifies this`adsReadVars, this`adsWriteVars, this`known, this`all
      ensures Registered() && NoStrays()
      ensures adsReadVars == old(adsReadVars) + if v.addr.spec.operation == Read then [v] else []
      ensures adsWriteVars == old(adsWriteVars) + if v.addr.spec.operation == Write then [v] else []
      ensures known == old(known) + {v} && all == old(all) + {v.addr} && v !in sumRead.listed
    {
      all := all + {v.addr};
      known := known + {v};
      match v.addr.spec.operation
      case Read => adsReadVars := adsReadVars + [v];
      case Write => adsWriteVars := adsWriteVars + [v];
    }

    /** When all records are known: I/O Intr records that write get their value read back, too, and the
      buffers are allocated, if the supply of memory covers them. */
    method InitHook(interrupts: seq<ADSVariable>, supply: nat)
      requires Valid() && InStep() && !L.ScanHolds(at.scan)
      requires forall v | v in interrupts :: v in known
      modifies this`at, this`order, this`initialized, this`adsReadVars, this`interruptVars, sumRead
      modifies (set v | v in interrupts)`writeReadback
      modifies known`bufferReader
      ensures Valid() && InStep() && at.scan == old(at).scan && (old(Settled()) ==> Settled())
      ensures old(initialized) ==> initialized && adsReadVars == old(adsReadVars) && unchanged(sumRead)
      ensures !old(initialized) ==>
                && adsReadVars == old(adsReadVars) + Writables(interrupts)
                && (forall v | v in Writables(interrupts) :: v.writeReadback)
                && (forall v | v in interrupts && v !in Writables(interrupts) ::
                      v.writeReadback == old(v.writeReadback))
                && (initialized <==> Storage(adsReadVars) <= supply)
                && (initialized ==> sumRead.listed == adsReadVars && interruptVars == interrupts)
                && fresh(sumRead.chunkSet) && fresh(sumRead.bufferSet) && fresh(sumRead.storeSet)
    {
      hide Coherent, BuffersMatch, ControlMatches, RecordsMatch, AllFresh, Resolved, Storage, Quiet;
      if initialized {
        return;
      }
      QuietAtFirst();
      MarkReadbacks(interrupts);
      AllocateBuffers(interrupts, supply);
    }

    /** No value is pending, and whoever has readback is to be read. */
    ghost predicate Quiet()
      reads this`adsReadVars, this`known, known`lastWritten, known`writeReadback
    {
      forall v | v in known :: v.lastWritten == [] && (v.writeReadback ==> v in adsReadVars)
    }

    lemma QuietAtFirst()
      requires Valid() && InStep() && !initialized
      ensures Quiet() && sumRead.listed == [] && interruptVars == []
    {
      hide Coherent;
      L.BeforeAllocation(at);
      NoneListed();
    }

    lemma NoneListed()
      requires Coherent() && !sumRead.isAllocated
      ensures sumRead.listed == []
    {
    }

    method MarkReadbacks(interrupts: seq<ADSVariable>)
      requires Coherent() && Quiet()
      requires forall v | v in interrupts :: v in known
      modifies this`adsReadVars, (set v | v in interrupts)`writeReadback
      ensures Coherent() && Quiet()
      ensures adsReadVars == old(adsReadVars) + Writables(interrupts)
      ensures forall v | v in Writables(interrupts) :: v.writeReadback
      ensures forall v | v in interrupts && v !in Writables(interrupts) :: v.writeReadback == old(v.writeReadback)
      ensures forall v | v in interrupts :: v in adsReadVars
    {
      hide SumReadRequest.Slotted, Connection.Accounted, SumReadRequest.Valid, SumReadRequest.TablesCurrent;
      MarkEach(interrupts);
      assert Registered();
      assert NoStrays();
    }

    /** The loop of initHook. */
    method MarkEach(interrupts: seq<ADSVariable>)
      modifies this`adsReadVars, (set v | v in interrupts)`writeReadback
      ensures adsReadVars == old(adsReadVars) + Writables(interrupts)
      ensures forall v | v in Writables(interrupts) :: v.writeReadback
      ensures forall v | v in interrupts && v !in Writables(interrupts) :: v.writeReadback == old(v.writeReadback)
    {
      var i := 0;
      while i < |interrupts|
        invariant 0 <= i <= |interrupts|
        invariant adsReadVars == old(adsReadVars) + Writables(interrupts[..i])
        invariant forall v | v in Writables(interrupts[..i]) :: v.writeReadback
        invariant forall v | v in interrupts && v !in Writables(interrupts[..i]) ::
                    v.writeReadback == old(v.writeReadback)
      {
        var v := interrupts[i];
        assert interrupts[..i + 1][..i] == interrupts[..i];
        if v.addr.spec.operation == Write {
          v.writeReadback := true;
          adsReadVars := adsReadVars + [v];
        }
        i := i + 1;
      }
      assert interrupts[..i] == interrupts;
    }

    /** The allocation in initHook, followed in the interleaving machine. */
    method AllocateBuffers(interrupts: seq<ADSVariable>, supply: nat)
      requires Valid() && Quiet() && ControlMatches(at) && BuffersMatch(at.chunks) && at.handler == L.Idle
      requires !initialized && sumRead.listed == [] && interruptVars == []
      requires forall v | v in interrupts :: v in adsReadVars
      modifies this`at, this`order, this`initialized, this`interruptVars, sumRead
      modifies known`bufferReader
      ensures Valid() && InStep() && at.scan == old(at).scan && !sumRead.isInitialized
      ensures initialized <==> Storage(adsReadVars) <= supply
      ensures initialized ==> sumRead.listed == adsReadVars && interruptVars == interrupts
      ensures fresh(sumRead.chunkSet) && fresh(sumRead.bufferSet) && fresh(sumRead.storeSet)
    {
      hide Coherent, Resolved, L.Reachable, BuffersMatch, RecordsMatch, Numbered, Quiet, Storage;
      L.BeforeAllocation(at);
      var status;
      ghost var buffers;
      status, buffers := AllocateAll(supply);
      if status == 0 {
        UseBuffers(buffers, interrupts);
      } else {
        MatchNone(at.chunks);
        NoRecords();
      }
    }

    lemma NoRecords()
      requires Quiet() && sumRead.listed == [] && interruptVars == [] && !initialized
      ensures RecordsMatch([], [], map[])
    {
    }

    /** The driver has its buffers. */
    method UseBuffers(ghost buffers: seq<SumReadBuffer>, interrupts: seq<ADSVariable>)
      requires Coherent() && sumRead.isAllocated && !sumRead.isInitialized && Quiet()
      requires ControlMatches(at) && at.handler == L.Idle && !initialized
      requires sumRead.bufferSet == set b | b in buffers
      requires forall b | b in sumRead.bufferSet :: b.bufferState == Invalid
      requires sumRead.listed == adsReadVars
      requires forall v | v in adsReadVars :: v.bufferReader.buffer in sumRead.bufferSet
      requires forall v | v in interrupts :: v in adsReadVars
      modifies this`at, this`order, this`initialized, this`interruptVars
      ensures Valid() && InStep() && at.scan == old(at).scan && initialized && interruptVars == interrupts
    {
      hide Coherent, Resolved, L.Reachable, BuffersMatch, RecordsMatch, Numbered, Quiet;
      L.BeforeAllocation(at);
      initialized := true;
      order := buffers;
      interruptVars := interrupts;
      MatchUnfilled();
      ghost var places, scanned := RecordsNumbered();
      at := L.Allocates(at, |order|, places, scanned);
    }

    lemma RecordsNumbered() returns (places: seq<nat>, scanned: seq<nat>)
      requires Quiet() && sumRead.listed == adsReadVars && initialized
      requires sumRead.bufferSet == set b | b in order
      requires forall v | v in adsReadVars :: v.bufferReader.buffer in sumRead.bufferSet
      requires forall v | v in interruptVars :: v in adsReadVars
      ensures RecordsMatch(places, scanned, map[])
      ensures forall i | 0 <= i < |places| :: places[i] < |order|
      ensures forall i | 0 <= i < |scanned| :: scanned[i] < |places|
    {
      var listed, interrupts, buffers := sumRead.listed, interruptVars, order;
      assert forall i | 0 <= i < |listed| :: listed[i] in listed;
      assert forall i | 0 <= i < |interrupts| :: interrupts[i] in interrupts;
      places := PlacesIn(buffers, listed);
      scanned := seq(|interrupts|, i requires 0 <= i < |interrupts| => IndexIn(listed, interrupts[i]));
    }

    method AllocateAll(supply: nat) returns (status: int, ghost buffers: seq<SumReadBuffer>)
      requires Coherent() && !sumRead.isAllocated
      modifies sumRead, known`bufferReader
      ensures Coherent() && !sumRead.isInitialized && (sumRead.isAllocated <==> status == 0)
      ensures status == 0 <==> Storage(adsReadVars) <= supply
      ensures status != 0 ==> sumRead.listed == [] && sumRead.bufferSet == {}
      ensures sumRead.bufferSet == (set b | b in buffers) && old(sumRead.bufferSet) == {}
      ensures status == 0 ==> sumRead.listed == adsReadVars
      ensures status == 0 ==> forall b | b in sumRead.bufferSet :: b.bufferState == Invalid
      ensures status == 0 ==> forall v | v in adsReadVars :: v.bufferReader.buffer in sumRead.bufferSet
      ensures fresh(sumRead.chunkSet) && fresh(sumRead.bufferSet) && fresh(sumRead.storeSet)
    {
      hide Connection.Accounted, SumReadRequest.Valid, SumReadRequest.TablesCurrent, SumReadRequest.Kept;
      sumRead.Empty();
      status := sumRead.Allocate(adsReadVars, supply);
      sumRead.NoneSlotted();
      sumRead.IsKept();
      if status != 0 {
        sumRead.Empty();
      }
      buffers := sumRead.BuffersInOrder();
      assert Registered();
      assert NoStrays();
    }

    /** May a record read this variable now? */
    predicate MayRead(v: ADSVariable)
      reads v`writeReadback, adsConnection`adsPort
    {
      !(v.addr.spec.operation == Write && !v.writeReadback) && adsConnection.IsConnected()
    }

    lemma KnownIsReadable(v: ADSVariable)
      requires Valid() && v in known
      ensures v.conn == adsConnection && v.Readable()
      ensures v.bufferReader.buffer != null ==> v.bufferReader.buffer.Arrays() <= sumRead.storeSet
      ensures v in sumRead.listed <== v.bufferReader.buffer != null
    {
      hide SumReadRequest.Valid, SumReadRequest.TablesCurrent, SumReadRequest.Slotted, Connection.Accounted, Registered;
      if v in sumRead.listed {
        var c := sumRead.SlotOf(v);
        sumRead.IsKept();
      }
    }

    /** The device has answered a sum-read that asked for `v`, from memory `m`, over the connection that stands. */
    ghost predicate AnsweredFrom(v: ADSVariable, m: Memory)
      reads adsConnection`session, adsConnection.device`answers, v.addr
    {
      exists i :: 0 <= i < |adsConnection.device.answers| &&
        var answer := adsConnection.device.answers[i];
        && answer.session == adsConnection.session && answer.port == v.addr.spec.adsPort
        && v.Row() in answer.table && answer.memory == m
    }

    /** While the connection stands, what a record reads from the shared buffer is the result code and
      the bytes that the device gives when this one variable is read on its own, from a memory that the
      device has answered from in this session. */
    lemma RecordSeesDevice(v: ADSVariable, size: uint32) returns (m: Memory)
      requires Valid() && Settled() && adsConnection.IsConnected() && v in sumRead.listed
      requires forall c | c in sumRead.chunkSet :: c.dataBuffer.bufferSize < 0x1_0000_0000
      ensures v.addr.nameIsResolved && v.Readable() && AnsweredFrom(v, m)
      ensures var (code, data) := SingleRead(m, v.DevicePlace(), Min(size, v.Size()));
              && v.Seen(size) == R.Fetched(code, data)
              && (v.lastWritten == [] ==>
                    R.ReadCell(v.writeReadback, R.Cell([], v.Seen(size))).0
                    == if code == 0 then R.Got(data) else R.Failed(EPICSADS_NO_DATA))
    {
      hide SumReadRequest.Valid, SumReadRequest.Slotted, SumReadRequest.TablesCurrent, Connection.Accounted,
        Registered, NoStrays, SingleRead, ADSVariable.Seen, ADSVariable.Readable, ADSVariable.Size,
        ReadRequestChunk.Filled, R.ReadCell;
      assert forall c | c in sumRead.chunkSet :: sumRead.Fresh(c) && c.Filled();
      var c := sumRead.BatchedReadIsSingleRead(v, size);
      m := c.answeredFrom;
      var i :| 0 <= i < |adsConnection.device.answers| && adsConnection.device.answers[i]
               == Answer(adsConnection.session, c.adsPort, c.requestBuffer, c.answeredFrom);
    }

    /** A good sum-read is the scan of module Digital, with the bytes that the device held as it answered;
      they are those of the variable's point as long as nobody has written to it since. */
    lemma SumReadIsScan(v: ADSVariable, w: D.Width, before: R.View) returns (m: Memory)
      requires Valid() && Settled() && adsConnection.IsConnected() && v in sumRead.listed && v.Readable()
      requires forall c | c in sumRead.chunkSet :: c.dataBuffer.bufferSize < 0x1_0000_0000
      requires v.Size() == D.ByteCount(w)
      ensures AnsweredFrom(v, m)
      ensures var p := D.Point(Fit(m(v.DevicePlace()).content, D.ByteCount(w)), R.Cell(v.lastWritten, before));
              && (m(v.DevicePlace()).code == 0 && D.Sized(w, p) ==>
                    R.Cell(v.lastWritten, v.Seen(D.ByteCount(w))) == D.Step(w, p, D.Scan).cell
                    && p.device == D.Step(w, p, D.Scan).device)
              && (m(v.DevicePlace()).code == 0 && D.Sized(w, p)
                  && m(v.DevicePlace()) == adsConnection.device.memory(v.DevicePlace()) ==>
                    PointOf(v, w) == D.Step(w, p, D.Scan))
    {
      hide Valid, Settled, Fit, ADSVariable.Readable, ADSVariable.Seen, AnsweredFrom;
      m := RecordSeesDevice(v, v.Size());
    }

    /** Live handles are those of resolved variables and leaked ones, one for one; nothing leaks if and only if
      the device acknowledges every release; and then none is live once disconnected, unless shutting down. */
    ghost predicate HandlesAccounted()
      reads this`exitCalled, this`all, all, adsConnection`adsPort, adsConnection`leaked
      reads adsConnection.device`live, adsConnection.device`releases
    {
      var device, leaked := adsConnection.device, adsConnection.leaked;
      var apart := !adsConnection.IsConnected() && !exitCalled;
      && (forall h :: device.live[h] == |Holders(all, h)| + leaked[h])
      && (leaked == multiset{} <==> AllAcknowledged(device.releases))
      && (AllAcknowledged(device.releases) ==> forall h :: device.live[h] == |Holders(all, h)|)
      && (apart ==> device.live == leaked)
      && (apart && AllAcknowledged(device.releases) ==> device.live == multiset{})
    }

    lemma Handles()
      requires Valid() && Settled()
      ensures HandlesAccounted()
    {
      hide SumReadRequest.Valid, SumReadRequest.Slotted, SumReadRequest.TablesCurrent, Registered, NoStrays,
        AllAcknowledged;
      forall h ensures adsConnection.device.live[h] == |Holders(all, h)| + adsConnection.leaked[h] {
        assert adsConnection.Balanced(all, h);
      }
      if !adsConnection.IsConnected() && !exitCalled {
        forall h ensures adsConnection.device.live[h] == adsConnection.leaked[h] {
          assert Holders(all, h) <= Resolved(all);
        }
      }
    }

    // ---------- the handlers ----------

    /** asyn takes the driver lock for a handler ... */
    ghost method TakeLock()
      requires InStep() && !L.ScanHolds(at.scan)
      modifies this`at
      ensures Mirrors() && at == old(at).(lock := L.ByHandler, handler := L.Locked)
    {
      hide L.Reachable, BuffersMatch, RecordsMatch, HandlesMatch;
      L.LockIsExclusive(at);
      at := L.Happens(at, L.Lock);
    }

    /** ... and releases it. */
    ghost method ReleaseLock()
      requires Mirrors() && at.handler != L.Idle
      modifies this`at
      ensures InStep() && at == old(at).(lock := L.Free, handler := L.Idle)
    {
      hide L.Reachable, BuffersMatch, RecordsMatch, HandlesMatch;
      at := L.Happens(at, L.Unlock);
    }

    /** What the read handlers of all types do: the guard, then the shared buffer. */
    method ReadGuarded(v: ADSVariable, size: uint32, dest: array<Byte>, ghost pending: map<nat, nat>)
      returns (status: int)
      requires Valid() && v in known && OverlayMatches(pending)
      requires size <= dest.Length && dest !in sumRead.storeSet
      requires v.writeReadback ==> v.Size() <= dest.Length
      modifies dest, v`lastWritten
      ensures Valid() && v.Readable()
      ensures !MayRead(v) ==> status == ASYN_ERROR && v.lastWritten == old(v.lastWritten)
      ensures MayRead(v) ==>
                var (outcome, cell) := R.ReadCell(v.writeReadback, R.Cell(old(v.lastWritten), old(v.Seen(size))));
                && v.lastWritten == cell.pending
                && (status == 0 <==> outcome.Got?)
                && (outcome.Got? ==> |outcome.bytes| <= dest.Length && dest[..|outcome.bytes|] == outcome.bytes)
      ensures status == 0 ==> MayRead(v) && v in sumRead.listed && v.bufferReader.buffer != null
                              && v.bufferReader.buffer.bufferState == SumReadBufferState.Valid
      ensures OverlayMatches(AfterRead(v, pending, status == 0))
    {
      hide Coherent, Valid, ADSVariable.Readable, ADSVariable.Seen, R.ReadCell, Overlay, OverlayMatches, AfterRead,
        ADSVariable.Size;
      KnownIsReadable(v);
      OverlayOf(v, pending);
      NotRead(v, pending);
      if (v.addr.spec.operation == Write && !v.writeReadback) || !v.conn.IsConnected() {
        return ASYN_ERROR;
      }
      status := ReadKnown(v, size, dest, pending);
      if status != 0 {
        status := ASYN_ERROR;
      }
    }

    /** The read itself. */
    method ReadKnown(v: ADSVariable, size: uint32, dest: array<Byte>, ghost pending: map<nat, nat>)
      returns (rc: int)
      requires Valid() && v in known && v.Readable() && OverlayMatches(pending)
      requires size <= dest.Length && dest !in sumRead.storeSet
      requires v.writeReadback ==> |v.lastWritten| <= dest.Length
      modifies dest, v`lastWritten
      ensures Valid() && v.Readable()
      ensures var (outcome, cell) := R.ReadCell(v.writeReadback, R.Cell(old(v.lastWritten), old(v.Seen(size))));
              && v.lastWritten == cell.pending
              && (rc == 0 <==> outcome.Got?)
              && (outcome.Got? ==> |outcome.bytes| <= dest.Length && dest[..|outcome.bytes|] == outcome.bytes)
      ensures rc == 0 ==> v in sumRead.listed && v.bufferReader.buffer != null
                          && v.bufferReader.buffer.bufferState == SumReadBufferState.Valid
      ensures OverlayMatches(AfterRead(v, pending, rc == 0))
    {
      hide *;
      KnownIsReadable(v);
      SeenFetched(v, size);
      ghost var cell := R.Cell(v.lastWritten, v.Seen(size));
      KnownOverlays(pending);
      OverlayFacts(v, pending);
      rc := v.ReadFromBuffer(size, dest);
      ghost var outcome := R.ReadCell(v.writeReadback, cell).0;
      assert outcome.Failed? || outcome.Got?;
      ReadCellFacts(v.writeReadback, cell);
      forall u | u in known && u != v ensures Overlay(u, pending) {
        assert old(Overlay(u, pending));
      }
      OverlayOfRead(v, cell.pending, pending, rc == 0);
      OverlayAfterRead(v, pending, rc == 0);
    }

    lemma SeenFetched(v: ADSVariable, size: uint32)
      requires v.Readable()
      ensures v.Seen(size).Fetched? ==>
                v.bufferReader.buffer != null && v.bufferReader.buffer.bufferState == SumReadBufferState.Valid
    {
    }

    lemma KnownOverlays(pending: map<nat, nat>)
      requires OverlayMatches(pending)
      ensures forall u | u in known :: Overlay(u, pending)
      ensures forall u | u in known && u.writeReadback :: u in adsReadVars
    {
    }

    ghost function AfterRead(v: ADSVariable, pending: map<nat, nat>, ok: bool): map<nat, nat>
      reads sumRead`listed
    {
      if ok then pending - {IndexIn(sumRead.listed, v)} else pending
    }

    lemma NotRead(v: ADSVariable, pending: map<nat, nat>)
      ensures AfterRead(v, pending, false) == pending
    {
    }

    lemma OverlayOf(v: ADSVariable, pending: map<nat, nat>)
      requires OverlayMatches(pending) && v in known
      ensures v.lastWritten != [] ==> v.writeReadback && |v.lastWritten| == v.Size()
    {
    }

    lemma OverlayAfterRead(v: ADSVariable, pending: map<nat, nat>, ok: bool)
      requires v in known
      requires forall u | u in known && u != v :: Overlay(u, pending)
      requires forall u | u in known && u.writeReadback :: u in adsReadVars
      requires Overlay(v, AfterRead(v, pending, ok))
      ensures OverlayMatches(AfterRead(v, pending, ok))
    {
      var listed := sumRead.listed;
      assert forall u | u in listed && u != v :: IndexIn(listed, u) != IndexIn(listed, v);
    }

    lemma OverlayFacts(v: ADSVariable, pending: map<nat, nat>)
      requires Overlay(v, pending)
      ensures v.lastWritten != [] ==> v.writeReadback && v in sumRead.listed && |v.lastWritten| == v.Size()
      ensures v.writeReadback && initialized ==> v in sumRead.listed
      ensures v in sumRead.listed ==> (IndexIn(sumRead.listed, v) in pending <==> v.lastWritten != [])
    {
    }

    lemma OverlayOfRead(v: ADSVariable, was: seq<Byte>, pending: map<nat, nat>, ok: bool)
      requires was != [] ==> v.writeReadback && v in sumRead.listed && |was| == v.Size()
      requires v.writeReadback && initialized ==> v in sumRead.listed
      requires v in sumRead.listed ==> (IndexIn(sumRead.listed, v) in pending <==> was != [])
      requires v.lastWritten == if ok && v.writeReadback then [] else was
      ensures Overlay(v, AfterRead(v, pending, ok))
    {
    }

    /** A read under the lock that a handler holds. */
    method ReadLocked(v: ADSVariable, size: uint32, dest: array<Byte>) returns (status: int)
      requires Valid() && Mirrors() && at.handler == L.Locked && v in known
      requires size <= dest.Length && dest !in sumRead.storeSet
      requires v.writeReadback ==> v.Size() <= dest.Length
      modifies this`at, dest, v`lastWritten
      ensures Valid() && Mirrors() && v.Readable()
      ensures at == if status == 0 then L.HandOut(old(at), IndexIn(sumRead.listed, v), old(at).session, true)
                    else old(at)
      ensures !MayRead(v) ==> status == ASYN_ERROR && v.lastWritten == old(v.lastWritten)
      ensures MayRead(v) ==>
                var (outcome, cell) := R.ReadCell(v.writeReadback, R.Cell(old(v.lastWritten), old(v.Seen(size))));
                && v.lastWritten == cell.pending
                && (status == 0 <==> outcome.Got?)
                && (outcome.Got? ==> |outcome.bytes| <= dest.Length && dest[..|outcome.bytes|] == outcome.bytes)
    {
      hide Valid, L.Reachable, HandlesMatch, BuffersMatch, PlacesMatch, OverlayMatches, AfterRead, L.HandOut,
        L.Offered, R.ReadCell, ADSVariable.Readable, ADSVariable.Seen, ADSVariable.Size;
      status := ReadGuarded(v, size, dest, at.pending);
      ReadPending(at, v, at.session, status == 0);
      ghost var t := L.HandlerReads(at, IndexIn(sumRead.listed, v), status == 0);
      MovesOn(t);
      at := t;
    }

    /** The read handlers of all types. */
    method ReadRecord(v: ADSVariable, size: uint32, dest: array<Byte>) returns (status: int)
      requires Valid() && InStep() && !L.ScanHolds(at.scan) && v in known
      requires size <= dest.Length && dest !in sumRead.storeSet
      requires v.writeReadback ==> v.Size() <= dest.Length
      modifies this`at, dest, v`lastWritten
      ensures Valid() && InStep() && at.scan == old(at).scan && v.Readable()
      ensures at.log == if status == 0 then L.HandOut(old(at), IndexIn(sumRead.listed, v), old(at).session, true).log
                        else old(at).log
      ensures !MayRead(v) ==> status == ASYN_ERROR && v.lastWritten == old(v.lastWritten)
      ensures MayRead(v) ==>
                var (outcome, cell) := R.ReadCell(v.writeReadback, R.Cell(old(v.lastWritten), old(v.Seen(size))));
                && v.lastWritten == cell.pending
                && (status == 0 <==> outcome.Got?)
                && (outcome.Got? ==> |outcome.bytes| <= dest.Length && dest[..|outcome.bytes|] == outcome.bytes)
    {
      hide Valid, Mirrors, R.ReadCell, ADSVariable.Readable, ADSVariable.Seen, ADSVariable.Size, MayRead, L.HandOut;
      KnownIsReadable(v);
      ghost var before := at;
      TakeLock();
      L.SameHandOut(before, before.(handler := L.Locked, lock := L.ByHandler), IndexIn(sumRead.listed, v), true);
      status := ReadLocked(v, size, dest);
      ReleaseLock();
    }

    /** digitalRead; a failed read leaves the value undefined. */
    method DigitalReadLocked(v: ADSVariable, w: D.Width, mask: bv32) returns (status: int, value: bv32)
      requires Valid() && Mirrors() && at.handler == L.Locked && v in known
      requires v.writeReadback ==> v.Size() <= D.ByteCount(w)
      modifies this`at, v`lastWritten
      ensures Valid() && Mirrors() && at.handler == L.Locked && at.scan == old(at).scan && v.Readable()
      ensures !MayRead(v) ==> status == ASYN_ERROR && v.lastWritten == old(v.lastWritten)
      ensures MayRead(v) ==>
                var (outcome, cell) :=
                  R.ReadCell(v.writeReadback, R.Cell(old(v.lastWritten), old(v.Seen(D.ByteCount(w)))));
                && v.lastWritten == cell.pending
                && (status == 0 <==> outcome.Got?)
                && (outcome.Got? && |outcome.bytes| == D.ByteCount(w) ==>
                      && value == D.Masked(D.FromBytes(w, outcome.bytes), mask)
                      && D.Shares(value, D.FromBytes(w, outcome.bytes), mask))
    {
      hide *;
      KnownIsReadable(v);
      var buffer := new Byte[D.ByteCount(w)];
      status := ReadLocked(v, D.ByteCount(w), buffer);
      if status != 0 {
        value := *;
        return;
      }
      assert buffer[..] == buffer[..D.ByteCount(w)];
      value := D.Masked(D.FromBytes(w, buffer[..]), mask);
      D.MaskedBits(D.FromBytes(w, buffer[..]), mask);
    }

    method DigitalRead(v: ADSVariable, w: D.Width, mask: bv32) returns (status: int, value: bv32)
      requires Valid() && InStep() && !L.ScanHolds(at.scan) && v in known
      requires v.writeReadback ==> v.Size() <= D.ByteCount(w)
      modifies this`at, v`lastWritten
      ensures Valid() && InStep() && at.scan == old(at).scan && v.Readable()
      ensures !MayRead(v) ==> status == ASYN_ERROR && v.lastWritten == old(v.lastWritten)
      ensures MayRead(v) ==>
                var (outcome, cell) :=
                  R.ReadCell(v.writeReadback, R.Cell(old(v.lastWritten), old(v.Seen(D.ByteCount(w)))));
                && v.lastWritten == cell.pending
                && (status == 0 <==> outcome.Got?)
                && (outcome.Got? && |outcome.bytes| == D.ByteCount(w) ==>
                      D.Shares(value, D.FromBytes(w, outcome.bytes), mask))
    {
      hide Valid, Mirrors, R.ReadCell, ADSVariable.Readable, ADSVariable.Seen, ADSVariable.Size, MayRead, D.FromBytes,
        D.Masked, D.Shares;
      KnownIsReadable(v);
      TakeLock();
      status, value := DigitalReadLocked(v, w, mask);
      ReleaseLock();
    }

    /** The variable as module Digital sees it. */
    ghost function PointOf(v: ADSVariable, w: D.Width): D.Point
      requires v.Readable()
      reads v, v.addr, v.bufferReader.buffer, adsConnection.device
      reads if v.bufferReader.buffer == null then null else v.bufferReader.buffer.buffer
    {
      D.Point(Fit(adsConnection.device.memory(v.DevicePlace()).content, D.ByteCount(w)),
              R.Cell(v.lastWritten, v.Seen(D.ByteCount(w))))
    }

    /** A resolved variable of this width with readback, whose buffer has something good to offer. */
    ghost predicate Ready(v: ADSVariable, w: D.Width)
      requires v.Readable()
      reads v, v.addr, v.bufferReader.buffer, adsConnection.device, adsConnection
      reads if v.bufferReader.buffer == null then null else v.bufferReader.buffer.buffer
    {
      MayRead(v) && v.writeReadback && v.addr.nameIsResolved && v.Size() == D.ByteCount(w) && D.Sized(w, PointOf(v, w))
    }

    /** What a partial-mask write reads first. */
    method CurrentValue(v: ADSVariable, w: D.Width) returns (current: bv32)
      requires Valid() && Mirrors() && at.handler == L.Locked && v in known && v.Readable()
      requires v.writeReadback ==> v.Size() <= D.ByteCount(w)
      modifies this`at, v`lastWritten
      ensures Valid() && Mirrors() && at.handler == L.Locked && at.scan == old(at).scan && v.Readable()
      ensures old(Ready(v, w)) ==>
                && current == D.FromBytes(w, D.Shown(old(PointOf(v, w))))
                && PointOf(v, w) == D.Looked(old(PointOf(v, w)))
    {
      hide Valid, Mirrors, ADSVariable.Readable, ADSVariable.Seen, D.FromBytes, D.Masked, Fit, ADSVariable.Size;
      ghost var shown := if Ready(v, w) then D.FromBytes(w, D.Shown(PointOf(v, w))) else 0;
      D.NothingMasked(shown);
      var status;
      status, current := DigitalReadLocked(v, w, D.FULL_MASK);
      assert v.bufferReader == old(v.bufferReader) && v.Seen(D.ByteCount(w)) == old(v.Seen(D.ByteCount(w)));
    }

    /** The first half of digitalWrite: what to send. */
    method BlendedValue(v: ADSVariable, w: D.Width, val: bv32, mask: bv32) returns (value: bv32)
      requires Valid() && Mirrors() && at.handler == L.Locked && v in known && v.Readable()
      requires v.writeReadback ==> v.Size() <= D.ByteCount(w)
      modifies this`at, v`lastWritten
      ensures Valid() && Mirrors() && at.handler == L.Locked && at.scan == old(at).scan && v.Readable()
      ensures mask == D.FULL_MASK ==> value == val
      ensures old(Ready(v, w)) ==>
                && value == D.ValueToWrite(w, old(PointOf(v, w)), val, mask)
                && PointOf(v, w) == D.AfterLook(old(PointOf(v, w)), mask)
    {
      hide Valid, Mirrors, ADSVariable.Readable, PointOf, D.FromBytes, ADSVariable.Size;
      value := val;
      if mask != D.FULL_MASK {
        var current := CurrentValue(v, w);
        current := current | (val & mask);
        current := current & (val | !mask);
        value := current;
      }
    }

    /** What a write of `bytes` sends to the device: one block for the variable's own place, unless the name is
      not resolved or the bytes are too many; `answer` is what the device said to it. */
    ghost function Sent(v: ADSVariable, bytes: seq<Byte>, answer: int): seq<Written>
      reads v.addr, adsConnection`adsPort
    {
      if v.addr.nameIsResolved && |bytes| <= v.Size() then
        [Written(adsConnection.adsPort, v.DevicePlace(), Fit(bytes, v.Size()), answer)]
      else []
    }

    /** digitalWrite does to the device and to the pending value what the step of module Digital says. */
    method DigitalWrite(v: ADSVariable, w: D.Width, val: bv32, mask: bv32)
      returns (status: int, ghost value: bv32, ghost answer: int)
      requires Valid() && InStep() && !L.ScanHolds(at.scan) && v in known && v.Readable()
      requires v.writeReadback ==> v.Size() <= D.ByteCount(w)
      modifies this`at, v`lastWritten, adsConnection.device`memory, adsConnection.device`writes
      ensures Valid() && InStep() && at.scan == old(at).scan && v.Readable()
      ensures mask == D.FULL_MASK ==> value == val
      ensures old(Ready(v, w)) ==> value == D.ValueToWrite(w, old(PointOf(v, w)), val, mask)
      ensures adsConnection.device.writes == old(adsConnection.device.writes) + Sent(v, D.ToBytes(w, value), answer)
      ensures status == 0 <==> v.addr.nameIsResolved && D.ByteCount(w) <= v.Size() && answer == 0
      ensures status == 0 || status == ASYN_ERROR
      ensures status == 0 && mask == D.FULL_MASK ==>
                adsConnection.device.memory(v.DevicePlace()) == Symbol(0, Fit(D.ToBytes(w, val), v.Size()))
      ensures old(Ready(v, w)) ==>
                var after := D.Step(w, old(PointOf(v, w)), D.Put(val, mask, status == 0));
                && PointOf(v, w).cell == after.cell
                && (status == 0 ==> PointOf(v, w) == after && adsConnection.device.memory(v.DevicePlace()).code == 0)
    {
      hide Valid, Mirrors, ADSVariable.Readable, PointOf, Ready, D.Step, D.Sized;
      ReadyFacts(v, w);
      TakeLock();
      KnownIsReadable(v);
      assert v.bufferReader == old(v.bufferReader) && PointOf(v, w) == old(PointOf(v, w));
      status, value, answer := DigitalWriteLocked(v, w, val, mask);
      ghost var after := PointOf(v, w);
      ReleaseLock();
      KnownIsReadable(v);
      assert v.bufferReader == old(v.bufferReader) && PointOf(v, w) == after;
    }

    lemma ReadyFacts(v: ADSVariable, w: D.Width)
      requires v.Readable()
      ensures Ready(v, w) ==>
                v.addr.nameIsResolved && v.writeReadback && v.Size() == D.ByteCount(w) && D.Sized(w, PointOf(v, w))
    {
    }

    method DigitalWriteLocked(v: ADSVariable, w: D.Width, val: bv32, mask: bv32)
      returns (status: int, ghost value: bv32, ghost answer: int)
      requires Valid() && Mirrors() && at.handler == L.Locked && v in known && v.Readable()
      requires v.writeReadback ==> v.Size() <= D.ByteCount(w)
      modifies this`at, v`lastWritten, adsConnection.device`memory, adsConnection.device`writes
      ensures Valid() && Mirrors() && at.handler == L.Locked && at.scan == old(at).scan && v.Readable()
      ensures mask == D.FULL_MASK ==> value == val
      ensures old(Ready(v, w)) ==> value == D.ValueToWrite(w, old(PointOf(v, w)), val, mask)
      ensures adsConnection.device.writes == old(adsConnection.device.writes) + Sent(v, D.ToBytes(w, value), answer)
      ensures status == 0 <==> v.addr.nameIsResolved && D.ByteCount(w) <= v.Size() && answer == 0
      ensures status == 0 || status == ASYN_ERROR
      ensures status == 0 && mask == D.FULL_MASK ==>
                adsConnection.device.memory(v.DevicePlace()) == Symbol(0, Fit(D.ToBytes(w, val), v.Size()))
      ensures old(Ready(v, w)) ==>
                D.Sized(w, old(PointOf(v, w))) &&
                var after := D.Step(w, old(PointOf(v, w)), D.Put(val, mask, status == 0));
                && PointOf(v, w).cell == after.cell
                && (status == 0 ==> PointOf(v, w) == after && adsConnection.device.memory(v.DevicePlace()).code == 0)
    {
      hide Valid, Mirrors, ADSVariable.Readable, ADSVariable.Size, PointOf, Ready, MayRead, D.Step, D.AfterLook,
        D.Sized, D.ToBytes, D.ValueToWrite;
      ReadyFacts(v, w);
      if D.Sized(w, PointOf(v, w)) {
        D.PutStep(w, PointOf(v, w), val, mask);
      }
      var valueToWrite := BlendedValue(v, w, val, mask);
      value := valueToWrite;
      status, answer := SendDigital(v, w, valueToWrite);
    }

    /** The second half of digitalWrite. */
    method SendDigital(v: ADSVariable, w: D.Width, value: bv32) returns (status: int, ghost answer: int)
      requires Valid() && Mirrors() && at.handler == L.Locked && v in known && v.Readable()
      modifies this`at, v`lastWritten, adsConnection.device`memory, adsConnection.device`writes
      ensures Valid() && Mirrors() && at.handler == L.Locked && at.scan == old(at).scan && v.Readable()
      ensures adsConnection.device.writes == old(adsConnection.device.writes) + Sent(v, D.ToBytes(w, value), answer)
      ensures status == 0 <==> v.addr.nameIsResolved && D.ByteCount(w) <= v.Size() && answer == 0
      ensures status == 0 || status == ASYN_ERROR
      ensures status == 0 ==>
                adsConnection.device.memory(v.DevicePlace()) == Symbol(0, Fit(D.ToBytes(w, value), v.Size()))
      ensures var p, bytes := old(PointOf(v, w)), D.ToBytes(w, value);
              && (status != 0 ==> PointOf(v, w).cell == p.cell)
              && (status == 0 && v.writeReadback && v.Size() == D.ByteCount(w) ==>
                    && PointOf(v, w) == D.Point(bytes, p.cell.(pending := bytes))
                    && adsConnection.device.memory(v.DevicePlace()).code == 0)
    {
      hide Valid, Mirrors, ADSVariable.Readable, ADSVariable.Seen, D.ToBytes, ADSVariable.Size;
      status, answer := WriteLocked(v, D.ToBytes(w, value));
      assert v.bufferReader == old(v.bufferReader) && v.Seen(D.ByteCount(w)) == old(v.Seen(D.ByteCount(w)));
    }

    /** What the write handlers do: hand the bytes to the variable. */
    method WriteGuarded(v: ADSVariable, bytes: seq<Byte>) returns (status: int, ghost answer: int)
      requires Valid() && v in known && |bytes| < 0x1_0000_0000
      modifies v`lastWritten, adsConnection.device`memory, adsConnection.device`writes
      ensures Valid() && v.Readable()
      ensures adsConnection.device.writes == old(adsConnection.device.writes) + Sent(v, bytes, answer)
      ensures status == 0 <==> v.addr.nameIsResolved && |bytes| <= v.Size() && answer == 0
      ensures status == 0 ==>
                && adsConnection.device.memory(v.DevicePlace()) == Symbol(0, Fit(bytes, v.Size()))
                && v.lastWritten == if v.writeReadback then Fit(bytes, v.Size()) else old(v.lastWritten)
      ensures status != 0 ==> status == ASYN_ERROR && v.lastWritten == old(v.lastWritten)
    {
      hide Valid, Coherent, ADSVariable.Readable, EpicsCode, Fit, ADSVariable.Size;
      KnownIsReadable(v);
      var data := new Byte[|bytes|](i requires 0 <= i < |bytes| => bytes[i]);
      assert data[..|bytes|] == bytes;
      status, answer := v.Write(data, |bytes|);
      if status != 0 {
        status := ASYN_ERROR;
      }
    }

    /** A write under the lock that a handler holds. */
    method WriteLocked(v: ADSVariable, bytes: seq<Byte>) returns (status: int, ghost answer: int)
      requires Valid() && Mirrors() && at.handler != L.Idle && v in known && |bytes| < 0x1_0000_0000
      modifies this`at, v`lastWritten, adsConnection.device`memory, adsConnection.device`writes
      ensures Valid() && Mirrors() && at.handler == old(at).handler && at.scan == old(at).scan && v.Readable()
      ensures at.log == old(at).log
      ensures adsConnection.device.writes == old(adsConnection.device.writes) + Sent(v, bytes, answer)
      ensures status == 0 <==> v.addr.nameIsResolved && |bytes| <= v.Size() && answer == 0
      ensures status == 0 ==>
                && adsConnection.device.memory(v.DevicePlace()) == Symbol(0, Fit(bytes, v.Size()))
                && v.lastWritten == if v.writeReadback then Fit(bytes, v.Size()) else old(v.lastWritten)
      ensures status != 0 ==> status == ASYN_ERROR && v.lastWritten == old(v.lastWritten)
    {
      hide Valid, L.Reachable, HandlesMatch, BuffersMatch, PlacesMatch, OverlayMatches, Overlay, Fit,
        ADSVariable.Readable, ADSVariable.Size;
      KnownOverlays(at.pending);
      OverlayFacts(v, at.pending);
      ResolvedMeansAllocated(v);
      ghost var was := v.lastWritten;
      status, answer := WriteGuarded(v, bytes);
      FollowWrite(v, was, status == 0 && v.lastWritten != []);
      KnownIsReadable(v);
    }

    /** The interleaving machine keeps pace with a write. */
    ghost method FollowWrite(v: ADSVariable, was: seq<Byte>, acked: bool)
      requires ControlMatches(at) && BuffersMatch(at.chunks) && PlacesMatch(at.places, at.scanned)
      requires at.handler != L.Idle && v in known
      requires forall u | u in known && u != v :: Overlay(u, at.pending)
      requires forall u | u in known && u.writeReadback :: u in adsReadVars
      requires was != [] ==> v.writeReadback && v in sumRead.listed && |was| == v.Size()
      requires v.writeReadback && initialized ==> v in sumRead.listed
      requires v in sumRead.listed ==> (IndexIn(sumRead.listed, v) in at.pending <==> was != [])
      requires if acked then v.lastWritten != [] && v.writeReadback && initialized && |v.lastWritten| == v.Size()
               else v.lastWritten == was
      modifies this`at
      ensures Mirrors() && at.handler == old(at).handler && at.scan == old(at).scan && at.log == old(at).log
    {
      hide L.Reachable, HandlesMatch, BuffersMatch, PlacesMatch, OverlayMatches, Overlay, ADSVariable.Size;
      OverlayAfterWrite(v, at.pending, was, acked, at.session);
      if acked {
        PlacesCounted();
        at := L.Happens(at, L.Acknowledge(IndexIn(sumRead.listed, v)));
      }
    }

    lemma PlacesCounted()
      requires PlacesMatch(at.places, at.scanned)
      ensures |at.places| == |sumRead.listed|
    {
    }

    lemma ResolvedMeansAllocated(v: ADSVariable)
      requires Valid() && ControlMatches(at) && v in known
      ensures v.addr.nameIsResolved ==> initialized
    {
      if !initialized {
        L.BeforeAllocation(at);
        assert v.addr !in Resolved(all) && v.addr in all;
      }
    }

    lemma OverlayAfterWrite(v: ADSVariable, pending: map<nat, nat>, was: seq<Byte>, acked: bool, session: nat)
      requires v in known
      requires forall u | u in known && u != v :: Overlay(u, pending)
      requires forall u | u in known && u.writeReadback :: u in adsReadVars
      requires was != [] ==> v.writeReadback && v in sumRead.listed && |was| == v.Size()
      requires v.writeReadback && initialized ==> v in sumRead.listed
      requires v in sumRead.listed ==> (IndexIn(sumRead.listed, v) in pending <==> was != [])
      requires if acked then v.lastWritten != [] && v.writeReadback && initialized && |v.lastWritten| == v.Size()
               else v.lastWritten == was
      ensures OverlayMatches(if acked then pending[IndexIn(sumRead.listed, v) := session] else pending)
    {
      var listed := sumRead.listed;
      assert forall u | u in listed && u != v :: IndexIn(listed, u) != IndexIn(listed, v);
    }

    /** The write handlers. */
    method WriteRecord(v: ADSVariable, bytes: seq<Byte>) returns (status: int, ghost answer: int)
      requires Valid() && InStep() && !L.ScanHolds(at.scan) && v in known && |bytes| < 0x1_0000_0000
      modifies this`at, v`lastWritten, adsConnection.device`memory, adsConnection.device`writes
      ensures Valid() && InStep() && at.scan == old(at).scan && at.log == old(at).log && v.Readable()
      ensures adsConnection.device.writes == old(adsConnection.device.writes) + Sent(v, bytes, answer)
      ensures status == 0 <==> v.addr.nameIsResolved && |bytes| <= v.Size() && answer == 0
      ensures status == 0 ==>
                && adsConnection.device.memory(v.DevicePlace()) == Symbol(0, Fit(bytes, v.Size()))
                && v.lastWritten == if v.writeReadback then Fit(bytes, v.Size()) else old(v.lastWritten)
      ensures status != 0 ==> status == ASYN_ERROR && v.lastWritten == old(v.lastWritten)
    {
      hide Valid, Mirrors, Fit, ADSVariable.Readable, ADSVariable.Size;
      KnownIsReadable(v);
      TakeLock();
      status, answer := WriteLocked(v, bytes);
      ReleaseLock();
    }
  }

  /** One of the variables, and its record an I/O Intr record. */
  predicate IsInterrupt(v: ADSVariable, vars: seq<ADSVariable>, ioIntr: seq<bool>)
    requires |vars| <= |ioIntr|
  {
    exists i :: 0 <= i < |vars| && vars[i] == v && ioIntr[i]
  }

  lemma InterruptStill(u: ADSVariable, vars: seq<ADSVariable>, v: ADSVariable, ioIntr: seq<bool>)
    requires |vars| < |ioIntr| && IsInterrupt(u, vars, ioIntr)
    ensures IsInterrupt(u, vars + [v], ioIntr)
  {
    var i :| 0 <= i < |vars| && vars[i] == u && ioIntr[i];
    assert (vars + [v])[i] == u;
  }

  /** A driver and its records: `vars[i]` belongs to a record with address `specs[i]`, an I/O Intr record if
    `ioIntr[i]`. */
  method CreateDriver(device: AdsDevice, sumBufferSize: uint16, specs: seq<AddressSpec>, ioIntr: seq<bool>)
    returns (d: ADSPortDriver, vars: seq<ADSVariable>, interrupts: seq<ADSVariable>)
    requires sumBufferSize > 0 && |ioIntr| == |specs| && device.live == multiset{} && device.releases == []
    requires forall spec | spec in specs :: spec.variableName != ""
    ensures fresh(d) && fresh(d.adsConnection) && fresh(d.sumRead) && d.adsConnection.device == device
    ensures d.Valid() && d.Settled() && d.InStep() && d.at.scan == L.Head && !d.initialized
    ensures !d.adsConnection.IsConnected()
    ensures fresh(d.known) && fresh(d.all)
    ensures |vars| == |specs| && forall i | 0 <= i < |vars| :: vars[i] in d.known && vars[i].addr.spec == specs[i]
    ensures forall i | 0 <= i < |vars| ::
              vars[i] in if specs[i].operation == Read then d.adsReadVars else d.adsWriteVars
    ensures forall i | 0 <= i < |vars| && ioIntr[i] :: vars[i] in interrupts
    ensures forall v | v in interrupts :: v in d.known && IsInterrupt(v, vars, ioIntr)
  {
    hide ADSPortDriver.Valid, ADSPortDriver.Settled, ADSPortDriver.InStep, ADSPortDriver.Mirrors,
      ADSPortDriver.Coherent;
    d := new ADSPortDriver(sumBufferSize, device);
    vars, interrupts := [], [];
    var i := 0;
    while i < |specs|
      modifies d`adsReadVars, d`adsWriteVars, d`known, d`all
      invariant 0 <= i <= |specs|
      invariant d.Valid() && d.Settled() && d.InStep()
      invariant fresh(d.known) && fresh(d.all)
      invariant |vars| == i && forall j | 0 <= j < i :: vars[j] in d.known && vars[j].addr.spec == specs[j]
      invariant forall j | 0 <= j < i ::
                  vars[j] in if specs[j].operation == Read then d.adsReadVars else d.adsWriteVars
      invariant forall j | 0 <= j < i && ioIntr[j] :: vars[j] in interrupts
      invariant forall v | v in interrupts :: v in d.known && IsInterrupt(v, vars, ioIntr)
    {
      var v := d.CreateDeviceVariable(specs[i]);
      ghost var before := vars;
      vars := vars + [v];
      forall u | u in interrupts ensures IsInterrupt(u, vars, ioIntr) {
        InterruptStill(u, before, v, ioIntr);
      }
      if ioIntr[i] {
        assert vars[i] == v;
        interrupts := interrupts + [v];
      }
      i := i + 1;
    }
  }

  /** A driver from its creation to the end of its scan thread, or as far as `turns` turns of the scan loop
    lead. */
  method RunDriver(device: AdsDevice, sumBufferSize: uint16, specs: seq<AddressSpec>, ioIntr: seq<bool>,
                   supply: nat, turns: nat)
    returns (d: ADSPortDriver, vars: seq<ADSVariable>, finished: bool)
    requires sumBufferSize > 0 && |ioIntr| == |specs| && device.live == multiset{} && device.releases == []
    requires forall spec | spec in specs :: spec.variableName != ""
    modifies device
    ensures fresh(d) && d.adsConnection.device == device
    ensures d.Valid() && d.Settled() && d.InStep()
    ensures |vars| == |specs| && forall i | 0 <= i < |vars| :: vars[i] in d.known && vars[i].addr.spec == specs[i]
    ensures forall i | 0 <= i < |vars| && ioIntr[i] && specs[i].operation == Write ::
              vars[i].writeReadback && (d.initialized ==> vars[i] in d.sumRead.listed)
    ensures forall i | 0 <= i < |vars| && specs[i].operation == Read :: vars[i] in d.adsReadVars
    ensures d.initialized <==> Storage(d.adsReadVars) <= supply
    ensures d.initialized ==>
              && d.sumRead.listed == d.adsReadVars
              && (forall i | 0 <= i < |vars| && ioIntr[i] :: vars[i] in d.interruptVars)
              && (forall v | v in d.interruptVars :: IsInterrupt(v, vars, ioIntr))
    ensures d.HandlesAccounted()
    ensures !finished && turns > 0 && d.initialized && NoRefusal(old(device.replies), device.replies) ==>
              d.adsConnection.IsConnected()
    ensures !finished && d.adsConnection.IsConnected() ==>
              turns > 0 && d.initialized && d.AllResolved() && d.FilledSince(|old(device.answers)|)
    ensures !finished && d.initialized && d.adsReadVars != [] ==>
              |device.replies| >= |old(device.replies)| + turns
    ensures finished ==> !d.adsConnection.IsConnected() && !d.sumRead.isInitialized && d.at.scan == L.Done
  {
    hide ADSPortDriver.Valid, ADSPortDriver.Settled, ADSPortDriver.InStep, ADSPortDriver.Mirrors,
      ADSPortDriver.Coherent, ADSPortDriver.HandlesAccounted, Storage, Writables, IsInterrupt,
      ADSPortDriver.AllResolved, ADSPortDriver.FilledSince, Refusals;
    var interrupts;
    d, vars, interrupts := CreateDriver(device, sumBufferSize, specs, ioIntr);
    d.InitHook(interrupts, supply);
    finished := d.AdsScan(turns);
    d.Handles();
    d.ConnectedIsAllocated();
    if d.initialized {
      d.ReadsHaveChunks();
    }
  }

  lemma ReadCellFacts(readback: bool, cell: R.Cell)
    ensures var (outcome, after) := R.ReadCell(readback, cell);
            && (outcome.Got? ==> cell.view.Fetched? && after.pending == if readback then [] else cell.pending)
            && (outcome.Failed? ==> after == cell)
            && (outcome.Got? <==> R.Available(cell.view)) && (outcome.Got? || outcome.Failed?)
  {
  }
}
