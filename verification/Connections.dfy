/** Symbolic names become handles on the device, and are given back (ADSAddress.cpp, Connection.cpp). */
module Connections {
  import opened Types
  import opened Errors
  import opened Wire
  import opened AddressText

  /** A variable's address; `spec` is fixed at construction, the handle comes and goes. */
  class ADSAddress {
    const spec: AddressSpec
    var indexGroup: uint32
    var indexOffset: uint32
    var nameIsResolved: bool

    constructor (spec: AddressSpec)
      ensures this.spec == spec
      ensures !nameIsResolved && indexGroup == 0 && indexOffset == 0
    {
      this.spec := spec;
      indexGroup, indexOffset, nameIsResolved := 0, 0, false;
    }

    method Resolve(group: uint32, offset: uint32) returns (rc: int)
      modifies this
      ensures rc == if old(nameIsResolved) then EPICSADS_INV_CALL else 0
      ensures rc == 0 ==> nameIsResolved && indexGroup == group && indexOffset == offset
      ensures rc != 0 ==> unchanged(this)
    {
      if nameIsResolved {
        return EPICSADS_INV_CALL;
      }
      indexGroup, indexOffset, nameIsResolved := group, offset, true;
      return 0;
    }

    method Unresolve() returns (rc: int)
      modifies this
      ensures rc == if spec.variableName == "" then EPICSADS_INV_CALL else 0
      ensures rc == 0 ==> !nameIsResolved && indexGroup == 0 && indexOffset == 0
      ensures rc != 0 ==> unchanged(this)
    {
      if spec.variableName == "" {
        return EPICSADS_INV_CALL;
      }
      indexGroup, indexOffset, nameIsResolved := 0, 0, false;
      return 0;
    }
  }

  /** A row that asks for a symbol by a handle the device has given out and not taken back. */
  predicate LiveRow(live: multiset<uint32>, r: Request)
  {
    r.group == 0xF005 && live[r.offset] > 0
  }

  /** The device's answer to one release of a handle. */
  datatype Release = Release(port: int, adsPort: uint16, handle: uint32, code: int)

  /** The handles given back: those whose release was acknowledged. */
  function Returned(releases: seq<Release>): multiset<uint32>
  {
    if releases == [] then multiset{}
    else
      var last := releases[|releases| - 1];
      Returned(releases[..|releases| - 1]) + if last.code == 0 then multiset{last.handle} else multiset{}
  }

  function Codes(releases: seq<Release>): seq<int>
  {
    seq(|releases|, i requires 0 <= i < |releases| => releases[i].code)
  }

  predicate AllAcknowledged(releases: seq<Release>)
  {
    forall r | r in releases :: r.code == 0
  }

  /** A sum-read that the device has answered: in which session, where, what was asked for, and the
    memory that the reply was read from. */
  datatype Answer = Answer(session: nat, port: uint16, table: seq<Request>, memory: Memory)

  /** The answer to a request of the scan thread, but for releases; `port` is the local one it went through. */
  datatype Reply =
    | Route(code: int)    // to add the route
    | Opened(port: int)   // to open a port; zero is a refusal
    | Closed(port: int)   // to close it
    | Info(port: int, code: int)  // to a request for name and version, or for the state
    | Handle(port: int, adsPort: uint16, name: string, code: int)
    | Sum(port: int, adsPort: uint16, code: int)

  predicate Refused(r: Reply)
  {
    match r
    case Route(code) => code != 0
    case Opened(port) => port == 0
    case Closed(_) => false
    case Info(_, code) => code != 0
    case Handle(_, _, _, code) => code != 0
    case Sum(_, _, code) => code != 0
  }

  function Refusals(replies: seq<Reply>): nat
  {
    if replies == [] then 0
    else Refusals(replies[..|replies| - 1]) + if Refused(replies[|replies| - 1]) then 1 else 0
  }

  predicate Continues(was: seq<Reply>, now: seq<Reply>)
  {
    was <= now && Refusals(was) <= Refusals(now)
  }

  /** Nothing has been refused in between. */
  predicate NoRefusal(was: seq<Reply>, now: seq<Reply>)
  {
    Refusals(now) == Refusals(was)
  }

  /** That is so if and only if none of the answers in between is a refusal. */
  lemma {:induction false} NoRefusalMeans(was: seq<Reply>, now: seq<Reply>)
    requires was <= now
    ensures Continues(was, now)
    ensures NoRefusal(was, now) <==> forall i | |was| <= i < |now| :: !Refused(now[i])
  {
    hide Refused;
    if |was| == |now| {
      assert was == now;
    } else {
      NoRefusalMeans(was, now[..|now| - 1]);
    }
  }

  lemma ContinuesOn(was: seq<Reply>, soFar: seq<Reply>, now: seq<Reply>)
    requires Continues(was, soFar) && Continues(soFar, now)
    ensures Continues(was, now) && |was| <= |soFar| <= |now|
    ensures NoRefusal(was, now) <==> NoRefusal(was, soFar) && NoRefusal(soFar, now)
  {
    hide Refusals;
  }

  lemma NothingYet(replies: seq<Reply>)
    ensures Continues(replies, replies) && NoRefusal(replies, replies)
  {
  }

  lemma OnlyClosed(replies: seq<Reply>, port: int)
    ensures Continues(replies, replies + [Closed(port)]) && NoRefusal(replies, replies + [Closed(port)])
  {
    OneMoreReply(replies, Closed(port));
  }

  lemma OneMoreReply(replies: seq<Reply>, r: Reply)
    ensures Refusals(replies + [r]) == Refusals(replies) + if Refused(r) then 1 else 0
    ensures Continues(replies, replies + [r])
  {
    assert (replies + [r])[..|replies|] == replies;
  }

  /** Whatever was refused was asked. */
  lemma RefusedWasAsked(was: seq<Reply>, now: seq<Reply>)
    requires was <= now
    ensures !NoRefusal(was, now) ==> |was| < |now|
  {
    hide Refusals;
    if |was| == |now| {
      assert was == now;
    }
  }

  /** A write sent to the device, and its answer. */
  datatype Written = Written(port: int, place: Place, block: seq<Byte>, code: int)

  /** A request to read one place, and its answer. */
  datatype Single = Single(port: int, place: Place, length: uint32, code: int)

  /** The ADS device. It may refuse any request with any code, and what it holds may change before
    every request; a refused request hands out no handle and takes none back. */
  class AdsDevice {
    var memory: Memory
    ghost var live: multiset<uint32>  // handles given out and not taken back
    ghost var replies: seq<Reply>     // the answers to the scan thread's requests
    ghost var releases: seq<Release>  // the answers to releases
    ghost var answers: seq<Answer>    // the sum-reads answered
    ghost var writes: seq<Written>    // the writes sent
    ghost var singles: seq<Single>    // the single reads asked for

    constructor ()
      ensures live == multiset{} && replies == [] && releases == [] && answers == [] && writes == [] && singles == []
    {
      memory := p => Symbol(0, []);
      live, replies, releases, answers, writes, singles := multiset{}, [], [], [], [], [];
    }

    method AddRoute() returns (rc: int)
      modifies this`replies
      ensures replies == old(replies) + [Route(rc)]
    {
      rc := *;
      replies := replies + [Route(rc)];
    }

    method OpenPort() returns (port: int)
      modifies this`replies
      ensures replies == old(replies) + [Opened(port)]
    {
      port := *;
      replies := replies + [Opened(port)];
    }

    method ClosePort(port: int)
      modifies this`replies
      ensures replies == old(replies) + [Closed(port)]
    {
      replies := replies + [Closed(port)];
    }

    /** Name and version, or the state: only the return code matters here. */
    method ReadInfo(port: int) returns (rc: int)
      modifies this`replies
      ensures replies == old(replies) + [Info(port, rc)]
    {
      rc := *;
      replies := replies + [Info(port, rc)];
    }

    method HandleByName(port: int, adsPort: uint16, name: string) returns (rc: int, handle: uint32)
      modifies this`live, this`replies
      ensures replies == old(replies) + [Handle(port, adsPort, name, rc)]
      ensures rc == 0 ==> live == old(live) + multiset{handle}
      ensures rc != 0 ==> live == old(live)
    {
      rc := *;
      handle := *;
      replies := replies + [Handle(port, adsPort, name, rc)];
      if rc == 0 {
        live := live + multiset{handle};
      }
    }

    /** Asked only about handles that are live: none is released twice. */
    method ReleaseHandle(port: int, adsPort: uint16, handle: uint32) returns (rc: int)
      requires live[handle] > 0
      modifies this`live, this`releases
      ensures releases == old(releases) + [Release(port, adsPort, handle, rc)]
      ensures rc == 0 ==> live == old(live) - multiset{handle}
      ensures rc != 0 ==> live == old(live)
    {
      rc := *;
      releases := releases + [Release(port, adsPort, handle, rc)];
      if rc == 0 {
        live := live - multiset{handle};
      }
    }

    /** One sum-read request, sent only with handles that are live; at most `readLength` bytes of the
      reply come back. */
    method SumRead(port: int, adsPort: uint16, reqs: seq<Request>, readLength: uint32, ghost session: nat)
      returns (rc: int, reply: seq<Byte>)
      requires forall r | r in reqs :: LiveRow(live, r)
      modifies this`memory, this`answers, this`replies
      ensures replies == old(replies) + [Sum(port, adsPort, rc)]
      ensures answers == old(answers) + if rc == 0 then [Answer(session, adsPort, reqs, memory)] else []
      ensures var full := SumReply(memory, adsPort, reqs);
              rc == 0 ==> reply == if readLength <= |full| then full[..readLength] else full
    {
      rc := *;
      memory := *;
      replies := replies + [Sum(port, adsPort, rc)];
      var full := SumReply(memory, adsPort, reqs);
      reply := if readLength <= |full| then full[..readLength] else full;
      if rc == 0 {
        answers := answers + [Answer(session, adsPort, reqs, memory)];
      }
    }

    method Read(port: int, place: Place, length: uint32) returns (rc: int, data: seq<Byte>)
      modifies this`memory, this`singles
      ensures singles == old(singles) + [Single(port, place, length, rc)]
      ensures rc == memory(place).code as int || rc != 0
      ensures rc == 0 ==> (0, data) == SingleRead(memory, place, length)
    {
      memory := *;
      var lost: bool := *;
      data := SingleRead(memory, place, length).1;
      rc := if lost then ADSERR_CLIENT_SYNCTIMEOUT else memory(place).code as int;
      singles := singles + [Single(port, place, length, rc)];
    }

    method Write(port: int, place: Place, data: seq<Byte>) returns (rc: int)
      modifies this`memory, this`writes
      ensures writes == old(writes) + [Written(port, place, data, rc)]
      ensures rc == 0 ==> memory(place) == Symbol(0, data)
    {
      rc := *;
      writes := writes + [Written(port, place, data, rc)];
      memory := *;
      if rc == 0 {
        var now := memory;
        memory := p => if p == place then Symbol(0, data) else now(p);
      }
    }
  }

  // ---------- the outcome of resolving a list, as a function of the device's answers ----------

  /** Status of `resolve_variables` when the device answered `rcs`, one code per list position,
    0 standing for "already resolved": the last failure, translated. */
  function ResolveStatus(rcs: seq<int>): (status: int)
    ensures status == 0 <==> forall i | 0 <= i < |rcs| :: rcs[i] == 0
  {
    if rcs == [] then 0
    else if rcs[|rcs| - 1] != 0 then EpicsCode(rcs[|rcs| - 1])
    else ResolveStatus(rcs[..|rcs| - 1])
  }

  predicate NoDuplicates<T(==)>(list: seq<T>)
  {
    forall i, j | 0 <= i < j < |list| :: list[i] != list[j]
  }

  /** Who ends up resolved: those who were, and those for whom the device gave a handle. */
  function ResolvedAfter<T>(was: set<T>, list: seq<T>, rcs: seq<int>): set<T>
    requires |rcs| <= |list|
  {
    was + set i | 0 <= i < |rcs| && rcs[i] == 0 :: list[i]
  }

  /** What is not resolved beforehand is listed only once. */
  predicate PendingOnce<T(==)>(was: set<T>, list: seq<T>)
  {
    forall i, j | 0 <= i < j < |list| && list[i] == list[j] :: list[i] in was
  }

  /** Answers the device can be recorded with: who is resolved, also earlier in the list, is skipped. */
  predicate Admissible<T(==)>(was: set<T>, list: seq<T>, rcs: seq<int>)
  {
    && |rcs| == |list|
    && (forall i | 0 <= i < |list| && list[i] in was :: rcs[i] == 0)
    && (forall i, j | 0 <= i < j < |list| && list[i] == list[j] && rcs[i] == 0 :: rcs[j] == 0)
  }

  /** `resolve_variables` reports success. */
  predicate Reported(rcs: seq<int>)
  {
    ResolveStatus(rcs) == 0
  }

  predicate AllIn<T(==)>(list: seq<T>, resolved: set<T>)
  {
    forall i | 0 <= i < |list| :: list[i] in resolved
  }

  /** Success means that everything listed is resolved; the converse holds if what was not resolved
    before is listed only once. */
  lemma StatusTellsResolution<T>(was: set<T>, list: seq<T>, rcs: seq<int>)
    requires Admissible(was, list, rcs)
    ensures Reported(rcs) ==> AllIn(list, ResolvedAfter(was, list, rcs))
    ensures PendingOnce(was, list) ==> (Reported(rcs) <==> AllIn(list, ResolvedAfter(was, list, rcs)))
  {
    if PendingOnce(was, list) && AllIn(list, ResolvedAfter(was, list, rcs)) {
      forall i | 0 <= i < |list| ensures rcs[i] == 0 {
        if list[i] !in was {
          var k :| 0 <= k < |rcs| && rcs[k] == 0 && list[k] == list[i];
          assert k == i;
        }
      }
    }
  }

  /** Whatever the device answers, success is reported exactly when everything listed is resolved. */
  ghost predicate AlwaysTells<T(!new)>(was: set<T>, list: seq<T>)
  {
    forall rcs: seq<int> | Admissible(was, list, rcs) :: Reported(rcs) <==> AllIn(list, ResolvedAfter(was, list, rcs))
  }

  /** That is so if and only if no unresolved name is listed twice: with a repeat, a first refusal is
    reported although a second attempt succeeds. */
  lemma TellsIffPendingOnce<T(!new)>(was: set<T>, list: seq<T>)
    ensures AlwaysTells(was, list) <==> PendingOnce(was, list)
  {
    if PendingOnce(was, list) {
      forall rcs: seq<int> | Admissible(was, list, rcs)
        ensures Reported(rcs) <==> AllIn(list, ResolvedAfter(was, list, rcs))
      {
        StatusTellsResolution(was, list, rcs);
      }
    } else {
      var i, j :| 0 <= i < j < |list| && list[i] == list[j] && list[i] !in was;
      var rcs := seq(|list|, k requires 0 <= k < |list| =>
                               if list[k] == list[i] && k < j then ADSERR_DEVICE_ERROR else 0);
      assert Admissible(was, list, rcs);
      assert rcs[i] != 0 && rcs[j] == 0;
      forall k | 0 <= k < |list| ensures list[k] in ResolvedAfter(was, list, rcs) {
        if rcs[k] != 0 {
          assert list[k] == list[j];
        }
      }
      assert !Reported(rcs) && AllIn(list, ResolvedAfter(was, list, rcs));
    }
  }

  lemma StatusOfNothing(port: int, was: set<ADSAddress>, list: seq<ADSAddress>)
    ensures ResolveStatus([]) == 0
    ensures ResolvedAfter(was, list, []) == was
    ensures Asked(port, was, list, []) == []
  {
  }

  lemma StatusOneMore(rcs: seq<int>, rc: int)
    ensures ResolveStatus(rcs + [rc]) == if rc != 0 then EpicsCode(rc) else ResolveStatus(rcs)
  {
    assert (rcs + [rc])[..|rcs|] == rcs;
  }

  lemma ResolvedOneMore<T>(was: set<T>, list: seq<T>, rcs: seq<int>, rc: int)
    requires |rcs| < |list|
    ensures rc != 0 ==> ResolvedAfter(was, list, rcs + [rc]) == ResolvedAfter(was, list, rcs)
    ensures rc == 0 ==> ResolvedAfter(was, list, rcs + [rc]) == ResolvedAfter(was, list, rcs) + {list[|rcs|]}
  {
    var n, more := |rcs|, rcs + [rc];
    assert forall i | 0 <= i < n :: more[i] == rcs[i];
    assert more[n] == rc;
    var now := set i | 0 <= i < |more| && more[i] == 0 :: list[i];
    var then_ := set i | 0 <= i < n && rcs[i] == 0 :: list[i];
    if rc == 0 {
      assert list[n] in now;
      assert now == then_ + {list[n]};
    } else {
      assert now == then_;
    }
  }

  /** The device's answers among `rcs`: one for every address not yet resolved when its turn came. */
  function Asked(port: int, was: set<ADSAddress>, list: seq<ADSAddress>, rcs: seq<int>): seq<Reply>
    requires |rcs| <= |list|
  {
    if rcs == [] then []
    else
      var init := rcs[..|rcs| - 1];
      var a := list[|init|];
      Asked(port, was, list, init)
      + if a in ResolvedAfter(was, list, init) then []
        else [Handle(port, a.spec.adsPort, a.spec.variableName, rcs[|rcs| - 1])]
  }

  lemma AskedOneMore(port: int, was: set<ADSAddress>, list: seq<ADSAddress>, rcs: seq<int>, rc: int)
    requires |rcs| < |list|
    ensures Asked(port, was, list, rcs + [rc])
         == Asked(port, was, list, rcs)
            + if list[|rcs|] in ResolvedAfter(was, list, rcs) then []
              else [Handle(port, list[|rcs|].spec.adsPort, list[|rcs|].spec.variableName, rc)]
  {
    assert (rcs + [rc])[..|rcs|] == rcs;
  }

  predicate SomeRefused(rcs: seq<int>) { exists i | 0 <= i < |rcs| :: rcs[i] != 0 }

  predicate LostContact(rcs: seq<int>) { exists i | 0 <= i < |rcs| :: EpicsCode(rcs[i]) == EPICSADS_DISCONNECTED }

  lemma NoCodes()
    ensures Codes([]) == [] && !SomeRefused([]) && !LostContact([])
    ensures Returned([]) == multiset{}
  {
  }

  lemma OneMoreCode(rcs: seq<int>, rc: int)
    ensures SomeRefused(rcs + [rc]) <==> SomeRefused(rcs) || rc != 0
    ensures LostContact(rcs + [rc]) <==> LostContact(rcs) || EpicsCode(rc) == EPICSADS_DISCONNECTED
  {
    var more := rcs + [rc];
    assert more[|rcs|] == rc;
    assert forall i | 0 <= i < |rcs| :: more[i] == rcs[i];
  }

  lemma OneMoreRelease(releases: seq<Release>, r: Release)
    ensures SomeRefused(Codes(releases + [r])) <==> SomeRefused(Codes(releases)) || r.code != 0
    ensures LostContact(Codes(releases + [r])) <==>
              LostContact(Codes(releases)) || EpicsCode(r.code) == EPICSADS_DISCONNECTED
    ensures Returned(releases + [r]) == Returned(releases) + if r.code == 0 then multiset{r.handle} else multiset{}
  {
    assert (releases + [r])[..|releases|] == releases;
    assert Codes(releases + [r]) == Codes(releases) + [r.code];
    OneMoreCode(Codes(releases), r.code);
  }

  lemma TakenAway(live: multiset<uint32>, first: multiset<uint32>, then_: multiset<uint32>)
    ensures live - first - then_ == live - (first + then_)
  {
  }

  lemma RefusedInCodes(releases: seq<Release>)
    ensures SomeRefused(Codes(releases)) <==> !AllAcknowledged(releases)
  {
    if !AllAcknowledged(releases) {
      var i :| 0 <= i < |releases| && releases[i].code != 0;
      assert Codes(releases)[i] != 0;
    }
    if SomeRefused(Codes(releases)) {
      var i :| 0 <= i < |releases| && Codes(releases)[i] != 0;
      assert releases[i] in releases;
    }
  }

  /** Return code of `unresolve_variables` on a non-empty list, from the release codes received. */
  function UnresolveStatus(connected: bool, rcs: seq<int>): (status: int)
    ensures status == 0 <==> connected && forall i | 0 <= i < |rcs| :: rcs[i] == 0
  {
    if !connected || LostContact(rcs) then EPICSADS_DISCONNECTED
    else if SomeRefused(rcs) then EPICSADS_NOT_RESOLVED
    else 0
  }

  /** The addresses whose handles are to be given back: those resolved, each once, in the order listed. */
  function Due(was: set<ADSAddress>, list: seq<ADSAddress>): seq<ADSAddress>
  {
    if list == [] then []
    else
      var init, a := list[..|list| - 1], list[|list| - 1];
      Due(was, init) + if a in was && a !in init then [a] else []
  }

  /** Whoever is listed and resolved is due, and only once. */
  lemma {:induction false} DueOnce(was: set<ADSAddress>, list: seq<ADSAddress>)
    ensures forall a :: a in Due(was, list) <==> a in was && a in list
    ensures NoDuplicates(Due(was, list))
  {
    if list != [] {
      var init, a := list[..|list| - 1], list[|list| - 1];
      DueOnce(was, init);
      assert list == init + [a];
    }
  }

  /** `answers` are those to the releases of the handles that `due` held, one after the other; only when contact
    is lost the rest is not asked for. */
  predicate GivenBack(answers: seq<Release>, due: seq<ADSAddress>, held: map<ADSAddress, uint32>, port: int)
  {
    && |answers| <= |due| && (|answers| < |due| ==> LostContact(Codes(answers)))
    && (forall k | 0 <= k < |answers| ::
          && due[k] in held
          && answers[k] == Release(port, due[k].spec.adsPort, held[due[k]], answers[k].code))
    && !LostContact(Codes(if answers == [] then [] else answers[..|answers| - 1]))
  }

  lemma NothingDue(was: set<ADSAddress>, held: map<ADSAddress, uint32>, port: int)
    ensures GivenBack([], Due(was, []), held, port)
  {
    NoCodes();
  }

  lemma DueNext(was: set<ADSAddress>, list: seq<ADSAddress>, a: ADSAddress)
    ensures Due(was, list + [a]) == if a in was && a !in list then Due(was, list) + [a] else Due(was, list)
  {
    assert (list + [a])[..|list|] == list;
  }

  /** Nobody is asked about `a`: it holds no handle, or contact is lost. */
  lemma NotGivenBack(answers: seq<Release>, due: seq<ADSAddress>, a: ADSAddress, held: map<ADSAddress, uint32>,
                     port: int)
    requires GivenBack(answers, due, held, port) && LostContact(Codes(answers))
    ensures GivenBack(answers, due + [a], held, port)
  {
    hide LostContact, Codes;
    assert forall k | 0 <= k < |due| :: (due + [a])[k] == due[k];
  }

  lemma GivenBackNext(answers: seq<Release>, due: seq<ADSAddress>, a: ADSAddress, r: Release,
                      held: map<ADSAddress, uint32>, port: int)
    requires GivenBack(answers, due, held, port) && !LostContact(Codes(answers))
    requires a in held && r == Release(port, a.spec.adsPort, held[a], r.code)
    ensures GivenBack(answers + [r], due + [a], held, port)
  {
    hide LostContact, Codes;
    var more, answered := due + [a], answers + [r];
    assert answered[..|answers|] == answers;
    forall k | 0 <= k < |answered|
      ensures more[k] in held && answered[k] == Release(port, more[k].spec.adsPort, held[more[k]], answered[k].code)
    {
      if k < |answers| {
        assert answered[k] == answers[k] && more[k] == due[k];
      } else {
        assert answered[k] == r && more[k] == a;
      }
    }
  }

  // ---------- the connection ----------

  ghost function Resolved(all: set<ADSAddress>): set<ADSAddress>
    reads all
  {
    set a | a in all && a.nameIsResolved
  }

  ghost function HandlesOf(all: set<ADSAddress>): map<ADSAddress, uint32>
    reads all
  {
    map a | a in all :: a.indexOffset
  }

  ghost function Holders(all: set<ADSAddress>, handle: uint32): set<ADSAddress>
    reads all
  {
    set a | a in all && a.nameIsResolved && a.indexOffset == handle
  }

  /** Of those resolved at first just the addresses of `list` are no longer; the others keep their handles. */
  ghost predicate StillHeld(all: set<ADSAddress>, was: set<ADSAddress>, held: map<ADSAddress, uint32>,
                            list: seq<ADSAddress>)
    reads all
  {
    forall a | a in all ::
      && (a.nameIsResolved <==> a in was && a !in list)
      && (a.nameIsResolved ==> a in held && a.indexOffset == held[a])
  }

  lemma AllHeld(all: set<ADSAddress>)
    ensures StillHeld(all, Resolved(all), HandlesOf(all), [])
  {
  }

  lemma HeldNow(all: set<ADSAddress>, was: set<ADSAddress>, held: map<ADSAddress, uint32>, list: seq<ADSAddress>,
                a: ADSAddress)
    requires StillHeld(all, was, held, list) && a in all
    ensures a.nameIsResolved <==> a in was && a !in list
    ensures a.nameIsResolved ==> a in held && a.indexOffset == held[a]
    ensures !a.nameIsResolved ==> StillHeld(all, was, held, list + [a])
  {
  }

  lemma NoneHeld(all: set<ADSAddress>, was: set<ADSAddress>, held: map<ADSAddress, uint32>, list: seq<ADSAddress>)
    requires StillHeld(all, was, held, list)
    ensures forall a | a in all && a in list :: !a.nameIsResolved
  {
  }

  class Connection {
    const device: AdsDevice
    var adsPort: int
    ghost var session: nat                // how many connections have been opened
    ghost var leaked: multiset<uint32>    // handles dropped without an acknowledged release

    constructor (device: AdsDevice)
      ensures this.device == device && adsPort == 0 && session == 0 && leaked == multiset{}
    {
      this.device := device;
      adsPort, session, leaked := 0, 0, multiset{};
    }

    predicate IsConnected()
      reads this`adsPort
    {
      adsPort != 0
    }

    /** Handle `h` is live as often as a resolved address holds it or it has leaked. */
    ghost predicate Balanced(all: set<ADSAddress>, h: uint32)
      reads this`leaked, device`live, all
    {
      device.live[h] == |Holders(all, h)| + leaked[h]
    }

    /** The device's live handles are those of the resolved addresses, one for one, and the leaked ones. */
    ghost predicate Accounted(all: set<ADSAddress>)
      reads this`leaked, device`live, all
    {
      && (forall h: uint32 :: Balanced(all, h))
      && (forall a | a in all :: a.spec.variableName != "")
      && (forall a | a in all && a.nameIsResolved :: a.indexGroup == ADSIGRP_SYM_VALBYHND)
    }

    /** A resolved address holds a live handle. */
    lemma HandleIsLive(all: set<ADSAddress>, a: ADSAddress)
      requires Accounted(all) && a in all && a.nameIsResolved
      ensures LiveRow(device.live, Request(a.indexGroup, a.indexOffset, 0))
    {
      assert Balanced(all, a.indexOffset) && a in Holders(all, a.indexOffset);
    }

    /** An address that holds no handle makes no difference. */
    lemma OneMoreAddress(all: set<ADSAddress>, a: ADSAddress)
      requires Accounted(all) && !a.nameIsResolved && a.spec.variableName != ""
      ensures Accounted(all + {a}) && Resolved(all + {a}) == Resolved(all)
    {
      forall h: uint32 ensures Balanced(all + {a}, h) {
        assert Balanced(all, h);
        assert Holders(all + {a}, h) == Holders(all, h);
      }
      assert Resolved(all + {a}) == Resolved(all);
    }

    /** Connected if and only if the device adds the route and opens a port. */
    method Connect() returns (rc: int)
      modifies this`adsPort, this`session, device`replies
      ensures rc == 0 || rc == EPICSADS_DISCONNECTED
      ensures rc == 0 ==>
                && IsConnected() && session == old(session) + 1
                && device.replies == old(device.replies) + [Route(0), Opened(adsPort)]
      ensures rc != 0 ==> adsPort == old(adsPort) && session == old(session)
      ensures old(device.replies) < device.replies && Continues(old(device.replies), device.replies)
      ensures rc == 0 <==> NoRefusal(old(device.replies), device.replies)
    {
      hide Refusals;
      var route := device.AddRoute();
      OneMoreReply(old(device.replies), Route(route));
      if route != 0 {
        return EPICSADS_DISCONNECTED;
      }
      ghost var soFar := device.replies;
      var port := device.OpenPort();
      OneMoreReply(soFar, Opened(port));
      if port == 0 {
        return EPICSADS_DISCONNECTED;
      }
      adsPort := port;
      session := session + 1;
      assert device.replies == old(device.replies) + [Route(0), Opened(adsPort)];
      return 0;
    }

    /** The port is closed, whatever the device makes of it. */
    method Disconnect() returns (rc: int)
      modifies this`adsPort, device`replies
      ensures !IsConnected()
      ensures rc == if old(IsConnected()) then 0 else EPICSADS_DISCONNECTED
      ensures device.replies
           == if old(IsConnected()) then old(device.replies) + [Closed(old(adsPort))] else old(device.replies)
    {
      if !IsConnected() {
        return EPICSADS_DISCONNECTED;
      }
      device.ClosePort(adsPort);
      adsPort := 0;
      return 0;
    }

    method SetDisconnected()
      modifies this`adsPort
      ensures !IsConnected()
    {
      adsPort := 0;
    }

    /** `read_device_info` and `read_device_state`, for the arguments the driver passes. */
    method ReadDeviceInfo() returns (rc: int, ghost answer: int)
      modifies device`replies
      ensures device.replies
           == if IsConnected() then old(device.replies) + [Info(adsPort, answer)] else old(device.replies)
      ensures rc == if IsConnected() then EpicsCode(answer) else EPICSADS_DISCONNECTED
    {
      answer := 0;
      if !IsConnected() {
        return EPICSADS_DISCONNECTED, answer;
      }
      var code := device.ReadInfo(adsPort);
      return EpicsCode(code), code;
    }

    /** The device has given out `handle`, and `addr` takes it. */
    method Adopt(addr: ADSAddress, handle: uint32, ghost all: set<ADSAddress>)
      requires addr in all && !addr.nameIsResolved
      requires device.live[handle] == |Holders(all, handle)| + leaked[handle] + 1
      requires forall h: uint32 | h != handle :: Balanced(all, h)
      modifies addr
      ensures forall h: uint32 :: Balanced(all, h)
      ensures addr.nameIsResolved && addr.indexGroup == ADSIGRP_SYM_VALBYHND
    {
      ghost var holders := Holders(all, handle);
      var done := addr.Resolve(ADSIGRP_SYM_VALBYHND, handle);
      assert Holders(all, handle) == holders + {addr};
      assert Balanced(all, handle);
      forall h: uint32 | h != handle ensures Balanced(all, h) {
        assert old(Balanced(all, h));
        assert Holders(all, h) == old(Holders(all, h));
      }
    }

    /** Ask for one handle: the body of the loop in `resolve_variables` for an unresolved address. */
    method AcquireHandle(addr: ADSAddress, ghost all: set<ADSAddress>) returns (rc: int)
      requires addr in all && !addr.nameIsResolved
      requires Accounted(all)
      modifies device`live, device`replies, addr
      ensures Accounted(all)
      ensures device.replies
           == old(device.replies) + [Handle(adsPort, addr.spec.adsPort, addr.spec.variableName, rc)]
      ensures rc == 0 ==> addr.nameIsResolved && addr.indexGroup == ADSIGRP_SYM_VALBYHND
      ensures rc == 0 ==> Resolved(all) == old(Resolved(all)) + {addr}
      ensures rc != 0 ==> unchanged(addr) && Resolved(all) == old(Resolved(all))
    {
      ghost var was := Resolved(all);
      var handle;
      rc, handle := device.HandleByName(adsPort, addr.spec.adsPort, addr.spec.variableName);
      if rc == 0 {
        assert old(Balanced(all, handle));
        forall h: uint32 | h != handle ensures Balanced(all, h) {
          assert old(Balanced(all, h));
        }
        Adopt(addr, handle, all);
        assert Resolved(all) == was + {addr};
      } else {
        forall h: uint32 ensures Balanced(all, h) {
          assert old(Balanced(all, h));
        }
      }
    }

    /** The loop of `resolve_variables`; `rcs` records the device's answers. */
    method ResolveEach(addrs: seq<ADSAddress>, ghost all: set<ADSAddress>)
      returns (status: int, ghost rcs: seq<int>)
      requires forall a | a in addrs :: a in all
      requires Accounted(all)
      modifies device`live, device`replies, addrs
      ensures Accounted(all)
      ensures |rcs| == |addrs| && status == ResolveStatus(rcs)
      ensures device.replies == old(device.replies) + Asked(adsPort, old(Resolved(all)), addrs, rcs)
      ensures Continues(old(device.replies), device.replies)
      ensures status == 0 <==> NoRefusal(old(device.replies), device.replies)
      ensures Resolved(all) == ResolvedAfter(old(Resolved(all)), addrs, rcs)
      ensures Admissible(old(Resolved(all)), addrs, rcs)
      ensures forall a | a in addrs && old(a.nameIsResolved) :: unchanged(a)
    {
      hide EpicsCode, ResolveStatus, ResolvedAfter, Asked, Refusals;
      rcs := [];
      status := 0;
      StatusOfNothing(adsPort, old(Resolved(all)), addrs);
      var i := 0;
      while i < |addrs|
        invariant 0 <= i <= |addrs| && |rcs| == i
        invariant Accounted(all)
        invariant status == ResolveStatus(rcs)
        invariant Resolved(all) == ResolvedAfter(old(Resolved(all)), addrs, rcs)
        invariant device.replies == old(device.replies) + Asked(adsPort, old(Resolved(all)), addrs, rcs)
        invariant Continues(old(device.replies), device.replies)
        invariant status == 0 <==> NoRefusal(old(device.replies), device.replies)
        invariant Admissible(old(Resolved(all)), addrs[..i], rcs)
        invariant forall k | 0 <= k < i && rcs[k] == 0 :: addrs[k].nameIsResolved
        invariant forall a | a in addrs && old(a.nameIsResolved) :: unchanged(a)
      {
        var addr := addrs[i];
        var rc := 0;
        if !addr.nameIsResolved {
          ghost var soFar := device.replies;
          rc := AcquireHandle(addr, all);
          OneMoreReply(soFar, Handle(adsPort, addr.spec.adsPort, addr.spec.variableName, rc));
          if rc != 0 {
            status := EpicsCode(rc);
          }
        }
        ResolvedOneMore(old(Resolved(all)), addrs, rcs, rc);
        AskedOneMore(adsPort, old(Resolved(all)), addrs, rcs, rc);
        StatusOneMore(rcs, rc);
        rcs := rcs + [rc];
        i := i + 1;
      }
    }

    /** `rcs` holds one code per listed address: the device's answer, or 0 where it was not asked. The
      status is the last failure among them, translated. */
    method ResolveVariables(addrs: seq<ADSAddress>, ghost all: set<ADSAddress>)
      returns (status: int, ghost rcs: seq<int>)
      requires forall a | a in addrs :: a in all
      requires Accounted(all)
      modifies device`live, device`replies, addrs
      ensures Accounted(all)
      ensures Continues(old(device.replies), device.replies)
      ensures addrs == [] || !IsConnected() ==> device.replies == old(device.replies)
      ensures addrs != [] && IsConnected() ==> (status == 0 <==> NoRefusal(old(device.replies), device.replies))
      ensures addrs != [] && IsConnected() ==>
                && |rcs| == |addrs| && status == ResolveStatus(rcs)
                && Resolved(all) == ResolvedAfter(old(Resolved(all)), addrs, rcs)
                && device.replies == old(device.replies) + Asked(adsPort, old(Resolved(all)), addrs, rcs)
      ensures addrs == [] ==> status == EPICSADS_NO_DATA
      ensures addrs != [] && !IsConnected() ==> status == EPICSADS_DISCONNECTED
      ensures addrs == [] || !IsConnected() ==> device.live == old(device.live) && forall a | a in addrs :: unchanged(a)
      ensures status == 0 ==> IsConnected() && addrs != [] && forall a | a in addrs :: a.nameIsResolved
      ensures addrs != [] && IsConnected() && PendingOnce(old(Resolved(all)), addrs) ==>
                (status == 0 <==> forall a | a in addrs :: a.nameIsResolved)
      ensures forall a | a in addrs && old(a.nameIsResolved) :: unchanged(a)
    {
      rcs := [];
      if |addrs| == 0 {
        return EPICSADS_NO_DATA, rcs;
      }
      if !IsConnected() {
        return EPICSADS_DISCONNECTED, rcs;
      }
      status, rcs := ResolveEach(addrs, all);
      StatusTellsResolution(old(Resolved(all)), addrs, rcs);
      assert forall a | a in addrs :: a.nameIsResolved <==> a in Resolved(all);
    }

    /** Ask the device to take one handle back, unless the connection is known to be gone. */
    method GiveBack(addr: ADSAddress, adsIsConnected: bool) returns (rc: int)
      requires device.live[addr.indexOffset] > 0
      modifies this`leaked, device`live, device`releases
      ensures leaked == old(leaked) + if adsIsConnected && rc == 0 then multiset{} else multiset{addr.indexOffset}
      ensures device.releases
           == old(device.releases)
              + if adsIsConnected then [Release(adsPort, addr.spec.adsPort, addr.indexOffset, rc)] else []
      ensures device.live
           == old(device.live) - if adsIsConnected && rc == 0 then multiset{addr.indexOffset} else multiset{}
      ensures var h := addr.indexOffset;
              device.live[h] + 1 == old(device.live[h]) + leaked[h] - old(leaked[h])
      ensures forall h | h != addr.indexOffset ::
                device.live[h] == old(device.live[h]) && leaked[h] == old(leaked[h])
    {
      rc := 0;
      if adsIsConnected {
        rc := device.ReleaseHandle(adsPort, addr.spec.adsPort, addr.indexOffset);
      }
      if !adsIsConnected || rc != 0 {
        leaked := leaked + multiset{addr.indexOffset};
      }
    }

    /** The body of the loop in `unresolve_variables` for a resolved address. */
    method DropHandle(addr: ADSAddress, adsIsConnected: bool, ghost all: set<ADSAddress>) returns (rc: int)
      requires addr in all && addr.nameIsResolved
      requires Accounted(all)
      modifies this`leaked, device`live, device`releases, addr
      ensures Accounted(all)
      ensures !addr.nameIsResolved
      ensures leaked == old(leaked) + if adsIsConnected && rc == 0 then multiset{} else multiset{old(addr.indexOffset)}
      ensures device.releases
           == old(device.releases)
              + if adsIsConnected then [Release(adsPort, addr.spec.adsPort, old(addr.indexOffset), rc)] else []
      ensures device.live
           == old(device.live) - if adsIsConnected && rc == 0 then multiset{old(addr.indexOffset)} else multiset{}
    {
      ghost var handle, holders := addr.indexOffset, Holders(all, addr.indexOffset);
      assert Balanced(all, handle) && addr in holders;
      rc := GiveBack(addr, adsIsConnected);
      var done := addr.Unresolve();
      assert Holders(all, handle) == holders - {addr};
      assert Balanced(all, handle);
      forall h: uint32 | h != handle ensures Balanced(all, h) {
        assert old(Balanced(all, h));
        assert Holders(all, h) == old(Holders(all, h));
      }
    }

    /** One turn of the loop in `unresolve_variables`, for a resolved address. */
    method UnresolveOne(addr: ADSAddress, adsIsConnected: bool, unresolveErrors: bool, ghost all: set<ADSAddress>,
                         ghost was: set<ADSAddress>, ghost held: map<ADSAddress, uint32>, ghost list: seq<ADSAddress>)
      returns (connected: bool, errors: bool, ghost r: Release)
      requires addr in all && addr.nameIsResolved && Accounted(all) && StillHeld(all, was, held, list)
      modifies this`leaked, device`live, device`releases, addr
      ensures Accounted(all) && StillHeld(all, was, held, list + [addr])
      ensures device.releases == old(device.releases) + if adsIsConnected then [r] else []
      ensures addr in held && r == Release(adsPort, addr.spec.adsPort, held[addr], r.code)
      ensures device.live
           == old(device.live) - if adsIsConnected && r.code == 0 then multiset{r.handle} else multiset{}
      ensures connected <==> adsIsConnected && EpicsCode(r.code) != EPICSADS_DISCONNECTED
      ensures errors <==> unresolveErrors || (adsIsConnected && r.code != 0)
      ensures old(leaked) <= leaked && (leaked == old(leaked) <==> adsIsConnected && r.code == 0)
    {
      hide EpicsCode, Accounted;
      connected, errors := adsIsConnected, unresolveErrors;
      ghost var handle := addr.indexOffset;
      var rc := DropHandle(addr, adsIsConnected, all);
      r := Release(adsPort, addr.spec.adsPort, handle, rc);
      if adsIsConnected && rc != 0 {
        if EpicsCode(rc) == EPICSADS_DISCONNECTED {
          connected := false;
        }
        errors := true;
      }
    }

    /** One turn of the loop in `unresolve_variables`; `r` holds the device's answer, if it was asked. */
    method UnresolveTurn(addr: ADSAddress, adsIsConnected: bool, unresolveErrors: bool, ghost all: set<ADSAddress>,
                         ghost was: set<ADSAddress>, ghost held: map<ADSAddress, uint32>,
                         ghost list: seq<ADSAddress>, ghost answers: seq<Release>)
      returns (connected: bool, errors: bool, ghost r: seq<Release>)
      requires addr in all && Accounted(all) && StillHeld(all, was, held, list)
      requires adsIsConnected <==> IsConnected() && !LostContact(Codes(answers))
      requires unresolveErrors <==> SomeRefused(Codes(answers))
      requires !adsIsConnected && IsConnected() ==> unresolveErrors
      requires IsConnected() ==> GivenBack(answers, Due(was, list), held, adsPort)
      modifies this`leaked, device`live, device`releases, addr
      ensures Accounted(all) && StillHeld(all, was, held, list + [addr])
      ensures device.releases == old(device.releases) + r && device.live == old(device.live) - Returned(r)
      ensures Returned(answers + r) == Returned(answers) + Returned(r)
      ensures connected <==> IsConnected() && !LostContact(Codes(answers + r))
      ensures errors <==> SomeRefused(Codes(answers + r))
      ensures !connected && IsConnected() ==> errors
      ensures old(leaked) <= leaked && (IsConnected() ==> (errors <==> unresolveErrors || leaked != old(leaked)))
      ensures IsConnected() ==> GivenBack(answers + r, Due(was, list + [addr]), held, adsPort)
    {
      hide EpicsCode, LostContact, SomeRefused, Returned, Codes, Accounted, GivenBack, Due, StillHeld;
      connected, errors, r := adsIsConnected, unresolveErrors, [];
      NoCodes();
      HeldNow(all, was, held, list, addr);
      DueNext(was, list, addr);
      assert answers + [] == answers;
      if addr.nameIsResolved {
        ghost var answer;
        connected, errors, answer := UnresolveOne(addr, adsIsConnected, unresolveErrors, all, was, held, list);
        if adsIsConnected {
          r := [answer];
          assert [] + [answer] == [answer];
          OneMoreRelease([], answer);
          OneMoreRelease(answers, answer);
          GivenBackNext(answers, Due(was, list), addr, answer, held, adsPort);
        } else if IsConnected() {
          NotGivenBack(answers, Due(was, list), addr, held, adsPort);
        }
      }
    }

    /** The loop of `unresolve_variables`; `answers` records the device's answers to releases. */
    method UnresolveEach(addrs: seq<ADSAddress>, ghost all: set<ADSAddress>)
      returns (adsIsConnected: bool, unresolveErrors: bool, ghost answers: seq<Release>)
      requires forall a | a in addrs :: a in all
      requires Accounted(all)
      modifies this`leaked, device`live, device`releases, addrs
      ensures Accounted(all)
      ensures forall a | a in addrs :: !a.nameIsResolved
      ensures device.releases == old(device.releases) + answers
      ensures device.live == old(device.live) - Returned(answers)
      ensures adsIsConnected <==> IsConnected() && !LostContact(Codes(answers))
      ensures unresolveErrors <==> SomeRefused(Codes(answers))
      ensures old(leaked) <= leaked
      ensures IsConnected() ==> (adsIsConnected && !unresolveErrors <==> leaked == old(leaked))
      ensures IsConnected() ==>
                GivenBack(answers, Due(old(Resolved(all)), addrs), old(HandlesOf(all)), adsPort)
    {
      hide EpicsCode, LostContact, SomeRefused, Returned, Codes, Accounted, GivenBack, Due, StillHeld;
      ghost var was, held := Resolved(all), HandlesOf(all);
      AllHeld(all);
      NoCodes();
      NothingDue(was, held, adsPort);
      answers := [];
      adsIsConnected := IsConnected();
      unresolveErrors := false;
      var i := 0;
      while i < |addrs|
        invariant 0 <= i <= |addrs|
        invariant Accounted(all) && StillHeld(all, was, held, addrs[..i])
        invariant old(leaked) <= leaked
        invariant !adsIsConnected && IsConnected() ==> unresolveErrors
        invariant IsConnected() ==> (unresolveErrors <==> leaked != old(leaked))
        invariant device.releases == old(device.releases) + answers
        invariant device.live == old(device.live) - Returned(answers)
        invariant adsIsConnected <==> IsConnected() && !LostContact(Codes(answers))
        invariant unresolveErrors <==> SomeRefused(Codes(answers))
        invariant IsConnected() ==> GivenBack(answers, Due(was, addrs[..i]), held, adsPort)
      {
        ghost var r;
        adsIsConnected, unresolveErrors, r
          := UnresolveTurn(addrs[i], adsIsConnected, unresolveErrors, all, was, held, addrs[..i], answers);
        TakenAway(old(device.live), Returned(answers), Returned(r));
        assert addrs[..i + 1] == addrs[..i] + [addrs[i]];
        answers := answers + r;
        i := i + 1;
      }
      assert addrs[..i] == addrs;
      NoneHeld(all, was, held, addrs);
    }

    /** Whatever the device replies, everything listed ends unresolved; success is reported exactly
      when the connection stood and nothing leaked, every release having been acknowledged. Handles leave
      the device one by one as releases are acknowledged. */
    method UnresolveVariables(addrs: seq<ADSAddress>, ghost all: set<ADSAddress>) returns (status: int)
      requires forall a | a in addrs :: a in all
      requires Accounted(all)
      modifies this`leaked, device`live, device`releases, addrs
      ensures Accounted(all)
      ensures forall a | a in addrs :: !a.nameIsResolved
      ensures addrs == [] ==> status == EPICSADS_NO_DATA && leaked == old(leaked)
      ensures old(device.releases) <= device.releases
      ensures var answers := device.releases[|old(device.releases)|..];
              && device.live == old(device.live) - Returned(answers)
              && (addrs != [] ==> status == UnresolveStatus(IsConnected(), Codes(answers)))
              && (IsConnected() ==> (AllAcknowledged(answers) <==> leaked == old(leaked)))
              && (IsConnected() ==>
                    GivenBack(answers, Due(old(Resolved(all)), addrs), old(HandlesOf(all)), adsPort))
      ensures old(leaked) <= leaked
      ensures status == 0 <==> addrs != [] && IsConnected() && leaked == old(leaked)
    {
      hide GivenBack;
      NoCodes();
      NothingDue(Resolved(all), HandlesOf(all), adsPort);
      if |addrs| == 0 {
        return EPICSADS_NO_DATA;
      }
      var adsIsConnected, unresolveErrors;
      ghost var answers;
      adsIsConnected, unresolveErrors, answers := UnresolveEach(addrs, all);
      assert device.releases[|old(device.releases)|..] == answers;
      RefusedInCodes(answers);
      if !adsIsConnected {
        return EPICSADS_DISCONNECTED;
      } else if unresolveErrors {
        return EPICSADS_NOT_RESOLVED;
      }
      return 0;
    }
  }
}
