/** How variables are dealt into chunks: the value that `SumReadRequest::allocate` computes. */
module Packing {
  import opened Types
  import opened Connections
  import opened Variables

  /** The variables on one ADS port, in their given order. */
  function OnPort(vars: seq<ADSVariable>, port: uint16): seq<ADSVariable>
  {
    if vars == [] then []
    else
      var init, v := OnPort(vars[..|vars| - 1], port), vars[|vars| - 1];
      if v.addr.spec.adsPort == port then init + [v] else init
  }

  /** The ports in use. */
  function Ports(vars: seq<ADSVariable>): set<uint16>
  {
    set i | 0 <= i < |vars| :: vars[i].addr.spec.adsPort
  }

  function Last<T>(s: seq<T>): T
    requires s != []
  {
    s[|s| - 1]
  }

  /** Put `v` into the last group, or into a new one if there is none with room. */
  function Put(groups: seq<seq<ADSVariable>>, v: ADSVariable, max: nat): seq<seq<ADSVariable>>
  {
    if groups == [] || Full(Last(groups), max) then groups + [[v]]
    else groups[..|groups| - 1] + [Last(groups) + [v]]
  }

  /** The groups that one port's variables are dealt into. */
  function Pack(vars: seq<ADSVariable>, max: nat): seq<seq<ADSVariable>>
  {
    if vars == [] then [] else Put(Pack(vars[..|vars| - 1], max), Last(vars), max)
  }

  function Flatten(groups: seq<seq<ADSVariable>>): seq<ADSVariable>
  {
    if groups == [] then [] else Flatten(groups[..|groups| - 1]) + Last(groups)
  }

  /** No group is empty, none took a variable beyond its capacity, and none but the last has room. */
  predicate Greedy(groups: seq<seq<ADSVariable>>, max: nat)
  {
    forall i | 0 <= i < |groups| ::
      && groups[i] != []
      && !Full(groups[i][..|groups[i]| - 1], max)
      && (i + 1 < |groups| ==> Full(groups[i], max))
  }

  lemma FlattenSnoc(groups: seq<seq<ADSVariable>>, g: seq<ADSVariable>)
    ensures Flatten(groups + [g]) == Flatten(groups) + g
  {
    assert (groups + [g])[..|groups|] == groups;
  }

  lemma GreedySnoc(front: seq<seq<ADSVariable>>, g: seq<ADSVariable>, max: nat)
    ensures Greedy(front + [g], max) <==>
              && Greedy(front, max)
              && (front != [] ==> Full(Last(front), max))
              && g != [] && !Full(g[..|g| - 1], max)
  {
    hide Full;
    var groups := front + [g];
    assert forall i | 0 <= i < |front| :: groups[i] == front[i];
    assert groups[|front|] == g;
    if Greedy(groups, max) && front != [] {
      assert groups[|front| - 1] == Last(front);
    }
  }

  lemma PutIsGreedy(groups: seq<seq<ADSVariable>>, v: ADSVariable, max: nat)
    requires max > 0 && Greedy(groups, max)
    ensures Greedy(Put(groups, v, max), max)
    ensures Flatten(Put(groups, v, max)) == Flatten(groups) + [v]
  {
    hide Flatten, Greedy, ADSVariable.Size;
    if groups == [] || Full(Last(groups), max) {
      assert [v][..0] == [];
      GreedySnoc(groups, [v], max);
      FlattenSnoc(groups, [v]);
    } else {
      var front, last := groups[..|groups| - 1], Last(groups);
      var grown := last + [v];
      assert groups == front + [last];
      assert grown[..|grown| - 1] == last;
      GreedySnoc(front, last, max);
      GreedySnoc(front, grown, max);
      FlattenSnoc(front, last);
      FlattenSnoc(front, grown);
      assert Flatten(front) + grown == Flatten(groups) + [v];
    }
  }

  lemma PackStep(vars: seq<ADSVariable>, max: nat)
    ensures Greedy([], max) && Flatten([]) == [] && Pack([], max) == []
    ensures vars != [] ==> Pack(vars, max) == Put(Pack(vars[..|vars| - 1], max), Last(vars), max)
  {
  }

  lemma {:induction false} PackIsGreedy(vars: seq<ADSVariable>, max: nat)
    requires max > 0
    ensures Greedy(Pack(vars, max), max)
    ensures Flatten(Pack(vars, max)) == vars
  {
    hide *;
    PackStep(vars, max);
    if vars != [] {
      var init, v := vars[..|vars| - 1], vars[|vars| - 1];
      PackIsGreedy(init, max);
      assert Pack(vars, max) == Put(Pack(init, max), v, max) by { assert v == Last(vars) by { LastIs(vars); } }
      PutIsGreedy(Pack(init, max), v, max);
      assert vars == init + [v];
    }
  }

  lemma LastIs<T>(s: seq<T>)
    requires s != []
    ensures Last(s) == s[|s| - 1]
  {
  }

  /** Greedy groups that are not empty came from greedy groups with one variable less. */
  lemma Unput(groups: seq<seq<ADSVariable>>, max: nat)
    returns (less: seq<seq<ADSVariable>>, v: ADSVariable)
    requires max > 0 && Greedy(groups, max) && groups != []
    ensures Greedy(less, max) && Put(less, v, max) == groups
    ensures Flatten(groups) == Flatten(less) + [v]
  {
    hide Flatten, Greedy, ADSVariable.Size;
    var front, last := groups[..|groups| - 1], Last(groups);
    assert groups == front + [last];
    GreedySnoc(front, last, max);
    v := Last(last);
    var short := last[..|last| - 1];
    assert last == short + [v];
    FlattenSnoc(front, last);
    if short == [] {
      less := front;
    } else {
      less := front + [short];
      FlattenSnoc(front, short);
      assert short == last[..|short|] && short[..|short| - 1] == last[..|short| - 1];
      NotFullPrefix(last, |short|, |short| - 1, max);
      GreedySnoc(front, short, max);
      assert less[..|front|] == front && Last(less) == short;
    }
  }

  /** There is no other way to meet the greedy conditions: they pin the chunks down. */
  lemma {:induction false} GreedyIsPack(groups: seq<seq<ADSVariable>>, max: nat)
    requires max > 0 && Greedy(groups, max)
    ensures groups == Pack(Flatten(groups), max)
    decreases |Flatten(groups)|
  {
    if groups != [] {
      var less, v := Unput(groups, max);
      GreedyIsPack(less, max);
      assert Flatten(groups)[..|Flatten(less)|] == Flatten(less);
    }
  }

  lemma NotFullPrefix(vars: seq<ADSVariable>, n: nat, k: nat, max: nat)
    requires k <= n <= |vars| && !Full(vars[..n], max)
    ensures !Full(vars[..k], max)
  {
    TotalMonotone(vars[..n], k);
    assert vars[..n][..k] == vars[..k];
  }

  /** Every variable is dealt to its own port as often as it is listed, and to no other. */
  lemma {:induction false} PortsPartition(vars: seq<ADSVariable>, port: uint16, v: ADSVariable)
    ensures multiset(OnPort(vars, port))[v] == if v.addr.spec.adsPort == port then multiset(vars)[v] else 0
    ensures OnPort(vars, port) != [] <==> port in Ports(vars)
  {
    hide ADSVariable.Size;
    if vars != [] {
      var init, last := vars[..|vars| - 1], Last(vars);
      PortsPartition(init, port, v);
      assert vars == init + [last];
      assert Ports(vars) == Ports(init) + {last.addr.spec.adsPort};
    }
  }

  predicate Among(groups: seq<seq<ADSVariable>>, v: ADSVariable)
  {
    exists i :: 0 <= i < |groups| && v in groups[i]
  }

  lemma {:induction false} FlattenHolds(groups: seq<seq<ADSVariable>>, v: ADSVariable)
    ensures v in Flatten(groups) <==> Among(groups, v)
  {
    if groups != [] {
      var front, last := groups[..|groups| - 1], Last(groups);
      FlattenHolds(front, v);
      assert groups == front + [last];
    }
  }

  /** The groups of one port hold the variables listed on it, and none is empty. */
  lemma GroupsHold(vars: seq<ADSVariable>, port: uint16, max: nat)
    requires max > 0
    ensures forall g | g in Pack(OnPort(vars, port), max) :: g != []
    ensures forall v :: Among(Pack(OnPort(vars, port), max), v) <==> v in vars && v.addr.spec.adsPort == port
  {
    hide ADSVariable.Size, Full, Pack, OnPort, Flatten, Ports, Among;
    var groups := Pack(OnPort(vars, port), max);
    PackIsGreedy(OnPort(vars, port), max);
    forall v ensures Among(groups, v) <==> v in vars && v.addr.spec.adsPort == port
    {
      FlattenHolds(groups, v);
      PortsPartition(vars, port, v);
      assert v in OnPort(vars, port) <==> multiset(OnPort(vars, port))[v] > 0;
      assert v in vars <==> multiset(vars)[v] > 0;
    }
  }

  /** Where the `k`-th variable of group `i` stands in the list of all. */
  lemma {:induction false} FlatIndex(groups: seq<seq<ADSVariable>>, i: nat, k: nat) returns (at: nat)
    requires i < |groups| && k < |groups[i]|
    ensures at == |Flatten(groups[..i])| + k < |Flatten(groups)|
    ensures Flatten(groups)[at] == groups[i][k]
  {
    var front := groups[..|groups| - 1];
    if i < |front| {
      at := FlatIndex(front, i, k);
      assert front[..i] == groups[..i];
    } else {
      at := |Flatten(front)| + k;
    }
  }

  lemma {:induction false} FlattenGrows(groups: seq<seq<ADSVariable>>, i: nat, j: nat)
    requires i < j <= |groups|
    ensures |Flatten(groups[..i])| + |groups[i]| <= |Flatten(groups[..j])|
    decreases j
  {
    assert groups[..j][..j - 1] == groups[..j - 1];
    if i < j - 1 {
      FlattenGrows(groups, i, j - 1);
    }
  }

  lemma {:induction false} OnPortNoDuplicates(vars: seq<ADSVariable>, port: uint16)
    requires NoDuplicates(vars)
    ensures NoDuplicates(OnPort(vars, port))
    ensures forall v | v in OnPort(vars, port) :: v in vars
  {
    if vars != [] {
      var init, v := vars[..|vars| - 1], vars[|vars| - 1];
      assert forall k | 0 <= k < |init| :: init[k] == vars[k] != v;
      OnPortNoDuplicates(init, port);
      assert v !in OnPort(init, port);
    }
  }

  /** A variable listed once has one place: chunk and slot follow from the list alone. */
  lemma OnePlace(vars: seq<ADSVariable>, port: uint16, max: nat, i: nat, k: nat, j: nat, l: nat)
    requires max > 0 && NoDuplicates(vars)
    requires var groups := Pack(OnPort(vars, port), max);
             i < |groups| && k < |groups[i]| && j < |groups| && l < |groups[j]| && groups[i][k] == groups[j][l]
    ensures i == j && k == l
  {
    hide Pack, OnPort;
    var groups := Pack(OnPort(vars, port), max);
    PackIsGreedy(OnPort(vars, port), max);
    OnPortNoDuplicates(vars, port);
    var at := FlatIndex(groups, i, k);
    var there := FlatIndex(groups, j, l);
    if i < j {
      FlattenGrows(groups, i, j);
    } else if j < i {
      FlattenGrows(groups, j, i);
    }
  }

  /** A chunk's data passes the soft limit by less than its last variable. */
  lemma GroupBounded(groups: seq<seq<ADSVariable>>, max: nat, i: nat)
    requires Greedy(groups, max) && i < |groups|
    ensures Total(groups[i]) <= 999_999 + Last(groups[i]).Size()
    ensures |groups[i]| <= max
  {
    assert !Full(groups[i][..|groups[i]| - 1], max);
  }

  /** No group is closed early: it holds all the variables it may, or a megabyte of data. */
  lemma GroupClosed(groups: seq<seq<ADSVariable>>, max: nat, i: nat)
    requires Greedy(groups, max) && i + 1 < |groups|
    ensures |groups[i]| == max || (|groups[i]| < max && Total(groups[i]) >= 1_000_000)
  {
    GroupBounded(groups, max, i);
    assert Full(groups[i], max);
  }

  lemma {:induction false} GroupWithinTotal(groups: seq<seq<ADSVariable>>, i: nat)
    requires i < |groups|
    ensures Total(groups[i]) <= Total(Flatten(groups))
  {
    hide ADSVariable.Size;
    var front, last := groups[..|groups| - 1], Last(groups);
    TotalConcat(Flatten(front), last);
    if i < |front| {
      GroupWithinTotal(front, i);
    }
  }

  lemma {:induction false} TotalConcat(a: seq<ADSVariable>, b: seq<ADSVariable>)
    ensures Total(a + b) == Total(a) + Total(b)
  {
    hide ADSVariable.Size;
    if b == [] {
      assert a + b == a;
    } else {
      var init := b[..|b| - 1];
      TotalConcat(a, init);
      assert (a + b)[..|a + b| - 1] == a + init;
    }
  }

  // ---------- storage ----------

  /** Bytes of storage for a buffer of these variables: result codes and data, twice. */
  function Storage(vars: seq<ADSVariable>): nat
  {
    2 * (4 * |vars| + Total(vars))
  }

  function StorageOf(groups: seq<seq<ADSVariable>>): nat
  {
    if groups == [] then 0 else StorageOf(groups[..|groups| - 1]) + Storage(Last(groups))
  }

  lemma {:induction false} StorageOfFlat(groups: seq<seq<ADSVariable>>)
    ensures StorageOf(groups) == Storage(Flatten(groups))
  {
    hide ADSVariable.Size, Total;
    if groups == [] {
      assert Total([]) == 0 by { TotalNothing(); }
    } else {
      StorageOfFlat(groups[..|groups| - 1]);
      TotalConcat(Flatten(groups[..|groups| - 1]), Last(groups));
    }
  }

  lemma TotalNothing()
    ensures Total([]) == 0
  {
  }

  lemma StorageStep(groups: seq<seq<ADSVariable>>, k: nat)
    requires k < |groups|
    ensures StorageOf(groups[..k + 1]) == StorageOf(groups[..k]) + Storage(groups[k])
  {
    assert groups[..k + 1][..k] == groups[..k];
  }

  lemma {:induction false} StorageGrows(groups: seq<seq<ADSVariable>>, k: nat)
    requires k <= |groups|
    ensures StorageOf(groups[..k]) <= StorageOf(groups)
  {
    hide Storage;
    if k == |groups| {
      assert groups[..k] == groups;
    } else {
      assert groups[..|groups| - 1][..k] == groups[..k];
      StorageGrows(groups[..|groups| - 1], k);
    }
  }

  /** The groups of all ports below `below`, port after port. */
  function AllGroups(vars: seq<ADSVariable>, max: nat, below: nat): seq<seq<ADSVariable>>
    requires below <= 0x1_0000
  {
    if below == 0 then [] else AllGroups(vars, max, below - 1) + Pack(OnPort(vars, below - 1), max)
  }

  function PortsStorage(vars: seq<ADSVariable>, below: nat): nat
    requires below <= 0x1_0000
  {
    if below == 0 then 0 else PortsStorage(vars, below - 1) + Storage(OnPort(vars, below - 1))
  }

  lemma NoGroups(vars: seq<ADSVariable>, port: uint16, max: nat)
    requires port !in Ports(vars)
    ensures Pack(OnPort(vars, port), max) == []
  {
    if vars != [] {
      PortsPartition(vars, port, vars[0]);
    }
  }

  lemma {:induction false} StorageConcat(a: seq<seq<ADSVariable>>, b: seq<seq<ADSVariable>>)
    ensures StorageOf(a + b) == StorageOf(a) + StorageOf(b)
  {
    hide Storage;
    if b == [] {
      assert a + b == a;
    } else {
      StorageConcat(a, b[..|b| - 1]);
      assert (a + b)[..|a + b| - 1] == a + b[..|b| - 1];
    }
  }

  lemma {:induction false} AllGroupsStorage(vars: seq<ADSVariable>, max: nat, below: nat)
    requires max > 0 && below <= 0x1_0000
    ensures StorageOf(AllGroups(vars, max, below)) == PortsStorage(vars, below)
  {
    hide Storage, Pack, OnPort, StorageOf;
    if below == 0 {
      assert StorageOf([]) == 0 by { StorageNothing(); }
    } else {
      AllGroupsStorage(vars, max, below - 1);
      var groups := Pack(OnPort(vars, below - 1), max);
      StorageConcat(AllGroups(vars, max, below - 1), groups);
      StorageOfFlat(groups);
      PackIsGreedy(OnPort(vars, below - 1), max);
    }
  }

  lemma StorageNothing()
    ensures StorageOf([]) == 0
  {
  }

  lemma {:induction false} OneMoreStorage(vars: seq<ADSVariable>, v: ADSVariable, below: nat)
    requires below <= 0x1_0000
    ensures PortsStorage(vars + [v], below)
         == PortsStorage(vars, below) + if v.addr.spec.adsPort < below then Storage([v]) else 0
  {
    hide Total, ADSVariable.Size;
    if below > 0 {
      OneMoreStorage(vars, v, below - 1);
      var on := OnPort(vars, below - 1);
      assert (vars + [v])[..|vars|] == vars;
      assert OnPort(vars + [v], below - 1) == if v.addr.spec.adsPort == below - 1 then on + [v] else on;
      TotalConcat(on, [v]);
    }
  }

  /** Dealing variables into groups changes nothing about the storage they need. */
  lemma {:induction false} StorageConserved(vars: seq<ADSVariable>)
    ensures PortsStorage(vars, 0x1_0000) == Storage(vars)
  {
    hide Total, ADSVariable.Size, OnPort;
    TotalNothing();
    if vars == [] {
      NoPortsStorage(0x1_0000);
    } else {
      var init, v := vars[..|vars| - 1], vars[|vars| - 1];
      StorageConserved(init);
      assert vars == init + [v];
      OneMoreStorage(init, v, 0x1_0000);
      TotalConcat(init, [v]);
    }
  }

  lemma {:induction false} NoPortsStorage(below: nat)
    requires below <= 0x1_0000
    ensures PortsStorage([], below) == 0
  {
    if below > 0 {
      NoPortsStorage(below - 1);
    }
  }

  // ---------- the number of chunks ----------

  function CeilDiv(n: nat, d: nat): nat
    requires d > 0
  {
    (n + d - 1) / d
  }

  /** With little data only the count matters: every group but the last holds exactly `max`. */
  lemma {:induction false} SizesWhenLight(groups: seq<seq<ADSVariable>>, max: nat)
    requires max > 0 && Greedy(groups, max) && groups != []
    requires Total(Flatten(groups)) < 1_000_000
    ensures |Flatten(groups)| == (|groups| - 1) * max + |Last(groups)|
    ensures 0 < |Last(groups)| <= max
    decreases |groups|
  {
    hide ADSVariable.Size, Greedy, Total;
    var front, last := groups[..|groups| - 1], Last(groups);
    assert groups == front + [last];
    GroupBounded(groups, max, |groups| - 1);
    GreedySnoc(front, last, max);
    if front != [] {
      TotalConcat(Flatten(front), last);
      SizesWhenLight(front, max);
      GroupWithinTotal(front, |front| - 1);
    }
  }

  lemma MulMono(a: int, b: int, d: nat)
    requires a <= b
    ensures a * d <= b * d
  {
  }

  lemma QuotientIs(n: nat, d: nat, q: nat, r: nat)
    requires r < d && n == q * d + r
    ensures n / d == q
  {
    var p := n / d;
    assert p * d <= n < p * d + d;
    if p < q {
      MulMono(p + 1, q, d);
    } else if q < p {
      MulMono(q + 1, p, d);
    }
  }

  lemma CeilDivOf(k: nat, r: nat, max: nat)
    requires 0 < r <= max
    ensures CeilDiv(k * max + r, max) == k + 1
  {
    QuotientIs(k * max + r + max - 1, max, k + 1, r - 1);
  }

  /** n variables on one port with little data make exactly ceil(n / max) chunks. */
  lemma ChunkCount(vars: seq<ADSVariable>, max: nat)
    requires max > 0 && Total(vars) < 1_000_000
    ensures |Pack(vars, max)| == CeilDiv(|vars|, max)
  {
    PackIsGreedy(vars, max);
    if vars == [] {
      QuotientIs(max - 1, max, 0, max - 1);
    } else {
      var groups := Pack(vars, max);
      assert groups != [];
      hide CeilDiv, Pack, Greedy, Flatten, Total;
      SizesWhenLight(groups, max);
      CeilDivOf(|groups| - 1, |Last(groups)|, max);
    }
  }

  /** The slots of a group's variables tile its data section: each starts where the one before it
    ends, so every data byte belongs to exactly one slot of nonzero size. */
  lemma {:induction false} SlotsTile(vars: seq<ADSVariable>, byte: nat)
    requires byte < Total(vars)
    ensures exists i: nat :: Owns(vars, i, byte)
    ensures forall i: nat, j: nat | Owns(vars, i, byte) && Owns(vars, j, byte) :: i == j
    decreases |vars|
  {
    hide ADSVariable.Size;
    var init := vars[..|vars| - 1];
    forall i: nat, j: nat | Owns(vars, i, byte) && Owns(vars, j, byte) ensures i == j {
      if i < j {
        SlotsOrdered(vars, i, j);
      } else if j < i {
        SlotsOrdered(vars, j, i);
      }
    }
    if byte < Total(init) {
      SlotsTile(init, byte);
      var i: nat :| Owns(init, i, byte);
      assert init[..i] == vars[..i];
      assert Owns(vars, i, byte);
    } else {
      assert Owns(vars, |vars| - 1, byte);
    }
  }

  /** `byte` lies in the data slot of variable `i`. */
  predicate Owns(vars: seq<ADSVariable>, i: nat, byte: nat)
  {
    i < |vars| && Total(vars[..i]) <= byte < Total(vars[..i]) + vars[i].Size()
  }

  lemma SlotsOrdered(vars: seq<ADSVariable>, i: nat, j: nat)
    requires i < j < |vars|
    ensures Total(vars[..i]) + vars[i].Size() <= Total(vars[..j])
  {
    hide ADSVariable.Size;
    TotalMonotone(vars[..j], i);
    assert vars[..j][..i] == vars[..i];
  }
}
