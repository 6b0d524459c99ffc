/**
 * GameContainerPortMapper itself: the loops over 16-bit ports, the used-port tables they share
 * and mutate, and the row table. Every method is proved against the plans of PortPlan.
 */
module PortMapper {
  import opened Wrappers
  import opened PortTable
  import opened PortPlan

  /** The `used` map that the planning functions pass around and mark in place. */
  class UsedPorts {
    var tcp: set<Port>
    var udp: set<Port>

    ghost function View(): PortSets
      reads this
    {
      PortSets(tcp, udp)
    }

    constructor ()
      ensures View() == PortSets({}, {})
    {
      tcp, udp := {}, {};
    }

    method MarkUsed(proto: Protocol, port: Port)
      modifies this
      ensures View() == old(View()).Mark(proto == TCP, proto == UDP, port)
    {
      match proto
      case TCP => tcp := tcp + {port};
      case UDP => udp := udp + {port};
    }

    method PortInUse(proto: Protocol, port: Port) returns (r: bool)
      ensures r == View().Has(proto, port)
    {
      match proto
      case TCP => r := port in tcp;
      case UDP => r := port in udp;
    }

    /** First port of the range that is free in the wanted spaces; wanting neither means both. */
    method AllocateHostPort(needTcp: bool, needUdp: bool) returns (r: Option<Port>)
      ensures r == LeastFree(View(), needTcp || !needUdp, needUdp || !needTcp, PORT_BEGIN)
    {
      var port: Port := PORT_BEGIN;
      while port <= PORT_END
        invariant PORT_BEGIN <= port <= PORT_END + 1
        invariant LeastFree(View(), needTcp || !needUdp, needUdp || !needTcp, PORT_BEGIN)
               == LeastFree(View(), needTcp || !needUdp, needUdp || !needTcp, port)
        decreases PORT_END + 1 - port
      {
        if needTcp && !needUdp {
          if port !in tcp {
            return Some(port);
          }
        } else if needUdp && !needTcp {
          if port !in udp {
            return Some(port);
          }
        } else if port !in tcp && port !in udp {
          return Some(port);
        }
        port := port + 1;
      }
      return None;
    }

    /** First start whose whole block is free in both spaces. */
    method AllocateContiguousHostPorts(count: Port) returns (r: Option<Port>)
      ensures r == LeastBlock(View(), count, PORT_BEGIN)
    {
      if PORT_END - PORT_BEGIN + 1 < count {
        return None;
      }
      var start: Port := PORT_BEGIN;
      while start + count - 1 <= PORT_END
        invariant PORT_BEGIN <= start <= PORT_END + 1
        invariant LeastBlock(View(), count, PORT_BEGIN) == LeastBlock(View(), count, start)
        decreases PORT_END + 1 - start
      {
        var free := true;
        var i: Port := 0;
        while i < count && free
          invariant 0 <= i <= count
          invariant free ==> BlockFree(View(), start, i)
          invariant !free ==> !BlockFree(View(), start, count)
          decreases count - i, free
        {
          var p: Port := start + i;
          if p in tcp || p in udp {
            free := false;
          } else {
            i := i + 1;
          }
        }
        if free {
          return Some(start);
        }
        start := start + 1;
      }
      return None;
    }
  }

  /** usedHostPorts over ListByNodeAgentId. */
  method UsedHostPorts(t: Table, agent: string) returns (used: UsedPorts)
    ensures fresh(used) && used.View() == UsedOn(t, agent)
    ensures forall proto, p: Port :: used.View().Has(proto, p) <==> Taken(t, agent, proto, p)
  {
    used := new UsedPorts();
    var k := 0;
    while k < |t|
      invariant 0 <= k <= |t|
      invariant fresh(used) && used.View() == UsedOn(t[..k], agent)
    {
      assert t[..k + 1] == t[..k] + [t[k]];
      if t[k].agent == agent {
        used.MarkUsed(t[k].proto, t[k].hostPort);
      }
      k := k + 1;
    }
    assert t[..k] == t;
    forall proto, p: Port
      ensures used.View().Has(proto, p) <==> Taken(t, agent, proto, p)
    {
      UsedIffTaken(t, agent, proto, p);
    }
  }

  // --------------------------------------------------- merging the excerpts

  datatype Requirement = Requirement(tcp: bool, udp: bool)

  /** Asked for by the first k excerpts, or by the first i ports of excerpt k. */
  ghost predicate AskedSoFar(es: seq<Excerpt>, k: nat, i: nat, proto: Protocol, port: int)
    requires k <= |es|
  {
    Demanded(es[..k], proto, port) ||
    (k < |es| && es[k].proto == proto && 0 <= port < 0x1_0000 && Offset(es[k], port) < i)
  }

  lemma ExcerptDone(es: seq<Excerpt>, k: nat, proto: Protocol, port: int)
    requires k < |es|
    ensures AskedSoFar(es, k, es[k].length, proto, port) <==> AskedSoFar(es, k + 1, 0, proto, port)
  {
    assert es[..k + 1] == es[..k] + [es[k]];
    assert es[k] in es[..k + 1];
  }

  ghost predicate Merged(reqs: map<Port, Requirement>, ports: seq<Port>, es: seq<Excerpt>, k: nat, i: nat)
    requires k <= |es|
  {
    && (forall p: Port :: p in reqs <==> AskedSoFar(es, k, i, TCP, p) || AskedSoFar(es, k, i, UDP, p))
    && (forall p :: p in reqs ==> reqs[p] == Requirement(AskedSoFar(es, k, i, TCP, p), AskedSoFar(es, k, i, UDP, p)))
    && (forall p :: p in ports <==> p in reqs)
    && (forall a, b :: 0 <= a < b < |ports| ==> ports[a] != ports[b])
  }

  /** One round of the inner loop asks for one more port in one protocol. */
  lemma AskedStep(es: seq<Excerpt>, k: nat, i: nat, proto: Protocol, port: Port)
    requires k < |es| && i < es[k].length
    ensures AskedSoFar(es, k, i + 1, proto, port)
            <==> AskedSoFar(es, k, i, proto, port) || (proto == es[k].proto && port == Uint16(es[k].begin + i))
  {
    OffsetExact(es[k], i, port);
  }

  function Ask(req: Requirement, proto: Protocol): Requirement {
    if proto == TCP then req.(tcp := true) else req.(udp := true)
  }

  function Asked(reqs: map<Port, Requirement>, port: Port): Requirement {
    if port in reqs then reqs[port] else Requirement(false, false)
  }

  lemma MergeStart(es: seq<Excerpt>)
    ensures Merged(map[], [], es, 0, 0)
  {
  }

  lemma MergeStep(reqs: map<Port, Requirement>, ports: seq<Port>, es: seq<Excerpt>, k: nat, i: nat)
    requires k < |es| && i < es[k].length && Merged(reqs, ports, es, k, i)
    ensures var cp := Uint16(es[k].begin + i);
            Merged(reqs[cp := Ask(Asked(reqs, cp), es[k].proto)], if cp in reqs then ports else ports + [cp], es, k, i + 1)
  {
    forall proto, p: Port
      ensures AskedSoFar(es, k, i + 1, proto, p)
              <==> AskedSoFar(es, k, i, proto, p) || (proto == es[k].proto && p == Uint16(es[k].begin + i))
    {
      AskedStep(es, k, i, proto, p);
    }
  }

  lemma MergeNext(reqs: map<Port, Requirement>, ports: seq<Port>, es: seq<Excerpt>, k: nat)
    requires k < |es| && Merged(reqs, ports, es, k, es[k].length)
    ensures Merged(reqs, ports, es, k + 1, 0)
  {
    forall proto, p
      ensures AskedSoFar(es, k, es[k].length, proto, p) <==> AskedSoFar(es, k + 1, 0, proto, p)
    {
      ExcerptDone(es, k, proto, p);
    }
  }

  /** The inner loop: the ports of one excerpt, wrapping past 65535. */
  method MergeExcerpt(before: map<Port, Requirement>, found: seq<Port>, es: seq<Excerpt>, k: nat)
    returns (reqs: map<Port, Requirement>, ports: seq<Port>)
    requires k < |es| && Merged(before, found, es, k, 0)
    ensures Merged(reqs, ports, es, k, es[k].length)
  {
    reqs, ports := before, found;
    var i: Port := 0;
    while i < es[k].length
      invariant 0 <= i <= es[k].length
      invariant Merged(reqs, ports, es, k, i)
      decreases es[k].length - i
    {
      MergeStep(reqs, ports, es, k, i);
      var cp := Uint16(es[k].begin + i);
      ports := if cp in reqs then ports else ports + [cp];
      reqs := reqs[cp := Ask(Asked(reqs, cp), es[k].proto)];
      i := i + 1;
    }
  }

  /** The merge loops: container port to needed protocols, plus the ports in order of first appearance. */
  method MergeRequirements(es: seq<Excerpt>) returns (reqs: map<Port, Requirement>, ports: seq<Port>)
    ensures Merged(reqs, ports, es, |es|, 0)
  {
    reqs, ports := map[], [];
    MergeStart(es);
    var k := 0;
    while k < |es|
      invariant 0 <= k <= |es|
      invariant Merged(reqs, ports, es, k, 0)
    {
      reqs, ports := MergeExcerpt(reqs, ports, es, k);
      MergeNext(reqs, ports, es, k);
      k := k + 1;
    }
  }

  // -------------------------------------------------------------- sorting

  ghost predicate Ascending(s: seq<Port>) {
    forall i, j :: 0 <= i < j < |s| ==> s[i] < s[j]
  }

  predicate NeverDescending(s: seq<Port>) {
    forall i, j :: 0 <= i < j < |s| ==> s[i] <= s[j]
  }

  function Insert(p: Port, s: seq<Port>): (r: seq<Port>)
    requires NeverDescending(s)
    ensures NeverDescending(r)
    ensures forall q :: q in r <==> q == p || q in s
  {
    if s == [] || p <= s[0] then [p] + s
    else
      var rest := Insert(p, s[1..]);
      assert forall j :: 0 <= j < |rest| ==> rest[j] in rest;
      [s[0]] + rest
  }

  function SortPorts(s: seq<Port>): (r: seq<Port>)
    ensures NeverDescending(r)
    ensures forall q :: q in r <==> q in s
  {
    if s == [] then [] else Insert(s[0], SortPorts(s[1..]))
  }

  lemma {:induction false} InsertAscending(p: Port, s: seq<Port>)
    requires Ascending(s) && p !in s
    ensures NeverDescending(s) && Ascending(Insert(p, s))
  {
    if s != [] && p > s[0] {
      InsertAscending(p, s[1..]);
      var tail := Insert(p, s[1..]);
      forall j | 0 <= j < |tail|
        ensures s[0] < tail[j]
      {
        assert tail[j] in tail;
      }
    }
  }

  lemma {:induction false} SortPortsAscending(s: seq<Port>)
    requires forall a, b :: 0 <= a < b < |s| ==> s[a] != s[b]
    ensures Ascending(SortPorts(s))
  {
    if s != [] {
      SortPortsAscending(s[1..]);
      InsertAscending(s[0], SortPorts(s[1..]));
    }
  }

  // ------------------------------------------------------------ plan algebra

  lemma PrependSplit(a: seq<Mapping>, b: seq<Mapping>, rest: Option<seq<Mapping>>)
    ensures Prepend(a + b, rest) == Prepend(a, Prepend(b, rest))
  {
    if rest.Some? {
      assert (a + b) + rest.value == a + (b + rest.value);
    }
  }

  lemma PrependNothing(rest: Option<seq<Mapping>>, ms: seq<Mapping>)
    ensures Prepend([], rest) == rest
    ensures Prepend(ms, Some([])) == Some(ms)
  {
    if rest.Some? {
      assert [] + rest.value == rest.value;
    }
    assert ms + [] == ms;
  }

  /** Container ports nobody asked for are skipped without effect. */
  lemma {:induction false} SkipTo(mode: PortMode, d: PortSets, o: Owner, from: int, until: int, u: PortSets)
    requires 0 <= from <= until <= 0x1_0000
    requires forall p: Port :: from <= p < until ==> p !in d.tcp && p !in d.udp
    ensures PlanFrom(mode, d, o, from, u) == PlanFrom(mode, d, o, until, u)
    decreases until - from
  {
    if from < until {
      SkipTo(mode, d, o, from + 1, until, u);
    }
  }

  /** The sorted list holds exactly the demanded container ports. */
  ghost predicate ListsDemand(ports: seq<Port>, d: PortSets) {
    forall p: Port :: p in d.tcp || p in d.udp <==> p in ports
  }

  lemma NothingBetween(ports: seq<Port>, i: nat, next: int, d: PortSets)
    requires Ascending(ports) && i < |ports|
    requires next == if i == 0 then 0 else ports[i - 1] as int + 1
    requires ListsDemand(ports, d)
    ensures next <= ports[i]
    ensures forall p: Port :: next <= p < ports[i] ==> p !in d.tcp && p !in d.udp
  {
    forall k | 0 <= k < |ports|
      ensures ports[k] < next || ports[k] >= ports[i]
    {
      assert k < i - 1 ==> ports[k] < ports[i - 1];
      assert k > i ==> ports[i] < ports[k];
    }
  }

  lemma NothingAfter(ports: seq<Port>, next: int, d: PortSets)
    requires Ascending(ports)
    requires next == if |ports| == 0 then 0 else ports[|ports| - 1] as int + 1
    requires ListsDemand(ports, d)
    ensures forall p: Port :: next <= p ==> p !in d.tcp && p !in d.udp
  {
    forall k | 0 <= k < |ports|
      ensures ports[k] < next
    {
      assert k < |ports| - 1 ==> ports[k] < ports[|ports| - 1];
    }
  }

  /** One round of first fit: skip to the next demanded port and place it, or get stuck there. */
  lemma Round(mode: PortMode, d: PortSets, o: Owner, ports: seq<Port>, i: nat, next: int, u: PortSets, placed: seq<Mapping>)
    requires Ascending(ports) && ListsDemand(ports, d) && i < |ports|
    requires next == if i == 0 then 0 else ports[i - 1] as int + 1
    ensures 0 <= next <= ports[i]
    ensures var container := ports[i];
            var tcp, udp := container in d.tcp, container in d.udp;
            (tcp || udp) &&
            Prepend(placed, PlanFrom(mode, d, o, next, u)) ==
            match HostPortFor(mode, u, tcp, udp, container)
            case None => None
            case Some(host) =>
              Prepend(placed + Entry(o, host, container, tcp, udp, false),
                      PlanFrom(mode, d, o, container as int + 1, u.Mark(tcp, udp, host)))
  {
    var container := ports[i];
    NothingBetween(ports, i, next, d);
    assert container in ports;
    SkipTo(mode, d, o, next, container, u);
    var tcp, udp := container in d.tcp, container in d.udp;
    var host := HostPortFor(mode, u, tcp, udp, container);
    if host.Some? {
      PrependSplit(placed, Entry(o, host.value, container, tcp, udp, false),
                   PlanFrom(mode, d, o, container as int + 1, u.Mark(tcp, udp, host.value)));
    }
  }

  lemma LastRound(mode: PortMode, d: PortSets, o: Owner, ports: seq<Port>, next: int, u: PortSets, placed: seq<Mapping>)
    requires Ascending(ports) && ListsDemand(ports, d)
    requires next == if |ports| == 0 then 0 else ports[|ports| - 1] as int + 1
    ensures 0 <= next <= 0x1_0000
    ensures Prepend(placed, PlanFrom(mode, d, o, next, u)) == Some(placed)
  {
    NothingAfter(ports, next, d);
    SkipTo(mode, d, o, next, 0x1_0000, u);
    PrependNothing(None, placed);
  }

  // --------------------------------------------------------------- the mapper

  class GameContainerPortMapper {
    var table: Table

    constructor (table: Table)
      ensures this.table == table
    {
      this.table := table;
    }

    /** planPortsNAT: merge, sort, then first fit from the lowest container port. */
    method PlanPortsNAT(c: Config, o: Owner) returns (r: Option<seq<Mapping>>)
      ensures r == PlanFrom(c.mode, DemandOf(c.excerpts), o, 0, UsedOn(table, o.agent))
    {
      var used := UsedHostPorts(table, o.agent);
      var reqs, found := MergeRequirements(c.excerpts);
      assert c.excerpts[..|c.excerpts|] == c.excerpts;
      ghost var d := DemandOf(c.excerpts);
      assert forall p :: p in reqs ==> reqs[p] == Requirement(p in d.tcp, p in d.udp);
      assert forall p: Port :: p in d.tcp || p in d.udp <==> p in reqs;
      SortPortsAscending(found);
      var ports := SortPorts(found);
      assert forall k :: 0 <= k < |ports| ==> ports[k] in ports;
      r := FirstFit(c.mode, reqs, ports, o, used, d);
    }

    /** The allocation loop over the sorted container ports. */
    method FirstFit(mode: PortMode, reqs: map<Port, Requirement>, ports: seq<Port>, o: Owner, used: UsedPorts, ghost d: PortSets)
      returns (r: Option<seq<Mapping>>)
      requires Ascending(ports) && ListsDemand(ports, d)
      requires forall k :: 0 <= k < |ports| ==>
                 ports[k] in reqs && reqs[ports[k]] == Requirement(ports[k] in d.tcp, ports[k] in d.udp)
      modifies used
      ensures r == PlanFrom(mode, d, o, 0, old(used.View()))
    {
      ghost var u0 := used.View();
      var mappings: seq<Mapping> := [];
      var i := 0;
      ghost var next: int := 0;
      PrependNothing(PlanFrom(mode, d, o, 0, u0), []);
      while i < |ports|
        invariant 0 <= i <= |ports|
        invariant 0 <= next <= 0x1_0000
        invariant next == if i == 0 then 0 else ports[i - 1] as int + 1
        invariant PlanFrom(mode, d, o, 0, u0) == Prepend(mappings, PlanFrom(mode, d, o, next, used.View()))
      {
        var container := ports[i];
        Round(mode, d, o, ports, i, next, used.View(), mappings);
        var entry := PlaceContainer(mode, used, reqs[container], o, container);
        if entry.None? {
          return None;
        }
        mappings := mappings + entry.value;
        next := container as int + 1;
        i := i + 1;
      }
      LastRound(mode, d, o, ports, next, used.View(), mappings);
      return Some(mappings);
    }

    /** One round of the planning loop: choose the host port, mark it and build the rows. */
    method PlaceContainer(mode: PortMode, used: UsedPorts, req: Requirement, o: Owner, container: Port)
      returns (r: Option<seq<Mapping>>)
      requires req.tcp || req.udp
      modifies used
      ensures match HostPortFor(mode, old(used.View()), req.tcp, req.udp, container)
              case None => r == None
              case Some(host) =>
                && r == Some(Entry(o, host, container, req.tcp, req.udp, false))
                && used.View() == old(used.View()).Mark(req.tcp, req.udp, host)
    {
      var host: Option<Port> := Some(container);
      if mode == HOST {
        var busyTcp := used.PortInUse(TCP, container);
        var busyUdp := used.PortInUse(UDP, container);
        if (req.tcp && busyTcp) || (req.udp && busyUdp) {
          return None;
        }
      } else {
        host := used.AllocateHostPort(req.tcp, req.udp);
        if host.None? {
          return None;
        }
      }
      if req.tcp {
        used.MarkUsed(TCP, host.value);
      }
      if req.udp {
        used.MarkUsed(UDP, host.value);
      }
      return Some(Entry(o, host.value, container, req.tcp, req.udp, false));
    }

    /** mapPortExtraNAT: one host port per excerpt position below the game base. */
    method MapPortExtraNAT(es: seq<Excerpt>, o: Owner, gameBase: Port, used: UsedPorts) returns (r: Option<seq<Mapping>>)
      modifies used
      ensures r == ExtraRows(es, o, gameBase, 0, 0, old(used.View()))
    {
      var mappings: seq<Mapping> := [];
      ghost var u0 := used.View();
      PrependNothing(ExtraRows(es, o, gameBase, 0, 0, u0), []);
      var k := 0;
      while k < |es|
        invariant 0 <= k <= |es|
        invariant ExtraRows(es, o, gameBase, 0, 0, u0) == Prepend(mappings, ExtraRows(es, o, gameBase, k, 0, used.View()))
      {
        var excerpt := es[k];
        if excerpt.begin < gameBase {
          var i: Port := 0;
          while i < excerpt.length
            invariant 0 <= i <= excerpt.length
            invariant ExtraRows(es, o, gameBase, 0, 0, u0) == Prepend(mappings, ExtraRows(es, o, gameBase, k, i, used.View()))
            decreases excerpt.length - i
          {
            var container := Uint16(excerpt.begin + i);
            var host := used.AllocateHostPort(excerpt.proto == TCP, excerpt.proto == UDP);
            if host.None? {
              return None;
            }
            ghost var done := mappings;
            used.MarkUsed(if excerpt.proto == TCP then TCP else UDP, host.value);
            mappings := mappings + [Row(o, host.value, container, excerpt.proto, false)];
            ghost var entry := Entry(o, host.value, container, excerpt.proto == TCP, excerpt.proto == UDP, false);
            assert mappings == done + entry;
            i := i + 1;
            PrependSplit(done, entry, ExtraRows(es, o, gameBase, k, i, used.View()));
          }
        }
        k := k + 1;
      }
      PrependNothing(None, mappings);
      return Some(mappings);
    }

    /** planPortsInjected: a contiguous identity block for the game, ordinary NAT below it. */
    method PlanPortsInjected(es: seq<Excerpt>, o: Owner) returns (r: Option<seq<Mapping>>)
      ensures r == PlanInjected(es, o, UsedOn(table, o.agent))
    {
      var gameBase := FindGameBase(es);
      if gameBase == 0 {
        return None;
      }
      var blockLen := MeasureBlock(es, gameBase);
      var used := UsedHostPorts(table, o.agent);
      ghost var u0 := used.View();
      LeastBlockIsLeast(u0, blockLen, PORT_BEGIN);
      var hostBase := used.AllocateContiguousHostPorts(blockLen);
      if hostBase.None? {
        return None;
      }
      ghost var b := Block(gameBase, blockLen, hostBase.value);
      assert GameBlock(es, u0) == Some(b);
      MarkWholeBlock(used, hostBase.value, blockLen);
      assert used.View() == MarkBlock(u0, b);

      var mappings := BlockMappings(es, o, gameBase, hostBase.value, blockLen);
      var extra := MapPortExtraNAT(es, o, gameBase, used);
      if extra.None? {
        return None;
      }
      return Some(mappings + extra.value);
    }

    static lemma NextOffset(d: PortSets, o: Owner, b: Block, i: Port, done: seq<Mapping>, entry: seq<Mapping>)
      requires b.Valid() && i < b.len
      requires var container := Uint16(b.base + i);
               entry == Entry(o, b.host + i, b.host + i, container in d.tcp, container in d.udp, i == 0)
      ensures done + BlockRows(d, o, b, i) == (done + entry) + BlockRows(d, o, b, i + 1)
    {
      var rest := BlockRows(d, o, b, i + 1);
      assert BlockRows(d, o, b, i) == entry + rest;
      assert done + (entry + rest) == (done + entry) + rest;
    }

    /** Counting on from the base past the last port does not come back to it within one block. */
    static lemma BackAtBase(base: Port, i: Port)
      ensures Uint16(base + i) == base <==> i == 0
    {
    }

    /** The rows of one offset of the block. */
    method OffsetMappings(es: seq<Excerpt>, o: Owner, gameBase: Port, hostBase: Port, i: Port) returns (entry: seq<Mapping>)
      requires hostBase + i <= 65535
      ensures var container := Uint16(gameBase + i);
              entry == Entry(o, hostBase + i, hostBase + i, container in ScanOf(es).tcp, container in ScanOf(es).udp, i == 0)
    {
      var container := Uint16(gameBase + i);
      BackAtBase(gameBase, i);
      var host: Port := hostBase + i;
      var needTcp, needUdp := ProtocolsOf(es, container);
      entry := Entry(o, host, host, needTcp, needUdp, container == gameBase);
    }

    /** The identity rows of the game block, offset by offset. */
    method BlockMappings(es: seq<Excerpt>, o: Owner, gameBase: Port, hostBase: Port, blockLen: Port) returns (mappings: seq<Mapping>)
      requires Block(gameBase, blockLen, hostBase).Valid()
      ensures mappings == BlockRows(ScanOf(es), o, Block(gameBase, blockLen, hostBase), 0)
    {
      mappings := [];
      ghost var b, d := Block(gameBase, blockLen, hostBase), ScanOf(es);
      var i: Port := 0;
      while i < blockLen
        invariant 0 <= i <= blockLen
        invariant BlockRows(d, o, b, 0) == mappings + BlockRows(d, o, b, i)
        decreases blockLen - i
      {
        var entry := OffsetMappings(es, o, gameBase, hostBase, i);
        NextOffset(d, o, b, i, mappings, entry);
        mappings := mappings + entry;
        i := i + 1;
      }
      assert mappings + [] == mappings;
    }

    method PlanPorts(c: Config, o: Owner) returns (r: Option<seq<Mapping>>)
      ensures r == Plan(c, o, table)
    {
      if c.inject && c.mode == NAT {
        r := PlanPortsInjected(c.excerpts, o);
      } else {
        r := PlanPortsNAT(c, o);
      }
    }

    /** MapPort: release what the instance has, plan, store. */
    method MapPort(c: Config, o: Owner) returns (r: Option<seq<Mapping>>)
      modifies this
      ensures table == Apply(old(table), TableOp.MapPort(c, o))
      ensures r == Plan(c, o, Without(old(table), o.instance))
    {
      ReleaseMapPortByInstanceId(o.instance);
      r := PlanPorts(c, o);
      if r.Some? {
        SaveAll(r.value);
      }
    }

    method SaveAll(plan: seq<Mapping>)
      modifies this
      ensures table == old(table) + plan
    {
      var i := 0;
      while i < |plan|
        invariant 0 <= i <= |plan|
        invariant table == old(table) + plan[..i]
      {
        table := table + [plan[i]];
        i := i + 1;
      }
      assert plan[..i] == plan;
    }

    method ReleaseMapPortByInstanceId(inst: string)
      modifies this
      ensures table == Without(old(table), inst)
    {
      table := Without(table, inst);
    }
  }

  method FindGameBase(es: seq<Excerpt>) returns (base: Port)
    ensures base == GameBase(es)
  {
    var k := 0;
    while k < |es|
      invariant 0 <= k <= |es|
      invariant GameBase(es) == GameBase(es[k..])
    {
      if es[k].isGamePort {
        return es[k].begin;
      }
      k := k + 1;
    }
    return 0;
  }

  method MeasureBlock(es: seq<Excerpt>, gameBase: Port) returns (len: Port)
    ensures len == BlockLength(es, gameBase, 1)
  {
    len := 1;
    var k := 0;
    while k < |es|
      invariant 0 <= k <= |es|
      invariant BlockLength(es, gameBase, 1) == BlockLength(es[k..], gameBase, len)
    {
      var e := es[k];
      if e.begin >= gameBase {
        var end := Uint16(e.begin + e.length);
        var limit := Uint16(gameBase + len);
        if end > limit {
          len := Uint16(end - gameBase);
        }
      }
      k := k + 1;
    }
  }

  method MarkWholeBlock(used: UsedPorts, host: Port, count: Port)
    requires host + count <= 65536
    modifies used
    ensures used.View() == PortSets(old(used.tcp) + PortRange(host, count), old(used.udp) + PortRange(host, count))
  {
    var i: Port := 0;
    while i < count
      invariant 0 <= i <= count
      invariant used.View() == PortSets(old(used.tcp) + PortRange(host, i), old(used.udp) + PortRange(host, i))
      decreases count - i
    {
      used.MarkUsed(TCP, host + i);
      used.MarkUsed(UDP, host + i);
      i := i + 1;
    }
  }

  /** The inner scan of the block loop: which protocols any excerpt wants on this port. */
  method ProtocolsOf(es: seq<Excerpt>, port: Port) returns (needTcp: bool, needUdp: bool)
    ensures needTcp == (port in ScanOf(es).tcp) && needUdp == (port in ScanOf(es).udp)
  {
    needTcp, needUdp := false, false;
    var k := 0;
    while k < |es|
      invariant 0 <= k <= |es|
      invariant needTcp == Scanned(es[..k], TCP, port) && needUdp == Scanned(es[..k], UDP, port)
    {
      var e := es[k];
      assert es[..k + 1] == es[..k] + [e] && e in es[..k + 1];
      if e.begin <= port && port < Uint16(e.begin + e.length) {
        match e.proto {
          case TCP => needTcp := true;
          case UDP => needUdp := true;
        }
      }
      k := k + 1;
    }
    assert es[..k] == es;
    assert ScanOf(es).Has(TCP, port) <==> Scanned(es, TCP, port);
    assert ScanOf(es).Has(UDP, port) <==> Scanned(es, UDP, port);
  }

  // ------------------------------------- what the plan tells player and game

  /** The first flagged row: buildInstanceEnv's scan. */
  method InjectedEnvPort(inject: bool, rows: seq<Mapping>) returns (r: Option<Port>)
    ensures r == if inject then FlaggedPort(rows) else None
  {
    if !inject {
      return None;
    }
    var k := 0;
    while k < |rows|
      invariant 0 <= k <= |rows|
      invariant FlaggedPort(rows) == FlaggedPort(rows[k..])
    {
      if rows[k].isGamePort {
        return Some(rows[k].hostPort);
      }
      k := k + 1;
    }
    return None;
  }

  function FlaggedPort(rows: seq<Mapping>): Option<Port> {
    if rows == [] then None
    else if rows[0].isGamePort then Some(rows[0].hostPort)
    else FlaggedPort(rows[1..])
  }

  /** Host port of the connect address: the flagged row, else the first row of the game's container port. */
  function ConnectPort(rows: seq<Mapping>, gamePort: Port): Option<Port> {
    var flagged := FlaggedPort(rows);
    if flagged.Some? then flagged else FirstOfContainer(rows, gamePort)
  }

  function FirstOfContainer(rows: seq<Mapping>, container: Port): Option<Port> {
    if rows == [] then None
    else if rows[0].containerPort == container then Some(rows[0].hostPort)
    else FirstOfContainer(rows[1..], container)
  }

  /** GetInstanceConnectInfo's loop: one pass with a fallback. */
  method ConnectHostPort(rows: seq<Mapping>, gamePort: Port) returns (r: Option<Port>)
    ensures r == ConnectPort(rows, gamePort)
  {
    var fallback: Option<Port> := None;
    var k := 0;
    while k < |rows|
      invariant 0 <= k <= |rows|
      invariant FlaggedPort(rows) == FlaggedPort(rows[k..])
      invariant FirstOfContainer(rows, gamePort) ==
                if fallback.Some? then fallback else FirstOfContainer(rows[k..], gamePort)
    {
      if rows[k].isGamePort {
        return Some(rows[k].hostPort);
      }
      if rows[k].containerPort == gamePort && fallback.None? {
        fallback := Some(rows[k].hostPort);
      }
      k := k + 1;
    }
    return fallback;
  }

  ghost predicate FlaggedRows(rows: seq<Mapping>, i: int) {
    0 <= i < |rows| && rows[i].isGamePort
  }

  lemma {:induction false} FlaggedPortFinds(rows: seq<Mapping>, host: Port)
    requires forall m :: m in rows && m.isGamePort ==> m.hostPort == host
    ensures FlaggedPort(rows) == if (exists m :: m in rows && m.isGamePort) then Some(host) else None
  {
    if rows != [] {
      assert rows[0] in rows;
      FlaggedPortFinds(rows[1..], host);
      if rows[0].isGamePort {
      } else {
        assert (exists m :: m in rows && m.isGamePort) <==> (exists m :: m in rows[1..] && m.isGamePort);
      }
    }
  }

  // ----------------------------------- the address of a plan without injection

  lemma {:induction false} PlainPlanFlagsNothing(mode: PortMode, d: PortSets, o: Owner, container: int, u: PortSets)
    requires 0 <= container <= 0x1_0000 && PlanFrom(mode, d, o, container, u).Some?
    ensures forall m :: m in PlanFrom(mode, d, o, container, u).value ==> !m.isGamePort
    decreases 0x1_0000 - container
  {
    if container < 0x1_0000 {
      var tcp, udp := container in d.tcp, container in d.udp;
      if !tcp && !udp {
        PlainPlanFlagsNothing(mode, d, o, container + 1, u);
      } else {
        PlainPlanFlagsNothing(mode, d, o, container + 1, u.Mark(tcp, udp, HostPortFor(mode, u, tcp, udp, container).value));
      }
    }
  }

  lemma {:induction false} FirstOfContainerFinds(rows: seq<Mapping>, container: Port, host: Port)
    requires forall m :: m in rows && m.containerPort == container ==> m.hostPort == host
    ensures FirstOfContainer(rows, container) == if (exists m :: m in rows && m.containerPort == container) then Some(host) else None
  {
    if rows != [] {
      assert rows[0] in rows;
      FirstOfContainerFinds(rows[1..], container, host);
      if rows[0].containerPort != container {
        assert (exists m :: m in rows && m.containerPort == container) <==> (exists m :: m in rows[1..] && m.containerPort == container);
      }
    }
  }

  /**
   * Without injection the game is told nothing, and the address is where the game port is mapped:
   * there is one exactly if the game port is demanded, the same for both protocols, and in HOST mode
   * the game port itself.
   */
  lemma PlainAddressIsTheGamePort(c: Config, o: Owner, t: Table, gamePort: Port)
    requires !(c.inject && c.mode == NAT) && Plan(c, o, t).Some?
    ensures var rows := Plan(c, o, t).value;
            && FlaggedPort(rows).None?
            && (ConnectPort(rows, gamePort).Some? <==> Demanded(c.excerpts, TCP, gamePort) || Demanded(c.excerpts, UDP, gamePort))
            && (forall m :: m in rows && m.containerPort == gamePort ==> ConnectPort(rows, gamePort) == Some(m.hostPort))
            && (c.mode == HOST && ConnectPort(rows, gamePort).Some? ==> ConnectPort(rows, gamePort) == Some(gamePort))
  {
    var d, u, rows := DemandOf(c.excerpts), UsedOn(t, o.agent), Plan(c, o, t).value;
    PlainPlanFlagsNothing(c.mode, d, o, 0, u);
    PlanIsSound(c.mode, d, o, 0, u);
    FlaggedPortFinds(rows, 0);
    assert Serves(rows, TCP, gamePort) <==> Demanded(c.excerpts, TCP, gamePort);
    assert Serves(rows, UDP, gamePort) <==> Demanded(c.excerpts, UDP, gamePort);
    if m :| m in rows && m.containerPort == gamePort {
      assert Serves(rows, m.proto, gamePort);
      assert HostPortAllowed(m, c.mode);
      FirstOfContainerFinds(rows, gamePort, m.hostPort);
    } else {
      FirstOfContainerFinds(rows, gamePort, 0);
    }
  }

  lemma EqualRowsCoincide(ms: seq<Mapping>, i: nat, j: nat)
    requires NoClash(ms) && i < |ms| && j < |ms| && ms[i] == ms[j]
    ensures i == j
  {
  }

  lemma FlagOnBase(es: seq<Excerpt>, o: Owner, b: Block, u: PortSets, ms: seq<Mapping>)
    requires GameBlock(es, u) == Some(b) && BlockMirrorsScan(ms, es, o, b)
    ensures Scanned(es, TCP, b.base) ==> BlockRow(o, b, b.host, TCP) in ms
    ensures BlockRow(o, b, b.host, TCP) in ms && b.len > 0 ==> Scanned(es, TCP, b.base)
  {
    if b.base < 65535 {
      BlockLengthIsTight(es, b.base, 1);
    }
    if b.len > 0 {
      assert BlockRow(o, b, b.host, TCP) in ms <==> Scanned(es, TCP, Uint16(b.base + (b.host - b.host)));
    }
  }

  /** An injected plan flags exactly one row when the scan finds a TCP excerpt on the game base, and none otherwise. */
  lemma OneFlaggedRowIffTcpBase(es: seq<Excerpt>, o: Owner, u: PortSets)
    requires PlanInjected(es, o, u).Some?
    ensures var b, ms := GameBlock(es, u).value, PlanInjected(es, o, u).value;
            && (forall m :: m in ms && m.isGamePort ==> m == BlockRow(o, b, b.host, TCP))
            && ((exists m :: m in ms && m.isGamePort) <==> Scanned(es, TCP, b.base))
            && (forall i, j :: FlaggedRows(ms, i) && FlaggedRows(ms, j) ==> i == j)
  {
    var b, d, ms := GameBlock(es, u).value, ScanOf(es), PlanInjected(es, o, u).value;
    InjectedPlanIsExact(es, o, u);
    InjectedPlanIsFresh(es, o, u);
    BlockRowsExact(d, o, b, 0);
    ExtraRowsSound(es, o, b.base, 0, 0, MarkBlock(u, b));
    forall m | m in ms && m.isGamePort
      ensures m == BlockRow(o, b, b.host, TCP)
    {
      var extra := ExtraRows(es, o, b.base, 0, 0, MarkBlock(u, b)).value;
      assert m in extra ==> ExtraRow(m, es, b.base);
      assert InBlock(m, d, o, b, 0);
    }
    FlagOnBase(es, o, b, u, ms);
    forall i, j | FlaggedRows(ms, i) && FlaggedRows(ms, j)
      ensures i == j
    {
      assert ms[i] in ms && ms[j] in ms;
      EqualRowsCoincide(ms, i, j);
    }
  }

  /**
   * Environment and connect address agree on the block's host base whenever the instance's rows
   * are its current plan and the scan finds a TCP excerpt on the base; without one the game is told nothing.
   */
  lemma EnvAndAddressNameTheBlock(es: seq<Excerpt>, o: Owner, u: PortSets)
    requires PlanInjected(es, o, u).Some?
    ensures var b, ms := GameBlock(es, u).value, PlanInjected(es, o, u).value;
            && FlaggedPort(ms) == (if Scanned(es, TCP, b.base) then Some(b.host) else None)
            && (Scanned(es, TCP, b.base) ==> ConnectPort(ms, b.base) == Some(b.host))
  {
    OneFlaggedRowIffTcpBase(es, o, u);
    FlaggedPortFinds(PlanInjected(es, o, u).value, GameBlock(es, u).value.host);
  }

  /** The host port that an injected plan means player and game to be told. */
  function MeantPort(es: seq<Excerpt>, b: Block): Option<Port> {
    if Scanned(es, TCP, b.base) then Some(b.host) else None
  }

  lemma PlanBelongsToOwner(es: seq<Excerpt>, o: Owner, u: PortSets)
    requires PlanInjected(es, o, u).Some?
    ensures RowsOf(PlanInjected(es, o, u).value, o.instance) == PlanInjected(es, o, u).value
  {
    var ms := PlanInjected(es, o, u).value;
    InjectedPlanIsFresh(es, o, u);
    forall m | m in ms
      ensures m.instance == o.instance
    {
      assert OwnedAndFree(m, o, u);
    }
    RowsOfOwn(ms, o.instance);
  }

  /**
   * What player and game are told once a plan is inserted beside what the table still holds: the
   * new block if and only if the instance's older rows flag nothing first, or the same port;
   * otherwise they name what the older rows flag.
   */
  lemma NewBlockNamedIff(t: Table, es: seq<Excerpt>, o: Owner, u: PortSets)
    requires PlanInjected(es, o, u).Some?
    ensures var b, earlier := GameBlock(es, u).value, RowsOf(t, o.instance);
            var rows := RowsOf(t + PlanInjected(es, o, u).value, o.instance);
            && (FlaggedPort(earlier).Some? ==> FlaggedPort(rows) == FlaggedPort(earlier))
            && (FlaggedPort(rows) == MeantPort(es, b) <==> FlaggedPort(earlier) in {None, MeantPort(es, b)})
            && (Scanned(es, TCP, b.base) ==>
                  (ConnectPort(rows, b.base) == Some(b.host) <==> FlaggedPort(earlier) in {None, Some(b.host)}))
  {
    var plan := PlanInjected(es, o, u).value;
    RowsOfAppend(t, plan, o.instance);
    PlanBelongsToOwner(es, o, u);
    EnvAndAddressNameTheBlock(es, o, u);
    FlaggedPortOfAppend(RowsOf(t, o.instance), plan);
  }

  /**
   * Planned again on the same machine beside its own older rows, an instance never gets its old
   * port back; so the new block is announced if and only if those rows flag nothing.
   */
  lemma ReplanNamedIffNothingFlagged(t: Table, es: seq<Excerpt>, o: Owner)
    requires PlanInjected(es, o, UsedOn(t, o.agent)).Some?
    requires forall m :: m in RowsOf(t, o.instance) && m.isGamePort ==> m.agent == o.agent && m.proto == TCP
    ensures var plan := PlanInjected(es, o, UsedOn(t, o.agent)).value;
            var meant := MeantPort(es, GameBlock(es, UsedOn(t, o.agent)).value);
            FlaggedPort(RowsOf(t + plan, o.instance)) == meant <==> FlaggedPort(RowsOf(t, o.instance)).None?
  {
    var u := UsedOn(t, o.agent);
    var b := GameBlock(es, u).value;
    NewBlockNamedIff(t, es, o, u);
    var earlier := RowsOf(t, o.instance);
    if FlaggedPort(earlier).Some? && MeantPort(es, b).Some? {
      var m := FirstFlagged(earlier);
      assert m.hostPort in u.tcp;
      FlagOnBaseLength(es, b, u);
      BlockReachesAll(es, u);
    }
  }

  lemma {:induction false} FirstFlagged(rows: seq<Mapping>) returns (m: Mapping)
    requires FlaggedPort(rows).Some?
    ensures m in rows && m.isGamePort && FlaggedPort(rows) == Some(m.hostPort)
  {
    if rows[0].isGamePort {
      m := rows[0];
    } else {
      m := FirstFlagged(rows[1..]);
    }
  }

  /** A base that the scan finds demanded has at least its own port in the block. */
  lemma FlagOnBaseLength(es: seq<Excerpt>, b: Block, u: PortSets)
    requires GameBlock(es, u) == Some(b) && Scanned(es, TCP, b.base)
    ensures b.len > 0
  {
    if b.base < 65535 {
      BlockLengthIsTight(es, b.base, 1);
    }
  }

  /** The flagged rows among these all mean this port. */
  predicate FlagsAgree(rows: seq<Mapping>, meant: Option<Port>) {
    forall m :: m in rows && m.isGamePort ==> meant == Some(m.hostPort)
  }

  /**
   * The same without relying on the order the rows are listed in: every listing names the new
   * block if and only if no older row of the instance flags another port.
   */
  lemma EveryListingNamesNewBlockIff(t: Table, es: seq<Excerpt>, o: Owner, u: PortSets)
    requires PlanInjected(es, o, u).Some?
    ensures var meant := MeantPort(es, GameBlock(es, u).value);
            (forall rows: seq<Mapping> :: multiset(rows) == multiset(RowsOf(t + PlanInjected(es, o, u).value, o.instance))
                                          ==> FlaggedPort(rows) == meant)
            <==> FlagsAgree(RowsOf(t, o.instance), meant)
  {
    var plan, earlier, meant := PlanInjected(es, o, u).value, RowsOf(t, o.instance), MeantPort(es, GameBlock(es, u).value);
    RowsOfAppend(t, plan, o.instance);
    PlanBelongsToOwner(es, o, u);
    OneFlaggedRowIffTcpBase(es, o, u);
    EveryListingAgreesIff(earlier + plan, meant);
    assert FlagsAgree(plan, meant);
  }

  /** All listings of some rows announce the port exactly if the flagged rows agree on it. */
  lemma EveryListingAgreesIff(rows: seq<Mapping>, meant: Option<Port>)
    requires meant.Some? ==> exists m :: m in rows && m.isGamePort
    ensures (forall listed: seq<Mapping> :: multiset(listed) == multiset(rows) ==> FlaggedPort(listed) == meant)
            <==> FlagsAgree(rows, meant)
  {
    if FlagsAgree(rows, meant) {
      forall listed: seq<Mapping> | multiset(listed) == multiset(rows)
        ensures FlaggedPort(listed) == meant
      {
        SameRowsSameFlags(listed, rows, meant);
      }
    } else {
      var m :| m in rows && m.isGamePort && meant != Some(m.hostPort);
      var listed := ListedFirst(rows, m);
    }
  }

  lemma SameRowsSameFlags(listed: seq<Mapping>, rows: seq<Mapping>, meant: Option<Port>)
    requires multiset(listed) == multiset(rows) && FlagsAgree(rows, meant)
    requires meant.Some? ==> exists m :: m in rows && m.isGamePort
    ensures FlaggedPort(listed) == meant
  {
    assert forall m :: m in listed <==> m in multiset(listed);
    assert forall m :: m in rows <==> m in multiset(rows);
    FlaggedPortFinds(listed, if meant.Some? then meant.value else 0);
  }

  lemma ListedFirst(rows: seq<Mapping>, m: Mapping) returns (listed: seq<Mapping>)
    requires m in rows && m.isGamePort
    ensures multiset(listed) == multiset(rows) && FlaggedPort(listed) == Some(m.hostPort)
  {
    var k :| 0 <= k < |rows| && rows[k] == m;
    assert rows == rows[..k] + [m] + rows[k + 1..];
    listed := [m] + rows[..k] + rows[k + 1..];
  }

  lemma {:induction false} FlaggedPortOfAppend(a: seq<Mapping>, b: seq<Mapping>)
    ensures FlaggedPort(a + b) == if FlaggedPort(a).Some? then FlaggedPort(a) else FlaggedPort(b)
  {
    if a == [] {
      assert a + b == b;
    } else {
      assert (a + b)[1..] == a[1..] + b;
      FlaggedPortOfAppend(a[1..], b);
    }
  }
}
