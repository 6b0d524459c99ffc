/**
 * What GameContainerPortMapper computes: host-port plans in NAT, HOST and injected mode, as
 * functions of the table, and the properties of every plan.
 */
module PortPlan {
  import opened Wrappers
  import opened PortTable

  const PORT_BEGIN: Port := 50100
  const PORT_END: Port := 52000

  datatype PortMode = NAT | HOST

  datatype Excerpt = Excerpt(proto: Protocol, begin: Port, length: Port, isGamePort: bool)

  datatype Config = Config(mode: PortMode, inject: bool, excerpts: seq<Excerpt>)

  /** The port number that the sum or difference of two port numbers is stored as. */
  function Uint16(x: int): Port
    requires -0x1_0000 <= x < 0x2_0000
  {
    if x < 0 then x + 0x1_0000 else if x < 0x1_0000 then x else x - 0x1_0000
  }

  /** How far the port lies above the begin of the excerpt, counting on from 65535 to 0. */
  function Offset(e: Excerpt, port: Port): Port {
    if port >= e.begin then port - e.begin else port - e.begin + 0x1_0000
  }

  lemma OffsetExact(e: Excerpt, i: Port, port: Port)
    ensures Offset(e, port) == i <==> Uint16(e.begin + i) == port
  {
  }

  /** The loops over an excerpt visit this port: those that pass 65535 go on at 0. */
  predicate Covers(e: Excerpt, port: int) {
    0 <= port < 0x1_0000 && Offset(e, port) < e.length
  }

  /** Some excerpt asks for this container port in this protocol. */
  predicate Demanded(es: seq<Excerpt>, proto: Protocol, port: int) {
    exists e :: e in es && e.proto == proto && Covers(e, port)
  }

  // ------------------------------------------------------ pairs of port sets

  /** One set of ports per protocol space: host ports in use, or container ports demanded. */
  datatype PortSets = PortSets(tcp: set<Port>, udp: set<Port>)
  {
    predicate Has(proto: Protocol, port: int) {
      match proto
      case TCP => port in tcp
      case UDP => port in udp
    }

    function Of(proto: Protocol): set<Port> {
      if proto == TCP then tcp else udp
    }

    /** The port is in none of the named spaces. */
    predicate Free(inTcp: bool, inUdp: bool, port: int) {
      !(inTcp && port in tcp) && !(inUdp && port in udp)
    }

    function Mark(inTcp: bool, inUdp: bool, port: Port): PortSets {
      PortSets(if inTcp then tcp + {port} else tcp, if inUdp then udp + {port} else udp)
    }
  }

  /** The scan of the block loop sees this port in the excerpt: it compares with the end as stored. */
  predicate Scans(e: Excerpt, port: int) {
    e.begin <= port < Uint16(e.begin + e.length)
  }

  predicate Unwrapped(e: Excerpt) {
    e.begin + e.length < 0x1_0000
  }

  /** The scan sees what the excerpt covers, or nothing at all if the excerpt reaches past the last port. */
  lemma ScansIff(e: Excerpt, port: int)
    ensures Scans(e, port) <==> Unwrapped(e) && Covers(e, port)
  {
  }

  predicate Scanned(es: seq<Excerpt>, proto: Protocol, port: int) {
    exists e :: e in es && e.proto == proto && Scans(e, port)
  }

  /** The container ports the block loop finds demanded. */
  function ScanOf(es: seq<Excerpt>): (d: PortSets)
    ensures forall proto, p: Port :: d.Has(proto, p) <==> Scanned(es, proto, p)
  {
    PortSets(set p: Port | 0 <= p < 0x1_0000 && Scanned(es, TCP, p),
             set p: Port | 0 <= p < 0x1_0000 && Scanned(es, UDP, p))
  }

  /** The container ports the excerpts ask for, overlapping excerpts merged. */
  function DemandOf(es: seq<Excerpt>): (d: PortSets)
    ensures forall proto, p: Port :: d.Has(proto, p) <==> Demanded(es, proto, p)
  {
    PortSets(set p: Port | 0 <= p < 0x1_0000 && Demanded(es, TCP, p),
             set p: Port | 0 <= p < 0x1_0000 && Demanded(es, UDP, p))
  }

  /** usedHostPorts over the rows of one node agent. */
  function UsedOn(t: Table, agent: string): PortSets {
    PortSets(set m | m in t && m.agent == agent && m.proto == TCP :: m.hostPort,
             set m | m in t && m.agent == agent && m.proto == UDP :: m.hostPort)
  }

  /** Some row of the machine holds the port in this protocol. */
  predicate Taken(t: Table, agent: string, proto: Protocol, port: Port) {
    exists m :: m in t && m.agent == agent && m.proto == proto && m.hostPort == port
  }

  /** Used on a machine is what rows of that machine hold, and nothing else. */
  lemma UsedIffTaken(t: Table, agent: string, proto: Protocol, port: Port)
    ensures UsedOn(t, agent).Has(proto, port) <==> Taken(t, agent, proto, port)
  {
  }

  /** The first port from `from` upwards that is free in every needed protocol space. */
  function LeastFree(u: PortSets, needTcp: bool, needUdp: bool, from: Port): Option<Port>
    requires from <= PORT_END + 1
    decreases PORT_END + 1 - from, u
  {
    if from > PORT_END then None
    else if u.Free(needTcp, needUdp, from) then Some(from)
    else LeastFree(u, needTcp, needUdp, from + 1)
  }

  lemma {:induction false} LeastFreeIsLeast(u: PortSets, needTcp: bool, needUdp: bool, from: Port)
    requires from <= PORT_END + 1
    ensures match LeastFree(u, needTcp, needUdp, from)
            case Some(p) =>
              from <= p <= PORT_END && u.Free(needTcp, needUdp, p) &&
              forall q: Port :: from <= q < p ==> !u.Free(needTcp, needUdp, q)
            case None => forall q: Port :: from <= q <= PORT_END ==> !u.Free(needTcp, needUdp, q)
    decreases PORT_END + 1 - from
  {
    if from <= PORT_END && !u.Free(needTcp, needUdp, from) {
      LeastFreeIsLeast(u, needTcp, needUdp, from + 1);
    }
  }

  // ------------------------------------------------------ NAT and HOST plans

  /** Who the rows of a plan belong to. */
  datatype Owner = Owner(instance: string, agent: string)

  function Row(o: Owner, host: Port, container: Port, proto: Protocol, gamePort: bool): Mapping {
    Mapping(o.instance, o.agent, host, container, proto, gamePort)
  }

  /** The one or two rows of a container port: both protocols on the same host port. */
  function Entry(o: Owner, host: Port, container: Port, needTcp: bool, needUdp: bool, gamePort: bool): (r: seq<Mapping>)
    ensures forall m :: m in r <==>
              || (needTcp && m == Row(o, host, container, TCP, gamePort))
              || (needUdp && m == Row(o, host, container, UDP, false))
  {
    (if needTcp then [Row(o, host, container, TCP, gamePort)] else []) +
    (if needUdp then [Row(o, host, container, UDP, false)] else [])
  }

  function Prepend(ms: seq<Mapping>, rest: Option<seq<Mapping>>): Option<seq<Mapping>> {
    match rest
    case None => None
    case Some(tail) => Some(ms + tail)
  }

  /** The host port of one container port under the ports already used. */
  function HostPortFor(mode: PortMode, u: PortSets, needTcp: bool, needUdp: bool, container: Port): Option<Port> {
    if mode == HOST then (if u.Free(needTcp, needUdp, container) then Some(container) else None)
    else LeastFree(u, needTcp, needUdp, PORT_BEGIN)
  }

  /** The plan of all demanded container ports from `container` upwards, lowest first. */
  function PlanFrom(mode: PortMode, d: PortSets, o: Owner, container: int, u: PortSets): Option<seq<Mapping>>
    requires 0 <= container <= 0x1_0000
    decreases 0x1_0000 - container, u
  {
    if container == 0x1_0000 then Some([])
    else
      var tcp, udp := container in d.tcp, container in d.udp;
      if !tcp && !udp then PlanFrom(mode, d, o, container + 1, u)
      else
        match HostPortFor(mode, u, tcp, udp, container)
        case None => None
        case Some(host) =>
          Prepend(Entry(o, host, container, tcp, udp, false),
                  PlanFrom(mode, d, o, container + 1, u.Mark(tcp, udp, host)))
  }

  /** Every row belongs to the owner and uses no taken port; no two rows clash. */
  ghost predicate FreshPlan(ms: seq<Mapping>, o: Owner, u: PortSets) {
    NoClash(ms) && forall m :: m in ms ==> OwnedAndFree(m, o, u)
  }

  predicate OwnedAndFree(m: Mapping, o: Owner, u: PortSets) {
    m.instance == o.instance && m.agent == o.agent && !u.Has(m.proto, m.hostPort)
  }

  predicate SameSlot(a: Mapping, b: Mapping) {
    a.containerPort == b.containerPort && a.proto == b.proto
  }

  ghost predicate OneRowPerSlot(ms: seq<Mapping>) {
    forall i, j :: 0 <= i < j < |ms| ==> !SameSlot(ms[i], ms[j])
  }

  predicate Serves(ms: seq<Mapping>, proto: Protocol, port: int) {
    exists m :: m in ms && m.containerPort == port && m.proto == proto
  }

  /** Exactly one row for each demanded (container port, protocol) from `from` upwards, and nothing else. */
  ghost predicate ExactPlan(ms: seq<Mapping>, d: PortSets, from: int) {
    OneRowPerSlot(ms) &&
    forall proto, port: Port :: Serves(ms, proto, port) <==> port >= from && d.Has(proto, port)
  }

  /** A port wanted in both protocols is reachable under one number. */
  ghost predicate SharedHostPorts(ms: seq<Mapping>) {
    forall a, b :: a in ms && b in ms && a.containerPort == b.containerPort ==> a.hostPort == b.hostPort
  }

  predicate HostPortAllowed(m: Mapping, mode: PortMode) {
    if mode == HOST then m.hostPort == m.containerPort else PORT_BEGIN <= m.hostPort <= PORT_END
  }

  /** Every successful plan is fresh, exact, shares host ports between protocols and stays in its range. */
  lemma {:induction false} PlanIsSound(mode: PortMode, d: PortSets, o: Owner, container: int, u: PortSets)
    requires 0 <= container <= 0x1_0000
    requires PlanFrom(mode, d, o, container, u).Some?
    ensures var ms := PlanFrom(mode, d, o, container, u).value;
            FreshPlan(ms, o, u) && ExactPlan(ms, d, container) && SharedHostPorts(ms) &&
            forall m :: m in ms ==> HostPortAllowed(m, mode)
    decreases 0x1_0000 - container
  {
    if container < 0x1_0000 {
      var tcp, udp := container in d.tcp, container in d.udp;
      if !tcp && !udp {
        PlanIsSound(mode, d, o, container + 1, u);
        SkipUndemanded(PlanFrom(mode, d, o, container, u).value, d, container);
      } else {
        var host := HostPortFor(mode, u, tcp, udp, container).value;
        if mode == NAT {
          LeastFreeIsLeast(u, tcp, udp, PORT_BEGIN);
        }
        var v := u.Mark(tcp, udp, host);
        PlanIsSound(mode, d, o, container + 1, v);
        var tail := PlanFrom(mode, d, o, container + 1, v).value;
        HeadIsFresh(o, u, host, container, tcp, udp, false, tail);
        HeadIsExact(d, o, host, container, tail);
      }
    }
  }

  lemma SkipUndemanded(ms: seq<Mapping>, d: PortSets, container: Port)
    requires ExactPlan(ms, d, container + 1) && container !in d.tcp && container !in d.udp
    ensures ExactPlan(ms, d, container)
  {
    forall proto, port: Port
      ensures Serves(ms, proto, port) <==> port >= container && d.Has(proto, port)
    {
      assert proto == TCP || proto == UDP;
    }
  }

  lemma HeadIsFresh(o: Owner, u: PortSets, host: Port, container: Port, tcp: bool, udp: bool, game: bool, tail: seq<Mapping>)
    requires u.Free(tcp, udp, host) && FreshPlan(tail, o, u.Mark(tcp, udp, host))
    ensures FreshPlan(Entry(o, host, container, tcp, udp, game) + tail, o, u)
  {
    var v, head := u.Mark(tcp, udp, host), Entry(o, host, container, tcp, udp, game);
    forall m, r | m in tail && r in head
      ensures !Clash(m, r)
    {
      assert OwnedAndFree(m, o, v);
    }
    assert NoClash(head);
    BindKeepsNoClash(head, tail);
    forall m | m in head + tail
      ensures OwnedAndFree(m, o, u)
    {
      if m in tail {
        assert OwnedAndFree(m, o, v);
      }
    }
  }

  lemma HeadIsExact(d: PortSets, o: Owner, host: Port, container: Port, tail: seq<Mapping>)
    requires ExactPlan(tail, d, container + 1) && SharedHostPorts(tail)
    ensures var ms := Entry(o, host, container, container in d.tcp, container in d.udp, false) + tail;
            ExactPlan(ms, d, container) && SharedHostPorts(ms)
  {
    var head := Entry(o, host, container, container in d.tcp, container in d.udp, false);
    var ms := head + tail;
    forall m | m in tail
      ensures m.containerPort > container
    {
      assert Serves(tail, m.proto, m.containerPort);
    }
    forall i, j | 0 <= i < j < |ms|
      ensures !SameSlot(ms[i], ms[j])
    {
      if j >= |head| {
        assert ms[j] in tail;
        if i < |head| {
          assert ms[i] in head;
        } else {
          assert ms[i] == tail[i - |head|] && ms[j] == tail[j - |head|];
        }
      }
    }
    forall proto, port: Port
      ensures Serves(ms, proto, port) <==> port >= container && d.Has(proto, port)
    {
      assert Serves(ms, proto, port) <==> Serves(head, proto, port) || Serves(tail, proto, port) by {
        ServesAppend(head, tail, proto, port);
      }
      EntryServes(d, o, host, container, proto, port);
    }
  }

  lemma ServesAppend(a: seq<Mapping>, b: seq<Mapping>, proto: Protocol, port: int)
    ensures Serves(a + b, proto, port) <==> Serves(a, proto, port) || Serves(b, proto, port)
  {
    if Serves(a, proto, port) {
      var m :| m in a && m.containerPort == port && m.proto == proto;
      assert m in a + b;
    }
    if Serves(b, proto, port) {
      var m :| m in b && m.containerPort == port && m.proto == proto;
      assert m in a + b;
    }
  }

  lemma EntryServes(d: PortSets, o: Owner, host: Port, container: Port, proto: Protocol, port: Port)
    ensures Serves(Entry(o, host, container, container in d.tcp, container in d.udp, false), proto, port)
            <==> port == container && d.Has(proto, port)
  {
    var head := Entry(o, host, container, container in d.tcp, container in d.udp, false);
    if port == container && d.Has(proto, port) {
      assert Row(o, host, container, proto, false) in head;
    }
  }

  /** In HOST mode planning fails exactly when some demanded port is taken in its own protocol. */
  lemma {:induction false} HostPlanFailsIffTaken(d: PortSets, o: Owner, container: int, u: PortSets)
    requires 0 <= container <= 0x1_0000
    ensures PlanFrom(HOST, d, o, container, u).None?
            <==> exists proto, port: Port :: port >= container && d.Has(proto, port) && u.Has(proto, port)
    decreases 0x1_0000 - container
  {
    if container < 0x1_0000 {
      var tcp, udp := container in d.tcp, container in d.udp;
      if u.Free(tcp, udp, container) {
        var v := if tcp || udp then u.Mark(tcp, udp, container) else u;
        HostPlanFailsIffTaken(d, o, container + 1, v);
        forall proto, port: Port | d.Has(proto, port)
          ensures port >= container && u.Has(proto, port) <==> port >= container + 1 && v.Has(proto, port)
        {
        }
      } else {
        var p := if tcp && container in u.tcp then TCP else UDP;
        assert d.Has(p, container) && u.Has(p, container);
      }
    }
  }

  // ----------------------------------------- NAT with a single protocol: counting

  function PortRange(start: int, count: nat): (r: set<Port>)
    requires 0 <= start && start + count <= 65536
    ensures forall p: Port :: p in r <==> start <= p < start + count
  {
    if count == 0 then {} else PortRange(start, count - 1) + {start + count - 1}
  }

  /** All ports a NAT plan may use. */
  ghost predicate IsRange(range: set<Port>) {
    forall p: Port :: p in range <==> 50100 <= p <= 52000
  }

  function Other(proto: Protocol): Protocol {
    if proto == TCP then UDP else TCP
  }

  /** First fit never wastes a port: a NAT plan for one protocol exists exactly when enough ports are free. */
  lemma {:induction false} OneProtocolPlanExistsIffEnoughFree(proto: Protocol, d: PortSets, o: Owner, container: int, u: PortSets, range: set<Port>)
    requires 0 <= container <= 0x1_0000 && d.Of(Other(proto)) == {} && IsRange(range)
    ensures PlanFrom(NAT, d, o, container, u).Some?
            <==> |Above(d.Of(proto), container)| <= |range - u.Of(proto)|
    decreases 0x1_0000 - container
  {
    if container == 0x1_0000 {
      assert Above(d.Of(proto), container) == {};
    } else if container !in d.Of(proto) {
      assert Above(d.Of(proto), container) == Above(d.Of(proto), container + 1);
      OneProtocolPlanExistsIffEnoughFree(proto, d, o, container + 1, u, range);
    } else {
      CountOneMore(d.Of(proto), container);
      TakingOne(proto, u, range);
      var host := LeastFree(u, proto == TCP, proto == UDP, PORT_BEGIN);
      if host.Some? {
        OneProtocolPlanExistsIffEnoughFree(proto, d, o, container + 1, u.Mark(proto == TCP, proto == UDP, host.value), range);
      }
    }
  }

  /** A port for one protocol is found exactly if one is free, and taking it leaves one less there and as many in the other. */
  lemma TakingOne(proto: Protocol, u: PortSets, range: set<Port>)
    requires IsRange(range)
    ensures match LeastFree(u, proto == TCP, proto == UDP, PORT_BEGIN)
            case None => |range - u.Of(proto)| == 0
            case Some(host) =>
              var v := u.Mark(proto == TCP, proto == UDP, host);
              |range - u.Of(proto)| == |range - v.Of(proto)| + 1 && v.Of(Other(proto)) == u.Of(Other(proto))
  {
    LeastFreeIsLeast(u, proto == TCP, proto == UDP, PORT_BEGIN);
    match LeastFree(u, proto == TCP, proto == UDP, PORT_BEGIN)
    case None =>
      forall p: Port | PORT_BEGIN <= p <= PORT_END
        ensures p in u.Of(proto)
      {
        assert !u.Free(proto == TCP, proto == UDP, p);
      }
      NoneFreeInRange(proto, u, range);
    case Some(host) =>
      var v := u.Mark(proto == TCP, proto == UDP, host);
      assert range - u.Of(proto) == (range - v.Of(proto)) + {host};
  }

  lemma NoneFreeInRange(proto: Protocol, u: PortSets, range: set<Port>)
    requires IsRange(range)
    requires forall p: Port :: PORT_BEGIN <= p <= PORT_END ==> p in u.Of(proto)
    ensures |range - u.Of(proto)| == 0
  {
    assert range - u.Of(proto) == {};
  }

  function Above(s: set<Port>, from: int): set<Port> {
    set p | p in s && p >= from
  }

  lemma CountOneMore(s: set<Port>, port: Port)
    requires port in s
    ensures |Above(s, port)| == |Above(s, port + 1)| + 1
  {
    assert Above(s, port) == Above(s, port + 1) + {port};
  }

  // --------------------------------------------- NAT with mixed protocols

  /** Ports of the range that are free in both spaces. */
  function FreeInBoth(u: PortSets, range: set<Port>): set<Port> {
    range - u.tcp - u.udp
  }

  /** With as many ports free in both spaces as container ports demanded, planning succeeds, whatever protocols they want. */
  lemma {:induction false} RoomyPlanExists(d: PortSets, o: Owner, container: int, u: PortSets, range: set<Port>)
    requires 0 <= container <= 0x1_0000 && IsRange(range)
    requires |Above(d.tcp + d.udp, container)| <= |FreeInBoth(u, range)|
    ensures PlanFrom(NAT, d, o, container, u).Some?
    decreases 0x1_0000 - container
  {
    if container < 0x1_0000 {
      var tcp, udp := container in d.tcp, container in d.udp;
      if !tcp && !udp {
        assert Above(d.tcp + d.udp, container) == Above(d.tcp + d.udp, container + 1);
        RoomyPlanExists(d, o, container + 1, u, range);
      } else {
        CountOneMore(d.tcp + d.udp, container);
        LeastFreeIsLeast(u, tcp, udp, PORT_BEGIN);
        var p: Port :| p in FreeInBoth(u, range);
        assert u.Free(tcp, udp, p);
        var host := LeastFree(u, tcp, udp, PORT_BEGIN).value;
        AtMostOneLess(u, tcp, udp, host, range);
        RoomyPlanExists(d, o, container + 1, u.Mark(tcp, udp, host), range);
      }
    }
  }

  lemma AtMostOneLess(u: PortSets, tcp: bool, udp: bool, host: Port, range: set<Port>)
    ensures |FreeInBoth(u.Mark(tcp, udp, host), range)| >= |FreeInBoth(u, range)| - 1
    ensures |FreeInBoth(u.Mark(tcp, udp, host), range)| <= |FreeInBoth(u, range)|
    ensures host in FreeInBoth(u, range) && (tcp || udp) ==> |FreeInBoth(u.Mark(tcp, udp, host), range)| == |FreeInBoth(u, range)| - 1
  {
    var f, g := FreeInBoth(u, range), FreeInBoth(u.Mark(tcp, udp, host), range);
    if host in f && (tcp || udp) {
      assert f == g + {host};
    } else {
      assert f == g;
    }
  }

  /** A plan needs a free port in both spaces for every container port wanted in both. */
  lemma {:induction false} PlanNeedsSharedPorts(d: PortSets, o: Owner, container: int, u: PortSets, range: set<Port>)
    requires 0 <= container <= 0x1_0000 && IsRange(range) && PlanFrom(NAT, d, o, container, u).Some?
    ensures |Above(d.tcp * d.udp, container)| <= |FreeInBoth(u, range)|
    decreases 0x1_0000 - container
  {
    if container == 0x1_0000 {
      assert Above(d.tcp * d.udp, container) == {};
    } else {
      var tcp, udp := container in d.tcp, container in d.udp;
      if !tcp && !udp {
        assert Above(d.tcp * d.udp, container) == Above(d.tcp * d.udp, container + 1);
        PlanNeedsSharedPorts(d, o, container + 1, u, range);
      } else {
        var host := LeastFree(u, tcp, udp, PORT_BEGIN).value;
        LeastFreeIsLeast(u, tcp, udp, PORT_BEGIN);
        PlanNeedsSharedPorts(d, o, container + 1, u.Mark(tcp, udp, host), range);
        AtMostOneLess(u, tcp, udp, host, range);
        if tcp && udp {
          CountOneMore(d.tcp * d.udp, container);
        } else {
          assert Above(d.tcp * d.udp, container) == Above(d.tcp * d.udp, container + 1);
        }
      }
    }
  }

  /** So where every container port is wanted in both protocols, a plan exists exactly when enough ports are free in both. */
  lemma SharedPlanExistsIffEnoughFree(d: PortSets, o: Owner, container: int, u: PortSets, range: set<Port>)
    requires 0 <= container <= 0x1_0000 && IsRange(range) && d.tcp == d.udp
    ensures PlanFrom(NAT, d, o, container, u).Some? <==> |Above(d.tcp, container)| <= |FreeInBoth(u, range)|
  {
    assert d.tcp + d.udp == d.tcp && d.tcp * d.udp == d.tcp;
    if PlanFrom(NAT, d, o, container, u).Some? {
      PlanNeedsSharedPorts(d, o, container, u, range);
    }
    if |Above(d.tcp, container)| <= |FreeInBoth(u, range)| {
      RoomyPlanExists(d, o, container, u, range);
    }
  }

  /**
   * With mixed demands first fit can fail although a plan exists: the TCP-only container port takes
   * the one host port that is free in both spaces, which the next container port needs.
   */
  lemma MixedDemandFailsNeedlessly(o: Owner, k: Port, a: Port, b: Port, u: PortSets)
    requires k < 65535 && PORT_BEGIN <= a < b <= PORT_END
    requires forall p: Port :: PORT_BEGIN <= p <= PORT_END ==> (p in u.tcp <==> p != a && p != b) && (p in u.udp <==> p != a)
    ensures var d := PortSets({k, k + 1}, {k + 1});
            var ms := [Row(o, b, k, TCP, false), Row(o, a, k + 1, TCP, false), Row(o, a, k + 1, UDP, false)];
            && PlanFrom(NAT, d, o, k, u).None?
            && FreshPlan(ms, o, u) && ExactPlan(ms, d, k) && SharedHostPorts(ms) && forall m :: m in ms ==> HostPortAllowed(m, NAT)
  {
    var d := PortSets({k, k + 1}, {k + 1});
    LeastFreeIsLeast(u, true, false, PORT_BEGIN);
    assert u.Free(true, false, a);
    assert LeastFree(u, true, false, PORT_BEGIN) == Some(a);
    var v := u.Mark(true, false, a);
    LeastFreeIsLeast(v, true, true, PORT_BEGIN);
    assert PlanFrom(NAT, d, o, k + 1, v).None?;
    OtherPlanExists(o, k, a, b, u);
  }

  lemma OtherPlanExists(o: Owner, k: Port, a: Port, b: Port, u: PortSets)
    requires k < 65535 && PORT_BEGIN <= a < b <= PORT_END && a !in u.tcp && a !in u.udp && b !in u.tcp
    ensures var d := PortSets({k, k + 1}, {k + 1});
            var ms := [Row(o, b, k, TCP, false), Row(o, a, k + 1, TCP, false), Row(o, a, k + 1, UDP, false)];
            FreshPlan(ms, o, u) && ExactPlan(ms, d, k) && SharedHostPorts(ms) && forall m :: m in ms ==> HostPortAllowed(m, NAT)
  {
    var d := PortSets({k, k + 1}, {k + 1});
    var ms := [Row(o, b, k, TCP, false), Row(o, a, k + 1, TCP, false), Row(o, a, k + 1, UDP, false)];
    assert ms[0] in ms && ms[1] in ms && ms[2] in ms;
    forall proto, port: Port
      ensures Serves(ms, proto, port) <==> port >= k && d.Has(proto, port)
    {
      assert proto == TCP || proto == UDP;
    }
  }

  // --------------------------------------------------------- injected plans

  /** The base of the first excerpt flagged as game port; 0 when none is. */
  function GameBase(es: seq<Excerpt>): Port {
    if es == [] then 0 else if es[0].isGamePort then es[0].begin else GameBase(es[1..])
  }

  /** The block length after looking at one excerpt, in uint16 arithmetic. */
  function Lengthened(e: Excerpt, base: Port, len: Port): Port {
    var end := Uint16(e.begin + e.length);
    if e.begin >= base && end > Uint16(base + len) then Uint16(end - base) else len
  }

  lemma LengthenedTo(e: Excerpt, base: Port, len: Port)
    requires 1 <= len && base + len < 0x1_0000
    ensures var n := Lengthened(e, base, len);
            && len <= n && base + n < 0x1_0000
            && (e.begin >= base && Unwrapped(e) ==> e.begin + e.length <= base + n)
            && (n == len || (e.begin >= base && Uint16(e.begin + e.length) == base + n))
  {
  }

  /** The block length after scanning the excerpts, starting from length len. */
  function BlockLength(es: seq<Excerpt>, base: Port, len: Port): Port {
    if es == [] then len else BlockLength(es[1..], base, Lengthened(es[0], base, len))
  }

  predicate EndsAt(e: Excerpt, base: Port, end: int) {
    e.begin >= base && Uint16(e.begin + e.length) == end
  }

  /**
   * The block reaches to the furthest end of any unwrapped excerpt that starts at or above the base,
   * and no further than to an end that one of them is stored with.
   */
  lemma {:induction false} BlockLengthIsTight(es: seq<Excerpt>, base: Port, len: Port)
    requires 1 <= len && base + len < 0x1_0000
    ensures var n := BlockLength(es, base, len);
            && len <= n && base + n < 0x1_0000
            && (forall e :: e in es && e.begin >= base && Unwrapped(e) ==> e.begin + e.length <= base + n)
            && (n == len || exists e :: e in es && EndsAt(e, base, base + n))
  {
    if es != [] {
      var next := Lengthened(es[0], base, len);
      LengthenedTo(es[0], base, len);
      BlockLengthIsTight(es[1..], base, next);
      var n := BlockLength(es, base, len);
      if n == next != len {
        assert es[0] in es && EndsAt(es[0], base, base + n);
      } else if n != next {
        var e :| e in es[1..] && EndsAt(e, base, base + n);
        assert e in es;
      }
    }
  }

  predicate BlockFree(u: PortSets, start: int, count: int) {
    forall p: Port :: start <= p < start + count ==> p !in u.tcp && p !in u.udp
  }

  /** The first start from `from` whose whole block is free in both protocol spaces and inside the range. */
  function LeastBlock(u: PortSets, count: int, from: int): Option<Port>
    requires 0 <= count && PORT_BEGIN <= from
    decreases PORT_END + 2 - from, u
  {
    if from + count - 1 > PORT_END then None
    else if BlockFree(u, from, count) then Some(from)
    else LeastBlock(u, count, from + 1)
  }

  lemma {:induction false} LeastBlockIsLeast(u: PortSets, count: int, from: int)
    requires 0 <= count && PORT_BEGIN <= from
    ensures match LeastBlock(u, count, from)
            case Some(s) =>
              from <= s && s + count - 1 <= PORT_END && BlockFree(u, s, count) &&
              forall q :: from <= q < s ==> !BlockFree(u, q, count)
            case None => forall q :: from <= q && q + count - 1 <= PORT_END ==> !BlockFree(u, q, count)
    decreases PORT_END + 2 - from
  {
    if from + count - 1 <= PORT_END && !BlockFree(u, from, count) {
      LeastBlockIsLeast(u, count, from + 1);
    }
  }

  /** Where the game's ports lie in the container and on the host. */
  datatype Block = Block(base: Port, len: int, host: Port)
  {
    predicate Valid() {
      len >= 0 && host + len <= 65536
    }
  }

  function MarkBlock(u: PortSets, b: Block): PortSets
    requires b.Valid()
  {
    var ports := PortRange(b.host, b.len);
    PortSets(u.tcp + ports, u.udp + ports)
  }

  /** The identity row of one host port of the block; only the TCP row of the base is flagged. */
  function BlockRow(o: Owner, b: Block, host: Port, proto: Protocol): Mapping {
    Row(o, host, host, proto, proto == TCP && host == b.host)
  }

  /** The identity rows of block offsets i and above. */
  function BlockRows(d: PortSets, o: Owner, b: Block, i: int): seq<Mapping>
    requires b.Valid() && 0 <= i <= b.len
    decreases b.len - i
  {
    if i == b.len then []
    else
      var container := Uint16(b.base + i);
      Entry(o, b.host + i, b.host + i, container in d.tcp, container in d.udp, i == 0) + BlockRows(d, o, b, i + 1)
  }

  /** Ordinary NAT rows for excerpts that start below the base: excerpt k from offset i on. */
  function ExtraRows(es: seq<Excerpt>, o: Owner, base: Port, k: nat, i: nat, u: PortSets): Option<seq<Mapping>>
    requires k <= |es|
    decreases |es| - k, if k < |es| then es[k].length - i else 0
  {
    if k == |es| then Some([])
    else if es[k].begin >= base || i >= es[k].length then ExtraRows(es, o, base, k + 1, 0, u)
    else
      var tcp, udp := es[k].proto == TCP, es[k].proto == UDP;
      match LeastFree(u, tcp, udp, PORT_BEGIN)
      case None => None
      case Some(host) =>
        Prepend(Entry(o, host, Uint16(es[k].begin + i), tcp, udp, false),
                ExtraRows(es, o, base, k, i + 1, u.Mark(tcp, udp, host)))
  }

  function GameLength(es: seq<Excerpt>): Port {
    BlockLength(es, GameBase(es), 1)
  }

  /** The block of an injected plan: the lowest free place for everything from the game base upwards. */
  function GameBlock(es: seq<Excerpt>, u: PortSets): (r: Option<Block>)
    ensures r.Some? ==> r.value.Valid()
  {
    var base := GameBase(es);
    if base == 0 then None
    else
      var len := GameLength(es);
      LeastBlockIsLeast(u, len, PORT_BEGIN);
      match LeastBlock(u, len, PORT_BEGIN)
      case None => None
      case Some(host) => Some(Block(base, len, host))
  }

  function PlanInjected(es: seq<Excerpt>, o: Owner, u: PortSets): Option<seq<Mapping>>
  {
    match GameBlock(es, u)
    case None => None
    case Some(b) => Prepend(BlockRows(ScanOf(es), o, b, 0), ExtraRows(es, o, b.base, 0, 0, MarkBlock(u, b)))
  }

  /** PlanPorts: injected mode only under NAT. */
  function Plan(c: Config, o: Owner, t: Table): Option<seq<Mapping>>
  {
    if c.inject && c.mode == NAT then PlanInjected(c.excerpts, o, UsedOn(t, o.agent))
    else PlanFrom(c.mode, DemandOf(c.excerpts), o, 0, UsedOn(t, o.agent))
  }

  /** A row of the block at host offset i or above. */
  predicate InBlock(m: Mapping, d: PortSets, o: Owner, b: Block, i: int) {
    && m == BlockRow(o, b, m.hostPort, m.proto)
    && b.host + i <= m.hostPort < b.host + b.len
    && d.Has(m.proto, Uint16(b.base + (m.hostPort - b.host)))
  }

  lemma EntryInBlock(d: PortSets, o: Owner, b: Block, i: int)
    requires b.Valid() && 0 <= i < b.len
    ensures var container := Uint16(b.base + i);
            forall m :: m in Entry(o, b.host + i, b.host + i, container in d.tcp, container in d.udp, i == 0)
                        <==> InBlock(m, d, o, b, i) && m.hostPort == b.host + i
  {
    var container := Uint16(b.base + i);
    forall m
      ensures m in Entry(o, b.host + i, b.host + i, container in d.tcp, container in d.udp, i == 0)
              <==> InBlock(m, d, o, b, i) && m.hostPort == b.host + i
    {
      assert m.proto == TCP || m.proto == UDP;
    }
  }

  /** The block rows are exactly one identity row per demanded protocol at each offset, without clash. */
  lemma {:induction false} BlockRowsExact(d: PortSets, o: Owner, b: Block, i: int)
    requires b.Valid() && 0 <= i <= b.len
    ensures NoClash(BlockRows(d, o, b, i))
    ensures forall m :: m in BlockRows(d, o, b, i) <==> InBlock(m, d, o, b, i)
    decreases b.len - i
  {
    if i < b.len {
      BlockRowsExact(d, o, b, i + 1);
      var container := Uint16(b.base + i);
      var head := Entry(o, b.host + i, b.host + i, container in d.tcp, container in d.udp, i == 0);
      EntryInBlock(d, o, b, i);
      OneOffsetMore(head, BlockRows(d, o, b, i + 1), d, o, b, i);
    }
  }

  /** The rows of offset i before those of the offsets above it. */
  lemma OneOffsetMore(head: seq<Mapping>, tail: seq<Mapping>, d: PortSets, o: Owner, b: Block, i: int)
    requires b.Valid() && 0 <= i < b.len && NoClash(head) && NoClash(tail)
    requires forall m :: m in head <==> InBlock(m, d, o, b, i) && m.hostPort == b.host + i
    requires forall m :: m in tail <==> InBlock(m, d, o, b, i + 1)
    ensures NoClash(head + tail)
    ensures forall m :: m in head + tail <==> InBlock(m, d, o, b, i)
  {
    EntryThenRest(head, tail, b.host + i);
    forall m
      ensures m in head + tail <==> InBlock(m, d, o, b, i)
    {
      InBlockSplits(m, d, o, b, i);
    }
  }

  lemma InBlockSplits(m: Mapping, d: PortSets, o: Owner, b: Block, i: int)
    requires b.Valid() && 0 <= i < b.len
    ensures InBlock(m, d, o, b, i) <==> (InBlock(m, d, o, b, i) && m.hostPort == b.host + i) || InBlock(m, d, o, b, i + 1)
  {
  }

  lemma EntryThenRest(head: seq<Mapping>, tail: seq<Mapping>, host: int)
    requires NoClash(head) && NoClash(tail)
    requires forall m :: m in head ==> m.hostPort == host
    requires forall m :: m in tail ==> m.hostPort > host
    ensures NoClash(head + tail)
  {
    BindKeepsNoClash(head, tail);
  }

  predicate StartsBelow(e: Excerpt, base: Port) {
    e.begin < base
  }

  /** Every port of an excerpt below the base is served: from excerpt k, offset i on. */
  ghost predicate ExtrasServed(ms: seq<Mapping>, es: seq<Excerpt>, base: Port, k: nat, i: nat) {
    forall j: nat, p: Port :: k <= j < |es| && StartsBelow(es[j], base) && CoversFrom(es[j], if j == k then i else 0, p)
      ==> Serves(ms, es[j].proto, p)
  }

  predicate CoversFrom(e: Excerpt, i: int, port: Port) {
    i <= Offset(e, port) < e.length
  }

  predicate ExtraRow(m: Mapping, es: seq<Excerpt>, base: Port) {
    !m.isGamePort && PORT_BEGIN <= m.hostPort <= PORT_END &&
    exists e :: e in es && StartsBelow(e, base) && e.proto == m.proto && Covers(e, m.containerPort)
  }

  /** The extra rows use fresh ports, serve every port below the base and nothing undemanded. */
  lemma {:induction false} ExtraRowsSound(es: seq<Excerpt>, o: Owner, base: Port, k: nat, i: nat, u: PortSets)
    requires k <= |es| && ExtraRows(es, o, base, k, i, u).Some?
    ensures var ms := ExtraRows(es, o, base, k, i, u).value;
            FreshPlan(ms, o, u) && ExtrasServed(ms, es, base, k, i) && forall m :: m in ms ==> ExtraRow(m, es, base)
    decreases |es| - k, if k < |es| then es[k].length - i else 0
  {
    if k < |es| {
      if es[k].begin >= base || i >= es[k].length {
        ExtraRowsSound(es, o, base, k + 1, 0, u);
        NothingSkipped(ExtraRows(es, o, base, k, i, u).value, es, base, k, i);
      } else {
        assert es[k] in es;
        var tcp, udp := es[k].proto == TCP, es[k].proto == UDP;
        var host := LeastFree(u, tcp, udp, PORT_BEGIN).value;
        LeastFreeIsLeast(u, tcp, udp, PORT_BEGIN);
        var v := u.Mark(tcp, udp, host);
        ExtraRowsSound(es, o, base, k, i + 1, v);
        var tail := ExtraRows(es, o, base, k, i + 1, v).value;
        HeadIsFresh(o, u, host, Uint16(es[k].begin + i), tcp, udp, false, tail);
        HeadServesExtra(es, o, base, k, i, host, tail);
      }
    }
  }

  /** An excerpt at or above the base, or one that is done, has nothing left to serve. */
  lemma NothingSkipped(ms: seq<Mapping>, es: seq<Excerpt>, base: Port, k: nat, i: nat)
    requires k < |es| && (es[k].begin >= base || i >= es[k].length) && ExtrasServed(ms, es, base, k + 1, 0)
    ensures ExtrasServed(ms, es, base, k, i)
  {
    forall j: nat, p: Port | k <= j < |es| && StartsBelow(es[j], base) && CoversFrom(es[j], if j == k then i else 0, p)
      ensures Serves(ms, es[j].proto, p)
    {
      assert j > k;
      assert CoversFrom(es[j], if j == k + 1 then 0 else 0, p);
    }
  }

  lemma HeadServesExtra(es: seq<Excerpt>, o: Owner, base: Port, k: nat, i: nat, host: Port, tail: seq<Mapping>)
    requires k < |es| && StartsBelow(es[k], base) && i < es[k].length
    requires PORT_BEGIN <= host <= PORT_END
    requires ExtrasServed(tail, es, base, k, i + 1) && forall m :: m in tail ==> ExtraRow(m, es, base)
    ensures var ms := Entry(o, host, Uint16(es[k].begin + i), es[k].proto == TCP, es[k].proto == UDP, false) + tail;
            ExtrasServed(ms, es, base, k, i) && forall m :: m in ms ==> ExtraRow(m, es, base)
  {
    var port := Uint16(es[k].begin + i);
    OffsetExact(es[k], i, port);
    var head := Entry(o, host, port, es[k].proto == TCP, es[k].proto == UDP, false);
    var first := Row(o, host, port, es[k].proto, false);
    assert head == [first];
    assert es[k] in es && Covers(es[k], port);
    assert ExtraRow(first, es, base);
    var ms := head + tail;
    forall j: nat, p: Port | k <= j < |es| && StartsBelow(es[j], base) && CoversFrom(es[j], if j == k then i else 0, p)
      ensures Serves(ms, es[j].proto, p)
    {
      ServesAppend(head, tail, es[j].proto, p);
      if j == k && p == port {
        assert first in head;
      } else {
        OffsetExact(es[k], i, p);
        assert CoversFrom(es[j], if j == k then i + 1 else 0, p);
      }
    }
  }

  /** Every injected plan is fresh against the used ports, block and extras together. */
  lemma InjectedPlanIsFresh(es: seq<Excerpt>, o: Owner, u: PortSets)
    requires PlanInjected(es, o, u).Some?
    ensures FreshPlan(PlanInjected(es, o, u).value, o, u)
  {
    var b := GameBlock(es, u).value;
    LeastBlockIsLeast(u, b.len, PORT_BEGIN);
    BlockRowsExact(ScanOf(es), o, b, 0);
    var block := BlockRows(ScanOf(es), o, b, 0);
    var v := MarkBlock(u, b);
    ExtraRowsSound(es, o, b.base, 0, 0, v);
    BlockThenExtras(ScanOf(es), o, b, u, ExtraRows(es, o, b.base, 0, 0, v).value);
  }

  lemma BlockThenExtras(d: PortSets, o: Owner, b: Block, u: PortSets, extra: seq<Mapping>)
    requires b.Valid() && BlockFree(u, b.host, b.len) && FreshPlan(extra, o, MarkBlock(u, b))
    ensures FreshPlan(BlockRows(d, o, b, 0) + extra, o, u)
  {
    BlockRowsExact(d, o, b, 0);
    var block := BlockRows(d, o, b, 0);
    var v := MarkBlock(u, b);
    forall m, r | m in extra && r in block
      ensures !Clash(m, r)
    {
      assert OwnedAndFree(m, o, v) && InBlock(r, d, o, b, 0);
    }
    BindKeepsNoClash(block, extra);
    forall m | m in block + extra
      ensures OwnedAndFree(m, o, u)
    {
      if m in extra {
        assert OwnedAndFree(m, o, v);
      } else {
        assert InBlock(m, d, o, b, 0);
      }
    }
  }

  lemma ExtrasAvoidBlock(extra: seq<Mapping>, o: Owner, b: Block, u: PortSets, m: Mapping)
    requires b.Valid() && FreshPlan(extra, o, MarkBlock(u, b))
    ensures m in extra ==> !(b.host <= m.hostPort < b.host + b.len)
  {
    if m in extra {
      assert OwnedAndFree(m, o, MarkBlock(u, b));
    }
  }

  /** The block stands at the lowest start that is free in both spaces, at or above the first port. */
  ghost predicate LowestFreeBlock(b: Block, u: PortSets) {
    PORT_BEGIN <= b.host && b.host + b.len - 1 <= PORT_END && BlockFree(u, b.host, b.len) &&
    forall q :: PORT_BEGIN <= q < b.host ==> !BlockFree(u, q, b.len)
  }

  /** At every host port of the block, the identity row of a protocol is planned exactly when the scan finds the container port. */
  ghost predicate BlockMirrorsScan(ms: seq<Mapping>, es: seq<Excerpt>, o: Owner, b: Block) {
    forall proto, h: Port :: b.host <= h < b.host + b.len ==>
      (BlockRow(o, b, h, proto) in ms <==> Scanned(es, proto, Uint16(b.base + (h - b.host))))
  }

  /**
   * What an injected plan is: the lowest free block, one identity row per protocol found at each
   * block offset, and rows for every port of every excerpt below the base.
   */
  lemma InjectedPlanIsExact(es: seq<Excerpt>, o: Owner, u: PortSets)
    requires PlanInjected(es, o, u).Some?
    ensures GameBlock(es, u).Some?
    ensures var b, ms := GameBlock(es, u).value, PlanInjected(es, o, u).value;
            && b.base == GameBase(es) != 0 && LowestFreeBlock(b, u)
            && (forall e :: e in es && e.begin >= b.base && Unwrapped(e) ==> e.begin + e.length <= b.base + b.len)
            && BlockMirrorsScan(ms, es, o, b)
            && (forall e, p: Port :: e in es && StartsBelow(e, b.base) && Covers(e, p) ==> Serves(ms, e.proto, p))
  {
    var b := GameBlock(es, u).value;
    BlockReachesAll(es, u);
    var v := MarkBlock(u, b);
    ExtraRowsSound(es, o, b.base, 0, 0, v);
    var extra := ExtraRows(es, o, b.base, 0, 0, v).value;
    BlockMirrors(es, o, b, u, extra);
    ExtrasServeAllBelow(es, b.base, extra, BlockRows(ScanOf(es), o, b, 0));
  }

  lemma BlockReachesAll(es: seq<Excerpt>, u: PortSets)
    requires GameBlock(es, u).Some?
    ensures var b := GameBlock(es, u).value;
            && b.base == GameBase(es) != 0 && LowestFreeBlock(b, u)
            && (forall e :: e in es && e.begin >= b.base && Unwrapped(e) ==> e.begin + e.length <= b.base + b.len)
  {
    var b := GameBlock(es, u).value;
    if b.base < 65535 {
      BlockLengthIsTight(es, b.base, 1);
    }
    LeastBlockIsLeast(u, b.len, PORT_BEGIN);
  }

  lemma BlockMirrors(es: seq<Excerpt>, o: Owner, b: Block, u: PortSets, extra: seq<Mapping>)
    requires b.Valid() && FreshPlan(extra, o, MarkBlock(u, b))
    ensures BlockMirrorsScan(BlockRows(ScanOf(es), o, b, 0) + extra, es, o, b)
  {
    var d := ScanOf(es);
    BlockRowsExact(d, o, b, 0);
    var block := BlockRows(d, o, b, 0);
    forall proto, h: Port | b.host <= h < b.host + b.len
      ensures BlockRow(o, b, h, proto) in block + extra <==> Scanned(es, proto, Uint16(b.base + (h - b.host)))
    {
      var m := BlockRow(o, b, h, proto);
      ExtrasAvoidBlock(extra, o, b, u, m);
      assert m in block <==> InBlock(m, d, o, b, 0);
    }
  }

  lemma ExtrasServeAllBelow(es: seq<Excerpt>, base: Port, extra: seq<Mapping>, block: seq<Mapping>)
    requires ExtrasServed(extra, es, base, 0, 0)
    ensures forall e, p: Port :: e in es && StartsBelow(e, base) && Covers(e, p) ==> Serves(block + extra, e.proto, p)
  {
    forall e, p: Port | e in es && StartsBelow(e, base) && Covers(e, p)
      ensures Serves(block + extra, e.proto, p)
    {
      var j: nat :| j < |es| && es[j] == e;
      assert CoversFrom(es[j], if j == 0 then 0 else 0, p);
      assert Serves(extra, es[j].proto, p);
      ServesAppend(block, extra, e.proto, p);
    }
  }

  /** The port is served in the block, at the host port as far above the block's start as it lies above the base. */
  predicate ServedInBlock(ms: seq<Mapping>, o: Owner, b: Block, proto: Protocol, port: Port)
    requires b.Valid()
  {
    b.base <= port < b.base + b.len && BlockRow(o, b, b.host + (port - b.base), proto) in ms
  }

  ghost predicate ServesAllAbove(ms: seq<Mapping>, es: seq<Excerpt>, o: Owner, b: Block)
    requires b.Valid()
  {
    forall e, p: Port :: e in es && e.begin >= b.base && Covers(e, p) ==> ServedInBlock(ms, o, b, e.proto, p)
  }

  lemma LastPortUnserved(ms: seq<Mapping>, es: seq<Excerpt>, o: Owner, b: Block, proto: Protocol)
    requires b.Valid() && BlockMirrorsScan(ms, es, o, b)
    ensures !ServedInBlock(ms, o, b, proto, 65535)
  {
    if 65535 < b.base + b.len {
      var h: Port := b.host + (65535 - b.base);
      assert Uint16(b.base + (h - b.host)) == 65535 && !Scanned(es, proto, 65535);
    }
  }

  /**
   * The block serves every port of every excerpt at or above the base if and only if none of them
   * reaches port 65535: the end of such an excerpt is stored as a number below its begin.
   */
  lemma BlockServesAllIff(es: seq<Excerpt>, o: Owner, u: PortSets)
    requires PlanInjected(es, o, u).Some?
    ensures var b := GameBlock(es, u).value;
            ServesAllAbove(PlanInjected(es, o, u).value, es, o, b)
            <==> forall e :: e in es && e.begin >= b.base && e.length > 0 ==> Unwrapped(e)
  {
    var b, ms := GameBlock(es, u).value, PlanInjected(es, o, u).value;
    InjectedPlanIsExact(es, o, u);
    if e :| e in es && e.begin >= b.base && e.length > 0 && !Unwrapped(e) {
      assert Covers(e, 65535) && !Scanned(es, e.proto, 65535);
      assert !ServedInBlock(ms, o, b, e.proto, 65535) by {
        LastPortUnserved(ms, es, o, b, e.proto);
      }
    } else {
      forall e, p: Port | e in es && e.begin >= b.base && Covers(e, p)
        ensures ServedInBlock(ms, o, b, e.proto, p)
      {
        ScansIff(e, p);
        var h: Port := b.host + (p - b.base);
        assert Scanned(es, e.proto, Uint16(b.base + (h - b.host)));
      }
    }
  }

  lemma OneExcerptLength(e: Excerpt, base: Port, len: Port)
    ensures BlockLength([e], base, len) == Lengthened(e, base, len)
  {
    assert [e][1..] == [];
  }

  /** The smallest such excerpt: a game on port 65535 is given a block and no row, wherever a port is free. */
  lemma LastPortGetsNoRow(proto: Protocol, o: Owner, u: PortSets, q: Port)
    requires PORT_BEGIN <= q <= PORT_END && q !in u.tcp && q !in u.udp
    ensures var es := [Excerpt(proto, 65535, 1, true)];
            Demanded(es, proto, 65535) && PlanInjected(es, o, u) == Some([])
  {
    var e := Excerpt(proto, 65535, 1, true);
    var es := [e];
    assert e in es && Covers(e, 65535);
    OneExcerptLength(e, 65535, 1);
    assert es[1..] == [];
    assert GameBase(es) == 65535 && GameLength(es) == 1;
    assert RoomAt(u, q, 1);
    GameBlockExistsIff(es, u);
    var b := GameBlock(es, u).value;
    BlockReachesAll(es, u);
    assert !Scanned(es, TCP, 65535) && !Scanned(es, UDP, 65535);
    assert BlockRows(ScanOf(es), o, b, 1) == [];
    assert BlockRows(ScanOf(es), o, b, 0) == [];
    assert ExtraRows(es, o, 65535, 1, 0, MarkBlock(u, b)) == Some([]);
  }

  /** How many extra rows the excerpts below the base need in one protocol. */
  function ExtraDemand(es: seq<Excerpt>, base: Port, proto: Protocol): nat {
    if es == [] then 0
    else (if StartsBelow(es[0], base) && es[0].proto == proto then es[0].length else 0) + ExtraDemand(es[1..], base, proto)
  }

  /** The same from excerpt k, offset i on. */
  function StillNeeded(es: seq<Excerpt>, base: Port, proto: Protocol, k: nat, i: nat): nat
    requires k <= |es| && (k < |es| ==> i <= es[k].length)
  {
    if k == |es| then 0
    else (if StartsBelow(es[k], base) && es[k].proto == proto then es[k].length - i else 0) + ExtraDemand(es[k + 1..], base, proto)
  }

  lemma NextExcerpt(es: seq<Excerpt>, base: Port, proto: Protocol, k: nat)
    requires k < |es|
    ensures StillNeeded(es, base, proto, k + 1, 0) == ExtraDemand(es[k + 1..], base, proto)
  {
    if k + 1 < |es| {
      assert es[k + 1..][1..] == es[k + 2..];
    }
  }

  /** The extra rows exist exactly when enough ports are free in each protocol by itself. */
  lemma {:induction false} ExtraRowsExistIff(es: seq<Excerpt>, o: Owner, base: Port, k: nat, i: nat, u: PortSets, range: set<Port>)
    requires k <= |es| && (k < |es| ==> i <= es[k].length) && IsRange(range)
    ensures ExtraRows(es, o, base, k, i, u).Some?
            <==> forall proto :: StillNeeded(es, base, proto, k, i) <= |range - u.Of(proto)|
    decreases |es| - k, if k < |es| then es[k].length - i else 0
  {
    if k < |es| {
      if es[k].begin >= base || i >= es[k].length {
        NextExcerpt(es, base, TCP, k);
        NextExcerpt(es, base, UDP, k);
        ExtraRowsExistIff(es, o, base, k + 1, 0, u, range);
        assert forall proto :: StillNeeded(es, base, proto, k, i) == StillNeeded(es, base, proto, k + 1, 0);
      } else {
        var p := es[k].proto;
        TakingOne(p, u, range);
        var host := LeastFree(u, p == TCP, p == UDP, PORT_BEGIN);
        if host.Some? {
          var v := u.Mark(p == TCP, p == UDP, host.value);
          ExtraRowsExistIff(es, o, base, k, i + 1, v, range);
          assert StillNeeded(es, base, p, k, i) == StillNeeded(es, base, p, k, i + 1) + 1;
          assert StillNeeded(es, base, Other(p), k, i) == StillNeeded(es, base, Other(p), k, i + 1);
        } else {
          assert StillNeeded(es, base, p, k, i) > 0;
        }
      }
    }
  }

  /**
   * Injected planning succeeds exactly when there is a block and, beside it, each protocol has a
   * free port for each of its extra rows.
   */
  lemma InjectedPlanExistsIff(es: seq<Excerpt>, o: Owner, u: PortSets, range: set<Port>)
    requires IsRange(range)
    ensures PlanInjected(es, o, u).Some?
            <==> GameBlock(es, u).Some? &&
                 var b := GameBlock(es, u).value;
                 forall proto :: ExtraDemand(es, b.base, proto) <= |range - MarkBlock(u, b).Of(proto)|
  {
    if GameBlock(es, u).Some? {
      var b := GameBlock(es, u).value;
      ExtraRowsExistIff(es, o, b.base, 0, 0, MarkBlock(u, b), range);
      WholeDemand(es, b.base, TCP);
      WholeDemand(es, b.base, UDP);
    }
  }

  predicate RoomAt(u: PortSets, q: int, len: int) {
    50100 <= q && q + len - 1 <= 52000 && BlockFree(u, q, len)
  }

  /** There is a block exactly when a game port is declared and some start in the range has the whole block free. */
  lemma GameBlockExistsIff(es: seq<Excerpt>, u: PortSets)
    ensures GameBlock(es, u).Some? <==> GameBase(es) != 0 && exists q :: RoomAt(u, q, GameLength(es))
  {
    var len := GameLength(es);
    LeastBlockIsLeast(u, len, PORT_BEGIN);
    if LeastBlock(u, len, PORT_BEGIN).Some? {
      assert RoomAt(u, LeastBlock(u, len, PORT_BEGIN).value, len);
    }
  }

  lemma WholeDemand(es: seq<Excerpt>, base: Port, proto: Protocol)
    ensures StillNeeded(es, base, proto, 0, 0) == ExtraDemand(es, base, proto)
  {
  }

  /** Every mode: a plan computed on any reading of the table has no clash inside and none with that reading. */
  lemma EveryPlanIsFresh(c: Config, o: Owner, t: Table)
    requires Plan(c, o, t).Some?
    ensures NoClash(Plan(c, o, t).value) && Rebindable(t, Plan(c, o, t).value)
    ensures forall m :: m in Plan(c, o, t).value ==> m.instance == o.instance && m.agent == o.agent
  {
    var u := UsedOn(t, o.agent);
    if c.inject && c.mode == NAT {
      InjectedPlanIsFresh(c.excerpts, o, u);
    } else {
      PlanIsSound(c.mode, DemandOf(c.excerpts), o, 0, u);
    }
    var plan := Plan(c, o, t).value;
    forall m, r | m in plan && r in t
      ensures !Clash(m, r)
    {
      assert OwnedAndFree(m, o, u);
      assert r.agent == o.agent ==> u.Has(r.proto, r.hostPort);
    }
  }

  /** Planning looks at one machine only: rows of other machines make no difference. */
  lemma PlanIsLocal(c: Config, o: Owner, t: Table, u: Table)
    requires forall m: Mapping :: m.agent == o.agent ==> (m in t <==> m in u)
    ensures Plan(c, o, t) == Plan(c, o, u)
  {
    var a, b := UsedOn(t, o.agent), UsedOn(u, o.agent);
    forall p: Port
      ensures (p in a.tcp <==> p in b.tcp) && (p in a.udp <==> p in b.udp)
    {
      UsedIffTaken(t, o.agent, TCP, p);
      UsedIffTaken(u, o.agent, TCP, p);
      UsedIffTaken(t, o.agent, UDP, p);
      UsedIffTaken(u, o.agent, UDP, p);
    }
    assert a == b;
  }

  /** In HOST mode an instance can be planned on a machine exactly unless a row of that machine holds a demanded port. */
  lemma HostPlanFailsIffRowThere(c: Config, o: Owner, t: Table)
    requires c.mode == HOST
    ensures Plan(c, o, t).None? <==> exists proto, port: Port :: Demanded(c.excerpts, proto, port) && Taken(t, o.agent, proto, port)
  {
    var d, u := DemandOf(c.excerpts), UsedOn(t, o.agent);
    HostPlanFailsIffTaken(d, o, 0, u);
    forall proto, port: Port
      ensures d.Has(proto, port) && u.Has(proto, port) <==> Demanded(c.excerpts, proto, port) && Taken(t, o.agent, proto, port)
    {
      UsedIffTaken(t, o.agent, proto, port);
    }
    if exists proto, port: Port :: port >= 0 && d.Has(proto, port) && u.Has(proto, port) {
      var proto, port: Port :| port >= 0 && d.Has(proto, port) && u.Has(proto, port);
      assert Demanded(c.excerpts, proto, port) && Taken(t, o.agent, proto, port);
    }
  }

  /** NAT and injected plans hand out ports from 50100 to 52000, each free on the machine; HOST plans map every port to itself. */
  lemma PlannedPorts(c: Config, o: Owner, t: Table, m: Mapping)
    requires Plan(c, o, t).Some? && m in Plan(c, o, t).value
    ensures m.instance == o.instance && m.agent == o.agent && !Taken(t, o.agent, m.proto, m.hostPort)
    ensures if c.mode == HOST then m.hostPort == m.containerPort else 50100 <= m.hostPort <= 52000
  {
    var u := UsedOn(t, o.agent);
    UsedIffTaken(t, o.agent, m.proto, m.hostPort);
    if c.inject && c.mode == NAT {
      InjectedPlanIsFresh(c.excerpts, o, u);
      assert OwnedAndFree(m, o, u);
      InjectedPortsInRange(c.excerpts, o, u, m);
    } else {
      PlanIsSound(c.mode, DemandOf(c.excerpts), o, 0, u);
      assert OwnedAndFree(m, o, u) && HostPortAllowed(m, c.mode);
    }
  }

  lemma InjectedPortsInRange(es: seq<Excerpt>, o: Owner, u: PortSets, m: Mapping)
    requires PlanInjected(es, o, u).Some? && m in PlanInjected(es, o, u).value
    ensures PORT_BEGIN <= m.hostPort <= PORT_END
  {
    var b := GameBlock(es, u).value;
    BlockReachesAll(es, u);
    BlockRowsExact(ScanOf(es), o, b, 0);
    ExtraRowsSound(es, o, b.base, 0, 0, MarkBlock(u, b));
    if m in BlockRows(ScanOf(es), o, b, 0) {
      assert InBlock(m, ScanOf(es), o, b, 0);
    } else {
      assert ExtraRow(m, es, b.base);
    }
  }

  /** Some excerpt of this protocol itself covers the port. */
  predicate AskedFor(es: seq<Excerpt>, proto: Protocol, port: int) {
    exists e :: e in es && e.proto == proto && Covers(e, port)
  }

  /**
   * No row without need: each serves a port that some excerpt of its protocol covers. In the game
   * block, where ports are mapped to themselves, that port is as far above the game base as the row
   * is above the start of the block.
   */
  lemma EveryRowIsAskedFor(c: Config, o: Owner, t: Table, m: Mapping)
    requires Plan(c, o, t).Some? && m in Plan(c, o, t).value
    ensures || AskedFor(c.excerpts, m.proto, m.containerPort)
            || (&& c.inject && c.mode == NAT && m.hostPort == m.containerPort
                && var b := GameBlock(c.excerpts, UsedOn(t, o.agent));
                   b.Some? && b.value.host <= m.hostPort < b.value.host + b.value.len
                   && AskedFor(c.excerpts, m.proto, (b.value.base + (m.hostPort - b.value.host)) % 0x1_0000))
  {
    var u := UsedOn(t, o.agent);
    if c.inject && c.mode == NAT {
      InjectedRowIsAskedFor(c.excerpts, o, u, m);
    } else {
      var d := DemandOf(c.excerpts);
      PlanIsSound(c.mode, d, o, 0, u);
      assert Serves(Plan(c, o, t).value, m.proto, m.containerPort);
    }
  }

  lemma InjectedRowIsAskedFor(es: seq<Excerpt>, o: Owner, u: PortSets, m: Mapping)
    requires PlanInjected(es, o, u).Some? && m in PlanInjected(es, o, u).value
    ensures GameBlock(es, u).Some?
    ensures var b := GameBlock(es, u).value;
            || AskedFor(es, m.proto, m.containerPort)
            || (m.hostPort == m.containerPort && b.host <= m.hostPort < b.host + b.len
                && AskedFor(es, m.proto, (b.base + (m.hostPort - b.host)) % 0x1_0000))
  {
    var b := GameBlock(es, u).value;
    BlockReachesAll(es, u);
    if m in BlockRows(ScanOf(es), o, b, 0) {
      BlockRowsExact(ScanOf(es), o, b, 0);
      BlockRowIsAskedFor(es, o, b, m);
    } else {
      ExtraRowsSound(es, o, b.base, 0, 0, MarkBlock(u, b));
      assert ExtraRow(m, es, b.base);
    }
  }

  lemma BlockRowIsAskedFor(es: seq<Excerpt>, o: Owner, b: Block, m: Mapping)
    requires b.Valid() && InBlock(m, ScanOf(es), o, b, 0)
    ensures m.hostPort == m.containerPort && b.host <= m.hostPort < b.host + b.len
    ensures AskedFor(es, m.proto, (b.base + (m.hostPort - b.host)) % 0x1_0000)
  {
    var p := Uint16(b.base + (m.hostPort - b.host));
    var e :| e in es && e.proto == m.proto && Scans(e, p);
    ScansIff(e, p);
  }

  /** The recheck turns a plan down exactly if some row of the same machine holds the same port in the same protocol. */
  lemma RebindableIff(t: Table, plan: seq<Mapping>)
    ensures Rebindable(t, plan) <==> forall m :: m in plan ==> !Taken(t, m.agent, m.proto, m.hostPort)
  {
    if !Rebindable(t, plan) {
      var m, r :| m in plan && r in t && Clash(m, r);
      assert Taken(t, m.agent, m.proto, m.hostPort);
    }
    forall m | m in plan && Rebindable(t, plan)
      ensures !Taken(t, m.agent, m.proto, m.hostPort)
    {
      assert forall r :: r in t ==> !Clash(m, r);
    }
  }

  /** The game base is the begin of the first excerpt that is flagged as game port. */
  lemma {:induction false} GameBaseIsFirstFlagged(es: seq<Excerpt>, k: nat)
    requires k < |es| && es[k].isGamePort && forall i :: 0 <= i < k ==> !es[i].isGamePort
    ensures GameBase(es) == es[k].begin
  {
    if k > 0 {
      GameBaseIsFirstFlagged(es[1..], k - 1);
    }
  }

  lemma {:induction false} NoFlagNoGameBase(es: seq<Excerpt>)
    requires forall e :: e in es ==> !e.isGamePort
    ensures GameBase(es) == 0
  {
    if es != [] {
      assert es[0] in es;
      NoFlagNoGameBase(es[1..]);
    }
  }

  // ------------------------------------------------ runs of plan, bind, release

  datatype TableOp =
    | Bind(config: Config, owner: Owner, seen: Table)  // plan on any earlier reading, recheck, insert
    | MapPort(config: Config, owner: Owner)            // release own rows, plan on the current table, insert
    | Free(instance: string)

  function Apply(t: Table, op: TableOp): Table
  {
    match op
    case Bind(c, o, seen) =>
      (match Plan(c, o, seen)
       case None => t
       case Some(plan) => if Rebindable(t, plan) then t + plan else t)
    case MapPort(c, o) =>
      var rest := Without(t, o.instance);
      (match Plan(c, o, rest)
       case None => rest
       case Some(plan) => rest + plan)
    case Free(inst) => Without(t, inst)
  }

  /** A plan is stored exactly if nobody has taken one of its ports on that machine since it was made; a fresh one always is. */
  lemma BindStoresIff(c: Config, o: Owner, t: Table, seen: Table)
    requires Plan(c, o, seen).Some?
    ensures var plan := Plan(c, o, seen).value;
            Apply(t, Bind(c, o, seen))
            == if forall m :: m in plan ==> !Taken(t, o.agent, m.proto, m.hostPort) then t + plan else t
    ensures Apply(t, Bind(c, o, t)) == if Plan(c, o, t).Some? then t + Plan(c, o, t).value else t
  {
    var plan := Plan(c, o, seen).value;
    EveryPlanIsFresh(c, o, seen);
    RebindableIff(t, plan);
    assert forall m :: m in plan ==> m.agent == o.agent;
    if Plan(c, o, t).Some? {
      EveryPlanIsFresh(c, o, t);
    }
  }

  lemma ApplyKeepsNoClash(t: Table, op: TableOp)
    requires NoClash(t)
    ensures NoClash(Apply(t, op))
  {
    match op
    case Bind(c, o, seen) =>
      var plan := Plan(c, o, seen);
      if plan.Some? {
        EveryPlanIsFresh(c, o, seen);
        if Rebindable(t, plan.value) {
          BindKeepsNoClash(t, plan.value);
        }
      }
    case MapPort(c, o) =>
      var rest := Without(t, o.instance);
      WithoutKeepsNoClash(t, o.instance);
      if Plan(c, o, rest).Some? {
        EveryPlanIsFresh(c, o, rest);
        BindKeepsNoClash(rest, Plan(c, o, rest).value);
      }
    case Free(inst) => WithoutKeepsNoClash(t, inst);
  }

  function ApplyAll(t: Table, ops: seq<TableOp>): Table
    decreases |ops|
  {
    if ops == [] then t else ApplyAll(Apply(t, ops[0]), ops[1..])
  }

  /** Over any run of planning (however stale), binding and releasing, no two rows ever share a socket. */
  lemma {:induction false} NoClashOverEveryRun(t: Table, ops: seq<TableOp>)
    requires NoClash(t)
    ensures NoClash(ApplyAll(t, ops))
    decreases |ops|
  {
    if ops != [] {
      ApplyKeepsNoClash(t, ops[0]);
      NoClashOverEveryRun(Apply(t, ops[0]), ops[1..]);
    }
  }

  /** A HOST instance whose own rows were never released can never be planned on that machine again. */
  lemma LeftoverRowsBlockHostReplan(c: Config, o: Owner, t: Table)
    requires c.mode == HOST
    requires Plan(c, o, t).Some? && Plan(c, o, t).value != []
    ensures forall later: Table :: (forall m :: m in Plan(c, o, t).value ==> m in later) ==> Plan(c, o, later).None?
  {
    var d := DemandOf(c.excerpts);
    PlanIsSound(HOST, d, o, 0, UsedOn(t, o.agent));
    var plan := Plan(c, o, t).value;
    var m := plan[0];
    assert m in plan && OwnedAndFree(m, o, UsedOn(t, o.agent)) && HostPortAllowed(m, HOST);
    assert Serves(plan, m.proto, m.containerPort);
    forall later: Table | forall m :: m in plan ==> m in later
      ensures Plan(c, o, later).None?
    {
      assert UsedOn(later, o.agent).Has(m.proto, m.hostPort);
      HostPlanFailsIffTaken(d, o, 0, UsedOn(later, o.agent));
    }
  }
}
