/** The host-port table: rows of game_container_port_mappings and which rows clash. */
module PortTable {
  type Port = x: int | 0 <= x < 0x1_0000

  datatype Protocol = TCP | UDP

  datatype Mapping = Mapping(instance: string, agent: string, hostPort: Port, containerPort: Port,
                             proto: Protocol, isGamePort: bool)

  type Table = seq<Mapping>

  /** Two rows claim the same socket of the same machine. */
  predicate Clash(a: Mapping, b: Mapping) {
    a.agent == b.agent && a.proto == b.proto && a.hostPort == b.hostPort
  }

  ghost predicate NoClash(t: Table) {
    forall i, j :: 0 <= i < j < |t| ==> !Clash(t[i], t[j])
  }

  /** The conflict recheck inside the reservation transaction. */
  predicate Rebindable(t: Table, plan: seq<Mapping>) {
    forall m, r :: m in plan && r in t ==> !Clash(m, r)
  }

  /** DeleteByInstanceId. */
  function Without(t: Table, inst: string): (r: Table)
    ensures forall m :: m in r <==> m in t && m.instance != inst
    ensures |r| <= |t|
  {
    if t == [] then []
    else (if t[0].instance == inst then [] else [t[0]]) + Without(t[1..], inst)
  }

  /** ListByInstanceId. */
  function RowsOf(t: Table, inst: string): (r: seq<Mapping>)
    ensures forall m :: m in r <==> m in t && m.instance == inst
  {
    if t == [] then []
    else (if t[0].instance == inst then [t[0]] else []) + RowsOf(t[1..], inst)
  }

  lemma {:induction false} WithoutKeepsNoClash(t: Table, inst: string)
    requires NoClash(t)
    ensures NoClash(Without(t, inst))
  {
    if t != [] {
      WithoutKeepsNoClash(t[1..], inst);
      var rest := Without(t[1..], inst);
      forall j | 0 <= j < |rest|
        ensures !Clash(t[0], rest[j])
      {
        assert rest[j] in t[1..];
        var k :| 0 <= k < |t[1..]| && t[1..][k] == rest[j];
        assert t[k + 1] == rest[j];
      }
    }
  }

  /** Appending a plan that clashes with no existing row keeps the table clash-free. */
  lemma BindKeepsNoClash(t: Table, plan: seq<Mapping>)
    requires NoClash(t) && NoClash(plan) && Rebindable(t, plan)
    ensures NoClash(t + plan)
  {
    forall i, j | 0 <= i < j < |t + plan|
      ensures !Clash((t + plan)[i], (t + plan)[j])
    {
      if i < |t| <= j {
        assert t[i] in t && plan[j - |t|] in plan;
        assert !Clash(plan[j - |t|], t[i]);
      }
    }
  }

  /** Rows are looked up by instance in table order, so an older row of the instance comes first. */
  lemma {:induction false} RowsOfAppend(t: Table, u: Table, inst: string)
    ensures RowsOf(t + u, inst) == RowsOf(t, inst) + RowsOf(u, inst)
  {
    if t == [] {
      assert t + u == u;
    } else {
      assert (t + u)[1..] == t[1..] + u;
      RowsOfAppend(t[1..], u, inst);
    }
  }

  lemma {:induction false} RowsOfOwn(t: Table, inst: string)
    requires forall m :: m in t ==> m.instance == inst
    ensures RowsOf(t, inst) == t
  {
    if t != [] {
      assert t[0] in t;
      RowsOfOwn(t[1..], inst);
    }
  }
}
