/** The cache manager object: RPC wrappers, the reconcile pass, demand counting and branch synchronization. */
module CacheManager {
  import opened Wrappers
  import opened Entities
  import opened CacheReplicas

  /** How long after a delete a branch's copies are left alone, in seconds. */
  const DELETE_COOLDOWN: int := 600

  const PUBLIC_BRANCH := "public"

  datatype Reply = Unreachable | NotFound | Found(status: CacheStatus, build: Option<nat>)

  function SetOf(ids: seq<NodeId>): set<NodeId> {
    set id | id in ids
  }

  predicate Cooling(deletes: map<string, int>, branch: string, now: int) {
    branch in deletes && now - deletes[branch] < DELETE_COOLDOWN
  }

  /** markDeleted, if anything was deleted. */
  function Stamped(deletes: map<string, int>, branch: string, now: int, any: bool): map<string, int> {
    if any then deletes[branch := now] else deletes
  }

  /** The manager's view of one branch's caches: fleet is what the nodes hold. */
  class GameCacheManager {
    var fleet: Fleet
    var deleteCooldown: map<string, int>

    constructor (f: Fleet)
      ensures fleet == f && deleteCooldown == map[]
    {
      fleet, deleteCooldown := f, map[];
    }

    // ------------------------------------------------------------------ node RPCs

    method GetNodeCache(id: NodeId, fails: bool) returns (r: Reply)
      ensures r == if fails then Unreachable
                   else if CacheOn(fleet, id).Missing? then NotFound
                   else Found(CacheOn(fleet, id).status, CacheOn(fleet, id).build)
    {
      if fails {
        return Unreachable;
      }
      if id !in fleet || fleet[id].Missing? {
        return NotFound;
      }
      return Found(fleet[id].status, fleet[id].build);
    }

    /** The node drops every version and its record, or refuses and changes nothing. */
    method RemoveBranchCache(id: NodeId, fails: bool) returns (ok: bool)
      modifies this`fleet
      ensures ok == !fails
      ensures fleet == if ok then old(fleet) - {id} else old(fleet)
    {
      if fails {
        return false;
      }
      fleet := fleet - {id};
      return true;
    }

    method TriggerDownload(id: NodeId, last: nat, fails: bool) returns (ok: bool)
      modifies this`fleet
      ensures ok == !fails
      ensures forall n :: CacheOn(fleet, n) == if ok && n == id then StartDownload(CacheOn(old(fleet), id), last) else CacheOn(old(fleet), n)
    {
      if fails {
        return false;
      }
      fleet := fleet[id := StartDownload(CacheOn(fleet, id), last)];
      return true;
    }

    /** Bring one node to the branch's build; fails says whether the RPCs involved fail. */
    method CheckAndUpdate(id: NodeId, last: nat, fails: bool) returns (ok: bool)
      modifies this`fleet
      ensures ok == (!fails && Update(CacheOn(old(fleet), id), last).Some?)
      ensures forall n :: CacheOn(fleet, n) == if n == id && !fails then Updated(CacheOn(old(fleet), id), last) else CacheOn(old(fleet), n)
    {
      var reply := GetNodeCache(id, fails);
      match reply {
        case Unreachable =>
          return false;
        case NotFound =>
          ok := TriggerDownload(id, last, false);
        case Found(status, build) =>
          if status == Downloading {
            return true;
          }
          if status == Unavailable {
            return false;
          }
          if build.None? {
            ok := TriggerDownload(id, last, false);
            return;
          }
          var nodeBuild := build.value;
          if status == Available {
            if nodeBuild < last {
              ok := TriggerDownload(id, last, false);
            } else {
              ok := nodeBuild == last;
            }
          } else {
            if nodeBuild <= last {
              ok := TriggerDownload(id, last, false);
            } else {
              ok := false;
            }
          }
      }
    }

    // -------------------------------------------------------------- reconcileBranch

    method CollectStates(ids: seq<NodeId>, fails: set<NodeId>) returns (states: States)
      ensures states == Observe(fleet, SetOf(ids), fails)
    {
      states := map[];
      for k := 0 to |ids|
        invariant states == Observe(fleet, SetOf(ids[..k]), fails)
      {
        var id := ids[k];
        assert SetOf(ids[..k + 1]) == SetOf(ids[..k]) + {id};
        var reply := GetNodeCache(id, id in fails);
        match reply {
          case Unreachable =>
            states := states[id := NodeState(false, false)];
          case NotFound =>
            states := states[id := NodeState(false, false)];
          case Found(status, _) =>
            if status == Available {
              states := states[id := NodeState(true, false)];
            } else if status == Downloading {
              states := states[id := NodeState(false, true)];
            }
        }
      }
      assert ids[..|ids|] == ids;
    }

    /** Count the copies outside a set, in any order. */
    method CountCopies(states: States, except: set<NodeId>) returns (n: nat)
      ensures n == |Copies(states) - except|
    {
      n := 0;
      var todo := states.Keys;
      ghost var counted: set<NodeId> := {};
      while todo != {}
        invariant todo <= states.Keys
        invariant counted == Copies(states) - except - todo
        invariant n == |counted|
        decreases todo
      {
        var id :| id in todo;
        todo := todo - {id};
        if id !in except && (states[id].avail || states[id].downloading) {
          n := n + 1;
          counted := counted + {id};
        }
      }
      assert counted == Copies(states) - except;
    }

    /** Remove one surplus copy and note when. */
    method DeleteCopy(branch: string, now: int, id: NodeId, fails: bool) returns (ok: bool)
      modifies this
      ensures ok == !fails
      ensures fleet == if ok then old(fleet) - {id} else old(fleet)
      ensures deleteCooldown == Stamped(old(deleteCooldown), branch, now, ok)
    {
      ok := RemoveBranchCache(id, fails);
      if ok {
        deleteCooldown := deleteCooldown[branch := now];
      }
    }

    method DeleteSurplus(branch: string, now: int, states: States, serving: set<NodeId>, min: nat, fails: set<NodeId>)
      returns (deleted: set<NodeId>)
      modifies this
      ensures DeletePhase(states, serving, min, Cooling(old(deleteCooldown), branch, now), fails, deleted)
      ensures fleet == old(fleet) - deleted
      ensures deleteCooldown == Stamped(old(deleteCooldown), branch, now, deleted != {})
    {
      var keepTarget := |serving|;
      if min > keepTarget {
        keepTarget := min;
      }
      deleted := {};
      var availCount := CountCopies(states, {});
      ghost var copies, surplus, any := Copies(states), Deletable(states, serving), false;
      assert copies - {} == copies - deleted;
      if !Cooling(deleteCooldown, branch, now) && availCount > keepTarget {
        var todo := states.Keys;
        while todo != {} && availCount > keepTarget
          invariant todo <= states.Keys
          invariant deleted <= surplus && deleted !! fails && deleted !! todo
          invariant forall n :: n in surplus && n !in fails && n !in todo ==> n in deleted
          invariant availCount == |copies - deleted|
          invariant availCount >= keepTarget
          invariant fleet == old(fleet) - deleted
          invariant deleteCooldown == Stamped(old(deleteCooldown), branch, now, any)
          invariant any <==> deleted != {}
          decreases todo
        {
          var id :| id in todo;
          todo := todo - {id};
          if !states[id].avail || id in serving {
            assert id !in surplus;
            continue;
          }
          var ok := DeleteCopy(branch, now, id, id in fails);
          if !ok {
            continue;
          }
          any := true;
          assert id in surplus && id in copies;
          DropOne(copies, deleted, id);
          WithoutOneMore(old(fleet), deleted, id);
          StampIsIdempotent(old(deleteCooldown), branch, now, any);
          deleted := deleted + {id};
          availCount := availCount - 1;
        }
        assert todo == {} ==> deleted == surplus - fails;
      }
    }

    lemma WithoutOneMore(f: Fleet, deleted: set<NodeId>, id: NodeId)
      ensures f - deleted - {id} == f - (deleted + {id})
    {
    }

    lemma StampIsIdempotent(deletes: map<string, int>, branch: string, now: int, any: bool)
      ensures Stamped(Stamped(deletes, branch, now, any), branch, now, true) == Stamped(deletes, branch, now, true)
    {
    }

    lemma DropOne(copies: set<NodeId>, deleted: set<NodeId>, id: NodeId)
      requires id in copies && id !in deleted
      ensures |copies - (deleted + {id})| == |copies - deleted| - 1
    {
      assert copies - (deleted + {id}) == copies - deleted - {id};
    }

    method UpdateKept(states: States, serving: set<NodeId>, deleted: set<NodeId>, last: nat, fails: set<NodeId>)
      modifies this`fleet
      ensures forall n :: CacheOn(fleet, n) == if n in Checked(states, serving, deleted) - fails then Updated(CacheOn(old(fleet), n), last)
                                               else CacheOn(old(fleet), n)
    {
      var todo := states.Keys;
      while todo != {}
        invariant todo <= states.Keys
        invariant forall n :: CacheOn(fleet, n) == if n in Checked(states, serving, deleted) - fails - todo
                                                   then Updated(CacheOn(old(fleet), n), last) else CacheOn(old(fleet), n)
        decreases todo
      {
        var id :| id in todo;
        todo := todo - {id};
        if id in deleted {
          continue;
        }
        if id in serving || states[id].avail {
          var ok := CheckAndUpdate(id, last, id in fails);
        }
      }
    }

    method PrewarmMissing(states: States, deleted: set<NodeId>, min: nat, last: nat, fails: set<NodeId>)
      returns (warmed: set<NodeId>)
      requires deleted <= Copies(states)
      modifies this`fleet
      ensures WarmPhase(states, min, fails, deleted, warmed)
      ensures forall n :: CacheOn(fleet, n) == if n in warmed then StartDownload(CacheOn(old(fleet), n), last) else CacheOn(old(fleet), n)
    {
      warmed := {};
      ghost var copies := Copies(states);
      if min > 0 {
        var keptAvail := CountCopies(states, deleted);
        var todo := states.Keys;
        while todo != {} && keptAvail < min
          invariant todo <= states.Keys
          invariant warmed <= states.Keys && warmed !! copies && warmed !! fails && warmed !! todo
          invariant forall n :: n in states && n !in copies && n !in fails && n !in todo ==> n in warmed
          invariant keptAvail == |copies - deleted| + |warmed|
          invariant warmed != {} ==> keptAvail <= min
          invariant forall n :: CacheOn(fleet, n) == if n in warmed then StartDownload(CacheOn(old(fleet), n), last) else CacheOn(old(fleet), n)
          decreases todo
        {
          var id :| id in todo;
          todo := todo - {id};
          if id in deleted || states[id].avail || states[id].downloading {
            assert id in copies;
            continue;
          }
          assert id !in copies;
          var ok := TriggerDownload(id, last, id in fails);
          if !ok {
            continue;
          }
          warmed := warmed + {id};
          keptAvail := keptAvail + 1;
        }
        assert todo == {} ==> warmed == states.Keys - copies - fails;
      }
    }

    /** One pass over a branch: observe, delete surplus, update what is kept, fetch up to the minimum. */
    method ReconcileBranch(branch: string, now: int, ids: seq<NodeId>, serving: set<NodeId>, min: nat, last: nat, faults: Faults)
      returns (deleted: set<NodeId>, warmed: set<NodeId>)
      modifies this
      ensures Pass(old(fleet), fleet, SetOf(ids), serving, min, last,
                   Cooling(old(deleteCooldown), branch, now), faults, deleted, warmed)
      ensures deleteCooldown == Stamped(old(deleteCooldown), branch, now, deleted != {})
    {
      var states := CollectStates(ids, faults.query);
      deleted := DeleteSurplus(branch, now, states, serving, min, faults.remove);
      UpdateKept(states, serving, deleted, last, faults.update);
      ghost var kept := fleet;
      warmed := PrewarmMissing(states, deleted, min, last, faults.warm);
      PhasesMakePass(old(fleet), kept, fleet, states, serving, min, last,
                     Cooling(old(deleteCooldown), branch, now), faults, deleted, warmed);
    }
  }

  /** Deleting, then updating, then warming takes every node's cache where a pass says. */
  lemma PhasesMakePass(f: Fleet, kept: Fleet, g: Fleet, s: States, serving: set<NodeId>, min: nat, last: nat,
                       cooling: bool, faults: Faults, deleted: set<NodeId>, warmed: set<NodeId>)
    requires DeletePhase(s, serving, min, cooling, faults.remove, deleted) && WarmPhase(s, min, faults.warm, deleted, warmed)
    requires forall n :: CacheOn(kept, n) == if n in Checked(s, serving, deleted) - faults.update then Updated(CacheOn(f - deleted, n), last)
                                             else CacheOn(f - deleted, n)
    requires forall n :: CacheOn(g, n) == if n in warmed then StartDownload(CacheOn(kept, n), last) else CacheOn(kept, n)
    ensures forall n :: CacheOn(g, n) == CacheAfter(CacheOn(f, n), last, n in deleted, n in Checked(s, serving, deleted) - faults.update, n in warmed)
  {
    assert deleted <= Copies(s) by {
      DeletesOnlySurplus(s, serving, min, cooling, faults.remove, deleted);
    }
    forall n
      ensures CacheOn(g, n) == CacheAfter(CacheOn(f, n), last, n in deleted, n in Checked(s, serving, deleted) - faults.update, n in warmed)
    {
      NodeThroughPhases(f, s, serving, deleted, warmed, n);
      assert CacheOn(kept, n) == if n in Checked(s, serving, deleted) - faults.update then Updated(CacheOn(f - deleted, n), last)
                                 else CacheOn(f - deleted, n);
    }
  }

  lemma NodeThroughPhases(f: Fleet, s: States, serving: set<NodeId>, deleted: set<NodeId>, warmed: set<NodeId>, n: NodeId)
    requires deleted <= Copies(s) && warmed !! Copies(s)
    ensures CacheOn(f - deleted, n) == if n in deleted then Missing else CacheOn(f, n)
    ensures n in deleted ==> n !in warmed && n !in Checked(s, serving, deleted)
  {
    assert n in deleted ==> n in Copies(s);
  }

  // --------------------------------------------------------------- over passes

  /** One pass in the manager's log: when, for which branch, and what it deleted. */
  datatype Logged = Logged(branch: string, now: int, deleted: set<NodeId>)

  /** A log the manager can write: no pass deletes while its branch is cooling, and each delete is noted. */
  ghost predicate IsLog(deletes: map<string, int>, log: seq<Logged>)
    decreases |log|
  {
    log == [] || (
      && (log[0].deleted != {} ==> !Cooling(deletes, log[0].branch, log[0].now))
      && (forall k :: 0 <= k < |log| ==> log[0].now <= log[k].now)
      && IsLog(Stamped(deletes, log[0].branch, log[0].now, log[0].deleted != {}), log[1..]))
  }

  /** Over every sequence of passes, two that delete copies of the same branch are ten minutes apart or more. */
  lemma {:induction false} DeletesAreTenMinutesApart(deletes: map<string, int>, log: seq<Logged>, i: nat, j: nat)
    requires IsLog(deletes, log) && i < j < |log|
    requires log[i].branch == log[j].branch && log[i].deleted != {} && log[j].deleted != {}
    ensures log[j].now - log[i].now >= 600
    decreases |log|
  {
    var next := Stamped(deletes, log[0].branch, log[0].now, log[0].deleted != {});
    if i == 0 {
      NotedDeleteBlocks(next, log[1..], log[0].branch, log[0].now, j - 1);
    } else {
      DeletesAreTenMinutesApart(next, log[1..], i - 1, j - 1);
    }
  }

  /** And no longer: ten minutes after its last delete a branch is free to lose copies again, other branches are all along. */
  lemma CooldownEnds(deletes: map<string, int>, branch: string, other: string, since: int, later: int)
    requires later >= since + 600
    ensures !Cooling(Stamped(deletes, branch, since, true), branch, later)
    ensures other != branch ==> Cooling(Stamped(deletes, branch, since, true), other, later) == Cooling(deletes, other, later)
  {
  }

  /** A noted delete holds later ones of its branch off, even if it is overwritten by them. */
  lemma {:induction false} NotedDeleteBlocks(deletes: map<string, int>, log: seq<Logged>, branch: string, since: int, j: nat)
    requires IsLog(deletes, log) && j < |log| && branch in deletes && deletes[branch] >= since
    requires forall k :: 0 <= k < |log| ==> since <= log[k].now
    requires log[j].branch == branch && log[j].deleted != {}
    ensures log[j].now - since >= 600
    decreases |log|
  {
    if j > 0 {
      NotedDeleteBlocks(Stamped(deletes, log[0].branch, log[0].now, log[0].deleted != {}), log[1..], branch, since, j - 1);
    }
  }

  // ---------------------------------------------------------------------- demand

  datatype Placed = Placed(agent: Option<NodeId>, branch: string, status: Status)

  predicate ServesOn(i: Placed, branch: string, id: NodeId) {
    i.agent == Some(id) && i.branch == branch && branch != "" && i.status.ReferencesCache()
  }

  function ServingOf(out: map<string, set<NodeId>>, branch: string): set<NodeId> {
    if branch in out then out[branch] else {}
  }

  /** An instance of the branch that is bound to the node, from warming its cache to being cleaned up. */
  predicate ReliesOn(i: Placed, branch: string, id: NodeId) {
    && i.agent.Some? && i.agent.value == id && i.branch == branch && |branch| > 0
    && i.status in {CacheWarming, PreparingBuild, RestoringSnapshot, Starting, Running, Stopping, Cleaning}
  }

  /** servingNodesByBranch: exactly the nodes on which an instance relies on the branch's cache. */
  method ServingNodesByBranch(instances: seq<Placed>) returns (out: map<string, set<NodeId>>)
    ensures forall branch, id :: id in ServingOf(out, branch) <==> exists i :: i in instances && ServesOn(i, branch, id)
    ensures forall branch :: (branch in out ==> out[branch] != {}) && (branch in out <==> ServingOf(out, branch) != {})
  {
    out := map[];
    for k := 0 to |instances|
      invariant forall branch, id :: id in ServingOf(out, branch) <==> exists i :: i in instances[..k] && ServesOn(i, branch, id)
      invariant forall branch :: branch in out ==> out[branch] != {}
    {
      var inst := instances[k];
      assert instances[..k + 1] == instances[..k] + [inst];
      ghost var before := out;
      if inst.agent.Some? && inst.branch != "" && inst.status.ReferencesCache() {
        if inst.branch !in out {
          out := out[inst.branch := {}];
        }
        out := out[inst.branch := out[inst.branch] + {inst.agent.value}];
      }
      forall branch, id
        ensures id in ServingOf(out, branch) <==> id in ServingOf(before, branch) || ServesOn(inst, branch, id)
      {
      }
    }
    assert instances[..|instances|] == instances;
  }

  lemma ServesIffRelies(i: Placed, branch: string, id: NodeId)
    ensures ServesOn(i, branch, id) <==> ReliesOn(i, branch, id)
  {
  }

  /** What is found for a branch is what is stored under its name, or nothing. */
  lemma FoundIffStored(out: map<string, set<NodeId>>, branch: string, id: NodeId)
    ensures id in ServingOf(out, branch) <==> branch in out && id in out[branch]
  {
  }

  // ------------------------------------------------------------ branch synchronization

  datatype BranchStatus = Enabled | Disabled | Abandoned

  datatype BranchRow = BranchRow(status: BranchStatus, lastBuildId: nat)

  datatype Remote = Remote(name: string, buildId: nat)

  type Branches = map<string, BranchRow>

  function DefaultStatus(name: string): BranchStatus {
    if name == PUBLIC_BRANCH then Enabled else Disabled
  }

  ghost predicate Announced(remote: seq<Remote>, name: string) {
    exists r :: r in remote && r.name == name
  }

  /** One game's table after synchronizing with what the asset service lists. */
  ghost predicate SyncedTo(was: Branches, remote: seq<Remote>, now: Branches) {
    && (forall n :: n in now <==> n in was || Announced(remote, n))
    && (forall n :: n in now && Announced(remote, n) ==> Remote(n, now[n].lastBuildId) in remote)
    && (forall n :: n in now && Announced(remote, n) ==> now[n].status == if n in was then was[n].status else DefaultStatus(n))
    && (forall n :: n in was && !Announced(remote, n) ==> now[n] == was[n].(status := Abandoned))
  }

  /** SyncAndRecordBranch, given a listing and a repository that accepts every save. */
  method SyncAndRecordBranch(table: Branches, remote: seq<Remote>) returns (t: Branches)
    ensures SyncedTo(table, remote, t)
  {
    t := table;
    var seen: set<string> := {};
    for k := 0 to |remote|
      invariant forall n :: n in seen <==> Announced(remote[..k], n)
      invariant forall n :: n in t <==> n in table || n in seen
      invariant forall n :: n in seen ==> Remote(n, t[n].lastBuildId) in remote
      invariant forall n :: n in seen ==> t[n].status == if n in table then table[n].status else DefaultStatus(n)
      invariant forall n :: n in table && n !in seen ==> t[n] == table[n]
    {
      var r := remote[k];
      assert remote[..k + 1] == remote[..k] + [r];
      assert Announced(remote[..k + 1], r.name);
      assert forall n :: Announced(remote[..k + 1], n) <==> Announced(remote[..k], n) || n == r.name;
      assert r in remote && Remote(r.name, r.buildId) == r;
      seen := seen + {r.name};
      if r.name !in t {
        t := t[r.name := BranchRow(if r.name == PUBLIC_BRANCH then Enabled else Disabled, r.buildId)];
      } else {
        t := t[r.name := t[r.name].(lastBuildId := r.buildId)];
      }
    }
    assert remote[..|remote|] == remote;
    var todo := t.Keys;
    ghost var synced := t;
    while todo != {}
      invariant todo <= t.Keys && t.Keys == synced.Keys
      invariant forall n :: n in t ==> t[n] == if n in todo || n in seen then synced[n] else synced[n].(status := Abandoned)
      decreases todo
    {
      var name :| name in todo;
      todo := todo - {name};
      if t[name].status == Abandoned || name in seen {
        continue;
      }
      t := t[name := t[name].(status := Abandoned)];
    }
  }

  /**
   * A branch that disappears is abandoned, and stays abandoned when it is listed again: only an
   * administrator brings it back, even if it is the public one.
   */
  lemma AbandonedStaysAbandoned(was: Branches, gone: seq<Remote>, mid: Branches, back: seq<Remote>, now: Branches, name: string)
    requires SyncedTo(was, gone, mid) && SyncedTo(mid, back, now)
    requires name in was && !Announced(gone, name)
    ensures name in now && now[name].status == Abandoned
  {
  }

  /** A branch listed for the first time is enabled if it is the public one and disabled otherwise; a known one keeps its status. */
  lemma StatusAfterListing(was: Branches, remote: seq<Remote>, now: Branches, r: Remote)
    requires SyncedTo(was, remote, now) && r in remote
    ensures r.name in now
    ensures now[r.name].status == if r.name in was then was[r.name].status else if r.name == "public" then Enabled else Disabled
  {
    assert Announced(remote, r.name);
  }

  /** Nothing else changes: no branch appears that is not listed, none disappears, and each listed one has a build listed for it. */
  lemma BranchesAfterListing(was: Branches, remote: seq<Remote>, now: Branches, name: string)
    requires SyncedTo(was, remote, now)
    ensures name in now <==> name in was || exists r :: r in remote && r.name == name
    ensures name in now && (exists r :: r in remote && r.name == name) ==> exists r :: r in remote && r.name == name && r.buildId == now[name].lastBuildId
    ensures name in was && (forall r :: r in remote ==> r.name != name) ==> now[name] == BranchRow(Abandoned, was[name].lastBuildId)
  {
    if r :| r in remote && r.name == name {
      assert Announced(remote, name);
    }
  }

  /** Synchronizing twice with the same unambiguous listing is the same as once. */
  lemma SyncIsIdempotent(was: Branches, remote: seq<Remote>, mid: Branches, now: Branches)
    requires SyncedTo(was, remote, mid) && SyncedTo(mid, remote, now)
    requires forall i, j :: 0 <= i < j < |remote| ==> remote[i].name != remote[j].name
    ensures now == mid
  {
    forall n | n in mid
      ensures now[n] == mid[n]
    {
      if Announced(remote, n) {
        assert Remote(n, now[n].lastBuildId) == Remote(n, mid[n].lastBuildId) by {
          var i :| 0 <= i < |remote| && remote[i] == Remote(n, now[n].lastBuildId);
          var j :| 0 <= j < |remote| && remote[j] == Remote(n, mid[n].lastBuildId);
        }
      }
    }
    assert now.Keys == mid.Keys;
  }
}
