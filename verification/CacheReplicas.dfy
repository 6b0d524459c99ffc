/**
 * What one reconcile pass over a branch may do to its copies on the nodes, whatever the iteration
 * order and whichever RPCs fail, and what follows from it (reconcileBranch in game_cache_manager.go).
 */
module CacheReplicas {
  import opened Wrappers

  type NodeId = string

  datatype CacheStatus = Downloading | Available | Removed | Unavailable

  /** A node's cache of the branch; build None is an empty or non-numeric build id. */
  datatype Cache = Missing | Held(status: CacheStatus, build: Option<nat>)

  /** The fleet: nodes without an entry hold nothing. */
  type Fleet = map<NodeId, Cache>

  function CacheOn(f: Fleet, id: NodeId): Cache {
    if id in f then f[id] else Missing
  }

  datatype NodeState = NodeState(avail: bool, downloading: bool)
  {
    predicate Copy() {
      avail || downloading
    }
  }

  type States = map<NodeId, NodeState>

  /** Which RPCs fail in a pass. */
  datatype Faults = Faults(query: set<NodeId>, remove: set<NodeId>, update: set<NodeId>, warm: set<NodeId>)

  const NO_FAULTS := Faults({}, {}, {}, {})

  // -------------------------------------------------------------- observation

  /** Removed and unavailable caches leave no trace in the states; a failed query looks like a missing cache. */
  predicate Listed(c: Cache, queryFails: bool) {
    queryFails || c.Missing? || c.status == Available || c.status == Downloading
  }

  function StateOf(c: Cache, queryFails: bool): NodeState {
    if queryFails || c.Missing? then NodeState(false, false)
    else NodeState(c.status == Available, c.status == Downloading)
  }

  function Observe(f: Fleet, ids: set<NodeId>, queryFaults: set<NodeId>): States {
    map id | id in ids && Listed(CacheOn(f, id), id in queryFaults) :: StateOf(CacheOn(f, id), id in queryFaults)
  }

  function Copies(s: States): set<NodeId> {
    set id | id in s && s[id].Copy()
  }

  /** Surplus copies: ready, and no instance relies on them. */
  function Deletable(s: States, serving: set<NodeId>): set<NodeId> {
    set id | id in s && s[id].avail && id !in serving
  }

  function Target(serving: set<NodeId>, min: nat): nat {
    if min > |serving| then min else |serving|
  }

  // ------------------------------------------------------------------- updates

  /** triggerDownload on a node: a build already held or on its way is left alone. */
  function StartDownload(c: Cache, last: nat): Cache {
    if c.Held? && c.build == Some(last) && (c.status == Available || c.status == Downloading) then c
    else Held(Downloading, Some(last))
  }

  /** CheckAndUpdate's decision: what it leaves behind, None when it reports an error. */
  function Update(c: Cache, last: nat): Option<Cache> {
    match c
    case Missing => Some(StartDownload(c, last))
    case Held(Downloading, _) => Some(c)
    case Held(Unavailable, _) => None
    case Held(_, None) => Some(StartDownload(c, last))
    case Held(Available, Some(b)) => if b < last then Some(StartDownload(c, last)) else if b == last then Some(c) else None
    case Held(Removed, Some(b)) => if b <= last then Some(StartDownload(c, last)) else None
  }

  function Updated(c: Cache, last: nat): Cache {
    if Update(c, last).Some? then Update(c, last).value else c
  }

  /**
   * A check either fails without touching the node (unusable, or ahead of the branch), or leaves it
   * with a download under way or the branch's own build ready; repeating it changes nothing more.
   */
  lemma UpdateConverges(c: Cache, last: nat)
    ensures Update(c, last).None? <==>
              c.Held? && (c.status == Unavailable
                          || ((c.status == Available || c.status == Removed) && c.build.Some? && c.build.value > last))
    ensures Update(c, last).Some? ==>
              Updated(c, last).status == Downloading || Updated(c, last) == Held(Available, Some(last))
    ensures Update(Updated(c, last), last) == Update(c, last)
    ensures c.Held? && c.build.Some? && c.build.value > last ==> Updated(c, last) == c
  {
  }

  // ------------------------------------------------------------------- one pass

  /** Surplus is deleted down to the target, or until every deletable copy was tried. */
  ghost predicate DeletePhase(s: States, serving: set<NodeId>, min: nat, cooling: bool, fails: set<NodeId>, deleted: set<NodeId>) {
    && deleted <= Deletable(s, serving) - fails
    && (cooling ==> deleted == {})
    && (deleted != {} ==> |Copies(s) - deleted| >= Target(serving, min))
    && (!cooling && |Copies(s) - deleted| > Target(serving, min) ==> deleted == Deletable(s, serving) - fails)
  }

  /** Missing copies are fetched up to the minimum, or until every node without one was tried. */
  ghost predicate WarmPhase(s: States, min: nat, fails: set<NodeId>, deleted: set<NodeId>, warmed: set<NodeId>) {
    && warmed <= s.Keys - Copies(s) - fails
    && (warmed != {} ==> |Copies(s) - deleted| + |warmed| <= min)
    && (|Copies(s) - deleted| + |warmed| < min ==> warmed == s.Keys - Copies(s) - fails)
  }

  /** The nodes CheckAndUpdate is called on. */
  function Checked(s: States, serving: set<NodeId>, deleted: set<NodeId>): set<NodeId> {
    set id | id in s && id !in deleted && (id in serving || s[id].avail)
  }

  /** A node's cache after a pass that deleted, checked and warmed these nodes. */
  function CacheAfter(c: Cache, last: nat, deleted: bool, checked: bool, warmed: bool): Cache {
    if deleted then Missing
    else
      var u := if checked then Updated(c, last) else c;
      if warmed then StartDownload(u, last) else u
  }

  /** One pass from fleet f to fleet g. */
  ghost predicate Pass(f: Fleet, g: Fleet, ids: set<NodeId>, serving: set<NodeId>, min: nat, last: nat,
                       cooling: bool, faults: Faults, deleted: set<NodeId>, warmed: set<NodeId>)
  {
    var s := Observe(f, ids, faults.query);
    && DeletePhase(s, serving, min, cooling, faults.remove, deleted)
    && WarmPhase(s, min, faults.warm, deleted, warmed)
    && forall id :: CacheOn(g, id) == CacheAfter(CacheOn(f, id), last, id in deleted,
                                                id in Checked(s, serving, deleted) - faults.update, id in warmed)
  }

  // ---------------------------------------------------------------- consequences

  lemma SubsetSize<T>(a: set<T>, b: set<T>)
    requires a <= b
    ensures |a| <= |b| && (|a| == |b| ==> a == b) && |b - a| == |b| - |a|
  {
    assert b == a + (b - a);
  }

  /** A pass never deletes a serving node's copy and never takes the copies below the target. */
  lemma DeletesOnlySurplus(s: States, serving: set<NodeId>, min: nat, cooling: bool, fails: set<NodeId>, deleted: set<NodeId>)
    requires DeletePhase(s, serving, min, cooling, fails, deleted)
    ensures deleted !! serving && deleted <= Copies(s)
    ensures |Copies(s) - deleted| >= (if |Copies(s)| < Target(serving, min) then |Copies(s)| else Target(serving, min))
  {
    if deleted == {} {
      assert Copies(s) - deleted == Copies(s);
    }
  }

  /** A pass never both deletes and pre-warms. */
  lemma NeverDeletesAndWarms(s: States, serving: set<NodeId>, min: nat, cooling: bool, faults: Faults,
                             deleted: set<NodeId>, warmed: set<NodeId>)
    requires DeletePhase(s, serving, min, cooling, faults.remove, deleted)
    requires WarmPhase(s, min, faults.warm, deleted, warmed)
    ensures deleted == {} || warmed == {}
  {
    if warmed != {} {
      assert |warmed| > 0;
    }
  }

  /** The nodes that really hold the branch or are fetching it, whatever their queries answer. */
  function RealCopies(f: Fleet, ids: set<NodeId>): set<NodeId> {
    set id | id in ids && HasCopy(CacheOn(f, id))
  }

  predicate HasCopy(c: Cache) {
    c.Held? && (c.status == Available || c.status == Downloading)
  }

  lemma CopyStays(c: Cache, last: nat, checked: bool, warmed: bool)
    requires HasCopy(c)
    ensures HasCopy(CacheAfter(c, last, false, checked, warmed))
  {
  }

  /** Checking and pre-warming never cost a node its copy. */
  lemma OnlyDeletesLoseCopies(f: Fleet, g: Fleet, ids: set<NodeId>, serving: set<NodeId>, min: nat, last: nat,
                              cooling: bool, faults: Faults, deleted: set<NodeId>, warmed: set<NodeId>)
    requires Pass(f, g, ids, serving, min, last, cooling, faults, deleted, warmed)
    ensures RealCopies(f, ids) - deleted <= RealCopies(g, ids)
  {
    var s := Observe(f, ids, faults.query);
    forall id | id in RealCopies(f, ids) - deleted
      ensures id in RealCopies(g, ids)
    {
      CopyStays(CacheOn(f, id), last, id in Checked(s, serving, deleted) - faults.update, id in warmed);
    }
  }

  /** What a pass can see of the copies is real. */
  lemma SeenCopiesAreReal(f: Fleet, ids: set<NodeId>, queryFaults: set<NodeId>)
    ensures Copies(Observe(f, ids, queryFaults)) <= RealCopies(f, ids)
  {
  }

  /** What a pass can see: the copies of the nodes whose query is answered. */
  lemma SeenIff(f: Fleet, ids: set<NodeId>, queryFaults: set<NodeId>)
    ensures Copies(Observe(f, ids, queryFaults)) == RealCopies(f, ids - queryFaults)
  {
  }

  /**
   * Whichever RPCs fail in a pass, the copies the nodes really hold are not taken below the minimum
   * or below the number of serving nodes, unless none is lost; and no serving node loses its copy.
   */
  lemma PassKeepsTarget(f: Fleet, g: Fleet, ids: set<NodeId>, serving: set<NodeId>, min: nat, last: nat,
                        cooling: bool, faults: Faults, deleted: set<NodeId>, warmed: set<NodeId>)
    requires Pass(f, g, ids, serving, min, last, cooling, faults, deleted, warmed)
    ensures |RealCopies(g, ids)| >= |RealCopies(f, ids)| || (|RealCopies(g, ids)| >= min && |RealCopies(g, ids)| >= |serving|)
    ensures RealCopies(f, ids) * serving <= RealCopies(g, ids)
    ensures cooling ==> RealCopies(f, ids) <= RealCopies(g, ids)
  {
    var s := Observe(f, ids, faults.query);
    DeletesOnlySurplus(s, serving, min, cooling, faults.remove, deleted);
    OnlyDeletesLoseCopies(f, g, ids, serving, min, last, cooling, faults, deleted, warmed);
    SeenCopiesAreReal(f, ids, faults.query);
    FloorHolds(RealCopies(f, ids), RealCopies(g, ids), Copies(s), deleted, Target(serving, min));
  }

  /**
   * And surplus goes: outside the cooldown a pass leaves no more copies in sight than k, for any k
   * that covers the minimum and the serving nodes, unless it has deleted every copy in sight that is
   * ready, not serving and lets itself be deleted. What it deletes is of that kind and leaves enough.
   */
  lemma PassDropsSurplus(f: Fleet, g: Fleet, ids: set<NodeId>, serving: set<NodeId>, min: nat, last: nat,
                         cooling: bool, faults: Faults, deleted: set<NodeId>, warmed: set<NodeId>, k: nat)
    requires Pass(f, g, ids, serving, min, last, cooling, faults, deleted, warmed) && k >= min && k >= |serving|
    ensures var seen := RealCopies(f, ids - faults.query);
            && (deleted != {} ==> |seen - deleted| >= min && |seen - deleted| >= |serving|)
            && (forall id :: id in deleted ==> id in seen && CacheOn(f, id).status == Available && id !in serving && id !in faults.remove)
            && (!cooling && |seen - deleted| > k ==>
                  forall id :: id in seen && CacheOn(f, id).status == Available && id !in serving && id !in faults.remove ==> id in deleted)
  {
    SeenIff(f, ids, faults.query);
    var s := Observe(f, ids, faults.query);
    forall id
      ensures id in Deletable(s, serving) <==> id in RealCopies(f, ids - faults.query) && CacheOn(f, id).status == Available && id !in serving
    {
    }
  }

  /**
   * Missing copies are fetched: after a pass the branch has as many copies in sight or on their way
   * as the minimum asks for, unless every node in sight without one was tried; and never more for it.
   */
  lemma PassFetchesUpToMinimum(f: Fleet, g: Fleet, ids: set<NodeId>, serving: set<NodeId>, min: nat, last: nat,
                               cooling: bool, faults: Faults, deleted: set<NodeId>, warmed: set<NodeId>)
    requires Pass(f, g, ids, serving, min, last, cooling, faults, deleted, warmed)
    ensures var left := |RealCopies(f, ids - faults.query) - deleted|;
            && (warmed != {} ==> left + |warmed| <= min)
            && (left + |warmed| < min ==>
                  forall id :: id in ids - faults.query && CacheOn(f, id).Missing? && id !in faults.warm ==> id in warmed)
            && (forall id :: id in warmed ==> HasCopy(CacheOn(g, id)))
  {
    SeenIff(f, ids, faults.query);
    var s := Observe(f, ids, faults.query);
    assert forall id :: id in s.Keys <==> id in s;
    forall id | id in warmed
      ensures HasCopy(CacheOn(g, id))
    {
      assert id in s.Keys - Copies(s);
      assert id !in deleted;
    }
  }

  /** What is seen bounds what is there: if the visible copies left reach the target, so do the real ones. */
  lemma FloorHolds(before: set<NodeId>, after: set<NodeId>, seen: set<NodeId>, deleted: set<NodeId>, target: nat)
    requires before - deleted <= after && seen <= before
    requires deleted == {} || |seen - deleted| >= target
    ensures |after| >= target || |after| >= |before|
  {
    if deleted == {} {
      assert before - deleted == before;
      SubsetSize(before, after);
    } else {
      assert seen - deleted <= before - deleted;
      SubsetSize(seen - deleted, after);
    }
  }

  /** A node that has the branch's own build, or is fetching it, is left in peace unless its copy is deleted. */
  lemma CurrentCopyIsLeftAlone(f: Fleet, g: Fleet, ids: set<NodeId>, serving: set<NodeId>, min: nat, last: nat,
                               cooling: bool, faults: Faults, deleted: set<NodeId>, warmed: set<NodeId>, id: NodeId)
    requires Pass(f, g, ids, serving, min, last, cooling, faults, deleted, warmed)
    requires HasCopy(CacheOn(f, id)) && CacheOn(f, id).build == Some(last)
    ensures CacheOn(g, id) == (if id in deleted then Missing else CacheOn(f, id))
  {
  }

  /** A pass in which a copy is lost fetches nothing new: it only refreshes serving nodes and ready copies. */
  lemma LosingPassOnlyRefreshes(f: Fleet, g: Fleet, ids: set<NodeId>, serving: set<NodeId>, min: nat, last: nat,
                                cooling: bool, faults: Faults, deleted: set<NodeId>, warmed: set<NodeId>, id: NodeId)
    requires Pass(f, g, ids, serving, min, last, cooling, faults, deleted, warmed)
    requires !(RealCopies(f, ids) <= RealCopies(g, ids))
    ensures CacheOn(g, id) == CacheOn(f, id) || CacheOn(g, id).Missing?
            || id in serving || (CacheOn(f, id).Held? && CacheOn(f, id).status == Available)
  {
    OnlyDeletesLoseCopies(f, g, ids, serving, min, last, cooling, faults, deleted, warmed);
    NeverDeletesAndWarms(Observe(f, ids, faults.query), serving, min, cooling, faults, deleted, warmed);
    assert deleted != {} by {
      assert RealCopies(f, ids) - {} == RealCopies(f, ids);
    }
  }

  /** Every serving node the pass can see already holds or fetches the branch. */
  ghost predicate ServingCovered(f: Fleet, ids: set<NodeId>, serving: set<NodeId>) {
    forall id :: id in ids && id in serving ==> CacheOn(f, id).Held?
  }

  /** One node's cache across a pass in which its RPCs succeed. */
  lemma CacheAcrossPass(c: Cache, last: nat, serves: bool, deleted: bool, warmed: bool)
    requires serves ==> c.Held?
    requires deleted ==> Listed(c, false) && StateOf(c, false).avail && !serves
    requires warmed ==> Listed(c, false) && !StateOf(c, false).Copy()
    ensures var checked := Listed(c, false) && !deleted && (serves || StateOf(c, false).avail);
            var d := CacheAfter(c, last, deleted, checked, warmed);
            && Listed(d, false) == Listed(c, false)
            && (serves ==> d.Held?)
            && (Listed(c, false) ==>
                  && (StateOf(d, false).Copy() <==> (StateOf(c, false).Copy() && !deleted) || warmed)
                  && (StateOf(d, false).avail && !serves <==> StateOf(c, false).avail && !serves && !deleted && Fresh(c, last)))
  {
  }

  lemma StateAcrossPass(f: Fleet, g: Fleet, ids: set<NodeId>, serving: set<NodeId>, min: nat, last: nat,
                        cooling: bool, deleted: set<NodeId>, warmed: set<NodeId>, id: NodeId)
    requires Pass(f, g, ids, serving, min, last, cooling, NO_FAULTS, deleted, warmed) && ServingCovered(f, ids, serving)
    ensures var s, t := Observe(f, ids, {}), Observe(g, ids, {});
            && (id in t <==> id in s)
            && (id in t ==> (t[id].Copy() <==> (s[id].Copy() && id !in deleted) || id in warmed))
            && (id in t ==> (t[id].avail && id !in serving <==>
                               s[id].avail && id !in serving && id !in deleted && Fresh(CacheOn(f, id), last)))
  {
    var s := Observe(f, ids, {});
    if id in ids {
      var c := CacheOn(f, id);
      assert id in deleted ==> id in Deletable(s, serving);
      assert id in warmed ==> id in s && id !in Copies(s);
      CacheAcrossPass(c, last, id in serving, id in deleted, id in warmed);
      assert id in Checked(s, serving, deleted) - NO_FAULTS.update <==>
             Listed(c, false) && id !in deleted && (id in serving || StateOf(c, false).avail);
    }
  }

  /** After a pass without failures the copies are those kept plus those fetched. */
  lemma CopiesAfter(f: Fleet, g: Fleet, ids: set<NodeId>, serving: set<NodeId>, min: nat, last: nat,
                    cooling: bool, deleted: set<NodeId>, warmed: set<NodeId>)
    requires Pass(f, g, ids, serving, min, last, cooling, NO_FAULTS, deleted, warmed) && ServingCovered(f, ids, serving)
    ensures Copies(Observe(g, ids, {})) == Copies(Observe(f, ids, {})) - deleted + warmed
    ensures Observe(g, ids, {}).Keys == Observe(f, ids, {}).Keys
  {
    var s, t := Observe(f, ids, {}), Observe(g, ids, {});
    var after, kept := Copies(t), Copies(s) - deleted + warmed;
    forall id
      ensures (id in t <==> id in s) && (id in after <==> id in kept)
    {
      CopyAfter(f, g, ids, serving, min, last, cooling, deleted, warmed, id);
    }
    assert after == kept;
    assert t.Keys == s.Keys;
  }

  lemma CopyAfter(f: Fleet, g: Fleet, ids: set<NodeId>, serving: set<NodeId>, min: nat, last: nat,
                  cooling: bool, deleted: set<NodeId>, warmed: set<NodeId>, id: NodeId)
    requires Pass(f, g, ids, serving, min, last, cooling, NO_FAULTS, deleted, warmed) && ServingCovered(f, ids, serving)
    ensures id in Observe(g, ids, {}) <==> id in Observe(f, ids, {})
    ensures id in Copies(Observe(g, ids, {})) <==> id in Copies(Observe(f, ids, {})) - deleted + warmed
  {
    StateAcrossPass(f, g, ids, serving, min, last, cooling, deleted, warmed, id);
    assert id in warmed ==> id in Observe(f, ids, {});
  }

  /** What could still be deleted is what the pass left ready. */
  lemma DeletableAfter(f: Fleet, g: Fleet, ids: set<NodeId>, serving: set<NodeId>, min: nat, last: nat,
                       cooling: bool, deleted: set<NodeId>, warmed: set<NodeId>)
    requires Pass(f, g, ids, serving, min, last, cooling, NO_FAULTS, deleted, warmed) && ServingCovered(f, ids, serving)
    ensures Deletable(Observe(g, ids, {}), serving)
            == set id | id in Deletable(Observe(f, ids, {}), serving) - deleted && Fresh(CacheOn(f, id), last)
  {
    var s, t := Observe(f, ids, {}), Observe(g, ids, {});
    forall id
      ensures id in Deletable(t, serving) <==> id in Deletable(s, serving) - deleted && Fresh(CacheOn(f, id), last)
    {
      StateAcrossPass(f, g, ids, serving, min, last, cooling, deleted, warmed, id);
    }
  }

  /** Ready with the branch's build or a later one, so that an update leaves it ready. */
  predicate Fresh(c: Cache, last: nat) {
    c.Held? && c.status == Available && c.build.Some? && c.build.value >= last
  }

  /** The first pass was held back by the cooldown, the second is not, and up-to-date surplus is left. */
  ghost predicate HeldBack(f: Fleet, ids: set<NodeId>, serving: set<NodeId>, min: nat, last: nat, cooling1: bool, cooling2: bool) {
    && cooling1 && !cooling2
    && |RealCopies(f, ids)| > min && |RealCopies(f, ids)| > |serving|
    && exists id :: id in ids && id !in serving && Fresh(CacheOn(f, id), last)
  }

  /**
   * When every serving node already has a copy, no RPC fails and statuses otherwise stay put, a
   * second pass neither deletes nor pre-warms, unless the cooldown had held the first one back.
   */
  lemma SecondPassIdleIff(f: Fleet, g: Fleet, h: Fleet, ids: set<NodeId>, serving: set<NodeId>, min: nat, last: nat,
                          cooling1: bool, deleted1: set<NodeId>, warmed1: set<NodeId>,
                          cooling2: bool, deleted2: set<NodeId>, warmed2: set<NodeId>)
    requires ServingCovered(f, ids, serving)
    requires Pass(f, g, ids, serving, min, last, cooling1, NO_FAULTS, deleted1, warmed1)
    requires Pass(g, h, ids, serving, min, last, cooling2, NO_FAULTS, deleted2, warmed2)
    ensures deleted2 == {} && warmed2 == {} <==> !HeldBack(f, ids, serving, min, last, cooling1, cooling2)
  {
    var s, t := Observe(f, ids, {}), Observe(g, ids, {});
    CopiesAfter(f, g, ids, serving, min, last, cooling1, deleted1, warmed1);
    DeletableAfter(f, g, ids, serving, min, last, cooling1, deleted1, warmed1);
    DeletesOnlySurplus(s, serving, min, cooling1, {}, deleted1);
    DeletesOnlySurplus(t, serving, min, cooling2, {}, deleted2);
    SizeAfter(Copies(s), deleted1, warmed1);
    NothingLeftToWarm(s, t, serving, min, cooling1, deleted1, warmed1);
    SecondWarmIsIdle(t, serving, min, cooling2, deleted2, warmed2);
    SurplusAfter(f, ids, serving, min, last, cooling1, deleted1, warmed1, t);
    if |Copies(t)| > Target(serving, min) && Deletable(t, serving) != {} {
      DeletesAll(t, serving, min, cooling2, deleted2);
    } else {
      DeletesNone(t, serving, min, cooling2, deleted2);
    }
  }

  lemma NothingLeftToWarm(s: States, t: States, serving: set<NodeId>, min: nat, cooling: bool, deleted: set<NodeId>, warmed: set<NodeId>)
    requires DeletePhase(s, serving, min, cooling, {}, deleted) && WarmPhase(s, min, {}, deleted, warmed)
    requires Copies(t) == Copies(s) - deleted + warmed && t.Keys == s.Keys
    ensures |Copies(t)| < min ==> t.Keys <= Copies(t)
  {
    DeletesOnlySurplus(s, serving, min, cooling, {}, deleted);
    assert s.Keys - Copies(s) - {} == s.Keys - Copies(s);
    NothingToWarm(s.Keys, Copies(s), Copies(t), min, deleted, warmed);
  }

  lemma SecondWarmIsIdle(t: States, serving: set<NodeId>, min: nat, cooling: bool, deleted: set<NodeId>, warmed: set<NodeId>)
    requires DeletePhase(t, serving, min, cooling, {}, deleted) && WarmPhase(t, min, {}, deleted, warmed)
    requires |Copies(t)| < min ==> t.Keys <= Copies(t)
    ensures warmed == {}
  {
    WarmedSize(t, min, {}, deleted, warmed);
    if deleted == {} {
      assert Copies(t) - deleted == Copies(t);
    }
    assert |warmed| == 0 || warmed <= {};
  }

  /** A pass leaves deletable surplus exactly when it was held back by the cooldown. */
  lemma SurplusAfter(f: Fleet, ids: set<NodeId>, serving: set<NodeId>, min: nat, last: nat,
                     cooling: bool, deleted: set<NodeId>, warmed: set<NodeId>, t: States)
    requires var s := Observe(f, ids, {});
             && DeletePhase(s, serving, min, cooling, {}, deleted) && WarmPhase(s, min, {}, deleted, warmed)
             && |Copies(t)| == |Copies(s) - deleted| + |warmed|
             && Deletable(t, serving) == set id | id in Deletable(s, serving) - deleted && Fresh(CacheOn(f, id), last)
    ensures |Copies(t)| > Target(serving, min) && Deletable(t, serving) != {} <==> HeldBack(f, ids, serving, min, last, cooling, false)
  {
    var s := Observe(f, ids, {});
    SeenIff(f, ids, {});
    assert ids - {} == ids;
    WarmedSize(s, min, {}, deleted, warmed);
    if cooling {
      assert Copies(s) - deleted == Copies(s);
      FreshSurplus(f, ids, serving, last, Deletable(t, serving));
    } else if |Copies(s) - deleted| > Target(serving, min) {
      assert Deletable(t, serving) == {};
    }
  }

  lemma WarmedSize(s: States, min: nat, fails: set<NodeId>, deleted: set<NodeId>, warmed: set<NodeId>)
    requires WarmPhase(s, min, fails, deleted, warmed)
    ensures |warmed| > 0 ==> |Copies(s) - deleted| + |warmed| <= min
  {
  }

  lemma FreshSurplus(f: Fleet, ids: set<NodeId>, serving: set<NodeId>, last: nat, surplus: set<NodeId>)
    requires surplus == set id | id in Deletable(Observe(f, ids, {}), serving) - {} && Fresh(CacheOn(f, id), last)
    ensures surplus != {} <==> exists id :: id in ids && id !in serving && Fresh(CacheOn(f, id), last)
  {
    if surplus != {} {
      var id :| id in surplus;
      assert id in Observe(f, ids, {});
    }
    if id :| id in ids && id !in serving && Fresh(CacheOn(f, id), last) {
      assert id in surplus;
    }
  }

  lemma SizeAfter(copies: set<NodeId>, deleted: set<NodeId>, warmed: set<NodeId>)
    requires deleted <= copies && warmed !! copies
    ensures |copies - deleted + warmed| == |copies - deleted| + |warmed|
  {
  }

  /** Nothing is deleted when there is no surplus or nothing deletable. */
  lemma DeletesNone(s: States, serving: set<NodeId>, min: nat, cooling: bool, deleted: set<NodeId>)
    requires DeletePhase(s, serving, min, cooling, {}, deleted)
    requires |Copies(s)| <= Target(serving, min) || Deletable(s, serving) == {}
    ensures deleted == {}
  {
    DeletesOnlySurplus(s, serving, min, cooling, {}, deleted);
    SubsetSize(deleted, Copies(s));
  }

  lemma DeletesAll(s: States, serving: set<NodeId>, min: nat, cooling: bool, deleted: set<NodeId>)
    requires DeletePhase(s, serving, min, cooling, {}, deleted)
    requires |Copies(s)| > Target(serving, min)
    ensures deleted == {} <==> cooling || Deletable(s, serving) == {}
  {
    if deleted == {} {
      assert Copies(s) - deleted == Copies(s);
    }
  }

  /** After a pass that kept or reached the minimum, or fetched all it could, nothing is left to fetch. */
  lemma NothingToWarm(keys: set<NodeId>, before: set<NodeId>, after: set<NodeId>, min: nat,
                      deleted: set<NodeId>, warmed: set<NodeId>)
    requires before <= keys && deleted <= before && warmed <= keys - before
    requires after == before - deleted + warmed
    requires deleted != {} ==> |before - deleted| >= min
    requires |before - deleted| + |warmed| < min ==> warmed == keys - before
    ensures |after| < min ==> keys <= after
  {
    SizeAfter(before, deleted, warmed);
    if deleted == {} && warmed == keys - before {
      assert after == keys;
    }
  }

  /**
   * Without the premise the second pass can act: the first starts a download on a serving node
   * that had none, and the copy elsewhere becomes surplus only then.
   */
  lemma UncoveredServingNodeDelaysDelete(a: NodeId, b: NodeId, last: nat)
    requires a != b
    ensures var f: Fleet := map[b := Held(Available, Some(last))];
            var g: Fleet := map[a := Held(Downloading, Some(last)), b := Held(Available, Some(last))];
            var h: Fleet := map[a := Held(Downloading, Some(last))];
            && Pass(f, g, {a, b}, {a}, 0, last, false, NO_FAULTS, {}, {})
            && Pass(g, h, {a, b}, {a}, 0, last, false, NO_FAULTS, {b}, {})
  {
    FirstPassOfTwo(a, b, last);
    SecondPassOfTwo(a, b, last);
  }

  lemma FirstPassOfTwo(a: NodeId, b: NodeId, last: nat)
    requires a != b
    ensures Pass(map[b := Held(Available, Some(last))], map[a := Held(Downloading, Some(last)), b := Held(Available, Some(last))],
                 {a, b}, {a}, 0, last, false, NO_FAULTS, {}, {})
  {
    var f: Fleet := map[b := Held(Available, Some(last))];
    var s := Observe(f, {a, b}, {});
    assert s == map[a := NodeState(false, false), b := NodeState(true, false)];
    assert Copies(s) == {b} && Copies(s) - {} == {b} && |{b}| == 1 && |{a}| == 1;
    assert Checked(s, {a}, {}) - {} == {a, b};
  }

  lemma TwoCopies(s: States, a: NodeId, b: NodeId)
    requires a != b && s == map[a := NodeState(false, true), b := NodeState(true, false)]
    ensures DeletePhase(s, {a}, 0, false, {}, {b}) && WarmPhase(s, 0, {}, {b}, {})
  {
    assert Copies(s) == {a, b} && Copies(s) - {b} == {a} && |{a}| == 1;
    assert Deletable(s, {a}) == {b} && {b} - {} == {b};
  }

  lemma SecondPassOfTwo(a: NodeId, b: NodeId, last: nat)
    requires a != b
    ensures Pass(map[a := Held(Downloading, Some(last)), b := Held(Available, Some(last))], map[a := Held(Downloading, Some(last))],
                 {a, b}, {a}, 0, last, false, NO_FAULTS, {b}, {})
  {
    var g: Fleet := map[a := Held(Downloading, Some(last)), b := Held(Available, Some(last))];
    var s := Observe(g, {a, b}, {});
    assert s == map[a := NodeState(false, true), b := NodeState(true, false)];
    assert DeletePhase(s, {a}, 0, false, {}, {b}) && WarmPhase(s, 0, {}, {b}, {}) by {
      TwoCopies(s, a, b);
    }
    assert Checked(s, {a}, {b}) - {} == {a};
  }
}
