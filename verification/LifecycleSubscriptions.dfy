/**
 * One active instance per subscription: what the check before a start and the unique index behind
 * every save guarantee together, and where the index refuses what the check has let through.
 */
module LifecycleSubscriptions {
  import opened Wrappers
  import opened Entities
  import opened Lifecycle
  import opened LifecycleInvariant
  import opened LifecycleRuns

  predicate MemberOf(s: Slot, sub: string) {
    s.inst.Some? && s.inst.value.subscription == Some(sub)
  }

  /** Two rows of one subscription: at most one of them is indexed, and beside a warming one the other is stopped. */
  predicate Compatible(s: Slot, t: Slot, sub: string) {
    && !(IndexedUnder(s, sub) && IndexedUnder(t, sub))
    && (MemberOf(s, sub) && MemberOf(t, sub) && s.Is(CacheWarming) ==> t.Is(Stopped))
    && (MemberOf(s, sub) && MemberOf(t, sub) && t.Is(CacheWarming) ==> s.Is(Stopped))
  }

  ghost predicate SubscriptionsOk(w: World) {
    forall a, b, sub :: a in w.slots && b in w.slots && a != b && sub != "" ==> Compatible(w.slots[a], w.slots[b], sub)
  }

  /** M10: no subscription has two active instances. */
  ghost predicate SingleActive(w: World) {
    forall a, b, sub :: a in w.slots && b in w.slots && a != b && sub != "" ==>
      !(OccupiesSubscription(w.slots[a], sub) && OccupiesSubscription(w.slots[b], sub))
  }

  lemma CompatibleIsSingle(s: Slot, t: Slot, sub: string)
    requires Compatible(s, t, sub)
    ensures !(OccupiesSubscription(s, sub) && OccupiesSubscription(t, sub))
  {
  }

  lemma CompatibleAt(w: World, a: InstanceId, b: InstanceId, sub: string)
    requires SubscriptionsOk(w) && a != b && sub != ""
    ensures Compatible(w.At(a), w.At(b), sub)
  {
    if a in w.slots && b in w.slots {
      assert Compatible(w.slots[a], w.slots[b], sub);
    }
  }

  // ------------------------------------------------------------------ one step

  /** What admission means beside one other row. */
  predicate AdmittedBeside(e: Event, s: Slot, t: Slot, sub: string) {
    MemberOf(s, sub) ==>
      && (e.Start? || e.Retry? ==> !OccupiesSubscription(t, sub))
      && (e.Start? || e.Retry? || e.Stop? ==> !IndexedUnder(t, sub))
  }

  lemma LocalKeepsCompatible(c: Setup, w: World, e: Event, admitted: bool, granted: bool, t: Slot, sub: string)
    requires Enabled(c, w, e) && !e.Tick? && WorkerOk(w.At(e.id)) && Compatible(w.At(e.id), t, sub)
    requires admitted ==> AdmittedBeside(e, w.At(e.id), t, sub)
    ensures Compatible(Local(c, w.now, w.At(e.id), e, admitted, granted).0, t, sub)
  {
    if e.Start? || e.Retry? || e.Stop? {
      RequestKeepsCompatible(c, w, e, admitted, granted, t, sub);
    } else {
      var s := Local(c, w.now, w.At(e.id), e, admitted, granted).0;
      OtherMoves(c, w, e, admitted, granted);
      assert s.inst.Some? && w.At(e.id).inst.Some? ==> MemberOf(s, sub) == MemberOf(w.At(e.id), sub);
    }
  }

  lemma RequestKeepsCompatible(c: Setup, w: World, e: Event, admitted: bool, granted: bool, t: Slot, sub: string)
    requires (e.Start? || e.Retry? || e.Stop?) && Compatible(w.At(e.id), t, sub)
    requires admitted ==> AdmittedBeside(e, w.At(e.id), t, sub)
    ensures Compatible(Local(c, w.now, w.At(e.id), e, admitted, granted).0, t, sub)
  {
  }

  /** Apart from the three requests, an event leaves a stopped instance stopped, and only leaving scheduling leads to warming. */
  lemma OtherMoves(c: Setup, w: World, e: Event, admitted: bool, granted: bool)
    requires Enabled(c, w, e) && !e.Tick? && WorkerOk(w.At(e.id)) && !(e.Start? || e.Retry? || e.Stop?)
    ensures var s, t := w.At(e.id), Local(c, w.now, w.At(e.id), e, admitted, granted).0;
            t.inst.Some? ==>
              if s.inst.None? then t.Is(Stopped)
              else
                && t.inst.value.subscription == s.inst.value.subscription
                && (s.Is(Stopped) ==> t.Is(Stopped))
                && (t.Is(CacheWarming) ==> s.Is(CacheWarming) || s.Is(Scheduling))
  {
  }

  lemma AdmittedBesideAll(w: World, e: Event, other: InstanceId, sub: string)
    requires !e.Tick? && Admitted(w, e) && other != e.id && sub != ""
    ensures AdmittedBeside(e, w.At(e.id), w.At(other), sub)
  {
  }

  /** Every event keeps it. */
  lemma StepKeepsSubscriptions(c: Setup, w: World, e: Event)
    requires Inv(c, w) && SubscriptionsOk(w) && Enabled(c, w, e)
    ensures SubscriptionsOk(Step(c, w, e))
  {
    if !e.Tick? {
      var v := Step(c, w, e);
      StepAt(c, w, e);
      assert WorkerOk(w.At(e.id)) by {
        assert e.id in w.slots ==> SlotOk(c, w.now, w.slots[e.id]);
      }
      forall a, b, sub | a in v.slots && b in v.slots && a != b && sub != ""
        ensures Compatible(v.slots[a], v.slots[b], sub)
      {
        PairStaysCompatible(c, w, e, a, b, sub);
        assert v.At(a) == v.slots[a] && v.At(b) == v.slots[b];
      }
    }
  }

  lemma PairStaysCompatible(c: Setup, w: World, e: Event, a: InstanceId, b: InstanceId, sub: string)
    requires SubscriptionsOk(w) && Enabled(c, w, e) && !e.Tick? && WorkerOk(w.At(e.id)) && a != b && sub != ""
    ensures Compatible(Step(c, w, e).At(a), Step(c, w, e).At(b), sub)
  {
    StepAt(c, w, e);
    CompatibleAt(w, a, b, sub);
    var other := if a == e.id then b else a;
    if other != e.id && (a == e.id || b == e.id) {
      CompatibleAt(w, e.id, other, sub);
      if Admitted(w, e) {
        AdmittedBesideAll(w, e, other, sub);
      }
      LocalKeepsCompatible(c, w, e, Admitted(w, e), Granted(w, e), w.At(other), sub);
    }
  }

  // ----------------------------------------------------------------- over runs

  lemma {:induction false} SubscriptionsOverEveryRun(c: Setup, w: World, es: seq<Event>)
    requires c.Valid() && Inv(c, w) && SubscriptionsOk(w) && IsRun(c, w, es)
    ensures SubscriptionsOk(After(c, w, es))
    decreases |es|
  {
    if es != [] {
      StepKeepsInv(c, w, es[0]);
      StepKeepsSubscriptions(c, w, es[0]);
      SubscriptionsOverEveryRun(c, Step(c, w, es[0]), es[1..]);
    }
  }

  lemma ReachableSubscriptions(c: Setup, w: World)
    requires c.Valid() && Reachable(c, w)
    ensures SubscriptionsOk(w)
  {
    var pool, es :| Unused(pool) && IsRun(c, EmptyWorld(c, pool), es) && w == After(c, EmptyWorld(c, pool), es);
    EmptyWorldIsSound(c, pool);
    SubscriptionsOverEveryRun(c, EmptyWorld(c, pool), es);
  }

  /** In every reachable state a subscription has at most one active instance, retried stops included. */
  lemma SingleActiveOverEveryRun(c: Setup, w: World)
    requires c.Valid() && Reachable(c, w)
    ensures SingleActive(w)
  {
    ReachableSubscriptions(c, w);
    forall a, b, sub | a in w.slots && b in w.slots && a != b && sub != ""
      ensures !(OccupiesSubscription(w.slots[a], sub) && OccupiesSubscription(w.slots[b], sub))
    {
      CompatibleIsSingle(w.slots[a], w.slots[b], sub);
    }
  }

  // --------------------------------------------------------- what gets refused

  /** The event leaves its row in the index. */
  predicate EntersIndex(c: Setup, w: World, e: Event, sub: string)
    requires Enabled(c, w, e) && !e.Tick?
  {
    IndexedUnder(Step(c, w, e).At(e.id), sub)
  }

  /**
   * In every reachable state the index lets through every save that any event makes of an instance
   * of a named subscription; so the save errors that the dispatcher ignores do not occur there.
   */
  lemma NoSaveIsRefused(c: Setup, w: World, e: Event, sub: string)
    requires c.Valid() && Reachable(c, w) && Enabled(c, w, e) && !e.Tick? && sub != ""
    ensures EntersIndex(c, w, e, sub) ==> IndexFree(w, e.id)
  {
    ReachableIsSound(c, w);
    ReachableSubscriptions(c, w);
    if EntersIndex(c, w, e, sub) {
      StepKeepsSubscriptions(c, w, e);
      IndexedRowIsAlone(Step(c, w, e), e.id, sub);
      SameBesideStep(c, w, e, sub);
    }
  }

  /** Nor is a stop that passes its guard ever refused. */
  lemma StopIsNeverRefused(c: Setup, w: World, id: InstanceId)
    requires c.Valid() && Reachable(c, w) && MayStop(w.At(id)) && w.At(id).inst.value.subscription != Some("")
    ensures !Refused(c, w, Stop(id))
  {
    ReachableSubscriptions(c, w);
    StepAt(c, w, Stop(id));
    var sub := w.At(id).inst.value.subscription;
    if sub.Some? {
      IndexedRowIsAlone(w, id, sub.value);
    }
  }

  lemma IndexedRowIsAlone(w: World, id: InstanceId, sub: string)
    requires SubscriptionsOk(w) && IndexedUnder(w.At(id), sub) && sub != ""
    ensures IndexFree(w, id)
  {
    forall other | other in w.slots && other != id
      ensures !IndexedUnder(w.slots[other], sub)
    {
      CompatibleAt(w, id, other, sub);
    }
  }

  /** Whether the index accepts the row does not depend on the step that writes it. */
  lemma SameBesideStep(c: Setup, w: World, e: Event, sub: string)
    requires Enabled(c, w, e) && !e.Tick? && EntersIndex(c, w, e, sub) && IndexFree(Step(c, w, e), e.id)
    ensures IndexFree(w, e.id)
  {
    StepAt(c, w, e);
    if w.At(e.id).inst.Some? {
      LocalSubscription(c, w, e, Admitted(w, e), Granted(w, e));
      forall other | other in w.slots && other != e.id
        ensures !IndexedUnder(w.slots[other], sub)
      {
        assert Step(c, w, e).At(other) == w.At(other);
      }
    }
  }

  /** No event moves an instance to another subscription. */
  lemma LocalSubscription(c: Setup, w: World, e: Event, admitted: bool, granted: bool)
    requires Enabled(c, w, e) && !e.Tick? && w.At(e.id).inst.Some?
    ensures var t := Local(c, w.now, w.At(e.id), e, admitted, granted).0;
            t.inst.Some? ==> t.inst.value.subscription == w.At(e.id).inst.value.subscription
  {
  }

  /** The call is answered with an error and changes nothing. */
  predicate Refused(c: Setup, w: World, e: Event)
    requires Enabled(c, w, e) && !e.Tick?
  {
    Step(c, w, e).At(e.id) == w.At(e.id)
  }

  /** A start or retry that passes the state guard. */
  predicate IsStart(w: World, e: Event) {
    (e.Start? && MayStart(w.At(e.id))) || (e.Retry? && MayRetry(w.At(e.id)))
  }

  /** A start or retry of an instance of a named subscription is accepted exactly when all its other instances are stopped. */
  lemma StartAcceptedIff(c: Setup, w: World, e: Event, sub: string)
    requires IsStart(w, e) && MemberOf(w.At(e.id), sub) && sub != ""
    ensures !Refused(c, w, e)
            <==> forall other :: other in w.slots && other != e.id && MemberOf(w.slots[other], sub) ==> w.slots[other].Is(Stopped)
  {
    StepAt(c, w, e);
  }

  /**
   * So a start or retry that has found the subscription free of active instances is refused by the
   * index exactly when another instance of the subscription has failed.
   */
  lemma FreeSlotRefusedIff(c: Setup, w: World, e: Event, sub: string)
    requires IsStart(w, e) && MemberOf(w.At(e.id), sub) && sub != "" && SlotFree(w, e.id)
    ensures Refused(c, w, e) <==> exists other :: other in w.slots && other != e.id && MemberOf(w.slots[other], sub) && w.slots[other].Is(Failed)
  {
    StartAcceptedIff(c, w, e, sub);
    forall other | other in w.slots && other != e.id && MemberOf(w.slots[other], sub)
      ensures w.slots[other].Is(Stopped) || w.slots[other].Is(Failed)
    {
      assert !OccupiesSubscription(w.slots[other], sub);
    }
  }

  /** In reachable states that is never a retry, nor a start after a failure: a failed instance is itself the indexed one. */
  lemma FailedIsNotRefused(c: Setup, w: World, e: Event, sub: string)
    requires c.Valid() && Reachable(c, w)
    requires IsStart(w, e) && MemberOf(w.At(e.id), sub) && sub != "" && SlotFree(w, e.id) && w.At(e.id).Is(Failed)
    ensures !Refused(c, w, e)
  {
    ReachableSubscriptions(c, w);
    FreeSlotRefusedIff(c, w, e, sub);
    forall other | other in w.slots && other != e.id && MemberOf(w.slots[other], sub)
      ensures !w.slots[other].Is(Failed)
    {
      CompatibleAt(w, e.id, other, sub);
    }
  }
}
