/** Instance states (entity/game_instance.go) and the groups the controller sorts them into. */
module Entities {
  datatype Status =
    | Pending | Scheduling | PreparingBuild | RestoringSnapshot | Starting | Running
    | Stopping | Cleaning | Stopped | Queued | CacheWarming | Failed
  {
    /** The stored number, in order of declaration in the source. */
    function Ordinal(): nat {
      match this
      case Pending => 0
      case Scheduling => 1
      case PreparingBuild => 2
      case RestoringSnapshot => 3
      case Starting => 4
      case Running => 5
      case Stopping => 6
      case Cleaning => 7
      case Stopped => 8
      case Queued => 9
      case CacheWarming => 10
      case Failed => 11
    }

    /** Occupies its subscription's single slot. */
    predicate IsActive() {
      this != Stopped && this != Failed
    }

    /** The states a dispatcher worker still has to move on. */
    predicate IsDispatchable() {
      this in {Pending, Scheduling, Queued, CacheWarming, PreparingBuild, RestoringSnapshot, Starting, Stopping, Cleaning}
    }

    /** The stages that issue a node RPC and then poll for its outcome. */
    predicate IsStage() {
      this in {CacheWarming, PreparingBuild, RestoringSnapshot, Starting, Stopping, Cleaning}
    }

    /** Counts as a reference to the node's game cache (instanceActiveStatus). */
    predicate ReferencesCache() {
      this in {CacheWarming, PreparingBuild, RestoringSnapshot, Starting, Running, Stopping, Cleaning}
    }

    /** The stop half of the life cycle, whose failures keep the node binding. */
    predicate IsStopStage() {
      this == Stopping || this == Cleaning
    }
  }

  /** A node's pressure status: anything but Normal keeps new instances away. */
  datatype Pressure = Normal | Warning | Critical

  /** The predicate of the partial unique index on subscriptions, which lists stored numbers. */
  predicate IndexedAsActive(s: Status) {
    s.Ordinal() != 8 && s.Ordinal() != 10
  }

  /**
   * The index was meant to agree with IsActive; since cache warming took number 10 it agrees
   * exactly on the other states.
   */
  lemma IndexDrift(s: Status)
    ensures IndexedAsActive(s) == s.IsActive() <==> s != CacheWarming && s != Failed
  {
  }
}
