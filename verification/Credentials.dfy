/**
 * The pool of external credentials: CredentialUseCase.AllocateForInstance and ReleaseByInstance
 * over the conditional updates of CredentialPoolRepo. A pool is the table in listing order.
 */
module Credentials {
  import opened Wrappers

  datatype CredStatus = Available | InUse | Orphan

  datatype Cred = Cred(id: string, game: string, kind: string, secret: string,
                       status: CredStatus, holder: Option<string>, last: Option<string>)

  type Pool = seq<Cred>

  // ------------------------------------------------------------- repository

  /** Acquire: only a row that is still available changes hands. */
  function AcquireRow(c: Cred, id: string, inst: string): Cred {
    if c.id == id && c.status == Available then c.(status := InUse, holder := Some(inst)) else c
  }

  function Acquire(p: Pool, id: string, inst: string): Pool {
    seq(|p|, k requires 0 <= k < |p| => AcquireRow(p[k], id, inst))
  }

  predicate CanAcquire(p: Pool, id: string) {
    exists c :: c in p && c.id == id && c.status == Available
  }

  function ReleaseRow(c: Cred, inst: string): Cred {
    if c.status == InUse && c.holder == Some(inst)
    then c.(status := Available, holder := None, last := Some(inst))
    else c
  }

  function ReleaseBy(p: Pool, inst: string): Pool {
    seq(|p|, k requires 0 <= k < |p| => ReleaseRow(p[k], inst))
  }

  predicate Held(c: Cred, game: string, kind: string, inst: string) {
    c.game == game && c.kind == kind && c.status == InUse && c.holder == Some(inst)
  }

  function FindAllocated(p: Pool, game: string, kind: string, inst: string): (r: seq<Cred>)
    ensures forall c :: c in r <==> c in p && Held(c, game, kind, inst)
  {
    if p == [] then [] else
      (if Held(p[0], game, kind, inst) then [p[0]] else []) + FindAllocated(p[1..], game, kind, inst)
  }

  /** ListByGame: an empty kind lists every kind of the game. */
  predicate Listed(c: Cred, game: string, kind: string) {
    c.game == game && (kind == "" || c.kind == kind)
  }

  function ListByGame(p: Pool, game: string, kind: string): (r: seq<Cred>)
    ensures forall c :: c in r <==> c in p && Listed(c, game, kind)
  {
    if p == [] then [] else
      (if Listed(p[0], game, kind) then [p[0]] else []) + ListByGame(p[1..], game, kind)
  }

  /** The first row of a listing that the allocation wants in its first (reuse) or second pass. */
  predicate Wanted(c: Cred, reuse: bool, inst: string) {
    c.status == Available && (reuse ==> c.last == Some(inst))
  }

  function FirstWanted(rows: seq<Cred>, reuse: bool, inst: string): (r: Option<Cred>)
    ensures r == None <==> forall c :: c in rows ==> !Wanted(c, reuse, inst)
    ensures r.Some? ==> r.value in rows && Wanted(r.value, reuse, inst)
  {
    if rows == [] then None
    else if Wanted(rows[0], reuse, inst) then Some(rows[0])
    else FirstWanted(rows[1..], reuse, inst)
  }

  /** One undisturbed allocation: the new pool and the secret, or None for an empty pool. */
  function Allocate(p: Pool, game: string, kind: string, inst: string): (Pool, Option<string>) {
    var held := FindAllocated(p, game, kind, inst);
    if held != [] then (p, Some(held[0].secret))
    else
      var rows := ListByGame(p, game, kind);
      match FirstWanted(rows, true, inst)
      case Some(c) => (Acquire(p, c.id, inst), Some(c.secret))
      case None =>
        match FirstWanted(rows, false, inst)
        case Some(c) => (Acquire(p, c.id, inst), Some(c.secret))
        case None => (p, None)
  }

  // -------------------------------------------------------------- the use case

  class CredentialPool {
    var rows: Pool

    constructor (rows: Pool)
      ensures this.rows == rows
    {
      this.rows := rows;
    }

    method TryAcquire(id: string, inst: string) returns (ok: bool)
      modifies this
      ensures ok == CanAcquire(old(rows), id)
      ensures rows == Acquire(old(rows), id, inst)
    {
      var i := 0;
      ok := false;
      while i < |rows|
        invariant 0 <= i <= |rows|
        invariant |rows| == old(|rows|)
        invariant forall k :: 0 <= k < i ==> rows[k] == AcquireRow(old(rows)[k], id, inst)
        invariant forall k :: i <= k < |rows| ==> rows[k] == old(rows)[k]
        invariant ok <==> exists k :: 0 <= k < i && old(rows)[k].id == id && old(rows)[k].status == Available
      {
        if rows[i].id == id && rows[i].status == Available {
          ok := true;
        }
        rows := rows[i := AcquireRow(rows[i], id, inst)];
        i := i + 1;
      }
    }

    /** Scan the listing once; in the reuse pass only rows this instance used last qualify. */
    method ScanOnce(listed: seq<Cred>, reuse: bool, inst: string) returns (secret: Option<string>)
      requires forall c :: c in listed ==> c in rows
      modifies this
      ensures match FirstWanted(listed, reuse, inst)
              case Some(c) => secret == Some(c.secret) && rows == Acquire(old(rows), c.id, inst)
              case None => secret == None && rows == old(rows)
    {
      var i := 0;
      while i < |listed|
        invariant 0 <= i <= |listed|
        invariant rows == old(rows)
        invariant FirstWanted(listed, reuse, inst) == FirstWanted(listed[i..], reuse, inst)
      {
        var r := listed[i];
        if r.status == Available && (!reuse || r.last == Some(inst)) {
          assert CanAcquire(rows, r.id) by {
            assert r in rows;
          }
          var ok := TryAcquire(r.id, inst);
          if ok {
            return Some(r.secret);
          }
        }
        i := i + 1;
      }
      return None;
    }

    method AllocateForInstance(game: string, kind: string, inst: string) returns (secret: Option<string>)
      modifies this
      ensures (rows, secret) == Allocate(old(rows), game, kind, inst)
    {
      var mine := FindAllocated(rows, game, kind, inst);
      if |mine| > 0 {
        return Some(mine[0].secret);
      }
      var listed := ListByGame(rows, game, kind);
      secret := ScanOnce(listed, true, inst);
      if secret.None? {
        secret := ScanOnce(listed, false, inst);
      }
    }

    method ReleaseByInstance(inst: string)
      modifies this
      ensures rows == ReleaseBy(old(rows), inst)
    {
      rows := seq(|rows|, k requires 0 <= k < |rows| reads this => ReleaseRow(rows[k], inst));
    }
  }

  // ------------------------------------------------------------ table invariants

  ghost predicate UniqueIds(p: Pool) {
    forall i, j :: 0 <= i < j < |p| ==> p[i].id != p[j].id
  }

  /** An instance holds at most one credential of each game and kind. */
  ghost predicate Exclusive(p: Pool) {
    forall i, j | 0 <= i < j < |p| && p[i].status == InUse && p[j].status == InUse
                  && p[i].holder.Some? && p[i].holder == p[j].holder && p[i].game == p[j].game
      :: p[i].kind != p[j].kind
  }

  /** A row has a holder exactly while it is in use (orphans keep theirs). */
  ghost predicate HolderConsistent(p: Pool) {
    forall c :: c in p ==> (c.status == InUse ==> c.holder.Some?) && (c.status == Available ==> c.holder.None?)
  }

  ghost predicate TableOk(p: Pool) {
    UniqueIds(p) && Exclusive(p) && HolderConsistent(p)
  }

  predicate HoldsNone(p: Pool, game: string, kind: string, inst: string) {
    forall c :: c in p ==> !Held(c, game, kind, inst)
  }

  lemma AcquirePreservesTable(p: Pool, id: string, game: string, kind: string, inst: string)
    requires TableOk(p)
    requires forall c :: c in p && c.id == id ==> c.game == game && c.kind == kind
    requires HoldsNone(p, game, kind, inst)
    ensures TableOk(Acquire(p, id, inst))
  {
    var q := Acquire(p, id, inst);
    forall i, j | 0 <= i < j < |q| && q[i].status == InUse && q[j].status == InUse &&
                  q[i].holder.Some? && q[i].holder == q[j].holder && q[i].game == q[j].game
      ensures q[i].kind != q[j].kind
    {
      assert p[i] in p && p[j] in p;
    }
    forall c | c in q
      ensures (c.status == InUse ==> c.holder.Some?) && (c.status == Available ==> c.holder.None?)
    {
      var k :| 0 <= k < |q| && q[k] == c;
      assert p[k] in p;
    }
  }

  lemma ReleasePreservesTable(p: Pool, inst: string)
    requires TableOk(p)
    ensures TableOk(ReleaseBy(p, inst))
  {
    var q := ReleaseBy(p, inst);
    forall c | c in q
      ensures (c.status == InUse ==> c.holder.Some?) && (c.status == Available ==> c.holder.None?)
    {
      var k :| 0 <= k < |q| && q[k] == c;
      assert p[k] in p;
    }
  }

  // ---------------------------------------- interleaved allocations and releases

  /** Where one instance's allocation stands between two repository calls. */
  datatype Pc =
    | Idle
    | Listing(game: string, kind: string)
    | Trying(game: string, kind: string, rows: seq<Cred>, reuse: bool, next: nat)

  datatype System = System(pool: Pool, pcs: map<string, Pc>)
  {
    function At(inst: string): Pc {
      if inst in pcs then pcs[inst] else Idle
    }
  }

  /** One repository call made on behalf of one instance. */
  datatype Action =
    | Find(inst: string, game: string, kind: string)
    | List(inst: string)
    | Try(inst: string)
    | Release(inst: string)

  datatype Reply = Pending | Secret(secret: string) | PoolEmpty | Released

  predicate Enabled(s: System, a: Action) {
    match a
    case Find(inst, _, _) => s.At(inst) == Idle
    case List(inst) => s.At(inst).Listing?
    case Try(inst) => s.At(inst).Trying?
    case Release(inst) => s.At(inst) == Idle
  }

  function Step(s: System, a: Action): (System, Reply)
    requires Enabled(s, a)
  {
    match a
    case Find(inst, game, kind) =>
      var held := FindAllocated(s.pool, game, kind, inst);
      if held != [] then (s, Secret(held[0].secret))
      else (s.(pcs := s.pcs[inst := Listing(game, kind)]), Pending)
    case List(inst) =>
      var pc := s.At(inst);
      (s.(pcs := s.pcs[inst := Trying(pc.game, pc.kind, ListByGame(s.pool, pc.game, pc.kind), true, 0)]), Pending)
    case Try(inst) =>
      var pc := s.At(inst);
      if pc.next >= |pc.rows| then
        if pc.reuse then (s.(pcs := s.pcs[inst := pc.(reuse := false, next := 0)]), Pending)
        else (s.(pcs := s.pcs[inst := Idle]), PoolEmpty)
      else
        var r := pc.rows[pc.next];
        if Wanted(r, pc.reuse, inst) && CanAcquire(s.pool, r.id)
        then (System(Acquire(s.pool, r.id, inst), s.pcs[inst := Idle]), Secret(r.secret))
        else (s.(pcs := s.pcs[inst := pc.(next := pc.next + 1)]), Pending)
    case Release(inst) => (s.(pool := ReleaseBy(s.pool, inst)), Released)
  }

  /** Everything but who holds a row is fixed, so a stale listing still describes the rows it names. */
  predicate SameRow(a: Cred, b: Cred) {
    a.id == b.id && a.game == b.game && a.kind == b.kind && a.secret == b.secret
  }

  ghost predicate ScanOk(p: Pool, pc: Pc, inst: string) {
    match pc
    case Idle => true
    case Listing(game, kind) => kind != "" && HoldsNone(p, game, kind, inst)
    case Trying(game, kind, rows, _, _) =>
      kind != "" && HoldsNone(p, game, kind, inst) &&
      forall r, c :: r in rows && c in p && c.id == r.id ==> SameRow(r, c) && Listed(c, game, kind)
  }

  ghost predicate SystemOk(s: System) {
    TableOk(s.pool) && forall inst :: inst in s.pcs ==> ScanOk(s.pool, s.pcs[inst], inst)
  }

  /** The premise on callers: a build never declares a credential with an empty pool name. */
  predicate NamesAPool(a: Action) {
    a.Find? ==> a.kind != ""
  }

  lemma ScanSurvivesForeignStep(p: Pool, q: Pool, pc: Pc, inst: string)
    requires ScanOk(p, pc, inst) && |p| == |q|
    requires forall k :: 0 <= k < |p| ==> SameRow(p[k], q[k])
    requires forall k :: 0 <= k < |p| && q[k].holder == Some(inst) && q[k].status == InUse ==> q[k] == p[k]
    ensures ScanOk(q, pc, inst)
  {
    forall c | c in q
      ensures exists k :: 0 <= k < |p| && c == q[k] && p[k] in p
    {
      var k :| 0 <= k < |q| && q[k] == c;
    }
  }

  lemma StepKeepsSystemOk(s: System, a: Action)
    requires SystemOk(s) && Enabled(s, a) && NamesAPool(a)
    ensures SystemOk(Step(s, a).0)
  {
    var t := Step(s, a).0;
    if a.Find? {
      var held := FindAllocated(s.pool, a.game, a.kind, a.inst);
      assert held != [] ==> held[0] in held;
    } else if a.List? {
      ListingDescribesRows(s.pool, s.At(a.inst).game, s.At(a.inst).kind);
    } else if a.Try? && t.pool != s.pool {
      var pc := s.At(a.inst);
      var r := pc.rows[pc.next];
      AcquirePreservesTable(s.pool, r.id, pc.game, pc.kind, a.inst);
      forall inst | inst in t.pcs && inst != a.inst
        ensures ScanOk(t.pool, t.pcs[inst], inst)
      {
        ScanSurvivesForeignStep(s.pool, t.pool, s.pcs[inst], inst);
      }
    } else if a.Release? {
      ReleasePreservesTable(s.pool, a.inst);
      forall inst | inst in t.pcs
        ensures ScanOk(t.pool, t.pcs[inst], inst)
      {
        ScanSurvivesForeignStep(s.pool, t.pool, s.pcs[inst], inst);
      }
    }
  }

  lemma ListingDescribesRows(p: Pool, game: string, kind: string)
    requires UniqueIds(p)
    ensures forall r, c :: r in ListByGame(p, game, kind) && c in p && c.id == r.id ==> r == c
  {
  }

  ghost predicate IsRun(s: System, actions: seq<Action>)
    decreases |actions|
  {
    actions == [] ||
    (Enabled(s, actions[0]) && NamesAPool(actions[0]) && IsRun(Step(s, actions[0]).0, actions[1..]))
  }

  ghost function After(s: System, actions: seq<Action>): System
    requires IsRun(s, actions)
    decreases |actions|
  {
    if actions == [] then s else After(Step(s, actions[0]).0, actions[1..])
  }

  /**
   * Exclusivity over every interleaving: whatever repository calls of however many instances
   * are mixed in whatever order, no instance ever holds two credentials of one game and kind.
   */
  lemma {:induction false} ExclusiveOverEveryRun(s: System, actions: seq<Action>)
    requires SystemOk(s) && IsRun(s, actions)
    ensures SystemOk(After(s, actions))
    decreases |actions|
  {
    if actions != [] {
      StepKeepsSystemOk(s, actions[0]);
      ExclusiveOverEveryRun(Step(s, actions[0]).0, actions[1..]);
    }
  }

  /** The game and kind that the instance's allocation is about. */
  function AskedGame(s: System, a: Action): string {
    if a.Find? then a.game else if s.At(a.inst).Idle? then "" else s.At(a.inst).game
  }

  function AskedKind(s: System, a: Action): string {
    if a.Find? then a.kind else if s.At(a.inst).Idle? then "" else s.At(a.inst).kind
  }

  /** In a sound table an instance holds at most one row of a game and kind. */
  lemma HeldRowIsUnique(p: Pool, game: string, kind: string, inst: string, c: Cred, d: Cred)
    requires TableOk(p) && c in p && d in p && Held(c, game, kind, inst) && Held(d, game, kind, inst)
    ensures c == d
  {
    var i :| 0 <= i < |p| && p[i] == c;
    var j :| 0 <= j < |p| && p[j] == d;
  }

  /** Acquiring an available row makes the instance hold it. */
  lemma AcquiredRow(p: Pool, r: Cred, inst: string) returns (c: Cred)
    requires CanAcquire(p, r.id) && forall d :: d in p && d.id == r.id ==> SameRow(r, d)
    ensures c in Acquire(p, r.id, inst) && Held(c, r.game, r.kind, inst) && c.secret == r.secret
  {
    var d :| d in p && d.id == r.id && d.status == Available;
    var k :| 0 <= k < |p| && p[k] == d;
    c := Acquire(p, r.id, inst)[k];
  }

  /** The reply names a row that the instance holds afterwards. */
  lemma RepliedRow(s: System, a: Action) returns (c: Cred)
    requires SystemOk(s) && Enabled(s, a) && NamesAPool(a) && Step(s, a).1.Secret?
    ensures a.Find? || a.Try?
    ensures c in Step(s, a).0.pool && Held(c, AskedGame(s, a), AskedKind(s, a), a.inst) && c.secret == Step(s, a).1.secret
  {
    if a.Find? {
      c := FindAllocated(s.pool, a.game, a.kind, a.inst)[0];
    } else {
      var pc := s.At(a.inst);
      assert ScanOk(s.pool, pc, a.inst);
      var r := pc.rows[pc.next];
      c := AcquiredRow(s.pool, r, a.inst);
      var d :| d in s.pool && d.id == r.id && d.status == Available;
      assert SameRow(r, d) && Listed(d, pc.game, pc.kind);
    }
  }

  /** A secret that is handed out belongs to the one row of that game and kind the instance then holds. */
  lemma RepliedSecretIsHeld(s: System, a: Action)
    requires SystemOk(s) && Enabled(s, a) && NamesAPool(a) && Step(s, a).1.Secret?
    ensures a.Find? || a.Try?
    ensures !HoldsNone(Step(s, a).0.pool, AskedGame(s, a), AskedKind(s, a), a.inst)
    ensures forall c :: c in Step(s, a).0.pool && Held(c, AskedGame(s, a), AskedKind(s, a), a.inst) ==> c.secret == Step(s, a).1.secret
  {
    var row := RepliedRow(s, a);
    StepKeepsSystemOk(s, a);
    forall c | c in Step(s, a).0.pool && Held(c, AskedGame(s, a), AskedKind(s, a), a.inst)
      ensures c == row
    {
      HeldRowIsUnique(Step(s, a).0.pool, AskedGame(s, a), AskedKind(s, a), a.inst, c, row);
    }
  }

  /** Asking again while the credential is held returns the same secret and changes nothing. */
  lemma RepeatedAllocationIsIdempotent(s: System, inst: string, game: string, kind: string, c: Cred)
    requires SystemOk(s) && s.At(inst) == Idle && c in s.pool && Held(c, game, kind, inst)
    ensures Step(s, Find(inst, game, kind)) == (s, Secret(c.secret))
  {
    var held := FindAllocated(s.pool, game, kind, inst);
    assert c in held && held[0] in held;
    var i :| 0 <= i < |s.pool| && s.pool[i] == c;
    var j :| 0 <= j < |s.pool| && s.pool[j] == held[0];
    assert i == j;
  }

  /** After a release, the next allocation takes back a credential the instance used last, if one is free. */
  lemma ReallocationPrefersOldSecret(p: Pool, game: string, kind: string, inst: string)
    requires TableOk(p) && HoldsNone(p, game, kind, inst)
    requires exists c :: c in p && Listed(c, game, kind) && c.status == Available && c.last == Some(inst)
    ensures exists c :: c in p && Listed(c, game, kind) && c.status == Available && c.last == Some(inst)
                        && Allocate(p, game, kind, inst).1 == Some(c.secret)
  {
    var rows := ListByGame(p, game, kind);
    var c :| c in p && Listed(c, game, kind) && c.status == Available && c.last == Some(inst);
    assert c in rows && Wanted(c, true, inst);
  }

  /** An allocation comes away empty exactly when the instance holds nothing of the kind and nothing of it is available. */
  lemma AllocationFailsIff(p: Pool, game: string, kind: string, inst: string)
    ensures Allocate(p, game, kind, inst).1.None? <==>
              forall c :: c in p && c.game == game ==>
                !(c.kind == kind && c.status == InUse && c.holder == Some(inst)) && !((kind == "" || c.kind == kind) && c.status == Available)
  {
    var held, rows := FindAllocated(p, game, kind, inst), ListByGame(p, game, kind);
    if held != [] {
      assert held[0] in held;
    }
    forall c | c in p && c.game == game && (kind == "" || c.kind == kind) && c.status == Available
      ensures c in rows && Wanted(c, false, inst)
    {
    }
  }

  /** The row an allocation takes: available before, of the game and kind, held by the instance after, its secret the reply. */
  predicate TakenRow(c: Cred, d: Cred, game: string, kind: string, inst: string, secret: Option<string>) {
    && c.status == Available && c.game == game && (kind == "" || c.kind == kind)
    && d == c.(status := InUse, holder := Some(inst)) && secret == Some(c.secret)
  }

  /** It takes at most one row and leaves every other as it was. */
  lemma AllocationTakesOneRow(p: Pool, game: string, kind: string, inst: string, i: nat, j: nat)
    requires UniqueIds(p) && i < j < |p|
    ensures var (q, secret) := Allocate(p, game, kind, inst);
            && |q| == |p|
            && (q[i] == p[i] || TakenRow(p[i], q[i], game, kind, inst, secret))
            && (q[j] == p[j] || TakenRow(p[j], q[j], game, kind, inst, secret))
            && (q[i] == p[i] || q[j] == p[j])
  {
    var held, rows := FindAllocated(p, game, kind, inst), ListByGame(p, game, kind);
    if held == [] {
      var first, second := FirstWanted(rows, true, inst), FirstWanted(rows, false, inst);
      if first.Some? {
        OnlyRowOfItsId(p, first.value, i, j);
      } else if second.Some? {
        OnlyRowOfItsId(p, second.value, i, j);
      }
    }
  }

  lemma OnlyRowOfItsId(p: Pool, c: Cred, i: nat, j: nat)
    requires UniqueIds(p) && c in p && i < j < |p|
    ensures p[i].id == c.id ==> p[i] == c
    ensures p[j].id == c.id ==> p[j] == c
    ensures !(p[i].id == c.id && p[j].id == c.id)
  {
    var k :| 0 <= k < |p| && p[k] == c;
  }

  /** A release frees exactly the instance's rows, which then remember it; orphans and other instances' rows stay as they are. */
  lemma ReleaseFreesExactly(p: Pool, inst: string, k: nat)
    requires k < |p|
    ensures |ReleaseBy(p, inst)| == |p|
    ensures ReleaseBy(p, inst)[k] == if p[k].status == InUse && p[k].holder == Some(inst)
                                     then p[k].(status := Available, holder := None, last := Some(inst)) else p[k]
  {
  }

  /** Of the rows freed by a release, only the one just given back carries this instance as last user. */
  lemma OnlyOwnRowReusable(p: Pool, c: Cred, inst: string, d: Cred)
    requires TableOk(p) && c in p && Held(c, c.game, c.kind, inst) && c.kind != ""
    requires forall d :: d in p && d.last == Some(inst) && d.game == c.game && d.kind == c.kind ==> d.status != Available
    requires d in ReleaseBy(p, inst) && Listed(d, c.game, c.kind) && Wanted(d, true, inst)
    ensures d == ReleaseRow(c, inst)
  {
    var k :| 0 <= k < |p| && ReleaseRow(p[k], inst) == d;
    assert p[k] in p;
    assert Held(p[k], c.game, c.kind, inst);
    var i :| 0 <= i < |p| && p[i] == c;
    assert i == k;
  }

  /** Stop and start again: unless an older credential also came free, the same secret comes back. */
  lemma ReleaseThenReallocate(p: Pool, c: Cred, inst: string)
    requires TableOk(p) && c in p && Held(c, c.game, c.kind, inst) && c.kind != ""
    requires forall d :: d in p && d.last == Some(inst) && d.game == c.game && d.kind == c.kind ==> d.status != Available
    ensures Allocate(ReleaseBy(p, inst), c.game, c.kind, inst).1 == Some(c.secret)
  {
    var q := ReleaseBy(p, inst);
    ReleasedHoldsNone(p, inst, c.game, c.kind);
    HoldsNoneFindsNothing(q, c.game, c.kind, inst);
    var i :| 0 <= i < |p| && p[i] == c;
    assert q[i] in q && q[i] == ReleaseRow(c, inst);
    var rows := ListByGame(q, c.game, c.kind);
    assert q[i] in rows && Wanted(q[i], true, inst);
    OnlyOwnRowReusable(p, c, inst, FirstWanted(rows, true, inst).value);
  }

  lemma {:induction false} HoldsNoneFindsNothing(p: Pool, game: string, kind: string, inst: string)
    requires HoldsNone(p, game, kind, inst)
    ensures FindAllocated(p, game, kind, inst) == []
  {
    if p != [] {
      assert p[0] in p;
      HoldsNoneFindsNothing(p[1..], game, kind, inst);
    }
  }

  lemma ReleasedHoldsNone(p: Pool, inst: string, game: string, kind: string)
    ensures HoldsNone(ReleaseBy(p, inst), game, kind, inst)
  {
    var q := ReleaseBy(p, inst);
    forall d | d in q
      ensures !Held(d, game, kind, inst)
    {
      var k :| 0 <= k < |q| && q[k] == d;
      assert q[k] == ReleaseRow(p[k], inst);
    }
  }

  // ------------------------------------------------- the empty pool name

  /**
   * An allocation keeps every sound table sound exactly when it names a pool. With an empty name
   * the lookup of the instance's own credential finds nothing while the listing offers every kind.
   */
  lemma AllocationIsExclusiveIffPoolNamed(kind: string)
    ensures (forall p: Pool, game: string, inst: string :: TableOk(p) ==> TableOk(Allocate(p, game, kind, inst).0))
            <==> kind != ""
  {
    if kind != "" {
      forall p: Pool, game: string, inst: string | TableOk(p)
        ensures TableOk(Allocate(p, game, kind, inst).0)
      {
        NamedAllocationKeepsTable(p, game, kind, inst);
      }
    } else {
      UnnamedAllocationTakesTwo();
    }
  }

  lemma NamedAllocationKeepsTable(p: Pool, game: string, kind: string, inst: string)
    requires TableOk(p) && kind != ""
    ensures TableOk(Allocate(p, game, kind, inst).0)
  {
    var held := FindAllocated(p, game, kind, inst);
    if held == [] {
      ListingDescribesRows(p, game, kind);
      forall c | c in p
        ensures !Held(c, game, kind, inst)
      {
        assert c !in held;
      }
      var rows := ListByGame(p, game, kind);
      var first := FirstWanted(rows, true, inst);
      var pick := if first.Some? then first else FirstWanted(rows, false, inst);
      if pick.Some? {
        AcquirePreservesTable(p, pick.value.id, game, kind, inst);
      }
    }
  }

  lemma UnnamedAllocationTakesTwo()
    ensures exists p: Pool, game: string, inst: string :: TableOk(p) && !TableOk(Allocate(p, game, "", inst).0)
  {
    var a := Cred("1", "dst", "token", "s1", InUse, Some("i"), None);
    var b := Cred("2", "dst", "token", "s2", Available, None, None);
    var p := [a, b];
    assert TableOk(p);
    HoldsNoneFindsNothing(p, "dst", "", "i");
    assert p[1..] == [b] && [b][1..] == [];
    assert ListByGame([b], "dst", "") == [b];
    assert ListByGame(p, "dst", "") == [a, b];
    assert [a, b][1..] == [b];
    var q := Allocate(p, "dst", "", "i").0;
    assert q == Acquire(p, "2", "i");
    assert q[0].holder == q[1].holder && q[0].kind == q[1].kind;
    assert !TableOk(Allocate(p, "dst", "", "i").0);
  }
}
