/**
 * Subscription requests interleaved.  Requests run as transactions that lock, count, write and commit
 * (src/apps/subscriptions/serializers.py); `Steps` interleaves them at that granularity, with deletes
 * and with every save that writes back the target key of a copy loaded earlier
 * (src/apps/subscriptions/models.py).
 */
module SubscriptionProtocol {
  import opened Prelude
  import opened SubscriptionCaps

  datatype Stage = Begun | OwnerLocked | OwnerCounted | KeyLocked | KeyChecked | Written | Ended

  /**
   * A create, an update to another target, or a save that keeps the loaded target and so checks
   * nothing: an update of other fields, which inserts the row again when it is gone, or a save of some
   * columns (secret rotation, the digest), which fails then.
   */
  datatype Kind = Create | Retarget | Resave(inserts: bool)

  /** `id` and `owner` are those of the loaded copy; a create gets its `id` from its insert. */
  datatype Txn = Txn(kind: Kind, id: nat, owner: nat, key: string, stage: Stage)
  {
    predicate HoldsOwner() { kind.Create? && (stage.OwnerLocked? || OwnerPassed()) }

    predicate OwnerPassed() {
      kind.Create? && (stage.OwnerCounted? || stage.KeyLocked? || stage.KeyChecked? || stage.Written?)
    }

    predicate HoldsKey() { !kind.Resave? && key != "" && (stage.KeyLocked? || stage.KeyChecked? || stage.Written?) }

    predicate KeyPassed() { !kind.Resave? && key != "" && (stage.KeyChecked? || stage.Written?) }
  }

  type Txns = map<nat, Txn>

  /**
   * `owners` remembers the owner of every id ever used; ids are not reused.  Two counters that no step
   * reads: `revived`, per owner, counts the saves that inserted a deleted row again, `unchecked`, per
   * key, the saves that gave a row a key it did not have at that moment, without any check.
   */
  datatype State = State(
    rows: Rows, txns: Txns, owners: map<nat, nat>, revived: multiset<nat>, unchecked: multiset<string>)

  datatype Event =
    | BeginCreate(t: nat, owner: nat, key: string)
    | BeginUpdate(t: nat, id: nat, key: string)
    | BeginResave(t: nat, id: nat, inserts: bool)
    | LockOwner(t: nat)
    | CountOwner(t: nat)
    | LockKey(t: nat)
    | NoKey(t: nat)
    | CountKey(t: nat)
    | Insert(t: nat, id: nat)
    | Rewrite(t: nat)
    | Commit(t: nat)
    | Rollback(t: nat)
    | Delete(id: nat)

  predicate At(s: State, t: nat, stage: Stage) { t in s.txns && s.txns[t].stage == stage }

  /** Ready for the target check: a create after its count, an update right away. */
  predicate BeforeKey(s: State, t: nat) {
    (At(s, t, OwnerCounted) && s.txns[t].kind.Create?) || (At(s, t, Begun) && s.txns[t].kind.Retarget?)
  }

  /** Ready to save a loaded row: after the check, or without one. */
  predicate BeforeWrite(s: State, t: nat) {
    || (At(s, t, KeyChecked) && s.txns[t].kind.Retarget?)
    || (At(s, t, Begun) && s.txns[t].kind.Resave? && (s.txns[t].kind.inserts || s.txns[t].id in s.rows))
  }

  ghost predicate OwnerFree(s: State, owner: nat) {
    forall u | u in s.txns && s.txns[u].HoldsOwner() :: s.txns[u].owner != owner
  }

  ghost predicate KeyFree(s: State, key: string, c: Config) {
    forall u | u in s.txns && s.txns[u].HoldsKey() :: c.lockOf(s.txns[u].key) != c.lockOf(key)
  }

  ghost predicate RowFree(s: State, id: nat) {
    forall u | u in s.txns && s.txns[u].stage.Written? :: s.txns[u].id != id
  }

  ghost predicate Enabled(s: State, e: Event, c: Config) {
    match e
    case BeginCreate(t, _, _) => t !in s.txns
    case BeginUpdate(t, id, _) => t !in s.txns && id in s.rows
    case BeginResave(t, id, _) => t !in s.txns && id in s.rows
    case LockOwner(t) => At(s, t, Begun) && s.txns[t].kind.Create? && OwnerFree(s, s.txns[t].owner)
    case CountOwner(t) => At(s, t, OwnerLocked)
    case LockKey(t) => BeforeKey(s, t) && s.txns[t].key != "" && KeyFree(s, s.txns[t].key, c)
    case NoKey(t) => BeforeKey(s, t) && s.txns[t].key == ""
    case CountKey(t) => At(s, t, KeyLocked)
    case Insert(t, id) => At(s, t, KeyChecked) && s.txns[t].kind.Create? && id !in s.owners
    case Rewrite(t) => BeforeWrite(s, t) && RowFree(s, s.txns[t].id)
    case Commit(t) => At(s, t, Written)
    case Rollback(t) => t in s.txns && !s.txns[t].stage.Ended?
    case Delete(id) => id in s.rows && RowFree(s, id)
  }

  function Move(s: State, t: nat, stage: Stage): State
    requires t in s.txns
  {
    s.(txns := s.txns[t := s.txns[t].(stage := stage)])
  }

  predicate HasKey(rows: Rows, id: nat, key: string) { id in rows && rows[id].key == key }

  /** A commit that puts a row back. */
  predicate Revives(rows: Rows, x: Txn) { !x.kind.Create? && x.id !in rows }

  /** A commit that gives a row a key nobody checked. */
  predicate Unchecked(rows: Rows, x: Txn) { x.kind.Resave? && x.key != "" && !HasKey(rows, x.id, x.key) }

  function Committed(s: State, t: nat): State
    requires t in s.txns
  {
    var x := s.txns[t];
    State(s.rows[x.id := Sub(x.owner, x.key)], s.txns[t := x.(stage := Ended)], s.owners,
          if Revives(s.rows, x) then s.revived + multiset{x.owner} else s.revived,
          if Unchecked(s.rows, x) then s.unchecked + multiset{x.key} else s.unchecked)
  }

  ghost function Apply(s: State, e: Event, c: Config): State
    requires Enabled(s, e, c)
  {
    match e
    case BeginCreate(t, owner, key) => s.(txns := s.txns[t := Txn(Create, 0, owner, key, Begun)])
    case BeginUpdate(t, id, key) => s.(txns := s.txns[t := Txn(Retarget, id, s.rows[id].owner, key, Begun)])
    case BeginResave(t, id, inserts) =>
      s.(txns := s.txns[t := Txn(Resave(inserts), id, s.rows[id].owner, s.rows[id].key, Begun)])
    case LockOwner(t) => Move(s, t, OwnerLocked)
    case CountOwner(t) => Move(s, t, if |OwnedBy(s.rows, s.txns[t].owner)| >= c.maxSubs then Ended else OwnerCounted)
    case LockKey(t) => Move(s, t, KeyLocked)
    case NoKey(t) => Move(s, t, KeyChecked)
    case CountKey(t) =>
      var x := s.txns[t];
      Move(s, t, if |OtherOwners(s.rows, x.key, x.owner)| >= c.maxAccounts then Ended else KeyChecked)
    case Insert(t, id) =>
      s.(txns := s.txns[t := s.txns[t].(stage := Written, id := id)], owners := s.owners[id := s.txns[t].owner])
    case Rewrite(t) => Move(s, t, Written)
    case Commit(t) => Committed(s, t)
    case Rollback(t) => Move(s, t, Ended)
    case Delete(id) => s.(rows := s.rows - {id})
  }

  ghost predicate Steps(s: State, es: seq<Event>, s': State, c: Config)
    decreases |es|
  {
    if es == [] then s == s' else Enabled(s, es[0], c) && Steps(Apply(s, es[0], c), es[1..], s', c)
  }

  // ---------------------------------------------------------------------------------------------
  // The invariant, in five parts
  // ---------------------------------------------------------------------------------------------

  ghost predicate LocksExclusive(s: State, c: Config) {
    && (forall t, u | t in s.txns && u in s.txns && s.txns[t].HoldsOwner() && s.txns[u].HoldsOwner() ::
          s.txns[t].owner == s.txns[u].owner ==> t == u)
    && (forall t, u | t in s.txns && u in s.txns && s.txns[t].HoldsKey() && s.txns[u].HoldsKey() ::
          c.lockOf(s.txns[t].key) == c.lockOf(s.txns[u].key) ==> t == u)
  }

  ghost predicate OwnersKnown(s: State) {
    && (forall id | id in s.rows :: id in s.owners && s.owners[id] == s.rows[id].owner)
    && (forall t | t in s.txns && (!s.txns[t].kind.Create? || s.txns[t].stage.Written?) ::
          s.txns[t].id in s.owners && s.owners[s.txns[t].id] == s.txns[t].owner)
  }

  predicate StageFits(x: Txn) {
    && (x.kind.Retarget? ==> !x.stage.OwnerLocked? && !x.stage.OwnerCounted?)
    && (x.kind.Resave? ==> x.stage.Begun? || x.stage.Written? || x.stage.Ended?)
    && (x.stage.KeyLocked? ==> x.key != "")
  }

  /** A created row is nobody else's before its commit, and a save of some columns has its row. */
  ghost predicate RowKnown(s: State, x: Txn) {
    && (x.kind.Create? ==> x.id !in s.rows && forall u | u in s.txns && !s.txns[u].kind.Create? :: s.txns[u].id != x.id)
    && (x.kind == Resave(false) ==> x.id in s.rows)
  }

  /** One uncommitted write per row. */
  ghost predicate RowLocks(s: State) {
    && (forall t | t in s.txns :: StageFits(s.txns[t]))
    && (forall t | t in s.txns && s.txns[t].stage.Written? :: RowKnown(s, s.txns[t]))
    && (forall t, u | t in s.txns && u in s.txns && s.txns[t].stage.Written? && s.txns[u].stage.Written? ::
          s.txns[t].id == s.txns[u].id ==> t == u)
  }

  /** There still is room for `x` at its target. */
  predicate RoomAtKey(s: State, x: Txn, c: Config) {
    |OtherOwners(s.rows, x.key, x.owner)| < c.maxAccounts + s.unchecked[x.key]
  }

  predicate RoomAtOwner(s: State, x: Txn, c: Config) {
    |OwnedBy(s.rows, x.owner)| < c.maxSubs + s.revived[x.owner]
  }

  ghost predicate KeysBounded(s: State, c: Config) {
    && KeysWithin(s.rows, c, s.unchecked)
    && (forall t | t in s.txns && s.txns[t].KeyPassed() :: RoomAtKey(s, s.txns[t], c))
  }

  ghost predicate OwnersBounded(s: State, c: Config) {
    && (forall owner :: |OwnedBy(s.rows, owner)| <= c.maxSubs + s.revived[owner])
    && (forall t | t in s.txns && s.txns[t].OwnerPassed() :: RoomAtOwner(s, s.txns[t], c))
  }

  ghost predicate Bounded(s: State, c: Config) { KeysBounded(s, c) && OwnersBounded(s, c) }

  ghost predicate Inv(s: State, c: Config) {
    LocksExclusive(s, c) && OwnersKnown(s) && RowLocks(s) && Bounded(s, c)
  }

  /** Transactions only lose locks and passed checks, and keep what they ask for. */
  ghost predicate OnlyLoses(s: State, s': State) {
    forall u | u in s'.txns ::
      if u in s.txns then
        var x, y := s.txns[u], s'.txns[u];
        && x.owner == y.owner && x.key == y.key
        && (y.HoldsOwner() ==> x.HoldsOwner()) && (y.HoldsKey() ==> x.HoldsKey())
        && (y.OwnerPassed() ==> x.OwnerPassed()) && (y.KeyPassed() ==> x.KeyPassed())
      else !s'.txns[u].HoldsOwner() && !s'.txns[u].HoldsKey()
  }

  /** The steps that take a lock or pass a check. */
  predicate Gains(e: Event) { e.LockOwner? || e.CountOwner? || e.LockKey? || e.CountKey? }

  predicate Begins(e: Event) { e.BeginCreate? || e.BeginUpdate? || e.BeginResave? }

  lemma OthersOnlyLose(s: State, e: Event, c: Config)
    requires Enabled(s, e, c) && !Gains(e)
    ensures OnlyLoses(s, Apply(s, e, c))
  {
  }

  // Locks.

  lemma LosingKeepsLocks(s: State, s': State, c: Config)
    requires LocksExclusive(s, c) && OnlyLoses(s, s')
    ensures LocksExclusive(s', c)
  {
  }

  lemma MoveKeepsLocks(s: State, t: nat, stage: Stage, c: Config)
    requires LocksExclusive(s, c) && t in s.txns
    requires var y := s.txns[t].(stage := stage);
             && (y.HoldsOwner() ==> s.txns[t].HoldsOwner() || OwnerFree(s, y.owner))
             && (y.HoldsKey() ==> s.txns[t].HoldsKey() || KeyFree(s, y.key, c))
    ensures LocksExclusive(Move(s, t, stage), c)
  {
  }

  lemma GainKeepsLocks(s: State, e: Event, c: Config)
    requires LocksExclusive(s, c) && Enabled(s, e, c) && Gains(e)
    ensures LocksExclusive(Apply(s, e, c), c)
  {
    MoveKeepsLocks(s, e.t, Apply(s, e, c).txns[e.t].stage, c);
  }

  lemma {:induction false} StepKeepsLocks(s: State, e: Event, c: Config)
    requires LocksExclusive(s, c) && Enabled(s, e, c)
    ensures LocksExclusive(Apply(s, e, c), c)
  {
    if Gains(e) {
      GainKeepsLocks(s, e, c);
    } else {
      OthersOnlyLose(s, e, c);
      LosingKeepsLocks(s, Apply(s, e, c), c);
    }
  }

  // Owners and rows.

  lemma MoveKeepsKnown(s: State, t: nat, stage: Stage)
    requires OwnersKnown(s) && RowLocks(s) && t in s.txns && StageFits(s.txns[t].(stage := stage))
    requires stage.Written? ==> !s.txns[t].kind.Create? && RowFree(s, s.txns[t].id) && RowKnown(s, s.txns[t])
    ensures OwnersKnown(Move(s, t, stage)) && RowLocks(Move(s, t, stage))
  {
  }

  lemma CommitKeepsKnown(s: State, t: nat)
    requires OwnersKnown(s) && RowLocks(s) && At(s, t, Written)
    ensures OwnersKnown(Committed(s, t)) && RowLocks(Committed(s, t))
  {
    var s' := Committed(s, t);
    forall u | u in s'.txns && s'.txns[u].stage.Written? ensures RowKnown(s', s'.txns[u]) {
      assert s'.txns[u] == s.txns[u] && RowKnown(s, s.txns[u]);
    }
  }

  lemma InsertKeepsKnown(s: State, t: nat, id: nat, c: Config)
    requires OwnersKnown(s) && RowLocks(s) && Enabled(s, Insert(t, id), c)
    ensures OwnersKnown(Apply(s, Insert(t, id), c)) && RowLocks(Apply(s, Insert(t, id), c))
  {
  }

  lemma BeginKeepsKnown(s: State, e: Event, c: Config)
    requires OwnersKnown(s) && RowLocks(s) && Enabled(s, e, c) && (Begins(e) || e.Delete?)
    ensures OwnersKnown(Apply(s, e, c)) && RowLocks(Apply(s, e, c))
  {
  }

  lemma {:induction false} StepKeepsKnown(s: State, e: Event, c: Config)
    requires OwnersKnown(s) && RowLocks(s) && Enabled(s, e, c)
    ensures OwnersKnown(Apply(s, e, c)) && RowLocks(Apply(s, e, c))
  {
    if e.Commit? {
      CommitKeepsKnown(s, e.t);
    } else if e.Insert? {
      InsertKeepsKnown(s, e.t, e.id, c);
    } else if Begins(e) || e.Delete? {
      BeginKeepsKnown(s, e, c);
    } else {
      var stage := Apply(s, e, c).txns[e.t].stage;
      assert Apply(s, e, c) == Move(s, e.t, stage);
      MoveKeepsKnown(s, e.t, stage);
    }
  }

  // Bounds.

  lemma CommitKeepsKeysWithin(s: State, t: nat, c: Config)
    requires Inv(s, c) && Enabled(s, Commit(t), c)
    ensures KeysWithin(Committed(s, t).rows, c, Committed(s, t).unchecked)
  {
    var x, extra := s.txns[t], Committed(s, t).unchecked;
    if x.kind.Resave? && HasKey(s.rows, x.id, x.key) {
      assert s.rows[x.id := Sub(x.owner, x.key)] == s.rows;
    } else {
      if Unchecked(s.rows, x) {
        SubsetSize(OtherOwners(s.rows, x.key, x.owner), OwnersOf(s.rows, x.key));
      }
      CheckedWriteKeepsKeys(s.rows, x.id, Sub(x.owner, x.key), c, extra);
    }
  }

  /** A commit leaves the checks other transactions passed standing. */
  lemma CommitKeepsRoom(s: State, t: nat, y: Txn, c: Config)
    requires t in s.txns && RoomAtKey(s, y, c)
    requires var x := s.txns[t];
             x.key == y.key ==> Unchecked(s.rows, x) || s.rows[x.id := Sub(x.owner, x.key)] == s.rows
    ensures RoomAtKey(Committed(s, t), y, c)
  {
    var x := s.txns[t];
    WriteOthers(s.rows, x.id, Sub(x.owner, x.key), y.key, y.owner);
  }

  /** Beside a checked transaction, only saves without a check commit under its key. */
  lemma SameKeyCommit(s: State, t: nat, u: nat, c: Config)
    requires LocksExclusive(s, c) && OwnersKnown(s) && At(s, t, Written)
    requires u in s.txns && u != t && s.txns[u].KeyPassed()
    ensures var x := s.txns[t];
            x.key == s.txns[u].key ==> Unchecked(s.rows, x) || s.rows[x.id := Sub(x.owner, x.key)] == s.rows
  {
    var x := s.txns[t];
    if x.key == s.txns[u].key {
      assert x.kind.Resave?;
    }
  }

  lemma {:induction false} CommitKeepsKeys(s: State, t: nat, c: Config)
    requires Inv(s, c) && Enabled(s, Commit(t), c)
    ensures KeysBounded(Committed(s, t), c)
  {
    CommitKeepsKeysWithin(s, t, c);
    forall u | u in s.txns && u != t && s.txns[u].KeyPassed() ensures RoomAtKey(Committed(s, t), s.txns[u], c) {
      SameKeyCommit(s, t, u, c);
      CommitKeepsRoom(s, t, s.txns[u], c);
    }
  }

  lemma CommitKeepsOwners(s: State, t: nat, c: Config)
    requires Inv(s, c) && Enabled(s, Commit(t), c)
    ensures OwnersBounded(Committed(s, t), c)
  {
    var x, s' := s.txns[t], Committed(s, t);
    forall o ensures |OwnedBy(s'.rows, o)| <= c.maxSubs + s'.revived[o] {
      WriteOwned(s.rows, x.id, Sub(x.owner, x.key), o);
    }
    forall u | u in s'.txns && s'.txns[u].OwnerPassed() ensures RoomAtOwner(s', s'.txns[u], c) {
      WriteOwned(s.rows, x.id, Sub(x.owner, x.key), s.txns[u].owner);
    }
  }

  lemma DeleteKeepsBounds(s: State, id: nat, c: Config)
    requires Bounded(s, c) && Enabled(s, Delete(id), c)
    ensures Bounded(Apply(s, Delete(id), c), c)
  {
    var s' := Apply(s, Delete(id), c);
    forall key ensures |OwnersOf(s'.rows, key)| <= |OwnersOf(s.rows, key)| {
      DeleteShrinks(s.rows, id, key, 0);
    }
    forall owner ensures |OwnedBy(s'.rows, owner)| <= |OwnedBy(s.rows, owner)| {
      DeleteShrinks(s.rows, id, "", owner);
    }
    forall key, owner ensures |OtherOwners(s'.rows, key, owner)| <= |OtherOwners(s.rows, key, owner)| {
      DeleteShrinks(s.rows, id, key, owner);
      SubsetSize(OtherOwners(s'.rows, key, owner), OtherOwners(s.rows, key, owner));
    }
  }

  lemma LosingKeepsBounds(s: State, s': State, c: Config)
    requires Bounded(s, c) && OnlyLoses(s, s')
    requires s'.rows == s.rows && s'.revived == s.revived && s'.unchecked == s.unchecked
    ensures Bounded(s', c)
  {
  }

  lemma MoveKeepsBounds(s: State, t: nat, stage: Stage, c: Config)
    requires Bounded(s, c) && t in s.txns
    requires var y := s.txns[t].(stage := stage);
             (y.KeyPassed() ==> RoomAtKey(s, y, c)) && (y.OwnerPassed() ==> RoomAtOwner(s, y, c))
    ensures Bounded(Move(s, t, stage), c)
  {
  }

  /** A lock passes no check: what was passed before it still stands. */
  lemma LockKeepsBounds(s: State, t: nat, stage: Stage, c: Config)
    requires Bounded(s, c) && t in s.txns
    requires (stage.OwnerLocked? && s.txns[t].stage.Begun?) || (stage.KeyLocked? && BeforeKey(s, t))
    ensures Bounded(Move(s, t, stage), c)
  {
    assert s.txns[t].OwnerPassed() ==> RoomAtOwner(s, s.txns[t], c);
    MoveKeepsBounds(s, t, stage, c);
  }

  lemma CountOwnerKeepsBounds(s: State, t: nat, c: Config)
    requires Bounded(s, c) && Enabled(s, CountOwner(t), c)
    ensures Bounded(Apply(s, CountOwner(t), c), c)
  {
    if |OwnedBy(s.rows, s.txns[t].owner)| >= c.maxSubs {
      MoveKeepsBounds(s, t, Ended, c);
    } else {
      MoveKeepsBounds(s, t, OwnerCounted, c);
    }
  }

  lemma CountKeyKeepsBounds(s: State, t: nat, c: Config)
    requires Bounded(s, c) && Enabled(s, CountKey(t), c)
    ensures Bounded(Apply(s, CountKey(t), c), c)
  {
    var x := s.txns[t];
    assert x.OwnerPassed() ==> RoomAtOwner(s, x, c);
    if |OtherOwners(s.rows, x.key, x.owner)| >= c.maxAccounts {
      MoveKeepsBounds(s, t, Ended, c);
    } else {
      MoveKeepsBounds(s, t, KeyChecked, c);
    }
  }

  lemma GainKeepsBounds(s: State, e: Event, c: Config)
    requires Bounded(s, c) && Enabled(s, e, c) && Gains(e)
    ensures Bounded(Apply(s, e, c), c)
  {
    match e
    case LockOwner(t) => LockKeepsBounds(s, t, OwnerLocked, c);
    case CountOwner(t) => CountOwnerKeepsBounds(s, t, c);
    case LockKey(t) => LockKeepsBounds(s, t, KeyLocked, c);
    case CountKey(t) => CountKeyKeepsBounds(s, t, c);
  }

  lemma {:induction false} StepKeepsBounds(s: State, e: Event, c: Config)
    requires Inv(s, c) && Enabled(s, e, c)
    ensures Bounded(Apply(s, e, c), c)
  {
    if e.Commit? {
      CommitKeepsKeys(s, e.t, c);
      CommitKeepsOwners(s, e.t, c);
    } else if e.Delete? {
      DeleteKeepsBounds(s, e.id, c);
    } else if Gains(e) {
      GainKeepsBounds(s, e, c);
    } else {
      OthersOnlyLose(s, e, c);
      LosingKeepsBounds(s, Apply(s, e, c), c);
    }
  }

  lemma {:induction false} StepKeepsInv(s: State, e: Event, c: Config)
    requires Inv(s, c) && Enabled(s, e, c)
    ensures Inv(Apply(s, e, c), c)
  {
    StepKeepsLocks(s, e, c);
    StepKeepsKnown(s, e, c);
    StepKeepsBounds(s, e, c);
  }

  lemma {:induction false} StepsKeepInv(s: State, es: seq<Event>, s': State, c: Config)
    requires Inv(s, c) && Steps(s, es, s', c)
    ensures Inv(s', c)
    decreases |es|
  {
    if es != [] {
      StepKeepsInv(s, es[0], c);
      StepsKeepInv(Apply(s, es[0], c), es[1..], s', c);
    }
  }

  /** A quiet start: rows within the caps, no request running. */
  ghost predicate Start(s: State, c: Config) {
    && s.txns == map[] && s.revived == multiset{} && s.unchecked == multiset{}
    && KeyCap(s.rows, c) && OwnerCap(s.rows, c)
    && s.owners == map id | id in s.rows :: s.rows[id].owner
  }

  /**
   * In every interleaving a target exceeds its limit by at most the unchecked saves of its key, and an
   * owner his by at most the rows that saves put back; without such saves both caps hold.
   */
  lemma CapsHold(s: State, es: seq<Event>, s': State, c: Config)
    requires Start(s, c) && Steps(s, es, s', c)
    ensures forall key | key != "" :: |OwnersOf(s'.rows, key)| <= c.maxAccounts + s'.unchecked[key]
    ensures forall owner :: |OwnedBy(s'.rows, owner)| <= c.maxSubs + s'.revived[owner]
    ensures s'.unchecked == multiset{} ==> KeyCap(s'.rows, c)
    ensures s'.revived == multiset{} ==> OwnerCap(s'.rows, c)
  {
    StepsKeepInv(s, es, s', c);
  }
}
