/**
 * Exactly when the caps on subscriptions can be exceeded: a save of a copy loaded earlier is under way
 * that can still give a row a key nobody checks, or put a deleted row back.
 */
module SubscriptionExcess {
  import opened Prelude
  import opened SubscriptionCaps
  import opened SubscriptionProtocol

  /** No row is loaded for a save that keeps its target; `updates` allows loads for a change of target. */
  predicate NoLoads(es: seq<Event>, updates: bool) {
    forall e | e in es :: !e.BeginResave? && (updates || !e.BeginUpdate?)
  }

  ghost predicate Reaches(s: State, s': State, updates: bool, c: Config) {
    exists es :: Steps(s, es, s', c) && NoLoads(es, updates)
  }

  // ---------------------------------------------------------------------------------------------
  // Without a threat the counters stand still
  // ---------------------------------------------------------------------------------------------

  /** A running save that would put row `id` back. */
  predicate Reviver(s: State, u: nat, id: nat) {
    && u in s.txns && s.txns[u].id == id && !s.txns[u].stage.Ended?
    && (s.txns[u].kind.Retarget? || s.txns[u].kind == Resave(true))
  }

  /** A loaded copy with this key whose save may give a row the key without a check. */
  ghost predicate KeyThreat(s: State, t: nat, key: string) {
    && t in s.txns && s.txns[t].kind.Resave? && s.txns[t].key == key
    && var x := s.txns[t];
       || (x.stage.Begun? && (x.kind.inserts || x.id in s.rows || exists u :: Reviver(s, u, x.id)))
       || (x.stage.Written? && !HasKey(s.rows, x.id, key))
  }

  /** A loaded copy of this owner whose save may insert a row. */
  predicate OwnerThreat(s: State, t: nat, owner: nat) {
    && t in s.txns && Reviver(s, t, s.txns[t].id) && s.txns[t].owner == owner
    && !(s.txns[t].stage.Written? && s.txns[t].id in s.rows)
  }

  ghost predicate Known(s: State) { OwnersKnown(s) && RowLocks(s) }

  lemma CommittedRow(s: State, u: nat, id: nat, t: nat)
    requires Known(s) && At(s, u, Written) && s.txns[u].id == id && id !in s.rows
    requires t in s.txns && !s.txns[t].kind.Create? && s.txns[t].id == id
    ensures Reviver(s, u, id)
  {
    assert RowKnown(s, s.txns[u]);
  }

  /** A step moves at most one transaction, forward, and keeps what it loaded. */
  lemma {:induction false} TxnBefore(s: State, e: Event, t: nat, c: Config)
    requires Enabled(s, e, c) && t in Apply(s, e, c).txns && t in s.txns
    ensures var x, y := s.txns[t], Apply(s, e, c).txns[t];
            && y.kind == x.kind && y.key == x.key && y.owner == x.owner && (y.kind.Create? || y.id == x.id)
            && (!y.stage.Ended? ==> !x.stage.Ended?) && (y.stage.Begun? ==> y == x)
  {
    if e.Delete? || e.t != t {
      assert Apply(s, e, c).txns[t] == s.txns[t];
    } else if !e.Insert? {
      assert !Begins(e);
      var stage := Apply(s, e, c).txns[t].stage;
      assert Apply(s, e, c).txns[t] == s.txns[t].(stage := stage) && !stage.Begun?;
    }
  }

  lemma WriteBefore(s: State, e: Event, t: nat, c: Config)
    requires Enabled(s, e, c) && t in s.txns && !s.txns[t].kind.Create? && At(Apply(s, e, c), t, Written)
    ensures At(s, t, Written) || (e == Rewrite(t) && BeforeWrite(s, t))
  {
    if !e.Delete? && e.t == t {
      assert !Begins(e);
    }
  }

  lemma TxnBegins(s: State, e: Event, t: nat, c: Config)
    requires Enabled(s, e, c) && t in Apply(s, e, c).txns && t !in s.txns
    ensures Begins(e) && e.t == t && (e.BeginUpdate? ==> Apply(s, e, c).txns[t].id in s.rows)
    ensures e.BeginCreate? ==> Apply(s, e, c).txns[t].kind.Create?
  {
  }

  lemma ReviverWasThere(s: State, e: Event, u: nat, id: nat, c: Config)
    requires Enabled(s, e, c) && !e.BeginResave? && Reviver(Apply(s, e, c), u, id)
    ensures Reviver(s, u, id) || id in s.rows
  {
    if u in s.txns {
      TxnBefore(s, e, u, c);
    } else {
      TxnBegins(s, e, u, c);
    }
  }

  /** A copy that is only loaded: the row it needs does not come from nowhere. */
  lemma LoadedThreat(s: State, e: Event, t: nat, c: Config)
    requires Known(s) && Enabled(s, e, c) && !e.BeginResave? && At(s, t, Begun) && s.txns[t].kind.Resave?
    requires var id := s.txns[t].id; id in Apply(s, e, c).rows || exists u :: Reviver(Apply(s, e, c), u, id)
    ensures var id := s.txns[t].id; id in s.rows || exists u :: Reviver(s, u, id)
  {
    var id, s' := s.txns[t].id, Apply(s, e, c);
    if id !in s.rows {
      if id in s'.rows {
        CommittedRow(s, e.t, id, t);
      } else {
        var u :| Reviver(s', u, id);
        ReviverWasThere(s, e, u, id, c);
      }
    }
  }

  lemma KeyThreatWasThere(s: State, e: Event, t: nat, key: string, c: Config)
    requires Known(s) && Enabled(s, e, c) && !e.BeginResave? && KeyThreat(Apply(s, e, c), t, key)
    ensures KeyThreat(s, t, key)
  {
    if t !in s.txns {
      TxnBegins(s, e, t, c);
    } else {
      TxnBefore(s, e, t, c);
      if At(Apply(s, e, c), t, Written) {
        WriteBefore(s, e, t, c);
      }
      if At(s, t, Begun) && At(Apply(s, e, c), t, Begun) && !s.txns[t].kind.inserts {
        LoadedThreat(s, e, t, c);
      }
      if At(s, t, Written) && HasKey(s.rows, s.txns[t].id, key) {
      }
    }
  }

  lemma {:induction false} OwnerThreatWasThere(s: State, e: Event, t: nat, owner: nat, c: Config)
    requires Known(s) && Enabled(s, e, c) && !e.BeginResave? && !e.BeginUpdate? && OwnerThreat(Apply(s, e, c), t, owner)
    ensures OwnerThreat(s, t, owner)
  {
    if t !in s.txns {
      TxnBegins(s, e, t, c);
    } else {
      TxnBefore(s, e, t, c);
      if At(s, t, Written) && s.txns[t].id in s.rows {
        WrittenStays(s, e, t, c);
      }
    }
  }

  lemma WrittenStays(s: State, e: Event, t: nat, c: Config)
    requires Enabled(s, e, c) && At(s, t, Written) && t in Apply(s, e, c).txns && !Apply(s, e, c).txns[t].stage.Ended?
    requires StageFits(s.txns[t])
    ensures At(Apply(s, e, c), t, Written)
  {
  }

  lemma KeyCounterStands(s: State, e: Event, key: string, c: Config)
    requires Enabled(s, e, c) && forall t :: !KeyThreat(s, t, key)
    ensures Apply(s, e, c).unchecked[key] == s.unchecked[key]
  {
    if e.Commit? {
      assert !KeyThreat(s, e.t, key);
    }
  }

  lemma OwnerCounterStands(s: State, e: Event, owner: nat, c: Config)
    requires RowLocks(s) && Enabled(s, e, c) && forall t :: !OwnerThreat(s, t, owner)
    ensures Apply(s, e, c).revived[owner] == s.revived[owner]
  {
    if e.Commit? {
      assert !OwnerThreat(s, e.t, owner) && RowKnown(s, s.txns[e.t]);
    }
  }

  lemma {:induction false} NoKeyThreat(s: State, es: seq<Event>, s': State, key: string, c: Config)
    requires Inv(s, c) && Steps(s, es, s', c) && NoLoads(es, true) && forall t :: !KeyThreat(s, t, key)
    ensures s'.unchecked[key] == s.unchecked[key]
    decreases |es|
  {
    if es != [] {
      var e := es[0];
      assert NoLoads(es[1..], true);
      forall t ensures !KeyThreat(Apply(s, e, c), t, key) {
        if KeyThreat(Apply(s, e, c), t, key) {
          KeyThreatWasThere(s, e, t, key, c);
        }
      }
      KeyCounterStands(s, e, key, c);
      StepKeepsInv(s, e, c);
      NoKeyThreat(Apply(s, e, c), es[1..], s', key, c);
    }
  }

  lemma {:induction false} NoOwnerThreat(s: State, es: seq<Event>, s': State, owner: nat, c: Config)
    requires Inv(s, c) && Steps(s, es, s', c) && NoLoads(es, false) && forall t :: !OwnerThreat(s, t, owner)
    ensures s'.revived[owner] == s.revived[owner]
    decreases |es|
  {
    if es != [] {
      var e := es[0];
      assert NoLoads(es[1..], false);
      forall t ensures !OwnerThreat(Apply(s, e, c), t, owner) {
        if OwnerThreat(Apply(s, e, c), t, owner) {
          OwnerThreatWasThere(s, e, t, owner, c);
        }
      }
      OwnerCounterStands(s, e, owner, c);
      StepKeepsInv(s, e, c);
      NoOwnerThreat(Apply(s, e, c), es[1..], s', owner, c);
    }
  }

  // ---------------------------------------------------------------------------------------------
  // Runs, piece by piece
  // ---------------------------------------------------------------------------------------------

  lemma Stays(s: State, updates: bool, c: Config)
    ensures Reaches(s, s, updates, c)
  {
    assert Steps(s, [], s, c) && NoLoads([], updates);
  }

  lemma {:induction false} StepsAppend(s: State, es: seq<Event>, mid: State, fs: seq<Event>, s': State, c: Config)
    requires Steps(s, es, mid, c) && Steps(mid, fs, s', c)
    ensures Steps(s, es + fs, s', c)
    decreases |es|
  {
    if es == [] {
      assert es + fs == fs;
    } else {
      assert (es + fs)[1..] == es[1..] + fs;
      StepsAppend(Apply(s, es[0], c), es[1..], mid, fs, s', c);
    }
  }

  lemma Then(s: State, mid: State, s': State, updates: bool, c: Config)
    requires Reaches(s, mid, updates, c) && Reaches(mid, s', updates, c)
    ensures Reaches(s, s', updates, c)
  {
    var es :| Steps(s, es, mid, c) && NoLoads(es, updates);
    var fs :| Steps(mid, fs, s', c) && NoLoads(fs, updates);
    StepsAppend(s, es, mid, fs, s', c);
    assert NoLoads(es + fs, updates);
  }

  lemma One(s: State, e: Event, updates: bool, c: Config)
    requires Enabled(s, e, c) && !e.BeginResave? && (updates || !e.BeginUpdate?)
    ensures Reaches(s, Apply(s, e, c), updates, c)
  {
    var s' := Apply(s, e, c);
    assert [e][1..] == [] && Steps(s', [], s', c);
    assert Steps(s, [e], s', c) && NoLoads([e], updates);
  }

  lemma Two(s: State, e: Event, f: Event, c: Config)
    requires Enabled(s, e, c) && !Begins(e) && Enabled(Apply(s, e, c), f, c) && !Begins(f)
    ensures Reaches(s, Apply(Apply(s, e, c), f, c), false, c)
  {
    One(s, e, false, c);
    One(Apply(s, e, c), f, false, c);
    Then(s, Apply(s, e, c), Apply(Apply(s, e, c), f, c), false, c);
  }

  lemma ReachKeepsInv(s: State, s': State, updates: bool, c: Config)
    requires Inv(s, c) && Reaches(s, s', updates, c)
    ensures Inv(s', c)
  {
    var es :| Steps(s, es, s', c) && NoLoads(es, updates);
    StepsKeepInv(s, es, s', c);
  }

  /** Every transaction outside `keep` holds nothing. */
  predicate Idle(s: State, keep: set<nat>) {
    forall u | u in s.txns && u !in keep :: s.txns[u].stage.Begun? || s.txns[u].stage.Ended?
  }

  function Busy(s: State, keep: set<nat>): set<nat> {
    set u | u in s.txns && u !in keep && !s.txns[u].stage.Ended?
  }

  /** The others can always be rolled back. */
  lemma {:induction false} RollbackOthers(s: State, keep: set<nat>, c: Config) returns (s': State)
    ensures Reaches(s, s', false, c) && s' == s.(txns := s'.txns) && s'.txns.Keys == s.txns.Keys && Idle(s', keep)
    ensures forall u | u in keep && u in s.txns :: s'.txns[u] == s.txns[u]
    decreases |Busy(s, keep)|
  {
    if Busy(s, keep) == {} {
      Stays(s, false, c);
      s' := s;
      assert forall u | u in s.txns :: u !in Busy(s, keep);
    } else {
      assert |Busy(s, keep)| != 0;
      var u :| u in Busy(s, keep);
      var mid := Move(s, u, Ended);
      assert Busy(mid, keep) == Busy(s, keep) - {u};
      One(s, Rollback(u), false, c);
      s' := RollbackOthers(mid, keep, c);
      Then(s, mid, s', false, c);
    }
  }

  lemma {:induction false} DeleteAll(s: State, ids: set<nat>, c: Config)
    requires ids <= s.rows.Keys && forall id | id in ids :: RowFree(s, id)
    ensures Reaches(s, s.(rows := s.rows - ids), false, c)
    decreases |ids|
  {
    if ids == {} {
      assert s.rows - ids == s.rows;
      Stays(s, false, c);
    } else {
      assert |ids| != 0;
      var id :| id in ids;
      var mid := Apply(s, Delete(id), c);
      One(s, Delete(id), false, c);
      DeleteAll(mid, ids - {id}, c);
      assert mid.rows - (ids - {id}) == s.rows - ids;
      Then(s, mid, s.(rows := s.rows - ids), false, c);
    }
  }

  lemma PassesKey(s: State, t: nat, c: Config)
    requires BeforeKey(s, t)
    requires s.txns[t].key != "" ==> KeyFree(s, s.txns[t].key, c)
    requires s.txns[t].key != "" ==> |OtherOwners(s.rows, s.txns[t].key, s.txns[t].owner)| < c.maxAccounts
    ensures Reaches(s, Move(s, t, KeyChecked), false, c)
  {
    if s.txns[t].key == "" {
      One(s, NoKey(t), false, c);
    } else {
      var s1 := Apply(s, LockKey(t), c);
      assert s1 == Move(s, t, KeyLocked);
      assert Apply(s1, CountKey(t), c) == Move(s, t, KeyChecked);
      Two(s, LockKey(t), CountKey(t), c);
    }
  }

  lemma PassesOwner(s: State, t: nat, c: Config)
    requires At(s, t, Begun) && s.txns[t].kind.Create? && OwnerFree(s, s.txns[t].owner)
    requires |OwnedBy(s.rows, s.txns[t].owner)| < c.maxSubs
    ensures Reaches(s, Move(s, t, OwnerCounted), false, c)
  {
    var s1 := Apply(s, LockOwner(t), c);
    assert Apply(s1, CountOwner(t), c) == Move(s, t, OwnerCounted);
    Two(s, LockOwner(t), CountOwner(t), c);
  }

  /** Only rows and transactions of new ids are added. */
  predicate Extends(s: State, s': State) {
    && s'.revived == s.revived && s'.unchecked == s.unchecked
    && (forall u | u in s.txns :: u in s'.txns && s'.txns[u] == s.txns[u])
    && (forall u | u in s'.txns && u !in s.txns :: s'.txns[u].stage.Ended?)
    && (forall id | id in s.rows :: id in s'.rows && s'.rows[id] == s.rows[id])
    && (forall id | id in s.owners :: id in s'.owners && (id in s'.rows ==> id in s.rows))
  }

  lemma ExtendsTrans(a: State, b: State, d: State)
    requires Extends(a, b) && Extends(b, d)
    ensures Extends(a, d)
  {
  }

  /** A create that finds room runs through. */
  lemma CreateRuns(s: State, owner: nat, key: string, c: Config) returns (s': State, id: nat)
    requires OwnersKnown(s) && OwnerFree(s, owner) && |OwnedBy(s.rows, owner)| < c.maxSubs
    requires key != "" ==> KeyFree(s, key, c) && |OtherOwners(s.rows, key, owner)| < c.maxAccounts
    ensures Reaches(s, s', false, c) && Extends(s, s')
    ensures id !in s.rows && s'.rows == s.rows[id := Sub(owner, key)]
  {
    var t := FreshNat(s.txns.Keys);
    id := FreshNat(s.owners.Keys);
    var x := Txn(Create, 0, owner, key, Begun);
    var s3 := s.(txns := s.txns[t := x.(stage := KeyChecked)]);
    CreatePasses(s, t, x, c);
    s' := InsertRuns(s3, t, id, c);
    Then(s, s3, s', false, c);
    assert s'.txns == s.txns[t := x.(stage := Ended, id := id)];
  }

  lemma CreateCounted(s: State, t: nat, x: Txn, c: Config)
    requires t !in s.txns && OwnerFree(s, x.owner) && |OwnedBy(s.rows, x.owner)| < c.maxSubs
    requires x == Txn(Create, 0, x.owner, x.key, Begun)
    ensures Reaches(s, s.(txns := s.txns[t := x.(stage := OwnerCounted)]), false, c)
  {
    var s1 := s.(txns := s.txns[t := x]);
    var s2 := s.(txns := s.txns[t := x.(stage := OwnerCounted)]);
    One(s, BeginCreate(t, x.owner, x.key), false, c);
    PassesOwner(s1, t, c);
    assert Move(s1, t, OwnerCounted) == s2;
    Then(s, s1, s2, false, c);
  }

  lemma CreatePasses(s: State, t: nat, x: Txn, c: Config)
    requires t !in s.txns && OwnerFree(s, x.owner) && |OwnedBy(s.rows, x.owner)| < c.maxSubs
    requires x.key != "" ==> KeyFree(s, x.key, c) && |OtherOwners(s.rows, x.key, x.owner)| < c.maxAccounts
    requires x == Txn(Create, 0, x.owner, x.key, Begun)
    ensures Reaches(s, s.(txns := s.txns[t := x.(stage := KeyChecked)]), false, c)
  {
    var s2 := s.(txns := s.txns[t := x.(stage := OwnerCounted)]);
    var s3 := s.(txns := s.txns[t := x.(stage := KeyChecked)]);
    CreateCounted(s, t, x, c);
    PassesKey(s2, t, c);
    assert Move(s2, t, KeyChecked) == s3;
    Then(s, s2, s3, false, c);
  }

  lemma InsertRuns(s: State, t: nat, id: nat, c: Config) returns (s': State)
    requires At(s, t, KeyChecked) && s.txns[t].kind.Create? && id !in s.owners
    ensures Reaches(s, s', false, c)
    ensures s' == State(s.rows[id := Sub(s.txns[t].owner, s.txns[t].key)],
        s.txns[t := s.txns[t].(stage := Ended, id := id)],
                        s.owners[id := s.txns[t].owner], s.revived, s.unchecked)
  {
    var s1 := Apply(s, Insert(t, id), c);
    Two(s, Insert(t, id), Commit(t), c);
    s' := Committed(s1, t);
  }

  /** Nothing stands in the way of save `t`: it needs no check or there is room, and a row if it needs one. */
  ghost predicate CanSave(s: State, t: nat, c: Config) {
    && t in s.txns && Idle(s, {t}) && StageFits(s.txns[t])
    && var x := s.txns[t];
       && !x.kind.Create? && !x.stage.Ended?
       && (x.kind.Retarget? && x.key != "" ==> |OtherOwners(s.rows, x.key, x.owner)| < c.maxAccounts)
       && (x.kind == Resave(false) ==> x.id in s.rows)
  }

  lemma SaveRuns(s: State, t: nat, c: Config)
    requires CanSave(s, t, c)
    ensures Reaches(s, Committed(s, t), false, c)
  {
    if At(s, t, Written) {
      One(s, Commit(t), false, c);
    } else {
      ReadyToWrite(s, t, c);
      if BeforeWrite(s, t) {
        WriteRuns(s, t, c);
      } else {
        CommitIgnoresStage(s, t, KeyChecked);
        WriteRuns(Move(s, t, KeyChecked), t, c);
        Then(s, Move(s, t, KeyChecked), Committed(s, t), false, c);
      }
    }
  }

  lemma CommitIgnoresStage(s: State, t: nat, stage: Stage)
    requires t in s.txns && Idle(s, {t})
    ensures Committed(Move(s, t, stage), t) == Committed(s, t) && Idle(Move(s, t, stage), {t})
  {
  }

  lemma WriteRuns(s: State, t: nat, c: Config)
    requires BeforeWrite(s, t) && Idle(s, {t})
    ensures Reaches(s, Committed(s, t), false, c)
  {
    CommitIgnoresStage(s, t, Written);
    Two(s, Rewrite(t), Commit(t), c);
  }

  lemma ReadyToWrite(s: State, t: nat, c: Config)
    requires CanSave(s, t, c) && !s.txns[t].stage.Written?
    ensures var s1 := if BeforeWrite(s, t) then s else Move(s, t, KeyChecked);
            Reaches(s, s1, false, c) && BeforeWrite(s1, t)
  {
    if BeforeWrite(s, t) {
      Stays(s, false, c);
    } else if At(s, t, KeyLocked) {
      assert Apply(s, CountKey(t), c) == Move(s, t, KeyChecked);
      One(s, CountKey(t), false, c);
    } else {
      PassesKey(s, t, c);
    }
  }

  /** Everybody but one save holds nothing. */
  ghost predicate Alone(s: State, t: nat, c: Config) {
    Inv(s, c) && Idle(s, {t}) && t in s.txns && !s.txns[t].kind.Create?
  }

  lemma {:induction false} AloneAfter(s: State, s': State, t: nat, updates: bool, c: Config)
    requires Alone(s, t, c) && Reaches(s, s', updates, c) && Extends(s, s')
    ensures Alone(s', t, c)
  {
    ReachKeepsInv(s, s', updates, c);
  }

  lemma FreshOwner(rows: Rows, key: string, owner: nat) returns (novel: nat)
    ensures novel != owner && OwnedBy(rows, novel) == {}
    ensures novel !in OwnersOf(rows, key) && OtherOwners(rows, key, novel) == OwnersOf(rows, key)
  {
    var used := (set id | id in rows :: rows[id].owner) + {owner};
    novel := FreshNat(used);
    forall id | id in rows ensures rows[id].owner != novel {
      assert rows[id].owner in used;
    }
  }

  /** Accounts can join a target until it is full. */
  lemma {:induction false} FillKey(s: State, t: nat, key: string, owner: nat, c: Config) returns (s': State)
    requires Alone(s, t, c) && s.txns[t].kind.Resave? && key != "" && c.maxSubs > 0
    requires owner !in OwnersOf(s.rows, key)
    ensures Reaches(s, s', false, c) && Extends(s, s') && owner !in OwnersOf(s'.rows, key)
    ensures |OwnersOf(s'.rows, key)| >= c.maxAccounts
    decreases c.maxAccounts - |OwnersOf(s.rows, key)|
  {
    var at := OwnersOf(s.rows, key);
    if |at| >= c.maxAccounts {
      Stays(s, false, c);
      s' := s;
    } else {
      var novel := FreshOwner(s.rows, key, owner);
      var mid, id := CreateRuns(s, novel, key, c);
      NewOwner(s.rows, id, novel, key);
      AloneAfter(s, mid, t, false, c);
      s' := FillKey(mid, t, key, owner, c);
      Then(s, mid, s', false, c);
      ExtendsTrans(s, mid, s');
    }
  }

  lemma NewOwner(rows: Rows, id: nat, owner: nat, key: string)
    requires !HasKey(rows, id, key) && owner !in OwnersOf(rows, key)
    ensures OwnersOf(rows[id := Sub(owner, key)], key) == OwnersOf(rows, key) + {owner}
  {
    var rows' := rows[id := Sub(owner, key)];
    assert id in rows' && rows'[id].key == key && rows'[id].owner == owner;
    forall o | o in OwnersOf(rows, key) ensures o in OwnersOf(rows', key) {
      var i :| i in rows && rows[i].key == key && rows[i].owner == o;
      assert i in rows' && rows'[i] == rows[i];
    }
  }

  /** An owner can add subscriptions without target until he is full. */
  lemma {:induction false} FillOwner(s: State, t: nat, owner: nat, c: Config) returns (s': State)
    requires Alone(s, t, c)
    ensures Reaches(s, s', false, c) && Extends(s, s') && |OwnedBy(s'.rows, owner)| >= c.maxSubs
    ensures forall id | id in s'.rows && id !in s.rows :: s'.rows[id].key == ""
    decreases c.maxSubs - |OwnedBy(s.rows, owner)|
  {
    if |OwnedBy(s.rows, owner)| >= c.maxSubs {
      Stays(s, false, c);
      s' := s;
    } else {
      var mid, id := CreateRuns(s, owner, "", c);
      WriteOwned(s.rows, id, Sub(owner, ""), owner);
      AloneAfter(s, mid, t, false, c);
      s' := FillOwner(mid, t, owner, c);
      Then(s, mid, s', false, c);
      ExtendsTrans(s, mid, s');
    }
  }

  /** All rows at a target, except one that is being written, can be deleted. */
  function RowsAt(rows: Rows, key: string): set<nat> { set id | id in rows && rows[id].key == key }

  lemma EmptyTarget(s: State, t: nat, key: string, c: Config) returns (s': State)
    requires Alone(s, t, c) && s.txns[t].id !in s.rows
    ensures Reaches(s, s', false, c) && s' == s.(rows := s.rows - RowsAt(s.rows, key)) && Alone(s', t, c)
    ensures OwnersOf(s'.rows, key) == {}
  {
    DeleteAll(s, RowsAt(s.rows, key), c);
    s' := s.(rows := s.rows - RowsAt(s.rows, key));
    ReachKeepsInv(s, s', false, c);
  }

  /** A save that would put its row back does so, given room at its target. */
  lemma ReviveRuns(s: State, u: nat, c: Config) returns (s': State)
    requires Alone(s, u, c) && Reviver(s, u, s.txns[u].id) && s.txns[u].id !in s.rows && c.maxAccounts > 0
    ensures Reaches(s, s', false, c) && s.txns[u].id in s'.rows
    ensures s'.txns == s.txns[u := s.txns[u].(stage := Ended)]
  {
    var x := s.txns[u];
    var mid := EmptyTarget(s, u, x.key, c);
    assert OtherOwners(mid.rows, x.key, x.owner) == {};
    assert StageFits(mid.txns[u]);
    SaveRuns(mid, u, c);
    s' := Committed(mid, u);
    Then(s, mid, s', false, c);
  }

  /** A row nobody writes can be moved to no target. */
  lemma MoveAway(s: State, r: nat, c: Config) returns (s': State)
    requires Inv(s, c) && Idle(s, {}) && r in s.rows
    ensures Reaches(s, s', true, c) && r in s'.rows && s'.rows[r].key == ""
    ensures forall u | u in s.txns :: u in s'.txns && s'.txns[u] == s.txns[u]
    ensures Idle(s', {})
  {
    var v := FreshNat(s.txns.Keys);
    var x := Txn(Retarget, r, s.rows[r].owner, "", Begun);
    var mid := s.(txns := s.txns[v := x]);
    One(s, BeginUpdate(v, r, ""), true, c);
    SaveRuns(mid, v, c);
    s' := Committed(mid, v);
    Then(s, mid, s', true, c);
  }

  // ---------------------------------------------------------------------------------------------
  // A threat can always be carried out
  // ---------------------------------------------------------------------------------------------

  /** The save is alone, can run through, and its row does not have the key now. */
  ghost predicate Poised(s: State, t: nat, x: Txn, c: Config) {
    && Alone(s, t, c) && s.txns[t] == x && x.kind.Resave? && !x.stage.Ended?
    && (x.kind.inserts || x.id in s.rows) && !HasKey(s.rows, x.id, x.key)
  }

  /** With its row present, or none needed, a loaded copy gets poised. */
  lemma Detach(s: State, t: nat, c: Config) returns (s': State)
    requires Inv(s, c) && Idle(s, {}) && At(s, t, Begun) && s.txns[t].kind.Resave? && s.txns[t].key != ""
    requires s.txns[t].kind.inserts || s.txns[t].id in s.rows
    ensures Reaches(s, s', true, c) && Poised(s', t, s.txns[t], c)
  {
    if HasKey(s.rows, s.txns[t].id, s.txns[t].key) {
      s' := MoveAway(s, s.txns[t].id, c);
      ReachKeepsInv(s, s', true, c);
    } else {
      Stays(s, true, c);
      s' := s;
    }
  }

  lemma Prepare(s: State, t: nat, key: string, c: Config) returns (s': State)
    requires Inv(s, c) && KeyThreat(s, t, key) && key != "" && c.maxAccounts > 0
    ensures Reaches(s, s', true, c) && Poised(s', t, s.txns[t], c)
  {
    var x := s.txns[t];
    if x.stage.Begun? && !x.kind.inserts && x.id !in s.rows {
      var u :| Reviver(s, u, x.id);
      s' := PrepareRevived(s, t, u, c);
    } else {
      var mid := RollbackOthers(s, {t}, c);
      ReachKeepsInv(s, mid, false, c);
      if x.stage.Begun? {
        s' := Detach(mid, t, c);
        Then(s, mid, s', true, c);
      } else {
        assert RowKnown(s, x);
        s' := mid;
      }
    }
  }

  lemma PrepareRevived(s: State, t: nat, u: nat, c: Config) returns (s': State)
    requires Inv(s, c) && At(s, t, Begun) && s.txns[t].kind == Resave(false) && s.txns[t].key != ""
    requires s.txns[t].id !in s.rows && Reviver(s, u, s.txns[t].id) && c.maxAccounts > 0
    ensures Reaches(s, s', true, c) && Poised(s', t, s.txns[t], c)
  {
    var mid := ReviveBeside(s, t, u, c);
    ReachKeepsInv(s, mid, false, c);
    s' := Detach(mid, t, c);
    Then(s, mid, s', true, c);
  }

  /** While copy `t` is loaded, save `u` puts the row back. */
  lemma ReviveBeside(s: State, t: nat, u: nat, c: Config) returns (s': State)
    requires Inv(s, c) && At(s, t, Begun) && t != u && c.maxAccounts > 0
    requires s.txns[t].id !in s.rows && Reviver(s, u, s.txns[t].id)
    ensures Reaches(s, s', false, c) && Idle(s', {}) && s.txns[t].id in s'.rows
    ensures t in s'.txns && s'.txns[t] == s.txns[t]
  {
    var mid := RollbackOthers(s, {t, u}, c);
    ReachKeepsInv(s, mid, false, c);
    s' := ReviveRuns(mid, u, c);
    Then(s, mid, s', false, c);
  }

  lemma WithoutOwner(s: State, t: nat, x: Txn, c: Config) returns (s': State)
    requires Poised(s, t, x, c)
    ensures Reaches(s, s', false, c) && Poised(s', t, x, c) && x.owner !in OwnersOf(s'.rows, x.key)
  {
    var ids := set id | id in s.rows && s.rows[id].owner == x.owner && s.rows[id].key == x.key;
    DeleteAll(s, ids, c);
    s' := s.(rows := s.rows - ids);
    ReachKeepsInv(s, s', false, c);
  }

  /** Others fill the target. */
  lemma Crowd(s: State, t: nat, x: Txn, c: Config) returns (s': State)
    requires Poised(s, t, x, c) && x.key != "" && c.maxSubs > 0
    ensures Reaches(s, s', false, c) && Poised(s', t, x, c)
    ensures x.owner !in OwnersOf(s'.rows, x.key) && |OwnersOf(s'.rows, x.key)| >= c.maxAccounts
  {
    var mid := WithoutOwner(s, t, x, c);
    s' := FillKey(mid, t, x.key, x.owner, c);
    Then(s, mid, s', false, c);
    AloneAfter(mid, s', t, false, c);
    assert x.id in mid.owners;
  }

  lemma Strike(s: State, t: nat, x: Txn, c: Config) returns (s': State)
    requires Poised(s, t, x, c) && x.key != "" && c.maxSubs > 0
    ensures Reaches(s, s', false, c) && |OwnersOf(s'.rows, x.key)| > c.maxAccounts
  {
    var mid := Crowd(s, t, x, c);
    assert StageFits(mid.txns[t]);
    SaveRuns(mid, t, c);
    s' := Committed(mid, t);
    NewOwner(mid.rows, x.id, x.owner, x.key);
    Then(s, mid, s', false, c);
  }

  lemma KeyThreatExceeds(s: State, t: nat, key: string, c: Config) returns (s': State)
    requires Inv(s, c) && KeyThreat(s, t, key) && key != "" && c.maxAccounts > 0 && c.maxSubs > 0
    ensures Reaches(s, s', true, c) && |OwnersOf(s'.rows, key)| > c.maxAccounts
  {
    var mid := Prepare(s, t, key, c);
    s' := Strike(mid, t, s.txns[t], c);
    Then(s, mid, s', true, c);
  }

  /** The row is gone and the target has room. */
  lemma Vacate(s: State, t: nat, owner: nat, c: Config) returns (s': State)
    requires Inv(s, c) && OwnerThreat(s, t, owner)
    ensures Reaches(s, s', false, c) && Alone(s', t, c) && s'.txns[t] == s.txns[t] && s.txns[t].id !in s'.rows
    ensures OwnersOf(s'.rows, s.txns[t].key) == {}
  {
    var x := s.txns[t];
    var s1 := RollbackOthers(s, {t}, c);
    ReachKeepsInv(s, s1, false, c);
    var s2 := s1.(rows := s1.rows - {x.id});
    if x.id in s1.rows {
      One(s1, Delete(x.id), false, c);
    } else {
      assert s2 == s1;
      Stays(s1, false, c);
    }
    ReachKeepsInv(s1, s2, false, c);
    Then(s, s1, s2, false, c);
    s' := EmptyTarget(s2, t, x.key, c);
    Then(s, s2, s', false, c);
  }

  lemma OwnerThreatExceeds(s: State, t: nat, owner: nat, c: Config) returns (s': State)
    requires Inv(s, c) && OwnerThreat(s, t, owner) && c.maxAccounts > 0
    ensures Reaches(s, s', false, c) && |OwnedBy(s'.rows, owner)| > c.maxSubs
  {
    var x := s.txns[t];
    var s1 := Vacate(s, t, owner, c);
    var s2 := FillOwner(s1, t, owner, c);
    Then(s, s1, s2, false, c);
    AloneAfter(s1, s2, t, false, c);
    assert x.id in s1.owners && x.id !in s2.rows && StageFits(s2.txns[t]);
    if x.key != "" {
      RowsAtNobody(s1.rows, s2.rows, x.key);
      assert OtherOwners(s2.rows, x.key, owner) == {};
    }
    SaveRuns(s2, t, c);
    s' := Committed(s2, t);
    WriteOwned(s2.rows, x.id, Sub(owner, x.key), owner);
    Then(s, s2, s', false, c);
  }

  lemma RowsAtNobody(rows: Rows, rows': Rows, key: string)
    requires OwnersOf(rows, key) == {} && key != ""
    requires forall id | id in rows :: id in rows' && rows'[id] == rows[id]
    requires forall id | id in rows' && id !in rows :: rows'[id].key == ""
    ensures OwnersOf(rows', key) == {}
  {
    assert forall id | id in rows && rows[id].key == key :: rows[id].owner in OwnersOf(rows, key);
  }

  // ---------------------------------------------------------------------------------------------
  // Exactly when
  // ---------------------------------------------------------------------------------------------

  /**
   * While a target is within its cap, some run that loads no further copy for a save that keeps its
   * target exceeds the cap if and only if a copy with its key is loaded whose save may still give a row
   * that key.
   */
  lemma KeyCapIsExact(s: State, key: string, c: Config)
    requires Inv(s, c) && key != "" && s.unchecked[key] == 0 && c.maxAccounts > 0 && c.maxSubs > 0
    ensures (exists s' :: Reaches(s, s', true, c) && |OwnersOf(s'.rows, key)| > c.maxAccounts)
            <==> exists t :: KeyThreat(s, t, key)
  {
    if t :| KeyThreat(s, t, key) {
      var s' := KeyThreatExceeds(s, t, key, c);
    } else {
      forall s' | Reaches(s, s', true, c) ensures |OwnersOf(s'.rows, key)| <= c.maxAccounts {
        var es :| Steps(s, es, s', c) && NoLoads(es, true);
        NoKeyThreat(s, es, s', key, c);
        StepsKeepInv(s, es, s', c);
      }
    }
  }

  /** The same for an owner, in runs that load no further copy at all: one of his may still be inserted. */
  lemma OwnerCapIsExact(s: State, owner: nat, c: Config)
    requires Inv(s, c) && s.revived[owner] == 0 && c.maxAccounts > 0
    ensures (exists s' :: Reaches(s, s', false, c) && |OwnedBy(s'.rows, owner)| > c.maxSubs)
            <==> exists t :: OwnerThreat(s, t, owner)
  {
    if t :| OwnerThreat(s, t, owner) {
      var s' := OwnerThreatExceeds(s, t, owner, c);
    } else {
      forall s' | Reaches(s, s', false, c) ensures |OwnedBy(s'.rows, owner)| <= c.maxSubs {
        var es :| Steps(s, es, s', c) && NoLoads(es, false);
        NoOwnerThreat(s, es, s', owner, c);
        StepsKeepInv(s, es, s', c);
      }
    }
  }

  /** Renaming one subscription is enough: from any state with a row at a target both caps can be exceeded. */
  lemma {:induction false} RenameCanExceedCaps(s: State, r: nat, c: Config)
    returns (es: seq<Event>, s': State, fs: seq<Event>, s'': State)
    requires Inv(s, c) && r in s.rows && s.rows[r].key != "" && c.maxAccounts > 0 && c.maxSubs > 0
    ensures Steps(s, es, s', c) && |OwnersOf(s'.rows, s.rows[r].key)| > c.maxAccounts
    ensures Steps(s, fs, s'', c) && |OwnedBy(s''.rows, s.rows[r].owner)| > c.maxSubs
  {
    var t := FreshNat(s.txns.Keys);
    var load := BeginResave(t, r, true);
    var mid := Apply(s, load, c);
    StepKeepsInv(s, load, c);
    assert Steps(mid, [], mid, c) && [load][1..] == [] && Steps(s, [load], mid, c);
    s' := KeyThreatExceeds(mid, t, s.rows[r].key, c);
    var gs :| Steps(mid, gs, s', c) && NoLoads(gs, true);
    es := [load] + gs;
    StepsAppend(s, [load], mid, gs, s', c);
    s'' := OwnerThreatExceeds(mid, t, s.rows[r].owner, c);
    var hs :| Steps(mid, hs, s'', c) && NoLoads(hs, false);
    fs := [load] + hs;
    StepsAppend(s, [load], mid, hs, s'', c);
  }
}
