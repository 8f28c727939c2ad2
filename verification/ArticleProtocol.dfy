/**
 * `process_article` of src/tasks/articles.py, interleaved.
 *
 * Each task upserts its entry in up to three statements, claims the article it ended at, queues the
 * follow-up chain, and releases the claim when queueing fails.  Tasks interleave statement by
 * statement and may crash anywhere.  Rows are never hard-deleted.
 */
module ArticleProtocol {
  import opened Prelude
  import opened ArticleStore

  datatype Phase =
    | Ready(e: Entry)
    | Conflicted(e: Entry)          // the insert hit a unique index
    | Unedited(e: Entry)            // the edit statement changed nothing
    | NoMatch(e: Entry)             // the touch statement found no row: the task raises
    | Stored(e: Entry, id: nat)
    | Holding(e: Entry, id: nat)    // claimed, about to queue the chain
    | Failing(e: Entry, id: nat)    // queueing raised, about to release
    | Queued(e: Entry, id: nat)
    | Released(e: Entry, id: nat)
    | Skipped(e: Entry, id: nat)    // somebody else claimed the article
    | Crashed(e: Entry, held: Option<nat>)
  {
    predicate HasRow() { Stored? || Holding? || Failing? || Queued? || Released? || Skipped? }

    predicate Owns(a: nat) {
      ((Holding? || Failing? || Queued?) && id == a) || (Crashed? && held == Some(a))
    }

    predicate Sent(a: nat) { Queued? && id == a }
  }

  /** `queue` holds the ids whose chain was queued. */
  datatype State = State(now: int, table: Table, tasks: map<nat, Phase>, queue: multiset<nat>)

  datatype Event =
    | Start(t: nat, e: Entry)
    | Insert(t: nat, id: nat)
    | Conflict(t: nat)
    | Edit(t: nat, id: nat)
    | EditNothing(t: nat)
    | Touch(t: nat, id: nat)
    | TouchNothing(t: nat)
    | Claim(t: nat)
    | SendOk(t: nat)
    | SendFail(t: nat)
    | Release(t: nat)
    | Crash(t: nat)
    | Tick(to: int)

  ghost predicate Enabled(s: State, v: Event) {
    match v
    case Start(t, _) => t !in s.tasks
    case Insert(t, id) => t in s.tasks && s.tasks[t].Ready? && id !in s.table
                          && !HasGuid(s.table, s.tasks[t].e) && !HasHash(s.table, s.tasks[t].e)
    case Conflict(t) => t in s.tasks && s.tasks[t].Ready?
                        && (HasGuid(s.table, s.tasks[t].e) || HasHash(s.table, s.tasks[t].e))
    case Edit(t, id) => t in s.tasks && s.tasks[t].Conflicted? && Editable(s.table, id, s.tasks[t].e)
    case EditNothing(t) => t in s.tasks && s.tasks[t].Conflicted?
                           && forall id | id in s.table :: !Editable(s.table, id, s.tasks[t].e)
    case Touch(t, id) => t in s.tasks && s.tasks[t].Unedited? && Touchable(s.table, id, s.tasks[t].e)
    case TouchNothing(t) => t in s.tasks && s.tasks[t].Unedited?
                            && !HasGuid(s.table, s.tasks[t].e) && !HasHash(s.table, s.tasks[t].e)
    case Claim(t) => t in s.tasks && s.tasks[t].Stored? && s.tasks[t].id in s.table
    case SendOk(t) => t in s.tasks && s.tasks[t].Holding?
    case SendFail(t) => t in s.tasks && s.tasks[t].Holding?
    case Release(t) => t in s.tasks && s.tasks[t].Failing? && s.tasks[t].id in s.table
    case Crash(t) => t in s.tasks && !s.tasks[t].Crashed? && !s.tasks[t].Queued?
    case Tick(to) => s.now <= to
  }

  ghost function Apply(s: State, v: Event): State
    requires Enabled(s, v)
  {
    match v
    case Start(t, e) => s.(tasks := s.tasks[t := Ready(e)])
    case Insert(t, id) =>
      var e := s.tasks[t].e;
      s.(table := Inserted(s.table, id, e, s.now), tasks := s.tasks[t := Stored(e, id)])
    case Conflict(t) => s.(tasks := s.tasks[t := Conflicted(s.tasks[t].e)])
    case Edit(t, id) =>
      var e := s.tasks[t].e;
      s.(table := Edited(s.table, id, e, s.now), tasks := s.tasks[t := Stored(e, id)])
    case EditNothing(t) => s.(tasks := s.tasks[t := Unedited(s.tasks[t].e)])
    case Touch(t, id) =>
      s.(table := Touched(s.table, id, s.now), tasks := s.tasks[t := Stored(s.tasks[t].e, id)])
    case TouchNothing(t) => s.(tasks := s.tasks[t := NoMatch(s.tasks[t].e)])
    case Claim(t) =>
      var e, id := s.tasks[t].e, s.tasks[t].id;
      if s.table[id].processedAt.None? then
        s.(table := WithMark(s.table, id, Some(s.now)), tasks := s.tasks[t := Holding(e, id)])
      else
        s.(tasks := s.tasks[t := Skipped(e, id)])
    case SendOk(t) =>
      s.(tasks := s.tasks[t := Queued(s.tasks[t].e, s.tasks[t].id)], queue := s.queue + multiset{s.tasks[t].id})
    case SendFail(t) => s.(tasks := s.tasks[t := Failing(s.tasks[t].e, s.tasks[t].id)])
    case Release(t) =>
      var e, id := s.tasks[t].e, s.tasks[t].id;
      s.(table := WithMark(s.table, id, None), tasks := s.tasks[t := Released(e, id)])
    case Crash(t) =>
      var p := s.tasks[t];
      s.(tasks := s.tasks[t := Crashed(p.e, if p.Holding? || p.Failing? then Some(p.id) else None)])
    case Tick(to) => s.(now := to)
  }

  ghost predicate Steps(s: State, vs: seq<Event>, s': State)
    decreases |vs|
  {
    if vs == [] then s == s' else Enabled(s, vs[0]) && Steps(Apply(s, vs[0]), vs[1..], s')
  }

  // ---------------------------------------------------------------------------------------------
  // Both keys stay unique, rows keep their guid
  // ---------------------------------------------------------------------------------------------

  /** Rows stay, and keep their feed and guid; a row without guid keeps its hash too. */
  ghost predicate RowsKept(a: Table, b: Table) {
    forall id | id in a ::
      id in b && b[id].feed == a[id].feed && b[id].guid == a[id].guid && (a[id].guid == "" ==> b[id].hash == a[id].hash)
  }

  lemma StepKeepsRows(s: State, v: Event)
    requires Unique(s.table) && Enabled(s, v)
    ensures Unique(Apply(s, v).table) && RowsKept(s.table, Apply(s, v).table)
  {
    match v
    case Insert(t, id) => InsertKeepsUnique(s.table, id, s.tasks[t].e, s.now);
    case Edit(t, id) => EditKeepsUnique(s.table, id, s.tasks[t].e, s.now);
    case _ =>
  }

  lemma {:induction false} StepsKeepRows(s: State, vs: seq<Event>, s': State)
    requires Unique(s.table) && Steps(s, vs, s')
    ensures Unique(s'.table) && RowsKept(s.table, s'.table)
    decreases |vs|
  {
    if vs != [] {
      StepKeepsRows(s, vs[0]);
      StepsKeepRows(Apply(s, vs[0]), vs[1..], s');
    }
  }

  // ---------------------------------------------------------------------------------------------
  // Row identity
  // ---------------------------------------------------------------------------------------------

  /** Tasks outside `earlier` that carry row `r`'s guid end at `r` and do not fail. */
  ghost predicate Anchored(s: State, r: nat, earlier: set<nat>) {
    && r in s.table && s.table[r].guid != ""
    && forall t | t in s.tasks && t !in earlier && SameGuid(s.table[r], s.tasks[t].e) ::
         !s.tasks[t].NoMatch? && (s.tasks[t].HasRow() ==> s.tasks[t].id == r)
  }

  lemma StepKeepsAnchor(s: State, v: Event, r: nat, earlier: set<nat>)
    requires Unique(s.table) && Anchored(s, r, earlier) && Enabled(s, v)
    ensures Anchored(Apply(s, v), r, earlier)
  {
    StepKeepsRows(s, v);
    var s' := Apply(s, v);
    forall t | t in s'.tasks && t !in earlier && SameGuid(s'.table[r], s'.tasks[t].e)
      ensures !s'.tasks[t].NoMatch? && (s'.tasks[t].HasRow() ==> s'.tasks[t].id == r)
    {
      if t in s.tasks && s'.tasks[t] != s.tasks[t] {
        assert s.tasks[t].e == s'.tasks[t].e;
        assert SameGuid(s.table[r], s.tasks[t].e) && HasGuid(s.table, s.tasks[t].e);
      }
    }
  }

  lemma {:induction false} StepsKeepAnchor(s: State, vs: seq<Event>, s': State, r: nat, earlier: set<nat>)
    requires Unique(s.table) && Anchored(s, r, earlier) && Steps(s, vs, s')
    ensures Anchored(s', r, earlier)
    decreases |vs|
  {
    if vs != [] {
      StepKeepsRows(s, vs[0]);
      StepKeepsAnchor(s, vs[0], r, earlier);
      StepsKeepAnchor(Apply(s, vs[0]), vs[1..], s', r, earlier);
    }
  }

  /** Every upsert that starts once a guid has a row returns that row and never raises. */
  lemma RowIdentity(s: State, vs: seq<Event>, s': State, r: nat, t: nat)
    requires Unique(s.table) && r in s.table && s.table[r].guid != "" && t !in s.tasks
    requires Steps(s, vs, s') && t in s'.tasks && SameGuid(s.table[r], s'.tasks[t].e)
    ensures !s'.tasks[t].NoMatch? && (s'.tasks[t].HasRow() ==> s'.tasks[t].id == r)
  {
    var earlier := s.tasks.Keys;
    assert Anchored(s, r, earlier);
    StepsKeepAnchor(s, vs, s', r, earlier);
    StepsKeepRows(s, vs, s');
  }

  // ---------------------------------------------------------------------------------------------
  // When can an upsert fail without any delete?
  // ---------------------------------------------------------------------------------------------

  /** A row the entry will still match whatever the others do: its guid, or a hash no edit can move. */
  ghost predicate Safe(table: Table, e: Entry) {
    HasGuid(table, e) || exists id | id in table :: SameHash(table[id], e) && table[id].guid == ""
  }

  lemma SafeStays(a: Table, b: Table, e: Entry)
    requires RowsKept(a, b) && Safe(a, e)
    ensures Safe(b, e) && (HasGuid(b, e) || HasHash(b, e))
  {
  }

  ghost predicate NoFailures(s: State, e: Entry, earlier: set<nat>) {
    forall t | t in s.tasks && t !in earlier && s.tasks[t].e == e :: !s.tasks[t].NoMatch?
  }

  lemma SafeStep(s: State, v: Event, e: Entry, earlier: set<nat>)
    requires Unique(s.table) && Safe(s.table, e) && NoFailures(s, e, earlier) && Enabled(s, v)
    ensures Safe(Apply(s, v).table, e) && NoFailures(Apply(s, v), e, earlier)
  {
    StepKeepsRows(s, v);
    SafeStays(s.table, s.table, e);
    SafeStays(s.table, Apply(s, v).table, e);
  }

  lemma {:induction false} SafeNeverFails(s: State, vs: seq<Event>, s': State, e: Entry, earlier: set<nat>)
    requires Unique(s.table) && Safe(s.table, e) && NoFailures(s, e, earlier) && Steps(s, vs, s')
    ensures NoFailures(s', e, earlier)
    decreases |vs|
  {
    if vs != [] {
      StepKeepsRows(s, vs[0]);
      SafeStep(s, vs[0], e, earlier);
      SafeNeverFails(Apply(s, vs[0]), vs[1..], s', e, earlier);
    }
  }

  lemma FreshString(used: set<string>) returns (f: string)
    ensures f !in used && f != ""
  {
    var lengths := set w | w in used :: |w|;
    var n := FreshNat(lengths);
    f := seq(n + 1, _ => 'x');
    assert f in used ==> |f| in lengths;
  }

  lemma Then(s: State, v: Event, vs: seq<Event>, s': State)
    requires Enabled(s, v) && Steps(Apply(s, v), vs, s')
    ensures Steps(s, [v] + vs, s')
  {
    assert ([v] + vs)[1..] == vs;
  }

  /** Entry `e` matches row `r` by hash only; `f` carries `r`'s guid and a new hash. */
  ghost predicate Rival(table: Table, e: Entry, r: nat, f: Entry) {
    && Unique(table) && !HasGuid(table, e) && r in table && SameHash(table[r], e)
    && SameGuid(table[r], f) && f.hash != e.hash && !HasHash(table, f)
  }

  /** Both tasks are past their insert; the rival edits the row, and nothing is left for the other. */
  lemma FailsAfterConflict(s: State, t: nat, u: nat, e: Entry, r: nat, f: Entry) returns (vs: seq<Event>, s': State)
    requires Rival(s.table, e, r, f)
    requires t in s.tasks && u in s.tasks && s.tasks[t] == Conflicted(e) && s.tasks[u] == Conflicted(f)
    ensures Steps(s, vs, s') && t in s'.tasks && s'.tasks[t] == NoMatch(e)
  {
    var s1 := Apply(s, Edit(u, r));
    assert forall i | i in s.table :: !SameGuid(s.table[i], e);
    assert forall i | i in s1.table :: !SameGuid(s1.table[i], e) && !SameHash(s1.table[i], e);
    assert t != u && s1.tasks[t] == Conflicted(e);
    var s2 := Apply(s1, EditNothing(t));
    s' := Apply(s2, TouchNothing(t));
    Then(s2, TouchNothing(t), [], s');
    Then(s1, EditNothing(t), [TouchNothing(t)], s');
    vs := [Edit(u, r)] + ([EditNothing(t)] + [TouchNothing(t)]);
    Then(s, Edit(u, r), [EditNothing(t)] + [TouchNothing(t)], s');
  }

  /** The entry conflicts with a row by hash only, that row is edited meanwhile, nothing is left. */
  lemma FailsOverEdit(s: State, t: nat, u: nat, e: Entry, r: nat, f: Entry) returns (vs: seq<Event>, s': State)
    requires t !in s.tasks && u !in s.tasks && t != u && Rival(s.table, e, r, f)
    ensures Steps(s, vs, s') && t in s'.tasks && s'.tasks[t] == NoMatch(e)
  {
    assert HasHash(s.table, e) && HasGuid(s.table, f);
    var s1 := Apply(s, Start(t, e));
    var s2 := Apply(s1, Conflict(t));
    var s3 := Apply(s2, Start(u, f));
    var s4 := Apply(s3, Conflict(u));
    var v4, v3, v2, v1: seq<Event>;
    v4, s' := FailsAfterConflict(s4, t, u, e, r, f);
    v3 := [Conflict(u)] + v4;
    Then(s3, Conflict(u), v4, s');
    v2 := [Start(u, f)] + v3;
    Then(s2, Start(u, f), v3, s');
    v1 := [Conflict(t)] + v2;
    Then(s1, Conflict(t), v2, s');
    vs := [Start(t, e)] + v1;
    Then(s, Start(t, e), v1, s');
  }

  /** Entry not safe: some interleaving without any delete makes its upsert raise. */
  lemma UnsafeCanFail(s: State, t: nat, e: Entry) returns (vs: seq<Event>, s': State)
    requires Unique(s.table) && t !in s.tasks && !Safe(s.table, e)
    ensures Steps(s, vs, s') && t in s'.tasks && s'.tasks[t] == NoMatch(e)
  {
    var u := FreshNat(s.tasks.Keys + {t});
    var hash := FreshString((set i | i in s.table :: s.table[i].hash) + {e.hash});
    if HasHash(s.table, e) {
      var r :| r in s.table && SameHash(s.table[r], e);
      var f := Entry(e.feed, s.table[r].guid, hash, "", None);
      vs, s' := FailsOverEdit(s, t, u, e, r, f);
    } else {
      var guid := FreshString((set i | i in s.table :: s.table[i].guid) + {e.guid});
      var r := FreshNat(s.table.Keys);
      var w := u + 1;
      var other := Entry(e.feed, guid, e.hash, "", None);
      var s1 := Apply(s, Start(w, other));
      assert !HasGuid(s1.table, other) && !HasHash(s1.table, other);
      var s2 := Apply(s1, Insert(w, r));
      InsertKeepsUnique(s.table, r, other, s.now);
      assert forall i | i in s.table :: !SameGuid(s.table[i], e);
      var f := Entry(e.feed, guid, hash, "", None);
      var rest: seq<Event>;
      rest, s' := FailsOverEdit(s2, t, u, e, r, f);
      Then(s1, Insert(w, r), rest, s');
      vs := [Start(w, other)] + ([Insert(w, r)] + rest);
      Then(s, Start(w, other), [Insert(w, r)] + rest, s');
    }
  }

  /** Upserts of `e` by tasks yet to start can fail in some run. */
  ghost predicate CanFail(s: State, e: Entry) {
    exists vs, s', t :: Steps(s, vs, s') && t !in s.tasks && t in s'.tasks && s'.tasks[t] == NoMatch(e)
  }

  /** The upsert's final error needs no delete; it is out of reach exactly for safe entries. */
  lemma FailureIsExact(s: State, e: Entry)
    requires Unique(s.table)
    ensures CanFail(s, e) <==> !Safe(s.table, e)
  {
    if Safe(s.table, e) {
      forall vs, s', t | Steps(s, vs, s') && t !in s.tasks && t in s'.tasks ensures s'.tasks[t] != NoMatch(e) {
        SafeNeverFails(s, vs, s', e, s.tasks.Keys);
      }
    } else {
      var t := FreshNat(s.tasks.Keys);
      var vs, s' := UnsafeCanFail(s, t, e);
    }
  }

  // ---------------------------------------------------------------------------------------------
  // Hand-off
  // ---------------------------------------------------------------------------------------------

  ghost function Owners(s: State, a: nat): set<nat> {
    set t | t in s.tasks && s.tasks[t].Owns(a)
  }

  ghost function Senders(s: State, a: nat): set<nat> {
    set t | t in s.tasks && s.tasks[t].Sent(a)
  }

  ghost predicate Processed(s: State, a: nat) {
    a in s.table && s.table[a].processedAt.Some?
  }

  /**
   * A claimed article has exactly one task that holds it, queued it, or died holding it; an unclaimed
   * one has none.  The queue holds one chain per task that queued it.
   */
  ghost predicate HandOff(s: State, a: nat) {
    && |Owners(s, a)| == (if Processed(s, a) then 1 else 0)
    && s.queue[a] == |Senders(s, a)|
  }

  /** Tasks only name rows that exist. */
  ghost predicate RowsExist(s: State) {
    && (forall t | t in s.tasks && s.tasks[t].HasRow() :: s.tasks[t].id in s.table)
    && (forall t | t in s.tasks && s.tasks[t].Crashed? && s.tasks[t].held.Some? :: s.tasks[t].held.value in s.table)
  }

  ghost predicate Inv(s: State) {
    RowsExist(s) && forall a :: HandOff(s, a)
  }

  lemma Replaced(before: set<nat>, after: set<nat>, t: nat, added: bool)
    requires after == (before - {t}) + (if added then {t} else {})
    ensures |after| + (if t in before then 1 else 0) == |before| + (if added then 1 else 0)
  {
  }

  /** One task changes phase: the owners and senders of an article change by at most that task. */
  lemma TaskMoves(s: State, s': State, t: nat, p: Phase, a: nat)
    requires s'.tasks == s.tasks[t := p]
    ensures |Owners(s', a)| + (if t in Owners(s, a) then 1 else 0) == |Owners(s, a)| + (if p.Owns(a) then 1 else 0)
    ensures |Senders(s', a)| + (if t in Senders(s, a) then 1 else 0) ==
            |Senders(s, a)| + (if p.Sent(a) then 1 else 0)
  {
    OwnersMove(s, s', t, p, a);
    SendersMove(s, s', t, p, a);
  }

  lemma OwnersMove(s: State, s': State, t: nat, p: Phase, a: nat)
    requires s'.tasks == s.tasks[t := p]
    ensures |Owners(s', a)| + (if t in Owners(s, a) then 1 else 0) == |Owners(s, a)| + (if p.Owns(a) then 1 else 0)
  {
    assert Owners(s', a) == (Owners(s, a) - {t}) + (if p.Owns(a) then {t} else {});
    Replaced(Owners(s, a), Owners(s', a), t, p.Owns(a));
  }

  lemma SendersMove(s: State, s': State, t: nat, p: Phase, a: nat)
    requires s'.tasks == s.tasks[t := p]
    ensures |Senders(s', a)| + (if t in Senders(s, a) then 1 else 0) ==
            |Senders(s, a)| + (if p.Sent(a) then 1 else 0)
  {
    assert Senders(s', a) == (Senders(s, a) - {t}) + (if p.Sent(a) then {t} else {});
    Replaced(Senders(s, a), Senders(s', a), t, p.Sent(a));
  }

  /** Steps of the upsert itself leave the hand-off alone. */
  predicate Upserts(v: Event) {
    v.Start? || v.Insert? || v.Conflict? || v.Edit? || v.EditNothing? || v.Touch? || v.TouchNothing?
  }

  lemma UpsertStep(s: State, v: Event, a: nat)
    requires RowsExist(s) && HandOff(s, a) && Enabled(s, v) && Upserts(v)
    ensures HandOff(Apply(s, v), a)
  {
    var s' := Apply(s, v);
    TaskMoves(s, s', v.t, s'.tasks[v.t], a);
    assert a in s.table ==> Processed(s', a) == Processed(s, a);
  }

  lemma HandOffStep(s: State, v: Event, a: nat)
    requires RowsExist(s) && HandOff(s, a) && Enabled(s, v) && !Upserts(v)
    ensures HandOff(Apply(s, v), a)
  {
    var s' := Apply(s, v);
    if v.Tick? {
      assert Owners(s', a) == Owners(s, a) && Senders(s', a) == Senders(s, a);
    } else {
      TaskMoves(s, s', v.t, s'.tasks[v.t], a);
    }
  }

  lemma StepKeepsRowsExist(s: State, v: Event)
    requires RowsExist(s) && Enabled(s, v)
    ensures RowsExist(Apply(s, v))
  {
  }

  lemma StepKeepsInv(s: State, v: Event)
    requires Inv(s) && Enabled(s, v)
    ensures Inv(Apply(s, v))
  {
    StepKeepsRowsExist(s, v);
    forall a ensures HandOff(Apply(s, v), a) {
      assert HandOff(s, a);
      if Upserts(v) {
        UpsertStep(s, v, a);
      } else {
        HandOffStep(s, v, a);
      }
    }
  }

  lemma {:induction false} StepsKeepInv(s: State, vs: seq<Event>, s': State)
    requires Inv(s) && Steps(s, vs, s')
    ensures Inv(s')
    decreases |vs|
  {
    if vs != [] {
      StepKeepsInv(s, vs[0]);
      StepsKeepInv(Apply(s, vs[0]), vs[1..], s');
    }
  }

  function Init(now: int): State { State(now, map[], map[], multiset{}) }

  /** At most once: one owner, one chain, and no chain while the article is unclaimed. */
  lemma HandOffAtMostOnce(now: int, vs: seq<Event>, s: State, a: nat)
    requires Steps(Init(now), vs, s)
    ensures HandOff(s, a) && s.queue[a] <= 1
    ensures !Processed(s, a) ==> s.queue[a] == 0 && Owners(s, a) == {}
    ensures forall t, u | t in Owners(s, a) && u in Owners(s, a) :: t == u
  {
    forall a ensures HandOff(Init(now), a) {
      assert Owners(Init(now), a) == {} && Senders(Init(now), a) == {};
    }
    StepsKeepInv(Init(now), vs, s);
    assert HandOff(s, a);
    assert Senders(s, a) <= Owners(s, a);
    SubsetSize(Senders(s, a), Owners(s, a));
    forall t, u | t in Owners(s, a) && u in Owners(s, a) ensures t == u {
      SubsetSize({t, u}, Owners(s, a));
    }
  }

  /** No step of the run releases article `a`. */
  ghost predicate Unreleased(s: State, vs: seq<Event>, a: nat)
    decreases |vs|
  {
    vs == [] ||
    (&& Enabled(s, vs[0]) && (vs[0].Release? ==> s.tasks[vs[0].t].id != a)
     && Unreleased(Apply(s, vs[0]), vs[1..], a))
  }

  lemma OnlyHandOffMarks(s: State, v: Event, a: nat)
    requires Enabled(s, v) && Processed(s, a) && (v.Release? ==> s.tasks[v.t].id != a)
    ensures Processed(Apply(s, v), a) && Apply(s, v).table[a].processedAt == s.table[a].processedAt
  {
  }

  /** Edits, touches and other tasks' claims never reopen a claimed article, nor move its mark. */
  lemma {:induction false} EditsNeverReopen(s: State, vs: seq<Event>, s': State, a: nat)
    requires Steps(s, vs, s') && Processed(s, a) && Unreleased(s, vs, a)
    ensures Processed(s', a) && s'.table[a].processedAt == s.table[a].processedAt
    decreases |vs|
  {
    if vs != [] {
      OnlyHandOffMarks(s, vs[0], a);
      EditsNeverReopen(Apply(s, vs[0]), vs[1..], s', a);
    }
  }

  /** A failed send ends with the article claimable by any task that stored it. */
  lemma FailedSendReopens(s: State, t: nat, u: nat)
    requires Inv(s) && t in s.tasks && s.tasks[t].Failing?
    requires u in s.tasks && s.tasks[u].Stored? && s.tasks[u].id == s.tasks[t].id
    ensures Enabled(s, Release(t))
    ensures var s1 := Apply(s, Release(t));
            && !Processed(s1, s.tasks[t].id)
            && Enabled(s1, Claim(u)) && Apply(s1, Claim(u)).tasks[u].Holding?
  {
  }

  lemma SoleOwner(s: State, a: nat, t: nat)
    requires HandOff(s, a) && t in Owners(s, a)
    ensures Owners(s, a) == {t} && Processed(s, a)
    ensures s.queue[a] == (if s.tasks[t].Queued? then 1 else 0)
  {
    forall u | u in Owners(s, a) ensures u == t {
      SubsetSize({t, u}, Owners(s, a));
    }
    forall u | u in Senders(s, a) ensures u == t {
      assert u in Owners(s, a);
    }
    if s.tasks[t].Queued? {
      assert Senders(s, a) == {t};
    } else {
      assert Senders(s, a) == {};
    }
  }

  ghost predicate Finished(s: State, t: nat, a: nat) {
    t in s.tasks && s.tasks[t].Owns(a) && (s.tasks[t].Queued? || s.tasks[t].Crashed?)
  }

  lemma FinishedStays(s: State, v: Event, t: nat, a: nat)
    requires Finished(s, t, a) && Enabled(s, v)
    ensures t in Apply(s, v).tasks && Apply(s, v).tasks[t] == s.tasks[t]
  {
  }

  /** Whoever queued the article or died holding it keeps it for good. */
  lemma {:induction false} OwnershipIsFinal(s: State, vs: seq<Event>, s': State, a: nat, t: nat)
    requires Inv(s) && Steps(s, vs, s') && Finished(s, t, a)
    ensures t in s'.tasks && s'.tasks[t] == s.tasks[t] && Processed(s', a)
    ensures s'.queue[a] == (if s.tasks[t].Queued? then 1 else 0)
    decreases |vs|
  {
    if vs == [] {
      assert HandOff(s, a);
      SoleOwner(s, a, t);
    } else {
      StepKeepsInv(s, vs[0]);
      FinishedStays(s, vs[0], t, a);
      OwnershipIsFinal(Apply(s, vs[0]), vs[1..], s', a, t);
    }
  }

  /** A worker that dies between claim and queueing loses the article: no later task queues it. */
  lemma CrashWhileHoldingLosesArticle(s: State, t: nat, vs: seq<Event>, s': State)
    requires Inv(s) && t in s.tasks && s.tasks[t].Holding?
    requires Steps(Apply(s, Crash(t)), vs, s')
    ensures Processed(s', s.tasks[t].id) && s'.queue[s.tasks[t].id] == 0
  {
    StepKeepsInv(s, Crash(t));
    OwnershipIsFinal(Apply(s, Crash(t)), vs, s', s.tasks[t].id, t);
  }

  // ---------------------------------------------------------------------------------------------
  // Exactly when an article can still be queued
  // ---------------------------------------------------------------------------------------------

  /** Some worker died holding the article. */
  ghost predicate Lost(s: State, a: nat) {
    exists t :: t in s.tasks && s.tasks[t].Crashed? && s.tasks[t].held == Some(a)
  }

  /** Some run from here on has the article's chain queued. */
  ghost predicate CanBeQueued(s: State, a: nat) {
    exists vs, s' :: Steps(s, vs, s') && s'.queue[a] == 1
  }

  lemma HandRuns(s: State, t: nat, a: nat) returns (vs: seq<Event>, s': State)
    requires t in s.tasks && s.tasks[t].Stored? && s.tasks[t].id == a && a in s.table && !Processed(s, a)
    ensures Steps(s, vs, s') && s'.queue == s.queue + multiset{a}
  {
    var s1 := Apply(s, Claim(t));
    s' := Apply(s1, SendOk(t));
    Then(s1, SendOk(t), [], s');
    vs := [Claim(t)] + [SendOk(t)];
    Then(s, Claim(t), [SendOk(t)], s');
  }

  /** The entry a row was stored from. */
  function EntryOf(a: Article): Entry { Entry(a.feed, a.guid, a.hash, a.content, a.published) }

  /** A redelivered task finds its own row. */
  lemma FindsItsRow(table: Table, a: nat)
    requires Unique(table) && a in table
    ensures var e := EntryOf(table[a]);
            && HasHash(table, e) && Touchable(table, a, e) && forall id | id in table :: !Editable(table, id, e)
  {
    var e := EntryOf(table[a]);
    assert SameHash(table[a], e);
    if !SameGuid(table[a], e) {
      assert forall id | id in table :: !SameGuid(table[id], e);
    }
  }

  lemma RetryRuns(s: State, a: nat) returns (vs: seq<Event>, s': State)
    requires Unique(s.table) && a in s.table && !Processed(s, a)
    ensures Steps(s, vs, s') && s'.queue == s.queue + multiset{a}
  {
    var t := FreshNat(s.tasks.Keys);
    var e := EntryOf(s.table[a]);
    FindsItsRow(s.table, a);
    var s1 := Apply(s, Start(t, e));
    var s2 := Apply(s1, Conflict(t));
    var s3 := Apply(s2, EditNothing(t));
    var s4 := Apply(s3, Touch(t, a));
    var v4, v3, v2, v1: seq<Event>;
    v4, s' := HandRuns(s4, t, a);
    v3 := [Touch(t, a)] + v4;
    Then(s3, Touch(t, a), v4, s');
    v2 := [EditNothing(t)] + v3;
    Then(s2, EditNothing(t), v3, s');
    v1 := [Conflict(t)] + v2;
    Then(s1, Conflict(t), v2, s');
    vs := [Start(t, e)] + v1;
    Then(s, Start(t, e), v1, s');
  }

  lemma NoneQueued(s: State, a: nat)
    requires HandOff(s, a) && Owners(s, a) == {}
    ensures s.queue[a] == 0
  {
    forall t ensures t !in Senders(s, a) {
      assert t !in Owners(s, a);
    }
    assert Senders(s, a) == {};
  }

  /** An unclaimed article is queued by a redelivered task. */
  lemma UnclaimedCanBeQueued(s: State, a: nat)
    requires Inv(s) && Unique(s.table) && a in s.table && !Processed(s, a)
    ensures CanBeQueued(s, a)
  {
    assert HandOff(s, a);
    NoneQueued(s, a);
    var vs, s' := RetryRuns(s, a);
  }

  /** A claimed one by its owner, or after its owner's release. */
  lemma OwnedCanBeQueued(s: State, a: nat, t: nat)
    requires Inv(s) && Unique(s.table) && a in s.table && t in s.tasks && s.tasks[t].Owns(a) && !s.tasks[t].Crashed?
    ensures CanBeQueued(s, a)
  {
    assert HandOff(s, a);
    SoleOwner(s, a, t);
    if s.tasks[t].Queued? {
      assert Steps(s, [], s);
    } else if s.tasks[t].Holding? {
      var s' := Apply(s, SendOk(t));
      Then(s, SendOk(t), [], s');
    } else {
      var s1 := Apply(s, Release(t));
      StepKeepsInv(s, Release(t));
      StepKeepsRows(s, Release(t));
      UnclaimedCanBeQueued(s1, a);
      var vs, s' :| Steps(s1, vs, s') && s'.queue[a] == 1;
      Then(s, Release(t), vs, s');
    }
  }

  /** A stored article can still be queued, or is, if and only if no worker died holding it. */
  lemma QueueingIsExact(s: State, a: nat)
    requires Inv(s) && Unique(s.table) && a in s.table
    ensures CanBeQueued(s, a) <==> !Lost(s, a)
  {
    if Lost(s, a) {
      var t :| t in s.tasks && s.tasks[t].Crashed? && s.tasks[t].held == Some(a);
      forall vs, s' | Steps(s, vs, s') ensures s'.queue[a] == 0 {
        OwnershipIsFinal(s, vs, s', a, t);
      }
    } else if Processed(s, a) {
      assert HandOff(s, a) && |Owners(s, a)| != 0;
      var t :| t in Owners(s, a);
      OwnedCanBeQueued(s, a, t);
    } else {
      UnclaimedCanBeQueued(s, a);
    }
  }
}
