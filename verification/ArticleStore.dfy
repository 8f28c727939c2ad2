/**
 * The article upsert and hand-off of src/apps/articles/services.py and src/tasks/articles.py, run one
 * task at a time.
 *
 * A feed has at most one row per non-empty guid and one per content hash.  The three SQL statements
 * are the functions `Inserted`, `Edited` and `Touched`; the interleaved protocol in ArticleProtocol
 * is built from the same functions.
 */
module ArticleStore {
  import opened Prelude

  /** A normalised entry; `content` stands for the columns that only get copied. */
  datatype Entry = Entry(feed: nat, guid: string, hash: string, content: string, published: Option<int>)

  datatype Article = Article(
    feed: nat, guid: string, hash: string, content: string, published: Option<int>,
    createdAt: int, lastSeenAt: int, processedAt: Option<int>)

  type Table = map<nat, Article>

  predicate SameGuid(a: Article, e: Entry) { a.feed == e.feed && e.guid != "" && a.guid == e.guid }

  predicate SameHash(a: Article, e: Entry) { a.feed == e.feed && a.hash == e.hash }

  predicate HasGuid(table: Table, e: Entry) { exists id | id in table :: SameGuid(table[id], e) }

  predicate HasHash(table: Table, e: Entry) { exists id | id in table :: SameHash(table[id], e) }

  /** The two unique indexes. */
  ghost predicate Unique(table: Table) {
    forall i, j | i in table && j in table && i != j && table[i].feed == table[j].feed ::
      table[i].hash != table[j].hash && (table[i].guid != "" ==> table[i].guid != table[j].guid)
  }

  function Inserted(table: Table, id: nat, e: Entry, now: int): Table {
    table[id := Article(e.feed, e.guid, e.hash, e.content, e.published, now, now, None)]
  }

  /** The edit statement applies to row `id`: same guid, other content, and nobody has that content. */
  predicate Editable(table: Table, id: nat, e: Entry) {
    id in table && SameGuid(table[id], e) && table[id].hash != e.hash && !HasHash(table, e)
  }

  function Edited(table: Table, id: nat, e: Entry, now: int): Table
    requires id in table
  {
    table[id := table[id].(
      hash := e.hash, content := e.content, lastSeenAt := now,
      published := if e.published.Some? then e.published else table[id].published)]
  }

  /** The touch statement picks row `id`: the guid match, else a hash match. */
  predicate Touchable(table: Table, id: nat, e: Entry) {
    id in table && (SameGuid(table[id], e) || (SameHash(table[id], e) && !HasGuid(table, e)))
  }

  function Touched(table: Table, id: nat, now: int): Table
    requires id in table
  {
    table[id := table[id].(lastSeenAt := now)]
  }

  /** Setting or clearing `processed_at`. */
  function WithMark(table: Table, id: nat, mark: Option<int>): Table
    requires id in table
  {
    table[id := table[id].(processedAt := mark)]
  }

  lemma InsertKeepsUnique(table: Table, id: nat, e: Entry, now: int)
    requires Unique(table) && id !in table && !HasGuid(table, e) && !HasHash(table, e)
    ensures Unique(Inserted(table, id, e, now))
  {
  }

  lemma EditKeepsUnique(table: Table, id: nat, e: Entry, now: int)
    requires Unique(table) && Editable(table, id, e)
    ensures Unique(Edited(table, id, e, now))
  {
  }

  datatype Result = Result(id: nat, inserted: bool, updated: bool)

  /** The row an upsert of `e` ends at: the guid's row, else the hash's row. */
  ghost predicate Settles(table: Table, id: nat, e: Entry) {
    id in table && (SameGuid(table[id], e) || SameHash(table[id], e)) && (SameGuid(table[id], e) || !HasGuid(table, e))
  }

  /** What one upsert does to the table. */
  ghost predicate Upserted(before: Table, e: Entry, now: int, after: Table, r: Result) {
    if !HasGuid(before, e) && !HasHash(before, e) then
      r.inserted && !r.updated && r.id !in before && after == Inserted(before, r.id, e, now)
    else if Editable(before, r.id, e) then
      !r.inserted && r.updated && after == Edited(before, r.id, e, now)
    else
      !r.inserted && !r.updated && Touchable(before, r.id, e) && after == Touched(before, r.id, now)
  }

  ghost predicate Marked(table: Table, id: nat) { id in table && table[id].processedAt.Some? }

  ghost predicate QueuedOnce(table: Table, queue: seq<nat>) {
    && (forall id | id in queue :: Marked(table, id))
    && (forall j, k | 0 <= j < k < |queue| :: queue[j] != queue[k])
  }

  class Articles {
    var table: Table
    var nextId: nat
    var queue: seq<nat>   // articles whose tagging and fan-out chain was queued

    ghost predicate Keyed()
      reads this
    {
      Unique(table) && forall id | id in table :: id < nextId
    }

    /** Both keys are unique, and an article is queued at most once, and only while it is marked. */
    ghost predicate Valid()
      reads this
    {
      Keyed() && QueuedOnce(table, queue)
    }

    constructor ()
      ensures Valid() && table == map[] && queue == []
    {
      table, nextId, queue := map[], 0, [];
    }

    /** `upsert_article`: a row is always found, so the final error is never raised. */
    method Upsert(e: Entry, now: int) returns (r: Result)
      requires Keyed()
      modifies this`table, this`nextId
      ensures Keyed()
      ensures Upserted(old(table), e, now, table, r) && Settles(table, r.id, e)
    {
      if !HasGuid(table, e) && !HasHash(table, e) {
        InsertKeepsUnique(table, nextId, e, now);
        r := Result(nextId, true, false);
        table, nextId := Inserted(table, nextId, e, now), nextId + 1;
        assert SameHash(table[r.id], e);
        assert HasGuid(table, e) ==> SameGuid(table[r.id], e);
        return;
      }
      if id :| id in table && Editable(table, id, e) {
        EditKeepsUnique(table, id, e, now);
        table := Edited(table, id, e, now);
        return Result(id, false, true);
      }
      if HasGuid(table, e) {
        var id :| id in table && SameGuid(table[id], e);
        table := Touched(table, id, now);
        return Result(id, false, false);
      }
      var id :| id in table && SameHash(table[id], e);
      assert forall i | i in table :: !SameGuid(table[i], e);
      table := Touched(table, id, now);
      assert forall i | i in table :: !SameGuid(table[i], e);
      return Result(id, false, false);
    }

    /** `claim_processing`: true only for the call that marks the article. */
    method ClaimProcessing(id: nat, now: int) returns (claimed: bool)
      requires Keyed() && id in table
      modifies this`table
      ensures Keyed()
      ensures claimed <==> old(table)[id].processedAt.None?
      ensures table == if claimed then old(table)[id := old(table)[id].(processedAt := Some(now))] else old(table)
    {
      claimed := table[id].processedAt.None?;
      if claimed {
        table := WithMark(table, id, Some(now));
      }
    }

    /** `release_processing`. */
    method ReleaseProcessing(id: nat)
      requires Keyed() && id in table
      modifies this`table
      ensures Keyed() && table == old(table)[id := old(table)[id].(processedAt := None)]
    {
      table := WithMark(table, id, None);
    }

    /** The tail of `process_article`: claim, send, and release when the send raises. */
    method HandOff(id: nat, now: int, sends: bool) returns (raised: bool)
      requires Valid() && id in table
      modifies this`table, this`queue
      ensures Valid()
      ensures var open := old(table)[id].processedAt.None?;
              && (raised <==> open && !sends)
              && queue == (if open && sends then old(queue) + [id] else old(queue))
              && table == (if open && sends then WithMark(old(table), id, Some(now)) else old(table))
    {
      var claimed := ClaimProcessing(id, now);
      raised := claimed && !sends;
      if raised {
        ReleaseProcessing(id);
        assert table == old(table);
      } else if claimed {
        assert forall i | i in queue :: Marked(old(table), i);
        assert forall i | i in queue :: i != id && Marked(table, i);
        assert forall j | 0 <= j < |queue| :: queue[j] in queue;
        queue := queue + [id];
      }
    }

    /** `process_article`: the chain is queued exactly by the run that is first to mark the article. */
    method ProcessArticle(e: Entry, now: int, sends: bool) returns (r: Result, raised: bool)
      requires Valid()
      modifies this
      ensures Valid() && Settles(table, r.id, e)
      ensures var open := r.id in old(table) ==> old(table)[r.id].processedAt.None?;
              && (raised <==> open && !sends)
              && queue == (if open && sends then old(queue) + [r.id] else old(queue))
              && table[r.id].processedAt ==
                 (if !open then old(table)[r.id].processedAt else if sends then Some(now) else None)
    {
      r := Upsert(e, now);
      UpsertKeepsMarks(old(table), e, now, table, r, queue);
      ghost var stored := table;
      raised := HandOff(r.id, now, sends);
      MarkKeepsSettled(stored, r.id, e, table[r.id].processedAt);
      assert table == WithMark(stored, r.id, table[r.id].processedAt);
    }
  }

  lemma UpsertKeepsMarks(before: Table, e: Entry, now: int, after: Table, r: Result, queue: seq<nat>)
    requires Upserted(before, e, now, after, r) && QueuedOnce(before, queue)
    ensures QueuedOnce(after, queue) && r.id in after
    ensures after[r.id].processedAt == if r.id in before then before[r.id].processedAt else None
  {
    UpsertStores(before, e, now, after, r);
  }

  lemma MarkKeepsSettled(table: Table, id: nat, e: Entry, mark: Option<int>)
    requires Settles(table, id, e)
    ensures Settles(WithMark(table, id, mark), id, e)
  {
  }

  /** What an upsert leaves behind, column by column. */
  lemma UpsertStores(before: Table, e: Entry, now: int, after: Table, r: Result)
    requires Upserted(before, e, now, after, r)
    ensures after.Keys == before.Keys + {r.id} && after[r.id].lastSeenAt == now
    ensures forall i | i in before && i != r.id :: after[i] == before[i]
    ensures r.inserted || r.updated ==>
              && after[r.id].feed == e.feed && after[r.id].guid == e.guid
              && after[r.id].hash == e.hash && after[r.id].content == e.content
    ensures e.published.Some? && (r.inserted || r.updated) ==> after[r.id].published == e.published
    ensures r.inserted <==> r.id !in before
    ensures r.inserted ==> after[r.id].createdAt == now && after[r.id].processedAt == None
    ensures r.inserted ==> after[r.id].published == e.published
    ensures r.updated ==> e.published.None? ==> after[r.id].published == before[r.id].published
    ensures !r.inserted ==> after[r.id].createdAt == before[r.id].createdAt
    ensures !r.inserted ==> after[r.id].processedAt == before[r.id].processedAt
    ensures !r.inserted && !r.updated ==> after[r.id].(lastSeenAt := before[r.id].lastSeenAt) == before[r.id]
  {
  }

  lemma OneSettlement(table: Table, e: Entry, i: nat, j: nat)
    requires Unique(table) && Settles(table, i, e) && Settles(table, j, e)
    ensures i == j
  {
  }

  lemma UpsertKeepsUnique(before: Table, e: Entry, now: int, after: Table, r: Result)
    requires Unique(before) && Upserted(before, e, now, after, r)
    ensures Unique(after) && Settles(after, r.id, e)
  {
  }

  /** Repeating an entry returns the same row and changes only its `lastSeenAt`. */
  lemma UpsertTwice(t0: Table, e: Entry, now: int, t1: Table, r1: Result, now': int, t2: Table, r2: Result)
    requires Unique(t0) && Upserted(t0, e, now, t1, r1) && Upserted(t1, e, now', t2, r2)
    ensures r2 == Result(r1.id, false, false) && t2 == Touched(t1, r1.id, now')
  {
    UpsertKeepsUnique(t0, e, now, t1, r1);
    UpsertKeepsUnique(t1, e, now', t2, r2);
    if SameGuid(t1[r1.id], e) {
      assert HasGuid(t1, e);
      if !r1.inserted && !r1.updated && !SameHash(t1[r1.id], e) {
        assert HasHash(t0, e);
        var i :| i in t0 && SameHash(t0[i], e);
        assert SameHash(t1[i], e);
      }
    } else {
      assert HasHash(t1, e);
    }
    assert Settles(t1, r2.id, e);
    OneSettlement(t1, e, r1.id, r2.id);
  }
}
