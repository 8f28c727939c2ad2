/**
 * `ORDER BY key LIMIT n` over a finite set of rows: the first rows in key order, ties in any order.
 * The scheduler and the digest both select this way.
 */
module Ordering {
  import opened Prelude

  /** A sort key, smallest first; rows with a null key come last. */
  datatype Rank = Null | At(v: real)

  predicate Leq(a: Rank, b: Rank) { b.Null? || (a.At? && a.v <= b.v) }

  ghost predicate Distinct(s: seq<nat>) {
    forall i, j | 0 <= i < j < |s| :: s[i] != s[j]
  }

  ghost function Members(s: seq<nat>): set<nat> { set x | x in s }

  /** `chosen` is an answer to: select from `from` ordered by `key`, at most `limit` rows. */
  ghost predicate IsFirst(chosen: seq<nat>, from: set<nat>, key: map<nat, Rank>, limit: nat)
    requires from <= key.Keys
  {
    && Distinct(chosen) && Members(chosen) <= from
    && |chosen| == (if |from| <= limit then |from| else limit)
    && (forall i, j | 0 <= i < j < |chosen| && chosen[i] in from && chosen[j] in from ::
        Leq(key[chosen[i]], key[chosen[j]]))
    && (forall x, y | x in chosen && x in from && y in from && y !in chosen :: Leq(key[x], key[y]))
  }

  lemma MembersSize(s: seq<nat>)
    requires Distinct(s)
    ensures |Members(s)| == |s|
  {
    if s != [] {
      var k := |s| - 1;
      MembersSize(s[..k]);
      assert s == s[..k] + [s[k]];
      assert Members(s) == Members(s[..k]) + {s[k]};
    }
  }

  /** A row left out of a full answer had `limit` rows chosen before it. */
  lemma LeftOut(chosen: seq<nat>, from: set<nat>, key: map<nat, Rank>, limit: nat, y: nat)
    requires from <= key.Keys && IsFirst(chosen, from, key, limit) && y in from && y !in chosen
    ensures |chosen| == limit && |Members(chosen)| == limit
    ensures forall x | x in chosen :: x in from && Leq(key[x], key[y])
  {
    MembersSize(chosen);
    assert forall x | x in chosen :: x in Members(chosen);
    if |from| <= limit {
      assert Members(chosen) <= from - {y};
      SubsetSize(Members(chosen), from - {y});
      assert false;
    }
  }

  /** An answer that is not full has everything. */
  lemma AllWhenFewer(chosen: seq<nat>, from: set<nat>, key: map<nat, Rank>, limit: nat)
    requires from <= key.Keys && IsFirst(chosen, from, key, limit)
    ensures |chosen| < limit ==> forall y | y in from :: y in chosen
  {
    forall y | y in from && |chosen| < limit ensures y in chosen {
      if y !in chosen {
        LeftOut(chosen, from, key, limit, y);
      }
    }
  }

  /** Some row comes first. */
  lemma {:induction false} LeastExists(from: set<nat>, key: map<nat, Rank>) returns (x: nat)
    requires from != {} && from <= key.Keys
    ensures x in from && forall y | y in from :: Leq(key[x], key[y])
    decreases |from|
  {
    assert |from| != 0;
    var first: nat :| first in from;
    var rest := from - {first};
    x := first;
    if rest != {} {
      var y := LeastExists(rest, key);
      if !Leq(key[first], key[y]) {
        x := y;
      }
      forall z | z in from ensures Leq(key[x], key[z]) {
        assert z == first || z in rest;
      }
    }
  }

  /** All rows of `from`, once each, in order. */
  ghost predicate Lists(chosen: seq<nat>, from: set<nat>, key: map<nat, Rank>)
    requires from <= key.Keys
  {
    && Distinct(chosen) && (forall x :: x in chosen <==> x in from)
    && (forall i, j | 0 <= i < j < |chosen| && chosen[i] in from && chosen[j] in from ::
          Leq(key[chosen[i]], key[chosen[j]]))
  }

  lemma {:induction false} ListingExists(from: set<nat>, key: map<nat, Rank>) returns (chosen: seq<nat>)
    requires from <= key.Keys
    ensures Lists(chosen, from, key)
    decreases |from|
  {
    if from == {} {
      chosen := [];
    } else {
      var x := LeastExists(from, key);
      var rest := ListingExists(from - {x}, key);
      chosen := [x] + rest;
    }
  }

  /** A block of rows at or before `f` is an answer when only it and `f` can be chosen. */
  lemma ListingIsFirst(chosen: seq<nat>, block: set<nat>, f: nat, key: map<nat, Rank>)
    requires block + {f} <= key.Keys && f !in block && Lists(chosen, block, key)
    requires forall x | x in block :: Leq(key[x], key[f])
    ensures IsFirst(chosen, block + {f}, key, |block|) && Members(chosen) == block
  {
    MembersSize(chosen);
    assert Members(chosen) == block;
    assert |block + {f}| == |block| + 1;
  }

  method Least(from: set<nat>, key: map<nat, Rank>) returns (x: nat)
    requires from != {}
    requires from <= key.Keys
    ensures x in from && forall y | y in from :: Leq(key[x], key[y])
  {
    assert |from| != 0;
    x :| x in from;
    var rest := from - {x};
    while rest != {}
      invariant rest <= from && x in from
      invariant forall y | y in from && y !in rest :: Leq(key[x], key[y])
    {
      assert |rest| != 0;
      var y :| y in rest;
      if !Leq(key[x], key[y]) {
        x := y;
      }
      rest := rest - {y};
    }
  }

  /** Selecting one row after the other gives such an answer. */
  method First(from: set<nat>, key: map<nat, Rank>, limit: nat) returns (chosen: seq<nat>)
    requires from <= key.Keys
    ensures IsFirst(chosen, from, key, limit)
  {
    chosen := [];
    var rest := from;
    while |chosen| < limit && rest != {}
      invariant Distinct(chosen) && |chosen| <= limit && |chosen| + |rest| == |from|
      invariant rest <= from && forall x | x in from :: x in rest <==> x !in chosen
      invariant forall x | x in chosen :: x in from
      invariant forall i, j | 0 <= i < j < |chosen| :: Leq(key[chosen[i]], key[chosen[j]])
      invariant forall x, y | x in chosen && y in rest :: Leq(key[x], key[y])
      decreases |rest|
    {
      var x := Least(rest, key);
      chosen, rest := chosen + [x], rest - {x};
    }
    forall x | x in Members(chosen) ensures x in from {
      assert x in chosen;
    }
  }
}
