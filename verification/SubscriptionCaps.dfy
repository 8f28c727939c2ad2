/**
 * The caps of src/apps/subscriptions/serializers.py, one request at a time: how many subscriptions an
 * account may have, and how many accounts may point at one target.
 */
module SubscriptionCaps {
  import opened Prelude

  /** A stored subscription: its owner and the key of its target ("" for none). */
  datatype Sub = Sub(owner: nat, key: string)

  type Rows = map<nat, Sub>

  /** The two limits, and the hash that picks the advisory lock of a key (keys may share one). */
  datatype Config = Config(maxAccounts: nat, maxSubs: nat, lockOf: string -> int)

  function OwnedBy(rows: Rows, owner: nat): set<nat> {
    set id | id in rows && rows[id].owner == owner
  }

  function OwnersOf(rows: Rows, key: string): set<nat> {
    set id | id in rows && rows[id].key == key :: rows[id].owner
  }

  function OtherOwners(rows: Rows, key: string, owner: nat): set<nat> {
    OwnersOf(rows, key) - {owner}
  }

  /** At most `maxAccounts` accounts at each target, and `extra[key]` more. */
  ghost predicate KeysWithin(rows: Rows, c: Config, extra: multiset<string>) {
    forall key | key != "" :: |OwnersOf(rows, key)| <= c.maxAccounts + extra[key]
  }

  ghost predicate KeyCap(rows: Rows, c: Config) { KeysWithin(rows, c, multiset{}) }

  ghost predicate OwnerCap(rows: Rows, c: Config) {
    forall owner :: |OwnedBy(rows, owner)| <= c.maxSubs
  }

  lemma WriteOthers(rows: Rows, id: nat, sub: Sub, key: string, owner: nat)
    ensures |OtherOwners(rows[id := sub], key, owner)| <=
            |OtherOwners(rows, key, owner)| + (if sub.key == key then 1 else 0)
  {
    var others := OtherOwners(rows, key, owner);
    if sub.key == key {
      SubsetSize(OtherOwners(rows[id := sub], key, owner), others + {sub.owner});
    } else {
      SubsetSize(OtherOwners(rows[id := sub], key, owner), others);
    }
  }

  /** A write that found room at its target keeps every target within bounds. */
  lemma CheckedWriteKeepsKeys(rows: Rows, id: nat, sub: Sub, c: Config, extra: multiset<string>)
    requires KeysWithin(rows, c, extra)
    requires sub.key != "" ==> |OtherOwners(rows, sub.key, sub.owner)| < c.maxAccounts + extra[sub.key]
    ensures KeysWithin(rows[id := sub], c, extra)
  {
    var rows' := rows[id := sub];
    forall key | key != "" ensures |OwnersOf(rows', key)| <= c.maxAccounts + extra[key] {
      if sub.key == key {
        var others := OtherOwners(rows, key, sub.owner);
        assert |others + {sub.owner}| == |others| + 1;
        SubsetSize(OwnersOf(rows', key), others + {sub.owner});
      } else {
        SubsetSize(OwnersOf(rows', key), OwnersOf(rows, key));
      }
    }
  }

  lemma WriteOwned(rows: Rows, id: nat, sub: Sub, owner: nat)
    requires id in rows ==> rows[id].owner == sub.owner
    ensures |OwnedBy(rows[id := sub], owner)| ==
            |OwnedBy(rows, owner)| + (if id !in rows && owner == sub.owner then 1 else 0)
  {
    if owner == sub.owner {
      assert OwnedBy(rows[id := sub], owner) == OwnedBy(rows, owner) + {id};
      if id in rows {
        assert id in OwnedBy(rows, owner);
      }
    } else {
      assert OwnedBy(rows[id := sub], owner) == OwnedBy(rows, owner);
    }
  }

  lemma DeleteShrinks(rows: Rows, id: nat, key: string, owner: nat)
    ensures OwnersOf(rows - {id}, key) <= OwnersOf(rows, key)
    ensures OwnedBy(rows - {id}, owner) == OwnedBy(rows, owner) - {id}
    ensures |OwnersOf(rows - {id}, key)| <= |OwnersOf(rows, key)|
    ensures |OwnedBy(rows - {id}, owner)| <= |OwnedBy(rows, owner)|
  {
    assert OwnersOf(rows - {id}, key) <= OwnersOf(rows, key);
    SubsetSize(OwnersOf(rows - {id}, key), OwnersOf(rows, key));
    SubsetSize(OwnedBy(rows - {id}, owner), OwnedBy(rows, owner));
  }

  // ---------------------------------------------------------------------------------------------
  // One request at a time
  // ---------------------------------------------------------------------------------------------

  datatype Reply = Accepted(id: nat) | TooMany | TargetTaken

  class Subscriptions {
    const config: Config
    var rows: Rows
    var nextId: nat

    ghost predicate Valid()
      reads this
    {
      KeyCap(rows, config) && OwnerCap(rows, config) && forall id | id in rows :: id < nextId
    }

    constructor (config: Config)
      ensures Valid() && rows == map[] && this.config == config
    {
      this.config, rows, nextId := config, map[], 0;
      new;
      assert forall key :: OwnersOf(rows, key) == {};
      assert forall owner :: OwnedBy(rows, owner) == {};
    }

    /** `_check_target`: is there room for another account at this target? */
    method CheckTarget(owner: nat, key: string) returns (ok: bool)
      ensures ok <==> (key == "" || |OtherOwners(rows, key, owner)| < config.maxAccounts)
    {
      if key == "" {
        return true;
      }
      return |OtherOwners(rows, key, owner)| < config.maxAccounts;
    }

    /** `create`: refused exactly when the owner is full or the target is. */
    method Create(owner: nat, key: string) returns (reply: Reply)
      requires Valid()
      modifies this
      ensures Valid()
      ensures reply.TooMany? <==> |OwnedBy(old(rows), owner)| >= config.maxSubs
      ensures reply.TargetTaken? <==>
                |OwnedBy(old(rows), owner)| < config.maxSubs && key != "" &&
                    |OtherOwners(old(rows), key, owner)| >= config.maxAccounts
      ensures reply.Accepted? ==> reply.id !in old(rows) && rows == old(rows)[reply.id := Sub(owner, key)]
      ensures !reply.Accepted? ==> rows == old(rows)
    {
      if |OwnedBy(rows, owner)| >= config.maxSubs {
        return TooMany;
      }
      var ok := CheckTarget(owner, key);
      if !ok {
        return TargetTaken;
      }
      CheckedWriteKeepsKeys(rows, nextId, Sub(owner, key), config, multiset{});
      var rows' := rows[nextId := Sub(owner, key)];
      forall o ensures |OwnedBy(rows', o)| <= config.maxSubs {
        WriteOwned(rows, nextId, Sub(owner, key), o);
      }
      reply := Accepted(nextId);
      rows, nextId := rows', nextId + 1;
    }

    /** `update` to another target. */
    method Retarget(id: nat, key: string) returns (reply: Reply)
      requires Valid() && id in rows
      modifies this`rows
      ensures Valid()
      ensures reply.Accepted? <==>
        (key == "" || |OtherOwners(old(rows), key, old(rows)[id].owner)| < config.maxAccounts)
      ensures reply.Accepted? ==> reply.id == id && rows == old(rows)[id := Sub(old(rows)[id].owner, key)]
      ensures !reply.Accepted? ==> reply.TargetTaken? && rows == old(rows)
    {
      var sub := Sub(rows[id].owner, key);
      var ok := CheckTarget(sub.owner, key);
      if !ok {
        return TargetTaken;
      }
      CheckedWriteKeepsKeys(rows, id, sub, config, multiset{});
      var rows' := rows[id := sub];
      forall o ensures |OwnedBy(rows', o)| <= config.maxSubs {
        WriteOwned(rows, id, sub, o);
      }
      rows := rows';
      return Accepted(id);
    }
  }
}
