/** Tables of numbered things, each thing under one key at most, and none lost from the account. */
module Tables {

  ghost predicate Injective<K(!new)>(m: map<K, nat>) {
    forall a, b :: a in m && b in m && m[a] == m[b] ==> a == b
  }

  /** Everything numbered below `created` is in the table or among those gone, exactly once. */
  ghost predicate Accounted<K(!new)>(table: map<K, nat>, created: nat, gone: multiset<nat>) {
    && Injective(table)
    && forall h: nat :: (if h in table.Values then 1 else 0) + gone[h] == if h < created then 1 else 0
  }

  /** Something new under a key; what was there before is gone. */
  lemma {:induction false} Replaced<K(!new)>(m: map<K, nat>, key: K, created: nat, gone: multiset<nat>)
    requires Accounted(m, created, gone)
    ensures Accounted(m[key := created], created + 1, if key in m then gone + multiset{m[key]} else gone)
  {
    var m' := m[key := created];
    var others := if key in m then m.Values - {m[key]} else m.Values;
    forall x | x in m'.Values ensures x in others + {created} {
      var k :| k in m' && m'[k] == x;
    }
    assert m'[key] == created;
    forall x | x in others ensures x in m'.Values {
      var k :| k in m && m[k] == x;
      assert m'[k] == x;
    }
    assert m'.Values == others + {created};
    assert forall k :: k in m ==> m[k] in m.Values;
  }

  /** What was under a key is gone. */
  lemma {:induction false} Removed<K(!new)>(m: map<K, nat>, key: K, created: nat, gone: multiset<nat>)
    requires Accounted(m, created, gone) && key in m
    ensures Accounted(m - {key}, created, gone + multiset{m[key]}) && |m - {key}| < |m|
  {
    var m' := m - {key};
    forall x | x in m.Values && x != m[key] ensures x in m'.Values {
      var k :| k in m && m[k] == x;
      assert m'[k] == x;
    }
    assert m'.Values == m.Values - {m[key]};
    assert m'.Keys == m.Keys - {key};
    assert |m'| == |m'.Keys| && |m| == |m.Keys|;
  }

  function Kept<K>(m: map<K, nat>, done: set<nat>): map<K, nat> {
    map k | k in m && m[k] !in done :: m[k]
  }

  ghost function Discarded<K>(m: map<K, nat>, done: set<nat>): set<nat> {
    set h | h in m.Values && h in done
  }

  /** Those that are done are gone, and only those. */
  lemma {:induction false} Retained<K(!new)>(m: map<K, nat>, done: set<nat>, created: nat, gone: multiset<nat>)
    requires Accounted(m, created, gone)
    ensures Accounted(Kept(m, done), created, gone + multiset(Discarded(m, done)))
  {
    var m' := Kept(m, done);
    forall x | x in m.Values && x !in done ensures x in m'.Values {
      var k :| k in m && m[k] == x;
      assert m'[k] == x;
    }
    assert m'.Values == m.Values - Discarded(m, done);
  }
}
