/** The rows one mailbox owns in the SQL index, and its `uid_next` counter.

    `log` is a history variable: every UID ever assigned and the key it went to, oldest first.  The
    counter is a uint32 and wraps. */
module UidTable {
  import opened Keys

  type Uid = nat

  const UINT32_RANGE: nat := 0x1_0000_0000

  datatype Message = Message(uid: Uid, key: Key)

  datatype Table = Table(rows: map<Key, Uid>, uidNext: Uid, log: seq<Message>)

  /** A mailbox row as `EnsureMailbox` creates it. */
  const NEW_TABLE := Table(map[], 1, [])

  /** The two UNIQUE constraints. */
  predicate CanInsert(t: Table, key: Key) {
    key !in t.rows && t.uidNext !in t.rows.Values
  }

  function Inserted(t: Table, key: Key): Table {
    Table(t.rows[key := t.uidNext], (t.uidNext + 1) % UINT32_RANGE, t.log + [Message(t.uidNext, key)])
  }

  function Without(t: Table, key: Key): Table {
    t.(rows := t.rows - {key})
  }

  /** `DeleteMessagesNotIn`. */
  function Pruned(t: Table, keys: seq<Key>): Table {
    t.(rows := map k | k in t.rows && k in keys :: t.rows[k])
  }

  // ---------- UIDs are never reused ----------

  /** What holds of every table in every run, wrap-around or not. */
  ghost predicate Shaped(t: Table) {
    && t.uidNext == (1 + |t.log|) % UINT32_RANGE
    && (forall i :: 0 <= i < |t.log| ==> t.log[i].uid == (1 + i) % UINT32_RANGE)
    && (forall k :: k in t.rows ==> Message(t.rows[k], k) in t.log)
  }

  /** No UID was given twice. */
  ghost predicate GivenOnce(t: Table) {
    forall i, j :: 0 <= i < j < |t.log| ==> t.log[i].uid != t.log[j].uid
  }

  /** The counter is above every UID given so far: none of them is still to come. */
  ghost predicate BelowCounter(t: Table) {
    forall i :: 0 <= i < |t.log| ==> t.log[i].uid < t.uidNext
  }

  /** The counter has not run out: fewer than 2^32 - 1 UIDs were ever assigned. */
  predicate CounterLasts(t: Table) {
    |t.log| < UINT32_RANGE - 1
  }

  lemma InsertedShaped(t: Table, key: Key)
    requires Shaped(t)
    ensures Shaped(Inserted(t, key))
  {
    var t' := Inserted(t, key);
    assert t'.log[..|t.log|] == t.log && t'.log[|t.log|] == Message(t.uidNext, key);
    forall k | k in t'.rows
      ensures Message(t'.rows[k], k) in t'.log
    {
      if k != key { assert Message(t.rows[k], k) in t.log; }
    }
  }

  /** The counter is above every UID given exactly as long as it has not wrapped. */
  lemma BelowCounterIff(t: Table)
    requires Shaped(t)
    ensures BelowCounter(t) <==> CounterLasts(t)
  {
    if CounterLasts(t) {
      assert forall i :: 0 <= i < |t.log| ==> t.log[i].uid == 1 + i;
    } else {
      assert t.log[UINT32_RANGE - 2].uid == UINT32_RANGE - 1;
    }
  }

  /** No UID was given twice exactly as long as there were enough of them: after the largest comes 0, and
      only then 1 again. */
  lemma GivenOnceIff(t: Table)
    requires Shaped(t)
    ensures GivenOnce(t) <==> |t.log| <= UINT32_RANGE
  {
    if |t.log| > UINT32_RANGE {
      assert t.log[0].uid == 1 && t.log[UINT32_RANGE].uid == 1;
    } else {
      forall i, j | 0 <= i < j < |t.log| ensures t.log[i].uid != t.log[j].uid {
        assert t.log[i].uid == 1 + i;
        assert t.log[j].uid == if j == UINT32_RANGE - 1 then 0 else 1 + j;
      }
    }
  }

  lemma RowIsLogged(t: Table, k: Key)
    requires Shaped(t) && CounterLasts(t) && k in t.rows
    ensures 0 < t.rows[k] <= |t.log| && t.log[t.rows[k] - 1] == Message(t.rows[k], k)
  {
    var i :| 0 <= i < |t.log| && t.log[i] == Message(t.rows[k], k);
    assert t.log[i].uid == 1 + i;
  }

  /** With the counter intact, the rows are an injective, bounded part of the log, and the next insert
      of an unindexed key cannot violate a constraint. */
  lemma RowsAreSound(t: Table)
    requires Shaped(t) && CounterLasts(t)
    ensures forall k, l :: k in t.rows && l in t.rows && t.rows[k] == t.rows[l] ==> k == l
    ensures forall k :: k in t.rows ==> 0 < t.rows[k] < t.uidNext
    ensures t.uidNext == 1 + |t.log| && t.uidNext !in t.rows.Values
    ensures forall key :: key !in t.rows ==> CanInsert(t, key)
  {
    forall k | k in t.rows
      ensures 0 < t.rows[k] <= |t.log| && t.log[t.rows[k] - 1] == Message(t.rows[k], k)
    {
      RowIsLogged(t, k);
    }
  }
}
