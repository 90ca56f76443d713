/** Reconciling one folder: the sorted listing of its directory, the rows of its index and the list in
    memory become one list again.

    `cached` is the list seen as a map, `known` the rows as read before the stale ones are deleted. */
module Reload {
  import opened Keys
  import opened Sequences
  import opened UidTable

  type Index = map<Key, Uid>

  /** Where a database or directory failure may hit; inserts may fail after any number of them. */
  datatype Fault = NoFault | ListFails | SelectFails | PruneFails | InsertFails(after: nat)

  // ---------- ordering by UID ----------

  ghost predicate UidAscending(list: seq<Message>) {
    forall i, j :: 0 <= i < j < |list| ==> list[i].uid < list[j].uid
  }

  ghost predicate UidSorted(list: seq<Message>) {
    forall i, j :: 0 <= i < j < |list| ==> list[i].uid <= list[j].uid
  }

  function InsertByUid(list: seq<Message>, m: Message): (r: seq<Message>)
    ensures |r| == |list| + 1
  {
    if list == [] || m.uid <= list[0].uid then [m] + list
    else [list[0]] + InsertByUid(list[1..], m)
  }

  /** `sort.Slice` by UID. */
  function SortByUid(list: seq<Message>): (r: seq<Message>)
    ensures |r| == |list|
  {
    if list == [] then [] else InsertByUid(SortByUid(list[1..]), list[0])
  }

  lemma {:induction false} InsertMembers(list: seq<Message>, m: Message, x: Message)
    ensures x in InsertByUid(list, m) <==> x in list || x == m
  {
    if list != [] && m.uid > list[0].uid {
      InsertMembers(list[1..], m, x);
      assert list == [list[0]] + list[1..];
    }
  }

  lemma InsertedBelow(list: seq<Message>, m: Message)
    requires list != [] && m.uid > list[0].uid && UidSorted(list)
    ensures forall x :: x in InsertByUid(list[1..], m) ==> list[0].uid <= x.uid
    ensures UidAscending(list) ==> forall x :: x in InsertByUid(list[1..], m) ==> list[0].uid < x.uid
  {
    forall x | x in InsertByUid(list[1..], m)
      ensures x in list[1..] || x == m
    {
      InsertMembers(list[1..], m, x);
    }
  }

  lemma {:induction false} InsertKeepsSorted(list: seq<Message>, m: Message)
    requires UidSorted(list)
    ensures UidSorted(InsertByUid(list, m))
  {
    if list != [] && m.uid > list[0].uid {
      InsertKeepsSorted(list[1..], m);
      InsertedBelow(list, m);
    }
  }

  lemma {:induction false} InsertKeepsAscending(list: seq<Message>, m: Message)
    requires UidAscending(list) && forall x :: x in list ==> x.uid != m.uid
    ensures UidAscending(InsertByUid(list, m))
  {
    if list != [] && m.uid > list[0].uid {
      InsertKeepsAscending(list[1..], m);
      InsertedBelow(list, m);
    }
  }

  lemma {:induction false} SortMembers(list: seq<Message>, x: Message)
    ensures x in SortByUid(list) <==> x in list
  {
    if list != [] {
      SortMembers(list[1..], x);
      InsertMembers(SortByUid(list[1..]), list[0], x);
      assert list == [list[0]] + list[1..];
    }
  }

  /** Sorting puts the UIDs in order ... */
  lemma {:induction false} SortIsSorted(list: seq<Message>)
    ensures UidSorted(SortByUid(list))
  {
    if list != [] {
      SortIsSorted(list[1..]);
      InsertKeepsSorted(SortByUid(list[1..]), list[0]);
    }
  }

  /** ... strictly when no UID occurs twice. */
  lemma {:induction false} SortIsStrict(list: seq<Message>)
    requires forall i, j :: 0 <= i < j < |list| ==> list[i].uid != list[j].uid
    ensures UidAscending(SortByUid(list))
  {
    if list != [] {
      assert forall i :: 0 <= i < |list| - 1 ==> list[1..][i] == list[i + 1];
      SortIsStrict(list[1..]);
      forall x | x in SortByUid(list[1..])
        ensures x.uid != list[0].uid
      {
        SortMembers(list[1..], x);
      }
      InsertKeepsAscending(SortByUid(list[1..]), list[0]);
    }
  }

  lemma {:induction false} InsertCounts(list: seq<Message>, m: Message)
    ensures multiset(InsertByUid(list, m)) == multiset(list) + multiset{m}
  {
    if list != [] && m.uid > list[0].uid {
      InsertCounts(list[1..], m);
      assert list == [list[0]] + list[1..];
    }
  }

  /** Sorting neither drops nor adds a message. */
  lemma {:induction false} SortCounts(list: seq<Message>)
    ensures multiset(SortByUid(list)) == multiset(list)
  {
    if list != [] {
      SortCounts(list[1..]);
      InsertCounts(SortByUid(list[1..]), list[0]);
      assert list == [list[0]] + list[1..];
    }
  }

  lemma TwiceIsCounted(list: seq<Message>, i: nat, j: nat)
    requires i < j < |list| && list[i] == list[j]
    ensures multiset(list)[list[i]] >= 2
  {
    assert list == list[..i] + [list[i]] + list[i + 1..j] + [list[j]] + list[j + 1..];
  }

  lemma {:induction false} AscendingCountsOnce(list: seq<Message>, m: Message)
    requires UidAscending(list)
    ensures multiset(list)[m] <= 1
  {
    if list != [] {
      assert list == [list[0]] + list[1..];
      AscendingCountsOnce(list[1..], m);
      if list[0] == m {
        assert forall i :: 0 <= i < |list| - 1 ==> list[1..][i] == list[i + 1];
        assert m !in list[1..];
      }
    }
  }

  /** A list with the same message twice does not sort strictly. */
  lemma RepeatIsNotStrict(list: seq<Message>, i: nat, j: nat)
    requires i < j < |list| && list[i] == list[j]
    ensures !UidAscending(SortByUid(list))
  {
    TwiceIsCounted(list, i, j);
    SortCounts(list);
    if UidAscending(SortByUid(list)) {
      AscendingCountsOnce(SortByUid(list), list[i]);
    }
  }

  // ---------- the reconciliation ----------

  /** `existingByKey`: the list as a map, a later duplicate winning. */
  function CacheOf(list: seq<Message>): Index {
    if list == [] then map[] else
      var last := list[|list| - 1];
      CacheOf(list[..|list| - 1])[last.key := last.uid]
  }

  datatype Indexed = Indexed(table: Table, list: seq<Message>, ok: bool)

  /** Walks the listing: cached messages and known rows keep their UID, other files get the next one. */
  function IndexAll(keys: seq<Key>, cached: Index, known: Index, t: Table, budget: nat): Indexed {
    if keys == [] then
      Indexed(t, [], true)
    else if keys[0] in cached || keys[0] in known then
      var uid := if keys[0] in cached then cached[keys[0]] else known[keys[0]];
      var rest := IndexAll(keys[1..], cached, known, t, budget);
      Indexed(rest.table, [Message(uid, keys[0])] + rest.list, rest.ok)
    else if budget == 0 || !CanInsert(t, keys[0]) then
      Indexed(t, [], false)
    else
      var rest := IndexAll(keys[1..], cached, known, Inserted(t, keys[0]), budget - 1);
      Indexed(rest.table, [Message(t.uidNext, keys[0])] + rest.list, rest.ok)
  }

  function Budget(fault: Fault, files: nat): nat {
    if fault.InsertFails? then fault.after else files
  }

  /** `reloadLocked`: the new index, the new list and whether the reload succeeded. */
  function Reloaded(keys: seq<Key>, t: Table, list: seq<Message>, fault: Fault): Indexed {
    if fault.ListFails? || fault.SelectFails? || fault.PruneFails? then
      Indexed(t, list, false)
    else
      var r := IndexAll(keys, CacheOf(list), t.rows, Pruned(t, keys), Budget(fault, |keys|));
      Indexed(r.table, if r.ok then SortByUid(r.list) else list, r.ok)
  }

  // ---------- warm and cold reload ----------

  /** Every cached message whose file is on disk has its row, with the same UID. */
  ghost predicate CacheSound(keys: seq<Key>, cached: Index, rows: Index) {
    forall i :: 0 <= i < |keys| && keys[i] in cached ==>
      keys[i] in rows && rows[keys[i]] == cached[keys[i]]
  }

  lemma {:induction false} CacheUnneeded(keys: seq<Key>, cached: Index, known: Index, t: Table, budget: nat)
    requires CacheSound(keys, cached, known)
    ensures IndexAll(keys, cached, known, t, budget) == IndexAll(keys, map[], known, t, budget)
  {
    if keys != [] {
      if keys[0] in cached || keys[0] in known {
        CacheUnneeded(keys[1..], cached, known, t, budget);
      } else if budget > 0 && CanInsert(t, keys[0]) {
        CacheUnneeded(keys[1..], cached, known, Inserted(t, keys[0]), budget - 1);
      }
    }
  }

  /** What a walk that succeeds gives: one entry a file in listing order, cached and known ones with
      the UID they had, new ones with a UID not below the counter it started from. */
  lemma {:induction false} WalkShape(keys: seq<Key>, cached: Index, known: Index, t: Table, budget: nat)
    requires IndexAll(keys, cached, known, t, budget).ok
    requires |t.log| + |keys| < UINT32_RANGE - 1 && t.uidNext == 1 + |t.log|
    ensures var r := IndexAll(keys, cached, known, t, budget);
            && |r.list| == |keys|
            && (forall i :: 0 <= i < |keys| ==> r.list[i].key == keys[i])
            && (forall i :: 0 <= i < |keys| && keys[i] in cached ==> r.list[i].uid == cached[keys[i]])
            && (forall i :: 0 <= i < |keys| && keys[i] !in cached && keys[i] in known ==>
                  r.list[i].uid == known[keys[i]])
            && (forall i :: 0 <= i < |keys| && keys[i] !in cached && keys[i] !in known ==>
                  r.list[i].uid >= t.uidNext)
  {
    if keys != [] {
      var rest := if keys[0] in cached || keys[0] in known
        then IndexAll(keys[1..], cached, known, t, budget)
        else IndexAll(keys[1..], cached, known, Inserted(t, keys[0]), budget - 1);
      if keys[0] in cached || keys[0] in known {
        WalkShape(keys[1..], cached, known, t, budget);
      } else {
        WalkShape(keys[1..], cached, known, Inserted(t, keys[0]), budget - 1);
      }
      assert forall i :: 1 <= i < |keys| ==> keys[i] == keys[1..][i - 1];
      assert IndexAll(keys, cached, known, t, budget).list[1..] == rest.list;
    }
  }

  /** Only names that are neither cached nor known may not repeat. */
  ghost predicate NewOnesOnce(keys: seq<Key>, cached: Index, known: Index) {
    forall i, j :: 0 <= i < j < |keys| && keys[i] !in cached && keys[i] !in known ==> keys[i] != keys[j]
  }

  /** A walk succeeds when nothing new is listed twice (the file of one key both in new/ and cur/). */
  lemma {:induction false} WalkSucceeds(keys: seq<Key>, cached: Index, known: Index, t: Table, budget: nat)
    requires Shaped(t) && budget >= |keys| && CounterLasts(IndexAll(keys, cached, known, t, budget).table)
    requires forall i :: 0 <= i < |keys| && keys[i] !in known && keys[i] !in cached ==> keys[i] !in t.rows
    requires NewOnesOnce(keys, cached, known)
    ensures IndexAll(keys, cached, known, t, budget).ok
  {
    if keys != [] {
      WalkExtends(keys, cached, known, t, budget);
      RowsAreSound(t);
      assert forall i :: 0 <= i < |keys| - 1 ==> keys[1..][i] == keys[i + 1];
      if keys[0] in cached || keys[0] in known {
        WalkSucceeds(keys[1..], cached, known, t, budget);
      } else {
        InsertedShaped(t, keys[0]);
        WalkSucceeds(keys[1..], cached, known, Inserted(t, keys[0]), budget - 1);
      }
    }
  }

  /** A walk that meets an unindexed name already given a row cannot succeed. */
  lemma {:induction false} WalkFailsOnTaken(keys: seq<Key>, cached: Index, known: Index, t: Table, budget: nat, i: nat)
    requires i < |keys| && keys[i] !in cached && keys[i] !in known && keys[i] in t.rows
    ensures !IndexAll(keys, cached, known, t, budget).ok
  {
    if i > 0 {
      assert keys[1..][i - 1] == keys[i];
      if keys[0] in cached || keys[0] in known {
        WalkFailsOnTaken(keys[1..], cached, known, t, budget, i - 1);
      } else if budget > 0 && CanInsert(t, keys[0]) {
        WalkFailsOnTaken(keys[1..], cached, known, Inserted(t, keys[0]), budget - 1, i - 1);
      }
    }
  }

  lemma {:induction false} WalkFailsOnRepeat(keys: seq<Key>, cached: Index, known: Index, t: Table, budget: nat,
                                             i: nat, j: nat)
    requires i < j < |keys| && keys[i] == keys[j] && keys[i] !in cached && keys[i] !in known
    ensures !IndexAll(keys, cached, known, t, budget).ok
  {
    assert keys[1..][j - 1] == keys[j];
    if i > 0 {
      assert keys[1..][i - 1] == keys[i];
      if keys[0] in cached || keys[0] in known {
        WalkFailsOnRepeat(keys[1..], cached, known, t, budget, i - 1, j - 1);
      } else if budget > 0 && CanInsert(t, keys[0]) {
        WalkFailsOnRepeat(keys[1..], cached, known, Inserted(t, keys[0]), budget - 1, i - 1, j - 1);
      }
    } else if budget > 0 && CanInsert(t, keys[0]) {
      WalkFailsOnTaken(keys[1..], cached, known, Inserted(t, keys[0]), budget - 1, j - 1);
    }
  }

  lemma FailsOnRepeat(keys: seq<Key>, cached: Index, known: Index, t: Table, budget: nat)
    requires !NewOnesOnce(keys, cached, known)
    ensures !IndexAll(keys, cached, known, t, budget).ok
  {
    var i, j :| 0 <= i < j < |keys| && keys[i] !in cached && keys[i] !in known && keys[i] == keys[j];
    WalkFailsOnRepeat(keys, cached, known, t, budget, i, j);
  }

  /** Without a database failure, and while the counter lasts, one reload succeeds exactly when no
      unindexed key is listed twice. */
  lemma ReloadSucceedsIff(keys: seq<Key>, t: Table, list: seq<Message>)
    requires Shaped(t) && CounterLasts(Reloaded(keys, t, list, NoFault).table)
    ensures Reloaded(keys, t, list, NoFault).ok <==> NewOnesOnce(keys, CacheOf(list), t.rows)
  {
    var cached, pruned := CacheOf(list), Pruned(t, keys);
    if NewOnesOnce(keys, cached, t.rows) {
      WalkSucceeds(keys, cached, t.rows, pruned, |keys|);
    } else {
      FailsOnRepeat(keys, cached, t.rows, pruned, |keys|);
    }
  }

  lemma ReloadGrowsLog(keys: seq<Key>, t: Table, list: seq<Message>)
    ensures |Reloaded(keys, t, list, NoFault).table.log| <= |t.log| + |keys|
  {
    WalkExtends(keys, CacheOf(list), t.rows, Pruned(t, keys), |keys|);
  }

  lemma {:induction false} CacheFromList(list: seq<Message>, k: Key)
    requires k in CacheOf(list)
    ensures Message(CacheOf(list)[k], k) in list
  {
    var last := list[|list| - 1];
    if last.key != k {
      CacheFromList(list[..|list| - 1], k);
    }
  }

  /** A cached UID that is not the row's shows in the result of the walk. */
  lemma MismatchShows(keys: seq<Key>, cached: Index, known: Index, t: Table, i: nat)
    requires |t.log| + |keys| < UINT32_RANGE - 1 && t.uidNext == 1 + |t.log|
    requires IndexAll(keys, cached, known, t, |keys|).ok && IndexAll(keys, map[], known, t, |keys|).ok
    requires i < |keys| && keys[i] in cached && cached[keys[i]] < t.uidNext
    requires !(keys[i] in known && known[keys[i]] == cached[keys[i]])
    ensures Message(cached[keys[i]], keys[i]) in IndexAll(keys, cached, known, t, |keys|).list
    ensures Message(cached[keys[i]], keys[i]) !in IndexAll(keys, map[], known, t, |keys|).list
  {
    var cold := IndexAll(keys, map[], known, t, |keys|);
    WalkShape(keys, cached, known, t, |keys|);
    assert IndexAll(keys, cached, known, t, |keys|).list[i] == Message(cached[keys[i]], keys[i]);
    WalkShape(keys, map[], known, t, |keys|);
    forall j | 0 <= j < |keys|
      ensures cold.list[j] != Message(cached[keys[i]], keys[i])
    {
      assert cold.list[j].key == keys[j];
    }
  }

  /** A reload with the list in memory does exactly what a reload after a restart does when every listed
      message still on disk has its row, with its UID; and if the one after the restart succeeds, the two
      lists agree only then. */
  lemma WarmEqualsColdIff(keys: seq<Key>, t: Table, list: seq<Message>)
    requires Shaped(t) && |t.log| + |keys| < UINT32_RANGE - 1
    requires forall m :: m in list ==> m.uid < t.uidNext
    ensures var warm, cold := Reloaded(keys, t, list, NoFault), Reloaded(keys, t, [], NoFault);
            && (CacheSound(keys, CacheOf(list), t.rows) ==>
                  warm.ok == cold.ok && warm.table == cold.table && (warm.ok ==> warm.list == cold.list))
            && (cold.ok ==> warm.ok && (warm.list == cold.list <==> CacheSound(keys, CacheOf(list), t.rows)))
  {
    var cached, pruned := CacheOf(list), Pruned(t, keys);
    ReloadGrowsLog(keys, t, list);
    ReloadGrowsLog(keys, t, []);
    ReloadSucceedsIff(keys, t, list);
    ReloadSucceedsIff(keys, t, []);
    if CacheSound(keys, cached, t.rows) {
      CacheUnneeded(keys, cached, t.rows, pruned, |keys|);
    } else if Reloaded(keys, t, [], NoFault).ok {
      RowsAreSound(t);
      var i :| 0 <= i < |keys| && keys[i] in cached
               && !(keys[i] in t.rows && t.rows[keys[i]] == cached[keys[i]]);
      var m := Message(cached[keys[i]], keys[i]);
      CacheFromList(list, keys[i]);
      MismatchShows(keys, cached, t.rows, pruned, i);
      SortMembers(IndexAll(keys, cached, t.rows, pruned, |keys|).list, m);
      SortMembers(IndexAll(keys, map[], t.rows, pruned, |keys|).list, m);
    }
  }

  // ---------- what a successful reload establishes ----------

  ghost predicate Extends(t: Table, t': Table) {
    && t.log <= t'.log
    && (forall k :: k in t.rows ==> k in t'.rows && t'.rows[k] == t.rows[k])
  }

  ghost predicate Matching(keys: seq<Key>, known: Index, rows: Index) {
    forall i :: 0 <= i < |keys| ==>
      (keys[i] in known <==> keys[i] in rows) && (keys[i] in known ==> known[keys[i]] == rows[keys[i]])
  }

  /** Every walk, finished or not, only adds rows for listed files and log entries. */
  lemma {:induction false} WalkExtends(keys: seq<Key>, cached: Index, known: Index, t: Table, budget: nat)
    ensures var t' := IndexAll(keys, cached, known, t, budget).table;
            && Extends(t, t') && |t'.log| <= |t.log| + |keys|
            && (forall k :: k in t'.rows ==> k in t.rows || k in keys)
  {
    if keys != [] {
      assert keys == [keys[0]] + keys[1..];
      if keys[0] in cached || keys[0] in known {
        WalkExtends(keys[1..], cached, known, t, budget);
      } else if budget > 0 && CanInsert(t, keys[0]) {
        WalkExtends(keys[1..], cached, known, Inserted(t, keys[0]), budget - 1);
      }
    }
  }

  lemma {:induction false} WalkKeepsShape(keys: seq<Key>, cached: Index, known: Index, t: Table, budget: nat)
    requires Shaped(t)
    ensures Shaped(IndexAll(keys, cached, known, t, budget).table)
  {
    if keys != [] {
      if keys[0] in cached || keys[0] in known {
        WalkKeepsShape(keys[1..], cached, known, t, budget);
      } else if budget > 0 && CanInsert(t, keys[0]) {
        InsertedShaped(t, keys[0]);
        WalkKeepsShape(keys[1..], cached, known, Inserted(t, keys[0]), budget - 1);
      }
    }
  }

  /** A finished walk leaves a row for every file, with the UID of its list entry. */
  lemma {:induction false} WalkRows(keys: seq<Key>, cached: Index, known: Index, t: Table, budget: nat, i: nat)
    requires NewOnesOnce(keys, cached, known) && Matching(keys, known, t.rows) && CacheSound(keys, cached, known)
    requires IndexAll(keys, cached, known, t, budget).ok && i < |keys|
    ensures var r := IndexAll(keys, cached, known, t, budget);
            && |r.list| == |keys| && r.list[i].key == keys[i]
            && keys[i] in r.table.rows && r.table.rows[keys[i]] == r.list[i].uid
  {
    assert forall j :: 0 <= j < |keys| - 1 ==> keys[1..][j] == keys[j + 1];
    var listed := keys[0] in cached || keys[0] in known;
    var t1 := if listed then t else Inserted(t, keys[0]);
    var b1 := if listed then budget else budget - 1;
    if i > 0 {
      WalkRows(keys[1..], cached, known, t1, b1, i - 1);
    } else {
      WalkExtends(keys[1..], cached, known, t1, b1);
      if |keys| > 1 { WalkRows(keys[1..], cached, known, t1, b1, 0); }
    }
  }

  /** The list, the rows and the directory hold the same keys, every listed UID is its row's, and the
      list is ordered by UID. */
  ghost predicate InStep(keys: seq<Key>, rows: Index, list: seq<Message>) {
    && UidSorted(list)
    && (forall k :: k in rows <==> k in keys)
    && (forall m :: m in list <==> m.key in rows && rows[m.key] == m.uid)
  }

  /** The list names exactly the files and gives each its row's UID. */
  ghost predicate ListsRows(keys: seq<Key>, rows: Index, list: seq<Message>) {
    && |list| == |keys|
    && (forall i :: 0 <= i < |keys| ==>
          list[i].key == keys[i] && keys[i] in rows && rows[keys[i]] == list[i].uid)
  }

  /** One message a UID exactly when no key is listed twice. */
  lemma StrictIffDistinct(keys: seq<Key>, t: Table, list: seq<Message>)
    requires Shaped(t) && CounterLasts(t) && ListsRows(keys, t.rows, list)
    ensures UidAscending(SortByUid(list)) <==> Distinct(keys)
  {
    if Distinct(keys) {
      RowsAreSound(t);
      forall i, j | 0 <= i < j < |list|
        ensures list[i].uid != list[j].uid
      {
        assert keys[i] != keys[j];
      }
      SortIsStrict(list);
    } else {
      var i, j :| 0 <= i < j < |keys| && keys[i] == keys[j];
      RepeatIsNotStrict(list, i, j);
    }
  }

  lemma ListedAreRows(keys: seq<Key>, rows: Index, list: seq<Message>, m: Message)
    requires ListsRows(keys, rows, list) && forall k :: k in rows ==> k in keys
    ensures m in list <==> m.key in rows && rows[m.key] == m.uid
  {
    if m.key in rows && rows[m.key] == m.uid {
      var i :| 0 <= i < |keys| && keys[i] == m.key;
      assert list[i] == m;
    }
  }

  lemma ListIsRows(keys: seq<Key>, rows: Index, list: seq<Message>)
    requires ListsRows(keys, rows, list)
    requires forall k :: k in rows ==> k in keys
    ensures InStep(keys, rows, SortByUid(list))
  {
    SortIsSorted(list);
    forall m
      ensures m in SortByUid(list) <==> m.key in rows && rows[m.key] == m.uid
    {
      SortMembers(list, m);
      ListedAreRows(keys, rows, list, m);
    }
  }

  lemma SuccessListsRows(keys: seq<Key>, t: Table, list: seq<Message>, fault: Fault, walk: Indexed)
    requires CacheSound(keys, CacheOf(list), t.rows)
    requires walk == IndexAll(keys, CacheOf(list), t.rows, Pruned(t, keys), Budget(fault, |keys|)) && walk.ok
    ensures ListsRows(keys, walk.table.rows, walk.list)
    ensures forall k :: k in walk.table.rows ==> k in keys
  {
    var cached, pruned, n := CacheOf(list), Pruned(t, keys), Budget(fault, |keys|);
    WalkExtends(keys, cached, t.rows, pruned, n);
    if !NewOnesOnce(keys, cached, t.rows) {
      FailsOnRepeat(keys, cached, t.rows, pruned, n);
    }
    forall i | 0 <= i < |keys|
      ensures |walk.list| == |keys| && walk.list[i].key == keys[i]
              && keys[i] in walk.table.rows && walk.table.rows[keys[i]] == walk.list[i].uid
    {
      WalkRows(keys, cached, t.rows, pruned, n, i);
    }
  }

  /** What any reload that succeeds establishes; its list has one message a UID exactly when no key is
      listed twice. */
  lemma ReloadBringsInStep(keys: seq<Key>, t: Table, list: seq<Message>, fault: Fault)
    requires Shaped(t) && CacheSound(keys, CacheOf(list), t.rows)
    requires Reloaded(keys, t, list, fault).ok && CounterLasts(Reloaded(keys, t, list, fault).table)
    ensures var r := Reloaded(keys, t, list, fault);
            && InStep(keys, r.table.rows, r.list)
            && (UidAscending(r.list) <==> Distinct(keys))
  {
    var walk := IndexAll(keys, CacheOf(list), t.rows, Pruned(t, keys), Budget(fault, |keys|));
    WalkKeepsShape(keys, CacheOf(list), t.rows, Pruned(t, keys), Budget(fault, |keys|));
    SuccessListsRows(keys, t, list, fault, walk);
    ListIsRows(keys, walk.table.rows, walk.list);
    StrictIffDistinct(keys, walk.table, walk.list);
  }

  // ---------- interrupted reloads ----------

  /** A second walk from the rows the first one left ends where an uninterrupted one would have. */
  ghost predicate Resumes(keys: seq<Key>, cached: Index, known: Index, t: Table, n: nat, b: nat, b': nat) {
    var t1 := IndexAll(keys, cached, known, t, n).table;
    IndexAll(keys, cached, t1.rows, t1, b) == IndexAll(keys, cached, known, t, b')
  }

  lemma ResumesAfterListed(keys: seq<Key>, cached: Index, known: Index, t: Table, n: nat, b: nat, b': nat)
    requires keys != [] && (keys[0] in cached || keys[0] in known)
    requires keys[0] in known ==> keys[0] in t.rows && t.rows[keys[0]] == known[keys[0]]
    requires Extends(t, IndexAll(keys[1..], cached, known, t, n).table)
    requires Resumes(keys[1..], cached, known, t, n, b, b')
    ensures Resumes(keys, cached, known, t, n, b, b')
  {
    var t1 := IndexAll(keys[1..], cached, known, t, n).table;
    assert IndexAll(keys, cached, known, t, n).table == t1;
    assert keys[0] in cached || (keys[0] in t1.rows && t1.rows[keys[0]] == known[keys[0]]);
  }

  lemma ResumesAfterInsert(keys: seq<Key>, cached: Index, known: Index, t: Table, n: nat, b: nat, b': nat)
    requires keys != [] && keys[0] !in cached && keys[0] !in known && CanInsert(t, keys[0])
    requires n > 0 && b' > 0
    requires Extends(Inserted(t, keys[0]), IndexAll(keys[1..], cached, known, Inserted(t, keys[0]), n - 1).table)
    requires Resumes(keys[1..], cached, known, Inserted(t, keys[0]), n - 1, b, b' - 1)
    ensures Resumes(keys, cached, known, t, n, b, b')
  {
    var t1 := IndexAll(keys[1..], cached, known, Inserted(t, keys[0]), n - 1).table;
    assert IndexAll(keys, cached, known, t, n).table == t1;
    assert keys[0] in Inserted(t, keys[0]).rows;
    assert t1.rows[keys[0]] == t.uidNext;
  }

  lemma TailFacts(keys: seq<Key>, cached: Index, known: Index, rows: Index, uid: Uid)
    requires keys != [] && NewOnesOnce(keys, cached, known) && Matching(keys, known, rows)
    ensures NewOnesOnce(keys[1..], cached, known) && Matching(keys[1..], known, rows)
    ensures keys[0] !in cached && keys[0] !in known ==> Matching(keys[1..], known, rows[keys[0] := uid])
  {
    assert forall j :: 0 <= j < |keys| - 1 ==> keys[1..][j] == keys[j + 1];
  }

  /** Wherever a walk is interrupted, it can be picked up again. */
  lemma {:induction false} WalkResumes(keys: seq<Key>, cached: Index, known: Index, t: Table, n: nat, b: nat, b': nat)
    requires NewOnesOnce(keys, cached, known) && Matching(keys, known, t.rows) && b >= |keys| && b' >= |keys|
    ensures Resumes(keys, cached, known, t, n, b, b')
    decreases keys, 1
  {
    if keys != [] && (keys[0] in cached || keys[0] in known) {
      TailFacts(keys, cached, known, t.rows, t.uidNext);
      WalkExtends(keys[1..], cached, known, t, n);
      WalkResumes(keys[1..], cached, known, t, n, b, b');
      ResumesAfterListed(keys, cached, known, t, n, b, b');
    } else if keys != [] {
      WalkResumesAtNew(keys, cached, known, t, n, b, b');
    }
  }

  lemma {:induction false} WalkResumesAtNew(keys: seq<Key>, cached: Index, known: Index, t: Table, n: nat, b: nat, b': nat)
    requires NewOnesOnce(keys, cached, known) && Matching(keys, known, t.rows) && b >= |keys| && b' >= |keys|
    requires keys != [] && keys[0] !in cached && keys[0] !in known
    ensures Resumes(keys, cached, known, t, n, b, b')
    decreases keys, 0
  {
    if n == 0 || !CanInsert(t, keys[0]) {
      SameKnown(keys, cached, t.rows, known, t, b, b');
    } else {
      TailFacts(keys, cached, known, t.rows, t.uidNext);
      var t1 := Inserted(t, keys[0]);
      WalkExtends(keys[1..], cached, known, t1, n - 1);
      WalkResumes(keys[1..], cached, known, t1, n - 1, b, b' - 1);
      ResumesAfterInsert(keys, cached, known, t, n, b, b');
    }
  }

  lemma {:induction false} SameKnown(keys: seq<Key>, cached: Index, known: Index, known': Index, t: Table, b: nat, b': nat)
    requires Matching(keys, known, known') && b >= |keys| && b' >= |keys|
    ensures IndexAll(keys, cached, known, t, b) == IndexAll(keys, cached, known', t, b')
  {
    if keys != [] {
      assert forall j :: 0 <= j < |keys| - 1 ==> keys[1..][j] == keys[j + 1];
      if keys[0] in cached || keys[0] in known {
        SameKnown(keys[1..], cached, known, known', t, b, b');
      } else if CanInsert(t, keys[0]) {
        SameKnown(keys[1..], cached, known, known', Inserted(t, keys[0]), b - 1, b' - 1);
      }
    }
  }

  /** A reload that fails leaves the list alone, and a reload of the same directory after it gives the
      index and the list of a single uninterrupted reload. */
  ghost predicate Harmless(keys: seq<Key>, t: Table, list: seq<Message>, fault: Fault) {
    var broken := Reloaded(keys, t, list, fault);
    !broken.ok ==>
      && broken.list == list
      && Reloaded(keys, broken.table, list, NoFault) == Reloaded(keys, t, list, NoFault)
  }

  /** An interrupted reload is harmless when no unindexed key is listed twice. */
  lemma InterruptedReloadIsHarmless(keys: seq<Key>, t: Table, list: seq<Message>, fault: Fault)
    requires NewOnesOnce(keys, CacheOf(list), t.rows)
    ensures Harmless(keys, t, list, fault)
  {
    var broken := Reloaded(keys, t, list, fault);
    var pruned := Pruned(t, keys);
    if !broken.ok && !(fault.ListFails? || fault.SelectFails? || fault.PruneFails?) {
      var n := Budget(fault, |keys|);
      WalkExtends(keys, CacheOf(list), t.rows, pruned, n);
      assert Pruned(broken.table, keys) == broken.table;
      WalkResumes(keys, CacheOf(list), t.rows, pruned, n, |keys|, |keys|);
    }
  }

  /** The index left by a series of reloads that all fail. */
  function AfterFailures(keys: seq<Key>, t: Table, list: seq<Message>, faults: seq<Fault>): Table
    decreases |faults|
  {
    if faults == [] then t
    else AfterFailures(keys, Reloaded(keys, t, list, faults[0]).table, list, faults[1..])
  }

  ghost predicate AllFail(keys: seq<Key>, t: Table, list: seq<Message>, faults: seq<Fault>)
    decreases |faults|
  {
    faults != [] ==>
      var r := Reloaded(keys, t, list, faults[0]);
      !r.ok && AllFail(keys, r.table, list, faults[1..])
  }

  lemma FewerAreNew(keys: seq<Key>, t: Table, list: seq<Message>, fault: Fault)
    ensures var r := Reloaded(keys, t, list, fault);
            && (forall k :: k in keys && k in t.rows ==> k in r.table.rows)
            && (NewOnesOnce(keys, CacheOf(list), t.rows) ==> NewOnesOnce(keys, CacheOf(list), r.table.rows))
  {
    WalkExtends(keys, CacheOf(list), t.rows, Pruned(t, keys), Budget(fault, |keys|));
    assert forall k :: k in keys && k in t.rows ==> k in Pruned(t, keys).rows;
  }

  /** So is any number of them in a row. */
  lemma {:induction false} AnyNumberOfInterruptions(keys: seq<Key>, t: Table, list: seq<Message>, faults: seq<Fault>)
    requires NewOnesOnce(keys, CacheOf(list), t.rows) && AllFail(keys, t, list, faults)
    ensures Reloaded(keys, AfterFailures(keys, t, list, faults), list, NoFault) == Reloaded(keys, t, list, NoFault)
    decreases |faults|
  {
    if faults != [] {
      InterruptedReloadIsHarmless(keys, t, list, faults[0]);
      FewerAreNew(keys, t, list, faults[0]);
      AnyNumberOfInterruptions(keys, Reloaded(keys, t, list, faults[0]).table, list, faults[1..]);
    }
  }

  // ---------- one key, two files ----------

  ghost predicate Twice(keys: seq<Key>, k: Key) {
    exists i, j :: 0 <= i < j < |keys| && keys[i] == k && keys[j] == k
  }

  /** The unindexed keys that are listed twice. */
  ghost function Repeated(keys: seq<Key>, cached: Index, known: Index): set<Key> {
    set k | k in keys && k !in cached && k !in known && Twice(keys, k)
  }

  /** The listed keys without a row. */
  function Unindexed(keys: seq<Key>, rows: Index): set<Key> {
    set k | k in keys && k !in rows
  }

  lemma {:induction false} SetNoLarger(keys: seq<Key>, some: set<Key>)
    requires forall k :: k in some ==> k in keys
    ensures |some| <= |keys|
  {
    if keys != [] {
      assert keys == [keys[0]] + keys[1..];
      SetNoLarger(keys[1..], some - {keys[0]});
      if keys[0] in some { assert some == (some - {keys[0]}) + {keys[0]}; }
      else { assert some == some - {keys[0]}; }
    }
  }

  lemma NoneRepeatedIff(keys: seq<Key>, cached: Index, known: Index)
    ensures Repeated(keys, cached, known) == {} <==> NewOnesOnce(keys, cached, known)
  {
    if !NewOnesOnce(keys, cached, known) {
      var i, j :| 0 <= i < j < |keys| && keys[i] !in cached && keys[i] !in known && keys[i] == keys[j];
      assert Twice(keys, keys[i]);
      assert keys[i] in Repeated(keys, cached, known);
    }
  }

  /** Every UID a walk gives out goes to a listed key that had no row. */
  lemma {:induction false} WalkUsesUp(all: seq<Key>, keys: seq<Key>, cached: Index, known: Index, t: Table, budget: nat)
    requires forall k :: k in keys ==> k in all
    ensures var t' := IndexAll(keys, cached, known, t, budget).table;
            |t'.log| + |Unindexed(all, t'.rows)| == |t.log| + |Unindexed(all, t.rows)|
  {
    if keys != [] {
      if keys[0] in cached || keys[0] in known {
        WalkUsesUp(all, keys[1..], cached, known, t, budget);
      } else if budget > 0 && CanInsert(t, keys[0]) {
        var t1 := Inserted(t, keys[0]);
        assert Unindexed(all, t.rows) == Unindexed(all, t1.rows) + {keys[0]};
        WalkUsesUp(all, keys[1..], cached, known, t1, budget - 1);
      }
    }
  }

  lemma ReloadUsesUp(keys: seq<Key>, t: Table, list: seq<Message>)
    ensures var t' := Reloaded(keys, t, list, NoFault).table;
            |t'.log| + |Unindexed(keys, t'.rows)| == |t.log| + |Unindexed(keys, t.rows)|
  {
    assert Unindexed(keys, Pruned(t, keys).rows) == Unindexed(keys, t.rows);
    WalkUsesUp(keys, keys, CacheOf(list), t.rows, Pruned(t, keys), |keys|);
  }

  /** A walk that no fault interrupts stops at a key it has given a row itself, or found one for. */
  lemma {:induction false} WalkStopsAtTaken(keys: seq<Key>, cached: Index, known: Index, t: Table, budget: nat)
    returns (k: Key)
    requires Shaped(t) && budget >= |keys| && CounterLasts(IndexAll(keys, cached, known, t, budget).table)
    requires !IndexAll(keys, cached, known, t, budget).ok
    ensures k in keys && k !in cached && k !in known && k in IndexAll(keys, cached, known, t, budget).table.rows
    ensures k in t.rows || Twice(keys, k)
  {
    WalkExtends(keys, cached, known, t, budget);
    RowsAreSound(t);
    assert forall i :: 0 <= i < |keys| - 1 ==> keys[1..][i] == keys[i + 1];
    if keys[0] in cached || keys[0] in known {
      k := WalkStopsAtTaken(keys[1..], cached, known, t, budget);
      TwiceInTail(keys, k);
    } else if CanInsert(t, keys[0]) {
      InsertedShaped(t, keys[0]);
      k := WalkStopsAtTaken(keys[1..], cached, known, Inserted(t, keys[0]), budget - 1);
      TwiceInTail(keys, k);
    } else {
      k := keys[0];
    }
  }

  lemma TwiceInTail(keys: seq<Key>, k: Key)
    requires keys != []
    ensures Twice(keys[1..], k) || (k == keys[0] && k in keys[1..]) ==> Twice(keys, k)
  {
    if Twice(keys[1..], k) {
      var i, j :| 0 <= i < j < |keys| - 1 && keys[1..][i] == k && keys[1..][j] == k;
      assert keys[i + 1] == k && keys[j + 1] == k;
    } else if k == keys[0] && k in keys[1..] {
      var j :| 0 <= j < |keys| - 1 && keys[1..][j] == k;
      assert keys[j + 1] == k;
    }
  }

  /** An undisturbed reload that fails has given a row to a key that is listed twice and had none. */
  lemma FailureIndexesARepeat(keys: seq<Key>, t: Table, list: seq<Message>)
    requires Shaped(t) && CounterLasts(Reloaded(keys, t, list, NoFault).table)
    requires !Reloaded(keys, t, list, NoFault).ok
    ensures var t' := Reloaded(keys, t, list, NoFault).table;
            && (exists k :: k in Repeated(keys, CacheOf(list), t.rows) && k in t'.rows)
            && Repeated(keys, CacheOf(list), t'.rows) < Repeated(keys, CacheOf(list), t.rows)
  {
    var cached, pruned := CacheOf(list), Pruned(t, keys);
    FewerAreNew(keys, t, list, NoFault);
    var k := WalkStopsAtTaken(keys, cached, t.rows, pruned, |keys|);
    assert k in Repeated(keys, cached, t.rows);
  }

  function Undisturbed(n: nat): seq<Fault> {
    if n == 0 then [] else [NoFault] + Undisturbed(n - 1)
  }

  lemma {:induction false} RepeatsWearOff(keys: seq<Key>, t: Table, list: seq<Message>) returns (n: nat)
    requires Shaped(t) && |t.log| + |Unindexed(keys, t.rows)| < UINT32_RANGE - 1
    ensures n <= |Repeated(keys, CacheOf(list), t.rows)|
    ensures n == 0 <==> Reloaded(keys, t, list, NoFault).ok
    ensures AllFail(keys, t, list, Undisturbed(n))
    ensures Reloaded(keys, AfterFailures(keys, t, list, Undisturbed(n)), list, NoFault).ok
    decreases |Repeated(keys, CacheOf(list), t.rows)|
  {
    var r := Reloaded(keys, t, list, NoFault);
    ReloadUsesUp(keys, t, list);
    if r.ok {
      n := 0;
    } else {
      FailureIndexesARepeat(keys, t, list);
      SubsetSize(Repeated(keys, CacheOf(list), r.table.rows), Repeated(keys, CacheOf(list), t.rows));
      WalkKeepsShape(keys, CacheOf(list), t.rows, Pruned(t, keys), |keys|);
      var m := RepeatsWearOff(keys, r.table, list);
      n := m + 1;
      assert Undisturbed(n)[0] == NoFault && Undisturbed(n)[1..] == Undisturbed(m);
    }
  }

  /** However many unindexed keys are listed twice, no more undisturbed reloads than that fail before one
      succeeds; and none fails exactly when there is no such key. */
  lemma SucceedsAfterRepeats(keys: seq<Key>, t: Table, list: seq<Message>) returns (n: nat)
    requires Shaped(t) && |t.log| + |keys| < UINT32_RANGE - 1
    ensures n <= |Repeated(keys, CacheOf(list), t.rows)|
    ensures n == 0 <==> Repeated(keys, CacheOf(list), t.rows) == {}
    ensures AllFail(keys, t, list, Undisturbed(n))
    ensures Reloaded(keys, AfterFailures(keys, t, list, Undisturbed(n)), list, NoFault).ok
  {
    SetNoLarger(keys, Unindexed(keys, t.rows));
    n := RepeatsWearOff(keys, t, list);
    ReloadGrowsLog(keys, t, list);
    ReloadSucceedsIff(keys, t, list);
    NoneRepeatedIff(keys, CacheOf(list), t.rows);
  }

  /** Interruptions are harmless exactly when no unindexed key is listed twice: with one, a reload that
      fails changes what the next one does. */
  lemma HarmlessIff(keys: seq<Key>, t: Table, list: seq<Message>)
    requires Shaped(t) && |t.log| + |keys| < UINT32_RANGE - 1
    ensures (forall fault :: Harmless(keys, t, list, fault)) <==> NewOnesOnce(keys, CacheOf(list), t.rows)
  {
    var r := Reloaded(keys, t, list, NoFault);
    SetNoLarger(keys, Unindexed(keys, t.rows));
    ReloadUsesUp(keys, t, list);
    ReloadSucceedsIff(keys, t, list);
    if NewOnesOnce(keys, CacheOf(list), t.rows) {
      forall fault ensures Harmless(keys, t, list, fault) {
        InterruptedReloadIsHarmless(keys, t, list, fault);
      }
    } else {
      var r2 := Reloaded(keys, r.table, list, NoFault);
      WalkKeepsShape(keys, CacheOf(list), t.rows, Pruned(t, keys), |keys|);
      ReloadUsesUp(keys, r.table, list);
      if !r2.ok {
        FailureIndexesARepeat(keys, r.table, list);
        var k :| k in Repeated(keys, CacheOf(list), r.table.rows) && k in r2.table.rows;
        assert r2.table != r.table;
      }
      assert !Harmless(keys, t, list, NoFault);
    }
  }

  /** One key in new/ and in cur/: the first reload fails but indexes it, the second lists it twice under
      its one UID. */
  lemma TwoFilesOneKey(k: Key)
    ensures var first := Reloaded([k, k], NEW_TABLE, [], NoFault);
            var second := Reloaded([k, k], first.table, first.list, NoFault);
            && !first.ok && first.list == [] && k in first.table.rows
            && second.ok && second.list == [Message(1, k), Message(1, k)]
            && !UidAscending(second.list)
            && !Harmless([k, k], NEW_TABLE, [], NoFault)
  {
    var t1 := Inserted(NEW_TABLE, k);
    assert Pruned(NEW_TABLE, [k, k]) == NEW_TABLE && Pruned(t1, [k, k]) == t1;
    assert [k, k][1..] == [k] && [k][1..] == [];
    assert IndexAll([k, k], map[], map[], NEW_TABLE, 2).table == t1;
    assert IndexAll([k], map[], t1.rows, t1, 2) == Indexed(t1, [Message(1, k)], true);
    assert IndexAll([k, k], map[], t1.rows, t1, 2).list == [Message(1, k), Message(1, k)];
    var list := [Message(1, k), Message(1, k)];
    assert list[1..] == [Message(1, k)] && [Message(1, k)][1..] == [];
    assert SortByUid(list) == list;
  }
}
