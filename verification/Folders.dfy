/** One IMAP folder: the files on disk, the rows of its index, the list in memory, and everything that
    happens to them.

    `Step` takes one event to its whole effect, including the effect of stopping half-way: `stop` is
    the number of single disk and database operations that succeed before the first one that fails. */
module Folders {
  import opened Keys
  import opened UidTable
  import opened Reload
  import opened Expunging
  import opened Sequences
  import opened Wrappers

  datatype Folder = Folder(disk: map<Key, Body>, table: Table, list: seq<Message>)

  /** A mailbox as first opened: any files may be there already, nothing is indexed. */
  function NewFolder(disk: map<Key, Body>): Folder {
    Folder(disk, NEW_TABLE, [])
  }

  function Listing(f: Folder): seq<Key> {
    Sorted(f.disk.Keys)
  }

  datatype Event =
    | Deliver(key: Key, body: Body)        // another process drops a file
    | Vanish(key: Key)                     // another process removes a file
    | Reload(fault: Fault)
    | Restart                              // the list in memory is lost
    | Append(key: Key, body: Body, flagged: bool, stop: nat)
    | Expunge(order: seq<Message>, strict: bool, stop: nat)

  datatype Appended = Appended(folder: Folder, uid: Option<Uid>)

  /** `appendBytes`: file, row, then (only for a message with flags) flag column and file name. */
  function AppendTo(f: Folder, key: Key, body: Body, flagged: bool, stop: nat): Appended {
    var delivered := f.(disk := f.disk[key := body]);
    if stop == 0 then Appended(f, None)
    else if stop == 1 || !CanInsert(f.table, key) then Appended(delivered, None)
    else
      var indexed := delivered.(table := Inserted(f.table, key));
      var uid := f.table.uidNext;
      if flagged && stop < 4 then Appended(indexed, None)
      else Appended(indexed.(list := f.list + [Message(uid, key)]), Some(uid))
  }

  datatype Removal = Removal(folder: Folder, ok: bool)

  /** Removes the file and then the row of each message in turn.  A file already gone is an error for
      MOVE (`strict`), and no error for EXPUNGE. */
  function RemoveAll(f: Folder, order: seq<Message>, strict: bool, stop: nat): Removal
    decreases |order|
  {
    if order == [] then Removal(f, true)
    else if stop == 0 || (strict && order[0].key !in f.disk) then Removal(f, false)
    else
      var unlinked := f.(disk := f.disk - {order[0].key});
      if stop == 1 then Removal(unlinked, false)
      else RemoveAll(unlinked.(table := Without(f.table, order[0].key)), order[1..], strict, stop - 2)
  }

  function UidsOf(list: seq<Message>): set<Uid> {
    set m | m in list :: m.uid
  }

  function KeysOf(list: seq<Message>): set<Key> {
    if list == [] then {} else {list[0].key} + KeysOf(list[1..])
  }

  lemma {:induction false} KeyIsListed(list: seq<Message>, k: Key)
    ensures k in KeysOf(list) <==> exists i :: 0 <= i < |list| && list[i].key == k
  {
    if list != [] {
      KeyIsListed(list[1..], k);
      assert forall i :: 1 <= i < |list| ==> list[1..][i - 1] == list[i];
    }
  }

  /** `Expunge`, and the source side of a move: the list changes only when every removal succeeded. */
  function Expunged(f: Folder, order: seq<Message>, strict: bool, stop: nat): Removal {
    var r := RemoveAll(f, order, strict, stop);
    if r.ok then Removal(r.folder.(list := Keep(f.list, UidsOf(order))), true) else r
  }

  function Step(f: Folder, e: Event): Folder {
    match e
    case Deliver(key, body) => f.(disk := f.disk[key := body])
    case Vanish(key) => f.(disk := f.disk - {key})
    case Reload(fault) =>
      var r := Reloaded(Listing(f), f.table, f.list, fault);
      f.(table := r.table, list := r.list)
    case Restart => f.(list := [])
    case Append(key, body, flagged, stop) => AppendTo(f, key, body, flagged, stop).folder
    case Expunge(order, strict, stop) => Expunged(f, order, strict, stop).folder
  }

  /** A name not in use: not on disk and not in the list. */
  predicate NewName(f: Folder, key: Key) {
    key !in f.disk && forall m :: m in f.list ==> m.key != key
  }

  /** Names of new files are unique; only listed messages are expunged. */
  predicate Possible(f: Folder, e: Event) {
    match e
    case Deliver(key, _) => NewName(f, key)
    case Append(key, _, _, _) => NewName(f, key)
    case Expunge(order, _, _) => forall m :: m in order ==> m in f.list
    case _ => true
  }

  function Exec(f: Folder, es: seq<Event>): Folder
    decreases |es|
  {
    if es == [] then f else Exec(Step(f, es[0]), es[1..])
  }

  predicate PossibleRun(f: Folder, es: seq<Event>)
    decreases |es|
  {
    es == [] || (Possible(f, es[0]) && PossibleRun(Step(f, es[0]), es[1..]))
  }

  // ---------- what every event keeps ----------

  /** The list is ascending, holds only UIDs that were assigned to its keys, and agrees with the rows
      on every message whose file is still there. */
  ghost predicate Inv(f: Folder) {
    && Shaped(f.table)
    && UidAscending(f.list)
    && (forall m :: m in f.list ==> m in f.table.log)
    && (forall m :: m in f.list && m.key in f.disk ==>
          m.key in f.table.rows && f.table.rows[m.key] == m.uid)
  }

  lemma ListingIsDisk(f: Folder)
    ensures Distinct(Listing(f)) && forall k :: k in Listing(f) <==> k in f.disk
  {
    var keys := Listing(f);
    forall i, j | 0 <= i < j < |keys|
      ensures keys[i] != keys[j]
    {
      LessTotal(keys[i], keys[j]);
    }
  }

  lemma CacheIsSound(f: Folder)
    requires Inv(f)
    ensures CacheSound(Listing(f), CacheOf(f.list), f.table.rows)
  {
    ListingIsDisk(f);
    var keys, cached := Listing(f), CacheOf(f.list);
    forall i | 0 <= i < |keys| && keys[i] in cached
      ensures keys[i] in f.table.rows && f.table.rows[keys[i]] == cached[keys[i]]
    {
      CacheFromList(f.list, keys[i]);
    }
  }

  lemma {:induction false} RemovalEffect(f: Folder, order: seq<Message>, strict: bool, stop: nat)
    requires Shaped(f.table)
    ensures var g := RemoveAll(f, order, strict, stop).folder;
            && Shaped(g.table) && g.table.log == f.table.log && g.list == f.list
            && g.table.uidNext == f.table.uidNext
            && g.disk.Keys <= f.disk.Keys && g.table.rows.Keys <= f.table.rows.Keys
            && (forall k :: k in g.disk ==> g.disk[k] == f.disk[k])
            && (forall k :: k in g.table.rows ==> g.table.rows[k] == f.table.rows[k])
            && (forall k :: k in g.disk && k in f.table.rows ==> k in g.table.rows)
    decreases |order|
  {
    if order != [] && stop >= 2 && !(strict && order[0].key !in f.disk) {
      var k := order[0].key;
      RemovalEffect(Folder(f.disk - {k}, Without(f.table, k), f.list), order[1..], strict, stop - 2);
    }
  }

  // ---------- when an append or an expunge goes through ----------

  /** An append goes through exactly when none of its operations fails and the key has no row; it then adds
      the file, the row and the list entry under the next UID. */
  lemma AppendSucceedsIff(f: Folder, key: Key, body: Body, flagged: bool, stop: nat)
    requires Shaped(f.table) && CounterLasts(f.table)
    ensures var a, uid := AppendTo(f, key, body, flagged, stop), 1 + |f.table.log|;
            && (a.uid.Some? <==> stop >= (if flagged then 4 else 2) && key !in f.table.rows)
            && (a.uid.Some? ==> a.uid.value == uid
                                && a.folder.disk == f.disk[key := body]
                                && a.folder.table.rows == f.table.rows[key := uid]
                                && a.folder.table.uidNext == (uid + 1) % UINT32_RANGE
                                && a.folder.list == f.list + [Message(uid, key)])
            && (a.uid.None? ==> a.folder.list == f.list)
  {
    RowsAreSound(f.table);
  }

  /** The messages reached by every second one of `n` operations. */
  function Reached(order: seq<Message>, n: nat): seq<Message> {
    if n / 2 < |order| then order[..n / 2] else order
  }

  /** What a removal that ignores missing files does in `stop` operations. */
  function Lessened(f: Folder, order: seq<Message>, stop: nat): Folder {
    f.(disk := f.disk - KeysOf(Reached(order, stop + 1)),
       table := f.table.(rows := f.table.rows - KeysOf(Reached(order, stop))))
  }

  lemma KeysReached(order: seq<Message>, n: nat)
    requires order != [] && n >= 2
    ensures KeysOf(Reached(order, n)) == {order[0].key} + KeysOf(Reached(order[1..], n - 2))
  {
    var rest := Reached(order[1..], n - 2);
    assert order == [order[0]] + order[1..];
    assert Reached(order, n) == [order[0]] + rest && ([order[0]] + rest)[1..] == rest;
  }

  lemma LessenedStep(f: Folder, order: seq<Message>, stop: nat)
    requires order != [] && stop >= 2
    ensures var next := f.(disk := f.disk - {order[0].key}, table := Without(f.table, order[0].key));
            Lessened(f, order, stop) == Lessened(next, order[1..], stop - 2)
  {
    var next := f.(disk := f.disk - {order[0].key}, table := Without(f.table, order[0].key));
    KeysReached(order, stop + 1);
    KeysReached(order, stop);
    assert Lessened(next, order[1..], stop - 2).disk == Lessened(f, order, stop).disk;
    assert Lessened(next, order[1..], stop - 2).table.rows == Lessened(f, order, stop).table.rows;
  }

  lemma {:induction false} RemovalReaches(f: Folder, order: seq<Message>, stop: nat)
    ensures RemoveAll(f, order, false, stop) == Removal(Lessened(f, order, stop), stop >= 2 * |order|)
    decreases |order|
  {
    if order == [] || stop == 0 {
      assert f.disk - {} == f.disk && f.table.rows - {} == f.table.rows;
    } else if stop == 1 {
      KeysReached(order, 2);
      assert Reached(order, 1) == [] && Reached(order[1..], 0) == [] && f.table.rows - {} == f.table.rows;
    } else {
      var next := f.(disk := f.disk - {order[0].key}, table := Without(f.table, order[0].key));
      LessenedStep(f, order, stop);
      RemovalReaches(next, order[1..], stop - 2);
    }
  }

  /** An expunge goes through whichever of the files are missing: it succeeds exactly when none of its
      operations fails, and then takes its messages from disk, rows and list.  Cut short, it has removed
      the files of the messages it reached, the rows of those it got past, and nothing from the list. */
  lemma ExpungeSucceedsIff(f: Folder, order: seq<Message>, stop: nat)
    ensures var r := Expunged(f, order, false, stop);
            && (r.ok <==> stop >= 2 * |order|)
            && (r.ok ==> r.folder.disk == f.disk - KeysOf(order)
                         && r.folder.table == f.table.(rows := f.table.rows - KeysOf(order)))
            && (r.ok ==> forall m :: m in r.folder.list <==> m in f.list && m.uid !in UidsOf(order))
            && (r.ok && UidAscending(f.list) ==> UidAscending(r.folder.list))
            && (!r.ok ==> r.folder == f.(disk := f.disk - KeysOf(order[..(stop + 1) / 2]),
                                         table := f.table.(rows := f.table.rows - KeysOf(order[..stop / 2]))))
  {
    RemovalReaches(f, order, stop);
    forall m ensures m in Keep(f.list, UidsOf(order)) <==> m in f.list && m.uid !in UidsOf(order) {
      KeepMembers(f.list, UidsOf(order), m);
    }
    if UidAscending(f.list) {
      KeepAscending(f.list, UidsOf(order));
    }
    if stop < 2 * |order| {
      assert Reached(order, stop + 1) == order[..(stop + 1) / 2];
    }
  }

  /** Every event, successful or cut short, extends the log and keeps its shape. */
  lemma StepExtendsLog(f: Folder, e: Event)
    requires Shaped(f.table)
    ensures Shaped(Step(f, e).table) && f.table.log <= Step(f, e).table.log
  {
    match e
    case Reload(fault) =>
      var keys := Listing(f);
      WalkExtends(keys, CacheOf(f.list), f.table.rows, Pruned(f.table, keys), Budget(fault, |keys|));
      WalkKeepsShape(keys, CacheOf(f.list), f.table.rows, Pruned(f.table, keys), Budget(fault, |keys|));
    case Append(key, _, _, _) => InsertedShaped(f.table, key);
    case Expunge(order, strict, stop) => RemovalEffect(f, order, strict, stop);
    case _ =>
  }

  lemma ReloadKeepsInv(f: Folder, fault: Fault)
    requires Inv(f) && CounterLasts(Step(f, Reload(fault)).table)
    ensures Inv(Step(f, Reload(fault)))
  {
    var keys := Listing(f);
    var r := Reloaded(keys, f.table, f.list, fault);
    ListingIsDisk(f);
    CacheIsSound(f);
    if r.ok {
      StepExtendsLog(f, Reload(fault));
      ReloadBringsInStep(keys, f.table, f.list, fault);
    } else {
      StepExtendsLog(f, Reload(fault));
      WalkExtends(keys, CacheOf(f.list), f.table.rows, Pruned(f.table, keys), Budget(fault, |keys|));
    }
  }

  lemma ListedStayLogged(f: Folder, log: seq<Message>)
    requires f.table.log <= log && forall m :: m in f.list ==> m in f.table.log
    ensures forall m :: m in f.list ==> m in log
  {
    forall m | m in f.list
      ensures m in log
    {
      var i :| 0 <= i < |f.table.log| && f.table.log[i] == m;
      assert log[i] == m;
    }
  }

  lemma ListedBelowNext(f: Folder)
    requires Inv(f) && CounterLasts(f.table)
    ensures forall m :: m in f.list ==> m.uid < f.table.uidNext
  {
    BelowCounterIff(f.table);
  }

  lemma AppendKeepsInv(f: Folder, key: Key, body: Body, flagged: bool, stop: nat)
    requires Inv(f) && NewName(f, key) && CounterLasts(AppendTo(f, key, body, flagged, stop).folder.table)
    ensures Inv(AppendTo(f, key, body, flagged, stop).folder)
  {
    if stop >= 2 && CanInsert(f.table, key) {
      InsertedShaped(f.table, key);
      ListedBelowNext(f);
      ListedStayLogged(f, Inserted(f.table, key).log);
    }
  }

  lemma ExpungeKeepsInv(f: Folder, order: seq<Message>, strict: bool, stop: nat)
    requires Inv(f)
    ensures Inv(Expunged(f, order, strict, stop).folder)
  {
    RemovalEffect(f, order, strict, stop);
    KeepAscending(f.list, UidsOf(order));
    forall m | m in Keep(f.list, UidsOf(order))
      ensures m in f.list
    {
      KeepMembers(f.list, UidsOf(order), m);
    }
  }

  lemma StepKeepsInv(f: Folder, e: Event)
    requires Inv(f) && Possible(f, e) && CounterLasts(Step(f, e).table)
    ensures Inv(Step(f, e))
  {
    match e
    case Reload(fault) => ReloadKeepsInv(f, fault);
    case Append(key, body, flagged, stop) => AppendKeepsInv(f, key, body, flagged, stop);
    case Expunge(order, strict, stop) => ExpungeKeepsInv(f, order, strict, stop);
    case _ =>
  }

  /** A row survives every event after which its file is still on disk, with its UID. */
  lemma StepKeepsUid(f: Folder, e: Event, key: Key)
    requires Shaped(f.table) && Possible(f, e)
    requires key in f.disk && key in f.table.rows && key in Step(f, e).disk
    ensures key in Step(f, e).table.rows && Step(f, e).table.rows[key] == f.table.rows[key]
  {
    match e
    case Reload(fault) =>
      var keys := Listing(f);
      ListingIsDisk(f);
      assert key in Pruned(f.table, keys).rows;
      WalkExtends(keys, CacheOf(f.list), f.table.rows, Pruned(f.table, keys), Budget(fault, |keys|));
    case Expunge(order, strict, stop) => RemovalEffect(f, order, strict, stop);
    case _ =>
  }

  // ---------- whole runs ----------

  lemma {:induction false} RunExtendsLog(f: Folder, es: seq<Event>)
    requires Shaped(f.table)
    ensures Shaped(Exec(f, es).table) && f.table.log <= Exec(f, es).table.log
    decreases |es|
  {
    if es != [] {
      StepExtendsLog(f, es[0]);
      RunExtendsLog(Step(f, es[0]), es[1..]);
    }
  }

  /** The invariant holds after every run during which the counter lasts. */
  lemma {:induction false} RunKeepsInv(f: Folder, es: seq<Event>)
    requires Inv(f) && PossibleRun(f, es) && CounterLasts(Exec(f, es).table)
    ensures Inv(Exec(f, es))
    decreases |es|
  {
    if es != [] {
      StepExtendsLog(f, es[0]);
      RunExtendsLog(Step(f, es[0]), es[1..]);
      StepKeepsInv(f, es[0]);
      RunKeepsInv(Step(f, es[0]), es[1..]);
    }
  }

  /** The folder some possible run of a newly opened mailbox ends in. */
  ghost predicate Reachable(f: Folder) {
    exists disk: map<Key, Body>, es: seq<Event> ::
      PossibleRun(NewFolder(disk), es) && f == Exec(NewFolder(disk), es)
  }

  lemma RunFromStart(start: Folder, es: seq<Event>)
    requires Inv(start) && PossibleRun(start, es)
    ensures var f := Exec(start, es); Shaped(f.table) && (CounterLasts(f.table) ==> Inv(f))
  {
    RunExtendsLog(start, es);
    if CounterLasts(Exec(start, es).table) { RunKeepsInv(start, es); }
  }

  lemma ReachableInv(f: Folder)
    requires Reachable(f)
    ensures Shaped(f.table) && (CounterLasts(f.table) ==> Inv(f))
  {
    var disk: map<Key, Body>, es: seq<Event> :|
      PossibleRun(NewFolder(disk), es) && f == Exec(NewFolder(disk), es);
    RunFromStart(NewFolder(disk), es);
  }

  /** In every reachable folder no UID was given twice exactly if at most 2^32 were assigned, and the
      counter is above all of them exactly if fewer than 2^32 - 1 were; rows only repeat assignments that
      were made. */
  lemma UidsNeverReused(f: Folder)
    requires Reachable(f)
    ensures GivenOnce(f.table) <==> |f.table.log| <= UINT32_RANGE
    ensures BelowCounter(f.table) <==> CounterLasts(f.table)
    ensures forall k :: k in f.table.rows ==> Message(f.table.rows[k], k) in f.table.log
  {
    ReachableInv(f);
    GivenOnceIff(f.table);
    BelowCounterIff(f.table);
  }

  /** While the counter lasts it never falls, and what was assigned stays assigned: a UID once bound to
      a key is never bound to another. */
  lemma CounterNeverFalls(f: Folder, more: seq<Event>)
    requires Reachable(f) && CounterLasts(Exec(f, more).table)
    ensures var t, t' := f.table, Exec(f, more).table;
            && t.uidNext <= t'.uidNext
            && (forall m :: m in t.log ==> m in t'.log)
            && (forall m, n :: m in t.log && n in t'.log && m.uid == n.uid ==> m.key == n.key)
  {
    var t, t' := f.table, Exec(f, more).table;
    ReachableInv(f);
    RunExtendsLog(f, more);
    LogOnlyGrows(t, t');
  }

  lemma LogOnlyGrows(t: Table, t': Table)
    requires Shaped(t) && Shaped(t') && t.log <= t'.log && CounterLasts(t')
    ensures t.uidNext <= t'.uidNext
    ensures forall m :: m in t.log ==> m in t'.log
    ensures forall m, n :: m in t.log && n in t'.log && m.uid == n.uid ==> m.key == n.key
  {
    GivenOnceIff(t');
    forall m | m in t.log
      ensures m in t'.log
    {
      var i :| 0 <= i < |t.log| && t.log[i] == m;
      assert t'.log[i] == m;
    }
  }

  predicate OnDiskThroughout(f: Folder, es: seq<Event>, key: Key)
    decreases |es|
  {
    key in f.disk && (es == [] || OnDiskThroughout(Step(f, es[0]), es[1..], key))
  }

  /** A key keeps its UID for as long as its file stays on disk. */
  lemma {:induction false} UidStable(f: Folder, es: seq<Event>, key: Key)
    requires Shaped(f.table) && PossibleRun(f, es) && OnDiskThroughout(f, es, key) && key in f.table.rows
    ensures var g := Exec(f, es);
            key in g.table.rows && g.table.rows[key] == f.table.rows[key]
    decreases |es|
  {
    if es != [] {
      StepKeepsUid(f, es[0], key);
      StepExtendsLog(f, es[0]);
      UidStable(Step(f, es[0]), es[1..], key);
    }
  }

  lemma ReloadAgrees(f: Folder)
    requires Inv(f) && |f.table.log| + |f.disk| < UINT32_RANGE - 1
    ensures var keys := Listing(f);
            var warm := Reloaded(keys, f.table, f.list, NoFault);
            warm == Reloaded(keys, f.table, [], NoFault) && warm.ok && CounterLasts(warm.table)
  {
    var keys := Listing(f);
    ListingIsDisk(f);
    CacheIsSound(f);
    CacheUnneeded(keys, CacheOf(f.list), f.table.rows, Pruned(f.table, keys), |keys|);
    ReloadGrowsLog(keys, f.table, f.list);
    ReloadSucceedsIff(keys, f.table, f.list);
  }

  ghost predicate FolderInStep(f: Folder) {
    && UidAscending(f.list)
    && f.table.rows.Keys == f.disk.Keys
    && (forall m :: m in f.list <==> m.key in f.table.rows && f.table.rows[m.key] == m.uid)
  }

  lemma ReloadPutsInStep(f: Folder)
    requires Inv(f) && |f.table.log| + |f.disk| < UINT32_RANGE - 1
    ensures FolderInStep(Step(f, Reload(NoFault)))
  {
    ReloadAgrees(f);
    ListingIsDisk(f);
    CacheIsSound(f);
    ReloadBringsInStep(Listing(f), f.table, f.list, NoFault);
  }

  /** From every reachable state a reload with the list in memory and one after a restart give the
      same folder; in it list, rows and directory hold the same keys, in ascending UID order. */
  lemma WarmAndColdAgree(f: Folder)
    requires Reachable(f) && |f.table.log| + |f.disk| < UINT32_RANGE - 1
    ensures Step(f, Reload(NoFault)) == Step(Step(f, Restart), Reload(NoFault))
    ensures FolderInStep(Step(f, Reload(NoFault)))
  {
    ReachableInv(f);
    ReloadAgrees(f);
    ReloadPutsInStep(f);
  }
}
