/** UID order is delivery order, as long as files are indexed only by reloads and keys keep growing. */
module DeliveryOrder {
  import opened Keys
  import opened UidTable
  import opened Reload
  import opened Expunging
  import opened Folders

  /** An indexed file. */
  predicate Live(f: Folder, key: Key) {
    key in f.table.rows && key in f.disk
  }

  /** A new key later than every indexed file. */
  ghost predicate AfterIndexed(f: Folder, key: Key) {
    key !in f.table.rows && forall k :: Live(f, k) ==> Less(k, key)
  }

  /** Events that leave indexing to reloads; a file is later than those indexed before it arrives. */
  ghost predicate InOrder(f: Folder, e: Event) {
    Possible(f, e) && !e.Append? && (e.Deliver? ==> AfterIndexed(f, e.key))
  }

  ghost predicate InOrderRun(f: Folder, es: seq<Event>)
    decreases |es|
  {
    es == [] || (InOrder(f, es[0]) && InOrderRun(Step(f, es[0]), es[1..]))
  }

  /** UIDs grow with the keys. */
  ghost predicate Monotone(rows: map<Key, Uid>) {
    forall k, l :: k in rows && l in rows && Less(k, l) ==> rows[k] < rows[l]
  }

  /** Indexed files have UIDs in key order, and every file still to be indexed is later than them. */
  ghost predicate KeyOrdered(f: Folder) {
    && (forall k, l :: Live(f, k) && Live(f, l) && Less(k, l) ==> f.table.rows[k] < f.table.rows[l])
    && (forall k, d :: Live(f, k) && d in f.disk && d !in f.table.rows ==> Less(k, d))
  }

  ghost predicate NewKeysLater(keys: seq<Key>, t: Table) {
    forall i, k :: 0 <= i < |keys| && keys[i] !in t.rows && k in t.rows ==> Less(k, keys[i])
  }

  lemma InsertMonotone(t: Table, key: Key)
    requires Shaped(t) && CounterLasts(t) && Monotone(t.rows) && key !in t.rows
    requires forall k :: k in t.rows ==> Less(k, key)
    ensures Monotone(Inserted(t, key).rows)
  {
    RowsAreSound(t);
    var rows := Inserted(t, key).rows;
    forall k, l | k in rows && l in rows && Less(k, l)
      ensures rows[k] < rows[l]
    {
      LessTotal(k, l);
    }
  }

  /** Everything a walk over an ascending listing relies on. */
  ghost predicate WalkReady(keys: seq<Key>, cached: Index, known: Index, t: Table) {
    && Ascending(keys) && Matching(keys, known, t.rows) && CacheSound(keys, cached, known)
    && Shaped(t) && Monotone(t.rows) && NewKeysLater(keys, t)
  }

  lemma ReadyAfterInsert(keys: seq<Key>, cached: Index, known: Index, t: Table)
    requires keys != [] && WalkReady(keys, cached, known, t) && CounterLasts(t) && keys[0] !in t.rows
    ensures WalkReady(keys[1..], cached, known, Inserted(t, keys[0]))
  {
    var t1, rest := Inserted(t, keys[0]), keys[1..];
    InsertedShaped(t, keys[0]);
    InsertMonotone(t, keys[0]);
    forall i | 0 <= i < |rest|
      ensures rest[i] == keys[i + 1] && rest[i] != keys[0] && Less(keys[0], rest[i])
    {
      LessTotal(keys[0], rest[i]);
    }
  }

  lemma ReadyAfterSkip(keys: seq<Key>, cached: Index, known: Index, t: Table)
    requires keys != [] && WalkReady(keys, cached, known, t)
    ensures WalkReady(keys[1..], cached, known, t)
  {
    assert forall i :: 0 <= i < |keys| - 1 ==> keys[1..][i] == keys[i + 1];
  }

  lemma LaterWithFirst(keys: seq<Key>, t: Table)
    requires keys != [] && keys[0] in t.rows && NewKeysLater(keys[1..], t)
    ensures NewKeysLater(keys, t)
  {
    assert forall i :: 1 <= i < |keys| ==> keys[i] == keys[1..][i - 1];
  }

  /** A walk over an ascending listing keeps the order, wherever it stops. */
  lemma {:induction false} WalkKeepsOrder(keys: seq<Key>, cached: Index, known: Index, t: Table, budget: nat)
    requires WalkReady(keys, cached, known, t)
    requires CounterLasts(IndexAll(keys, cached, known, t, budget).table)
    ensures var t' := IndexAll(keys, cached, known, t, budget).table;
            Monotone(t'.rows) && NewKeysLater(keys, t')
  {
    if keys != [] {
      if keys[0] in cached || keys[0] in known {
        ReadyAfterSkip(keys, cached, known, t);
        WalkKeepsOrder(keys[1..], cached, known, t, budget);
        WalkExtends(keys[1..], cached, known, t, budget);
        LaterWithFirst(keys, IndexAll(keys, cached, known, t, budget).table);
      } else if budget > 0 && CanInsert(t, keys[0]) {
        var t1 := Inserted(t, keys[0]);
        WalkExtends(keys[1..], cached, known, t1, budget - 1);
        ReadyAfterInsert(keys, cached, known, t);
        WalkKeepsOrder(keys[1..], cached, known, t1, budget - 1);
        LaterWithFirst(keys, IndexAll(keys, cached, known, t, budget).table);
      }
    }
  }

  lemma ReadyToReload(f: Folder)
    requires Inv(f) && KeyOrdered(f)
    ensures WalkReady(Listing(f), CacheOf(f.list), f.table.rows, Pruned(f.table, Listing(f)))
  {
    ListingIsDisk(f);
    CacheIsSound(f);
    var keys, pruned := Listing(f), Pruned(f.table, Listing(f));
    assert forall k :: k in pruned.rows <==> Live(f, k);
    forall i, k | 0 <= i < |keys| && keys[i] !in pruned.rows && k in pruned.rows
      ensures Less(k, keys[i])
    {
      assert keys[i] in f.disk && Live(f, k);
    }
  }

  lemma ReloadKeepsOrder(f: Folder, fault: Fault)
    requires Inv(f) && KeyOrdered(f) && CounterLasts(Step(f, Reload(fault)).table)
    ensures KeyOrdered(Step(f, Reload(fault)))
  {
    var keys, cached := Listing(f), CacheOf(f.list);
    var pruned, n := Pruned(f.table, keys), Budget(fault, |keys|);
    if !(fault.ListFails? || fault.SelectFails? || fault.PruneFails?) {
      ReadyToReload(f);
      WalkKeepsOrder(keys, cached, f.table.rows, pruned, n);
      var t' := IndexAll(keys, cached, f.table.rows, pruned, n).table;
      assert Step(f, Reload(fault)).table == t';
      forall k, d | k in t'.rows && d in f.disk && d !in t'.rows
        ensures Less(k, d)
      {
        assert d in keys;
        var i :| 0 <= i < |keys| && keys[i] == d;
      }
    }
  }

  lemma StepKeepsOrder(f: Folder, e: Event)
    requires Inv(f) && KeyOrdered(f) && InOrder(f, e) && CounterLasts(Step(f, e).table)
    ensures KeyOrdered(Step(f, e))
  {
    match e
    case Reload(fault) => ReloadKeepsOrder(f, fault);
    case Expunge(order, strict, stop) => RemovalEffect(f, order, strict, stop);
    case _ =>
  }

  lemma {:induction false} RunKeepsOrder(f: Folder, es: seq<Event>)
    requires Inv(f) && KeyOrdered(f) && InOrderRun(f, es) && CounterLasts(Exec(f, es).table)
    ensures Inv(Exec(f, es)) && KeyOrdered(Exec(f, es))
    decreases |es|
  {
    if es != [] {
      StepExtendsLog(f, es[0]);
      RunExtendsLog(Step(f, es[0]), es[1..]);
      StepKeepsInv(f, es[0]);
      StepKeepsOrder(f, es[0]);
      RunKeepsOrder(Step(f, es[0]), es[1..]);
    }
  }

  ghost predicate KeySorted(list: seq<Message>) {
    forall i, j :: 0 <= i < j < |list| ==> Less(list[i].key, list[j].key)
  }

  lemma OrderShowsInList(f: Folder)
    requires FolderInStep(f)
    ensures Monotone(f.table.rows) <==> KeySorted(f.list)
  {
    if Monotone(f.table.rows) {
      forall i, j | 0 <= i < j < |f.list|
        ensures Less(f.list[i].key, f.list[j].key)
      {
        assert f.list[i] in f.list && f.list[j] in f.list;
        LessTotal(f.list[i].key, f.list[j].key);
      }
    } else {
      var k, l :| k in f.table.rows && l in f.table.rows && Less(k, l) && f.table.rows[k] >= f.table.rows[l];
      var m, n := Message(f.table.rows[k], k), Message(f.table.rows[l], l);
      var i :| 0 <= i < |f.list| && f.list[i] == m;
      var j :| 0 <= j < |f.list| && f.list[j] == n;
      LessTotal(k, l);
    }
  }

  lemma ReloadSorts(f: Folder)
    requires Inv(f) && KeyOrdered(f) && |f.table.log| + |f.disk| < UINT32_RANGE - 1
    ensures KeySorted(Step(f, Reload(NoFault)).list)
  {
    ReloadAgrees(f);
    ReloadPutsInStep(f);
    ReloadKeepsOrder(f, NoFault);
    OrderShowsInList(Step(f, Reload(NoFault)));
  }

  lemma NewFolderOrdered(disk: map<Key, Body>)
    ensures Inv(NewFolder(disk)) && KeyOrdered(NewFolder(disk))
  {
  }

  /** After any such run of a new mailbox, a reload lists the messages in the order of their keys. */
  lemma UidOrderIsDeliveryOrder(disk: map<Key, Body>, es: seq<Event>, f: Folder)
    requires InOrderRun(NewFolder(disk), es) && f == Exec(NewFolder(disk), es)
    requires |f.table.log| + |f.disk| < UINT32_RANGE - 1
    ensures KeySorted(Step(f, Reload(NoFault)).list)
  {
    NewFolderOrdered(disk);
    RunKeepsOrder(NewFolder(disk), es);
    ReloadSorts(f);
  }

  /** A file that only the next reload indexes gets a UID above every row there is. */
  lemma LateFileGetsLaterUid(g: Folder, d: Key, key: Key)
    requires Inv(g) && |g.table.log| + |g.disk| < UINT32_RANGE - 1
    requires d in g.disk && d !in g.table.rows && key in g.disk && key in g.table.rows
    ensures var rows := Step(g, Reload(NoFault)).table.rows;
            d in rows && key in rows && rows[d] > rows[key]
  {
    var keys := Listing(g);
    var pruned := Pruned(g.table, keys);
    ListingIsDisk(g);
    CacheIsSound(g);
    ReloadAgrees(g);
    RowsAreSound(g.table);
    StepKeepsUid(g, Reload(NoFault), key);
    var i :| 0 <= i < |keys| && keys[i] == d;
    WalkShape(keys, CacheOf(g.list), g.table.rows, pruned, |keys|);
    WalkRows(keys, CacheOf(g.list), g.table.rows, pruned, |keys|, i);
  }

  lemma OutOfOrder(g: Folder, k: Key, l: Key)
    requires Inv(g) && |g.table.log| + |g.disk| < UINT32_RANGE - 1
    ensures var rows := Step(g, Reload(NoFault)).table.rows;
            k in rows && l in rows && Less(k, l) && rows[k] > rows[l] ==> !KeySorted(Step(g, Reload(NoFault)).list)
  {
    ReloadPutsInStep(g);
    OrderShowsInList(Step(g, Reload(NoFault)));
  }

  /** A file that arrives keeps the order exactly when no file indexed before it has a later key. */
  lemma DeliveryKeepsOrderIff(f: Folder, key: Key, body: Body, g: Folder)
    requires Inv(f) && KeyOrdered(f) && NewName(f, key) && key !in f.table.rows
    requires g == Step(f, Deliver(key, body)) && |f.table.log| + |f.disk| + 1 < UINT32_RANGE - 1
    ensures KeySorted(Step(g, Reload(NoFault)).list) <==> forall k :: Live(f, k) ==> Less(k, key)
  {
    assert g.disk.Keys == f.disk.Keys + {key};
    StepKeepsInv(f, Deliver(key, body));
    if k :| Live(f, k) && !Less(k, key) {
      LessTotal(k, key);
      LateFileGetsLaterUid(g, key, k);
      OutOfOrder(g, key, k);
    } else {
      StepKeepsOrder(f, Deliver(key, body));
      ReloadSorts(g);
    }
  }

  lemma AppendedFolder(f: Folder, key: Key, body: Body, flagged: bool, stop: nat)
    requires Inv(f) && NewName(f, key) && key !in f.table.rows && CounterLasts(Inserted(f.table, key))
    requires key in AppendTo(f, key, body, flagged, stop).folder.table.rows
    ensures var g := AppendTo(f, key, body, flagged, stop).folder;
            && Inv(g) && g.disk.Keys == f.disk.Keys + {key} && g.table == Inserted(f.table, key)
  {
    RowsAreSound(f.table);
    AppendKeepsInv(f, key, body, flagged, stop);
  }

  lemma AppendedInOrder(f: Folder, key: Key, g: Folder)
    requires Inv(f) && KeyOrdered(f) && CounterLasts(f.table) && key !in f.table.rows && key !in f.disk
    requires g.disk.Keys == f.disk.Keys + {key} && g.table == Inserted(f.table, key)
    requires forall k :: Live(f, k) ==> Less(k, key)
    requires forall d :: d in f.disk && d !in f.table.rows ==> Less(key, d)
    ensures KeyOrdered(g)
  {
    RowsAreSound(f.table);
    forall k, l | Live(g, k) && Live(g, l) && Less(k, l)
      ensures g.table.rows[k] < g.table.rows[l]
    {
      LessTotal(k, l);
    }
  }

  /** An append that indexes its file, whether or not it then goes through, keeps the order exactly when the
      file is later than those indexed and earlier than those no reload has seen yet. */
  lemma AppendKeepsOrderIff(f: Folder, key: Key, body: Body, flagged: bool, stop: nat, g: Folder)
    requires Inv(f) && KeyOrdered(f) && NewName(f, key) && key !in f.table.rows
    requires g == AppendTo(f, key, body, flagged, stop).folder && key in g.table.rows
    requires |f.table.log| + |f.disk| + 2 < UINT32_RANGE - 1
    ensures KeySorted(Step(g, Reload(NoFault)).list)
       <==> && (forall k :: Live(f, k) ==> Less(k, key))
            && (forall d :: d in f.disk && d !in f.table.rows ==> Less(key, d))
  {
    AppendedFolder(f, key, body, flagged, stop);
    if k :| Live(f, k) && !Less(k, key) {
      LessTotal(k, key);
      RowsAreSound(f.table);
      StepKeepsUid(g, Reload(NoFault), k);
      StepKeepsUid(g, Reload(NoFault), key);
      OutOfOrder(g, key, k);
    } else if d :| d in f.disk && d !in f.table.rows && !Less(key, d) {
      LessTotal(d, key);
      LateFileGetsLaterUid(g, d, key);
      OutOfOrder(g, d, key);
    } else {
      AppendedInOrder(f, key, g);
      ReloadSorts(g);
    }
  }

  /** So an append under the latest name so far keeps it exactly when nothing is left to be indexed. */
  lemma LatestAppendKeepsOrderIff(f: Folder, key: Key, body: Body, flagged: bool, stop: nat, g: Folder)
    requires Inv(f) && KeyOrdered(f) && NewName(f, key) && key !in f.table.rows
    requires forall k :: k in f.disk ==> Less(k, key)
    requires g == AppendTo(f, key, body, flagged, stop).folder && key in g.table.rows
    requires |f.table.log| + |f.disk| + 2 < UINT32_RANGE - 1
    ensures KeySorted(Step(g, Reload(NoFault)).list) <==> forall d :: d in f.disk ==> d in f.table.rows
  {
    AppendKeepsOrderIff(f, key, body, flagged, stop, g);
    forall d | d in f.disk ensures !Less(key, d) {
      LessTotal(key, d);
    }
  }

  // ---------- deliveries by the clock ----------

  /** What `uniqueName` makes a name of. */
  datatype Stamp = Stamp(nanos: nat, randomHex: string, origin: Origin) {
    ghost predicate Names(key: Key) {
      nanos <= INT64_MAX && key == UniqueName(nanos, randomHex, origin)
    }
  }

  lemma NamedOnce(s: Stamp, t: Stamp, key: Key)
    requires s.Names(key) && t.Names(key)
    ensures s.nanos == t.nanos
  {
    if s.nanos != t.nanos {
      NamesSortByTime(s.nanos, s.randomHex, s.origin, t.nanos, t.randomHex, t.origin);
      NamesSortByTime(t.nanos, t.randomHex, t.origin, s.nanos, s.randomHex, s.origin);
      LessTotal(key, key);
    }
  }

  /** A delivery makes its name first; the file becomes visible under it some time later, and deliveries
      run side by side.  Indexing is left to reloads. */
  datatype Act = Named(stamp: Stamp) | Arrives(stamp: Stamp, key: Key, body: Body) | Other(event: Event)

  /** The folder, the names made whose files have not arrived, and the time of the last name. */
  datatype World = World(folder: Folder, pending: set<Stamp>, clock: int)

  ghost predicate CanHappen(w: World, a: Act) {
    match a
    case Named(stamp) => w.clock < stamp.nanos <= INT64_MAX
    case Arrives(stamp, key, _) =>
      stamp in w.pending && stamp.Names(key) && NewName(w.folder, key) && key !in w.folder.table.rows
    case Other(event) => Possible(w.folder, event) && !event.Append? && !event.Deliver?
  }

  function AfterAct(w: World, a: Act): World {
    match a
    case Named(stamp) => w.(pending := w.pending + {stamp}, clock := stamp.nanos)
    case Arrives(stamp, key, body) =>
      w.(folder := Step(w.folder, Deliver(key, body)), pending := w.pending - {stamp})
    case Other(event) => w.(folder := Step(w.folder, event))
  }

  ghost predicate CanRun(w: World, acts: seq<Act>)
    decreases |acts|
  {
    acts == [] || (CanHappen(w, acts[0]) && CanRun(AfterAct(w, acts[0]), acts[1..]))
  }

  function AfterActs(w: World, acts: seq<Act>): World
    decreases |acts|
  {
    if acts == [] then w else AfterActs(AfterAct(w, acts[0]), acts[1..])
  }

  /** A file named later has been indexed already. */
  ghost predicate Overtaken(f: Folder, stamp: Stamp) {
    exists k, t: Stamp :: Live(f, k) && t.Names(k) && t.nanos > stamp.nanos
  }

  ghost predicate NeverOvertaken(w: World, acts: seq<Act>)
    decreases |acts|
  {
    acts == [] ||
    (&& (acts[0].Arrives? ==> !Overtaken(w.folder, acts[0].stamp))
     && NeverOvertaken(AfterAct(w, acts[0]), acts[1..]))
  }

  predicate Holds(f: Folder, key: Key) {
    key in f.disk || key in f.table.rows || exists i :: 0 <= i < |f.list| && f.list[i].key == key
  }

  ghost predicate HasStamp(key: Key) {
    exists s: Stamp :: s.Names(key)
  }

  /** Everything in the folder was named by the clock, and nothing that is still to arrive was named at the
      same nanosecond. */
  ghost predicate Stamped(w: World) {
    && (forall k :: Holds(w.folder, k) ==> HasStamp(k))
    && (forall k, t: Stamp :: Holds(w.folder, k) && t.Names(k) ==>
          t.nanos <= w.clock && forall p :: p in w.pending ==> p.nanos != t.nanos)
    && (forall p :: p in w.pending ==> p.nanos <= w.clock)
    && (forall p, q :: p in w.pending && q in w.pending && p.nanos == q.nanos ==> p == q)
  }

  lemma {:induction false} WalkListsKeys(keys: seq<Key>, cached: Index, known: Index, t: Table, budget: nat)
    ensures forall m :: m in IndexAll(keys, cached, known, t, budget).list ==> m.key in keys
  {
    if keys != [] {
      assert keys == [keys[0]] + keys[1..];
      if keys[0] in cached || keys[0] in known {
        WalkListsKeys(keys[1..], cached, known, t, budget);
      } else if budget > 0 && CanInsert(t, keys[0]) {
        WalkListsKeys(keys[1..], cached, known, Inserted(t, keys[0]), budget - 1);
      }
    }
  }

  lemma ReloadHoldsNoMore(f: Folder, fault: Fault, key: Key)
    ensures Holds(Step(f, Reload(fault)), key) ==> Holds(f, key)
  {
    var keys, g := Listing(f), Step(f, Reload(fault));
    var walk := IndexAll(keys, CacheOf(f.list), f.table.rows, Pruned(f.table, keys), Budget(fault, |keys|));
    ListingIsDisk(f);
    WalkExtends(keys, CacheOf(f.list), f.table.rows, Pruned(f.table, keys), Budget(fault, |keys|));
    WalkListsKeys(keys, CacheOf(f.list), f.table.rows, Pruned(f.table, keys), Budget(fault, |keys|));
    if i :| 0 <= i < |g.list| && g.list[i].key == key && g.list != f.list {
      assert g.list[i] in SortByUid(walk.list);
      SortMembers(walk.list, g.list[i]);
    }
  }

  lemma ExpungeHoldsNoMore(f: Folder, order: seq<Message>, strict: bool, stop: nat, key: Key)
    requires Shaped(f.table)
    ensures Holds(Step(f, Expunge(order, strict, stop)), key) ==> Holds(f, key)
  {
    var g := Step(f, Expunge(order, strict, stop));
    RemovalEffect(f, order, strict, stop);
    if i :| 0 <= i < |g.list| && g.list[i].key == key && g.list != f.list {
      KeepMembers(f.list, UidsOf(order), g.list[i]);
      var j :| 0 <= j < |f.list| && f.list[j] == g.list[i];
    }
  }

  /** No event but a delivery brings a key into the folder. */
  lemma StepHoldsNoMore(f: Folder, e: Event, key: Key)
    requires Shaped(f.table) && !e.Append? && !e.Deliver?
    ensures Holds(Step(f, e), key) ==> Holds(f, key)
  {
    match e {
      case Reload(fault) => ReloadHoldsNoMore(f, fault, key);
      case Expunge(order, strict, stop) => ExpungeHoldsNoMore(f, order, strict, stop, key);
      case _ =>
    }
  }

  lemma ActStaysStamped(w: World, a: Act)
    requires Shaped(w.folder.table) && Stamped(w) && CanHappen(w, a)
    ensures Stamped(AfterAct(w, a))
  {
    var w' := AfterAct(w, a);
    match a
    case Named(stamp) =>
    case Other(event) =>
      forall k | Holds(w'.folder, k) ensures Holds(w.folder, k) {
        StepHoldsNoMore(w.folder, event, k);
      }
    case Arrives(stamp, key, body) =>
      assert HasStamp(key);
      forall k, t: Stamp | Holds(w'.folder, k) && t.Names(k)
        ensures t.nanos <= w'.clock && forall p :: p in w'.pending ==> p.nanos != t.nanos
      {
        if k == key {
          NamedOnce(stamp, t, key);
        } else {
          assert Holds(w.folder, k);
        }
      }
      forall k | Holds(w'.folder, k) ensures HasStamp(k) {
        assert k == key || Holds(w.folder, k);
      }
  }

  /** An arrival that is not overtaken comes after all that is indexed, and only such a one does. */
  lemma NotOvertakenIff(w: World, stamp: Stamp, key: Key)
    requires Stamped(w) && CanHappen(w, Arrives(stamp, key, []))
    ensures AfterIndexed(w.folder, key) <==> !Overtaken(w.folder, stamp)
  {
    forall k, t: Stamp | Live(w.folder, k) && t.Names(k)
      ensures Less(k, key) <==> t.nanos < stamp.nanos
      ensures t.nanos != stamp.nanos
    {
      assert Holds(w.folder, k);
      NamesSortByTime(t.nanos, t.randomHex, t.origin, stamp.nanos, stamp.randomHex, stamp.origin);
    }
    forall k | Live(w.folder, k) ensures HasStamp(k) {
      assert Holds(w.folder, k);
    }
  }

  /** Every message comes before those named at a later nanosecond. */
  ghost predicate ClockSorted(list: seq<Message>) {
    forall i, j, s: Stamp, t: Stamp ::
      0 <= i < |list| && 0 <= j < |list| && s.Names(list[i].key) && t.Names(list[j].key) && s.nanos < t.nanos ==> i < j
  }

  lemma KeyOrderIsClockOrder(list: seq<Message>)
    requires KeySorted(list)
    ensures ClockSorted(list)
  {
    forall i, j, s: Stamp, t: Stamp
      | 0 <= i < |list| && 0 <= j < |list| && s.Names(list[i].key) && t.Names(list[j].key) && s.nanos < t.nanos
      ensures i < j
    {
      NamesSortByTime(s.nanos, s.randomHex, s.origin, t.nanos, t.randomHex, t.origin);
      LessTotal(list[i].key, list[j].key);
    }
  }

  /** The folder's side of a run. */
  function EventsOf(acts: seq<Act>): seq<Event> {
    if acts == [] then []
    else
      match acts[0]
      case Named(_) => EventsOf(acts[1..])
      case Arrives(_, key, body) => [Deliver(key, body)] + EventsOf(acts[1..])
      case Other(event) => [event] + EventsOf(acts[1..])
  }

  lemma {:induction false} PunctualRunIsInOrder(w: World, acts: seq<Act>)
    requires Shaped(w.folder.table) && Stamped(w) && CanRun(w, acts) && NeverOvertaken(w, acts)
    ensures InOrderRun(w.folder, EventsOf(acts))
    ensures AfterActs(w, acts).folder == Exec(w.folder, EventsOf(acts))
    decreases |acts|
  {
    if acts != [] {
      var a, rest := acts[0], EventsOf(acts[1..]);
      ActStaysStamped(w, a);
      if !a.Named? {
        StepExtendsLog(w.folder, if a.Arrives? then Deliver(a.key, a.body) else a.event);
        assert EventsOf(acts)[1..] == rest;
      }
      if a.Arrives? { NotOvertakenIff(w, a.stamp, a.key); }
      PunctualRunIsInOrder(AfterAct(w, a), acts[1..]);
    }
  }

  /** A new mailbox, before any file. */
  ghost predicate Opened(w: World) {
    w.folder == NewFolder(map[]) && w.pending == {} && w.clock == -1
  }

  lemma OpenedIsStamped(w: World)
    requires Opened(w)
    ensures Stamped(w) && Shaped(w.folder.table) && Inv(w.folder) && KeyOrdered(w.folder)
  {
  }

  /** End to end: when files are named by the clock and only reloads index them, a reload lists the messages
      in the order of their names' times, as long as none arrives after a later one has been indexed. */
  lemma UidOrderIsClockOrder(w: World, acts: seq<Act>, f: Folder)
    requires Opened(w) && CanRun(w, acts) && NeverOvertaken(w, acts) && f == AfterActs(w, acts).folder
    requires |f.table.log| + |f.disk| < UINT32_RANGE - 1
    ensures ClockSorted(Step(f, Reload(NoFault)).list)
  {
    OpenedIsStamped(w);
    PunctualRunIsInOrder(w, acts);
    UidOrderIsDeliveryOrder(map[], EventsOf(acts), f);
    KeyOrderIsClockOrder(Step(f, Reload(NoFault)).list);
  }

  lemma LaterUidIsLaterInList(g: Folder, k: Key, l: Key, s: Stamp, t: Stamp)
    requires FolderInStep(g) && k in g.table.rows && l in g.table.rows && g.table.rows[k] > g.table.rows[l]
    requires s.Names(k) && t.Names(l) && s.nanos < t.nanos
    ensures !ClockSorted(g.list)
  {
    var m, n := Message(g.table.rows[k], k), Message(g.table.rows[l], l);
    assert m in g.list && n in g.list;
    var i :| 0 <= i < |g.list| && g.list[i] == m;
    var j :| 0 <= j < |g.list| && g.list[j] == n;
    assert !(i < j);
  }

  /** One arrival: the next reload lists the messages by the clock exactly when it was not overtaken. */
  lemma ArrivalKeepsClockIff(w: World, stamp: Stamp, key: Key, body: Body, g: Folder)
    requires Inv(w.folder) && KeyOrdered(w.folder) && Stamped(w) && CanHappen(w, Arrives(stamp, key, body))
    requires g == Step(w.folder, Deliver(key, body))
    requires |w.folder.table.log| + |w.folder.disk| + 1 < UINT32_RANGE - 1
    ensures ClockSorted(Step(g, Reload(NoFault)).list) <==> !Overtaken(w.folder, stamp)
  {
    if Overtaken(w.folder, stamp) {
      var k, t: Stamp :| Live(w.folder, k) && t.Names(k) && t.nanos > stamp.nanos;
      assert g.disk.Keys == w.folder.disk.Keys + {key};
      StepKeepsInv(w.folder, Deliver(key, body));
      LateFileGetsLaterUid(g, key, k);
      ReloadPutsInStep(g);
      LaterUidIsLaterInList(Step(g, Reload(NoFault)), key, k, stamp, t);
    } else {
      NotOvertakenIff(w, stamp, key);
      DeliveryKeepsOrderIff(w.folder, key, body, g);
      KeyOrderIsClockOrder(Step(g, Reload(NoFault)).list);
    }
  }

  lemma ActThenRest(w: World, a: Act, w': World, rest: seq<Act>)
    requires CanHappen(w, a) && w' == AfterAct(w, a) && CanRun(w', rest)
    ensures CanRun(w, [a] + rest) && AfterActs(w, [a] + rest) == AfterActs(w', rest)
  {
    assert ([a] + rest)[1..] == rest;
  }

  lemma ReloadLeaves(f: Folder)
    requires Inv(f) && KeyOrdered(f) && |f.table.log| + |f.disk| < UINT32_RANGE - 1
    ensures var g := Step(f, Reload(NoFault));
            && Inv(g) && KeyOrdered(g) && FolderInStep(g)
            && g.disk == f.disk && |g.table.log| <= |f.table.log| + |f.disk|
  {
    ReloadGrowsLog(Listing(f), f.table, f.list);
    ReloadPutsInStep(f);
    ReloadKeepsInv(f, NoFault);
    ReloadKeepsOrder(f, NoFault);
  }

  /** Two names are made, and the second file arrives. */
  function LateArrived(s: Stamp, t: Stamp, l: Key, body: Body): World {
    World(NewFolder(map[l := body]), {s}, t.nanos)
  }

  function FirstActs(s: Stamp, t: Stamp, l: Key, body: Body, rest: seq<Act>): seq<Act> {
    [Named(s)] + ([Named(t)] + ([Arrives(t, l, body)] + rest))
  }

  lemma LateArrives(w: World, s: Stamp, t: Stamp, l: Key, body: Body, rest: seq<Act>)
    requires Opened(w) && s.nanos <= INT64_MAX && t.Names(l) && s.nanos < t.nanos
    requires CanRun(LateArrived(s, t, l, body), rest)
    ensures CanRun(w, FirstActs(s, t, l, body, rest))
    ensures AfterActs(w, FirstActs(s, t, l, body, rest)) == AfterActs(LateArrived(s, t, l, body), rest)
    ensures Stamped(LateArrived(s, t, l, body))
  {
    var w1 := World(NewFolder(map[]), {s}, s.nanos);
    var w2 := World(NewFolder(map[]), {s, t}, t.nanos);
    var w3 := LateArrived(s, t, l, body);
    assert {s} + {t} == {s, t} && {s, t} - {t} == {s} && map[][l := body] == map[l := body];
    assert AfterAct(w, Named(s)) == w1 && AfterAct(w1, Named(t)) == w2 && AfterAct(w2, Arrives(t, l, body)) == w3;
    OpenedIsStamped(w);
    ActStaysStamped(w, Named(s));
    ActStaysStamped(w1, Named(t));
    ActStaysStamped(w2, Arrives(t, l, body));
    ActThenRest(w2, Arrives(t, l, body), w3, rest);
    ActThenRest(w1, Named(t), w2, [Arrives(t, l, body)] + rest);
    ActThenRest(w, Named(s), w1, [Named(t)] + ([Arrives(t, l, body)] + rest));
  }

  lemma LastArrives(w: World, s: Stamp, k: Key, l: Key, t: Stamp)
    requires FolderInStep(w.folder) && w.folder.disk.Keys == {l} && k != l && s in w.pending && s.Names(k)
    requires t.Names(l) && s.nanos < t.nanos
    ensures CanHappen(w, Arrives(s, k, [])) && Overtaken(w.folder, s)
  {
    forall m | m in w.folder.list ensures m.key != k {
      assert m.key in w.folder.table.rows;
    }
    assert Live(w.folder, l);
  }

  lemma OvertakenArrival(w: World, s: Stamp, k: Key, l: Key, t: Stamp, body: Body)
    requires Inv(w.folder) && KeyOrdered(w.folder) && FolderInStep(w.folder) && Stamped(w)
    requires |w.folder.table.log| <= 1 && w.folder.disk.Keys == {l} && k != l && s in w.pending
    requires s.Names(k) && t.Names(l) && s.nanos < t.nanos
    ensures CanRun(w, [Arrives(s, k, body)])
    ensures !ClockSorted(Step(AfterActs(w, [Arrives(s, k, body)]).folder, Reload(NoFault)).list)
  {
    LastArrives(w, s, k, l, t);
    ActThenRest(w, Arrives(s, k, body), AfterAct(w, Arrives(s, k, body)), []);
    assert [Arrives(s, k, body)] + [] == [Arrives(s, k, body)];
    assert |w.folder.disk| == |w.folder.disk.Keys| == 1;
    ArrivalKeepsClockIff(w, s, k, body, Step(w.folder, Deliver(k, body)));
  }

  lemma LateReload(w: World, s: Stamp, t: Stamp, l: Key, body: Body, w': World)
    requires w == LateArrived(s, t, l, body) && Stamped(w) && w' == AfterAct(w, Other(Reload(NoFault)))
    ensures Inv(w'.folder) && KeyOrdered(w'.folder) && FolderInStep(w'.folder) && Stamped(w')
    ensures |w'.folder.table.log| <= 1 && w'.folder.disk.Keys == {l} && w'.pending == {s}
  {
    NewFolderOrdered(map[l := body]);
    ReloadLeaves(w.folder);
    ActStaysStamped(w, Other(Reload(NoFault)));
  }

  /** It can happen whenever two deliveries overlap: the one named first arrives after a reload has indexed
      the other. */
  lemma OvertakingHappens(w: World, s: Stamp, t: Stamp, k: Key, l: Key, body: Body, acts: seq<Act>)
    requires Opened(w) && s.Names(k) && t.Names(l) && s.nanos < t.nanos
    requires acts == FirstActs(s, t, l, body, [Other(Reload(NoFault))] + [Arrives(s, k, body)])
    ensures CanRun(w, acts) && !ClockSorted(Step(AfterActs(w, acts).folder, Reload(NoFault)).list)
  {
    NamesSortByTime(s.nanos, s.randomHex, s.origin, t.nanos, t.randomHex, t.origin);
    LessTotal(k, l);
    var last := [Arrives(s, k, body)];
    var w3 := LateArrived(s, t, l, body);
    var w4 := AfterAct(w3, Other(Reload(NoFault)));
    LateIsStamped(w, s, t, l, body);
    LateReload(w3, s, t, l, body, w4);
    OvertakenArrival(w4, s, k, l, t, body);
    ActThenRest(w3, Other(Reload(NoFault)), w4, last);
    LateArrives(w, s, t, l, body, [Other(Reload(NoFault))] + last);
  }

  lemma LateIsStamped(w: World, s: Stamp, t: Stamp, l: Key, body: Body)
    requires Opened(w) && s.nanos <= INT64_MAX && t.Names(l) && s.nanos < t.nanos
    ensures Stamped(LateArrived(s, t, l, body))
  {
    LateArrives(w, s, t, l, body, []);
  }
}
