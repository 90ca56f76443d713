/** Directory, index and list stay in step from one reload to the next, as long as operations go
    through; a failed one leaves work for the next reload, which always finds the way back. */
module Agreement {
  import opened Keys
  import opened UidTable
  import opened Reload
  import opened Expunging
  import opened Folders
  import opened Moves

  /** An append that succeeds adds its message to all three. */
  lemma AppendStaysInStep(f: Folder, key: Key, body: Body, flagged: bool, stop: nat)
    requires Inv(f) && FolderInStep(f) && NewName(f, key) && CounterLasts(f.table)
    requires AppendTo(f, key, body, flagged, stop).uid.Some?
    ensures FolderInStep(AppendTo(f, key, body, flagged, stop).folder)
  {
    RowsAreSound(f.table);
    ListedBelowNext(f);
    var g := AppendTo(f, key, body, flagged, stop).folder;
    var added := Message(f.table.uidNext, key);
    assert g.list == f.list + [added];
    forall m ensures m in g.list <==> m.key in g.table.rows && g.table.rows[m.key] == m.uid {
      assert m in g.list <==> m in f.list || m == added;
    }
  }

  /** A removal that goes through takes the same keys from the directory and from the rows. */
  lemma {:induction false} RemovalTakesAll(f: Folder, order: seq<Message>, strict: bool, stop: nat)
    requires RemoveAll(f, order, strict, stop).ok
    ensures var g := RemoveAll(f, order, strict, stop).folder;
            g.disk == f.disk - KeysOf(order) && g.table.rows == f.table.rows - KeysOf(order) && g.list == f.list
    decreases |order|
  {
    if order != [] {
      var k := order[0].key;
      var next := Folder(f.disk - {k}, Without(f.table, k), f.list);
      RemovalTakesAll(next, order[1..], strict, stop - 2);
      assert f.disk - KeysOf(order) == next.disk - KeysOf(order[1..]);
      assert f.table.rows - KeysOf(order) == next.table.rows - KeysOf(order[1..]);
    }
  }

  lemma DoomedByUidOrKey(f: Folder, order: seq<Message>, m: Message)
    requires Inv(f) && FolderInStep(f) && CounterLasts(f.table) && m in f.list
    requires forall x :: x in order ==> x in f.list
    ensures m.uid in UidsOf(order) <==> m.key in KeysOf(order)
  {
    RowsAreSound(f.table);
    KeyIsListed(order, m.key);
    if m.uid in UidsOf(order) {
      var x :| x in order && x.uid == m.uid;
      var i :| 0 <= i < |order| && order[i] == x;
      assert x in f.list;
    }
    if m.key in KeysOf(order) {
      var i :| 0 <= i < |order| && order[i].key == m.key;
      assert order[i] in order && order[i] in f.list;
    }
  }

  /** An expunge (or the source side of a move) that succeeds takes its messages from all three. */
  lemma ExpungeStaysInStep(f: Folder, order: seq<Message>, strict: bool, stop: nat)
    requires Inv(f) && FolderInStep(f) && CounterLasts(f.table) && forall x :: x in order ==> x in f.list
    requires Expunged(f, order, strict, stop).ok
    ensures FolderInStep(Expunged(f, order, strict, stop).folder)
  {
    var g := Expunged(f, order, strict, stop).folder;
    RemovalTakesAll(f, order, strict, stop);
    KeepAscending(f.list, UidsOf(order));
    assert g.table.rows.Keys == g.disk.Keys;
    forall m ensures m in g.list <==> m.key in g.table.rows && g.table.rows[m.key] == m.uid {
      KeepMembers(f.list, UidsOf(order), m);
      if m in f.list { DoomedByUidOrKey(f, order, m); }
    }
  }

  /** A copy that succeeds leaves the destination in step. */
  lemma {:induction false} CopyStaysInStep(disk: map<Key, Body>, dest: Folder, chosen: seq<Message>,
                                           names: seq<Key>, flagged: set<Uid>, stop: nat)
    requires |names| == |chosen| && NamesUnused(dest, names) && Inv(dest) && FolderInStep(dest)
    requires var c := CopyAll(disk, dest, chosen, names, flagged, stop); c.ok && CounterLasts(c.dest.table)
    ensures FolderInStep(CopyAll(disk, dest, chosen, names, flagged, stop).dest)
    decreases |chosen|
  {
    if chosen != [] {
      var body, marked := disk[chosen[0].key], chosen[0].uid in flagged;
      var a := AppendTo(dest, names[0], body, marked, stop);
      CopyLogGrows(disk, a.folder, chosen[1..], names[1..], flagged, Later(stop));
      AppendStaysInStep(dest, names[0], body, marked, stop);
      AppendKeepsInv(dest, names[0], body, marked, stop);
      NamesStillUnused(dest, names, body, marked, stop);
      CopyStaysInStep(disk, a.folder, chosen[1..], names[1..], flagged, Later(stop));
    }
  }

  /** A move that succeeds leaves both folders in step. */
  lemma MoveStaysInStep(src: Folder, dest: Folder, chosen: seq<Message>, names: seq<Key>,
                        flagged: set<Uid>, order: seq<Message>, stop: nat)
    requires |names| == |chosen| && NamesUnused(dest, names) && SameMessages(order, chosen)
    requires Inv(src) && FolderInStep(src) && CounterLasts(src.table) && forall m :: m in chosen ==> m in src.list
    requires Inv(dest) && FolderInStep(dest)
    requires var m := MoveAll(src, dest, chosen, names, flagged, order, stop); m.ok && CounterLasts(m.dest.table)
    ensures var m := MoveAll(src, dest, chosen, names, flagged, order, stop);
            FolderInStep(m.src) && FolderInStep(m.dest)
  {
    CopyStaysInStep(src.disk, dest, chosen, names, flagged, stop);
    ExpungeStaysInStep(src, order, true, CopyAll(src.disk, dest, chosen, names, flagged, stop).left);
  }

  function AfterReloads(f: Folder, faults: seq<Fault>): Folder
    decreases |faults|
  {
    if faults == [] then f else AfterReloads(Step(f, Reload(faults[0])), faults[1..])
  }

  /** Interrupted reloads of a folder are harmless: any number of them in a row leaves the list as it
      was, and the next one that succeeds gives the folder that one reload would have given. */
  lemma {:induction false} InterruptionsLeaveNoMark(f: Folder, faults: seq<Fault>)
    requires AllFail(Listing(f), f.table, f.list, faults)
    ensures var g := AfterReloads(f, faults);
            && g.list == f.list && g.disk == f.disk
            && Step(g, Reload(NoFault)) == Step(f, Reload(NoFault))
    decreases |faults|
  {
    if faults != [] {
      ListingIsDisk(f);
      InterruptedReloadIsHarmless(Listing(f), f.table, f.list, faults[0]);
      InterruptionsLeaveNoMark(Step(f, Reload(faults[0])), faults[1..]);
    }
  }
}
