/** Copying and moving messages between two folders of one user.

    A move copies every chosen message first and only then removes the originals, in an order of its
    own.  `stop` counts single disk and database operations before the first failure, so the states
    for growing `stop` are all the points at which a move can be interrupted. */
module Moves {
  import opened Keys
  import opened UidTable
  import opened Reload
  import opened Expunging
  import opened Folders
  import opened Sequences

  /** Operations left after one complete append. */
  function Later(stop: nat): nat {
    if stop < 4 then 0 else stop - 4
  }

  /** The messages a command chose by sequence number or UID, in list order. */
  function Chosen(l: seq<Message>, picked: set<Uid>): seq<Message> {
    if l == [] then [] else
      var rest := Chosen(l[..|l| - 1], picked);
      if l[|l| - 1].uid in picked then rest + [l[|l| - 1]] else rest
  }

  lemma {:induction false} ChosenMembers(l: seq<Message>, picked: set<Uid>, m: Message)
    ensures m in Chosen(l, picked) <==> m in l && m.uid in picked
  {
    if l != [] {
      ChosenMembers(l[..|l| - 1], picked, m);
      assert l == l[..|l| - 1] + [l[|l| - 1]];
    }
  }

  /** Messages are visited in ascending order of UID. */
  lemma {:induction false} ChosenAscending(l: seq<Message>, picked: set<Uid>)
    requires UidAscending(l)
    ensures UidAscending(Chosen(l, picked))
  {
    if l != [] {
      var n := |l| - 1;
      var rest := Chosen(l[..n], picked);
      ChosenAscending(l[..n], picked);
      forall i | 0 <= i < |rest|
        ensures rest[i].uid < l[n].uid
      {
        ChosenMembers(l[..n], picked, rest[i]);
      }
    }
  }

  datatype Copied = Copied(dest: Folder, uids: seq<Uid>, ok: bool, left: nat)

  /** The copying loop: read, deliver, index; `names[i]` is the file name made for `chosen[i]`. */
  function CopyAll(disk: map<Key, Body>, dest: Folder, chosen: seq<Message>, names: seq<Key>,
                   flagged: set<Uid>, stop: nat): Copied
    requires |names| == |chosen|
    decreases |chosen|
  {
    if chosen == [] then Copied(dest, [], true, stop)
    else if chosen[0].key !in disk then Copied(dest, [], false, stop)
    else
      var a := AppendTo(dest, names[0], disk[chosen[0].key], chosen[0].uid in flagged, stop);
      if a.uid.None? then Copied(a.folder, [], false, 0)
      else
        var rest := CopyAll(disk, a.folder, chosen[1..], names[1..], flagged, Later(stop));
        rest.(uids := [a.uid.value] + rest.uids)
  }

  datatype Moved = Moved(src: Folder, dest: Folder, uids: seq<Uid>, ok: bool)

  /** `Move`, and `moveTo` with a single message. */
  function MoveAll(src: Folder, dest: Folder, chosen: seq<Message>, names: seq<Key>,
                   flagged: set<Uid>, order: seq<Message>, stop: nat): Moved
    requires |names| == |chosen|
  {
    var c := CopyAll(src.disk, dest, chosen, names, flagged, stop);
    if !c.ok then Moved(src, c.dest, c.uids, false)
    else
      var r := Expunged(src, order, true, c.left);
      Moved(r.folder, c.dest, c.uids, r.ok)
  }

  /** A move into the folder the message is in: a copy is appended, then the original removed. */
  function MovedWithin(f: Folder, m: Message, name: Key, flagged: bool, stop: nat): Removal {
    if m.key !in f.disk then Removal(f, false)
    else
      var a := AppendTo(f, name, f.disk[m.key], flagged, stop);
      if a.uid.None? then Removal(a.folder, false) else Expunged(a.folder, [m], true, Later(stop))
  }

  // ---------- bodies on disk ----------

  /** The files that hold body `b`. */
  function Holders(disk: map<Key, Body>, b: Body): set<Key> {
    set k | k in disk && disk[k] == b
  }

  /** In how many files of the two folders is `b`? */
  function Copies(src: Folder, dest: Folder, b: Body): nat {
    |Holders(src.disk, b)| + |Holders(dest.disk, b)|
  }

  lemma HoldersWith(disk: map<Key, Body>, k: Key, x: Body, b: Body)
    requires k !in disk
    ensures |Holders(disk[k := x], b)| == |Holders(disk, b)| + if x == b then 1 else 0
  {
    assert Holders(disk[k := x], b) == Holders(disk, b) + if x == b then {k} else {};
  }

  lemma HoldersWithout(disk: map<Key, Body>, gone: set<Key>, b: Body)
    ensures |Holders(disk, b)| == |Holders(disk - gone, b)| + |Holders(disk, b) * gone|
  {
    assert Holders(disk - gone, b) == Holders(disk, b) - gone;
  }

  // ---------- copying ----------

  ghost predicate DistinctKeys(list: seq<Message>) {
    forall i, j :: 0 <= i < j < |list| ==> list[i].key != list[j].key
  }

  /** The new names are unused in the destination and differ from each other. */
  ghost predicate NamesUnused(dest: Folder, names: seq<Key>) {
    && (forall i :: 0 <= i < |names| ==> NewName(dest, names[i]))
    && (forall i, j :: 0 <= i < j < |names| ==> names[i] != names[j])
  }

  lemma NamesStillUnused(dest: Folder, names: seq<Key>, body: Body, flagged: bool, stop: nat)
    requires names != [] && NamesUnused(dest, names)
    ensures NamesUnused(AppendTo(dest, names[0], body, flagged, stop).folder, names[1..])
  {
    assert forall i :: 0 <= i < |names| - 1 ==> names[1..][i] == names[i + 1];
  }

  lemma FirstOfChosen(chosen: seq<Message>, holders: set<Key>)
    requires chosen != [] && DistinctKeys(chosen)
    ensures var k := chosen[0].key;
            |holders * KeysOf(chosen)| == |holders * KeysOf(chosen[1..])| + if k in holders then 1 else 0
  {
    var k, rest := chosen[0].key, KeysOf(chosen[1..]);
    KeyIsListed(chosen[1..], k);
    assert forall i :: 0 <= i < |chosen| - 1 ==> chosen[1..][i] == chosen[i + 1];
    if k in holders {
      assert holders * ({k} + rest) == holders * rest + {k};
    } else {
      assert holders * ({k} + rest) == holders * rest;
    }
  }

  lemma AppendAddsBody(dest: Folder, name: Key, body: Body, flagged: bool, stop: nat, b: Body)
    requires NewName(dest, name)
    ensures var a := AppendTo(dest, name, body, flagged, stop);
            && |Holders(dest.disk, b)| <= |Holders(a.folder.disk, b)|
            && (a.uid.Some? ==>
                  |Holders(a.folder.disk, b)| == |Holders(dest.disk, b)| + if body == b then 1 else 0)
  {
    HoldersWith(dest.disk, name, body, b);
  }

  /** Copying takes no body away, however far it gets. */
  lemma {:induction false} CopyKeepsBodies(disk: map<Key, Body>, dest: Folder, chosen: seq<Message>,
                                           names: seq<Key>, flagged: set<Uid>, stop: nat, b: Body)
    requires |names| == |chosen| && NamesUnused(dest, names)
    ensures var c := CopyAll(disk, dest, chosen, names, flagged, stop);
            && |Holders(dest.disk, b)| <= |Holders(c.dest.disk, b)|
            && (c.ok ==> forall i :: 0 <= i < |chosen| ==> chosen[i].key in disk)
    decreases |chosen|
  {
    if chosen != [] && chosen[0].key in disk {
      var body, marked := disk[chosen[0].key], chosen[0].uid in flagged;
      var a := AppendTo(dest, names[0], body, marked, stop);
      AppendAddsBody(dest, names[0], body, marked, stop, b);
      if a.uid.Some? {
        NamesStillUnused(dest, names, body, marked, stop);
        CopyKeepsBodies(disk, a.folder, chosen[1..], names[1..], flagged, Later(stop), b);
        assert forall i :: 1 <= i < |chosen| ==> chosen[i] == chosen[1..][i - 1];
      }
    }
  }

  /** When it succeeds it has added exactly the chosen bodies. */
  lemma {:induction false} CopyAddsBodies(disk: map<Key, Body>, dest: Folder, chosen: seq<Message>,
                                          names: seq<Key>, flagged: set<Uid>, stop: nat, b: Body)
    requires |names| == |chosen| && NamesUnused(dest, names) && DistinctKeys(chosen)
    requires CopyAll(disk, dest, chosen, names, flagged, stop).ok
    ensures var c := CopyAll(disk, dest, chosen, names, flagged, stop);
            |Holders(c.dest.disk, b)| == |Holders(dest.disk, b)| + |Holders(disk, b) * KeysOf(chosen)|
    decreases |chosen|
  {
    if chosen == [] {
      assert Holders(disk, b) * KeysOf(chosen) == {};
    } else {
      var body, marked := disk[chosen[0].key], chosen[0].uid in flagged;
      var a := AppendTo(dest, names[0], body, marked, stop);
      AppendAddsBody(dest, names[0], body, marked, stop, b);
      NamesStillUnused(dest, names, body, marked, stop);
      assert forall i :: 0 <= i < |chosen| - 1 ==> chosen[1..][i] == chosen[i + 1];
      CopyAddsBodies(disk, a.folder, chosen[1..], names[1..], flagged, Later(stop), b);
      FirstOfChosen(chosen, Holders(disk, b));
    }
  }

  // ---------- removing the originals ----------

  /** Removal, however far it gets, takes only files of the messages it was given; a strict one that
      succeeds has taken them all. */
  lemma {:induction false} RemovalTakesOnly(f: Folder, order: seq<Message>, stop: nat)
    ensures var r := RemoveAll(f, order, true, stop);
            && (exists gone: set<Key> :: gone <= KeysOf(order) && r.folder.disk == f.disk - gone)
            && (r.ok ==> r.folder.disk == f.disk - KeysOf(order))
    decreases |order|
  {
    var r := RemoveAll(f, order, true, stop);
    if order == [] || stop == 0 || order[0].key !in f.disk {
      assert r.folder.disk == f.disk - {};
    } else {
      var k := order[0].key;
      if stop >= 2 {
        var next := Folder(f.disk - {k}, Without(f.table, k), f.list);
        RemovalTakesOnly(next, order[1..], stop - 2);
        var gone: set<Key> :| gone <= KeysOf(order[1..]) && r.folder.disk == next.disk - gone;
        assert r.folder.disk == f.disk - ({k} + gone);
        if r.ok { assert r.folder.disk == f.disk - ({k} + KeysOf(order[1..])); }
      } else {
        assert r.folder.disk == f.disk - {k} && {k} <= KeysOf(order);
      }
    }
  }

  // ---------- no mail is lost ----------

  /** The originals are removed in any order. */
  ghost predicate SameMessages(order: seq<Message>, chosen: seq<Message>) {
    forall m :: m in order <==> m in chosen
  }

  lemma SameKeys(order: seq<Message>, chosen: seq<Message>)
    requires SameMessages(order, chosen)
    ensures KeysOf(order) == KeysOf(chosen)
  {
    forall k ensures k in KeysOf(order) <==> k in KeysOf(chosen) {
      KeyIsListed(order, k);
      KeyIsListed(chosen, k);
      assert forall i :: 0 <= i < |order| ==> order[i] in chosen;
      assert forall i :: 0 <= i < |chosen| ==> chosen[i] in order;
    }
  }

  /** In a consistent folder no two listed messages share a file. */
  lemma ChosenFilesDiffer(f: Folder, chosen: seq<Message>)
    requires Inv(f) && UidAscending(chosen) && forall m :: m in chosen ==> m in f.list
    requires forall i :: 0 <= i < |chosen| ==> chosen[i].key in f.disk
    ensures DistinctKeys(chosen)
  {
    assert forall i :: 0 <= i < |chosen| ==> chosen[i] in f.list;
  }

  /** Wherever a move stops, each body that the two folders held is still on disk in at least as many
      files as before; a move that succeeds conserves the bodies of the two folders exactly. */
  lemma NoMailLostByMove(src: Folder, dest: Folder, chosen: seq<Message>, names: seq<Key>,
                         flagged: set<Uid>, order: seq<Message>, stop: nat, b: Body)
    requires Inv(src) && UidAscending(chosen) && forall m :: m in chosen ==> m in src.list
    requires |names| == |chosen| && NamesUnused(dest, names) && SameMessages(order, chosen)
    ensures var m := MoveAll(src, dest, chosen, names, flagged, order, stop);
            && Copies(src, dest, b) <= Copies(m.src, m.dest, b)
            && (m.ok ==> Copies(src, dest, b) == Copies(m.src, m.dest, b))
  {
    var c := CopyAll(src.disk, dest, chosen, names, flagged, stop);
    CopyKeepsBodies(src.disk, dest, chosen, names, flagged, stop, b);
    if c.ok {
      ChosenFilesDiffer(src, chosen);
      CopyAddsBodies(src.disk, dest, chosen, names, flagged, stop, b);
      SameKeys(order, chosen);
      RemovalTakesOnly(src, order, c.left);
      var r := RemoveAll(src, order, true, c.left);
      var gone: set<Key> :| gone <= KeysOf(order) && r.folder.disk == src.disk - gone;
      HoldersWithout(src.disk, gone, b);
      HoldersWithout(src.disk, KeysOf(order), b);
      SubsetSize(Holders(src.disk, b) * gone, Holders(src.disk, b) * KeysOf(order));
    }
  }

  /** Removing one message costs at most its own body, and exactly that when it succeeds. */
  lemma RemovalCostsOne(g: Folder, m: Message, stop: nat, b: Body)
    requires m.key in g.disk
    ensures var r := RemoveAll(g, [m], true, stop);
            var one: nat := if g.disk[m.key] == b then 1 else 0;
            && |Holders(g.disk, b)| <= |Holders(r.folder.disk, b)| + one
            && (r.ok ==> |Holders(g.disk, b)| == |Holders(r.folder.disk, b)| + one)
  {
    RemovalTakesOnly(g, [m], stop);
    var r := RemoveAll(g, [m], true, stop);
    assert KeysOf([m]) == {m.key};
    var gone: set<Key> :| gone <= {m.key} && r.folder.disk == g.disk - gone;
    HoldersWithout(g.disk, gone, b);
    HoldersWithout(g.disk, {m.key}, b);
    SubsetSize(Holders(g.disk, b) * gone, Holders(g.disk, b) * {m.key});
    assert Holders(g.disk, b) * {m.key} == if g.disk[m.key] == b then {m.key} else {};
  }

  /** Webmail may move a message into the folder it is in: nothing is lost there either. */
  lemma NoMailLostWithinFolder(f: Folder, m: Message, name: Key, flagged: bool, stop: nat, b: Body)
    requires NewName(f, name)
    ensures var r := MovedWithin(f, m, name, flagged, stop);
            && |Holders(f.disk, b)| <= |Holders(r.folder.disk, b)|
            && (r.ok ==> |Holders(f.disk, b)| == |Holders(r.folder.disk, b)|)
  {
    if m.key in f.disk {
      var a := AppendTo(f, name, f.disk[m.key], flagged, stop);
      AppendAddsBody(f, name, f.disk[m.key], flagged, stop, b);
      if a.uid.Some? {
        assert a.folder.disk[m.key] == f.disk[m.key];
        RemovalCostsOne(a.folder, m, Later(stop), b);
      }
    }
  }

  // ---------- when a move goes through ----------

  /** Names that were never used in the destination, and room to index them. */
  ghost predicate RoomFor(dest: Folder, names: seq<Key>) {
    && Shaped(dest.table) && |dest.table.log| + |names| < UINT32_RANGE - 1
    && (forall i :: 0 <= i < |names| ==> names[i] !in dest.table.rows)
    && NamesUnused(dest, names)
  }

  lemma AppendSucceeds(dest: Folder, names: seq<Key>, body: Body, flagged: bool, stop: nat)
    requires names != [] && RoomFor(dest, names) && stop >= 4
    ensures var a := AppendTo(dest, names[0], body, flagged, stop);
            a.uid.Some? && RoomFor(a.folder, names[1..])
  {
    RowsAreSound(dest.table);
    InsertedShaped(dest.table, names[0]);
    NamesStillUnused(dest, names, body, flagged, stop);
    assert forall i :: 0 <= i < |names| - 1 ==> names[1..][i] == names[i + 1];
  }

  /** With no disk or database failure, copying succeeds exactly when every chosen file is there. */
  lemma {:induction false} CopySucceedsIff(disk: map<Key, Body>, dest: Folder, chosen: seq<Message>,
                                           names: seq<Key>, flagged: set<Uid>, stop: nat)
    requires |names| == |chosen| && RoomFor(dest, names) && stop >= 4 * |chosen|
    ensures var c := CopyAll(disk, dest, chosen, names, flagged, stop);
            && (c.ok <==> forall i :: 0 <= i < |chosen| ==> chosen[i].key in disk)
            && (c.ok ==> c.left == stop - 4 * |chosen| && |c.uids| == |chosen|)
    decreases |chosen|
  {
    if chosen != [] && chosen[0].key in disk {
      var body, marked := disk[chosen[0].key], chosen[0].uid in flagged;
      AppendSucceeds(dest, names, body, marked, stop);
      CopySucceedsIff(disk, AppendTo(dest, names[0], body, marked, stop).folder, chosen[1..], names[1..], flagged,
                      Later(stop));
      assert forall i :: 1 <= i < |chosen| ==> chosen[i] == chosen[1..][i - 1];
    }
  }

  /** Undisturbed, the removal of a move goes through exactly when each of its files is there when its turn
      comes. */
  lemma {:induction false} StrictRemovalSucceedsIff(f: Folder, order: seq<Message>, stop: nat)
    requires stop >= 2 * |order|
    ensures RemoveAll(f, order, true, stop).ok
       <==> DistinctKeys(order) && forall i :: 0 <= i < |order| ==> order[i].key in f.disk
    decreases |order|
  {
    if order != [] && order[0].key in f.disk {
      var k := order[0].key;
      assert forall i :: 0 <= i < |order| - 1 ==> order[1..][i] == order[i + 1];
      assert forall i :: 1 <= i < |order| ==> order[i] == order[1..][i - 1];
      StrictRemovalSucceedsIff(Folder(f.disk - {k}, Without(f.table, k), f.list), order[1..], stop - 2);
    }
  }

  /** Undisturbed, a move inside one folder goes through exactly when the message still has its file; its
      body then has the new name and the next UID, and the old name, row and list entry are gone. */
  lemma MoveWithinSucceedsIff(f: Folder, m: Message, name: Key, flagged: bool, stop: nat)
    requires Inv(f) && CounterLasts(f.table) && NewName(f, name) && name !in f.table.rows && m in f.list
    requires stop >= 6
    ensures var r, uid := MovedWithin(f, m, name, flagged, stop), 1 + |f.table.log|;
            && (r.ok <==> m.key in f.disk)
            && (!r.ok ==> r.folder == f)
            && (r.ok ==>
                  && r.folder.disk == f.disk[name := f.disk[m.key]] - {m.key}
                  && r.folder.table.rows == f.table.rows[name := uid] - {m.key}
                  && forall x :: x in r.folder.list <==> x == Message(uid, name) || (x in f.list && x.uid != m.uid))
  {
    if m.key in f.disk {
      var a, uid := AppendTo(f, name, f.disk[m.key], flagged, stop), 1 + |f.table.log|;
      AppendSucceedsIff(f, name, f.disk[m.key], flagged, stop);
      StrictRemovalSucceedsIff(a.folder, [m], Later(stop));
      assert [m][1..] == [] && UidsOf([m]) == {m.uid};
      ListedBelowNext(f);
      forall x ensures x in Keep(a.folder.list, {m.uid})
                  <==> x == Message(uid, name) || (x in f.list && x.uid != m.uid) {
        KeepMembers(a.folder.list, {m.uid}, x);
      }
    }
  }

  lemma OrderFilesDiffer(order: seq<Message>, chosen: seq<Message>)
    requires SameMessages(order, chosen) && DistinctKeys(chosen)
    requires Distinct(order)
    ensures DistinctKeys(order)
  {
    forall i, j | 0 <= i < j < |order| ensures order[i].key != order[j].key {
      assert order[i] in chosen && order[j] in chosen;
    }
  }

  /** An undisturbed move goes through exactly when every chosen message still has its file: otherwise
      nothing is removed from the source. */
  lemma MoveSucceedsIff(src: Folder, dest: Folder, chosen: seq<Message>, names: seq<Key>,
                        flagged: set<Uid>, order: seq<Message>, stop: nat)
    requires Inv(src) && UidAscending(chosen) && forall m :: m in chosen ==> m in src.list
    requires |names| == |chosen| && RoomFor(dest, names) && SameMessages(order, chosen)
    requires Distinct(order)
    requires stop >= 4 * |chosen| + 2 * |order|
    ensures var m := MoveAll(src, dest, chosen, names, flagged, order, stop);
            && (m.ok <==> forall i :: 0 <= i < |chosen| ==> chosen[i].key in src.disk)
            && (!m.ok ==> m.src == src)
  {
    CopySucceedsIff(src.disk, dest, chosen, names, flagged, stop);
    var c := CopyAll(src.disk, dest, chosen, names, flagged, stop);
    if c.ok {
      ChosenFilesDiffer(src, chosen);
      OrderFilesDiffer(order, chosen);
      forall i | 0 <= i < |order| ensures order[i].key in src.disk {
        assert order[i] in chosen;
      }
      StrictRemovalSucceedsIff(src, order, c.left);
    }
  }

  // ---------- both folders stay consistent ----------

  function Appends(disk: map<Key, Body>, chosen: seq<Message>, names: seq<Key>, flagged: set<Uid>, stop: nat): seq<Event>
    requires |names| == |chosen|
    decreases |chosen|
  {
    if chosen == [] || chosen[0].key !in disk then []
    else [Append(names[0], disk[chosen[0].key], chosen[0].uid in flagged, stop)]
         + Appends(disk, chosen[1..], names[1..], flagged, Later(stop))
  }

  /** What copying does to the destination is a run of appends, cut short where one fails. */
  lemma {:induction false} CopyIsAppends(disk: map<Key, Body>, dest: Folder, chosen: seq<Message>,
                                         names: seq<Key>, flagged: set<Uid>, stop: nat)
    requires |names| == |chosen| && NamesUnused(dest, names)
    ensures exists n :: 0 <= n <= |Appends(disk, chosen, names, flagged, stop)|
              && PossibleRun(dest, Appends(disk, chosen, names, flagged, stop)[..n])
              && CopyAll(disk, dest, chosen, names, flagged, stop).dest
                 == Exec(dest, Appends(disk, chosen, names, flagged, stop)[..n])
    decreases |chosen|
  {
    var es := Appends(disk, chosen, names, flagged, stop);
    if chosen == [] || chosen[0].key !in disk {
      assert es[..0] == [];
    } else {
      var a := AppendTo(dest, names[0], disk[chosen[0].key], chosen[0].uid in flagged, stop);
      if a.uid.None? {
        assert es[..1] == [es[0]] && Exec(a.folder, []) == a.folder;
        assert Exec(dest, es[..1]) == a.folder && PossibleRun(dest, es[..1]);
      } else {
        NamesStillUnused(dest, names, disk[chosen[0].key], chosen[0].uid in flagged, stop);
        CopyIsAppends(disk, a.folder, chosen[1..], names[1..], flagged, Later(stop));
        var n :| 0 <= n <= |es[1..]| && PossibleRun(a.folder, es[1..][..n])
                 && CopyAll(disk, dest, chosen, names, flagged, stop).dest == Exec(a.folder, es[1..][..n]);
        assert es[..n + 1][1..] == es[1..][..n];
        assert PossibleRun(dest, es[..n + 1]);
      }
    }
  }

  /** A move, finished or interrupted, keeps the invariant of both folders. */
  lemma MoveKeepsInvariants(src: Folder, dest: Folder, chosen: seq<Message>, names: seq<Key>,
                            flagged: set<Uid>, order: seq<Message>, stop: nat)
    requires |names| == |chosen| && NamesUnused(dest, names) && Inv(src) && Inv(dest)
    requires CounterLasts(MoveAll(src, dest, chosen, names, flagged, order, stop).dest.table)
    ensures var m := MoveAll(src, dest, chosen, names, flagged, order, stop);
            Inv(m.src) && Inv(m.dest)
  {
    var c := CopyAll(src.disk, dest, chosen, names, flagged, stop);
    var es := Appends(src.disk, chosen, names, flagged, stop);
    CopyIsAppends(src.disk, dest, chosen, names, flagged, stop);
    var n :| 0 <= n <= |es| && PossibleRun(dest, es[..n]) && c.dest == Exec(dest, es[..n]);
    RunKeepsInv(dest, es[..n]);
    ExpungeKeepsInv(src, order, true, c.left);
  }

  // ---------- COPYUID ----------

  ghost predicate Increasing(s: seq<Uid>) {
    forall i, j :: 0 <= i < j < |s| ==> s[i] < s[j]
  }

  /** The copies: `uids[i]` is a row of the destination whose file holds the body of `chosen[i]`. */
  ghost predicate Corresponds(disk: map<Key, Body>, dest: Folder, chosen: seq<Message>, uids: seq<Uid>, names: seq<Key>) {
    && |uids| == |chosen| == |names|
    && (forall i :: 0 <= i < |chosen| ==>
          && chosen[i].key in disk
          && names[i] in dest.disk && dest.disk[names[i]] == disk[chosen[i].key]
          && names[i] in dest.table.rows && dest.table.rows[names[i]] == uids[i])
  }

  /** What a copy leaves alone: files and rows of other names. */
  lemma {:induction false} CopyLeavesOthers(disk: map<Key, Body>, dest: Folder, chosen: seq<Message>,
                                            names: seq<Key>, flagged: set<Uid>, stop: nat, k: Key)
    requires |names| == |chosen| && k !in names
    ensures var c := CopyAll(disk, dest, chosen, names, flagged, stop);
            && (k in dest.disk ==> k in c.dest.disk && c.dest.disk[k] == dest.disk[k])
            && (k in dest.table.rows ==> k in c.dest.table.rows && c.dest.table.rows[k] == dest.table.rows[k])
    decreases |chosen|
  {
    if chosen != [] && chosen[0].key in disk {
      var a := AppendTo(dest, names[0], disk[chosen[0].key], chosen[0].uid in flagged, stop);
      assert names == [names[0]] + names[1..];
      if a.uid.Some? {
        CopyLeavesOthers(disk, a.folder, chosen[1..], names[1..], flagged, Later(stop), k);
      }
    }
  }

  lemma {:induction false} CopyLogGrows(disk: map<Key, Body>, dest: Folder, chosen: seq<Message>,
                                        names: seq<Key>, flagged: set<Uid>, stop: nat)
    requires |names| == |chosen|
    ensures dest.table.log <= CopyAll(disk, dest, chosen, names, flagged, stop).dest.table.log
    decreases |chosen|
  {
    if chosen != [] && chosen[0].key in disk {
      var a := AppendTo(dest, names[0], disk[chosen[0].key], chosen[0].uid in flagged, stop);
      if a.uid.Some? {
        CopyLogGrows(disk, a.folder, chosen[1..], names[1..], flagged, Later(stop));
      }
    }
  }

  /** A copy that succeeds hands out strictly increasing UIDs, in the order of the sources. */
  lemma {:induction false} CopyUidsIncrease(disk: map<Key, Body>, dest: Folder, chosen: seq<Message>,
                                            names: seq<Key>, flagged: set<Uid>, stop: nat)
    requires |names| == |chosen| && dest.table.uidNext == 1 + |dest.table.log|
    requires CopyAll(disk, dest, chosen, names, flagged, stop).ok
    requires CounterLasts(CopyAll(disk, dest, chosen, names, flagged, stop).dest.table)
    ensures var c := CopyAll(disk, dest, chosen, names, flagged, stop);
            && |c.uids| == |chosen| && Increasing(c.uids)
            && (forall i :: 0 <= i < |c.uids| ==> c.uids[i] >= dest.table.uidNext)
    decreases |chosen|
  {
    if chosen != [] {
      var a := AppendTo(dest, names[0], disk[chosen[0].key], chosen[0].uid in flagged, stop);
      CopyLogGrows(disk, a.folder, chosen[1..], names[1..], flagged, Later(stop));
      CopyUidsIncrease(disk, a.folder, chosen[1..], names[1..], flagged, Later(stop));
    }
  }

  /** Each copy has the body of its source, and a row with the UID handed out for it. */
  lemma {:induction false} CopyCorresponds(disk: map<Key, Body>, dest: Folder, chosen: seq<Message>,
                                           names: seq<Key>, flagged: set<Uid>, stop: nat)
    requires |names| == |chosen| && NamesUnused(dest, names)
    requires CopyAll(disk, dest, chosen, names, flagged, stop).ok
    ensures var c := CopyAll(disk, dest, chosen, names, flagged, stop);
            Corresponds(disk, c.dest, chosen, c.uids, names)
    decreases |chosen|
  {
    if chosen != [] {
      var body, marked := disk[chosen[0].key], chosen[0].uid in flagged;
      var a := AppendTo(dest, names[0], body, marked, stop);
      NamesStillUnused(dest, names, body, marked, stop);
      CopyCorresponds(disk, a.folder, chosen[1..], names[1..], flagged, Later(stop));
      assert names[0] !in names[1..];
      CopyLeavesOthers(disk, a.folder, chosen[1..], names[1..], flagged, Later(stop), names[0]);
      assert forall i :: 1 <= i < |chosen| ==> chosen[i] == chosen[1..][i - 1] && names[i] == names[1..][i - 1];
    }
  }

  lemma {:induction false} SameSetSameOrder(s: seq<Uid>, t: seq<Uid>)
    requires Increasing(s) && Increasing(t) && forall u :: u in s <==> u in t
    ensures s == t
  {
    if s != [] { assert s[0] in s; }
    if t != [] { assert t[0] in t; }
    if s != [] && t != [] {
      assert s == [s[0]] + s[1..] && t == [t[0]] + t[1..];
      forall u ensures u in s[1..] <==> u in t[1..] {
        if u in s[1..] { assert u in t; }
        if u in t[1..] { assert u in s; }
      }
      SameSetSameOrder(s[1..], t[1..]);
    }
  }

  /** Reporting the two UID sets without order is enough: listed in ascending order, however they were
      collected, the i-th source UID is the message whose body the i-th destination UID now has. */
  lemma CopyUidSetsSuffice(disk: map<Key, Body>, dest: Folder, chosen: seq<Message>, names: seq<Key>,
                           flagged: set<Uid>, stop: nat, sources: seq<Uid>, copies: seq<Uid>)
    requires |names| == |chosen| && NamesUnused(dest, names) && Shaped(dest.table) && UidAscending(chosen)
    requires var c := CopyAll(disk, dest, chosen, names, flagged, stop); c.ok && CounterLasts(c.dest.table)
    requires Increasing(sources) && Increasing(copies)
    requires forall u :: u in sources <==> exists m :: m in chosen && m.uid == u
    requires forall u :: u in copies <==> u in CopyAll(disk, dest, chosen, names, flagged, stop).uids
    ensures var c := CopyAll(disk, dest, chosen, names, flagged, stop);
            && |sources| == |chosen| && (forall i :: 0 <= i < |chosen| ==> sources[i] == chosen[i].uid)
            && Corresponds(disk, c.dest, chosen, copies, names)
  {
    var c := CopyAll(disk, dest, chosen, names, flagged, stop);
    CopyLogGrows(disk, dest, chosen, names, flagged, stop);
    CopyUidsIncrease(disk, dest, chosen, names, flagged, stop);
    CopyCorresponds(disk, dest, chosen, names, flagged, stop);
    SameSetSameOrder(copies, c.uids);
    var own := seq(|chosen|, i requires 0 <= i < |chosen| => chosen[i].uid);
    forall u ensures u in sources <==> u in own {
      if u in own {
        var i :| 0 <= i < |own| && own[i] == u;
        assert chosen[i] in chosen;
      }
      if u in sources {
        var m :| m in chosen && m.uid == u;
        var i :| 0 <= i < |chosen| && chosen[i] == m;
        assert own[i] == u;
      }
    }
    SameSetSameOrder(sources, own);
  }
}
