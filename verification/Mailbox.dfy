/** The mailbox object and its index table: the methods that change them, each proved to do what the
    functions of `Folders`, `Expunging` and `Moves` say. */
module Mailboxes {
  import opened Keys
  import opened UidTable
  import opened Reload
  import opened Expunging
  import opened Folders
  import opened Moves
  import opened Sequences
  import opened Wrappers
  import Maildir

  // ---------- the rows of one mailbox ----------

  class MessageTable {
    var rows: map<Key, Uid>
    var uidNext: Uid
    ghost var log: seq<Message>

    ghost function State(): Table
      reads this
    {
      Table(rows, uidNext, log)
    }

    constructor ()
      ensures State() == NEW_TABLE
    {
      rows, uidNext, log := map[], 1, [];
    }

    /** One transaction: it assigns the next UID, or changes nothing. */
    method InsertMessage(key: Key, working: bool) returns (uid: Option<Uid>)
      modifies this
      ensures if working && CanInsert(old(State()), key)
              then uid == Some(old(uidNext)) && State() == Inserted(old(State()), key)
              else uid == None && State() == old(State())
    {
      if !working {
        return None;
      }
      var next := uidNext;
      if key in rows || next in rows.Values {
        return None;
      }
      rows := rows[key := next];
      uidNext := (next + 1) % UINT32_RANGE;
      log := log + [Message(next, key)];
      return Some(next);
    }

    method DeleteMessageByKey(key: Key)
      modifies this`rows
      ensures State() == Without(old(State()), key)
    {
      rows := rows - {key};
    }

    method DeleteMessagesNotIn(keys: seq<Key>)
      modifies this`rows
      ensures State() == Pruned(old(State()), keys)
    {
      if keys == [] {
        rows := map[];
      } else {
        rows := map k | k in rows && k in keys :: rows[k];
      }
    }

    /** Every row, ordered by UID. */
    method ListMessages() returns (msgs: seq<Message>)
      ensures UidSorted(msgs)
      ensures forall m :: m in msgs <==> m.key in rows && rows[m.key] == m.uid
    {
      msgs := [];
      var todo := rows.Keys;
      while todo != {}
        invariant todo <= rows.Keys
        invariant forall m :: m in msgs <==> m.key in rows && m.key !in todo && rows[m.key] == m.uid
      {
        var k :| k in todo;
        todo := todo - {k};
        msgs := msgs + [Message(rows[k], k)];
      }
      ghost var found := msgs;
      SortIsSorted(msgs);
      forall m ensures m in SortByUid(msgs) <==> m in msgs { SortMembers(msgs, m); }
      msgs := SortByUid(msgs);
    }

    method RowsByKey() returns (dbByKey: Index)
      ensures dbByKey == rows
    {
      var dbMsgs := ListMessages();
      dbByKey := IndexByKey(dbMsgs);
      ListedRowsAreRows(dbMsgs, rows);
    }
  }

  /** A list of messages as a map from key to UID, a later duplicate winning. */
  method IndexByKey(list: seq<Message>) returns (index: Index)
    ensures index == CacheOf(list)
  {
    index := map[];
    for i := 0 to |list|
      invariant index == CacheOf(list[..i])
    {
      assert list[..i + 1][..i] == list[..i];
      index := index[list[i].key := list[i].uid];
    }
    assert list[..|list|] == list;
  }

  lemma {:induction false} CacheHasAll(list: seq<Message>, k: Key)
    ensures k in CacheOf(list) <==> exists m :: m in list && m.key == k
  {
    if list != [] {
      var n := |list| - 1;
      CacheHasAll(list[..n], k);
      assert list == list[..n] + [list[n]];
      assert list[n] in list;
    }
  }

  /** The rows as listed are the rows. */
  lemma ListedRowsAreRows(msgs: seq<Message>, rows: Index)
    requires forall m :: m in msgs <==> m.key in rows && rows[m.key] == m.uid
    ensures CacheOf(msgs) == rows
  {
    forall k ensures k in CacheOf(msgs) <==> k in rows {
      CacheHasAll(msgs, k);
      if k in rows { assert Message(rows[k], k) in msgs; }
    }
    forall k | k in rows ensures CacheOf(msgs)[k] == rows[k] {
      CacheFromList(msgs, k);
    }
  }

  datatype Placed = Placed(table: Table, uid: Option<Uid>, budget: nat)

  function IndexOne(key: Key, cached: Index, known: Index, t: Table, budget: nat): Placed {
    if key in cached then Placed(t, Some(cached[key]), budget)
    else if key in known then Placed(t, Some(known[key]), budget)
    else if budget > 0 && CanInsert(t, key) then Placed(Inserted(t, key), Some(t.uidNext), budget - 1)
    else Placed(t, None, budget)
  }

  function Prepended(first: seq<Message>, rest: Indexed): Indexed {
    rest.(list := first + rest.list)
  }

  lemma PrependedTwice(first: seq<Message>, m: Message, rest: Indexed)
    ensures Prepended(first, Prepended([m], rest)) == Prepended(first + [m], rest)
  {
    assert first + ([m] + rest.list) == (first + [m]) + rest.list;
  }

  lemma PrependedToNothing(first: seq<Message>, t: Table, ok: bool)
    ensures Prepended(first, Indexed(t, [], ok)) == Indexed(t, first, ok)
  {
    assert first + [] == first;
  }

  /** The walk of `Reload`, one file at a time. */
  lemma IndexAllStep(keys: seq<Key>, cached: Index, known: Index, t: Table, budget: nat)
    requires keys != []
    ensures var p := IndexOne(keys[0], cached, known, t, budget);
            IndexAll(keys, cached, known, t, budget)
            == if p.uid.None? then Indexed(p.table, [], false)
               else Prepended([Message(p.uid.value, keys[0])], IndexAll(keys[1..], cached, known, p.table, p.budget))
  {
  }

  // ---------- the mailbox ----------

  /** Where a message appended with these Maildir letters ends up: unseen, or in cur/ under its flags. */
  function Filed(key: Key, flags: Option<string>): Maildir.Place {
    if flags.None? then Maildir.Place(Maildir.New, Maildir.Name(key, None))
    else Maildir.Place(Maildir.Cur, Maildir.Name(key, Some(Maildir.Normalized(flags.value, Maildir.FLAG_LETTERS))))
  }

  /** The message `key` is filed with its flags, and every other message is where it was. */
  ghost predicate FiledAs(was: map<Key, Maildir.Place>, now: map<Key, Maildir.Place>, key: Key, flags: Option<string>) {
    && key in now && now[key] == Filed(key, flags)
    && forall k :: k in was && k != key ==> k in now && now[k] == was[k]
  }

  class Mailbox {
    const md: Maildir.Directory
    const store: MessageTable
    var l: seq<Message>

    ghost predicate Valid()
      reads this, md
    {
      md.Valid()
    }

    ghost function State(): Folder
      reads this, md, store
    {
      Folder(md.files, store.State(), l)
    }

    /** A mailbox as opened, before its first reload. */
    constructor (md: Maildir.Directory, store: MessageTable)
      ensures this.md == md && this.store == store && l == []
    {
      this.md, this.store, l := md, store, [];
    }

    /** One file of the listing: its cached UID, its row's, or a new one. */
    method IndexFile(key: Key, existingByKey: Index, dbByKey: Index, left: nat) returns (uid: Option<Uid>, left': nat)
      modifies store
      ensures Placed(store.State(), uid, left') == IndexOne(key, existingByKey, dbByKey, old(store.State()), left)
    {
      if key in existingByKey {
        return Some(existingByKey[key]), left;
      }
      if key in dbByKey {
        return Some(dbByKey[key]), left;
      }
      uid := store.InsertMessage(key, left > 0);
      left' := if uid.Some? then left - 1 else left;
    }

    /** The loop of `reloadLocked` over the files on disk. */
    method IndexFiles(keys: seq<Key>, existingByKey: Index, dbByKey: Index, budget: nat)
      returns (newList: seq<Message>, ok: bool)
      modifies store
      ensures Indexed(store.State(), newList, ok)
           == IndexAll(keys, existingByKey, dbByKey, old(store.State()), budget)
    {
      newList := [];
      var left: nat := budget;
      ghost var whole := IndexAll(keys, existingByKey, dbByKey, store.State(), budget);
      for i := 0 to |keys|
        invariant whole == Prepended(newList, IndexAll(keys[i..], existingByKey, dbByKey, store.State(), left))
      {
        IndexAllStep(keys[i..], existingByKey, dbByKey, store.State(), left);
        assert keys[i..][1..] == keys[i + 1..];
        var uid;
        uid, left := IndexFile(keys[i], existingByKey, dbByKey, left);
        if uid.None? {
          PrependedToNothing(newList, store.State(), false);
          return newList, false;
        }
        PrependedTwice(newList, Message(uid.value, keys[i]),
                       IndexAll(keys[i + 1..], existingByKey, dbByKey, store.State(), left));
        newList := newList + [Message(uid.value, keys[i])];
      }
      PrependedToNothing(newList, store.State(), true);
      return newList, true;
    }

    method ReloadLocked(fault: Fault) returns (ok: bool)
      requires Valid()
      modifies this`l, store
      ensures Valid()
      ensures Indexed(store.State(), l, ok) == Reloaded(Sorted(md.files.Keys), old(store.State()), old(l), fault)
    {
      if fault.ListFails? {
        return false;
      }
      var diskKeys := md.List();
      if fault.SelectFails? {
        return false;
      }
      var dbByKey := store.RowsByKey();
      if fault.PruneFails? {
        return false;
      }
      store.DeleteMessagesNotIn(diskKeys);
      var existingByKey := IndexByKey(l);
      var newList;
      newList, ok := IndexFiles(diskKeys, existingByKey, dbByKey, Budget(fault, |diskKeys|));
      if ok {
        l := SortByUid(newList);
      }
    }

    /** The flags of a message just indexed: its flag column, then its file name; `left` is how many of these
        two operations succeed. */
    method WriteFlags(key: Key, letters: string, left: nat) returns (ok: bool)
      requires Valid() && key in md.files
      modifies md
      ensures Valid() && md.files == old(md.files)
      ensures ok <==> left >= 2
      ensures ok ==> md.places == old(md.places)[key := Filed(key, Some(letters))]
    {
      if left == 0 {
        return false;
      }
      if left == 1 {
        return false;
      }
      ok := md.SetFlags(key, letters);
    }

    /** `flags` are the Maildir letters of the flags the message comes with, if it comes with any; a message
        without is not touched again after indexing. */
    method AppendBytes(key: Key, data: Body, flags: Option<string>, stop: nat) returns (uid: Option<Uid>)
      requires Valid() && key !in md.files
      modifies this`l, md, store
      ensures Valid()
      ensures var a := AppendTo(old(State()), key, data, flags.Some?, stop);
              State() == a.folder && uid == a.uid
      ensures uid.Some? ==> FiledAs(old(md.places), md.places, key, flags)
    {
      if stop == 0 {
        return None;
      }
      md.Deliver(key, data);
      uid := store.InsertMessage(key, stop > 1);
      if uid.None? {
        return;
      }
      if flags.Some? {
        var written := WriteFlags(key, flags.value, stop - 2);
        if !written {
          return None;
        }
      }
      l := l + [Message(uid.value, key)];
    }

    /** Removes files and rows one message at a time; `left` is what remains of `stop`. */
    method RemoveMessages(order: seq<Message>, strict: bool, stop: nat) returns (ok: bool)
      requires Valid()
      modifies md, store
      ensures Valid()
      ensures Removal(State(), ok) == RemoveAll(old(State()), order, strict, stop)
    {
      var left := stop;
      ghost var whole := RemoveAll(State(), order, strict, stop);
      for i := 0 to |order|
        invariant Valid() && l == old(l)
        invariant RemoveAll(State(), order[i..], strict, left) == whole
      {
        var key := order[i].key;
        assert order[i..][0] == order[i] && order[i..][1..] == order[i + 1..];
        if left == 0 {
          return false;
        }
        ghost var before := md.files;
        var removed := md.Remove(key);
        if !removed && strict {
          assert md.files == before;
          return false;
        }
        if left == 1 {
          return false;
        }
        store.DeleteMessageByKey(key);
        left := left - 2;
      }
      return true;
    }

    /** Drops the given messages from the list, walking it from the end, and reports their sequence
        numbers in that order. */
    method ExpungeLocked(expunged: set<Uid>) returns (seqNums: seq<nat>)
      modifies this`l
      ensures l == Keep(old(l), expunged) && seqNums == SeqNums(old(l), expunged)
    {
      seqNums := [];
      var filtered: seq<Message> := [];
      var i := |l| - 1;
      assert l[..|l|] == l;
      while i >= 0
        invariant -1 <= i < |l| && l == old(l)
        invariant seqNums + SeqNums(l[..i + 1], expunged) == SeqNums(l, expunged)
        invariant Keep(l[..i + 1], expunged) + Reverse(filtered) == Keep(l, expunged)
        decreases i
      {
        var msg := l[i];
        assert l[..i + 1][..i] == l[..i] && l[..i + 1][i] == msg;
        if msg.uid in expunged {
          seqNums := seqNums + [i + 1];
        } else {
          ReverseAppend(filtered, msg);
          filtered := filtered + [msg];
        }
        i := i - 1;
      }
      assert l[..0] == [];
      filtered := ReverseInPlace(filtered);
      l := filtered;
    }

    /** Picks the messages marked deleted (within `uids`, if given), removes their files and rows in
        some order, and only then shortens the list. */
    method Expunge(uids: Option<set<Uid>>, deleted: set<Uid>, stop: nat)
      returns (seqNums: seq<nat>, ok: bool, ghost order: seq<Message>)
      requires Valid()
      modifies this`l, md, store
      ensures Valid()
      ensures forall m :: m in order <==>
                m in old(l) && m.uid in deleted && (uids.Some? ==> m.uid in uids.value)
      ensures Distinct(order)
      ensures ok <==> stop >= 2 * |order|
      ensures ok ==> md.files == old(md.files) - KeysOf(order) && store.rows == old(store.rows) - KeysOf(order)
      ensures ok ==> forall m :: m in l <==> m in old(l) && m.uid !in UidsOf(order)
      ensures !ok ==> l == old(l)
      ensures Removal(State(), ok) == Expunged(old(State()), order, false, stop)
      ensures ok ==> seqNums == SeqNums(old(l), UidsOf(order))
    {
      var expunged: set<Message> := {};
      for i := 0 to |l|
        invariant forall m :: m in expunged <==>
                    m in l[..i] && m.uid in deleted && (uids.Some? ==> m.uid in uids.value)
      {
        var msg := l[i];
        assert forall m :: m in l[..i + 1] <==> m in l[..i] || m == msg;
        if uids.Some? && msg.uid !in uids.value {
          continue;
        }
        if msg.uid in deleted {
          expunged := expunged + {msg};
        }
      }
      assert l[..|l|] == l;
      if expunged == {} {
        assert UidsOf([]) == {};
        KeepAll(l);
        ExpungeSucceedsIff(State(), [], stop);
        return [], true, [];
      }
      var listed := InSomeOrder(expunged);
      order := listed;
      ExpungeSucceedsIff(State(), order, stop);
      ok := RemoveMessages(listed, false, stop);
      seqNums := [];
      if ok {
        seqNums := ExpungeLocked(set m | m in listed :: m.uid);
      }
    }
  }

  lemma ReverseAppend<T>(s: seq<T>, t: T)
    ensures Reverse(s + [t]) == [t] + Reverse(s)
  {
  }

  /** Swaps the two ends of the list inward until they meet. */
  method ReverseInPlace<T>(s: seq<T>) returns (r: seq<T>)
    ensures r == Reverse(s)
  {
    r := s;
    var n := |s|;
    for i := 0 to n / 2
      invariant |r| == n
      invariant forall k :: 0 <= k < i ==> r[k] == s[n - 1 - k] && r[n - 1 - k] == s[k]
      invariant forall k :: i <= k < n - i ==> r[k] == s[k]
    {
      var j := n - i - 1;
      r := r[i := s[j]][j := r[i]];
    }
  }

  /** Go visits the keys of a map in an order of its own. */
  method InSomeOrder<T(==)>(s: set<T>) returns (order: seq<T>)
    ensures forall x :: x in order <==> x in s
    ensures Distinct(order)
  {
    order := [];
    var todo := s;
    while todo != {}
      invariant todo <= s
      invariant forall x :: x in order <==> x in s && x !in todo
      invariant Distinct(order)
    {
      var x :| x in todo;
      todo := todo - {x};
      order := order + [x];
    }
  }

  lemma {:induction false} KeepAll(l: seq<Message>)
    ensures Keep(l, {}) == l && SeqNums(l, {}) == []
  {
    if l != [] {
      KeepAll(l[..|l| - 1]);
      assert l == l[..|l| - 1] + [l[|l| - 1]];
    }
  }

  // ---------- between two mailboxes ----------

  /** Reads one message and appends it to the other mailbox. */
  method CopyMessage(src: Mailbox, dest: Mailbox, msg: Message, name: Key, flags: Option<string>, stop: nat)
    returns (uid: Option<Uid>, left: nat)
    requires src.Valid() && dest.Valid() && src != dest && src.md != dest.md && src.store != dest.store
    requires NewName(dest.State(), name)
    modifies dest`l, dest.md, dest.store
    ensures src.Valid() && dest.Valid() && src.State() == old(src.State())
    ensures var c := CopyOne(src.md.files, old(dest.State()), msg, name, flags.Some?, stop);
            dest.State() == c.0 && uid == c.1 && left == c.2
    ensures uid.Some? ==> FiledAs(old(dest.md.places), dest.md.places, name, flags)
  {
    var buf := src.md.Open(msg.key);
    if buf.None? {
      return None, stop;
    }
    uid := dest.AppendBytes(name, buf.value, flags, stop);
    left := if uid.None? then 0 else Later(stop);
  }

  function CopyOne(disk: map<Key, Body>, dest: Folder, msg: Message, name: Key, flagged: bool, stop: nat):
    (Folder, Option<Uid>, nat)
  {
    if msg.key !in disk then (dest, None, stop)
    else
      var a := AppendTo(dest, name, disk[msg.key], flagged, stop);
      (a.folder, a.uid, if a.uid.None? then 0 else Later(stop))
  }

  lemma CopyAllStep(disk: map<Key, Body>, dest: Folder, chosen: seq<Message>, names: seq<Key>,
                    flagged: set<Uid>, stop: nat)
    requires |names| == |chosen| && chosen != [] && NamesUnused(dest, names)
    ensures var c := CopyOne(disk, dest, chosen[0], names[0], chosen[0].uid in flagged, stop);
            && NamesUnused(c.0, names[1..])
            && CopyAll(disk, dest, chosen, names, flagged, stop)
               == if c.1.None? then Copied(c.0, [], false, c.2)
                  else WithUids([c.1.value], CopyAll(disk, c.0, chosen[1..], names[1..], flagged, c.2))
  {
    if chosen[0].key in disk {
      NamesStillUnused(dest, names, disk[chosen[0].key], chosen[0].uid in flagged, stop);
    } else {
      assert forall i :: 0 <= i < |names| - 1 ==> names[1..][i] == names[i + 1];
    }
  }

  function WithUids(first: seq<Uid>, rest: Copied): Copied {
    rest.(uids := first + rest.uids)
  }

  lemma WithUidsTwice(first: seq<Uid>, uid: Uid, rest: Copied)
    ensures WithUids(first, WithUids([uid], rest)) == WithUids(first + [uid], rest)
  {
    assert first + ([uid] + rest.uids) == (first + [uid]) + rest.uids;
  }

  /** The Maildir letters a message is copied with, if it has flags. */
  function FlagsFor(m: Message, flagged: set<Uid>, letters: Uid -> string): Option<string> {
    if m.uid in flagged then Some(letters(m.uid)) else None
  }

  /** Every copy has the flags of its original. */
  ghost predicate FlagsCarried(places: map<Key, Maildir.Place>, chosen: seq<Message>, names: seq<Key>,
                               flagged: set<Uid>, letters: Uid -> string)
    requires |names| == |chosen|
  {
    forall i :: 0 <= i < |chosen| ==>
      && names[i] in places
      && (chosen[i].uid in flagged ==> places[names[i]] == Filed(names[i], Some(letters(chosen[i].uid))))
      && (chosen[i].uid !in flagged ==> places[names[i]] == Filed(names[i], None))
  }

  lemma OneMoreCarried(places: map<Key, Maildir.Place>, places': map<Key, Maildir.Place>, chosen: seq<Message>,
                       names: seq<Key>, flagged: set<Uid>, letters: Uid -> string, i: nat)
    requires |names| == |chosen| && Distinct(names) && i < |chosen|
    requires FlagsCarried(places, chosen[..i], names[..i], flagged, letters)
    requires FiledAs(places, places', names[i], FlagsFor(chosen[i], flagged, letters))
    ensures FlagsCarried(places', chosen[..i + 1], names[..i + 1], flagged, letters)
  {
    forall j | 0 <= j < i ensures names[j] in places && places'[names[j]] == places[names[j]] {
      assert names[..i][j] == names[j];
    }
    assert forall j :: 0 <= j < i ==> chosen[..i][j] == chosen[j];
  }

  /** The copying loop of `Copy` and `Move`.  The messages in `flagged` come with flags, whose Maildir
      letters are `letters`. */
  method CopyMessages(src: Mailbox, dest: Mailbox, chosen: seq<Message>, names: seq<Key>,
                      flagged: set<Uid>, letters: Uid -> string, stop: nat)
    returns (uids: seq<Uid>, ok: bool, left: nat)
    requires |names| == |chosen| && src.Valid() && dest.Valid()
    requires src != dest && src.md != dest.md && src.store != dest.store
    requires NamesUnused(dest.State(), names)
    modifies dest`l, dest.md, dest.store
    ensures src.Valid() && dest.Valid() && src.State() == old(src.State())
    ensures Copied(dest.State(), uids, ok, left)
         == CopyAll(old(src.md.files), old(dest.State()), chosen, names, flagged, stop)
    ensures ok ==> FlagsCarried(dest.md.places, chosen, names, flagged, letters)
  {
    uids, left := [], stop;
    ghost var disk := src.md.files;
    ghost var whole := CopyAll(disk, dest.State(), chosen, names, flagged, stop);
    for i := 0 to |chosen|
      invariant src.Valid() && dest.Valid() && src.State() == old(src.State())
      invariant NamesUnused(dest.State(), names[i..])
      invariant whole == WithUids(uids, CopyAll(disk, dest.State(), chosen[i..], names[i..], flagged, left))
      invariant FlagsCarried(dest.md.places, chosen[..i], names[..i], flagged, letters)
    {
      CopyAllStep(disk, dest.State(), chosen[i..], names[i..], flagged, left);
      assert chosen[i..][1..] == chosen[i + 1..] && names[i..][1..] == names[i + 1..];
      var uid;
      var flags := FlagsFor(chosen[i], flagged, letters);
      ghost var places := dest.md.places;
      uid, left := CopyMessage(src, dest, chosen[i], names[i], flags, left);
      if uid.None? {
        return uids, false, left;
      }
      OneMoreCarried(places, dest.md.places, chosen, names, flagged, letters, i);
      WithUidsTwice(uids, uid.value, CopyAll(disk, dest.State(), chosen[i + 1..], names[i + 1..], flagged, left));
      uids := uids + [uid.value];
    }
    assert chosen[..|chosen|] == chosen && names[..|chosen|] == names;
    return uids, true, left;
  }

  datatype CopyData = CopyData(sourceUids: set<Uid>, destUids: set<Uid>)

  /** `Move`: copy everything, then remove the originals in some order, then shorten the source list.
      Moving to the mailbox the messages are in is refused.  `names` are what `uniqueName` returns. */
  method Move(src: Mailbox, dest: Mailbox, picked: set<Uid>, names: seq<Key>,
              flagged: set<Uid>, letters: Uid -> string, stop: nat)
    returns (data: Option<CopyData>, seqNums: seq<nat>, ghost order: seq<Message>)
    requires src.Valid() && dest.Valid() && (src != dest ==> src.md != dest.md && src.store != dest.store)
    requires |names| == |Chosen(src.l, picked)| && NamesUnused(dest.State(), names)
    modifies src`l, src.md, src.store, dest`l, dest.md, dest.store
    ensures src.Valid() && dest.Valid()
    ensures src == dest ==> data == None && src.State() == old(src.State())
    ensures src != dest ==>
              var chosen := Chosen(old(src.l), picked);
              var m := MoveAll(old(src.State()), old(dest.State()), chosen, names, flagged, order, stop);
              && (forall x :: x in order <==> x in chosen)
              && Distinct(order)
              && src.State() == m.src && dest.State() == m.dest
              && (data.Some? <==> m.ok)
              && (m.ok ==> seqNums == SeqNums(old(src.l), UidsOf(order))
                           && data.value == CopyData(UidsOf(chosen), set u | u in m.uids)
                           && FlagsCarried(dest.md.places, chosen, names, flagged, letters))
  {
    seqNums, order := [], [];
    if src == dest {
      return None, seqNums, order;
    }
    var chosen := Chosen(src.l, picked);
    var listed := InSomeOrder(set m | m in chosen);
    order := listed;
    var uids, copied, left := CopyMessages(src, dest, chosen, names, flagged, letters, stop);
    if !copied {
      return None, seqNums, order;
    }
    var removed := src.RemoveMessages(listed, true, left);
    if !removed {
      return None, seqNums, order;
    }
    seqNums := src.ExpungeLocked(set m | m in listed :: m.uid);
    return Some(CopyData(set m | m in chosen :: m.uid, set u | u in uids)), seqNums, order;
  }

  /** `moveTo` between two folders: the message is read, appended over there, then removed here. */
  method MoveAcross(src: Mailbox, dest: Mailbox, msg: Message, name: Key, flags: Option<string>, stop: nat)
    returns (ok: bool)
    requires src.Valid() && dest.Valid() && src != dest && src.md != dest.md && src.store != dest.store
    requires NewName(dest.State(), name)
    modifies src`l, src.md, src.store, dest`l, dest.md, dest.store
    ensures src.Valid() && dest.Valid()
    ensures var c := CopyOne(old(src.md.files), old(dest.State()), msg, name, flags.Some?, stop);
            && dest.State() == c.0
            && Removal(src.State(), ok)
               == if c.1.None? then Removal(old(src.State()), false) else Expunged(old(src.State()), [msg], true, c.2)
    ensures ok ==> FiledAs(old(dest.md.places), dest.md.places, name, flags)
  {
    var copy, left := CopyMessage(src, dest, msg, name, flags, stop);
    if copy.None? {
      return false;
    }
    ok := src.RemoveMessages([msg], true, left);
    if ok {
      assert UidsOf([msg]) == {msg.uid};
      var seqNums := src.ExpungeLocked({msg.uid});
    }
  }

  /** The same steps when the destination is the folder the message is in. */
  method MoveInside(mbox: Mailbox, msg: Message, name: Key, flags: Option<string>, stop: nat)
    returns (ok: bool)
    requires mbox.Valid() && NewName(mbox.State(), name)
    modifies mbox`l, mbox.md, mbox.store
    ensures mbox.Valid()
    ensures Removal(mbox.State(), ok) == MovedWithin(old(mbox.State()), msg, name, flags.Some?, stop)
  {
    ghost var f := mbox.State();
    var buf := mbox.md.Open(msg.key);
    if buf.None? {
      return false;
    }
    var copy := mbox.AppendBytes(name, buf.value, flags, stop);
    ghost var g := mbox.State();
    assert Appended(g, copy) == AppendTo(f, name, buf.value, flags.Some?, stop);
    if copy.None? {
      return false;
    }
    ok := mbox.RemoveMessages([msg], true, Later(stop));
    assert Removal(mbox.State(), ok) == RemoveAll(g, [msg], true, Later(stop));
    if ok {
      assert UidsOf([msg]) == {msg.uid};
      var seqNums := mbox.ExpungeLocked({msg.uid});
    }
  }

  /** Moving one message across is the general move of one. */
  lemma OneMessageMove(src: Folder, dest: Folder, msg: Message, name: Key, flagged: bool, stop: nat)
    requires NewName(dest, name)
    ensures var c := CopyOne(src.disk, dest, msg, name, flagged, stop);
            var r := if c.1.None? then Removal(src, false) else Expunged(src, [msg], true, c.2);
            var m := MoveAll(src, dest, [msg], [name], if flagged then {msg.uid} else {}, [msg], stop);
            m.src == r.folder && m.dest == c.0 && m.ok == r.ok
  {
    var marked := if flagged then {msg.uid} else {};
    CopyAllStep(src.disk, dest, [msg], [name], marked, stop);
    assert [msg][1..] == [] && [name][1..] == [];
  }

  method FindByUid(l: seq<Message>, uid: Uid) returns (found: Option<Message>)
    ensures found.Some? ==> found.value in l && found.value.uid == uid
    ensures found.None? ==> forall m :: m in l ==> m.uid != uid
  {
    for i := 0 to |l|
      invariant forall j :: 0 <= j < i ==> l[j].uid != uid
    {
      if l[i].uid == uid {
        return Some(l[i]);
      }
    }
    return None;
  }
}
