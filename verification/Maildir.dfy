/** A Maildir on disk: the file names in new/ and cur/, the flag suffix in a name, and the operations
    that look a message up by key.

    Everything above this module sees a directory as a map from key to body.  `Contents` is that map,
    and the lemmas say that each operation does to it what the rest of the model takes it to do. */
module Maildir {
  import opened Keys
  import opened Sequences
  import opened Wrappers

  // ---------- names ----------

  const FLAG_MARK := ":2,"
  const FLAG_LETTERS := "DFRST"

  /** Where the flag suffix starts: the first ":2,", or the end of the name. */
  function MarkIndex(name: string): (i: nat)
    ensures i <= |name|
    ensures i < |name| ==> i + 3 <= |name|
  {
    if |name| < 3 then |name| else if name[..3] == FLAG_MARK then 0 else 1 + MarkIndex(name[1..])
  }

  /** `splitFlags`. */
  function KeyOf(name: string): Key {
    name[..MarkIndex(name)]
  }

  function FlagsOf(name: string): string {
    var i := MarkIndex(name);
    if i == |name| then "" else name[i + 3..]
  }

  predicate Unmarked(key: Key) {
    MarkIndex(key) == |key|
  }

  lemma {:induction false} MarkAfterKey(key: Key, flags: string)
    requires Unmarked(key)
    ensures MarkIndex(key + (FLAG_MARK + flags)) == |key|
  {
    var name := key + (FLAG_MARK + flags);
    if key == "" {
      assert name[..3] == FLAG_MARK;
    } else {
      assert name[1..] == key[1..] + (FLAG_MARK + flags);
      if |key| >= 3 {
        assert name[..3] == key[..3];
      } else {
        assert name[|key|] == ':' && name[|key| + 1] == '2';
        assert name[..3][|key|] == ':';
      }
      MarkAfterKey(key[1..], flags);
    }
  }

  /** Joining a key and flags and splitting the name again gives both back. */
  lemma SplitJoined(key: Key, flags: string)
    requires Unmarked(key)
    ensures KeyOf(key + (FLAG_MARK + flags)) == key && FlagsOf(key + (FLAG_MARK + flags)) == flags
  {
    MarkAfterKey(key, flags);
  }

  /** A key has no flag suffix of its own. */
  lemma {:induction false} KeyIsUnmarked(name: string)
    ensures Unmarked(KeyOf(name))
  {
    if |name| >= 3 && name[..3] != FLAG_MARK {
      KeyIsUnmarked(name[1..]);
      var k := KeyOf(name);
      assert k[1..] == KeyOf(name[1..]);
      if |k| >= 3 { assert k[..3] == name[..3]; }
    }
  }

  /** The letters of `from` that occur in `flags`, in the order of `from`. */
  function Normalized(flags: string, from: string): string {
    if from == "" then ""
    else if from[0] in flags then [from[0]] + Normalized(flags, from[1..])
    else Normalized(flags, from[1..])
  }

  /** The written suffix holds exactly the known letters that were asked for. */
  lemma {:induction false} NormalizedLetters(flags: string, from: string, c: char)
    ensures c in Normalized(flags, from) <==> c in from && c in flags
  {
    if from != "" {
      NormalizedLetters(flags, from[1..], c);
      assert from == [from[0]] + from[1..];
    }
  }

  /** The standard's letters, each at most once and in ASCII order, and no other: this fixes the suffix. */
  lemma SuffixIsStandard(flags: string)
    ensures var suffix := Normalized(flags, FLAG_LETTERS);
            && (forall c :: c in suffix <==> c in flags && c in {'D', 'F', 'R', 'S', 'T'})
            && (forall i, j :: 0 <= i < j < |suffix| ==> suffix[i] < suffix[j])
  {
    forall c ensures c in Normalized(flags, FLAG_LETTERS) <==> c in flags && c in {'D', 'F', 'R', 'S', 'T'} {
      NormalizedLetters(flags, FLAG_LETTERS, c);
    }
    NormalizedAscends(flags, FLAG_LETTERS);
  }

  lemma {:induction false} NormalizedAscends(flags: string, from: string)
    requires forall i, j :: 0 <= i < j < |from| ==> from[i] < from[j]
    ensures var s := Normalized(flags, from); forall i, j :: 0 <= i < j < |s| ==> s[i] < s[j]
  {
    if from != "" {
      var rest := Normalized(flags, from[1..]);
      NormalizedAscends(flags, from[1..]);
      forall i | 0 <= i < |rest| ensures from[0] < rest[i] {
        NormalizedLetters(flags, from[1..], rest[i]);
        assert rest[i] in from[1..];
      }
    }
  }

  /** ":2," stands at `j`. */
  predicate MarkAt(name: string, j: nat) {
    j + 2 < |name| && name[j] == ':' && name[j + 1] == '2' && name[j + 2] == ','
  }

  /** A name is cut at its first ":2,", or nowhere. */
  lemma {:induction false} CutAtFirstMark(name: string)
    ensures KeyOf(name) <= name && forall j: nat :: j < |KeyOf(name)| ==> !MarkAt(name, j)
    ensures if KeyOf(name) == name then FlagsOf(name) == ""
            else MarkAt(name, |KeyOf(name)|) && name[|KeyOf(name)| + 3..] == FlagsOf(name)
  {
    if |name| >= 3 && name[..3] != FLAG_MARK {
      CutAtFirstMark(name[1..]);
      forall j: nat | j < |KeyOf(name)| ensures !MarkAt(name, j) {
        assert name[..3] == [name[0], name[1], name[2]];
        if j > 0 { assert !MarkAt(name[1..], j - 1); }
      }
    }
  }

  /** A file name, read: its key and, if it has a suffix, its flags. */
  datatype Name = Name(key: Key, flags: Option<string>) {
    function Text(): string {
      if flags.Some? then key + (FLAG_MARK + flags.value) else key
    }
  }

  function Parse(text: string): Name {
    Name(KeyOf(text), if MarkIndex(text) < |text| then Some(FlagsOf(text)) else None)
  }

  lemma {:induction false} MarkFound(text: string)
    requires MarkIndex(text) < |text|
    ensures text[MarkIndex(text)..MarkIndex(text) + 3] == FLAG_MARK
  {
    if text[..3] != FLAG_MARK {
      MarkFound(text[1..]);
    }
  }

  /** Reading a name loses nothing: it can be written again exactly, its key has no suffix of its own,
      and a name made of an unmarked key is read back as it was made. */
  lemma NamesRoundTrip(text: string, name: Name)
    ensures Parse(text).Text() == text && Unmarked(Parse(text).key)
    ensures Unmarked(name.key) ==> Parse(name.Text()) == name
  {
    KeyIsUnmarked(text);
    var i := MarkIndex(text);
    if i < |text| {
      MarkFound(text);
      assert text == text[..i] + (text[i..i + 3] + text[i + 3..]);
    }
    if Unmarked(name.key) && name.flags.Some? {
      SplitJoined(name.key, name.flags.value);
      MarkAfterKey(name.key, name.flags.value);
    }
  }

  // ---------- the directory as a map from key to body ----------

  datatype SubDir = New | Cur

  datatype Place = Place(dir: SubDir, name: Name)

  /** The files of new/ and cur/. */
  type Entries = map<Place, Body>

  /** No key names two files. */
  ghost predicate OnePerKey(d: Entries) {
    forall p, q :: p in d && q in d && p.name.key == q.name.key ==> p == q
  }

  /** `w` says for every key where its one file is, and leaves no file out. */
  ghost predicate Locates(w: map<Key, Place>, d: Entries) {
    && (forall k :: k in w ==> w[k] in d && w[k].name.key == k)
    && (forall p :: p in d ==> p.name.key in w && w[p.name.key] == p)
  }

  /** The directory as the rest of the model sees it. */
  ghost function FilesOf(w: map<Key, Place>, d: Entries): map<Key, Body>
    requires Locates(w, d)
  {
    map k | k in w :: d[w[k]]
  }

  lemma {:induction false} OneFilePerKey(d: Entries) returns (w: map<Key, Place>)
    requires OnePerKey(d)
    ensures Locates(w, d)
    decreases |d|
  {
    if d == map[] {
      w := map[];
    } else {
      var p :| p in d;
      var rest := d - {p};
      assert forall q :: q in rest ==> q in d;
      w := OneFilePerKey(rest);
      assert p.name.key !in w;
      w := w[p.name.key := p];
    }
  }

  // ---------- the operations ----------

  function Delivered(d: Entries, key: Key, b: Body): Entries {
    d[Place(New, Name(key, None)) := b]
  }

  function Unlinked(d: Entries, p: Place): Entries {
    d - {p}
  }

  /** The file at `p` under a new name in cur/. */
  function Renamed(d: Entries, p: Place, newName: Name): Entries
    requires p in d
  {
    (d - {p})[Place(Cur, newName) := d[p]]
  }

  /** Delivering under a new key adds that key and nothing else. */
  lemma DeliverAdds(w: map<Key, Place>, d: Entries, key: Key, b: Body)
    requires Locates(w, d) && key !in w
    ensures var w' := w[key := Place(New, Name(key, None))];
            Locates(w', Delivered(d, key, b)) && FilesOf(w', Delivered(d, key, b)) == FilesOf(w, d)[key := b]
  {
  }

  /** Removing takes exactly the one key away. */
  lemma UnlinkTakesOne(w: map<Key, Place>, d: Entries, key: Key)
    requires Locates(w, d) && key in w
    ensures Locates(w - {key}, Unlinked(d, w[key]))
    ensures FilesOf(w - {key}, Unlinked(d, w[key])) == FilesOf(w, d) - {key}
  {
  }

  /** Renaming within a key leaves every key with its body. */
  lemma RenameKeepsContents(w: map<Key, Place>, d: Entries, newName: Name)
    requires Locates(w, d) && newName.key in w
    ensures var w', d' := w[newName.key := Place(Cur, newName)], Renamed(d, w[newName.key], newName);
            Locates(w', d') && FilesOf(w', d') == FilesOf(w, d)
  {
  }

  /** When two files share a key, removing the message leaves it there: no file of the key is left
      exactly when the file removed was the only one. */
  lemma RemovedIsGoneIff(d: Entries, p: Place)
    requires p in d
    ensures (forall q :: q in Unlinked(d, p) ==> q.name.key != p.name.key)
       <==> (forall q :: q in d && q.name.key == p.name.key ==> q == p)
  {
    assert forall q :: q in Unlinked(d, p) <==> q in d && q != p;
  }

  // ---------- listing ----------

  function InsertKey(keys: seq<Key>, k: Key): seq<Key> {
    if keys == [] || !Less(keys[0], k) then [k] + keys else [keys[0]] + InsertKey(keys[1..], k)
  }

  /** `sort.Slice` by key. */
  function SortKeys(keys: seq<Key>): seq<Key> {
    if keys == [] then [] else InsertKey(SortKeys(keys[1..]), keys[0])
  }

  lemma {:induction false} InsertKeyMembers(keys: seq<Key>, k: Key, x: Key)
    ensures x in InsertKey(keys, k) <==> x in keys || x == k
  {
    if keys != [] && Less(keys[0], k) {
      InsertKeyMembers(keys[1..], k, x);
      assert keys == [keys[0]] + keys[1..];
    }
  }

  lemma {:induction false} InsertKeyAscending(keys: seq<Key>, k: Key)
    requires Ascending(keys) && k !in keys
    ensures Ascending(InsertKey(keys, k))
  {
    if keys == [] {
    } else if Less(keys[0], k) {
      var rest := InsertKey(keys[1..], k);
      InsertKeyAscending(keys[1..], k);
      forall i | 0 <= i < |rest| ensures Less(keys[0], rest[i]) {
        InsertKeyMembers(keys[1..], k, rest[i]);
      }
    } else {
      LessTotal(keys[0], k);
      forall i | 1 <= i < |keys| ensures Less(k, keys[i]) {
        LessTransitive(k, keys[0], keys[i]);
      }
    }
  }

  lemma {:induction false} SortKeysSorts(keys: seq<Key>)
    requires Distinct(keys)
    ensures Ascending(SortKeys(keys)) && forall x :: x in SortKeys(keys) <==> x in keys
  {
    if keys != [] {
      assert forall i :: 0 <= i < |keys| - 1 ==> keys[1..][i] == keys[i + 1];
      SortKeysSorts(keys[1..]);
      InsertKeyAscending(SortKeys(keys[1..]), keys[0]);
      forall x ensures x in SortKeys(keys) <==> x in keys {
        InsertKeyMembers(SortKeys(keys[1..]), keys[0], x);
        assert keys == [keys[0]] + keys[1..];
      }
    }
  }

  lemma {:induction false} AscendingUnique(a: seq<Key>, b: seq<Key>)
    requires Ascending(a) && Ascending(b) && forall k :: k in a <==> k in b
    ensures a == b
  {
    if a != [] { assert a[0] in a; }
    if b != [] { assert b[0] in b; }
    if a != [] && b != [] {
      LessTotal(a[0], b[0]);
      assert a == [a[0]] + a[1..] && b == [b[0]] + b[1..];
      LessTotal(a[0], a[0]);
      forall k ensures k in a[1..] <==> k in b[1..] {
        if k in a[1..] { assert k in b; LessTotal(a[0], k); }
        if k in b[1..] { assert k in a; LessTotal(b[0], k); }
      }
      AscendingUnique(a[1..], b[1..]);
    }
  }

  // ---------- the directory itself ----------

  /** `places` and `files` say, for the proofs, where each key is and what the directory holds. */
  class Directory {
    var entries: Entries
    ghost var places: map<Key, Place>
    ghost var files: map<Key, Body>

    ghost predicate Valid()
      reads this
    {
      Locates(places, entries) && files == FilesOf(places, entries)
    }

    constructor ()
      ensures Valid() && files == map[]
    {
      entries, places, files := map[], map[], map[];
    }

    /** `find`: every entry of new/, then every entry of cur/, in whatever order each is read. */
    method Locate(key: Key) returns (place: Option<Place>)
      requires Valid()
      ensures place == if key in files then Some(places[key]) else None
    {
      var todo := set p | p in entries && p.dir == New;
      var rest := set p | p in entries && p.dir == Cur;
      while todo != {} || rest != {}
        invariant todo <= entries.Keys && rest <= entries.Keys
        invariant forall p :: p in entries && p !in todo && p !in rest ==> p.name.key != key
        decreases |todo| + |rest|
      {
        if todo == {} {
          todo, rest := rest, {};
        }
        var p :| p in todo;
        if p.name.key == key {
          return Some(p);
        }
        todo := todo - {p};
      }
      return None;
    }

    method Open(key: Key) returns (data: Option<Body>)
      requires Valid()
      ensures data == if key in files then Some(files[key]) else None
    {
      var place := Locate(key);
      return if place.Some? then Some(entries[place.value]) else None;
    }

    /** The rename that makes a complete file visible; `key` comes from `uniqueName`. */
    method Deliver(key: Key, data: Body)
      requires Valid() && key !in files
      modifies this
      ensures Valid() && files == old(files)[key := data]
      ensures places == old(places)[key := Place(New, Name(key, None))]
    {
      DeliverAdds(places, entries, key, data);
      entries := entries[Place(New, Name(key, None)) := data];
      places := places[key := Place(New, Name(key, None))];
      files := files[key := data];
    }

    method SetFlags(key: Key, flags: string) returns (ok: bool)
      requires Valid()
      modifies this`entries, this`places
      ensures Valid() && (ok <==> key in files)
      ensures ok ==> places == old(places)[key := Place(Cur, Name(key, Some(Normalized(flags, FLAG_LETTERS))))]
      ensures !ok ==> places == old(places)
    {
      var place := Locate(key);
      if place.None? {
        return false;
      }
      var newName := Name(key, Some(Normalized(flags, FLAG_LETTERS)));
      RenameKeepsContents(places, entries, newName);
      entries := (entries - {place.value})[Place(Cur, newName) := entries[place.value]];
      places := places[key := Place(Cur, newName)];
      return true;
    }

    method Remove(key: Key) returns (ok: bool)
      requires Valid()
      modifies this
      ensures Valid() && files == old(files) - {key} && places == old(places) - {key}
      ensures ok <==> key in old(files)
    {
      var place := Locate(key);
      if place.None? {
        assert files - {key} == files && places - {key} == places;
        return false;
      }
      UnlinkTakesOne(places, entries, key);
      entries := entries - {place.value};
      places := places - {key};
      files := files - {key};
      return true;
    }

    method List() returns (keys: seq<Key>)
      requires Valid()
      ensures keys == Sorted(files.Keys)
    {
      keys := [];
      var todo := entries.Keys;
      while todo != {}
        invariant todo <= entries.Keys && Distinct(keys)
        invariant forall k :: k in keys <==> k in files && places[k] !in todo
      {
        var p :| p in todo;
        assert p.name.key !in keys;
        todo := todo - {p};
        keys := keys + [p.name.key];
      }
      SortKeysSorts(keys);
      AscendingUnique(SortKeys(keys), Sorted(files.Keys));
      keys := SortKeys(keys);
    }
  }
}
