/** Sequence and UID sets, "*" and "$", and SEARCH criteria.

    The code replaces "*" and "$" by numbers before it visits a message.  Here that replacement is
    compared with reading the set as the client wrote it.  The IMAP library keeps a set as ascending,
    disjoint ranges with "*" in the last one only, and looks a number up by binary search; the
    replacement happens in place and may leave the ranges out of order. */
module NumSets {
  import opened UidTable
  import opened Reload

  /** 0 stands for "*". */
  datatype Range = Range(start: nat, stop: nat)

  datatype NumSet = SeqSet(ranges: seq<Range>) | UidSet(ranges: seq<Range>) | SearchRes

  /** What a session sees: the list, and the UIDs its last SEARCH saved. */
  datatype View = View(list: seq<Message>, saved: seq<Range>)

  // ---------- one range ----------

  /** `staticNumRange`. */
  function Resolve(r: Range, max: nat): Range {
    var start := if r.start == 0 then max else r.start;
    var stop := if r.stop == 0 then max else r.stop;
    if (r.start == 0 || r.stop == 0) && start > stop then Range(stop, start) else Range(start, stop)
  }

  predicate Contains(r: Range, n: nat) {
    r.start <= n <= r.stop
  }

  /** The range as written: both ends count, whichever comes first, "*" being the largest number in
      use. */
  predicate Reads(r: Range, max: nat, n: nat) {
    var a := if r.start == 0 then max else r.start;
    var b := if r.stop == 0 then max else r.stop;
    a <= n <= b || b <= n <= a
  }

  /** A range without "*" whose ends are in the wrong order. */
  predicate Reversed(r: Range) {
    r.start > r.stop > 0
  }

  /** Resolving a range preserves its meaning exactly when it is not a reversed fixed range. */
  lemma ResolveMeansReadsIff(r: Range, max: nat)
    ensures (forall n: nat :: Contains(Resolve(r, max), n) <==> Reads(r, max, n)) <==> !Reversed(r)
  {
    if Reversed(r) {
      assert Reads(r, max, r.stop) && !Contains(Resolve(r, max), r.stop);
    }
  }

  /** A resolved range stays as it is when resolved again against any later mailbox, exactly when the
      mailbox it was first resolved against was not empty or there was nothing to resolve. */
  lemma ResolveOnceIff(r: Range, max: nat)
    ensures (forall later: nat :: Resolve(Resolve(r, max), later) == Resolve(r, max))
       <==> (max > 0 || (r.start > 0 && r.stop > 0))
  {
    if max == 0 && (r.start == 0 || r.stop == 0) {
      assert Resolve(Resolve(r, max), 1 + r.start + r.stop) != Resolve(r, max);
    }
  }

  function ResolveAll(rs: seq<Range>, max: nat): (out: seq<Range>)
    ensures |out| == |rs|
  {
    seq(|rs|, i requires 0 <= i < |rs| => Resolve(rs[i], max))
  }

  /** The loop of `staticNumSet`, which writes in place into the caller's set. */
  method StaticRanges(rs: array<Range>, max: nat)
    modifies rs
    ensures rs[..] == ResolveAll(old(rs[..]), max)
  {
    for i := 0 to rs.Length
      invariant forall j :: 0 <= j < i ==> rs[j] == Resolve(old(rs[j]), max)
      invariant forall j :: i <= j < rs.Length ==> rs[j] == old(rs[j])
    {
      var start, stop := rs[i].start, rs[i].stop;
      var dyn := false;
      if start == 0 {
        start, dyn := max, true;
      }
      if stop == 0 {
        stop, dyn := max, true;
      }
      if dyn && start > stop {
        start, stop := stop, start;
      }
      rs[i] := Range(start, stop);
    }
  }

  // ---------- sets ----------

  /** The binary search for the first range that does not end below `n`. */
  function Position(rs: seq<Range>, n: nat, lo: nat, hi: nat): (i: nat)
    requires lo <= hi < |rs|
    ensures lo <= i <= hi
    decreases hi - lo
  {
    if lo == hi then lo
    else
      var mid := (lo + hi) / 2;
      if rs[mid].stop < n then Position(rs, n, mid + 1, hi) else Position(rs, n, lo, mid)
  }

  /** The library's membership test, for sets without "*". */
  predicate Has(rs: seq<Range>, n: nat) {
    rs != [] && Contains(rs[Position(rs, n, 0, |rs| - 1)], n)
  }

  predicate InRanges(rs: seq<Range>, n: nat) {
    exists i :: 0 <= i < |rs| && Contains(rs[i], n)
  }

  predicate ReadsRanges(rs: seq<Range>, max: nat, n: nat) {
    exists i :: 0 <= i < |rs| && Reads(rs[i], max, n)
  }

  /** The ranges before `f` end below `n`, the others do not. */
  predicate TurnsAt(rs: seq<Range>, n: nat, f: nat) {
    && f <= |rs|
    && (forall i :: 0 <= i < f ==> rs[i].stop < n)
    && (forall i :: f <= i < |rs| ==> rs[i].stop >= n)
  }

  lemma {:induction false} PositionIsTurn(rs: seq<Range>, n: nat, lo: nat, hi: nat, f: nat)
    requires lo <= hi < |rs| && TurnsAt(rs, n, f) && lo <= f
    ensures Position(rs, n, lo, hi) == if f <= hi then f else hi
    decreases hi - lo
  {
    if lo < hi {
      var mid := (lo + hi) / 2;
      if rs[mid].stop < n {
        PositionIsTurn(rs, n, mid + 1, hi, f);
      } else {
        PositionIsTurn(rs, n, lo, mid, f);
      }
    }
  }

  /** Ranges whose ends never fall below `n` again turn somewhere. */
  lemma {:induction false} TurnExists(rs: seq<Range>, n: nat) returns (f: nat)
    requires forall i, j :: 0 <= i < j < |rs| && rs[i].stop >= n ==> rs[j].stop >= n
    ensures TurnsAt(rs, n, f)
  {
    f := 0;
    while f < |rs| && rs[f].stop < n
      invariant f <= |rs| && forall i :: 0 <= i < f ==> rs[i].stop < n
    {
      f := f + 1;
    }
  }

  /** A set without "*", as the library keeps it. */
  predicate Tidy(rs: seq<Range>) {
    && (forall i :: 0 <= i < |rs| ==> 0 < rs[i].start <= rs[i].stop)
    && (forall i, j :: 0 <= i < j < |rs| ==> rs[i].stop < rs[j].start)
  }

  /** In a tidy set the search finds every member. */
  lemma TidyHasItsMembers(rs: seq<Range>, n: nat)
    requires Tidy(rs)
    ensures Has(rs, n) <==> InRanges(rs, n)
  {
    if rs != [] {
      var f := TurnExists(rs, n);
      PositionIsTurn(rs, n, 0, |rs| - 1, f);
    }
  }

  /** A set as parsed: tidy, but for "*" or "n:*" as the last range. */
  predicate AsParsed(rs: seq<Range>) {
    && (forall i :: 0 <= i < |rs| && rs[i].stop > 0 ==> 0 < rs[i].start <= rs[i].stop)
    && (forall i :: 0 <= i < |rs| - 1 ==> rs[i].stop > 0)
    && (forall i, j :: 0 <= i < j < |rs| && rs[j].start > 0 ==> rs[i].stop < rs[j].start)
  }

  /** The first range that reaches `max` starts above it, and "*" comes after. */
  predicate Overshadowed(rs: seq<Range>, max: nat) {
    && rs != [] && rs[|rs| - 1].stop == 0
    && exists j :: 0 <= j < |rs| - 1 && rs[j].start > max && forall i :: 0 <= i < j ==> rs[i].stop < max
  }

  /** A parsed set and its ranges once "*" is replaced. */
  predicate Replaced(rs: seq<Range>, max: nat, t: seq<Range>) {
    && AsParsed(rs) && |t| == |rs|
    && (forall i :: 0 <= i < |rs| && rs[i].stop > 0 ==> t[i] == rs[i])
    && (rs != [] && rs[|rs| - 1].stop == 0 ==>
          && t[|t| - 1].stop >= max
          && t[|t| - 1].start == if 0 < rs[|rs| - 1].start <= max then rs[|rs| - 1].start else max)
  }

  lemma ResolvedIsReplaced(rs: seq<Range>, max: nat)
    requires AsParsed(rs)
    ensures Replaced(rs, max, ResolveAll(rs, max))
  {
  }

  lemma ReplacedTurns(rs: seq<Range>, max: nat, t: seq<Range>, n: nat) returns (f: nat)
    requires Replaced(rs, max, t) && n <= max
    ensures TurnsAt(t, n, f)
  {
    f := TurnExists(t, n);
  }

  lemma FoundIsNotHidden(rs: seq<Range>, max: nat, t: seq<Range>)
    requires Replaced(rs, max, t) && Overshadowed(rs, max)
    ensures !Has(t, max)
  {
    var j :| 0 <= j < |rs| - 1 && rs[j].start > max && forall i :: 0 <= i < j ==> rs[i].stop < max;
    assert t[j] == rs[j];
    HiddenTurn(rs, max, t, j);
    PositionIsTurn(t, max, 0, |t| - 1, j);
  }

  lemma HiddenTurn(rs: seq<Range>, max: nat, t: seq<Range>, j: nat)
    requires Replaced(rs, max, t) && j < |rs| - 1 && rs[|rs| - 1].stop == 0
    requires rs[j].start > max && forall i :: 0 <= i < j ==> rs[i].stop < max
    ensures TurnsAt(t, max, j)
  {
    forall i | 0 <= i < j ensures t[i].stop < max {
      assert t[i] == rs[i];
    }
    forall i | j <= i < |t| ensures t[i].stop >= max {
      if i < |t| - 1 {
        assert t[i] == rs[i] && rs[j].start <= rs[i].start;
      }
    }
  }

  /** Only "*" can be reached before its turn, and only by the largest number. */
  lemma ReachedBeforeItsTurn(rs: seq<Range>, max: nat, t: seq<Range>, n: nat, k: nat, i: nat)
    requires Replaced(rs, max, t) && n <= max && k < i < |rs|
    requires Contains(t[i], n) && t[k].stop >= n
    ensures i == |rs| - 1 && rs[i].stop == 0 && n == max && t[k] == rs[k]
  {
  }

  lemma NotBeyond(rs: seq<Range>, max: nat, t: seq<Range>, k: nat)
    requires Replaced(rs, max, t) && rs != [] && rs[|rs| - 1].stop == 0 && !Overshadowed(rs, max)
    requires k < |rs| - 1 && forall i :: 0 <= i < k ==> t[i].stop < max
    ensures rs[k].start <= max
  {
    assert forall i :: 0 <= i < k ==> t[i] == rs[i];
  }

  lemma ContainedIsFound(rs: seq<Range>, max: nat, t: seq<Range>, n: nat, i: nat)
    requires Replaced(rs, max, t) && n <= max && i < |t| && Contains(t[i], n)
    requires !(n == max && Overshadowed(rs, max))
    ensures Has(t, n)
  {
    var f := ReplacedTurns(rs, max, t, n);
    PositionIsTurn(t, n, 0, |t| - 1, f);
    if f < i {
      ReachedBeforeItsTurn(rs, max, t, n, f, i);
      NotBeyond(rs, max, t, f);
    }
  }

  lemma FoundIsMeant(rs: seq<Range>, max: nat, n: nat)
    requires AsParsed(rs) && n <= max && Has(ResolveAll(rs, max), n)
    ensures ReadsRanges(rs, max, n) && !(n == max && Overshadowed(rs, max))
  {
    var t := ResolveAll(rs, max);
    assert InRanges(t, n);
    ResolvedRangesRead(rs, max, n);
    ResolvedIsReplaced(rs, max);
    if n == max && Overshadowed(rs, max) {
      FoundIsNotHidden(rs, max, t);
    }
  }

  lemma MeantIsFound(rs: seq<Range>, max: nat, n: nat)
    requires AsParsed(rs) && n <= max && ReadsRanges(rs, max, n) && !(n == max && Overshadowed(rs, max))
    ensures Has(ResolveAll(rs, max), n)
  {
    ResolvedRangesRead(rs, max, n);
    ResolvedIsReplaced(rs, max);
    var t := ResolveAll(rs, max);
    var i :| 0 <= i < |t| && Contains(t[i], n);
    ContainedIsFound(rs, max, t, n, i);
  }

  lemma ResolvedRangesRead(rs: seq<Range>, max: nat, n: nat)
    requires forall i :: 0 <= i < |rs| ==> !Reversed(rs[i])
    ensures InRanges(ResolveAll(rs, max), n) <==> ReadsRanges(rs, max, n)
  {
    forall i | 0 <= i < |rs|
      ensures Contains(ResolveAll(rs, max)[i], n) <==> Reads(rs[i], max, n)
    {
      ResolveMeansReadsIff(rs[i], max);
    }
  }

  /** Resolving "*" in a parsed set keeps every answer the code can ask for, but one: it loses the largest
      number in use exactly when the set is overshadowed. */
  lemma ResolvingKeepsAnswersIff(rs: seq<Range>, max: nat)
    requires AsParsed(rs) && max > 0
    ensures forall n :: 1 <= n <= max ==>
              (Has(ResolveAll(rs, max), n) <==> ReadsRanges(rs, max, n) && !(n == max && Overshadowed(rs, max)))
    ensures (forall n :: 1 <= n <= max ==> (Has(ResolveAll(rs, max), n) <==> ReadsRanges(rs, max, n)))
       <==> !Overshadowed(rs, max)
  {
    forall n | 1 <= n <= max
      ensures Has(ResolveAll(rs, max), n) <==> ReadsRanges(rs, max, n) && !(n == max && Overshadowed(rs, max))
    {
      if Has(ResolveAll(rs, max), n) { FoundIsMeant(rs, max, n); }
      else if ReadsRanges(rs, max, n) && !(n == max && Overshadowed(rs, max)) { MeantIsFound(rs, max, n); }
    }
    if Overshadowed(rs, max) {
      assert Reads(rs[|rs| - 1], max, max);
      assert ReadsRanges(rs, max, max) && !Has(ResolveAll(rs, max), max);
    }
  }

  function MaxUid(l: seq<Message>): Uid {
    if l == [] then 0
    else
      var rest := MaxUid(l[..|l| - 1]);
      if l[|l| - 1].uid > rest then l[|l| - 1].uid else rest
  }

  /** The UIDNEXT a client is told is above every listed UID, and not above the stored counter as long
      as the listed UIDs are not. */
  lemma {:induction false} ReportedUidNext(l: seq<Message>, counter: Uid)
    requires (forall i :: 0 <= i < |l| ==> l[i].uid < counter) && counter > 0
    ensures forall i :: 0 <= i < |l| ==> l[i].uid < MaxUid(l) + 1 <= counter
    ensures MaxUid(l) + 1 <= counter
    ensures l != [] ==> exists i :: 0 <= i < |l| && l[i].uid == MaxUid(l)
  {
    if l != [] {
      var n := |l| - 1;
      ReportedUidNext(l[..n], counter);
      if l[n].uid <= MaxUid(l[..n]) {
        if n > 0 {
          var i :| 0 <= i < n && l[..n][i].uid == MaxUid(l[..n]);
          assert l[i].uid == MaxUid(l);
        }
      } else {
        assert l[n].uid == MaxUid(l);
      }
    }
  }

  /** `staticNumSet`. */
  function Static(v: View, s: NumSet): NumSet {
    match s
    case SeqSet(rs) => SeqSet(ResolveAll(rs, |v.list|))
    case UidSet(rs) => UidSet(ResolveAll(rs, MaxUid(v.list)))
    case SearchRes => UidSet(v.saved)
  }

  /** The number a set is asked about, for the message at `i`, and the largest one in use. */
  function NumberOf(v: View, s: NumSet, i: nat): nat
    requires i < |v.list|
  {
    if s.SeqSet? then i + 1 else v.list[i].uid
  }

  function LargestOf(v: View, s: NumSet): nat {
    if s.SeqSet? then |v.list| else MaxUid(v.list)
  }

  /** Is the message at `i` found in a set without "*" and "$"? */
  predicate InStatic(v: View, s: NumSet, i: nat)
    requires i < |v.list|
  {
    !s.SearchRes? && Has(s.ranges, NumberOf(v, s, i))
  }

  /** Is the message at `i` in the set as the client wrote it? */
  predicate Means(v: View, s: NumSet, i: nat)
    requires i < |v.list|
  {
    if s.SearchRes? then InRanges(v.saved, v.list[i].uid)
    else ReadsRanges(s.ranges, LargestOf(v, s), NumberOf(v, s, i))
  }

  /** Sets as the parser makes them, and a saved result as `AddNum` makes it. */
  predicate Parsed(v: View, s: NumSet) {
    if s.SearchRes? then Tidy(v.saved) else AsParsed(s.ranges)
  }

  /** Is "*" of this set lost? */
  predicate Hidden(v: View, s: NumSet) {
    !s.SearchRes? && Overshadowed(s.ranges, LargestOf(v, s))
  }

  /** Is the message at `i` the one that this set means and does not find? */
  predicate Missed(v: View, s: NumSet, i: nat)
    requires i < |v.list|
  {
    Hidden(v, s) && NumberOf(v, s, i) == LargestOf(v, s)
  }

  lemma {:induction false} UidAtMostMax(l: seq<Message>, i: nat)
    requires i < |l|
    ensures l[i].uid <= MaxUid(l)
  {
    if i < |l| - 1 {
      UidAtMostMax(l[..|l| - 1], i);
    }
  }

  /** A command visits exactly the messages its set means, save one: the last message is missed exactly
      when an earlier range hides "*". */
  lemma VisitsWhatIsMeant(v: View, s: NumSet, i: nat)
    requires i < |v.list| && v.list[i].uid > 0 && Parsed(v, s)
    ensures InStatic(v, Static(v, s), i)
       <==> Means(v, s, i) && !Missed(v, s, i)
  {
    if s.SearchRes? {
      TidyHasItsMembers(v.saved, v.list[i].uid);
    } else {
      UidAtMostMax(v.list, i);
      ResolvingKeepsAnswersIff(s.ranges, LargestOf(v, s));
    }
  }

  /** A set that ends in "n:*" or "*" includes the last message, however large n is (section 6.4.8 of
      RFC 3501), exactly when no earlier range hides it; a set of one range always does. */
  lemma StarIncludesLast(v: View, s: NumSet)
    requires v.list != [] && UidAscending(v.list) && v.list[|v.list| - 1].uid > 0
    requires !s.SearchRes? && AsParsed(s.ranges) && s.ranges != [] && s.ranges[|s.ranges| - 1].stop == 0
    ensures InStatic(v, Static(v, s), |v.list| - 1) <==> !Hidden(v, s)
    ensures |s.ranges| == 1 ==> !Hidden(v, s)
  {
    var last := |v.list| - 1;
    LastIsMax(v.list);
    VisitsWhatIsMeant(v, s, last);
    assert Reads(s.ranges[|s.ranges| - 1], LargestOf(v, s), LargestOf(v, s));
  }

  /** In a mailbox of three messages the set 5:9,* means the last one, and misses it. */
  lemma StarCanBeHidden(v: View)
    requires |v.list| == 3
    ensures var s := SeqSet([Range(5, 9), Range(0, 0)]);
            && Parsed(v, s) && Hidden(v, s) && Means(v, s, 2)
            && Static(v, s) == SeqSet([Range(5, 9), Range(3, 3)]) && !InStatic(v, Static(v, s), 2)
  {
    var rs := [Range(5, 9), Range(0, 0)];
    assert Reads(rs[1], 3, 3);
    assert rs[0].start > 3;
    assert ResolveAll(rs, 3) == [Range(5, 9), Range(3, 3)];
    assert Position(ResolveAll(rs, 3), 3, 0, 1) == 0;
  }

  lemma {:induction false} LastIsMax(l: seq<Message>)
    requires l != [] && UidAscending(l)
    ensures MaxUid(l) == l[|l| - 1].uid
  {
    if |l| > 1 {
      LastIsMax(l[..|l| - 1]);
    }
  }

  ghost predicate Fixed(rs: seq<Range>) {
    forall i :: 0 <= i < |rs| ==> rs[i].start > 0 && rs[i].stop > 0
  }

  /** Resolving a second time, against whatever the mailbox is by then, changes nothing. */
  lemma StaticOnce(v: View, later: View, s: NumSet)
    requires v.list != [] && MaxUid(v.list) > 0 && Fixed(v.saved)
    ensures Static(later, Static(v, s)) == Static(v, s)
  {
    var t := Static(v, s);
    var max := if s.SeqSet? then |v.list| else MaxUid(v.list);
    var max' := if s.SeqSet? then |later.list| else MaxUid(later.list);
    forall i | 0 <= i < |t.ranges|
      ensures Resolve(t.ranges[i], max') == t.ranges[i]
    {
      if !s.SearchRes? { ResolveOnceIff(s.ranges[i], max); }
    }
    assert ResolveAll(t.ranges, max') == t.ranges;
  }

  /** The visiting loop: positions of the messages in the set, in list order. */
  method ForEachLocked(v: View, s: NumSet) returns (visited: seq<nat>)
    requires Parsed(v, s) && forall m :: m in v.list ==> m.uid > 0
    ensures forall i: nat :: i in visited <==>
              i < |v.list| && Means(v, s, i) && !Missed(v, s, i)
    ensures forall i, j :: 0 <= i < j < |visited| ==> visited[i] < visited[j]
  {
    visited := [];
    var fixed := Static(v, s);
    for i := 0 to |v.list|
      invariant forall j: nat :: j in visited <==> j < i && InStatic(v, fixed, j)
      invariant forall j, k :: 0 <= j < k < |visited| ==> visited[j] < visited[k]
    {
      assert forall j :: 0 <= j < |visited| ==> visited[j] in visited;
      if InStatic(v, fixed, i) {
        visited := visited + [i];
      }
    }
    forall i: nat | i < |v.list|
      ensures InStatic(v, fixed, i)
         <==> Means(v, s, i) && !Missed(v, s, i)
    {
      VisitsWhatIsMeant(v, s, i);
    }
  }

  // ---------- search criteria ----------

  /** `test` stands for the date, flag, size, header and text criteria of one level, taken together. */
  datatype Criteria = Criteria(seqNum: seq<NumSet>, uid: seq<NumSet>, test: nat,
                               not: seq<Criteria>, or: seq<(Criteria, Criteria)>)

  /** `search`, given how a set is read for the message at hand and which tests it passes. */
  predicate Matches(picks: NumSet -> bool, passes: nat -> bool, c: Criteria) {
    && (forall i :: 0 <= i < |c.seqNum| ==> picks(c.seqNum[i]))
    && (forall i :: 0 <= i < |c.uid| ==> picks(c.uid[i]))
    && passes(c.test)
    && (forall i :: 0 <= i < |c.not| ==> !Matches(picks, passes, c.not[i]))
    && (forall i :: 0 <= i < |c.or| ==>
          Matches(picks, passes, c.or[i].0) || Matches(picks, passes, c.or[i].1))
  }

  /** The sequence sets that stay sequence sets. */
  function SeqPart(v: View, sets: seq<NumSet>): seq<NumSet> {
    if sets == [] then []
    else (if Static(v, sets[0]).SeqSet? then [Static(v, sets[0])] else []) + SeqPart(v, sets[1..])
  }

  /** The ones that turn out to be UID sets ("$"). */
  function UidPart(v: View, sets: seq<NumSet>): seq<NumSet> {
    if sets == [] then []
    else (if Static(v, sets[0]).SeqSet? then [] else [Static(v, sets[0])]) + UidPart(v, sets[1..])
  }

  function StaticSets(v: View, sets: seq<NumSet>): seq<NumSet> {
    seq(|sets|, i requires 0 <= i < |sets| => Static(v, sets[i]))
  }

  /** `staticSearchCriteria`: every level, through Not and Or. */
  function StaticCriteria(v: View, c: Criteria): Criteria
    decreases c
  {
    Criteria(SeqPart(v, c.seqNum),
             StaticSets(v, c.uid + UidPart(v, c.seqNum)),
             c.test,
             seq(|c.not|, i requires 0 <= i < |c.not| => StaticCriteria(v, c.not[i])),
             seq(|c.or|, i requires 0 <= i < |c.or| =>
               (StaticCriteria(v, c.or[i].0), StaticCriteria(v, c.or[i].1))))
  }

  /** Every set of every level is as parsed. */
  ghost predicate AllParsed(v: View, c: Criteria)
    decreases c
  {
    && (forall i :: 0 <= i < |c.seqNum| ==> Parsed(v, c.seqNum[i]))
    && (forall i :: 0 <= i < |c.uid| ==> Parsed(v, c.uid[i]))
    && (forall i :: 0 <= i < |c.not| ==> AllParsed(v, c.not[i]))
    && (forall i :: 0 <= i < |c.or| ==> AllParsed(v, c.or[i].0) && AllParsed(v, c.or[i].1))
  }

  /** No set of any level misses the message at `i`. */
  ghost predicate NoneMisses(v: View, c: Criteria, i: nat)
    requires i < |v.list|
    decreases c
  {
    && (forall j :: 0 <= j < |c.seqNum| ==> !Missed(v, c.seqNum[j], i))
    && (forall j :: 0 <= j < |c.uid| ==> !Missed(v, c.uid[j], i))
    && (forall j :: 0 <= j < |c.not| ==> NoneMisses(v, c.not[j], i))
    && (forall j :: 0 <= j < |c.or| ==> NoneMisses(v, c.or[j].0, i) && NoneMisses(v, c.or[j].1, i))
  }

  /** No set of any level hides its "*". */
  ghost predicate NoneHidden(v: View, c: Criteria)
    decreases c
  {
    && (forall j :: 0 <= j < |c.seqNum| ==> !Hidden(v, c.seqNum[j]))
    && (forall j :: 0 <= j < |c.uid| ==> !Hidden(v, c.uid[j]))
    && (forall j :: 0 <= j < |c.not| ==> NoneHidden(v, c.not[j]))
    && (forall j :: 0 <= j < |c.or| ==> NoneHidden(v, c.or[j].0) && NoneHidden(v, c.or[j].1))
  }

  ghost predicate All(picks: NumSet -> bool, sets: seq<NumSet>) {
    forall i :: 0 <= i < |sets| ==> picks(sets[i])
  }

  lemma {:induction false} PartsCoverAll(v: View, sets: seq<NumSet>, picks: NumSet -> bool)
    ensures All(picks, SeqPart(v, sets)) && All(picks, UidPart(v, sets)) <==> All(picks, StaticSets(v, sets))
  {
    if sets != [] {
      PartsCoverAll(v, sets[1..], picks);
      var here := Static(v, sets[0]);
      AllConcat(picks, if here.SeqSet? then [here] else [], SeqPart(v, sets[1..]));
      AllConcat(picks, if here.SeqSet? then [] else [here], UidPart(v, sets[1..]));
      AllConcat(picks, [here], StaticSets(v, sets[1..]));
      assert StaticSets(v, sets) == [here] + StaticSets(v, sets[1..]);
    }
  }

  lemma AllConcat(picks: NumSet -> bool, a: seq<NumSet>, b: seq<NumSet>)
    ensures All(picks, a + b) <==> All(picks, a) && All(picks, b)
  {
    if All(picks, a + b) {
      forall i | 0 <= i < |a| ensures picks(a[i]) { assert (a + b)[i] == a[i]; }
      forall i | 0 <= i < |b| ensures picks(b[i]) { assert (a + b)[|a| + i] == b[i]; }
    }
  }

  lemma ResolveFixed(rs: seq<Range>, max: nat)
    requires Fixed(rs)
    ensures ResolveAll(rs, max) == rs
  {
  }

  lemma {:induction false} UidPartIsFixed(v: View, sets: seq<NumSet>)
    requires Fixed(v.saved) && forall i :: 0 <= i < |sets| ==> !sets[i].UidSet?
    ensures StaticSets(v, UidPart(v, sets)) == UidPart(v, sets)
  {
    if sets != [] {
      UidPartIsFixed(v, sets[1..]);
      ResolveFixed(v.saved, MaxUid(v.list));
    }
  }

  /** How the code and the client read a set, for the message at `i`. */
  function StaticPick(v: View, i: nat): NumSet -> bool
    requires i < |v.list|
  {
    s => InStatic(v, s, i)
  }

  function MeantPick(v: View, i: nat): NumSet -> bool
    requires i < |v.list|
  {
    s => Means(v, s, i)
  }

  /** The set as written, less what it misses. */
  function FoundPick(v: View, i: nat): NumSet -> bool
    requires i < |v.list|
  {
    s => Means(v, s, i) && !Missed(v, s, i)
  }

  lemma SetsFind(v: View, sets: seq<NumSet>, i: nat)
    requires i < |v.list| && v.list[i].uid > 0
    requires forall j :: 0 <= j < |sets| ==> Parsed(v, sets[j])
    ensures All(StaticPick(v, i), StaticSets(v, sets)) <==> All(FoundPick(v, i), sets)
  {
    var fixed := StaticSets(v, sets);
    forall j | 0 <= j < |sets|
      ensures StaticPick(v, i)(fixed[j]) <==> FoundPick(v, i)(sets[j])
    {
      VisitsWhatIsMeant(v, sets[j], i);
    }
  }

  /** The sets of one level: moving "$" from the sequence sets to the UID sets and resolving everything
      leaves the conjunction of all of them, each less what it misses. */
  lemma LevelFinds(v: View, c: Criteria, i: nat)
    requires i < |v.list| && v.list[i].uid > 0 && AllParsed(v, c) && Typed(c) && Tidy(v.saved)
    ensures var t := StaticCriteria(v, c);
            All(StaticPick(v, i), t.seqNum) && All(StaticPick(v, i), t.uid)
            <==> All(FoundPick(v, i), c.seqNum) && All(FoundPick(v, i), c.uid)
  {
    var pick := StaticPick(v, i);
    var moved := UidPart(v, c.seqNum);
    UidPartIsFixed(v, c.seqNum);
    assert StaticSets(v, c.uid + moved) == StaticSets(v, c.uid) + moved;
    AllConcat(pick, StaticSets(v, c.uid), moved);
    PartsCoverAll(v, c.seqNum, pick);
    SetsFind(v, c.seqNum, i);
    SetsFind(v, c.uid, i);
  }

  /** As the types of the source have it: no UID set among the sequence sets. */
  ghost predicate Typed(c: Criteria)
    decreases c
  {
    && (forall i :: 0 <= i < |c.seqNum| ==> !c.seqNum[i].UidSet?)
    && (forall i :: 0 <= i < |c.not| ==> Typed(c.not[i]))
    && (forall i :: 0 <= i < |c.or| ==> Typed(c.or[i].0) && Typed(c.or[i].1))
  }

  /** A search through arbitrarily nested Not and Or matches exactly the messages that the criteria as
      written pick, each set read without the message it misses. */
  lemma {:induction false} SearchFinds(v: View, c: Criteria, i: nat, passes: nat -> bool)
    requires i < |v.list| && v.list[i].uid > 0 && AllParsed(v, c) && Typed(c) && Tidy(v.saved)
    ensures Matches(StaticPick(v, i), passes, StaticCriteria(v, c)) <==> Matches(FoundPick(v, i), passes, c)
    decreases c
  {
    var t := StaticCriteria(v, c);
    LevelFinds(v, c, i);
    forall j | 0 <= j < |c.not|
      ensures Matches(StaticPick(v, i), passes, t.not[j]) <==> Matches(FoundPick(v, i), passes, c.not[j])
    {
      SearchFinds(v, c.not[j], i, passes);
    }
    forall j | 0 <= j < |c.or|
      ensures Matches(StaticPick(v, i), passes, t.or[j].0) <==> Matches(FoundPick(v, i), passes, c.or[j].0)
      ensures Matches(StaticPick(v, i), passes, t.or[j].1) <==> Matches(FoundPick(v, i), passes, c.or[j].1)
    {
      SearchFinds(v, c.or[j].0, i, passes);
      SearchFinds(v, c.or[j].1, i, passes);
    }
    MatchesByParts(StaticPick(v, i), FoundPick(v, i), passes, t, c);
  }

  lemma SetsMissNothing(v: View, sets: seq<NumSet>, i: nat)
    requires i < |v.list| && forall j :: 0 <= j < |sets| ==> !Missed(v, sets[j], i)
    ensures All(FoundPick(v, i), sets) <==> All(MeantPick(v, i), sets)
  {
    assert forall j :: 0 <= j < |sets| ==> FoundPick(v, i)(sets[j]) == MeantPick(v, i)(sets[j]);
  }

  lemma {:induction false} NothingMissedIsMeant(v: View, c: Criteria, i: nat, passes: nat -> bool)
    requires i < |v.list| && NoneMisses(v, c, i)
    ensures Matches(FoundPick(v, i), passes, c) <==> Matches(MeantPick(v, i), passes, c)
    decreases c
  {
    SetsMissNothing(v, c.seqNum, i);
    SetsMissNothing(v, c.uid, i);
    forall j | 0 <= j < |c.not|
      ensures Matches(FoundPick(v, i), passes, c.not[j]) <==> Matches(MeantPick(v, i), passes, c.not[j])
    {
      NothingMissedIsMeant(v, c.not[j], i, passes);
    }
    forall j | 0 <= j < |c.or|
      ensures Matches(FoundPick(v, i), passes, c.or[j].0) <==> Matches(MeantPick(v, i), passes, c.or[j].0)
      ensures Matches(FoundPick(v, i), passes, c.or[j].1) <==> Matches(MeantPick(v, i), passes, c.or[j].1)
    {
      NothingMissedIsMeant(v, c.or[j].0, i, passes);
      NothingMissedIsMeant(v, c.or[j].1, i, passes);
    }
    MatchesByParts(FoundPick(v, i), MeantPick(v, i), passes, c, c);
  }

  /** So for every message that no set in the criteria misses, the answer is that of a direct reading. */
  lemma SearchFindsWhatIsMeant(v: View, c: Criteria, i: nat, passes: nat -> bool)
    requires i < |v.list| && v.list[i].uid > 0 && AllParsed(v, c) && Typed(c) && Tidy(v.saved)
    requires NoneMisses(v, c, i)
    ensures Matches(StaticPick(v, i), passes, StaticCriteria(v, c)) <==> Matches(MeantPick(v, i), passes, c)
  {
    SearchFinds(v, c, i, passes);
    NothingMissedIsMeant(v, c, i, passes);
  }

  /** Criteria that hide no "*" miss nothing. */
  lemma {:induction false} NoneHiddenMissesNone(v: View, c: Criteria, i: nat)
    requires i < |v.list| && NoneHidden(v, c)
    ensures NoneMisses(v, c, i)
    decreases c
  {
    forall j | 0 <= j < |c.not| ensures NoneMisses(v, c.not[j], i) {
      NoneHiddenMissesNone(v, c.not[j], i);
    }
    forall j | 0 <= j < |c.or| ensures NoneMisses(v, c.or[j].0, i) && NoneMisses(v, c.or[j].1, i) {
      NoneHiddenMissesNone(v, c.or[j].0, i);
      NoneHiddenMissesNone(v, c.or[j].1, i);
    }
  }

  /** Neither does any set the messages that are not the last. */
  lemma {:induction false} OnlyLastIsMissed(v: View, c: Criteria, i: nat)
    requires UidAscending(v.list) && i < |v.list| - 1
    ensures NoneMisses(v, c, i)
    decreases c
  {
    LastIsMax(v.list);
    forall j | 0 <= j < |c.not| ensures NoneMisses(v, c.not[j], i) {
      OnlyLastIsMissed(v, c.not[j], i);
    }
    forall j | 0 <= j < |c.or| ensures NoneMisses(v, c.or[j].0, i) && NoneMisses(v, c.or[j].1, i) {
      OnlyLastIsMissed(v, c.or[j].0, i);
      OnlyLastIsMissed(v, c.or[j].1, i);
    }
  }

  /** The criteria NOT `s`. */
  function NotIn(s: NumSet): Criteria {
    Criteria([], [], 0, [Criteria([s], [], 0, [], [])], [])
  }

  lemma NotInMatches(picks: NumSet -> bool, passes: nat -> bool, s: NumSet)
    requires passes(0)
    ensures Matches(picks, passes, NotIn(s)) <==> !picks(s)
  {
    var inner := Criteria([s], [], 0, [], []);
    assert Matches(picks, passes, inner) <==> picks(inner.seqNum[0]);
    assert NotIn(s).not[0] == inner;
  }

  lemma NotInIsParsed(v: View, s: NumSet)
    requires Parsed(v, s) && !s.UidSet?
    ensures AllParsed(v, NotIn(s)) && Typed(NotIn(s))
  {
    var inner := Criteria([s], [], 0, [], []);
    assert AllParsed(v, inner) && Typed(inner);
    assert NotIn(s).not == [inner];
  }

  /** A message that a set means but misses is found by NOT of that set, and no other message is answered
      wrongly. */
  lemma NotOfSetIsRightIff(v: View, s: NumSet, i: nat, passes: nat -> bool)
    requires i < |v.list| && v.list[i].uid > 0 && Parsed(v, s) && !s.UidSet? && Tidy(v.saved) && passes(0)
    ensures (Matches(StaticPick(v, i), passes, StaticCriteria(v, NotIn(s)))
             <==> Matches(MeantPick(v, i), passes, NotIn(s)))
            <==> !(Means(v, s, i) && Missed(v, s, i))
  {
    NotInIsParsed(v, s);
    SearchFinds(v, NotIn(s), i, passes);
    NotInMatches(FoundPick(v, i), passes, s);
    NotInMatches(MeantPick(v, i), passes, s);
  }

  /** In a mailbox of three messages NOT 5:9,* matches the last one, which it should not. */
  lemma SearchCanGoWrong(v: View, passes: nat -> bool)
    requires |v.list| == 3 && v.list[2].uid > 0 && Tidy(v.saved) && passes(0)
    ensures var c := NotIn(SeqSet([Range(5, 9), Range(0, 0)]));
            && Matches(StaticPick(v, 2), passes, StaticCriteria(v, c))
            && !Matches(MeantPick(v, 2), passes, c)
  {
    var s := SeqSet([Range(5, 9), Range(0, 0)]);
    StarCanBeHidden(v);
    NotOfSetIsRightIff(v, s, 2, passes);
    NotInMatches(MeantPick(v, 2), passes, s);
  }

  ghost predicate NoneOf(picks: NumSet -> bool, passes: nat -> bool, cs: seq<Criteria>) {
    forall i :: 0 <= i < |cs| ==> !Matches(picks, passes, cs[i])
  }

  ghost predicate OneOfEach(picks: NumSet -> bool, passes: nat -> bool, pairs: seq<(Criteria, Criteria)>) {
    forall i :: 0 <= i < |pairs| ==> Matches(picks, passes, pairs[i].0) || Matches(picks, passes, pairs[i].1)
  }

  lemma MatchesParts(picks: NumSet -> bool, passes: nat -> bool, c: Criteria)
    ensures Matches(picks, passes, c)
       <==> && All(picks, c.seqNum) && All(picks, c.uid) && passes(c.test)
            && NoneOf(picks, passes, c.not) && OneOfEach(picks, passes, c.or)
  {
  }

  /** What `search` answers, built up criterion by criterion: each further set must pick the message, each
      further NOT must not match, and of each further OR one side must. */
  lemma SearchIsConjunction(picks: NumSet -> bool, passes: nat -> bool, c: Criteria, s: NumSet, d: Criteria, e: Criteria)
    ensures Matches(picks, passes, Criteria([], [], c.test, [], [])) <==> passes(c.test)
    ensures Matches(picks, passes, c.(seqNum := c.seqNum + [s])) <==> Matches(picks, passes, c) && picks(s)
    ensures Matches(picks, passes, c.(uid := c.uid + [s])) <==> Matches(picks, passes, c) && picks(s)
    ensures Matches(picks, passes, c.(not := c.not + [d])) <==> Matches(picks, passes, c) && !Matches(picks, passes, d)
    ensures Matches(picks, passes, c.(or := c.or + [(d, e)])) <==>
              Matches(picks, passes, c) && (Matches(picks, passes, d) || Matches(picks, passes, e))
  {
    OneMoreSet(picks, c.seqNum, s);
    OneMoreSet(picks, c.uid, s);
    MatchesParts(picks, passes, c);
    MatchesParts(picks, passes, c.(seqNum := c.seqNum + [s]));
    MatchesParts(picks, passes, c.(uid := c.uid + [s]));
    OneMoreNot(picks, passes, c, d);
    OneMoreOr(picks, passes, c, d, e);
  }

  lemma OneMoreSet(picks: NumSet -> bool, sets: seq<NumSet>, s: NumSet)
    ensures All(picks, sets + [s]) <==> All(picks, sets) && picks(s)
  {
    AllConcat(picks, sets, [s]);
    assert All(picks, [s]) <==> picks([s][0]);
  }

  lemma OneMoreNot(picks: NumSet -> bool, passes: nat -> bool, c: Criteria, d: Criteria)
    ensures Matches(picks, passes, c.(not := c.not + [d])) <==> Matches(picks, passes, c) && !Matches(picks, passes, d)
  {
    var more := c.not + [d];
    MatchesParts(picks, passes, c);
    MatchesParts(picks, passes, c.(not := more));
    assert more[|c.not|] == d && forall i :: 0 <= i < |c.not| ==> more[i] == c.not[i];
    assert NoneOf(picks, passes, more) <==> NoneOf(picks, passes, c.not) && !Matches(picks, passes, d);
  }

  lemma OneMoreOr(picks: NumSet -> bool, passes: nat -> bool, c: Criteria, d: Criteria, e: Criteria)
    ensures Matches(picks, passes, c.(or := c.or + [(d, e)])) <==>
              Matches(picks, passes, c) && (Matches(picks, passes, d) || Matches(picks, passes, e))
  {
    var more := c.or + [(d, e)];
    MatchesParts(picks, passes, c);
    MatchesParts(picks, passes, c.(or := more));
    assert more[|c.or|] == (d, e) && forall i :: 0 <= i < |c.or| ==> more[i] == c.or[i];
    assert OneOfEach(picks, passes, more)
      <==> OneOfEach(picks, passes, c.or) && (Matches(picks, passes, d) || Matches(picks, passes, e));
  }

  lemma SameNone(p: NumSet -> bool, q: NumSet -> bool, passes: nat -> bool, ts: seq<Criteria>, cs: seq<Criteria>)
    requires |ts| == |cs|
    requires forall j :: 0 <= j < |cs| ==> (Matches(p, passes, ts[j]) <==> Matches(q, passes, cs[j]))
    ensures NoneOf(p, passes, ts) <==> NoneOf(q, passes, cs)
  {
  }

  lemma SameOneOfEach(p: NumSet -> bool, q: NumSet -> bool, passes: nat -> bool,
                      ts: seq<(Criteria, Criteria)>, cs: seq<(Criteria, Criteria)>)
    requires |ts| == |cs|
    requires forall j :: 0 <= j < |cs| ==> (Matches(p, passes, ts[j].0) <==> Matches(q, passes, cs[j].0))
    requires forall j :: 0 <= j < |cs| ==> (Matches(p, passes, ts[j].1) <==> Matches(q, passes, cs[j].1))
    ensures OneOfEach(p, passes, ts) <==> OneOfEach(q, passes, cs)
  {
  }

  lemma MatchesByParts(p: NumSet -> bool, q: NumSet -> bool, passes: nat -> bool, t: Criteria, c: Criteria)
    requires All(p, t.seqNum) && All(p, t.uid) <==> All(q, c.seqNum) && All(q, c.uid)
    requires t.test == c.test && |t.not| == |c.not| && |t.or| == |c.or|
    requires forall j :: 0 <= j < |c.not| ==> (Matches(p, passes, t.not[j]) <==> Matches(q, passes, c.not[j]))
    requires forall j :: 0 <= j < |c.or| ==> (Matches(p, passes, t.or[j].0) <==> Matches(q, passes, c.or[j].0))
    requires forall j :: 0 <= j < |c.or| ==> (Matches(p, passes, t.or[j].1) <==> Matches(q, passes, c.or[j].1))
    ensures Matches(p, passes, t) <==> Matches(q, passes, c)
  {
    MatchesParts(p, passes, t);
    MatchesParts(q, passes, c);
    SameNone(p, q, passes, t.not, c.not);
    SameOneOfEach(p, q, passes, t.or, c.or);
  }
}
