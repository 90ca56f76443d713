/** What becomes of each queued mail over any run in which the process keeps running: how often it is
    tried, when, and how it ends.  Here a whole attempt is one step; `Spool` shows what a crash inside
    one can do. */
module Retries {
  import opened Wrappers
  import Relay
  import Spool
  import opened Sequences

  type Id = string
  type Time = int
  type Config = Spool.Config
  type Item = Spool.Item
  type Failure = Relay.Failure

  /** How a write of metadata ends: done, refused with the old file intact, or cut short. */
  datatype Saving = Saved | Untouched | CutShort

  /** Which of the two files of a finished mail the removal gets rid of. */
  datatype Removing = Both | BodyOnly | MetaOnly | Neither

  /** The world's part in one attempt: its first and last instant, what the delivery came to and how many
      hosts took the mail, and how the file operations after it end. */
  datatype Reply =
    Reply(start: Time, finish: Time, failure: Option<Failure>, takers: nat, saving: Saving, removing: Removing)

  /** What happened to one accepted mail: the starts of its delivery calls, its outcomes, the failed
      attempts nothing on disk remembers, and the outcomes after which neither file was removed. */
  datatype Tally = Tally(starts: seq<Time>, relayed: nat, givenUp: nat, lost: nat, undone: nat)
  {
    function Outcomes(): nat { relayed + givenUp }

    predicate Smooth() { lost == 0 && undone == 0 }
  }

  const UNTRIED := Tally([], 0, 0, 0, 0)

  /** The spool directory, with the books kept on it. */
  datatype Ledger =
    Ledger(bodies: map<Id, Spool.Content<string>>, metas: map<Id, Spool.Content<Item>>, tally: map<Id, Tally>)

  const NEW := Ledger(map[], map[], map[])

  datatype Event =
    | Enqueue(id: Id, from: string, to: string, data: string, at: Time, writing: Saving, saving: Saving)
    | Visit(id: Id, now: Time, reply: Reply)

  function Removed(l: Ledger, id: Id, removing: Removing): Ledger {
    l.(bodies := if removing.Both? || removing.BodyOnly? then l.bodies - {id} else l.bodies,
       metas := if removing.Both? || removing.MetaOnly? then l.metas - {id} else l.metas)
  }

  function Undone(removing: Removing): nat {
    if removing.Neither? then 1 else 0
  }

  function TallyOf(l: Ledger, id: Id): Tally {
    if id in l.tally then l.tally[id] else UNTRIED
  }

  /** `Enqueue`; `id` is fresh. */
  function Enqueued(l: Ledger, e: Event): Ledger
    requires e.Enqueue?
  {
    if e.writing.Untouched? then l
    else if e.writing.CutShort? then l.(bodies := l.bodies[e.id := Spool.Torn])
    else
      var l' := l.(bodies := l.bodies[e.id := Spool.Whole(e.data)]);
      match e.saving
      case Untouched => l'
      case CutShort => l'.(metas := l.metas[e.id := Spool.Torn])
      case Saved =>
        l'.(metas := l.metas[e.id := Spool.Whole(Spool.Item(e.id, e.from, e.to, 0, e.at))],
            tally := l.tally[e.id := UNTRIED])
  }

  /** After a failed attempt that is to be retried. */
  function Postponed(c: Config, l: Ledger, item: Item, t: Tally, reply: Reply): Ledger
    requires c.retryIntervals != []
  {
    var next := item.(attempts := item.attempts + 1, next := reply.finish + Spool.Delay(c, item.attempts + 1));
    match reply.saving
    case Saved => l.(metas := l.metas[item.id := Spool.Whole(next)], tally := l.tally[item.id := t])
    case Untouched => l.(tally := l.tally[item.id := t.(lost := t.lost + 1)])
    case CutShort => l.(metas := l.metas[item.id := Spool.Torn], tally := l.tally[item.id := t])
  }

  /** Does this attempt end in an index outside the schedule? */
  predicate Panics(c: Config, item: Item, reply: Reply) {
    && c.retryIntervals == []
    && reply.failure.Some?
    && !Spool.GivesUp(c, Relay.IsPermanent(reply.failure.value), item.attempts + 1)
  }

  /** `attempt`. */
  function Attempted(c: Config, l: Ledger, item: Item, reply: Reply): Ledger {
    var id := item.id;
    if id !in l.bodies then Removed(l, id, reply.removing)
    else
      var was := TallyOf(l, id);
      var t := was.(starts := was.starts + [reply.start]);
      var ended := t.(undone := t.undone + Undone(reply.removing));
      if reply.failure.None? then
        Removed(l.(tally := l.tally[id := ended.(relayed := t.relayed + 1)]), id, reply.removing)
      else if Spool.GivesUp(c, Relay.IsPermanent(reply.failure.value), item.attempts + 1) then
        Removed(l.(tally := l.tally[id := ended.(givenUp := t.givenUp + 1)]), id, reply.removing)
      else if c.retryIntervals == [] then l.(tally := l.tally[id := t.(lost := t.lost + 1)])
      else Postponed(c, l, item, t, reply)
  }

  /** `processAll` at one name of its listing. */
  function Visited(c: Config, l: Ledger, id: Id, now: Time, reply: Reply): Ledger {
    if id !in l.metas || l.metas[id].Torn? || l.metas[id].value.next > now then l
    else Attempted(c, l, l.metas[id].value, reply)
  }

  /** In the order of the clock, and no success without a host that took the mail. */
  predicate Timely(now: Time, reply: Reply) {
    now <= reply.start <= reply.finish && (reply.failure.None? ==> reply.takers > 0)
  }

  predicate Enabled(l: Ledger, e: Event) {
    if e.Enqueue? then e.id !in l.bodies && e.id !in l.metas && e.id !in l.tally
    else Timely(e.now, e.reply)
  }

  function Apply(c: Config, l: Ledger, e: Event): Ledger {
    if e.Enqueue? then Enqueued(l, e) else Visited(c, l, e.id, e.now, e.reply)
  }

  predicate Possible(c: Config, l: Ledger, events: seq<Event>)
    decreases |events|
  {
    events == [] || (Enabled(l, events[0]) && Possible(c, Apply(c, l, events[0]), events[1..]))
  }

  function Exec(c: Config, l: Ledger, events: seq<Event>): Ledger
    decreases |events|
  {
    if events == [] then l else Exec(c, Apply(c, l, events[0]), events[1..])
  }

  // ---------- what one attempt comes to ----------

  /** A failure worth another try: a temporary refusal, or no refusal at all. */
  predicate Transient(failure: Option<Failure>) {
    failure == Some(Relay.Reply(true)) || failure == Some(Relay.Trouble)
  }

  /** Every failure is one or the other. */
  lemma FailureKinds(failure: Option<Failure>)
    ensures failure.Some? && Relay.IsPermanent(failure.value) <==> failure == Some(Relay.Reply(false))
    ensures failure.Some? && !Relay.IsPermanent(failure.value) <==> Transient(failure)
  {
    if failure.Some? {
      match failure.value {
        case Reply(temporary) =>
        case Trouble =>
      }
    }
  }

  /** A definitive rejection ends a mail at once, however few its attempts; any other failure ends it exactly
      when the retries have run out, and it is a retry that needs a schedule. */
  lemma OutcomeOfAttempt(c: Config, l: Ledger, item: Item, reply: Reply)
    requires item.id in l.bodies
    ensures var was, now := TallyOf(l, item.id), TallyOf(Attempted(c, l, item, reply), item.id);
            && now.starts == was.starts + [reply.start]
            && now.relayed == was.relayed + (if reply.failure == None then 1 else 0)
            && (reply.failure == None ==> now.givenUp == was.givenUp)
            && (reply.failure == Some(Relay.Reply(false)) ==> now.givenUp == was.givenUp + 1)
            && (Transient(reply.failure) ==>
                  now.givenUp == was.givenUp + if item.attempts + 1 <= c.maxRetries then 0 else 1)
    ensures Panics(c, item, reply) <==>
              c.retryIntervals == [] && Transient(reply.failure) && item.attempts + 1 <= c.maxRetries
  {
    FailureKinds(reply.failure);
  }

  /** The delay after a mail has failed for the `failures`-th time: the schedule's, then its last over and
      over. */
  predicate IsDelay(c: Config, failures: nat, delay: Time) {
    && c.retryIntervals != [] && failures >= 1
    && (failures <= |c.retryIntervals| ==> delay == c.retryIntervals[failures - 1])
    && (failures >= |c.retryIntervals| ==> delay == c.retryIntervals[|c.retryIntervals| - 1])
  }

  /** The files after an attempt.  A mail that is finished, or has lost its body, loses both (as far as the
      removal works); one to be tried again keeps its body, and its metadata is due one delay later. */
  lemma FilesAfterAttempt(c: Config, l: Ledger, item: Item, reply: Reply, delay: Time)
    ensures var l', id := Attempted(c, l, item, reply), item.id;
            var again := id in l.bodies && Transient(reply.failure) && item.attempts + 1 <= c.maxRetries;
            && (!again ==>
                  && (id in l'.bodies <==> id in l.bodies && reply.removing in {MetaOnly, Neither})
                  && (id in l'.metas <==> id in l.metas && reply.removing in {BodyOnly, Neither}))
            && (again ==> l'.bodies == l.bodies)
            && (again && IsDelay(c, item.attempts + 1, delay) ==>
                  l'.metas == match reply.saving
                              case Saved =>
                                l.metas[id := Spool.Whole(Spool.Item(id, item.from, item.to, item.attempts + 1,
                                                                     reply.finish + delay))]
                              case Untouched => l.metas
                              case CutShort => l.metas[id := Spool.Torn])
  {
    FailureKinds(reply.failure);
  }

  /** A mail put off is next tried by the first visit at or after the end of its delay: earlier ones leave
      everything alone. */
  lemma RetriedWhenDue(c: Config, l: Ledger, id: Id, now: Time, reply: Reply, delay: Time, later: Time, reply': Reply)
    requires id in l.bodies && id in l.metas && l.metas[id].Whole? && l.metas[id].value.id == id
    requires l.metas[id].value.next <= now && Transient(reply.failure) && reply.saving.Saved?
    requires l.metas[id].value.attempts + 1 <= c.maxRetries && IsDelay(c, l.metas[id].value.attempts + 1, delay)
    ensures var l' := Visited(c, l, id, now, reply);
            var l'' := Visited(c, l', id, later, reply');
            && (later < reply.finish + delay ==> l'' == l')
            && (later >= reply.finish + delay ==>
                  TallyOf(l'', id).starts == TallyOf(l', id).starts + [reply'.start])
  {
    var l', item := Visited(c, l, id, now, reply), l.metas[id].value;
    FilesAfterAttempt(c, l, item, reply, delay);
    OutcomeOfAttempt(c, l', l'.metas[id].value, reply');
  }

  // ---------- the invariant of one mail ----------

  /** The most failed attempts the metadata can hold. */
  function Cap(c: Config): nat {
    if c.maxRetries > 0 then c.maxRetries else 0
  }

  /** The delay after the `k`-th failure; the last interval of the schedule goes on for ever. */
  function Pause(c: Config, k: nat): Time
    requires k >= 1
  {
    if c.retryIntervals == [] then 0 else Spool.Delay(c, k)
  }

  datatype Slice = Slice(body: bool, meta: Option<Spool.Content<Item>>, tally: Option<Tally>)
  {
    predicate Live() {
      body && meta.Some? && meta.value.Whole?
    }

    predicate Stuck() {
      body && meta.Some? && meta.value.Torn?
    }

    predicate Finished() {
      !Live() && !Stuck()
    }

    predicate Counted(c: Config)
      requires tally.Some?
    {
      var t := tally.value;
      && (if Finished() then t.Outcomes() == t.undone + 1 else t.Outcomes() == t.undone)
      && (Live() ==> |t.starts| == meta.value.value.attempts + t.lost + t.undone)
      && (!Live() ==> |t.starts| <= Cap(c) + 1 + t.lost + t.undone)
    }

    /** Tries of a mail that never had bad luck with its files are as far apart as the schedule says. */
    predicate Paced(c: Config)
      requires tally.Some?
    {
      var t := tally.value;
      t.Smooth() ==>
        && SpacedOut(c, t.starts)
        && (Live() && t.starts != [] ==>
              meta.value.value.next >= t.starts[|t.starts| - 1] + Pause(c, |t.starts|))
    }

    predicate Ok(c: Config, id: Id) {
      && (meta.Some? && meta.value.Whole? ==>
            tally.Some? && meta.value.value.id == id && meta.value.value.attempts <= Cap(c))
      && (tally.Some? ==> Counted(c) && Paced(c))
    }
  }

  /** After the `k`-th failure at least the `k`-th delay goes by. */
  predicate SpacedOut(c: Config, starts: seq<Time>) {
    forall k {:trigger Pause(c, k)} :: 1 <= k < |starts| ==> starts[k] >= starts[k - 1] + Pause(c, k)
  }

  function SliceOf(l: Ledger, id: Id): Slice {
    Slice(id in l.bodies,
          if id in l.metas then Some(l.metas[id]) else None,
          if id in l.tally then Some(l.tally[id]) else None)
  }

  ghost predicate Inv(c: Config, l: Ledger) {
    forall id :: SliceOf(l, id).Ok(c, id)
  }

  // ---------- every event keeps it ----------

  lemma EnqueueTouchesOne(l: Ledger, e: Event, id: Id)
    requires e.Enqueue? && id != e.id
    ensures SliceOf(Enqueued(l, e), id) == SliceOf(l, id)
  {
  }

  lemma AttemptTouchesOne(c: Config, l: Ledger, item: Item, reply: Reply, id: Id)
    requires id != item.id
    ensures SliceOf(Attempted(c, l, item, reply), id) == SliceOf(l, id)
  {
  }

  lemma EventTouchesOne(c: Config, l: Ledger, e: Event, id: Id)
    requires Inv(c, l) && id != e.id
    ensures SliceOf(Apply(c, l, e), id) == SliceOf(l, id)
  {
    if e.Enqueue? {
      EnqueueTouchesOne(l, e, id);
    } else if Visited(c, l, e.id, e.now, e.reply) != l {
      assert SliceOf(l, e.id).Ok(c, e.id);
      AttemptTouchesOne(c, l, l.metas[e.id].value, e.reply, id);
    }
  }

  lemma EnqueueSlice(l: Ledger, e: Event)
    requires e.Enqueue? && Enabled(l, e)
    ensures var s := SliceOf(Enqueued(l, e), e.id);
            || (s.meta.None? && s.tally.None?)
            || (s.meta == Some(Spool.Torn) && s.tally.None?)
            || (s.body && s.tally == Some(UNTRIED)
                && s.meta == Some(Spool.Whole(Spool.Item(e.id, e.from, e.to, 0, e.at))))
  {
  }

  lemma UntriedIsOk(c: Config, s: Slice, id: Id)
    requires s.Live() && s.meta.value.value.id == id && s.meta.value.value.attempts == 0
    requires s.tally.Some? && |s.tally.value.starts| == 0 && s.tally.value.Outcomes() == 0 && s.tally.value.Smooth()
    ensures s.Ok(c, id)
  {
  }

  lemma EnqueueKeepsOk(c: Config, l: Ledger, e: Event)
    requires e.Enqueue? && Enabled(l, e)
    ensures SliceOf(Enqueued(l, e), e.id).Ok(c, e.id)
  {
    EnqueueSlice(l, e);
    var s := SliceOf(Enqueued(l, e), e.id);
    if s.tally.Some? {
      UntriedIsOk(c, s, e.id);
    } else {
      assert s.Ok(c, e.id);
    }
  }

  /** The books after one more try. */
  lemma OneMoreStart(c: Config, s: Slice, now: Time, start: Time)
    requires s.Live() && s.tally.Some? && s.Paced(c) && s.Counted(c) && s.tally.value.Smooth()
    requires s.meta.value.value.next <= now <= start
    ensures SpacedOut(c, s.tally.value.starts + [start])
  {
  }

  lemma EndedSlice(c: Config, l: Ledger, item: Item, reply: Reply)
    requires item.id in l.bodies && item.id in l.metas && item.id in l.tally
    requires reply.failure.None? || Spool.GivesUp(c, Relay.IsPermanent(reply.failure.value), item.attempts + 1)
    ensures var s, s', r := SliceOf(l, item.id), SliceOf(Attempted(c, l, item, reply), item.id), reply.removing;
            && s'.body == (r.MetaOnly? || r.Neither?)
            && s'.meta == (if r.BodyOnly? || r.Neither? then s.meta else None)
            && s'.tally.Some?
            && s'.tally.value.starts == s.tally.value.starts + [reply.start]
            && s'.tally.value.lost == s.tally.value.lost
            && s'.tally.value.undone == s.tally.value.undone + Undone(r)
            && s'.tally.value.Outcomes() == s.tally.value.Outcomes() + 1
  {
  }

  lemma EndKeepsOk(c: Config, s: Slice, s': Slice, id: Id, now: Time, reply: Reply)
    requires s.Ok(c, id) && s.Live() && s.meta.value.value.next <= now && Timely(now, reply)
    requires s'.body == (reply.removing.MetaOnly? || reply.removing.Neither?)
    requires s'.meta == (if reply.removing.BodyOnly? || reply.removing.Neither? then s.meta else None)
    requires s'.tally.Some?
    requires s'.tally.value.starts == s.tally.value.starts + [reply.start]
    requires s'.tally.value.lost == s.tally.value.lost
    requires s'.tally.value.undone == s.tally.value.undone + Undone(reply.removing)
    requires s'.tally.value.Outcomes() == s.tally.value.Outcomes() + 1
    ensures s'.Ok(c, id)
  {
    if s.tally.value.Smooth() {
      OneMoreStart(c, s, now, reply.start);
    }
  }

  lemma PostponedSlice(c: Config, l: Ledger, item: Item, reply: Reply)
    requires c.retryIntervals != [] && item.id in l.bodies && item.id in l.metas && item.id in l.tally
    ensures var s, t := SliceOf(l, item.id), TallyOf(l, item.id).(starts := TallyOf(l, item.id).starts + [reply.start]);
            var s' := SliceOf(Postponed(c, l, item, t, reply), item.id);
            && s'.body
            && match reply.saving
               case Saved =>
                 && s'.meta == Some(Spool.Whole(item.(attempts := item.attempts + 1,
                                                      next := reply.finish + Spool.Delay(c, item.attempts + 1))))
                 && s'.tally == Some(t)
               case Untouched => s'.meta == s.meta && s'.tally == Some(t.(lost := t.lost + 1))
               case CutShort => s'.meta == Some(Spool.Torn) && s'.tally == Some(t)
  {
  }

  lemma PostponingKeepsOk(c: Config, l: Ledger, id: Id, now: Time, reply: Reply)
    requires SliceOf(l, id).Ok(c, id) && Timely(now, reply)
    requires SliceOf(l, id).Live() && l.metas[id].value.next <= now
    requires c.retryIntervals != [] && l.metas[id].value.attempts + 1 <= c.maxRetries
    ensures var t := TallyOf(l, id);
            SliceOf(Postponed(c, l, l.metas[id].value, t.(starts := t.starts + [reply.start]), reply), id).Ok(c, id)
  {
    var s := SliceOf(l, id);
    PostponedSlice(c, l, l.metas[id].value, reply);
    if s.tally.value.Smooth() {
      OneMoreStart(c, s, now, reply.start);
    }
  }

  lemma AttemptKeepsOk(c: Config, l: Ledger, id: Id, now: Time, reply: Reply)
    requires SliceOf(l, id).Ok(c, id) && SliceOf(l, id).Live() && Timely(now, reply)
    requires l.metas[id].value.next <= now
    ensures SliceOf(Attempted(c, l, l.metas[id].value, reply), id).Ok(c, id)
  {
    var item := l.metas[id].value;
    if reply.failure.None? || Spool.GivesUp(c, Relay.IsPermanent(reply.failure.value), item.attempts + 1) {
      EndedSlice(c, l, item, reply);
      EndKeepsOk(c, SliceOf(l, id), SliceOf(Attempted(c, l, item, reply), id), id, now, reply);
    } else if c.retryIntervals != [] {
      PostponingKeepsOk(c, l, id, now, reply);
    }
  }

  lemma DropKeepsOk(c: Config, l: Ledger, id: Id, reply: Reply)
    requires SliceOf(l, id).Ok(c, id) && id in l.metas && l.metas[id].Whole? && id !in l.bodies
    ensures SliceOf(Attempted(c, l, l.metas[id].value, reply), id).Ok(c, id)
  {
  }

  lemma EventKeepsInv(c: Config, l: Ledger, e: Event)
    requires Inv(c, l) && Enabled(l, e)
    ensures Inv(c, Apply(c, l, e))
  {
    var l' := Apply(c, l, e);
    assert SliceOf(l, e.id).Ok(c, e.id);
    if e.Enqueue? {
      EnqueueKeepsOk(c, l, e);
    } else if l' != l {
      if e.id in l.bodies { AttemptKeepsOk(c, l, e.id, e.now, e.reply); }
      else { DropKeepsOk(c, l, e.id, e.reply); }
    }
    forall id ensures SliceOf(l', id).Ok(c, id) {
      if id != e.id { EventTouchesOne(c, l, e, id); }
    }
  }

  lemma {:induction false} RunKeepsInv(c: Config, l: Ledger, events: seq<Event>)
    requires Inv(c, l) && Possible(c, l, events)
    ensures Inv(c, Exec(c, l, events))
    decreases |events|
  {
    if events != [] {
      EventKeepsInv(c, l, events[0]);
      RunKeepsInv(c, Apply(c, l, events[0]), events[1..]);
    }
  }

  // ---------- what it means ----------

  ghost predicate Reachable(c: Config, l: Ledger) {
    exists events: seq<Event> :: Possible(c, NEW, events) && l == Exec(c, NEW, events)
  }

  lemma ReachableInv(c: Config, l: Ledger)
    requires Reachable(c, l)
    ensures Inv(c, l)
  {
    var events: seq<Event> :| Possible(c, NEW, events) && l == Exec(c, NEW, events);
    RunKeepsInv(c, NEW, events);
  }

  /** Every accepted mail is pending, stranded by a write cut short, or has had its one outcome; further
      outcomes come only from removals that got rid of neither file. */
  lemma OneFateEach(c: Config, l: Ledger, id: Id)
    requires Reachable(c, l) && id in l.tally
    ensures var s, t := SliceOf(l, id), l.tally[id];
            && t.relayed + t.givenUp == t.undone + (if s.Live() || s.Stuck() then 0 else 1)
            && (t.undone == 0 ==>
                  && !(t.relayed > 0 && t.givenUp > 0)
                  && (t.relayed + t.givenUp == 1 <==> id !in l.bodies || id !in l.metas))
  {
    ReachableInv(c, l);
    assert SliceOf(l, id).Ok(c, id);
  }

  /** No mail is offered more often than the limit allows, plus once for every failed attempt that could
      not be noted down and for every outcome that could not be cleared away. */
  lemma CallsAreBounded(c: Config, l: Ledger, id: Id)
    requires Reachable(c, l) && id in l.tally
    ensures |l.tally[id].starts| <= Cap(c) + 1 + l.tally[id].lost + l.tally[id].undone
  {
    ReachableInv(c, l);
    assert SliceOf(l, id).Ok(c, id);
  }

  /** How long the schedule makes a mail wait, all told, before its attempt number `k` (from 0). */
  function Waits(c: Config, k: nat): Time
    requires c.retryIntervals != []
  {
    if k == 0 then 0
    else
      var last := |c.retryIntervals| - 1;
      Waits(c, k - 1) + c.retryIntervals[if k - 1 < last then k - 1 else last]
  }

  lemma {:induction false} SpacingAddsUp(c: Config, starts: seq<Time>, k: nat)
    requires c.retryIntervals != [] && SpacedOut(c, starts) && k < |starts|
    ensures starts[k] >= starts[0] + Waits(c, k)
  {
    if k > 0 {
      SpacingAddsUp(c, starts, k - 1);
      assert starts[k] >= starts[k - 1] + Pause(c, k);
    }
  }

  /** Backoff: attempt number `k` of a mail starts no earlier than its first attempt and all the delays
      of the schedule in between, the last one standing in for those it does not list. */
  lemma BackoffIsHonoured(c: Config, l: Ledger, id: Id, k: nat)
    requires Reachable(c, l) && id in l.tally && l.tally[id].Smooth()
    requires c.retryIntervals != [] && k < |l.tally[id].starts|
    ensures l.tally[id].starts[k] >= l.tally[id].starts[0] + Waits(c, k)
  {
    ReachableInv(c, l);
    assert SliceOf(l, id).Ok(c, id);
    SpacingAddsUp(c, l.tally[id].starts, k);
  }

  // For mails with bad luck, by a clock that does not run backwards from one visit to the next.

  predicate IsDue(s: Slice, now: Time) {
    s.Live() && s.meta.value.value.next <= now
  }

  /** When the event is over; `last` is when the one before was. */
  function EndOf(l: Ledger, e: Event, last: Time): Time {
    if e.Enqueue? then last else if IsDue(SliceOf(l, e.id), e.now) then e.reply.finish else e.now
  }

  predicate Forward(c: Config, l: Ledger, events: seq<Event>, last: Time)
    decreases |events|
  {
    events == [] ||
    (&& (events[0].Visit? ==> last <= events[0].now)
     && Forward(c, Apply(c, l, events[0]), events[1..], EndOf(l, events[0], last)))
  }

  function ClockAfter(c: Config, l: Ledger, events: seq<Event>, last: Time): Time
    decreases |events|
  {
    if events == [] then last else ClockAfter(c, Apply(c, l, events[0]), events[1..], EndOf(l, events[0], last))
  }

  /** The failures the disk remembers have been waited for. */
  predicate WaitedFor(c: Config, s: Slice, last: Time)
    requires c.retryIntervals != []
  {
    s.tally.Some? && s.tally.value.starts != [] ==>
      var first := s.tally.value.starts[0];
      && first <= last
      && (s.Live() && s.meta.value.value.attempts > 0 ==>
            s.meta.value.value.next >= first + Waits(c, s.meta.value.value.attempts))
  }

  lemma EndWaits(c: Config, l: Ledger, id: Id, now: Time, reply: Reply, last: Time)
    requires c.retryIntervals != [] && SliceOf(l, id).Ok(c, id) && WaitedFor(c, SliceOf(l, id), last)
    requires IsDue(SliceOf(l, id), now) && Timely(now, reply) && last <= now
    requires reply.failure.None?
             || Spool.GivesUp(c, Relay.IsPermanent(reply.failure.value), l.metas[id].value.attempts + 1)
    ensures WaitedFor(c, SliceOf(Attempted(c, l, l.metas[id].value, reply), id), reply.finish)
  {
    EndedSlice(c, l, l.metas[id].value, reply);
  }

  lemma PostponementWaits(c: Config, l: Ledger, id: Id, now: Time, reply: Reply, last: Time)
    requires c.retryIntervals != [] && SliceOf(l, id).Ok(c, id) && WaitedFor(c, SliceOf(l, id), last)
    requires IsDue(SliceOf(l, id), now) && Timely(now, reply) && last <= now
    requires reply.failure.Some?
             && !Spool.GivesUp(c, Relay.IsPermanent(reply.failure.value), l.metas[id].value.attempts + 1)
    ensures WaitedFor(c, SliceOf(Attempted(c, l, l.metas[id].value, reply), id), reply.finish)
  {
    var item := l.metas[id].value;
    PostponedSlice(c, l, item, reply);
    var starts := l.tally[id].starts + [reply.start];
    assert starts[0] == if l.tally[id].starts == [] then reply.start else l.tally[id].starts[0];
    assert Waits(c, item.attempts + 1) == Waits(c, item.attempts) + Spool.Delay(c, item.attempts + 1);
  }

  lemma EventWaits(c: Config, l: Ledger, e: Event, last: Time, id: Id)
    requires c.retryIntervals != [] && Inv(c, l) && Enabled(l, e) && (e.Visit? ==> last <= e.now)
    requires WaitedFor(c, SliceOf(l, id), last)
    ensures WaitedFor(c, SliceOf(Apply(c, l, e), id), EndOf(l, e, last))
  {
    assert SliceOf(l, id).Ok(c, id);
    if id != e.id {
      EventTouchesOne(c, l, e, id);
    } else if e.Enqueue? {
      EnqueueSlice(l, e);
    } else if IsDue(SliceOf(l, id), e.now) {
      if e.reply.failure.None?
         || Spool.GivesUp(c, Relay.IsPermanent(e.reply.failure.value), l.metas[id].value.attempts + 1) {
        EndWaits(c, l, id, e.now, e.reply, last);
      } else {
        PostponementWaits(c, l, id, e.now, e.reply, last);
      }
    } else {
      VisitEarly(c, l, id, e.now, e.reply);
    }
  }

  /** A visit before the mail is due, or after it is gone, leaves its books alone. */
  lemma VisitEarly(c: Config, l: Ledger, id: Id, now: Time, reply: Reply)
    requires SliceOf(l, id).Ok(c, id) && !IsDue(SliceOf(l, id), now)
    ensures var s, s' := SliceOf(l, id), SliceOf(Visited(c, l, id, now, reply), id);
            s'.tally == s.tally && (s.Live() ==> s' == s) && (s'.Live() ==> s.Live())
  {
  }

  lemma {:induction false} RunWaits(c: Config, l: Ledger, events: seq<Event>, last: Time)
    requires c.retryIntervals != [] && Inv(c, l) && Possible(c, l, events) && Forward(c, l, events, last)
    requires forall id :: WaitedFor(c, SliceOf(l, id), last)
    ensures forall id :: WaitedFor(c, SliceOf(Exec(c, l, events), id), ClockAfter(c, l, events, last))
    decreases |events|
  {
    if events != [] {
      EventKeepsInv(c, l, events[0]);
      forall id ensures WaitedFor(c, SliceOf(Apply(c, l, events[0]), id), EndOf(l, events[0], last)) {
        EventWaits(c, l, events[0], last, id);
      }
      RunWaits(c, Apply(c, l, events[0]), events[1..], EndOf(l, events[0], last));
    }
  }

  /** Backoff for every mail: when one is due that was tried before, its first attempt and the delays for
      all failures the disk remembers lie behind; those are its attempts but for the ones whose failure
      could not be written down or whose files could not be removed. */
  lemma DueOnlyAfterBackoff(c: Config, events: seq<Event>, l: Ledger, begin: Time, id: Id, now: Time)
    requires c.retryIntervals != [] && Possible(c, NEW, events) && l == Exec(c, NEW, events)
    requires Forward(c, NEW, events, begin) && ClockAfter(c, NEW, events, begin) <= now
    requires IsDue(SliceOf(l, id), now)
    ensures id in l.tally
    ensures l.tally[id].starts != [] ==>
              var t := l.tally[id];
              && t.lost + t.undone <= |t.starts|
              && now >= t.starts[0] + Waits(c, |t.starts| - t.lost - t.undone)
  {
    RunKeepsInv(c, NEW, events);
    RunWaits(c, NEW, events, begin);
    assert SliceOf(l, id).Ok(c, id) && WaitedFor(c, SliceOf(l, id), ClockAfter(c, NEW, events, begin));
  }

  // ---------- retrying comes to an end ----------

  /** The attempts a mail has left. */
  function Left(c: Config, s: Slice): int {
    if s.Live() then Cap(c) + 1 - s.meta.value.value.attempts else 0
  }

  function TotalLeft(c: Config, l: Ledger, ids: seq<Id>): int {
    if ids == [] then 0 else Left(c, SliceOf(l, ids[0])) + TotalLeft(c, l, ids[1..])
  }

  /** Does the disk show that this attempt took place? */
  predicate LeavesTrace(c: Config, item: Item, reply: Reply) {
    if reply.failure.None? || Spool.GivesUp(c, Relay.IsPermanent(reply.failure.value), item.attempts + 1)
    then !reply.removing.Neither?
    else c.retryIntervals != [] && !reply.saving.Untouched?
  }

  lemma AttemptUsesUp(c: Config, l: Ledger, id: Id, now: Time, reply: Reply)
    requires SliceOf(l, id).Ok(c, id) && IsDue(SliceOf(l, id), now)
    ensures var before, after := Left(c, SliceOf(l, id)), Left(c, SliceOf(Visited(c, l, id, now, reply), id));
            && after >= 0
            && (if LeavesTrace(c, l.metas[id].value, reply) then after < before else after == before)
  {
    var item := l.metas[id].value;
    if reply.failure.None? || Spool.GivesUp(c, Relay.IsPermanent(reply.failure.value), item.attempts + 1) {
      EndedSlice(c, l, item, reply);
    } else if c.retryIntervals != [] {
      PostponedSlice(c, l, item, reply);
    }
  }

  lemma {:induction false} OthersLeft(c: Config, l: Ledger, e: Event, ids: seq<Id>)
    requires Inv(c, l) && e.id !in ids
    ensures TotalLeft(c, Apply(c, l, e), ids) == TotalLeft(c, l, ids)
  {
    if ids != [] {
      EventTouchesOne(c, l, e, ids[0]);
      OthersLeft(c, l, e, ids[1..]);
    }
  }

  lemma {:induction false} OneLeft(c: Config, l: Ledger, e: Event, ids: seq<Id>)
    requires Inv(c, l) && Distinct(ids) && e.id in ids
    ensures TotalLeft(c, Apply(c, l, e), ids) - TotalLeft(c, l, ids)
            == Left(c, SliceOf(Apply(c, l, e), e.id)) - Left(c, SliceOf(l, e.id))
  {
    if ids[0] == e.id {
      OthersLeft(c, l, e, ids[1..]);
    } else {
      EventTouchesOne(c, l, e, ids[0]);
      OneLeft(c, l, e, ids[1..]);
    }
  }

  /** The attempts left to all mails together go down with every attempt the disk shows, and with no
      other. */
  lemma EveryAttemptUsesUp(c: Config, l: Ledger, ids: seq<Id>, e: Event)
    requires Inv(c, l) && Distinct(ids) && e.Visit? && e.id in ids && IsDue(SliceOf(l, e.id), e.now)
    ensures var before, after := TotalLeft(c, l, ids), TotalLeft(c, Apply(c, l, e), ids);
            if LeavesTrace(c, l.metas[e.id].value, e.reply) then after < before else after == before
  {
    assert SliceOf(l, e.id).Ok(c, e.id);
    AttemptUsesUp(c, l, e.id, e.now, e.reply);
    OneLeft(c, l, e, ids);
  }

  lemma {:induction false} NeverOverdrawn(c: Config, l: Ledger, ids: seq<Id>)
    requires Inv(c, l)
    ensures TotalLeft(c, l, ids) >= 0
  {
    if ids != [] {
      assert SliceOf(l, ids[0]).Ok(c, ids[0]);
      NeverOverdrawn(c, l, ids[1..]);
    }
  }

  /** The attempts of a run that the disk shows. */
  function Traces(c: Config, l: Ledger, events: seq<Event>): nat
    decreases |events|
  {
    if events == [] then 0
    else
      var e := events[0];
      Traces(c, Apply(c, l, e), events[1..])
      + if e.Visit? && IsDue(SliceOf(l, e.id), e.now) && LeavesTrace(c, l.metas[e.id].value, e.reply) then 1 else 0
  }

  lemma VisitUsesUp(c: Config, l: Ledger, ids: seq<Id>, e: Event)
    requires Inv(c, l) && Distinct(ids) && e.Visit? && e.id in ids
    ensures TotalLeft(c, Apply(c, l, e), ids) <= TotalLeft(c, l, ids)
    ensures IsDue(SliceOf(l, e.id), e.now) && LeavesTrace(c, l.metas[e.id].value, e.reply) ==>
              TotalLeft(c, Apply(c, l, e), ids) < TotalLeft(c, l, ids)
  {
    if IsDue(SliceOf(l, e.id), e.now) {
      EveryAttemptUsesUp(c, l, ids, e);
    } else {
      assert SliceOf(l, e.id).Ok(c, e.id);
      VisitEarly(c, l, e.id, e.now, e.reply);
      OneLeft(c, l, e, ids);
    }
  }

  /** A spool that nothing is added to runs dry: however it is swept, no more attempts leave a trace than
      its mails had left together. */
  lemma {:induction false} RunsDry(c: Config, l: Ledger, ids: seq<Id>, events: seq<Event>)
    requires Inv(c, l) && Distinct(ids) && Possible(c, l, events)
    requires forall e :: e in events ==> e.Visit? && e.id in ids
    ensures Traces(c, l, events) + TotalLeft(c, Exec(c, l, events), ids) <= TotalLeft(c, l, ids)
    ensures Traces(c, l, events) <= TotalLeft(c, l, ids)
    decreases |events|
  {
    if events == [] {
      NeverOverdrawn(c, l, ids);
    } else {
      assert events[0] in events;
      EventKeepsInv(c, l, events[0]);
      VisitUsesUp(c, l, ids, events[0]);
      RunsDry(c, Apply(c, l, events[0]), ids, events[1..]);
    }
  }

  // ---------- one sweep ----------

  /** `processAll` over a listing. */
  function Swept(c: Config, l: Ledger, listing: seq<Id>, now: Time, replies: Id -> Reply): Ledger {
    if listing == [] then l
    else
      var last := listing[|listing| - 1];
      Visited(c, Swept(c, l, listing[..|listing| - 1], now, replies), last, now, replies(last))
  }

  predicate AllTimely(listing: seq<Id>, now: Time, replies: Id -> Reply) {
    forall id :: id in listing ==> Timely(now, replies(id))
  }

  lemma {:induction false} SweepKeepsInv(c: Config, l: Ledger, listing: seq<Id>, now: Time, replies: Id -> Reply)
    requires Inv(c, l) && AllTimely(listing, now, replies)
    ensures Inv(c, Swept(c, l, listing, now, replies))
  {
    if listing != [] {
      var front, last := listing[..|listing| - 1], listing[|listing| - 1];
      SweepKeepsInv(c, l, front, now, replies);
      EventKeepsInv(c, Swept(c, l, front, now, replies), Visit(last, now, replies(last)));
    }
  }

  lemma {:induction false} SweepTouchesListed(c: Config, l: Ledger, listing: seq<Id>, now: Time, replies: Id -> Reply,
                                              id: Id)
    requires Inv(c, l) && AllTimely(listing, now, replies) && id !in listing
    ensures SliceOf(Swept(c, l, listing, now, replies), id) == SliceOf(l, id)
  {
    if listing != [] {
      var front, last := listing[..|listing| - 1], listing[|listing| - 1];
      SweepTouchesListed(c, l, front, now, replies, id);
      SweepKeepsInv(c, l, front, now, replies);
      EventTouchesOne(c, Swept(c, l, front, now, replies), Visit(last, now, replies(last)), id);
    }
  }

  function Starts(l: Ledger, id: Id): seq<Time> {
    TallyOf(l, id).starts
  }

  lemma VisitStarts(c: Config, l: Ledger, id: Id, now: Time, reply: Reply)
    requires SliceOf(l, id).Ok(c, id)
    ensures Starts(Visited(c, l, id, now, reply), id)
            == Starts(l, id) + (if IsDue(SliceOf(l, id), now) then [reply.start] else [])
  {
  }

  /** One sweep offers every mail that is pending and due exactly once, and no other mail at all. */
  lemma {:induction false} SweepOffersTheDueOnce(c: Config, l: Ledger, listing: seq<Id>, now: Time,
                                                 replies: Id -> Reply, id: Id)
    requires Inv(c, l) && AllTimely(listing, now, replies) && Distinct(listing)
    ensures Starts(Swept(c, l, listing, now, replies), id)
            == Starts(l, id) + (if id in listing && IsDue(SliceOf(l, id), now) then [replies(id).start] else [])
  {
    if listing != [] {
      var front, last := listing[..|listing| - 1], listing[|listing| - 1];
      var before := Swept(c, l, front, now, replies);
      SweepKeepsInv(c, l, front, now, replies);
      SweepOffersTheDueOnce(c, l, front, now, replies, id);
      if id == last {
        SweepTouchesListed(c, l, front, now, replies, id);
        assert SliceOf(before, id).Ok(c, id);
        VisitStarts(c, before, id, now, replies(id));
      } else {
        EventTouchesOne(c, before, Visit(last, now, replies(last)), id);
        assert SliceOf(Swept(c, l, listing, now, replies), id).tally == SliceOf(before, id).tally;
      }
    }
  }
}
