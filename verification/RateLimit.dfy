/** The failed-login limiter: a sliding window per key, pruned in place, with temporary bans and a
    background sweep.

    `Table` and `Step` are what the code keeps and does.  `Since` and `BannedUntil` are the reference:
    they read the whole event history of one key, prune nothing and never hear of a sweep.  Times are
    nanoseconds counted from Go's zero `time.Time`, so an entry that was never banned has
    `bannedUntil == 0` and every clock reading is positive. */
module RateLimit {

  type Time = int

  datatype Config = Config(maxAttempts: int, window: int, banDuration: int)

  datatype Entry = Entry(failures: seq<Time>, bannedUntil: Time)

  type Table = map<string, Entry>

  const NO_ENTRY := Entry([], 0)

  datatype Event =
    | Ask(key: string, at: Time)
    | Failure(key: string, at: Time)
    | Success(key: string, at: Time)
    | Sweep(at: Time)

  /** A run of the limiter, latest event outermost. */
  datatype History = Start | Then(past: History, event: Event)

  // ---------- what the code does, on values ----------

  /** The times strictly after `cutoff`, in order. */
  function After(times: seq<Time>, cutoff: Time): seq<Time> {
    if times == [] then
      []
    else
      var rest := After(times[..|times| - 1], cutoff);
      if times[|times| - 1] > cutoff then rest + [times[|times| - 1]] else rest
  }

  function Lookup(t: Table, key: string): Entry {
    if key in t then t[key] else NO_ENTRY
  }

  /** The answer of `Allowed`. */
  predicate AllowedAt(t: Table, key: string, now: Time) {
    key !in t || now > t[key].bannedUntil
  }

  function AfterFailure(c: Config, e: Entry, now: Time): Entry {
    var kept := After(e.failures, now - c.window) + [now];
    if |kept| >= c.maxAttempts then Entry([], now + c.banDuration) else Entry(kept, e.bannedUntil)
  }

  predicate NoneAfter(times: seq<Time>, cutoff: Time) {
    forall i :: 0 <= i < |times| ==> times[i] <= cutoff
  }

  /** Does `cleanup` drop this entry? */
  predicate Droppable(c: Config, e: Entry, now: Time) {
    now >= e.bannedUntil && NoneAfter(e.failures, now - c.window)
  }

  function Swept(c: Config, t: Table, now: Time): Table {
    map k | k in t && !Droppable(c, t[k], now) :: t[k]
  }

  function Step(c: Config, t: Table, e: Event): Table {
    match e
    case Ask(_, _) => t
    case Failure(key, at) => t[key := AfterFailure(c, Lookup(t, key), at)]
    case Success(key, _) => t - {key}
    case Sweep(at) => Swept(c, t, at)
  }

  function Run(c: Config, h: History): Table {
    match h
    case Start => map[]
    case Then(past, e) => Step(c, Run(c, past), e)
  }

  /** Does recording a failure at `now` start a ban? */
  predicate StartsBan(c: Config, t: Table, key: string, now: Time) {
    |After(Lookup(t, key).failures, now - c.window)| + 1 >= c.maxAttempts
  }

  // ---------- the reference: the full history of one key ----------

  /** Is the failure at `f` the one that reaches the limit, given all failures since the last reset? */
  predicate Triggers(c: Config, since: seq<Time>, f: Time) {
    |After(since, f - c.window)| + 1 >= c.maxAttempts
  }

  /** Every failure of `key` after the later of its last success and its last trigger. */
  function Since(c: Config, h: History, key: string): seq<Time> {
    match h
    case Start => []
    case Then(past, Failure(k, f)) =>
      var before := Since(c, past, key);
      if k != key then before else if Triggers(c, before, f) then [] else before + [f]
    case Then(past, Success(k, _)) => if k == key then [] else Since(c, past, key)
    case Then(past, _) => Since(c, past, key)
  }

  /** The time of the last trigger of `key`, forgotten at a success; 0 if there is none. */
  function LastTrigger(c: Config, h: History, key: string): Time {
    match h
    case Start => 0
    case Then(past, Failure(k, f)) =>
      if k == key && Triggers(c, Since(c, past, key), f) then f else LastTrigger(c, past, key)
    case Then(past, Success(k, _)) => if k == key then 0 else LastTrigger(c, past, key)
    case Then(past, _) => LastTrigger(c, past, key)
  }

  /** End of the ban started by the last trigger, 0 if there is none. */
  function BannedUntil(c: Config, h: History, key: string): Time {
    if LastTrigger(c, h, key) == 0 then 0 else LastTrigger(c, h, key) + c.banDuration
  }

  function LastTime(h: History): Time {
    if h.Start? then 0 else h.event.at
  }

  function LastSweep(h: History): Time {
    match h
    case Start => 0
    case Then(_, Sweep(at)) => at
    case Then(past, _) => LastSweep(past)
  }

  /** The clock never runs backwards and is past the zero time. */
  predicate Ordered(h: History) {
    match h
    case Start => true
    case Then(past, e) => Ordered(past) && LastTime(past) <= e.at && 0 < e.at
  }

  // ---------- refinement ----------

  lemma AfterConcat(a: seq<Time>, b: seq<Time>, cutoff: Time)
    ensures After(a + b, cutoff) == After(a, cutoff) + After(b, cutoff)
  {
    if b == [] {
      assert a + b == a;
    } else {
      var n := |b| - 1;
      assert (a + b)[..|a + b| - 1] == a + b[..n];
      AfterConcat(a, b[..n], cutoff);
    }
  }

  lemma AfterAppend(a: seq<Time>, t: Time, cutoff: Time)
    ensures After(a + [t], cutoff) == After(a, cutoff) + if t > cutoff then [t] else []
  {
    assert (a + [t])[..|a|] == a;
  }

  lemma AfterTwice(s: seq<Time>, low: Time, high: Time)
    requires low <= high
    ensures After(After(s, low), high) == After(s, high)
  {
    if s != [] {
      var n := |s| - 1;
      AfterTwice(s[..n], low, high);
      AfterAppend(After(s[..n], low), s[n], high);
    }
  }

  lemma AfterNone(s: seq<Time>, cutoff: Time)
    requires NoneAfter(s, cutoff)
    ensures After(s, cutoff) == []
  {
    if s != [] {
      AfterNone(s[..|s| - 1], cutoff);
    }
  }

  lemma AfterMonotone(s: seq<Time>, low: Time, high: Time)
    requires low <= high
    ensures |After(s, high)| <= |After(s, low)|
  {
    if s != [] {
      AfterMonotone(s[..|s| - 1], low, high);
    }
  }

  /** Exactly the times after the cutoff are kept, each as often as it occurs. */
  lemma {:induction false} AfterKeeps(s: seq<Time>, cutoff: Time, t: Time)
    ensures multiset(After(s, cutoff))[t] == if t > cutoff then multiset(s)[t] else 0
  {
    if s != [] {
      var n := |s| - 1;
      AfterKeeps(s[..n], cutoff, t);
      assert s == s[..n] + [s[n]];
    }
  }

  predicate SameAt(a: seq<Time>, b: seq<Time>, cut: Time) {
    After(a, cut) == After(b, cut)
  }

  /** The two lists hold the same failures inside every window still to come. */
  ghost predicate SameFrom(a: seq<Time>, b: seq<Time>, low: Time) {
    forall cut :: cut >= low ==> SameAt(a, b, cut)
  }

  lemma SameAfterPruning(kept: seq<Time>, full: seq<Time>, low: Time, high: Time, f: Time)
    requires SameFrom(kept, full, low) && low <= high
    ensures SameFrom(After(kept, high) + [f], full + [f], high)
  {
    forall cut | cut >= high
      ensures SameAt(After(kept, high) + [f], full + [f], cut)
    {
      assert SameAt(kept, full, cut);
      AfterTwice(kept, high, cut);
      AfterAppend(After(kept, high), f, cut);
      AfterAppend(full, f, cut);
    }
  }

  lemma SameAsNothing(kept: seq<Time>, full: seq<Time>, low: Time, high: Time)
    requires SameFrom(kept, full, low) && low <= high && NoneAfter(kept, high)
    ensures SameFrom([], full, high)
  {
    forall cut | cut >= high
      ensures SameAt([], full, cut)
    {
      assert SameAt(kept, full, cut);
      AfterNone(kept, cut);
    }
  }

  lemma SameLater(a: seq<Time>, b: seq<Time>, low: Time, high: Time)
    requires SameFrom(a, b, low) && low <= high
    ensures SameFrom(a, b, high)
  {
  }

  /** The pruned list agrees with the full history, and the stored ban is the reference's unless a
      sweep dropped it after it ended. */
  ghost predicate Refines(c: Config, e: Entry, h: History, key: string) {
    && SameFrom(e.failures, Since(c, h, key), LastTime(h) - c.window)
    && (e.bannedUntil == BannedUntil(c, h, key)
        || (e.bannedUntil == 0 && BannedUntil(c, h, key) <= LastSweep(h)))
    && LastSweep(h) <= LastTime(h)
  }

  /** What an event does to the entry of one key. */
  function EntryStep(c: Config, was: Entry, e: Event, key: string): Entry {
    match e
    case Ask(_, _) => was
    case Failure(k, at) => if k == key then AfterFailure(c, was, at) else was
    case Success(k, _) => if k == key then NO_ENTRY else was
    case Sweep(at) => if Droppable(c, was, at) then NO_ENTRY else was
  }

  lemma StepByKey(c: Config, t: Table, e: Event, key: string)
    ensures Lookup(Step(c, t, e), key) == EntryStep(c, Lookup(t, key), e, key)
  {
  }

  lemma SameCount(c: Config, e: Entry, since: seq<Time>, low: Time, f: Time)
    requires SameFrom(e.failures, since, low) && low <= f - c.window
    ensures |After(e.failures, f - c.window)| + 1 >= c.maxAttempts <==> Triggers(c, since, f)
  {
    assert SameAt(e.failures, since, f - c.window);
  }

  lemma FailureEntry(c: Config, was: Entry, since: seq<Time>, low: Time, f: Time)
    requires SameFrom(was.failures, since, low) && low <= f - c.window
    ensures Triggers(c, since, f) ==> AfterFailure(c, was, f) == Entry([], f + c.banDuration)
    ensures !Triggers(c, since, f) ==>
              && AfterFailure(c, was, f).bannedUntil == was.bannedUntil
              && SameFrom(AfterFailure(c, was, f).failures, since + [f], f - c.window)
  {
    SameCount(c, was, since, low, f);
    SameAfterPruning(was.failures, since, low, f - c.window, f);
  }

  lemma FailureRefines(c: Config, was: Entry, past: History, key: string, f: Time)
    requires Refines(c, was, past, key) && LastTime(past) <= f && 0 < f
    ensures Refines(c, AfterFailure(c, was, f), Then(past, Failure(key, f)), key)
  {
    FailureEntry(c, was, Since(c, past, key), LastTime(past) - c.window, f);
    if Triggers(c, Since(c, past, key), f) {
      assert SameFrom([], [], f - c.window);
    }
  }

  lemma EntryRefines(c: Config, was: Entry, past: History, e: Event, key: string)
    requires Refines(c, was, past, key) && LastTime(past) <= e.at && 0 < e.at
    ensures Refines(c, EntryStep(c, was, e, key), Then(past, e), key)
  {
    var since, low := Since(c, past, key), LastTime(past) - c.window;
    SameLater(was.failures, since, low, e.at - c.window);
    if e.Failure? && e.key == key {
      FailureRefines(c, was, past, key, e.at);
    } else if e.Sweep? && Droppable(c, was, e.at) {
      SameAsNothing(was.failures, since, low, e.at - c.window);
    }
  }

  /** The invariant of every run: what the table keeps for a key refines that key's full history. */
  lemma {:induction false} RunRefines(c: Config, h: History, key: string)
    requires Ordered(h)
    ensures Refines(c, Lookup(Run(c, h), key), h, key)
  {
    if h.Then? {
      RunRefines(c, h.past, key);
      EntryRefines(c, Lookup(Run(c, h.past), key), h.past, h.event, key);
      StepByKey(c, Run(c, h.past), h.event, key);
    }
  }

  /** A failure at `f` starts a ban exactly when the full history says so: at least MaxAttempts
      failures, this one included, lie in the window ending at `f` among those since the last reset. */
  lemma BanExactlyOnFullHistory(c: Config, h: History, key: string, f: Time)
    requires Ordered(h) && LastTime(h) <= f && 0 < f
    ensures StartsBan(c, Run(c, h), key, f) <==> Triggers(c, Since(c, h, key), f)
  {
    RunRefines(c, h, key);
    SameCount(c, Lookup(Run(c, h), key), Since(c, h, key), LastTime(h) - c.window, f);
  }

  lemma CountWithLast(since: seq<Time>, f: Time, cutoff: Time)
    requires cutoff < f
    ensures |After(since + [f], cutoff)| == |After(since, cutoff)| + 1
  {
    AfterAppend(since, f, cutoff);
  }

  /** The same, counting the failures in (f - Window, f] outright. */
  lemma BanExactlyOnWindowCount(c: Config, h: History, key: string, f: Time)
    requires Ordered(h) && LastTime(h) <= f && 0 < f && c.window > 0
    ensures StartsBan(c, Run(c, h), key, f)
       <==> |After(Since(c, h, key) + [f], f - c.window)| >= c.maxAttempts
  {
    BanExactlyOnFullHistory(c, h, key, f);
    CountWithLast(Since(c, h, key), f, f - c.window);
  }

  /** A failure that starts a ban bans from that moment for BanDuration and clears the count. */
  lemma BanTakesEffect(c: Config, h: History, key: string, f: Time)
    requires Ordered(h) && LastTime(h) <= f && 0 < f && Triggers(c, Since(c, h, key), f)
    ensures Lookup(Run(c, Then(h, Failure(key, f))), key) == Entry([], f + c.banDuration)
  {
    BanExactlyOnFullHistory(c, h, key, f);
    StepByKey(c, Run(c, h), Failure(key, f), key);
  }

  /** `Allowed` answers from the full history at every later time that is past the last sweep. */
  lemma AllowedFollowsHistory(c: Config, h: History, key: string, now: Time)
    requires Ordered(h) && LastTime(h) <= now && LastSweep(h) < now
    ensures AllowedAt(Run(c, h), key, now) <==> now > BannedUntil(c, h, key)
  {
    RunRefines(c, h, key);
  }

  // ---------- sweeps are invisible, keys are independent ----------

  function WithoutSweeps(h: History): History {
    match h
    case Start => Start
    case Then(past, e) => if e.Sweep? then WithoutSweeps(past) else Then(WithoutSweeps(past), e)
  }

  lemma {:induction false} SweepsNotInHistory(c: Config, h: History, key: string)
    requires Ordered(h)
    ensures var bare := WithoutSweeps(h);
            && Ordered(bare) && LastTime(bare) <= LastTime(h) && LastSweep(bare) == 0
            && Since(c, bare, key) == Since(c, h, key)
            && LastTrigger(c, bare, key) == LastTrigger(c, h, key)
  {
    if h.Then? {
      SweepsNotInHistory(c, h.past, key);
    }
  }

  /** Inserting any number of sweeps into a run changes no later ban. */
  lemma CleanupChangesNoBan(c: Config, h: History, key: string, f: Time)
    requires Ordered(h) && LastTime(h) <= f && 0 < f
    ensures StartsBan(c, Run(c, h), key, f) <==> StartsBan(c, Run(c, WithoutSweeps(h)), key, f)
  {
    SweepsNotInHistory(c, h, key);
    BanExactlyOnFullHistory(c, h, key, f);
    BanExactlyOnFullHistory(c, WithoutSweeps(h), key, f);
  }

  /** Nor does it change an `Allowed` answer at a time strictly after the last of them. */
  lemma CleanupIsInvisible(c: Config, h: History, key: string, now: Time)
    requires Ordered(h) && LastTime(h) <= now && LastSweep(h) < now
    ensures AllowedAt(Run(c, h), key, now) <==> AllowedAt(Run(c, WithoutSweeps(h)), key, now)
  {
    SweepsNotInHistory(c, h, key);
    AllowedFollowsHistory(c, h, key, now);
    if 0 < now { AllowedFollowsHistory(c, WithoutSweeps(h), key, now); }
  }

  /** Exactly when a sweep can be seen: the question is put at the very instant the ban ends, and the
      entry that recorded the ban has been dropped. */
  lemma CleanupVisibleOnlyAtBanEnd(c: Config, h: History, key: string, now: Time)
    requires Ordered(h) && LastTime(h) <= now && 0 < now
    ensures (AllowedAt(Run(c, h), key, now) != AllowedAt(Run(c, WithoutSweeps(h)), key, now))
       <==> (BannedUntil(c, h, key) == now && Lookup(Run(c, h), key).bannedUntil != now)
  {
    RunRefines(c, h, key);
    SweepsNotInHistory(c, h, key);
    RunRefines(c, WithoutSweeps(h), key);
  }

  /** The boundary is real: one failure, a sweep at the instant the ban ends, and the answers differ. */
  lemma CleanupSeenAtBanEnd()
    ensures var c := Config(1, 1, 1);
            var h := Then(Then(Start, Failure("ip", 1)), Sweep(2));
            && Ordered(h)
            && AllowedAt(Run(c, h), "ip", 2)
            && !AllowedAt(Run(c, WithoutSweeps(h)), "ip", 2)
  {
    var c := Config(1, 1, 1);
    assert Run(c, Then(Start, Failure("ip", 1))) == map["ip" := Entry([], 2)];
  }

  function OnlyKey(h: History, key: string): History {
    match h
    case Start => Start
    case Then(past, e) => if e.Sweep? || e.key == key then Then(OnlyKey(past, key), e) else OnlyKey(past, key)
  }

  /** What the table holds for a key is what it would hold had no other key ever been seen. */
  lemma {:induction false} KeysAreIndependent(c: Config, h: History, key: string)
    ensures key in Run(c, h) <==> key in Run(c, OnlyKey(h, key))
    ensures Lookup(Run(c, h), key) == Lookup(Run(c, OnlyKey(h, key)), key)
  {
    if h.Then? {
      KeysAreIndependent(c, h.past, key);
    }
  }

  // ---------- the attempt bound ----------

  /** The latest event of `key` is a question that `Allowed` answered with yes. */
  predicate LetThrough(c: Config, h: History, key: string) {
    match h
    case Start => false
    case Then(past, Sweep(_)) => LetThrough(c, past, key)
    case Then(past, Ask(k, at)) =>
      if k == key then AllowedAt(Run(c, past), key, at) else LetThrough(c, past, key)
    case Then(past, e) => if e.key == key then false else LetThrough(c, past, key)
  }

  /** Callers ask before every attempt, one attempt of a key at a time, and obey the answer. */
  predicate Guarded(c: Config, h: History) {
    match h
    case Start => true
    case Then(past, e) => Guarded(c, past) && (e.Failure? ==> LetThrough(c, past, e.key))
  }

  /** Number of failures recorded for `key` in the span (low, high]. */
  function FailuresIn(h: History, key: string, low: Time, high: Time): nat {
    match h
    case Start => 0
    case Then(past, e) =>
      FailuresIn(past, key, low, high) + if e.Failure? && e.key == key && low < e.at <= high then 1 else 0
  }

  predicate NoSuccessIn(h: History, key: string, low: Time, high: Time) {
    match h
    case Start => true
    case Then(past, e) =>
      NoSuccessIn(past, key, low, high) && !(e.Success? && e.key == key && low < e.at <= high)
  }

  function Limit(c: Config): nat {
    if c.maxAttempts < 1 then 1 else c.maxAttempts
  }

  lemma {:induction false} TriggerInThePast(c: Config, h: History, key: string)
    requires Ordered(h)
    ensures 0 <= LastTrigger(c, h, key) <= LastTime(h)
  {
    if h.Then? { TriggerInThePast(c, h.past, key); }
  }

  /** Between a trigger and the next attempt that is let through lies at least a whole ban. */
  lemma {:induction false} GuardWaitsOutTheBan(c: Config, h: History, key: string)
    requires Ordered(h) && LetThrough(c, h, key) && LastTrigger(c, h, key) > 0
    ensures LastTime(h) >= LastTrigger(c, h, key) + c.banDuration
  {
    match h
    case Then(past, e) =>
      if e.Ask? && e.key == key {
        RunRefines(c, past, key);
      } else {
        GuardWaitsOutTheBan(c, past, key);
      }
  }

  /** The invariant behind the bound, for the failures later than `low`. */
  ghost predicate Bounded(c: Config, h: History, key: string, low: Time, high: Time) {
    var n := FailuresIn(h, key, low, high);
    var trigger := LastTrigger(c, h, key);
    && n <= Limit(c)
    && (trigger == 0 || trigger <= low ==> n == |After(Since(c, h, key), low)| < Limit(c))
  }

  lemma {:induction false} NothingAfter(c: Config, h: History, key: string, low: Time, high: Time)
    requires Ordered(h) && LastTime(h) <= low
    ensures FailuresIn(h, key, low, high) == 0 && NoSuccessIn(h, key, low, high)
  {
    if h.Then? { NothingAfter(c, h.past, key, low, high); }
  }

  lemma {:induction false} SpanUpToNowBounded(c: Config, h: History, key: string, low: Time, high: Time)
    requires Ordered(h) && Guarded(c, h) && c.banDuration >= c.window > 0
    requires LastTime(h) <= high && low >= LastTime(h) - c.window && NoSuccessIn(h, key, low, high)
    ensures Bounded(c, h, key, low, high)
  {
    match h
    case Start =>
    case Then(past, e) =>
      SpanUpToNowBounded(c, past, key, low, high);
      match e {
        case Failure(k, f) =>
          if k == key {
            TriggerInThePast(c, past, key);
            if LastTrigger(c, past, key) > 0 { GuardWaitsOutTheBan(c, past, key); }
            AfterMonotone(Since(c, past, key), f - c.window, low);
            AfterAppend(Since(c, past, key), f, low);
            if f <= low { NothingAfter(c, past, key, low, high); }
          }
        case Success(k, s) =>
          if k == key { NothingAfter(c, past, key, low, high); }
        case _ =>
      }
  }

  /** With callers that ask first and a ban at least as long as the window, no span of one window
      without a success holds more than MaxAttempts recorded failures of a key (one, should
      MaxAttempts be below one). */
  lemma {:induction false} AttemptBound(c: Config, h: History, key: string, t: Time)
    requires Ordered(h) && Guarded(c, h) && c.banDuration >= c.window
    requires NoSuccessIn(h, key, t - c.window, t)
    ensures FailuresIn(h, key, t - c.window, t) <= Limit(c)
  {
    match h
    case Start =>
    case Then(past, e) =>
      if c.window <= 0 || e.at > t {
        AttemptBound(c, past, key, t);
      } else {
        SpanUpToNowBounded(c, h, key, t - c.window, t);
      }
  }

  // ---------- what a shorter ban lets through ----------

  /** `n` questions, each followed by a failure, all at one instant. */
  function Tries(n: nat, key: string): History {
    if n == 0 then Start else Then(Then(Tries(n - 1, key), Ask(key, 1)), Failure(key, 1))
  }

  function Ones(n: nat): (s: seq<Time>)
    ensures |s| == n
  {
    if n == 0 then [] else Ones(n - 1) + [1]
  }

  lemma {:induction false} OnesAreAfter(n: nat, cutoff: Time)
    requires cutoff < 1
    ensures After(Ones(n), cutoff) == Ones(n)
  {
    if n > 0 {
      OnesAreAfter(n - 1, cutoff);
      AfterAppend(Ones(n - 1), 1, cutoff);
    }
  }

  lemma OneTry(c: Config, n: nat)
    requires c.window > 0 && n < Limit(c)
    ensures AfterFailure(c, Entry(Ones(n), 0), 1)
         == if n + 1 < Limit(c) then Entry(Ones(n + 1), 0) else Entry([], 1 + c.banDuration)
  {
    OnesAreAfter(n, 1 - c.window);
    assert Ones(n + 1) == Ones(n) + [1];
  }

  /** Below the limit every try is kept; the one that reaches it starts a ban. */
  lemma {:induction false} TriesAreKept(c: Config, n: nat, key: string)
    requires c.window > 0 && n <= Limit(c)
    ensures Lookup(Run(c, Tries(n, key)), key)
         == if n < Limit(c) then Entry(Ones(n), 0) else Entry([], 1 + c.banDuration)
  {
    if n == 0 {
      assert Tries(0, key) == Start && Ones(0) == [];
    } else {
      var past := Tries(n - 1, key);
      var asked := Then(past, Ask(key, 1));
      TriesAreKept(c, n - 1, key);
      StepByKey(c, Run(c, past), Ask(key, 1), key);
      assert Lookup(Run(c, asked), key) == Entry(Ones(n - 1), 0);
      StepByKey(c, Run(c, asked), Failure(key, 1), key);
      OneTry(c, n - 1);
      assert Tries(n, key) == Then(asked, Failure(key, 1));
    }
  }

  lemma {:induction false} TriesAreGuarded(c: Config, n: nat, key: string, low: Time, high: Time)
    requires c.window > 0 && n <= Limit(c) && low < 1 <= high
    ensures Guarded(c, Tries(n, key)) && Ordered(Tries(n, key)) && LastTime(Tries(n, key)) <= 1
    ensures FailuresIn(Tries(n, key), key, low, high) == n && NoSuccessIn(Tries(n, key), key, low, high)
  {
    if n > 0 {
      TriesAreGuarded(c, n - 1, key, low, high);
      TriesAreKept(c, n - 1, key);
      assert AllowedAt(Run(c, Tries(n - 1, key)), key, 1);
      assert LetThrough(c, Then(Tries(n - 1, key), Ask(key, 1)), key);
    }
  }

  /** The limit's worth of tries, and one more as soon as the ban is over and swept away. */
  function OneTooMany(c: Config, key: string, at: Time): History {
    Then(Then(Then(Tries(Limit(c), key), Sweep(at)), Ask(key, at)), Failure(key, at))
  }

  lemma ShortBanLetsOneMore(c: Config, key: string, at: Time)
    requires c.window > 0 && c.banDuration < c.window
    requires at == if c.banDuration > 0 then 1 + c.banDuration else 1
    ensures var h := OneTooMany(c, key, at);
            && Guarded(c, h) && Ordered(h) && NoSuccessIn(h, key, at - c.window, at)
            && FailuresIn(h, key, at - c.window, at) == Limit(c) + 1
  {
    var tries := Tries(Limit(c), key);
    TriesAreGuarded(c, Limit(c), key, at - c.window, at);
    TriesAreKept(c, Limit(c), key);
    var swept := Then(tries, Sweep(at));
    var asked := Then(swept, Ask(key, at));
    assert key !in Run(c, swept);
    assert LetThrough(c, asked, key);
    assert FailuresIn(asked, key, at - c.window, at) == Limit(c);
    assert OneTooMany(c, key, at) == Then(asked, Failure(key, at));
  }

  /** The limit, for the span of one window up to `t`. */
  predicate WithinLimit(c: Config, h: History, key: string, t: Time) {
    NoSuccessIn(h, key, t - c.window, t) ==> FailuresIn(h, key, t - c.window, t) <= Limit(c)
  }

  /** For callers that ask first, the limit holds in every window of every run exactly when a ban lasts at
      least a window (or the window is empty). */
  lemma AttemptBoundIff(c: Config)
    ensures (forall h, key, t :: Ordered(h) && Guarded(c, h) ==> WithinLimit(c, h, key, t))
       <==> (c.window <= 0 || c.banDuration >= c.window)
  {
    if c.window <= 0 || c.banDuration >= c.window {
      forall h, key, t | Ordered(h) && Guarded(c, h) ensures WithinLimit(c, h, key, t) {
        if c.window <= 0 {
          EmptySpan(h, key, t - c.window, t);
        } else if NoSuccessIn(h, key, t - c.window, t) {
          AttemptBound(c, h, key, t);
        }
      }
    } else {
      var at := if c.banDuration > 0 then 1 + c.banDuration else 1;
      ShortBanLetsOneMore(c, "ip", at);
      assert !WithinLimit(c, OneTooMany(c, "ip", at), "ip", at);
    }
  }

  lemma {:induction false} EmptySpan(h: History, key: string, low: Time, high: Time)
    requires low >= high
    ensures FailuresIn(h, key, low, high) == 0
  {
    if h.Then? { EmptySpan(h.past, key, low, high); }
  }

  /** A sweep leaves an entry exactly when its ban still runs or one of its failures may still count, and
      leaves it as it is. */
  lemma SweepLeavesIff(c: Config, t: Table, now: Time, key: string)
    requires key in t
    ensures var left := Step(c, t, Sweep(now));
            && (key in left <==> now < t[key].bannedUntil
                                 || exists i :: 0 <= i < |t[key].failures| && t[key].failures[i] > now - c.window)
            && (key in left ==> left[key] == t[key])
  {
  }

  // ---------- the limiter itself ----------

  /** One entry of the limiter. */
  class Cell {
    var failures: seq<Time>
    var bannedUntil: Time

    ghost function Value(): Entry
      reads this
    {
      Entry(failures, bannedUntil)
    }

    constructor ()
      ensures Value() == NO_ENTRY
    {
      failures, bannedUntil := [], 0;
    }

    /** Keeps the times after `cutoff`, sliding them to the front of the list being read. */
    method Prune(cutoff: Time)
      modifies this`failures
      ensures failures == After(old(failures), cutoff)
    {
      var kept, n := 0, |failures|;
      ghost var was := failures;
      for i := 0 to n
        invariant kept <= i <= n == |was| == |failures|
        invariant failures[..kept] == After(was[..i], cutoff)
        invariant failures[i..] == was[i..]
      {
        var t := failures[i];
        assert t == was[i] && was[..i + 1][..i] == was[..i];
        assert failures[i + 1..] == was[i + 1..];
        if t > cutoff {
          failures := failures[kept := t];
          kept := kept + 1;
        }
      }
      assert was[..n] == was;
      failures := failures[..kept];
    }

    method Fail(c: Config, now: Time)
      modifies this
      ensures Value() == AfterFailure(c, old(Value()), now)
    {
      Prune(now - c.window);
      failures := failures + [now];
      if |failures| >= c.maxAttempts {
        bannedUntil := now + c.banDuration;
        failures := [];
      }
    }

    method CanDrop(c: Config, now: Time) returns (drop: bool)
      ensures drop <==> Droppable(c, Value(), now)
    {
      if now < bannedUntil {
        return false;
      }
      for i := 0 to |failures|
        invariant forall j :: 0 <= j < i ==> failures[j] <= now - c.window
      {
        if failures[i] > now - c.window {
          return false;
        }
      }
      return true;
    }
  }

  /** The limiter: one cell per key.  `view` is what it holds, as a value. */
  class Limiter {
    const config: Config
    var entries: map<string, Cell>
    ghost var view: Table
    ghost var Repr: set<object>

    ghost predicate Valid()
      reads this, Repr
    {
      && this in Repr
      && view.Keys == entries.Keys
      && (forall k :: k in entries ==> entries[k] in Repr && entries[k].Value() == view[k])
      && (forall k, l :: k in entries && l in entries && k != l ==> entries[k] != entries[l])
    }

    constructor (config: Config)
      ensures Valid() && fresh(Repr) && this.config == config
      ensures view == Run(config, Start)
    {
      this.config := config;
      entries := map[];
      view := map[];
      Repr := {this};
    }

    method Allowed(key: string, now: Time) returns (ok: bool)
      requires Valid()
      ensures ok <==> AllowedAt(view, key, now)
    {
      if key !in entries {
        return true;
      }
      assert entries[key].Value() == view[key];
      return now > entries[key].bannedUntil;
    }

    /** Makes sure `key` has an entry; a new one is empty. */
    method EnsureEntry(key: string)
      requires Valid()
      modifies this
      ensures Valid() && fresh(Repr - old(Repr)) && old(Repr) <= Repr
      ensures view == old(view)[key := Lookup(old(view), key)]
    {
      if key !in entries {
        var cell := new Cell();
        entries := entries[key := cell];
        view := view[key := NO_ENTRY];
        Repr := Repr + {cell};
      }
    }

    /** Counts a failure in the entry of `key`; no other entry is touched. */
    method CountFailure(key: string, now: Time)
      requires Valid() && key in entries
      modifies Repr
      ensures Valid() && Repr == old(Repr)
      ensures view == old(view)[key := AfterFailure(config, old(view)[key], now)]
    {
      var e := entries[key];
      e.Fail(config, now);
      view := view[key := e.Value()];
    }

    method RecordFailure(key: string, now: Time)
      requires Valid()
      modifies Repr
      ensures Valid() && fresh(Repr - old(Repr))
      ensures view == Step(config, old(view), Failure(key, now))
    {
      EnsureEntry(key);
      CountFailure(key, now);
    }

    method RecordSuccess(key: string, now: Time)
      requires Valid()
      modifies this`entries, this`view
      ensures Valid() && view == Step(config, old(view), Success(key, now))
    {
      entries := entries - {key};
      view := view - {key};
    }

    method Cleanup(now: Time)
      requires Valid()
      modifies this`entries, this`view
      ensures Valid() && view == Step(config, old(view), Sweep(now))
    {
      var left := entries;
      var todo := entries.Keys;
      while todo != {}
        invariant todo <= left.Keys <= entries.Keys
        invariant forall k :: k in left ==> left[k] == entries[k]
        invariant forall k :: k in entries && k !in todo ==>
                    (k in left <==> !Droppable(config, view[k], now))
        modifies {}
      {
        var k :| k in todo;
        todo := todo - {k};
        var drop := entries[k].CanDrop(config, now);
        if drop {
          left := left - {k};
        }
      }
      entries := left;
      view := Swept(config, view, now);
    }
  }
}
