/** How IMAP LOGIN uses the limiter.  A login first asks and later, once the password has been checked,
    records the outcome; logins of other addresses and background sweeps fall in between as they like. */
module Logins {
  import opened RateLimit

  /** `Begin` consults the limiter, `Finish` records what the password check gave.  The address is "" when
      it is unknown; such a login is never limited. */
  datatype Act =
    | Begin(id: nat, ip: string, at: Time)
    | Finish(id: nat, correct: bool, at: Time)
    | CleanUp(at: Time)

  /** What the limiter has heard, the logins that were admitted and are not finished, and the clock. */
  datatype World = World(history: History, open: map<nat, string>, clock: Time)

  const START := World(Start, map[], 0)

  /** Is the password looked at? */
  predicate Admitted(c: Config, h: History, ip: string, at: Time) {
    ip == "" || AllowedAt(Run(c, h), ip, at)
  }

  function Asked(h: History, ip: string, at: Time): History {
    if ip == "" then h else Then(h, Ask(ip, at))
  }

  function Recorded(h: History, ip: string, correct: bool, at: Time): History {
    if ip == "" then h else Then(h, if correct then Success(ip, at) else Failure(ip, at))
  }

  /** An unfinished login has a number of its own; the clock does not run backwards. */
  predicate Possible(w: World, a: Act) {
    && 0 < a.at && w.clock <= a.at
    && (a.Begin? ==> a.id !in w.open)
    && (a.Finish? ==> a.id in w.open)
  }

  function Apply(c: Config, w: World, a: Act): World
    requires Possible(w, a)
  {
    match a
    case CleanUp(at) => World(Then(w.history, Sweep(at)), w.open, at)
    case Begin(id, ip, at) =>
      World(Asked(w.history, ip, at), if Admitted(c, w.history, ip, at) then w.open[id := ip] else w.open, at)
    case Finish(id, correct, at) =>
      World(Recorded(w.history, w.open[id], correct, at), w.open - {id}, at)
  }

  /** No login of an address begins while an admitted one of that address is unfinished. */
  predicate OneAtATime(w: World, a: Act) {
    a.Begin? && a.ip != "" ==> a.ip !in w.open.Values
  }

  predicate PossibleRun(c: Config, w: World, acts: seq<Act>)
    decreases |acts|
  {
    acts == [] || (Possible(w, acts[0]) && PossibleRun(c, Apply(c, w, acts[0]), acts[1..]))
  }

  function Exec(c: Config, w: World, acts: seq<Act>): World
    requires PossibleRun(c, w, acts)
    decreases |acts|
  {
    if acts == [] then w else Exec(c, Apply(c, w, acts[0]), acts[1..])
  }

  predicate Sequential(c: Config, w: World, acts: seq<Act>)
    requires PossibleRun(c, w, acts)
    decreases |acts|
  {
    acts == [] || (OneAtATime(w, acts[0]) && Sequential(c, Apply(c, w, acts[0]), acts[1..]))
  }

  /** The limiter's last word on every unfinished login was yes, and no two of them share an address. */
  ghost predicate Inv(c: Config, w: World) {
    && Guarded(c, w.history) && Ordered(w.history) && 0 <= LastTime(w.history) <= w.clock
    && (forall i :: i in w.open && w.open[i] != "" ==> LetThrough(c, w.history, w.open[i]))
    && (forall i, j :: i in w.open && j in w.open && w.open[i] == w.open[j] && w.open[i] != "" ==> i == j)
  }

  lemma ActKeepsInv(c: Config, w: World, a: Act)
    requires Inv(c, w) && Possible(w, a) && OneAtATime(w, a)
    ensures Inv(c, Apply(c, w, a))
  {
    if a.Begin? && a.ip != "" {
      forall i | i in w.open ensures w.open[i] != a.ip {
        assert w.open[i] in w.open.Values;
      }
    }
  }

  lemma {:induction false} RunKeepsInv(c: Config, w: World, acts: seq<Act>)
    requires Inv(c, w) && PossibleRun(c, w, acts) && Sequential(c, w, acts)
    ensures Inv(c, Exec(c, w, acts))
    decreases |acts|
  {
    if acts != [] {
      ActKeepsInv(c, w, acts[0]);
      RunKeepsInv(c, Apply(c, w, acts[0]), acts[1..]);
    }
  }

  /** When no address has two logins under way at once, every failure the limiter records was let through
      first, however logins of different addresses and sweeps interleave. */
  lemma LoginsAreGuarded(c: Config, acts: seq<Act>)
    requires PossibleRun(c, START, acts) && Sequential(c, START, acts)
    ensures var h := Exec(c, START, acts).history; Guarded(c, h) && Ordered(h)
  {
    RunKeepsInv(c, START, acts);
  }

  // ---------- how many wrong passwords ----------

  /** The unfinished logins of one address. */
  function OpenIn(open: map<nat, string>, ip: string): set<nat> {
    set i | i in open && open[i] == ip
  }

  function OpenOf(w: World, ip: string): set<nat> {
    OpenIn(w.open, ip)
  }

  /** Never more than `k` admitted logins of `ip` are unfinished at once. */
  predicate Within(c: Config, w: World, acts: seq<Act>, ip: string, k: nat)
    requires PossibleRun(c, w, acts)
    decreases |acts|
  {
    && |OpenOf(w, ip)| <= k
    && (acts == [] || Within(c, Apply(c, w, acts[0]), acts[1..], ip, k))
  }

  /** One at a time is the case of `k` being 1. */
  lemma {:induction false} SequentialIsWithinOne(c: Config, w: World, acts: seq<Act>, ip: string)
    requires Inv(c, w) && PossibleRun(c, w, acts) && Sequential(c, w, acts) && ip != ""
    ensures Within(c, w, acts, ip, 1)
    decreases |acts|
  {
    if i :| i in OpenOf(w, ip) {
      assert OpenOf(w, ip) == {i};
    }
    if acts != [] {
      ActKeepsInv(c, w, acts[0]);
      SequentialIsWithinOne(c, Apply(c, w, acts[0]), acts[1..], ip);
    }
  }

  lemma OneMoreOpen(open: map<nat, string>, id: nat, of: string, ip: string)
    requires id !in open
    ensures |OpenIn(open[id := of], ip)| == |OpenIn(open, ip)| + if of == ip then 1 else 0
  {
    assert OpenIn(open[id := of], ip) == OpenIn(open, ip) + if of == ip then {id} else {};
  }

  lemma OneLessOpen(open: map<nat, string>, id: nat, ip: string)
    requires id in open
    ensures |OpenIn(open - {id}, ip)| == |OpenIn(open, ip)| - if open[id] == ip then 1 else 0
  {
    if open[id] == ip {
      assert id in OpenIn(open, ip);
    }
    assert OpenIn(open - {id}, ip) == OpenIn(open, ip) - if open[id] == ip then {id} else {};
  }

  lemma OpenAfter(c: Config, w: World, a: Act, ip: string)
    requires Possible(w, a)
    ensures var w' := Apply(c, w, a);
            |OpenOf(w', ip)| == |OpenOf(w, ip)|
              + (if a.Begin? && a.ip == ip && Admitted(c, w.history, ip, a.at) then 1 else 0)
              - (if a.Finish? && w.open[a.id] == ip then 1 else 0)
  {
    match a
    case Begin(id, of, at) => OneMoreOpen(w.open, id, of, ip);
    case Finish(id, _, _) => OneLessOpen(w.open, id, ip);
    case CleanUp(_) =>
  }

  /** The count of failures later than `low`, with `open` logins still to come: before the first ban in the
      span it is below the limit, afterwards only those logins can add to it. */
  ghost predicate Counted(c: Config, h: History, ip: string, open: nat, k: nat, low: Time, high: Time) {
    var n, trigger := FailuresIn(h, ip, low, high), LastTrigger(c, h, ip);
    if trigger == 0 || trigger <= low then n == |After(Since(c, h, ip), low)| < Limit(c)
    else n + open < Limit(c) + k
  }

  lemma FailureCounts(c: Config, h: History, ip: string, f: Time, open: nat, k: nat, low: Time, high: Time)
    requires Ordered(h) && LastTime(h) <= f && 0 < f <= high && low == high - c.window && c.window > 0
    requires 0 < open <= k && Counted(c, h, ip, open, k, low, high)
    ensures Counted(c, Then(h, Failure(ip, f)), ip, open - 1, k, low, high)
  {
    TriggerInThePast(c, h, ip);
    AfterMonotone(Since(c, h, ip), f - c.window, low);
    AfterAppend(Since(c, h, ip), f, low);
    if f <= low { NothingAfter(c, h, ip, low, high); }
  }

  lemma SuccessCounts(c: Config, h: History, ip: string, at: Time, open: nat, k: nat, low: Time, high: Time)
    requires Ordered(h) && LastTime(h) <= at <= high && low == high - c.window
    requires NoSuccessIn(Then(h, Success(ip, at)), ip, low, high)
    ensures Counted(c, Then(h, Success(ip, at)), ip, open, k, low, high)
  {
    NothingAfter(c, h, ip, low, high);
  }

  /** Within a ban that began in the span nobody is admitted until the span is over. */
  lemma BannedForTheSpan(c: Config, h: History, ip: string, at: Time, low: Time, high: Time)
    requires Ordered(h) && LastTime(h) <= at <= high && low == high - c.window && c.banDuration >= c.window
    requires LastTrigger(c, h, ip) > low && LastTrigger(c, h, ip) != 0
    ensures !AllowedAt(Run(c, h), ip, at)
  {
    RunRefines(c, h, ip);
  }

  /** What holds of a world as long as the span lasts, and after. */
  ghost predicate Spanned(c: Config, w: World, ip: string, k: nat, low: Time, high: Time) {
    && Ordered(w.history) && 0 <= LastTime(w.history) <= w.clock
    && (NoSuccessIn(w.history, ip, low, high) ==>
          && FailuresIn(w.history, ip, low, high) < Limit(c) + k
          && (w.clock <= high ==> Counted(c, w.history, ip, |OpenOf(w, ip)|, k, low, high)))
  }

  lemma CountedIsBounded(c: Config, h: History, ip: string, open: nat, k: nat, low: Time, high: Time)
    requires k > 0 && Counted(c, h, ip, open, k, low, high)
    ensures FailuresIn(h, ip, low, high) < Limit(c) + k
  {
  }

  lemma BeginStaysSpanned(c: Config, w: World, a: Act, ip: string, k: nat, low: Time, high: Time)
    requires low == high - c.window && c.banDuration >= c.window > 0 && k > 0 && ip != ""
    requires Spanned(c, w, ip, k, low, high) && Possible(w, a) && a.Begin?
    ensures Spanned(c, Apply(c, w, a), ip, k, low, high)
  {
    OpenAfter(c, w, a, ip);
    var h := w.history;
    if a.ip == ip && a.at <= high && LastTrigger(c, h, ip) != 0 && LastTrigger(c, h, ip) > low {
      BannedForTheSpan(c, h, ip, a.at, low, high);
    }
  }

  lemma FinishStaysSpanned(c: Config, w: World, a: Act, ip: string, k: nat, low: Time, high: Time)
    requires low == high - c.window && c.banDuration >= c.window > 0 && k > 0 && ip != ""
    requires Spanned(c, w, ip, k, low, high) && Possible(w, a) && a.Finish? && |OpenOf(w, ip)| <= k
    ensures Spanned(c, Apply(c, w, a), ip, k, low, high)
  {
    OpenAfter(c, w, a, ip);
    var h, h' := w.history, Apply(c, w, a).history;
    if w.open[a.id] == ip && a.at <= high && NoSuccessIn(h', ip, low, high) {
      assert a.id in OpenOf(w, ip);
      if a.correct {
        SuccessCounts(c, h, ip, a.at, |OpenOf(Apply(c, w, a), ip)|, k, low, high);
      } else {
        FailureCounts(c, h, ip, a.at, |OpenOf(w, ip)|, k, low, high);
      }
      CountedIsBounded(c, h', ip, |OpenOf(Apply(c, w, a), ip)|, k, low, high);
    }
  }

  lemma SweepStaysSpanned(c: Config, w: World, a: Act, ip: string, k: nat, low: Time, high: Time)
    requires Spanned(c, w, ip, k, low, high) && Possible(w, a) && a.CleanUp?
    ensures Spanned(c, Apply(c, w, a), ip, k, low, high)
  {
    OpenAfter(c, w, a, ip);
  }

  lemma {:induction false} RunStaysSpanned(c: Config, w: World, acts: seq<Act>, ip: string, k: nat, low: Time, high: Time)
    requires low == high - c.window && c.banDuration >= c.window > 0 && k > 0 && ip != ""
    requires Spanned(c, w, ip, k, low, high) && PossibleRun(c, w, acts) && Within(c, w, acts, ip, k)
    ensures Spanned(c, Exec(c, w, acts), ip, k, low, high)
    decreases |acts|
  {
    if acts != [] {
      match acts[0] {
        case Begin(_, _, _) => BeginStaysSpanned(c, w, acts[0], ip, k, low, high);
        case Finish(_, _, _) => FinishStaysSpanned(c, w, acts[0], ip, k, low, high);
        case CleanUp(_) => SweepStaysSpanned(c, w, acts[0], ip, k, low, high);
      }
      RunStaysSpanned(c, Apply(c, w, acts[0]), acts[1..], ip, k, low, high);
    }
  }

  /** Nothing is ever recorded of logins from an unknown address. */
  lemma {:induction false} UnknownIsNotRecorded(c: Config, w: World, acts: seq<Act>, low: Time, high: Time)
    requires PossibleRun(c, w, acts) && FailuresIn(w.history, "", low, high) == 0
    ensures FailuresIn(Exec(c, w, acts).history, "", low, high) == 0
    decreases |acts|
  {
    if acts != [] {
      UnknownIsNotRecorded(c, Apply(c, w, acts[0]), acts[1..], low, high);
    }
  }

  /** When an address never has more than `k` admitted logins unfinished at once, and a ban lasts at least a
      window, any span of one window without a successful login has at most MaxAttempts + k - 1 wrong
      passwords of it recorded.  Logins of other addresses and sweeps interleave as they like. */
  lemma GuessesAreBounded(c: Config, acts: seq<Act>, ip: string, k: nat, t: Time)
    requires PossibleRun(c, START, acts) && Within(c, START, acts, ip, k)
    requires k > 0 && c.banDuration >= c.window
    requires NoSuccessIn(Exec(c, START, acts).history, ip, t - c.window, t)
    ensures FailuresIn(Exec(c, START, acts).history, ip, t - c.window, t) <= Limit(c) + k - 1
  {
    var h := Exec(c, START, acts).history;
    if c.window <= 0 {
      EmptySpan(h, ip, t - c.window, t);
    } else if ip == "" {
      UnknownIsNotRecorded(c, START, acts, t - c.window, t);
    } else {
      assert OpenOf(START, ip) == {};
      RunStaysSpanned(c, START, acts, ip, k, t - c.window, t);
    }
  }

  // ---------- the bound is reached ----------

  lemma RunsJoin(c: Config, w: World, first: seq<Act>, second: seq<Act>, ip: string, k: nat)
    requires PossibleRun(c, w, first) && PossibleRun(c, Exec(c, w, first), second)
    requires Within(c, w, first, ip, k) && Within(c, Exec(c, w, first), second, ip, k)
    ensures PossibleRun(c, w, first + second) && Within(c, w, first + second, ip, k)
    ensures Exec(c, w, first + second) == Exec(c, Exec(c, w, first), second)
    decreases |first|
  {
    if first == [] {
      assert first + second == second;
    } else {
      assert (first + second)[1..] == first[1..] + second;
      RunsJoin(c, Apply(c, w, first[0]), first[1..], second, ip, k);
    }
  }

  lemma ActThenRest(c: Config, w: World, a: Act, w': World, rest: seq<Act>, ip: string, k: nat)
    requires Possible(w, a) && w' == Apply(c, w, a) && PossibleRun(c, w', rest)
    requires |OpenOf(w, ip)| <= k && Within(c, w', rest, ip, k)
    ensures PossibleRun(c, w, [a] + rest) && Within(c, w, [a] + rest, ip, k)
    ensures Exec(c, w, [a] + rest) == Exec(c, w', rest)
  {
    assert ([a] + rest)[1..] == rest;
  }

  /** Logins with a wrong password, one after the other. */
  function Pairs(n: nat, ip: string): seq<Act> {
    if n == 0 then [] else Pairs(n - 1, ip) + ([Begin(0, ip, 1)] + ([Finish(0, false, 1)] + []))
  }

  lemma PairRuns(c: Config, w: World, n: nat, ip: string, k: nat)
    requires c.window > 0 && n < Limit(c) && ip != "" && k > 0
    requires w.history == Tries(n, ip) && w.open == map[] && w.clock <= 1
    ensures var pair := [Begin(0, ip, 1)] + ([Finish(0, false, 1)] + []);
            && PossibleRun(c, w, pair) && Within(c, w, pair, ip, k)
            && Exec(c, w, pair) == World(Tries(n + 1, ip), map[], 1)
  {
    var w1 := World(Then(Tries(n, ip), Ask(ip, 1)), map[0 := ip], 1);
    var w2 := World(Tries(n + 1, ip), map[], 1);
    TriesAreKept(c, n, ip);
    assert Apply(c, w, Begin(0, ip, 1)) == w1;
    assert map[0 := ip] - {0} == map[];
    assert Apply(c, w1, Finish(0, false, 1)) == w2;
    assert OpenOf(w, ip) == {} && OpenOf(w1, ip) == {0} && OpenOf(w2, ip) == {};
    ActThenRest(c, w1, Finish(0, false, 1), w2, [], ip, k);
    ActThenRest(c, w, Begin(0, ip, 1), w1, [Finish(0, false, 1)] + [], ip, k);
  }

  lemma {:induction false} PairsRun(c: Config, n: nat, ip: string, k: nat)
    requires c.window > 0 && n < Limit(c) && ip != "" && k > 0
    ensures PossibleRun(c, START, Pairs(n, ip)) && Within(c, START, Pairs(n, ip), ip, k)
    ensures var w := Exec(c, START, Pairs(n, ip)); w.history == Tries(n, ip) && w.open == map[] && w.clock <= 1
  {
    if n == 0 {
      assert OpenOf(START, ip) == {};
    } else {
      PairsRun(c, n - 1, ip, k);
      var w := Exec(c, START, Pairs(n - 1, ip));
      PairRuns(c, w, n - 1, ip, k);
      RunsJoin(c, START, Pairs(n - 1, ip), [Begin(0, ip, 1)] + ([Finish(0, false, 1)] + []), ip, k);
    }
  }

  function FirstIds(k: nat, ip: string): (open: map<nat, string>)
    ensures forall i: nat :: i in open <==> i < k
  {
    if k == 0 then map[] else FirstIds(k - 1, ip)[k - 1 := ip]
  }

  lemma {:induction false} FirstIdsAreOpen(k: nat, ip: string)
    ensures |OpenIn(FirstIds(k, ip), ip)| == k
  {
    if k == 0 {
      assert OpenIn(FirstIds(0, ip), ip) == {};
    } else {
      FirstIdsAreOpen(k - 1, ip);
      OneMoreOpen(FirstIds(k - 1, ip), k - 1, ip, ip);
    }
  }

  /** `n` logins that are let in side by side. */
  function Opens(n: nat, ip: string): seq<Act> {
    if n == 0 then [] else Opens(n - 1, ip) + ([Begin(n - 1, ip, 1)] + [])
  }

  /** A history in which the address may still try, and has failed `n` times. */
  ghost predicate StillFree(c: Config, h: History, ip: string, n: nat) {
    && AllowedAt(Run(c, h), ip, 1) && NoSuccessIn(h, ip, 1 - c.window, 1)
    && FailuresIn(h, ip, 1 - c.window, 1) == n
  }

  lemma {:induction false} OpensRun(c: Config, w: World, n: nat, ip: string, k: nat, fails: nat)
    requires n <= k && ip != "" && w.open == map[] && w.clock <= 1 && StillFree(c, w.history, ip, fails)
    ensures PossibleRun(c, w, Opens(n, ip)) && Within(c, w, Opens(n, ip), ip, k)
    ensures var w' := Exec(c, w, Opens(n, ip));
            w'.open == FirstIds(n, ip) && w'.clock <= 1 && StillFree(c, w'.history, ip, fails)
  {
    if n == 0 {
      assert OpenOf(w, ip) == {} && FirstIds(0, ip) == map[];
    } else {
      OpensRun(c, w, n - 1, ip, k, fails);
      var w1 := Exec(c, w, Opens(n - 1, ip));
      var w2 := Apply(c, w1, Begin(n - 1, ip, 1));
      FirstIdsAreOpen(n - 1, ip);
      FirstIdsAreOpen(n, ip);
      ActThenRest(c, w1, Begin(n - 1, ip, 1), w2, [], ip, k);
      RunsJoin(c, w, Opens(n - 1, ip), [Begin(n - 1, ip, 1)] + [], ip, k);
    }
  }

  /** All of them turn out wrong. */
  function Closes(n: nat): seq<Act> {
    if n == 0 then [] else [Finish(n - 1, false, 1)] + Closes(n - 1)
  }

  lemma {:induction false} ClosesRun(c: Config, w: World, n: nat, ip: string, k: nat)
    requires c.window > 0 && n <= k && ip != "" && w.open == FirstIds(n, ip) && w.clock <= 1
    requires NoSuccessIn(w.history, ip, 1 - c.window, 1)
    ensures PossibleRun(c, w, Closes(n)) && Within(c, w, Closes(n), ip, k)
    ensures var h := Exec(c, w, Closes(n)).history;
            && NoSuccessIn(h, ip, 1 - c.window, 1)
            && FailuresIn(h, ip, 1 - c.window, 1) == FailuresIn(w.history, ip, 1 - c.window, 1) + n
    decreases n
  {
    FirstIdsAreOpen(n, ip);
    if n > 0 {
      var w1 := Apply(c, w, Finish(n - 1, false, 1));
      assert FirstIds(n, ip) - {n - 1} == FirstIds(n - 1, ip);
      ClosesRun(c, w1, n - 1, ip, k);
      ActThenRest(c, w, Finish(n - 1, false, 1), w1, Closes(n - 1), ip, k);
    }
  }

  /** Whatever the configuration, `k` logins at once get `k - 1` wrong passwords past the limit. */
  lemma BoundIsReached(c: Config, ip: string, k: nat) returns (acts: seq<Act>)
    requires c.window > 0 && ip != "" && k > 0
    ensures PossibleRun(c, START, acts) && Within(c, START, acts, ip, k)
    ensures var h := Exec(c, START, acts).history;
            && NoSuccessIn(h, ip, 1 - c.window, 1)
            && FailuresIn(h, ip, 1 - c.window, 1) == Limit(c) + k - 1
  {
    var n := Limit(c) - 1;
    PairsRun(c, n, ip, k);
    var w := Exec(c, START, Pairs(n, ip));
    TriesAreKept(c, n, ip);
    TriesAreGuarded(c, n, ip, 1 - c.window, 1);
    assert StillFree(c, w.history, ip, n);
    OpensRun(c, w, k, ip, k, n);
    var w1 := Exec(c, w, Opens(k, ip));
    ClosesRun(c, w1, k, ip, k);
    RunsJoin(c, w, Opens(k, ip), Closes(k), ip, k);
    RunsJoin(c, START, Pairs(n, ip), Opens(k, ip) + Closes(k), ip, k);
    acts := Pairs(n, ip) + (Opens(k, ip) + Closes(k));
  }

  /** The limit itself, for the span of one window up to `t` of one run. */
  ghost predicate LimitHolds(c: Config, acts: seq<Act>, ip: string, k: nat, t: Time) {
    PossibleRun(c, START, acts) && Within(c, START, acts, ip, k) ==>
      WithinLimit(c, Exec(c, START, acts).history, ip, t)
  }

  lemma {:induction false} WithinMore(c: Config, w: World, acts: seq<Act>, ip: string, j: nat, k: nat)
    requires PossibleRun(c, w, acts) && Within(c, w, acts, ip, j) && j <= k
    ensures Within(c, w, acts, ip, k)
    decreases |acts|
  {
    if acts != [] { WithinMore(c, Apply(c, w, acts[0]), acts[1..], ip, j, k); }
  }

  /** With a ban that lasts at least a window, the limit holds of all runs with at most `k` logins of an
      address at once exactly when `k` is at most 1. */
  lemma LimitHoldsIff(c: Config, k: nat)
    requires c.banDuration >= c.window > 0
    ensures (forall acts, ip, t :: LimitHolds(c, acts, ip, k, t)) <==> k <= 1
  {
    if k <= 1 {
      forall acts, ip, t ensures LimitHolds(c, acts, ip, k, t) {
        if PossibleRun(c, START, acts) && Within(c, START, acts, ip, k)
           && NoSuccessIn(Exec(c, START, acts).history, ip, t - c.window, t) {
          WithinMore(c, START, acts, ip, k, 1);
          GuessesAreBounded(c, acts, ip, 1, t);
        }
      }
    } else {
      var acts := BoundIsReached(c, "ip", k);
      assert !LimitHolds(c, acts, "ip", k, 1);
    }
  }

  // ---------- what the limiter is told ----------

  /** One failure at `at` more is held against `ip`, among those since the start of the window, or it was
      the one too many and a ban has taken their place; nothing else has changed. */
  predicate CountedOnce(c: Config, was: Table, now: Table, ip: string, at: Time) {
    && now.Keys == was.Keys + {ip}
    && (forall k :: k in was && k != ip ==> now[k] == was[k])
    && var recent := After(if ip in was then was[ip].failures else [], at - c.window);
       if |recent| + 1 < c.maxAttempts
       then now[ip].failures == recent + [at] && now[ip].bannedUntil == (if ip in was then was[ip].bannedUntil else 0)
       else now[ip].failures == [] && now[ip].bannedUntil == at + c.banDuration
  }

  /** However the logins interleave: the limiter forgets an address when a login of it succeeds, counts one
      failure when one fails, and takes no notice of one that begins or whose address is unknown. */
  lemma LimiterHears(c: Config, w: World, a: Act)
    requires Possible(w, a) && !a.CleanUp?
    ensures var was, now := Run(c, w.history), Run(c, Apply(c, w, a).history);
            && (a.Begin? ==> now == was)
            && (a.Finish? && w.open[a.id] == "" ==> now == was)
            && (a.Finish? && w.open[a.id] != "" && a.correct ==> now == was - {w.open[a.id]})
            && (a.Finish? && w.open[a.id] != "" && !a.correct ==> CountedOnce(c, was, now, w.open[a.id], a.at))
  {
  }

  /** A login is let through exactly when its address is unknown or not banned at the time. */
  lemma BeginIsAdmittedIff(c: Config, w: World, a: Act)
    requires Possible(w, a) && a.Begin?
    ensures var was := Run(c, w.history);
            a.id in Apply(c, w, a).open <==> a.ip == "" || a.ip !in was || a.at > was[a.ip].bannedUntil
  {
  }

  // ---------- the two halves of a login ----------

  /** The first half of `Login`. */
  method Consult(limiter: Limiter, ip: string, at: Time, ghost h: History) returns (admitted: bool)
    requires limiter.Valid() && limiter.view == Run(limiter.config, h)
    ensures admitted <==> Admitted(limiter.config, h, ip, at)
    ensures limiter.view == Run(limiter.config, Asked(h, ip, at))
  {
    if ip != "" {
      var allowed := limiter.Allowed(ip, at);
      return allowed;
    }
    return true;
  }

  /** The second half. */
  method Conclude(limiter: Limiter, ip: string, correct: bool, at: Time, ghost h: History) returns (ok: bool)
    requires limiter.Valid() && limiter.view == Run(limiter.config, h)
    modifies limiter.Repr
    ensures limiter.Valid() && fresh(limiter.Repr - old(limiter.Repr))
    ensures limiter.view == Run(limiter.config, Recorded(h, ip, correct, at)) && ok == correct
    ensures ip == "" ==> limiter.view == old(limiter.view)
    ensures ip != "" && correct ==> limiter.view == old(limiter.view) - {ip}
    ensures ip != "" && !correct ==> CountedOnce(limiter.config, old(limiter.view), limiter.view, ip, at)
  {
    if !correct {
      if ip != "" {
        limiter.RecordFailure(ip, at);
      }
      return false;
    }
    if ip != "" {
      limiter.RecordSuccess(ip, at);
    }
    return true;
  }

  /** `Login` with nothing in between. */
  method TryLogin(limiter: Limiter, ip: string, correct: bool, asked: Time, at: Time, ghost h: History)
    returns (ok: bool)
    requires limiter.Valid() && limiter.view == Run(limiter.config, h)
    modifies limiter.Repr
    ensures limiter.Valid() && fresh(limiter.Repr - old(limiter.Repr))
    ensures ok <==> Admitted(limiter.config, h, ip, asked) && correct
    ensures limiter.view == Run(limiter.config,
                                if Admitted(limiter.config, h, ip, asked)
                                then Recorded(Asked(h, ip, asked), ip, correct, at) else Asked(h, ip, asked))
    ensures ok ==> correct && (ip in old(limiter.view) && ip != "" ==> asked > old(limiter.view)[ip].bannedUntil)
    ensures ok && ip != "" ==> limiter.view == old(limiter.view) - {ip}
    ensures !ok && ip != "" && (ip !in old(limiter.view) || asked > old(limiter.view)[ip].bannedUntil) ==>
              !correct && CountedOnce(limiter.config, old(limiter.view), limiter.view, ip, at)
    ensures ip == "" || (ip in old(limiter.view) && asked <= old(limiter.view)[ip].bannedUntil) ==>
              limiter.view == old(limiter.view) && (ok <==> ip == "" && correct)
  {
    var admitted := Consult(limiter, ip, asked, h);
    if !admitted {
      return false;
    }
    ok := Conclude(limiter, ip, correct, at, Asked(h, ip, asked));
  }
}
