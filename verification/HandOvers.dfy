/** How often hosts take a mail: counting what the state of the spool no longer shows.

    A host that has acknowledged the mail has it, whatever comes after.  If it then fails at QUIT, the
    delivery counts as failed, or goes on to the next host. */
module HandOvers {
  import opened Wrappers
  import opened Spool
  import Relay

  // ---------- one step ----------

  /** The worker is clearing the mail away. */
  predicate Removing(s: State, id: Id) {
    (s.worker.RemovingBody? || s.worker.RemovingMeta?) && s.worker.id == id
  }

  /** The worker is offering the mail. */
  predicate Offering(s: State, id: Id) {
    s.worker.Sending? && s.worker.item.id == id
  }

  /** How many hosts take the mail in this step. */
  function Taken(s: State, step: Step, id: Id): nat {
    if !Offering(s, id) then 0
    else
      match step
      case Delivered(takers) => takers
      case Refused(_, _, takers) => takers
      case _ => 0
  }

  /** How many of those break off at QUIT: all but the one whose success is reported, if there is one. */
  function QuitsFailed(s: State, step: Step, id: Id): nat {
    if !Offering(s, id) then 0
    else
      match step
      case Delivered(takers) => if takers > 0 then takers - 1 else 0
      case Refused(_, _, takers) => takers
      case _ => 0
  }

  predicate GivesUpOn(s: State, step: Step, id: Id) {
    step.GiveUp? && s.worker.GivingUp? && s.worker.item.id == id
  }

  /** The mail was being cleared away, and is not any more, yet both its files are there. */
  predicate Slips(c: Config, s: State, step: Step, id: Id)
    requires Enabled(s, step)
  {
    var s' := Apply(c, s, step);
    Removing(s, id) && !Removing(s', id) && SliceOf(s', id).Kept()
  }

  /** That is, a crash, or the failure of the second removal after that of the first. */
  lemma SlipIsCrashOrTwoFailures(c: Config, s: State, step: Step, id: Id)
    requires Enabled(s, step)
    ensures Slips(c, s, step, id)
       <==> Removing(s, id) && SliceOf(s, id).Kept() && (step.Crash? || step == RemoveMeta(false))
  {
  }

  /** The step that a delivery into a given world is. */
  function StepOf(net: Relay.Network, at: Time): Step {
    var failure := net.Outcome();
    if failure.None? then Delivered(net.Takers())
    else Refused(Relay.IsPermanent(failure.value), at, net.Takers())
  }

  /** The counts of a step are those of the delivery: the hosts that took the mail, and those of them that
      broke off at QUIT. */
  lemma DeliveryCounts(s: State, net: Relay.Network, at: Time, id: Id)
    requires Offering(s, id)
    ensures Enabled(s, StepOf(net, at))
    ensures Taken(s, StepOf(net, at), id) == net.Takers()
    ensures QuitsFailed(s, StepOf(net, at), id) == net.QuitFailures()
  {
    Relay.TakersAndQuits(net);
  }

  // ---------- whole runs ----------

  /** What a run does to one mail. */
  datatype Count = Count(taken: nat, failedQuits: nat, givenUp: nat, slips: nat)

  function One(b: bool): nat {
    if b then 1 else 0
  }

  function Counted(c: Config, s: State, steps: seq<Step>, id: Id): Count
    requires Possible(c, s, steps)
    decreases |steps|
  {
    if steps == [] then Count(0, 0, 0, 0)
    else
      var rest := Counted(c, Apply(c, s, steps[0]), steps[1..], id);
      Count(rest.taken + Taken(s, steps[0], id),
            rest.failedQuits + QuitsFailed(s, steps[0], id),
            rest.givenUp + One(GivesUpOn(s, steps[0], id)),
            rest.slips + One(Slips(c, s, steps[0], id)))
  }

  /** Something has become of the mail, and it is gone or going. */
  predicate Closed(s: State, id: Id) {
    (id in s.sent || id in s.givenUp) && (Removing(s, id) || !SliceOf(s, id).Kept())
  }

  lemma ClientStepBalances(c: Config, s: State, step: Step, id: Id)
    requires Inv(c, s) && ByClient(step) && ClientEnabled(s, step)
    ensures Closed(ApplyClient(s, step), id) == Closed(s, id)
    ensures Removing(ApplyClient(s, step), id) == Removing(s, id)
  {
    assert SliceOf(s, id).Ok(c, id);
  }

  lemma OutcomeBalances(c: Config, s: State, step: Step, id: Id)
    requires Inv(c, s) && InOutcome(step) && WorkerEnabled(s, step)
    ensures var s' := ApplyWorker(c, s, step);
            && Taken(s, step, id) + One(GivesUpOn(s, step, id)) + One(Closed(s, id))
               == QuitsFailed(s, step, id) + One(Closed(s', id))
            && (Removing(s, id) ==> Removing(s', id))
  {
  }

  lemma RemovalBalances(c: Config, s: State, step: Step, id: Id)
    requires Inv(c, s) && InRemove(step) && WorkerEnabled(s, step)
    ensures var s' := ApplyWorker(c, s, step);
            One(Closed(s, id))
            == One(Removing(s, id) && !Removing(s', id) && SliceOf(s', id).Kept()) + One(Closed(s', id))
  {
  }

  lemma SaveBalances(c: Config, s: State, step: Step, id: Id)
    requires Inv(c, s) && InSave(step) && WorkerEnabled(s, step)
    ensures Closed(ApplyWorker(c, s, step), id) == Closed(s, id) && !Removing(s, id)
  {
  }

  lemma MovingOnBalances(c: Config, s: State, step: Step, id: Id)
    requires Inv(c, s) && OnlyMovesOn(step) && WorkerEnabled(s, step)
    ensures Closed(ApplyWorker(c, s, step), id) == Closed(s, id) && !Removing(s, id)
  {
    MovingOnChangesNoFile(c, s, step);
    assert SliceOf(s, id).Ok(c, id);
  }

  lemma CrashBalances(s: State, id: Id)
    requires WorkerOk(s)
    ensures One(Closed(s, id)) == One(Removing(s, id) && SliceOf(s, id).Kept()) + One(Closed(Crashed(s), id))
  {
  }

  lemma StepBalances(c: Config, s: State, step: Step, id: Id)
    requires Inv(c, s) && Enabled(s, step)
    ensures Taken(s, step, id) + One(GivesUpOn(s, step, id)) + One(Closed(s, id))
         == QuitsFailed(s, step, id) + One(Slips(c, s, step, id)) + One(Closed(Apply(c, s, step), id))
  {
    if ByClient(step) { ClientStepBalances(c, s, step, id); }
    else if InOutcome(step) { OutcomeBalances(c, s, step, id); }
    else if InRemove(step) { RemovalBalances(c, s, step, id); }
    else if InSave(step) { SaveBalances(c, s, step, id); }
    else if OnlyMovesOn(step) { MovingOnBalances(c, s, step, id); }
    else { CrashBalances(s, id); }
  }

  lemma StepKeepsInv(c: Config, s: State, step: Step)
    requires Inv(c, s) && Enabled(s, step)
    ensures Inv(c, Apply(c, s, step))
  {
    if ByClient(step) { ClientStepKeepsInv(c, s, step); } else { WorkerStepKeepsInv(c, s, step); }
  }

  /** Over any run the hosts that took a mail, and the times it was given up on, are the failed QUITs, the
      slips, and one more if the mail has been closed. */
  lemma {:induction false} TakersAndSlipsBalance(c: Config, s: State, steps: seq<Step>, id: Id)
    requires Inv(c, s) && Possible(c, s, steps)
    ensures var n := Counted(c, s, steps, id);
            n.taken + n.givenUp + One(Closed(s, id)) == n.failedQuits + n.slips + One(Closed(Exec(c, s, steps), id))
    decreases |steps|
  {
    if steps != [] {
      StepBalances(c, s, steps[0], id);
      StepKeepsInv(c, s, steps[0]);
      TakersAndSlipsBalance(c, Apply(c, s, steps[0]), steps[1..], id);
    }
  }

  lemma ClosedIsNotOffered(c: Config, s: State, id: Id)
    requires Inv(c, s) && Closed(s, id)
    ensures !Offering(s, id)
  {
  }

  /** A closed mail is taken by nobody as long as nothing slips. */
  lemma {:induction false} ClosedTakesNoMore(c: Config, s: State, steps: seq<Step>, id: Id)
    requires Inv(c, s) && Possible(c, s, steps) && Closed(s, id)
    requires Counted(c, s, steps, id).slips == 0
    ensures Counted(c, s, steps, id).taken == 0
    decreases |steps|
  {
    if steps != [] {
      ClosedIsNotOffered(c, s, id);
      StepBalances(c, s, steps[0], id);
      StepKeepsInv(c, s, steps[0]);
      ClosedTakesNoMore(c, Apply(c, s, steps[0]), steps[1..], id);
    }
  }

  /** A mail is taken a second time only for a reason: once a host has taken it, every run in which another
      does contains a slip, unless the first broke off at QUIT. */
  lemma SecondTakeHasACause(c: Config, s: State, step: Step, id: Id, more: seq<Step>)
    requires Reachable(c, s) && Enabled(s, step) && Taken(s, step, id) > 0
    requires Possible(c, Apply(c, s, step), more) && Counted(c, Apply(c, s, step), more, id).taken > 0
    ensures QuitsFailed(s, step, id) > 0 || Counted(c, Apply(c, s, step), more, id).slips > 0
  {
    ReachableInv(c, s);
    var s' := Apply(c, s, step);
    StepKeepsInv(c, s, step);
    if QuitsFailed(s, step, id) == 0 {
      StepBalances(c, s, step, id);
      assert Closed(s', id);
      if Counted(c, s', more, id).slips == 0 {
        ClosedTakesNoMore(c, s', more, id);
      }
    }
  }

  /** So in a run without failed QUITs and slips no mail is taken twice, nor taken and given up on. */
  lemma AtMostOnceWithoutMishap(c: Config, steps: seq<Step>, id: Id)
    requires Possible(c, EMPTY, steps)
    ensures var n := Counted(c, EMPTY, steps, id);
            n.failedQuits == 0 && n.slips == 0 ==> n.taken + n.givenUp <= 1
  {
    assert Inv(c, EMPTY) && !Closed(EMPTY, id);
    TakersAndSlipsBalance(c, EMPTY, steps, id);
  }

  // ---------- when it can happen again ----------

  lemma {:induction false} CountsAddUp(c: Config, s: State, first: seq<Step>, second: seq<Step>, id: Id)
    requires Possible(c, s, first) && Possible(c, Exec(c, s, first), second)
    ensures Possible(c, s, first + second)
    ensures Counted(c, s, first + second, id).taken
         == Counted(c, s, first, id).taken + Counted(c, Exec(c, s, first), second, id).taken
    decreases |first|
  {
    RunsJoin(c, s, first, second);
    if first == [] {
      assert first + second == second;
    } else {
      assert (first + second)[1..] == first[1..] + second;
      CountsAddUp(c, Apply(c, s, first[0]), first[1..], second, id);
    }
  }

  /** A sweep of the whole directory in which a host takes the mail. */
  lemma SweepHandsOver(c: Config, s: State, id: Id) returns (steps: seq<Step>)
    requires Inv(c, s) && s.worker.Idle? && id in s.bodies && id in s.metas && s.metas[id].Whole?
    ensures Possible(c, s, steps) && Counted(c, s, steps, id).taken > 0
  {
    assert SliceOf(s, id).Ok(c, id);
    var attempt, s' := AttemptReaches(c, s, id);
    StepFirst(c, s', Delivered(1), []);
    var last := [Delivered(1)] + [];
    assert Taken(s', last[0], id) == 1;
    CountsAddUp(c, s, attempt, last, id);
    steps := attempt + last;
  }

  /** Nobody will load the mail again, or it will be dropped. */
  predicate Beyond(s: State, id: Id) {
    && id in s.submitted && (id in s.clients ==> s.clients[id] == MetaWritten)
    && !(id in s.bodies && id in s.metas && s.metas[id].Whole?)
    && (WorkerId(s.worker) == Some(id) ==> Removing(s, id) || (s.worker.Reading? && id !in s.bodies))
  }

  lemma ClientStaysBeyond(s: State, step: Step, id: Id)
    requires Beyond(s, id) && ByClient(step) && ClientEnabled(s, step)
    ensures Beyond(ApplyClient(s, step), id)
  {
  }

  lemma WorkerStaysBeyond(c: Config, s: State, step: Step, id: Id)
    requires Inv(c, s) && Beyond(s, id) && WorkerEnabled(s, step)
    ensures Beyond(ApplyWorker(c, s, step), id)
  {
    if OnlyMovesOn(step) {
      MovingOnChangesNoFile(c, s, step);
      if step.Look? && s.worker.todo != [] {
        assert SliceOf(s, s.worker.todo[0]).Ok(c, s.worker.todo[0]);
      }
    }
  }

  lemma {:induction false} NoMoreTakers(c: Config, s: State, more: seq<Step>, id: Id)
    requires Inv(c, s) && Beyond(s, id) && Possible(c, s, more)
    ensures Counted(c, s, more, id).taken == 0
    decreases |more|
  {
    if more != [] {
      StepKeepsInv(c, s, more[0]);
      if ByClient(more[0]) { ClientStaysBeyond(s, more[0], id); } else { WorkerStaysBeyond(c, s, more[0], id); }
      NoMoreTakers(c, Apply(c, s, more[0]), more[1..], id);
    }
  }

  lemma BusyStepKeepsSettled(c: Config, s: State, step: Step, id: Id)
    requires Inv(c, s) && WorkerEnabled(s, step) && WorkerId(s.worker) == Some(id)
    requires InOutcome(step) || InRemove(step) || InSave(step)
    ensures SliceOf(ApplyWorker(c, s, step), id).Settled()
  {
  }

  /** A mail past its last write stays there. */
  lemma StepKeepsSettled(c: Config, s: State, step: Step, id: Id)
    requires Inv(c, s) && Enabled(s, step) && SliceOf(s, id).Settled()
    ensures SliceOf(Apply(c, s, step), id).Settled()
  {
    if ByClient(step) {
      if step.id == id {
        assert SliceOf(s, id).Ok(c, id);
        ClientStepKeepsOk(c, s, step);
      } else {
        ClientTouchesOne(s, step, id);
      }
    } else if InOutcome(step) || InRemove(step) || InSave(step) {
      if WorkerId(s.worker) == Some(id) { BusyStepKeepsSettled(c, s, step, id); }
      else if InOutcome(step) { OutcomeTouchesOne(c, s, step, id); }
      else if InRemove(step) { RemoveTouchesOne(c, s, step, id); }
      else { SaveTouchesOne(c, s, step, id); }
    } else if OnlyMovesOn(step) {
      MovingOnChangesNoFile(c, s, step);
    }
  }

  /** A mail that anybody ever took is past its last write. */
  lemma {:induction false} TakenIsSettled(c: Config, s: State, steps: seq<Step>, id: Id)
    requires Inv(c, s) && Possible(c, s, steps)
    requires SliceOf(s, id).Settled() || Counted(c, s, steps, id).taken > 0
    ensures SliceOf(Exec(c, s, steps), id).Settled()
    decreases |steps|
  {
    if steps != [] {
      if SliceOf(s, id).Settled() || Offering(s, id) {
        StepKeepsSettled(c, s, steps[0], id);
      }
      StepKeepsInv(c, s, steps[0]);
      TakenIsSettled(c, Apply(c, s, steps[0]), steps[1..], id);
    }
  }

  /** Between sweeps, a mail that some host took can be taken again exactly when its metadata is whole and
      all its takers and its giving-ups are accounted for by failed QUITs and slips. */
  lemma TakenAgainIff(c: Config, steps: seq<Step>, s: State, id: Id, n: Count)
    requires Possible(c, EMPTY, steps) && s == Exec(c, EMPTY, steps) && s.worker.Idle?
    requires n == Counted(c, EMPTY, steps, id) && n.taken > 0
    ensures (exists more: seq<Step> :: Possible(c, s, more) && Counted(c, s, more, id).taken > 0)
       <==> n.taken + n.givenUp == n.failedQuits + n.slips && id in s.metas && s.metas[id].Whole?
  {
    assert Inv(c, EMPTY) && !Closed(EMPTY, id);
    RunKeepsInv(c, EMPTY, steps);
    TakersAndSlipsBalance(c, EMPTY, steps, id);
    TakenIsSettled(c, EMPTY, steps, id);
    if !Closed(s, id) && id in s.metas && s.metas[id].Whole? {
      OpenHasBody(s, id);
      var more := SweepHandsOver(c, s, id);
    } else {
      assert Beyond(s, id) by { SettledIsBeyond(s, id); }
      forall more: seq<Step> | Possible(c, s, more) ensures Counted(c, s, more, id).taken == 0 {
        NoMoreTakers(c, s, more, id);
      }
    }
  }

  lemma OpenHasBody(s: State, id: Id)
    requires SliceOf(s, id).Settled() && !Closed(s, id)
    ensures id in s.bodies
  {
  }

  lemma SettledIsBeyond(s: State, id: Id)
    requires s.worker.Idle? && SliceOf(s, id).Settled()
    requires Closed(s, id) || id !in s.metas || s.metas[id].Torn?
    ensures Beyond(s, id)
  {
  }
}
