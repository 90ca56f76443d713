/** The outbound spool on disk: two files for each queued mail, written and removed one operation at a
    time, with a crash possible between any two of them.

    Writing a file truncates it first, so an interrupted write leaves it `Torn`.  Any number of
    submissions run beside the one worker that sweeps the directory. */
module Spool {
  import Keys
  import opened Sequences
  import opened Wrappers

  type Id = string
  type Data = string
  type Time = int

  datatype Mail = Mail(from: string, to: string, data: Data)

  datatype Item = Item(id: Id, from: string, to: string, attempts: nat, next: Time)

  datatype Config = Config(retryIntervals: seq<Time>, maxRetries: int, hasCallback: bool)

  datatype Content<T> = Torn | Whole(value: T)

  /** How far a submission has come. */
  datatype Stage = BodyOpen | BodyWritten | MetaOpen | MetaWritten

  /** Where the worker is.  `todo` are the names of the directory listing still to be looked at, `now`
      the time the sweep began. */
  datatype Worker =
    | Idle
    | Looking(todo: seq<Id>, now: Time)
    | Reading(item: Item, todo: seq<Id>, now: Time)
    | Sending(item: Item, data: Data, todo: seq<Id>, now: Time)
    | GivingUp(item: Item, todo: seq<Id>, now: Time)
    | RemovingBody(id: Id, todo: seq<Id>, now: Time)
    | RemovingMeta(id: Id, todo: seq<Id>, now: Time)
    | Saving(item: Item, todo: seq<Id>, now: Time)
    | SavingOpen(item: Item, todo: seq<Id>, now: Time)

  /** The two kinds of files, the programs at work, and what has happened so far: the mails submitted,
      those whose submission returned success, those whose delivery returned success (with what the host
      was given), those given up on, and those the failure callback was run for. */
  datatype State = State(
    bodies: map<Id, Content<Data>>, metas: map<Id, Content<Item>>,
    clients: map<Id, Stage>, worker: Worker,
    submitted: map<Id, Mail>, accepted: set<Id>, sent: map<Id, Mail>, givenUp: set<Id>, notified: set<Id>)

  const EMPTY := State(map[], map[], map[], Idle, map[], {}, map[], {}, {})

  /** `takers` is how many hosts took the mail in one delivery: a host may take it and break off
      afterwards, so a delivery that fails may have takers too. */
  datatype Step =
    | Submit(id: Id, mail: Mail) | WriteBody(id: Id) | OpenMeta(id: Id) | WriteMeta(id: Id, at: Time)
    | Accept(id: Id) | SubmitFails(id: Id)
    | Sweep(listing: seq<Id>, at: Time) | Look | Read(partial: Data)
    | Delivered(takers: nat) | Refused(permanent: bool, at: Time, takers: nat) | GiveUp
    | RemoveBody(works: bool) | RemoveMeta(works: bool)
    | OpenSave | WriteSave | SaveFails
    | Crash

  /** The delay after the `k`-th failed attempt. */
  function Delay(c: Config, k: nat): Time
    requires k >= 1 && c.retryIntervals != []
  {
    if k - 1 < |c.retryIntervals| then c.retryIntervals[k - 1] else c.retryIntervals[|c.retryIntervals| - 1]
  }

  predicate GivesUp(c: Config, permanent: bool, attempts: nat) {
    permanent || attempts > c.maxRetries
  }

  predicate ByClient(step: Step) {
    step.Submit? || step.WriteBody? || step.OpenMeta? || step.WriteMeta? || step.Accept? || step.SubmitFails?
  }

  predicate ClientEnabled(s: State, step: Step)
    requires ByClient(step)
  {
    if step.Submit? then step.id !in s.submitted
    else
      && step.id in s.clients && step.id in s.submitted
      && match step
         case WriteBody(id) => s.clients[id] == BodyOpen
         case OpenMeta(id) => s.clients[id] == BodyWritten
         case WriteMeta(id, _) => s.clients[id] == MetaOpen
         case Accept(id) => s.clients[id] == MetaWritten
         case _ => true
  }

  /** What reading the directory gives: every metadata file once. */
  predicate Lists(s: State, listing: seq<Id>) {
    && Distinct(listing)
    && (forall id :: id in listing ==> id in s.metas)
    && (forall id :: id in s.metas ==> id in listing)
  }

  predicate WorkerEnabled(s: State, step: Step) {
    match step
    case Sweep(listing, _) => s.worker.Idle? && Lists(s, listing)
    case Look => s.worker.Looking?
    case Read(_) => s.worker.Reading?
    case Delivered(takers) => s.worker.Sending? && takers > 0
    case Refused(_, _, _) => s.worker.Sending?
    case GiveUp => s.worker.GivingUp?
    case RemoveBody(_) => s.worker.RemovingBody?
    case RemoveMeta(_) => s.worker.RemovingMeta?
    case OpenSave => s.worker.Saving?
    case WriteSave => s.worker.SavingOpen?
    case SaveFails => s.worker.Saving? || s.worker.SavingOpen?
    case _ => step.Crash?
  }

  /** May this step happen now? */
  predicate Enabled(s: State, step: Step) {
    if ByClient(step) then ClientEnabled(s, step) else WorkerEnabled(s, step)
  }

  /** `Enqueue`, one file operation at a time. */
  function ApplyClient(s: State, step: Step): State
    requires ByClient(step) && ClientEnabled(s, step)
  {
    match step
    case Submit(id, mail) =>
      s.(submitted := s.submitted[id := mail], bodies := s.bodies[id := Torn], clients := s.clients[id := BodyOpen])
    case WriteBody(id) =>
      s.(bodies := s.bodies[id := Whole(s.submitted[id].data)], clients := s.clients[id := BodyWritten])
    case OpenMeta(id) =>
      s.(metas := s.metas[id := Torn], clients := s.clients[id := MetaOpen])
    case WriteMeta(id, at) =>
      s.(metas := s.metas[id := Whole(Item(id, s.submitted[id].from, s.submitted[id].to, 0, at))],
         clients := s.clients[id := MetaWritten])
    case Accept(id) => s.(accepted := s.accepted + {id}, clients := s.clients - {id})
    case _ => s.(clients := s.clients - {step.id})
  }

  function Crashed(s: State): State {
    s.(clients := map[], worker := Idle)
  }

  /** `processAll` and `load`: the next name of the listing. */
  function Looked(s: State): State
    requires s.worker.Looking?
  {
    var w := s.worker;
    if w.todo == [] then s.(worker := Idle)
    else
      var id, rest := w.todo[0], w.todo[1..];
      if id !in s.metas || s.metas[id].Torn? || s.metas[id].value.next > w.now
      then s.(worker := Looking(rest, w.now))
      else s.(worker := Reading(s.metas[id].value, rest, w.now))
  }

  /** The start of `attempt`: without a body the item is dropped. */
  function BodyRead(s: State, partial: Data): State
    requires s.worker.Reading?
  {
    var w := s.worker;
    var id := w.item.id;
    if id !in s.bodies then s.(worker := RemovingBody(id, w.todo, w.now))
    else
      var data := if s.bodies[id].Whole? then s.bodies[id].value else partial;
      s.(worker := Sending(w.item, data, w.todo, w.now))
  }

  function AfterRefusal(c: Config, s: State, permanent: bool, at: Time): State
    requires s.worker.Sending?
  {
    var w := s.worker;
    var item := w.item.(attempts := w.item.attempts + 1);
    if GivesUp(c, permanent, item.attempts) then s.(worker := GivingUp(item, w.todo, w.now))
    else if c.retryIntervals == [] then Crashed(s)  // the index into the schedule panics
    else s.(worker := Saving(item.(next := at + Delay(c, item.attempts)), w.todo, w.now))
  }

  /** `processAll`, `attempt`, `save` and `remove`, one file operation or delivery at a time. */
  function ApplyWorker(c: Config, s: State, step: Step): State
    requires WorkerEnabled(s, step)
  {
    var w := s.worker;
    match step
    case Sweep(listing, at) => s.(worker := Looking(listing, at))
    case Look => Looked(s)
    case Read(partial) => BodyRead(s, partial)
    case Delivered(_) =>
      s.(sent := s.sent[w.item.id := Mail(w.item.from, w.item.to, w.data)],
         worker := RemovingBody(w.item.id, w.todo, w.now))
    case Refused(permanent, at, _) => AfterRefusal(c, s, permanent, at)
    case GiveUp =>
      s.(givenUp := s.givenUp + {w.item.id},
         notified := if c.hasCallback then s.notified + {w.item.id} else s.notified,
         worker := RemovingBody(w.item.id, w.todo, w.now))
    case RemoveBody(works) =>
      s.(bodies := if works then s.bodies - {w.id} else s.bodies, worker := RemovingMeta(w.id, w.todo, w.now))
    case RemoveMeta(works) =>
      s.(metas := if works then s.metas - {w.id} else s.metas, worker := Looking(w.todo, w.now))
    case OpenSave => s.(metas := s.metas[w.item.id := Torn], worker := SavingOpen(w.item, w.todo, w.now))
    case WriteSave => s.(metas := s.metas[w.item.id := Whole(w.item)], worker := Looking(w.todo, w.now))
    case SaveFails => s.(worker := Looking(w.todo, w.now))
    case _ => Crashed(s)
  }

  function Apply(c: Config, s: State, step: Step): State
    requires Enabled(s, step)
  {
    if ByClient(step) then ApplyClient(s, step) else ApplyWorker(c, s, step)
  }

  predicate Possible(c: Config, s: State, steps: seq<Step>)
    decreases |steps|
  {
    steps == [] || (Enabled(s, steps[0]) && Possible(c, Apply(c, s, steps[0]), steps[1..]))
  }

  function Exec(c: Config, s: State, steps: seq<Step>): State
    requires Possible(c, s, steps)
    decreases |steps|
  {
    if steps == [] then s else Exec(c, Apply(c, s, steps[0]), steps[1..])
  }

  // ---------- the invariant ----------

  /** Everything the state says about one mail. */
  datatype Slice = Slice(body: Option<Content<Data>>, meta: Option<Content<Item>>, client: Option<Stage>,
                         mail: Option<Mail>, accepted: bool, sent: Option<Mail>, givenUp: bool, notified: bool)
  {
    predicate Finished() {
      sent.Some? || givenUp
    }

    /** Past its last write: the body is whole on disk, or gone because nothing more is owed; and the
        metadata is only gone when nothing more is owed. */
    predicate Settled() {
      && mail.Some?
      && (if body.Some? then body.value == Whole(mail.value.data) else Finished())
      && (meta.None? ==> Finished())
      && (client.Some? ==> client.value == MetaWritten)
    }

    predicate Owns(item: Item) {
      Settled() && item.from == mail.value.from && item.to == mail.value.to
    }

    /** Both files are there. */
    predicate Kept() {
      body.Some? && meta.Some?
    }

    predicate BodyThere() {
      mail.Some? && body == Some(Whole(mail.value.data))
    }

    /** The invariant of one mail. */
    predicate Ok(c: Config, id: Id) {
      && (body.Some? || meta.Some? || client.Some? || accepted || sent.Some? || givenUp ==> mail.Some?)
      && (client.Some? ==>
            && !accepted
            && match client.value
               case BodyOpen => meta.None? && !Finished()
               case BodyWritten => meta.None? && BodyThere() && !Finished()
               case MetaOpen => meta == Some(Torn) && BodyThere() && !Finished()
               case MetaWritten => Settled())
      && (meta.Some? && meta.value.Whole? ==> meta.value.value.id == id && Owns(meta.value.value))
      && (accepted ==> Settled())
      && (sent.Some? ==> sent == mail)
      && (notified <==> givenUp && c.hasCallback)
    }
  }

  function At<T>(m: map<Id, T>, id: Id): Option<T> {
    if id in m then Some(m[id]) else None
  }

  function SliceOf(s: State, id: Id): Slice {
    Slice(At(s.bodies, id), At(s.metas, id), At(s.clients, id), At(s.submitted, id),
          id in s.accepted, At(s.sent, id), id in s.givenUp, id in s.notified)
  }

  predicate WorkerOk(s: State) {
    match s.worker
    case Idle => true
    case Looking(_, _) => true
    case Reading(item, _, _) => SliceOf(s, item.id).Owns(item) && item.id in s.metas
    case Sending(item, data, _, _) =>
      && SliceOf(s, item.id).Owns(item) && SliceOf(s, item.id).Kept()
      && data == SliceOf(s, item.id).mail.value.data
    case GivingUp(item, _, _) => SliceOf(s, item.id).Owns(item) && SliceOf(s, item.id).Kept()
    case RemovingBody(id, _, _) => SliceOf(s, id).Settled() && SliceOf(s, id).Finished()
    case RemovingMeta(id, _, _) => SliceOf(s, id).Settled() && SliceOf(s, id).Finished()
    case Saving(item, _, _) => SliceOf(s, item.id).Owns(item) && SliceOf(s, item.id).Kept()
    case SavingOpen(item, _, _) => SliceOf(s, item.id).Owns(item) && SliceOf(s, item.id).Kept()
  }

  ghost predicate Inv(c: Config, s: State) {
    && (forall id :: SliceOf(s, id).Ok(c, id))
    && WorkerOk(s)
  }

  // ---------- every step keeps it ----------

  /** The mail the worker is busy with. */
  function WorkerId(w: Worker): Option<Id> {
    match w
    case Idle => None
    case Looking(_, _) => None
    case Reading(item, _, _) => Some(item.id)
    case Sending(item, _, _, _) => Some(item.id)
    case GivingUp(item, _, _) => Some(item.id)
    case RemovingBody(id, _, _) => Some(id)
    case RemovingMeta(id, _, _) => Some(id)
    case Saving(item, _, _) => Some(item.id)
    case SavingOpen(item, _, _) => Some(item.id)
  }

  lemma ClientTouchesOne(s: State, step: Step, id: Id)
    requires ByClient(step) && ClientEnabled(s, step) && id != step.id
    ensures SliceOf(ApplyClient(s, step), id) == SliceOf(s, id)
  {
  }

  /** What the worker relies on outlasts the change from one slice to the other. */
  ghost predicate Outlasts(was: Slice, now: Slice) {
    was.Settled() ==>
      && now.Settled() && now.mail == was.mail
      && (was.Finished() ==> now.Finished())
      && (was.body.Some? ==> now.body.Some?) && (was.meta.Some? ==> now.meta.Some?)
  }

  /** A submission keeps the invariant of its own mail; a mail that is past its last write stays so. */
  lemma ClientStepKeepsOk(c: Config, s: State, step: Step)
    requires ByClient(step) && ClientEnabled(s, step) && SliceOf(s, step.id).Ok(c, step.id)
    ensures SliceOf(ApplyClient(s, step), step.id).Ok(c, step.id)
    ensures Outlasts(SliceOf(s, step.id), SliceOf(ApplyClient(s, step), step.id))
  {
  }

  lemma WorkerStaysOk(s: State, s': State)
    requires WorkerOk(s) && s'.worker == s.worker
    requires WorkerId(s.worker).Some? ==>
               Outlasts(SliceOf(s, WorkerId(s.worker).value), SliceOf(s', WorkerId(s.worker).value))
    ensures WorkerOk(s')
  {
  }

  lemma ClientStepKeepsInv(c: Config, s: State, step: Step)
    requires Inv(c, s) && ByClient(step) && ClientEnabled(s, step)
    ensures Inv(c, ApplyClient(s, step))
  {
    var s' := ApplyClient(s, step);
    ClientStepKeepsOk(c, s, step);
    forall id ensures SliceOf(s', id).Ok(c, id) && Outlasts(SliceOf(s, id), SliceOf(s', id)) {
      assert SliceOf(s, id).Ok(c, id);
      if id != step.id { ClientTouchesOne(s, step, id); }
    }
    assert s'.worker == s.worker;
    WorkerStaysOk(s, s');
  }

  /** Steps that write no file and record no outcome. */
  predicate OnlyMovesOn(step: Step) {
    step.Sweep? || step.Look? || step.Read? || step.Refused?
  }

  predicate InOutcome(step: Step) {
    step.Delivered? || step.GiveUp?
  }

  predicate InRemove(step: Step) {
    step.RemoveBody? || step.RemoveMeta?
  }

  predicate InSave(step: Step) {
    step.OpenSave? || step.WriteSave? || step.SaveFails?
  }

  lemma OutcomeTouchesOne(c: Config, s: State, step: Step, id: Id)
    requires InOutcome(step) && WorkerEnabled(s, step) && WorkerId(s.worker) != Some(id)
    ensures SliceOf(ApplyWorker(c, s, step), id) == SliceOf(s, id)
  {
  }

  lemma RemoveTouchesOne(c: Config, s: State, step: Step, id: Id)
    requires InRemove(step) && WorkerEnabled(s, step) && WorkerId(s.worker) != Some(id)
    ensures SliceOf(ApplyWorker(c, s, step), id) == SliceOf(s, id)
  {
  }

  lemma SaveTouchesOne(c: Config, s: State, step: Step, id: Id)
    requires InSave(step) && WorkerEnabled(s, step) && WorkerId(s.worker) != Some(id)
    ensures SliceOf(ApplyWorker(c, s, step), id) == SliceOf(s, id)
  {
  }

  // The worker keeps the invariant of the mail it is busy with, and stays entitled to go on.

  lemma ReadKeepsWorkerOk(s: State, partial: Data)
    requires WorkerOk(s) && s.worker.Reading?
    ensures BodyRead(s, partial) == s.(worker := BodyRead(s, partial).worker) && WorkerOk(BodyRead(s, partial))
  {
  }

  lemma RefusalKeepsWorkerOk(c: Config, s: State, permanent: bool, at: Time)
    requires WorkerOk(s) && s.worker.Sending?
    ensures var s' := AfterRefusal(c, s, permanent, at);
            s' == Crashed(s) || (s' == s.(worker := s'.worker) && WorkerOk(s'))
  {
  }

  lemma LookKeepsWorkerOk(c: Config, s: State)
    requires Inv(c, s) && s.worker.Looking?
    ensures Looked(s) == s.(worker := Looked(s).worker) && WorkerOk(Looked(s))
  {
    if Looked(s).worker.Reading? {
      var id := s.worker.todo[0];
      assert SliceOf(s, id).Ok(c, id);
    }
  }

  lemma OutcomeKeepsOk(c: Config, s: State, step: Step, id: Id)
    requires InOutcome(step) && WorkerEnabled(s, step)
    requires WorkerId(s.worker) == Some(id) && SliceOf(s, id).Ok(c, id) && WorkerOk(s)
    ensures SliceOf(ApplyWorker(c, s, step), id).Ok(c, id) && WorkerOk(ApplyWorker(c, s, step))
  {
  }

  lemma RemoveKeepsOk(c: Config, s: State, step: Step, id: Id)
    requires InRemove(step) && WorkerEnabled(s, step)
    requires WorkerId(s.worker) == Some(id) && SliceOf(s, id).Ok(c, id) && WorkerOk(s)
    ensures SliceOf(ApplyWorker(c, s, step), id).Ok(c, id) && WorkerOk(ApplyWorker(c, s, step))
  {
  }

  lemma SaveKeepsOk(c: Config, s: State, step: Step, id: Id)
    requires InSave(step) && WorkerEnabled(s, step)
    requires WorkerId(s.worker) == Some(id) && SliceOf(s, id).Ok(c, id) && WorkerOk(s)
    ensures SliceOf(ApplyWorker(c, s, step), id).Ok(c, id) && WorkerOk(ApplyWorker(c, s, step))
  {
  }

  lemma OnlyWorkerChanged(c: Config, s: State, w: Worker)
    requires Inv(c, s) && WorkerOk(s.(worker := w))
    ensures Inv(c, s.(worker := w))
  {
    var s' := s.(worker := w);
    forall id ensures SliceOf(s', id).Ok(c, id) {
      assert SliceOf(s, id).Ok(c, id) && SliceOf(s', id) == SliceOf(s, id);
    }
  }

  lemma MovingOnKeepsInv(c: Config, s: State, step: Step)
    requires Inv(c, s) && OnlyMovesOn(step) && WorkerEnabled(s, step)
    requires ApplyWorker(c, s, step) != Crashed(s)
    ensures Inv(c, ApplyWorker(c, s, step))
  {
    match step {
      case Sweep(_, _) =>
      case Look => LookKeepsWorkerOk(c, s);
      case Read(partial) => ReadKeepsWorkerOk(s, partial);
      case Refused(permanent, at, _) => RefusalKeepsWorkerOk(c, s, permanent, at);
    }
    OnlyWorkerChanged(c, s, ApplyWorker(c, s, step).worker);
  }

  /** A step of the worker that changes files or outcomes concerns the one mail it is busy with. */
  lemma BusyStepKeepsInv(c: Config, s: State, step: Step, busy: Id)
    requires Inv(c, s) && WorkerEnabled(s, step) && WorkerId(s.worker) == Some(busy)
    requires InOutcome(step) || InRemove(step) || InSave(step)
    ensures Inv(c, ApplyWorker(c, s, step))
  {
    assert SliceOf(s, busy).Ok(c, busy);
    if InOutcome(step) { OutcomeKeepsOk(c, s, step, busy); }
    else if InRemove(step) { RemoveKeepsOk(c, s, step, busy); }
    else { SaveKeepsOk(c, s, step, busy); }
    forall id ensures SliceOf(ApplyWorker(c, s, step), id).Ok(c, id) {
      if id != busy {
        if InOutcome(step) { OutcomeTouchesOne(c, s, step, id); }
        else if InRemove(step) { RemoveTouchesOne(c, s, step, id); }
        else { SaveTouchesOne(c, s, step, id); }
      }
    }
  }

  lemma CrashKeepsInv(c: Config, s: State)
    requires Inv(c, s)
    ensures Inv(c, Crashed(s))
  {
    forall id ensures SliceOf(Crashed(s), id).Ok(c, id) {
      assert SliceOf(s, id).Ok(c, id);
    }
  }

  lemma WorkerStepKeepsInv(c: Config, s: State, step: Step)
    requires Inv(c, s) && WorkerEnabled(s, step)
    ensures Inv(c, ApplyWorker(c, s, step))
  {
    if ApplyWorker(c, s, step) == Crashed(s) {
      CrashKeepsInv(c, s);
    } else if OnlyMovesOn(step) {
      MovingOnKeepsInv(c, s, step);
    } else {
      BusyStepKeepsInv(c, s, step, WorkerId(s.worker).value);
    }
  }

  /** The invariant holds after every run from an empty spool: any number of submissions, sweeps,
      failures and crashes, interleaved in any way. */
  lemma {:induction false} RunKeepsInv(c: Config, s: State, steps: seq<Step>)
    requires Inv(c, s) && Possible(c, s, steps)
    ensures Inv(c, Exec(c, s, steps))
    decreases |steps|
  {
    if steps != [] {
      if ByClient(steps[0]) {
        ClientStepKeepsInv(c, s, steps[0]);
      } else {
        WorkerStepKeepsInv(c, s, steps[0]);
      }
      RunKeepsInv(c, Apply(c, s, steps[0]), steps[1..]);
    }
  }

  // ---------- what it means ----------

  ghost predicate Reachable(c: Config, s: State) {
    exists steps: seq<Step> :: Possible(c, EMPTY, steps) && s == Exec(c, EMPTY, steps)
  }

  lemma ReachableInv(c: Config, s: State)
    requires Reachable(c, s)
    ensures Inv(c, s)
  {
    var steps: seq<Step> :| Possible(c, EMPTY, steps) && s == Exec(c, EMPTY, steps);
    assert Inv(c, EMPTY);
    RunKeepsInv(c, EMPTY, steps);
  }

  /** Whatever crashes: a mail whose submission returned success has its whole body on disk, or some
      host accepted it, or it was given up on and (if there is one) the failure callback ran. */
  lemma AcceptedMailIsSafe(c: Config, s: State, id: Id)
    requires Reachable(c, s) && id in s.accepted
    ensures id in s.submitted
    ensures || (id in s.bodies && s.bodies[id] == Whole(s.submitted[id].data))
            || id in s.sent
            || (id in s.givenUp && (c.hasCallback ==> id in s.notified))
    ensures id in s.notified ==> id in s.givenUp && c.hasCallback
  {
    ReachableInv(c, s);
    assert SliceOf(s, id).Ok(c, id);
  }

  /** The silent drop loses nothing: when the worker finds no body, the mail was already finished. */
  lemma DropLosesNothing(c: Config, s: State)
    requires Reachable(c, s) && s.worker.Reading? && s.worker.item.id !in s.bodies
    ensures s.worker.item.id in s.sent || s.worker.item.id in s.givenUp
  {
    ReachableInv(c, s);
    assert SliceOf(s, s.worker.item.id).Ok(c, s.worker.item.id);
  }

  /** A host is only ever given the mail as it was submitted, whole and to its own recipient. */
  lemma SentAsSubmitted(c: Config, s: State)
    requires Reachable(c, s)
    ensures forall id :: id in s.sent ==> id in s.submitted && s.sent[id] == s.submitted[id]
    ensures s.worker.Sending? ==>
              s.worker.item.id in s.submitted
              && Mail(s.worker.item.from, s.worker.item.to, s.worker.data) == s.submitted[s.worker.item.id]
  {
    ReachableInv(c, s);
    forall id | id in s.sent
      ensures id in s.submitted && s.sent[id] == s.submitted[id]
    {
      assert SliceOf(s, id).Ok(c, id);
    }
  }

  // ---------- no body is forgotten ----------

  /** A body past its submission has its metadata beside it, so that a sweep comes upon it; and the worker
      removes metadata only where the body is gone. */
  ghost predicate NoneForgotten(s: State) {
    && (forall id :: SliceOf(s, id).Settled() && id in s.bodies ==> id in s.metas)
    && (s.worker.RemovingMeta? ==> s.worker.id !in s.bodies)
  }

  /** The other mails keep their files, and none becomes accepted or finished. */
  lemma SameSliceNotForgotten(s: State, s': State, id: Id)
    requires NoneForgotten(s) && SliceOf(s', id) == SliceOf(s, id)
    ensures SliceOf(s', id).Settled() && id in s'.bodies ==> id in s'.metas
  {
    assert SliceOf(s, id).body.Some? <==> id in s.bodies;
    assert SliceOf(s, id).meta.Some? <==> id in s.metas;
    assert SliceOf(s', id).body.Some? <==> id in s'.bodies;
    assert SliceOf(s', id).meta.Some? <==> id in s'.metas;
  }

  lemma ClientForgetsNone(c: Config, s: State, step: Step)
    requires Inv(c, s) && NoneForgotten(s) && ByClient(step) && ClientEnabled(s, step)
    ensures NoneForgotten(ApplyClient(s, step))
  {
    var s' := ApplyClient(s, step);
    assert SliceOf(s, step.id).Ok(c, step.id);
    forall id ensures SliceOf(s', id).Settled() && id in s'.bodies ==> id in s'.metas {
      if id != step.id {
        ClientTouchesOne(s, step, id);
        SameSliceNotForgotten(s, s', id);
      }
    }
    if s.worker.RemovingMeta? { assert SliceOf(s, s.worker.id).Ok(c, s.worker.id); }
  }

  lemma BusyStepForgetsNone(c: Config, s: State, step: Step, busy: Id)
    requires Inv(c, s) && NoneForgotten(s) && WorkerEnabled(s, step) && WorkerId(s.worker) == Some(busy)
    requires InOutcome(step) || InRemove(step) || InSave(step)
    requires step != RemoveBody(false)
    ensures NoneForgotten(ApplyWorker(c, s, step))
  {
    var s' := ApplyWorker(c, s, step);
    forall id ensures SliceOf(s', id).Settled() && id in s'.bodies ==> id in s'.metas {
      if id != busy {
        if InOutcome(step) { OutcomeTouchesOne(c, s, step, id); }
        else if InRemove(step) { RemoveTouchesOne(c, s, step, id); }
        else { SaveTouchesOne(c, s, step, id); }
        SameSliceNotForgotten(s, s', id);
      }
    }
  }

  lemma WorkerForgetsNone(c: Config, s: State, step: Step)
    requires Inv(c, s) && NoneForgotten(s) && WorkerEnabled(s, step) && step != RemoveBody(false)
    ensures NoneForgotten(ApplyWorker(c, s, step))
  {
    var s' := ApplyWorker(c, s, step);
    if OnlyMovesOn(step) || step.Crash? {
      if OnlyMovesOn(step) { MovingOnChangesNoFile(c, s, step); }
      forall id ensures SliceOf(s', id).Settled() && id in s'.bodies ==> id in s'.metas {
        assert SliceOf(s, id).Ok(c, id);
      }
    } else {
      BusyStepForgetsNone(c, s, step, WorkerId(s.worker).value);
    }
  }

  /** As long as no removal of a body fails, and whatever else does, in every state of every run an accepted
      mail whose body is still there has its metadata too. */
  lemma {:induction false} NoBodyIsForgotten(c: Config, s: State, steps: seq<Step>)
    requires Inv(c, s) && NoneForgotten(s) && Possible(c, s, steps) && RemoveBody(false) !in steps
    ensures var s' := Exec(c, s, steps);
            NoneForgotten(s') && forall id :: id in s'.accepted && id in s'.bodies ==> id in s'.metas
    decreases |steps|
  {
    if steps == [] {
      forall id | id in s.accepted && id in s.bodies ensures id in s.metas {
        assert SliceOf(s, id).Ok(c, id);
      }
    } else {
      assert steps == [steps[0]] + steps[1..];
      if ByClient(steps[0]) {
        ClientStepKeepsInv(c, s, steps[0]);
        ClientForgetsNone(c, s, steps[0]);
      } else {
        WorkerStepKeepsInv(c, s, steps[0]);
        WorkerForgetsNone(c, s, steps[0]);
      }
      NoBodyIsForgotten(c, Apply(c, s, steps[0]), steps[1..]);
    }
  }

  // ---------- what does get lost in the cracks ----------

  /** Metadata cut short by a crash inside a rewrite, with nobody left to write it again. */
  predicate Stuck(s: State, id: Id) {
    id in s.submitted && id in s.metas && s.metas[id].Torn? && id !in s.clients && WorkerId(s.worker) != Some(id)
  }

  lemma MovingOnChangesNoFile(c: Config, s: State, step: Step)
    requires OnlyMovesOn(step) && WorkerEnabled(s, step)
    ensures var s' := ApplyWorker(c, s, step); s' == s.(worker := s'.worker) || s' == Crashed(s)
  {
    match step {
      case Sweep(_, _) =>
      case Look => assert Looked(s) == s.(worker := Looked(s).worker);
      case Read(partial) => assert BodyRead(s, partial) == s.(worker := BodyRead(s, partial).worker);
      case Refused(permanent, at, _) =>
        var s' := AfterRefusal(c, s, permanent, at);
        assert s' == s.(worker := s'.worker) || s' == Crashed(s);
    }
  }

  lemma MovingOnLeavesSlices(c: Config, s: State, step: Step, id: Id)
    requires OnlyMovesOn(step) && WorkerEnabled(s, step) && id !in s.clients
    ensures SliceOf(ApplyWorker(c, s, step), id) == SliceOf(s, id)
  {
    var s' := ApplyWorker(c, s, step);
    MovingOnChangesNoFile(c, s, step);
    assert SliceOf(s.(worker := s'.worker), id) == SliceOf(s, id);
    assert SliceOf(Crashed(s), id) == SliceOf(s, id);
  }

  lemma WorkerPassesStuckBy(c: Config, s: State, step: Step, id: Id)
    requires Stuck(s, id) && WorkerEnabled(s, step)
    ensures SliceOf(ApplyWorker(c, s, step), id) == SliceOf(s, id)
  {
    if OnlyMovesOn(step) { MovingOnLeavesSlices(c, s, step, id); }
    else if InOutcome(step) { OutcomeTouchesOne(c, s, step, id); }
    else if InRemove(step) { RemoveTouchesOne(c, s, step, id); }
    else if InSave(step) { SaveTouchesOne(c, s, step, id); }
  }

  /** The worker never takes up a stuck mail: its metadata cannot be loaded. */
  lemma WorkerAvoidsStuck(c: Config, s: State, step: Step, id: Id)
    requires Inv(c, s) && Stuck(s, id) && WorkerEnabled(s, step)
    ensures WorkerId(ApplyWorker(c, s, step).worker) != Some(id)
  {
    if step.Look? && s.worker.todo != [] {
      assert SliceOf(s, s.worker.todo[0]).Ok(c, s.worker.todo[0]);
    }
  }

  lemma SameSliceStaysStuck(s: State, s': State, id: Id)
    requires Stuck(s, id) && SliceOf(s', id) == SliceOf(s, id) && WorkerId(s'.worker) != Some(id)
    ensures Stuck(s', id)
  {
    assert SliceOf(s', id).meta == Some(s.metas[id]);
    assert SliceOf(s', id).client == None;
    assert SliceOf(s', id).mail == Some(s.submitted[id]);
  }

  lemma StepKeepsStuck(c: Config, s: State, step: Step, id: Id)
    requires Inv(c, s) && Stuck(s, id) && Enabled(s, step)
    ensures Inv(c, Apply(c, s, step)) && Stuck(Apply(c, s, step), id)
    ensures SliceOf(Apply(c, s, step), id) == SliceOf(s, id)
  {
    if ByClient(step) {
      ClientStepKeepsInv(c, s, step);
      ClientTouchesOne(s, step, id);
    } else {
      WorkerStepKeepsInv(c, s, step);
      WorkerPassesStuckBy(c, s, step, id);
      WorkerAvoidsStuck(c, s, step, id);
    }
    SameSliceStaysStuck(s, Apply(c, s, step), id);
  }

  /** A stuck mail is stuck for good: no run that follows sends it, reports it or removes it. */
  lemma {:induction false} StuckForGood(c: Config, s: State, steps: seq<Step>, id: Id)
    requires Inv(c, s) && Stuck(s, id) && Possible(c, s, steps)
    ensures Stuck(Exec(c, s, steps), id)
    ensures SliceOf(Exec(c, s, steps), id) == SliceOf(s, id)
    decreases |steps|
  {
    if steps != [] {
      StepKeepsStuck(c, s, steps[0], id);
      StuckForGood(c, Apply(c, s, steps[0]), steps[1..], id);
    }
  }

  lemma StepFirst(c: Config, s: State, step: Step, rest: seq<Step>)
    requires Enabled(s, step) && Possible(c, Apply(c, s, step), rest)
    ensures Possible(c, s, [step] + rest) && Exec(c, s, [step] + rest) == Exec(c, Apply(c, s, step), rest)
  {
    assert ([step] + rest)[1..] == rest;
  }

  lemma RunsJoin(c: Config, s: State, first: seq<Step>, second: seq<Step>)
    requires Possible(c, s, first) && Possible(c, Exec(c, s, first), second)
    ensures Possible(c, s, first + second) && Exec(c, s, first + second) == Exec(c, Exec(c, s, first), second)
    decreases |first|
  {
    if first == [] {
      assert first + second == second;
    } else {
      RunsJoin(c, Apply(c, s, first[0]), first[1..], second);
      assert (first + second)[1..] == first[1..] + second;
    }
  }

  predicate Ran(c: Config, s: State, steps: seq<Step>, s': State) {
    Possible(c, s, steps) && Exec(c, s, steps) == s'
  }

  lemma OneStep(c: Config, s: State, step: Step, s': State)
    requires Enabled(s, step) && s' == Apply(c, s, step)
    ensures Ran(c, s, [step], s')
  {
    StepFirst(c, s, step, []);
    assert [step] + [] == [step];
  }

  lemma StepThen(c: Config, s: State, step: Step, s': State, rest: seq<Step>, s'': State)
    requires Enabled(s, step) && s' == Apply(c, s, step) && Ran(c, s', rest, s'')
    ensures Ran(c, s, [step] + rest, s'')
  {
    StepFirst(c, s, step, rest);
  }

  lemma RanJoin(c: Config, s: State, first: seq<Step>, s': State, second: seq<Step>, s'': State)
    requires Ran(c, s, first, s') && Ran(c, s', second, s'')
    ensures Ran(c, s, first + second, s'')
  {
    RunsJoin(c, s, first, second);
  }

  lemma RanKeepsInv(c: Config, s: State, steps: seq<Step>, s': State)
    requires Inv(c, s) && Ran(c, s, steps, s')
    ensures Inv(c, s')
  {
    RunKeepsInv(c, s, steps);
  }

  /** Removals that fail. */
  lemma ClearingFails(c: Config, s: State) returns (steps: seq<Step>)
    requires s.worker.RemovingBody?
    ensures Ran(c, s, steps, s.(worker := Looking(s.worker.todo, s.worker.now)))
  {
    var s1 := s.(worker := RemovingMeta(s.worker.id, s.worker.todo, s.worker.now));
    var s2 := s.(worker := Looking(s.worker.todo, s.worker.now));
    assert s1 == Apply(c, s, RemoveBody(false)) && s2 == Apply(c, s1, RemoveMeta(false));
    OneStep(c, s1, RemoveMeta(false), s2);
    StepThen(c, s, RemoveBody(false), s1, [RemoveMeta(false)], s2);
    steps := [RemoveBody(false)] + [RemoveMeta(false)];
  }

  /** Whatever `other` is, the worker can get past it without touching a file. */
  lemma ReadingPasses(c: Config, s: State, other: Id) returns (steps: seq<Step>, s': State)
    requires s.worker.Reading? && s.worker.item.id == other
    ensures Ran(c, s, steps, s') && s' == s.(worker := Looking(s.worker.todo, s.worker.now), sent := s'.sent)
    ensures forall id :: id != other ==> (id in s'.sent <==> id in s.sent)
  {
    var w := s.worker;
    var s1 := BodyRead(s, []);
    assert s1 == Apply(c, s, Read([])) && s1 == s.(worker := s1.worker);
    s' := s.(worker := Looking(w.todo, w.now));
    var rest: seq<Step>;
    if other !in s.bodies {
      rest := ClearingFails(c, s1);
    } else {
      var mail := Mail(w.item.from, w.item.to, s1.worker.data);
      var s2 := s.(sent := s.sent[other := mail], worker := RemovingBody(other, w.todo, w.now));
      assert s2 == Apply(c, s1, Delivered(1));
      s' := s'.(sent := s.sent[other := mail]);
      var clearing := ClearingFails(c, s2);
      StepThen(c, s1, Delivered(1), s2, clearing, s');
      rest := [Delivered(1)] + clearing;
    }
    StepThen(c, s, Read([]), s1, rest, s');
    steps := [Read([])] + rest;
  }

  lemma NamePasses(c: Config, s: State, id: Id) returns (steps: seq<Step>, s': State)
    requires Inv(c, s) && s.worker.Looking? && s.worker.todo != [] && s.worker.todo[0] != id
    ensures Ran(c, s, steps, s')
    ensures s' == s.(worker := Looking(s.worker.todo[1..], s.worker.now), sent := s'.sent)
    ensures id in s'.sent <==> id in s.sent
  {
    var other := s.worker.todo[0];
    var s1 := Looked(s);
    assert s1 == Apply(c, s, Look) && s1 == s.(worker := s1.worker);
    if s1.worker.Reading? {
      assert SliceOf(s, other).Ok(c, other);
      var rest;
      rest, s' := ReadingPasses(c, s1, other);
      StepThen(c, s, Look, s1, rest, s');
      steps := [Look] + rest;
    } else {
      s' := s1;
      OneStep(c, s, Look, s1);
      steps := [Look];
    }
  }

  /** The names before `id` in the listing. */
  lemma {:induction false} NamesPass(c: Config, s: State, id: Id, k: nat) returns (steps: seq<Step>, s': State)
    requires Inv(c, s) && s.worker.Looking? && k <= |s.worker.todo|
    requires forall i :: 0 <= i < k ==> s.worker.todo[i] != id
    ensures Ran(c, s, steps, s')
    ensures s' == s.(worker := Looking(s.worker.todo[k..], s.worker.now), sent := s'.sent)
    ensures id in s'.sent <==> id in s.sent
    decreases k
  {
    if k == 0 {
      assert s.worker.todo[0..] == s.worker.todo;
      steps, s' := [], s;
    } else {
      var first, s1 := NamePasses(c, s, id);
      RanKeepsInv(c, s, first, s1);
      assert s1.worker.todo[k - 1..] == s.worker.todo[k..];
      var rest;
      rest, s' := NamesPass(c, s1, id, k - 1);
      RanJoin(c, s, first, s1, rest, s');
      steps := first + rest;
    }
  }

  /** The listing in the order of the names. */
  lemma SortedIsListing(s: State)
    ensures Lists(s, Keys.Sorted(s.metas.Keys))
  {
    var listing := Keys.Sorted(s.metas.Keys);
    forall i, j | 0 <= i < j < |listing| ensures listing[i] != listing[j] {
      Keys.LessTotal(listing[i], listing[j]);
    }
  }

  lemma OwnTurn(c: Config, s: State, id: Id) returns (steps: seq<Step>, s': State)
    requires s.worker.Looking? && s.worker.todo != [] && s.worker.todo[0] == id
    requires id in s.bodies && id in s.metas && s.metas[id].Whole? && s.metas[id].value.id == id
    requires s.metas[id].value.next <= s.worker.now
    ensures Ran(c, s, steps, s') && s' == s.(worker := s'.worker)
    ensures s'.worker.Sending? && s'.worker.item == s.metas[id].value
  {
    var s1 := Looked(s);
    s' := BodyRead(s1, []);
    assert s1 == Apply(c, s, Look) && s' == Apply(c, s1, Read([]));
    OneStep(c, s1, Read([]), s');
    StepThen(c, s, Look, s1, [Read([])], s');
    steps := [Look] + [Read([])];
  }

  /** One sweep over the whole directory gets as far as offering the mail. */
  lemma AttemptReaches(c: Config, s: State, id: Id) returns (steps: seq<Step>, s': State)
    requires Inv(c, s) && s.worker.Idle? && id in s.bodies && id in s.metas && s.metas[id].Whole?
    ensures Ran(c, s, steps, s') && s' == s.(worker := s'.worker, sent := s'.sent)
    ensures s'.worker.Sending? && s'.worker.item == s.metas[id].value
    ensures id in s'.sent <==> id in s.sent
  {
    assert SliceOf(s, id).Ok(c, id);
    SortedIsListing(s);
    var listing := Keys.Sorted(s.metas.Keys);
    var now := s.metas[id].value.next;
    var k: nat :| k < |listing| && listing[k] == id;
    var s1 := s.(worker := Looking(listing, now));
    assert s1 == Apply(c, s, Sweep(listing, now));
    OneStep(c, s, Sweep(listing, now), s1);
    RanKeepsInv(c, s, [Sweep(listing, now)], s1);
    var before, s2 := NamesPass(c, s1, id, k);
    var turn;
    turn, s' := OwnTurn(c, s2, id);
    RanJoin(c, s1, before, s2, turn, s');
    StepThen(c, s, Sweep(listing, now), s1, before + turn, s');
    steps := [Sweep(listing, now)] + (before + turn);
  }

  /** One sweep in which the delivery succeeds. */
  lemma SweepDelivers(c: Config, s: State, id: Id) returns (steps: seq<Step>)
    requires Inv(c, s) && s.worker.Idle? && id in s.bodies && id in s.metas && s.metas[id].Whole?
    ensures Possible(c, s, steps) && id in Exec(c, s, steps).sent
  {
    assert SliceOf(s, id).Ok(c, id);
    var attempt, s' := AttemptReaches(c, s, id);
    var s'' := Apply(c, s', Delivered(1));
    OneStep(c, s', Delivered(1), s'');
    RanJoin(c, s, attempt, s', [Delivered(1)], s'');
    steps := attempt + [Delivered(1)];
  }

  /** Between sweeps, an accepted mail nothing has become of can still be delivered exactly when its
      metadata is whole. */
  lemma DeliverableIffMetadataWhole(c: Config, s: State, id: Id)
    requires Reachable(c, s) && s.worker.Idle?
    requires id in s.accepted && id !in s.sent && id !in s.givenUp
    ensures id in s.metas
    ensures (exists steps: seq<Step> :: Possible(c, s, steps) && id in Exec(c, s, steps).sent)
            <==> s.metas[id].Whole?
  {
    ReachableInv(c, s);
    assert SliceOf(s, id).Ok(c, id);
    if s.metas[id].Whole? {
      var steps := SweepDelivers(c, s, id);
    } else {
      forall steps: seq<Step> | Possible(c, s, steps) ensures id !in Exec(c, s, steps).sent {
        StuckForGood(c, s, steps, id);
        assert SliceOf(Exec(c, s, steps), id).sent == SliceOf(s, id).sent;
      }
    }
  }

  lemma SubmissionSucceeds(c: Config, id: Id, mail: Mail) returns (steps: seq<Step>)
    ensures Possible(c, EMPTY, steps)
    ensures var s := Exec(c, EMPTY, steps);
            && s.worker.Idle? && id in s.accepted && s.clients == map[] && s.sent == map[] && s.givenUp == {}
            && id in s.submitted && id in s.bodies && id in s.metas
            && s.metas[id] == Whole(Item(id, mail.from, mail.to, 0, 0))
  {
    var s1 := Apply(c, EMPTY, Submit(id, mail));
    var s2 := Apply(c, s1, WriteBody(id));
    var s3 := Apply(c, s2, OpenMeta(id));
    var s4 := Apply(c, s3, WriteMeta(id, 0));
    StepFirst(c, s4, Accept(id), []);
    var r4 := [Accept(id)] + [];
    StepFirst(c, s3, WriteMeta(id, 0), r4);
    var r3 := [WriteMeta(id, 0)] + r4;
    StepFirst(c, s2, OpenMeta(id), r3);
    var r2 := [OpenMeta(id)] + r3;
    StepFirst(c, s1, WriteBody(id), r2);
    var r1 := [WriteBody(id)] + r2;
    StepFirst(c, EMPTY, Submit(id, mail), r1);
    steps := [Submit(id, mail)] + r1;
  }

  lemma CrashWhileRewriting(c: Config, s: State) returns (steps: seq<Step>)
    requires s.worker.Sending? && c.retryIntervals != [] && s.worker.item.attempts < c.maxRetries
    ensures Possible(c, s, steps)
    ensures Exec(c, s, steps) == Crashed(s).(metas := s.metas[s.worker.item.id := Torn])
  {
    var s1 := Apply(c, s, Refused(false, 0, 0));
    var s2 := Apply(c, s1, OpenSave);
    StepFirst(c, s2, Crash, []);
    var r2 := [Crash] + [];
    StepFirst(c, s1, OpenSave, r2);
    var r1 := [OpenSave] + r2;
    StepFirst(c, s, Refused(false, 0, 0), r1);
    steps := [Refused(false, 0, 0)] + r1;
  }

  /** An accepted mail nothing has become of and nothing ever will. */
  ghost predicate Stranded(s: State, id: Id) {
    id in s.accepted && Stuck(s, id) && id !in s.sent && id !in s.givenUp
  }

  lemma CrashInRewriteStrands(c: Config, id: Id, mail: Mail)
    requires c.retryIntervals != [] && c.maxRetries >= 1
    ensures exists s :: Reachable(c, s) && Stranded(s, id)
  {
    var submission := SubmissionSucceeds(c, id, mail);
    var s := Exec(c, EMPTY, submission);
    assert Inv(c, EMPTY);
    RunKeepsInv(c, EMPTY, submission);
    var attempt, s' := AttemptReaches(c, s, id);
    var rewrite := CrashWhileRewriting(c, s');
    RunsJoin(c, s, attempt, rewrite);
    RunsJoin(c, EMPTY, submission, attempt + rewrite);
    assert Reachable(c, Exec(c, s', rewrite));
  }

  /** Metadata is never written a second time. */
  ghost predicate WrittenOnce(s: State) {
    && !s.worker.Saving? && !s.worker.SavingOpen?
    && (forall id :: id in s.metas && s.metas[id].Torn? ==>
          id !in s.accepted && !(id in s.clients && s.clients[id] == MetaWritten))
  }

  lemma ClientWritesOnce(c: Config, s: State, step: Step)
    requires Inv(c, s) && WrittenOnce(s) && ByClient(step) && ClientEnabled(s, step)
    ensures WrittenOnce(ApplyClient(s, step))
  {
    assert SliceOf(s, step.id).Ok(c, step.id);
  }

  lemma RefusalEndsIt(c: Config, s: State, permanent: bool, at: Time)
    requires (c.retryIntervals == [] || c.maxRetries < 1) && s.worker.Sending?
    ensures !AfterRefusal(c, s, permanent, at).worker.Saving?
  {
  }

  lemma WorkerWritesOnce(c: Config, s: State, step: Step)
    requires c.retryIntervals == [] || c.maxRetries < 1
    requires WrittenOnce(s) && WorkerEnabled(s, step)
    ensures WrittenOnce(ApplyWorker(c, s, step))
  {
    if OnlyMovesOn(step) {
      MovingOnChangesNoFile(c, s, step);
      if step.Refused? { RefusalEndsIt(c, s, step.permanent, step.at); }
    }
  }

  lemma {:induction false} RunWritesOnce(c: Config, s: State, steps: seq<Step>)
    requires c.retryIntervals == [] || c.maxRetries < 1
    requires Inv(c, s) && WrittenOnce(s) && Possible(c, s, steps)
    ensures WrittenOnce(Exec(c, s, steps))
    decreases |steps|
  {
    if steps != [] {
      if ByClient(steps[0]) {
        ClientWritesOnce(c, s, steps[0]);
        ClientStepKeepsInv(c, s, steps[0]);
      } else {
        WorkerWritesOnce(c, s, steps[0]);
        WorkerStepKeepsInv(c, s, steps[0]);
      }
      RunWritesOnce(c, Apply(c, s, steps[0]), steps[1..]);
    }
  }

  lemma NoneStranded(c: Config, s: State, id: Id)
    requires c.retryIntervals == [] || c.maxRetries < 1
    requires Reachable(c, s)
    ensures !Stranded(s, id)
  {
    var steps: seq<Step> :| Possible(c, EMPTY, steps) && s == Exec(c, EMPTY, steps);
    RunWritesOnce(c, EMPTY, steps);
  }

  /** A crash can strand an accepted mail exactly when the configuration ever retries. */
  lemma StrandingIff(c: Config)
    ensures (exists s, id :: Reachable(c, s) && Stranded(s, id)) <==> c.retryIntervals != [] && c.maxRetries >= 1
  {
    if c.retryIntervals != [] && c.maxRetries >= 1 {
      CrashInRewriteStrands(c, "id", Mail("", "", ""));
    } else {
      forall s, id | Reachable(c, s) ensures !Stranded(s, id) {
        NoneStranded(c, s, id);
      }
    }
  }
}
