/** Whole attempts against single file operations: every run of `Retries` is a run of `Spool`. */
module Mirror {
  import Keys
  import opened Retries

  /** The same mails and conversations, with the files of `l` and the worker at `w`. */
  function WithFiles(s: Spool.State, l: Ledger, w: Spool.Worker): Spool.State {
    s.(bodies := l.bodies, metas := l.metas, worker := w)
  }

  lemma RemovalIsARun(c: Config, s: Spool.State, l: Ledger, removing: Removing) returns (steps: seq<Spool.Step>)
    requires s.worker.RemovingBody? && s.bodies == l.bodies && s.metas == l.metas
    ensures Spool.Ran(c, s, steps, WithFiles(s, Removed(l, s.worker.id, removing), Spool.Looking(s.worker.todo, s.worker.now)))
  {
    var first := Spool.RemoveBody(removing.Both? || removing.BodyOnly?);
    var second := Spool.RemoveMeta(removing.Both? || removing.MetaOnly?);
    var s1 := Spool.Apply(c, s, first);
    var s2 := Spool.Apply(c, s1, second);
    Spool.OneStep(c, s1, second, s2);
    Spool.StepThen(c, s, first, s1, [second], s2);
    steps := [first] + [second];
  }

  lemma RewriteIsARun(c: Config, s: Spool.State) returns (steps: seq<Spool.Step>)
    requires s.worker.Saving?
    ensures Spool.Ran(c, s, steps, s.(metas := s.metas[s.worker.item.id := Spool.Whole(s.worker.item)],
                                worker := Spool.Looking(s.worker.todo, s.worker.now)))
  {
    var id := s.worker.item.id;
    var s1 := Spool.Apply(c, s, Spool.OpenSave);
    var s2 := Spool.Apply(c, s1, Spool.WriteSave);
    Spool.OneStep(c, s1, Spool.WriteSave, s2);
    Spool.StepThen(c, s, Spool.OpenSave, s1, [Spool.WriteSave], s2);
    steps := [Spool.OpenSave] + [Spool.WriteSave];
    assert s1.metas[id := Spool.Whole(s.worker.item)] == s.metas[id := Spool.Whole(s.worker.item)];
  }

  lemma CutShortIsARun(c: Config, s: Spool.State) returns (steps: seq<Spool.Step>)
    requires s.worker.Saving?
    ensures Spool.Ran(c, s, steps, s.(metas := s.metas[s.worker.item.id := Spool.Torn],
                                worker := Spool.Looking(s.worker.todo, s.worker.now)))
  {
    var s1 := Spool.Apply(c, s, Spool.OpenSave);
    var s2 := Spool.Apply(c, s1, Spool.SaveFails);
    Spool.OneStep(c, s1, Spool.SaveFails, s2);
    Spool.StepThen(c, s, Spool.OpenSave, s1, [Spool.SaveFails], s2);
    steps := [Spool.OpenSave] + [Spool.SaveFails];
  }

  lemma PostponementIsARun(c: Config, s: Spool.State, l: Ledger, item: Item, t: Tally, reply: Reply)
    returns (steps: seq<Spool.Step>)
    requires c.retryIntervals != [] && s.bodies == l.bodies && s.metas == l.metas && s.worker.Saving?
    requires s.worker.item == item.(attempts := item.attempts + 1,
                                    next := reply.finish + Spool.Delay(c, item.attempts + 1))
    ensures Spool.Ran(c, s, steps,
                WithFiles(s, Postponed(c, l, item, t, reply), Spool.Looking(s.worker.todo, s.worker.now)))
  {
    match reply.saving
    case Saved => steps := RewriteIsARun(c, s);
    case CutShort => steps := CutShortIsARun(c, s);
    case Untouched =>
      steps := [Spool.SaveFails];
      Spool.OneStep(c, s, Spool.SaveFails, Spool.Apply(c, s, Spool.SaveFails));
  }

  /** What an attempt on `item` records, in the terms of `Spool`. */
  predicate SameOutcome(c: Config, s: Spool.State, item: Item, reply: Reply, s': Spool.State, next: Spool.Worker) {
    var read := item.id in s.bodies;
    var ends := read && reply.failure.Some?
                && Spool.GivesUp(c, Relay.IsPermanent(reply.failure.value), item.attempts + 1);
    && s'.submitted == s.submitted && s'.accepted == s.accepted
    && s'.sent.Keys == (if read && reply.failure.None? then s.sent.Keys + {item.id} else s.sent.Keys)
    && s'.givenUp == (if ends then s.givenUp + {item.id} else s.givenUp)
    && s'.notified == (if ends && c.hasCallback then s.notified + {item.id} else s.notified)
    && (if read && Panics(c, item, reply) then s'.worker == Spool.Idle && s'.clients == map[]
        else s'.worker == next && s'.clients == s.clients)
  }

  lemma DropIsARun(c: Config, s: Spool.State, l: Ledger, reply: Reply, next: Spool.Worker)
    returns (steps: seq<Spool.Step>)
    requires s.worker.Reading? && s.bodies == l.bodies && s.metas == l.metas && s.worker.item.id !in l.bodies
    requires next == Spool.Looking(s.worker.todo, s.worker.now)
    ensures Spool.Ran(c, s, steps, WithFiles(s, Attempted(c, l, s.worker.item, reply), next))
  {
    var s1 := Spool.Apply(c, s, Spool.Read([]));
    var rest := RemovalIsARun(c, s1, l, reply.removing);
    steps := [Spool.Read([])] + rest;
    Spool.StepThen(c, s, Spool.Read([]), s1, rest, WithFiles(s, Attempted(c, l, s.worker.item, reply), next));
  }

  lemma DeliveryIsARun(c: Config, s: Spool.State, l: Ledger, reply: Reply) returns (steps: seq<Spool.Step>)
    requires s.worker.Sending? && s.bodies == l.bodies && s.metas == l.metas && s.worker.item.id in l.bodies
    requires reply.failure.None? && reply.takers > 0
    ensures Spool.Ran(c, s, steps, WithFiles(Sent(s), Attempted(c, l, s.worker.item, reply),
                                       Spool.Looking(s.worker.todo, s.worker.now)))
  {
    var s1 := Spool.Apply(c, s, Spool.Delivered(reply.takers));
    var rest := RemovalIsARun(c, s1, l, reply.removing);
    steps := [Spool.Delivered(reply.takers)] + rest;
    Spool.StepThen(c, s, Spool.Delivered(reply.takers), s1, rest, WithFiles(Sent(s), Attempted(c, l, s.worker.item, reply),
                                                       Spool.Looking(s.worker.todo, s.worker.now)));
  }

  function Sent(s: Spool.State): Spool.State
    requires s.worker.Sending?
  {
    s.(sent := s.sent[s.worker.item.id := Spool.Mail(s.worker.item.from, s.worker.item.to, s.worker.data)])
  }

  function GivenUpOn(c: Config, s: Spool.State, id: Id): Spool.State {
    s.(givenUp := s.givenUp + {id}, notified := if c.hasCallback then s.notified + {id} else s.notified)
  }

  lemma GivingUpIsARun(c: Config, s: Spool.State, l: Ledger, item: Item, reply: Reply)
    returns (steps: seq<Spool.Step>)
    requires s.worker.GivingUp? && s.bodies == l.bodies && s.metas == l.metas && s.worker.item.id == item.id
    requires item.id in l.bodies && reply.failure.Some?
    requires Spool.GivesUp(c, Relay.IsPermanent(reply.failure.value), item.attempts + 1)
    ensures Spool.Ran(c, s, steps, WithFiles(GivenUpOn(c, s, item.id), Attempted(c, l, item, reply),
                                       Spool.Looking(s.worker.todo, s.worker.now)))
  {
    var s1 := Spool.Apply(c, s, Spool.GiveUp);
    var rest := RemovalIsARun(c, s1, l, reply.removing);
    steps := [Spool.GiveUp] + rest;
    Spool.StepThen(c, s, Spool.GiveUp, s1, rest, WithFiles(GivenUpOn(c, s, item.id), Attempted(c, l, item, reply),
                                                    Spool.Looking(s.worker.todo, s.worker.now)));
  }

  lemma PostponingIsARun(c: Config, s: Spool.State, l: Ledger, item: Item, reply: Reply)
    returns (steps: seq<Spool.Step>)
    requires c.retryIntervals != [] && s.bodies == l.bodies && s.metas == l.metas && s.worker.Saving?
    requires item.id in l.bodies && reply.failure.Some?
    requires !Spool.GivesUp(c, Relay.IsPermanent(reply.failure.value), item.attempts + 1)
    requires s.worker.item == item.(attempts := item.attempts + 1,
                                    next := reply.finish + Spool.Delay(c, item.attempts + 1))
    ensures Spool.Ran(c, s, steps,
                WithFiles(s, Attempted(c, l, item, reply), Spool.Looking(s.worker.todo, s.worker.now)))
  {
    var t := TallyOf(l, item.id).(starts := TallyOf(l, item.id).starts + [reply.start]);
    steps := PostponementIsARun(c, s, l, item, t, reply);
  }

  lemma PanicChangesNoFile(c: Config, l: Ledger, item: Item, reply: Reply)
    requires item.id in l.bodies && Panics(c, item, reply)
    ensures var l' := Attempted(c, l, item, reply); l'.bodies == l.bodies && l'.metas == l.metas
  {
  }

  function RefusalStep(reply: Reply): Spool.Step
    requires reply.failure.Some?
  {
    Spool.Refused(Relay.IsPermanent(reply.failure.value), reply.finish, reply.takers)
  }

  lemma RefusalLeadsTo(c: Config, s: Spool.State, reply: Reply, s1: Spool.State)
    requires s.worker.Sending? && reply.failure.Some? && s1 == Spool.Apply(c, s, RefusalStep(reply))
    ensures if Panics(c, s.worker.item, reply) then s1 == Spool.Crashed(s)
            else s1 == s.(worker := s1.worker)
                 && (s1.worker.GivingUp? || s1.worker.Saving?)
                 && s1.worker.todo == s.worker.todo && s1.worker.now == s.worker.now
                 && s1.worker.item.id == s.worker.item.id
    ensures s1.worker.GivingUp? ==>
              Spool.GivesUp(c, Relay.IsPermanent(reply.failure.value), s.worker.item.attempts + 1)
    ensures s1.worker.Saving? ==>
              && c.retryIntervals != []
              && !Spool.GivesUp(c, Relay.IsPermanent(reply.failure.value), s.worker.item.attempts + 1)
              && s1.worker.item == s.worker.item.(attempts := s.worker.item.attempts + 1,
                                                  next := reply.finish + Spool.Delay(c, s.worker.item.attempts + 1))
  {
  }

  lemma GiveUpOutcome(c: Config, s: Spool.State, s1: Spool.State, l': Ledger, reply: Reply, next: Spool.Worker)
    requires s.worker.Sending? && s.worker.item.id in s.bodies && reply.failure.Some?
    requires Spool.GivesUp(c, Relay.IsPermanent(reply.failure.value), s.worker.item.attempts + 1)
    requires s1 == s.(worker := s1.worker)
    ensures SameOutcome(c, s, s.worker.item, reply, WithFiles(GivenUpOn(c, s1, s.worker.item.id), l', next), next)
  {
  }

  lemma PostponeOutcome(c: Config, s: Spool.State, s1: Spool.State, l': Ledger, reply: Reply, next: Spool.Worker)
    requires s.worker.Sending? && s.worker.item.id in s.bodies && reply.failure.Some? && c.retryIntervals != []
    requires !Spool.GivesUp(c, Relay.IsPermanent(reply.failure.value), s.worker.item.attempts + 1)
    requires s1 == s.(worker := s1.worker)
    ensures SameOutcome(c, s, s.worker.item, reply, WithFiles(s1, l', next), next)
  {
  }

  lemma PanicOutcome(c: Config, s: Spool.State, reply: Reply, next: Spool.Worker)
    requires s.worker.Sending? && s.worker.item.id in s.bodies && Panics(c, s.worker.item, reply)
    ensures SameOutcome(c, s, s.worker.item, reply, Spool.Crashed(s), next)
  {
  }

  lemma RefusalIsARun(c: Config, s: Spool.State, l: Ledger, reply: Reply, l': Ledger, next: Spool.Worker)
    returns (steps: seq<Spool.Step>, s': Spool.State)
    requires s.worker.Sending? && s.bodies == l.bodies && s.metas == l.metas && s.worker.item.id in l.bodies
    requires reply.failure.Some? && l' == Attempted(c, l, s.worker.item, reply)
    requires next == Spool.Looking(s.worker.todo, s.worker.now)
    ensures Spool.Ran(c, s, steps, s') && SameOutcome(c, s, s.worker.item, reply, s', next)
    ensures s'.bodies == l'.bodies && s'.metas == l'.metas
  {
    var item := s.worker.item;
    var s1 := Spool.Apply(c, s, RefusalStep(reply));
    RefusalLeadsTo(c, s, reply, s1);
    if Panics(c, item, reply) {
      PanicChangesNoFile(c, l, item, reply);
      PanicOutcome(c, s, reply, next);
      s', steps := s1, [RefusalStep(reply)];
      Spool.OneStep(c, s, RefusalStep(reply), s1);
    } else {
      var rest: seq<Spool.Step>;
      if s1.worker.GivingUp? {
        rest := GivingUpIsARun(c, s1, l, item, reply);
        s' := WithFiles(GivenUpOn(c, s1, item.id), l', next);
        GiveUpOutcome(c, s, s1, l', reply, next);
      } else {
        rest := PostponingIsARun(c, s1, l, item, reply);
        s' := WithFiles(s1, l', next);
        PostponeOutcome(c, s, s1, l', reply, next);
      }
      Spool.StepThen(c, s, RefusalStep(reply), s1, rest, s');
      steps := [RefusalStep(reply)] + rest;
    }
  }

  lemma DropOutcome(c: Config, s: Spool.State, l': Ledger, reply: Reply, next: Spool.Worker)
    requires s.worker.Reading? && s.worker.item.id !in s.bodies
    ensures SameOutcome(c, s, s.worker.item, reply, WithFiles(s, l', next), next)
  {
  }

  lemma DeliveryOutcome(c: Config, s: Spool.State, l': Ledger, reply: Reply, next: Spool.Worker)
    requires s.worker.Sending? && s.worker.item.id in s.bodies && reply.failure.None?
    ensures SameOutcome(c, s, s.worker.item, reply, WithFiles(Sent(s), l', next), next)
  {
  }

  lemma ReadingRecordsNothing(c: Config, s: Spool.State, s1: Spool.State, item: Item, reply: Reply,
                              s': Spool.State, next: Spool.Worker)
    requires s1 == s.(worker := s1.worker) && SameOutcome(c, s1, item, reply, s', next)
    ensures SameOutcome(c, s, item, reply, s', next)
  {
  }

  /** One whole attempt is a run of the worker, with the same files at the end and the same outcome. */
  lemma AttemptIsARun(c: Config, s: Spool.State, l: Ledger, reply: Reply, l': Ledger, next: Spool.Worker)
    returns (steps: seq<Spool.Step>, s': Spool.State)
    requires s.worker.Reading? && s.bodies == l.bodies && s.metas == l.metas
    requires l' == Attempted(c, l, s.worker.item, reply) && next == Spool.Looking(s.worker.todo, s.worker.now)
    requires reply.failure.None? ==> reply.takers > 0
    ensures Spool.Ran(c, s, steps, s') && SameOutcome(c, s, s.worker.item, reply, s', next)
    ensures s'.bodies == l'.bodies && s'.metas == l'.metas
  {
    var item := s.worker.item;
    if item.id !in l.bodies {
      steps := DropIsARun(c, s, l, reply, next);
      s' := WithFiles(s, l', next);
      DropOutcome(c, s, l', reply, next);
    } else {
      var s1 := Spool.BodyRead(s, []);
      assert s1 == s.(worker := s1.worker) && s1.worker.Sending? && s1.worker.item == item;
      assert s1 == Spool.Apply(c, s, Spool.Read([]));
      var rest: seq<Spool.Step>;
      if reply.failure.None? {
        rest := DeliveryIsARun(c, s1, l, reply);
        s' := WithFiles(Sent(s1), l', next);
        DeliveryOutcome(c, s1, l', reply, next);
      } else {
        rest, s' := RefusalIsARun(c, s1, l, reply, l', next);
      }
      ReadingRecordsNothing(c, s, s1, item, reply, s', next);
      Spool.StepThen(c, s, Spool.Read([]), s1, rest, s');
      steps := [Spool.Read([])] + rest;
    }
  }

  // ---------- whole runs ----------

  /** Between events the two tell the same story: the files, who was accepted, relayed, given up on and
      reported. */
  ghost predicate Mirrors(c: Config, l: Ledger, s: Spool.State) {
    && s.bodies == l.bodies && s.metas == l.metas && s.worker == Spool.Idle && s.clients == map[]
    && s.accepted == l.tally.Keys
    && (forall id :: id in s.sent <==> id in l.tally && l.tally[id].relayed > 0)
    && (forall id :: id in s.givenUp <==> id in l.tally && l.tally[id].givenUp > 0)
    && s.notified == (if c.hasCallback then s.givenUp else {})
    && (forall id :: id in s.submitted ==> id in l.bodies || id in l.tally)
  }

  // A submission.

  /** A submission that has come as far as `stage`. */
  function Halfway(s: Spool.State, id: Id, mail: Spool.Mail, stage: Spool.Stage): Spool.State {
    s.(submitted := s.submitted[id := mail],
       bodies := s.bodies[id := if stage.BodyOpen? then Spool.Torn else Spool.Whole(mail.data)],
       metas := if stage.MetaOpen? then s.metas[id := Spool.Torn] else s.metas,
       clients := s.clients[id := stage])
  }

  lemma BodyIsARun(c: Config, s: Spool.State, id: Id, mail: Spool.Mail) returns (steps: seq<Spool.Step>)
    requires id !in s.submitted
    ensures Spool.Ran(c, s, steps, Halfway(s, id, mail, Spool.BodyWritten))
  {
    var s1 := Halfway(s, id, mail, Spool.BodyOpen);
    var s2 := Halfway(s, id, mail, Spool.BodyWritten);
    assert s1 == Spool.Apply(c, s, Spool.Submit(id, mail));
    assert s2.bodies == s1.bodies[id := Spool.Whole(mail.data)];
    assert s2 == Spool.Apply(c, s1, Spool.WriteBody(id));
    Spool.OneStep(c, s1, Spool.WriteBody(id), s2);
    Spool.StepThen(c, s, Spool.Submit(id, mail), s1, [Spool.WriteBody(id)], s2);
    steps := [Spool.Submit(id, mail)] + [Spool.WriteBody(id)];
  }

  lemma FailureIsARun(c: Config, s: Spool.State, id: Id)
    requires id in s.clients && id in s.submitted
    ensures Spool.Ran(c, s, [Spool.SubmitFails(id)], s.(clients := s.clients - {id}))
  {
    Spool.OneStep(c, s, Spool.SubmitFails(id), s.(clients := s.clients - {id}));
  }

  lemma SuccessIsARun(c: Config, s: Spool.State, id: Id, at: Time) returns (steps: seq<Spool.Step>)
    requires id in s.clients && s.clients[id] == Spool.MetaOpen && id in s.submitted
    ensures var item := Spool.Item(id, s.submitted[id].from, s.submitted[id].to, 0, at);
            Spool.Ran(c, s, steps, s.(metas := s.metas[id := Spool.Whole(item)], accepted := s.accepted + {id},
                                clients := s.clients - {id}))
  {
    var s1 := Spool.Apply(c, s, Spool.WriteMeta(id, at));
    var s2 := Spool.Apply(c, s1, Spool.Accept(id));
    assert s1.clients - {id} == s.clients - {id};
    Spool.OneStep(c, s1, Spool.Accept(id), s2);
    Spool.StepThen(c, s, Spool.WriteMeta(id, at), s1, [Spool.Accept(id)], s2);
    steps := [Spool.WriteMeta(id, at)] + [Spool.Accept(id)];
  }

  /** The state after a submission, as `e` says its writes went. */
  function Submitted(s: Spool.State, l': Ledger, e: Event): Spool.State
    requires e.Enqueue?
  {
    if e.writing.Untouched? then s
    else s.(submitted := s.submitted[e.id := Spool.Mail(e.from, e.to, e.data)],
            bodies := l'.bodies, metas := l'.metas,
            accepted := if e.writing.Saved? && e.saving.Saved? then s.accepted + {e.id} else s.accepted)
  }

  lemma EnqueueIsARun(c: Config, s: Spool.State, l: Ledger, e: Event) returns (steps: seq<Spool.Step>)
    requires e.Enqueue? && e.id !in s.submitted && s.clients == map[]
    requires s.bodies == l.bodies && s.metas == l.metas
    ensures Spool.Ran(c, s, steps, Submitted(s, Enqueued(l, e), e))
  {
    var id, mail := e.id, Spool.Mail(e.from, e.to, e.data);
    if e.writing.Untouched? {
      steps := [];
    } else if e.writing.CutShort? {
      var s1 := Halfway(s, id, mail, Spool.BodyOpen);
      assert s1 == Spool.Apply(c, s, Spool.Submit(id, mail));
      FailureIsARun(c, s1, id);
      assert s1.clients - {id} == map[];
      Spool.StepThen(c, s, Spool.Submit(id, mail), s1, [Spool.SubmitFails(id)], Submitted(s, Enqueued(l, e), e));
      steps := [Spool.Submit(id, mail)] + [Spool.SubmitFails(id)];
    } else {
      var first := BodyIsARun(c, s, id, mail);
      var s2 := Halfway(s, id, mail, Spool.BodyWritten);
      var rest := MetadataIsARun(c, s, l, e, s2);
      Spool.RanJoin(c, s, first, s2, rest, Submitted(s, Enqueued(l, e), e));
      steps := first + rest;
    }
  }

  lemma MetadataIsARun(c: Config, s: Spool.State, l: Ledger, e: Event, s2: Spool.State)
    returns (steps: seq<Spool.Step>)
    requires e.Enqueue? && e.writing.Saved? && s.clients == map[]
    requires s.bodies == l.bodies && s.metas == l.metas
    requires s2 == Halfway(s, e.id, Spool.Mail(e.from, e.to, e.data), Spool.BodyWritten)
    ensures Spool.Ran(c, s2, steps, Submitted(s, Enqueued(l, e), e))
  {
    var id := e.id;
    assert s2.clients - {id} == map[];
    if e.saving.Untouched? {
      FailureIsARun(c, s2, id);
      steps := [Spool.SubmitFails(id)];
    } else {
      var s3 := Halfway(s, id, Spool.Mail(e.from, e.to, e.data), Spool.MetaOpen);
      assert s3.clients == s2.clients[id := Spool.MetaOpen] && s3.clients - {id} == map[];
      assert s3 == Spool.Apply(c, s2, Spool.OpenMeta(id));
      var rest: seq<Spool.Step>;
      if e.saving.CutShort? {
        FailureIsARun(c, s3, id);
        rest := [Spool.SubmitFails(id)];
      } else {
        rest := SuccessIsARun(c, s3, id, e.at);
        var whole := Spool.Whole(Spool.Item(id, e.from, e.to, 0, e.at));
        assert s3.metas[id := whole] == s.metas[id := whole];
      }
      Spool.StepThen(c, s2, Spool.OpenMeta(id), s3, rest, Submitted(s, Enqueued(l, e), e));
      steps := [Spool.OpenMeta(id)] + rest;
    }
  }

  lemma EnqueueTally(l: Ledger, e: Event, l': Ledger)
    requires e.Enqueue? && Enabled(l, e) && l' == Enqueued(l, e)
    ensures if e.writing.Saved? && e.saving.Saved?
            then l'.tally.Keys == l.tally.Keys + {e.id} && l'.tally[e.id].relayed == 0 && l'.tally[e.id].givenUp == 0
            else l'.tally.Keys == l.tally.Keys
    ensures forall id :: id in l.tally ==> l'.tally[id] == l.tally[id]
    ensures l'.bodies.Keys == if e.writing.Untouched? then l.bodies.Keys else l.bodies.Keys + {e.id}
    ensures e.writing.Untouched? ==> l' == l
  {
  }

  lemma EnqueueMirrors(c: Config, l: Ledger, e: Event, s: Spool.State)
    requires e.Enqueue? && Enabled(l, e) && Mirrors(c, l, s)
    ensures Mirrors(c, Enqueued(l, e), Submitted(s, Enqueued(l, e), e))
  {
    EnqueueTally(l, e, Enqueued(l, e));
  }

  // A visit.

  /** What an attempt does to the books, as far as outcomes go. */
  lemma AttemptTally(c: Config, l: Ledger, item: Item, reply: Reply, l': Ledger)
    requires l' == Attempted(c, l, item, reply) && item.id in l.tally
    ensures l'.tally.Keys == l.tally.Keys
    ensures forall id :: id in l.tally && id != item.id ==> l'.tally[id] == l.tally[id]
    ensures var read := item.id in l.bodies;
            var ends := read && reply.failure.Some?
                        && Spool.GivesUp(c, Relay.IsPermanent(reply.failure.value), item.attempts + 1);
            && l'.tally[item.id].relayed
               == l.tally[item.id].relayed + (if read && reply.failure.None? then 1 else 0)
            && l'.tally[item.id].givenUp == l.tally[item.id].givenUp + (if ends then 1 else 0)
  {
  }

  lemma AttemptMirrors(c: Config, l: Ledger, item: Item, reply: Reply, l': Ledger,
                       s: Spool.State, s': Spool.State)
    requires Mirrors(c, l, s) && item.id in l.tally && l' == Attempted(c, l, item, reply)
    requires SameOutcome(c, s, item, reply, s', Spool.Idle) && s'.bodies == l'.bodies && s'.metas == l'.metas
    ensures Mirrors(c, l', s')
  {
    AttemptTally(c, l, item, reply, l');
    forall id ensures id in s'.sent <==> id in l'.tally && l'.tally[id].relayed > 0 {
      assert id in s'.sent <==> id in s'.sent.Keys;
      assert id in s.sent <==> id in s.sent.Keys;
    }
    forall id | id in s'.submitted ensures id in l'.bodies || id in l'.tally {
      BodiesGoWithTally(c, l, item, reply, id);
    }
  }

  lemma BodiesGoWithTally(c: Config, l: Ledger, item: Item, reply: Reply, id: Id)
    requires item.id in l.tally
    ensures id in l.bodies && id != item.id ==> id in Attempted(c, l, item, reply).bodies
  {
  }

  /** The rest of the sweep need not come: the process may be restarted. */
  lemma SweepEnds(c: Config, s: Spool.State, item: Item, reply: Reply, s': Spool.State, next: Spool.Worker)
    returns (steps: seq<Spool.Step>, s'': Spool.State)
    requires SameOutcome(c, s, item, reply, s', next) && s.clients == map[]
    ensures Spool.Ran(c, s', steps, s'') && s''.bodies == s'.bodies && s''.metas == s'.metas
    ensures SameOutcome(c, s, item, reply, s'', Spool.Idle)
  {
    s'' := Spool.Crashed(s');
    Spool.OneStep(c, s', Spool.Crash, s'');
    steps := [Spool.Crash];
  }

  /** A listing that begins with `id`. */
  function ListingFrom(s: Spool.State, id: Id): seq<Id> {
    [id] + Keys.Sorted(s.metas.Keys - {id})
  }

  lemma ListingFromLists(s: Spool.State, id: Id)
    requires id in s.metas
    ensures Spool.Lists(s, ListingFrom(s, id))
  {
    var rest := Keys.Sorted(s.metas.Keys - {id});
    forall i, j | 0 <= i < j < |rest| ensures rest[i] != rest[j] {
      Keys.LessTotal(rest[i], rest[j]);
    }
    forall i | 0 <= i < |rest| ensures rest[i] != id {
      assert rest[i] in rest;
    }
  }

  lemma VisitIsARun(c: Config, l: Ledger, id: Id, now: Time, reply: Reply, s: Spool.State)
    returns (steps: seq<Spool.Step>, s': Spool.State)
    requires Mirrors(c, l, s) && SliceOf(l, id).Ok(c, id) && Timely(now, reply)
    ensures Spool.Ran(c, s, steps, s') && Mirrors(c, Visited(c, l, id, now, reply), s')
  {
    if id !in l.metas || l.metas[id].Torn? || l.metas[id].value.next > now {
      steps, s' := [], s;
    } else {
      var item, l' := l.metas[id].value, Visited(c, l, id, now, reply);
      var s2, first := ReadingStarts(c, s, id, now);
      var next := Spool.Looking(s2.worker.todo, now);
      var attempt, s3 := AttemptIsARun(c, s2, l, reply, l', next);
      ReadingRecordsNothing(c, s, s2, item, reply, s3, next);
      var last;
      last, s' := SweepEnds(c, s, item, reply, s3, next);
      Spool.RanJoin(c, s2, attempt, s3, last, s');
      Spool.RanJoin(c, s, first, s2, attempt + last, s');
      steps := first + (attempt + last);
      AttemptMirrors(c, l, item, reply, l', s, s');
    }
  }

  lemma ReadingStarts(c: Config, s: Spool.State, id: Id, now: Time)
    returns (s': Spool.State, steps: seq<Spool.Step>)
    requires s.worker == Spool.Idle && id in s.metas && s.metas[id].Whole? && s.metas[id].value.next <= now
    ensures Spool.Ran(c, s, steps, s') && s' == s.(worker := s'.worker)
    ensures s'.worker.Reading? && s'.worker.item == s.metas[id].value && s'.worker.now == now
  {
    var listing := ListingFrom(s, id);
    ListingFromLists(s, id);
    var s1 := s.(worker := Spool.Looking(listing, now));
    s' := Spool.Looked(s1);
    assert s1 == Spool.Apply(c, s, Spool.Sweep(listing, now)) && s' == Spool.Apply(c, s1, Spool.Look);
    Spool.OneStep(c, s1, Spool.Look, s');
    Spool.StepThen(c, s, Spool.Sweep(listing, now), s1, [Spool.Look], s');
    steps := [Spool.Sweep(listing, now)] + [Spool.Look];
  }

  /** Every run in which the process keeps running is one of the runs with single file operations, crashes
      and concurrent submissions, and ends with the same files and the same fates. */
  lemma {:induction false} RunIsMirrored(c: Config, l: Ledger, events: seq<Event>, s: Spool.State)
    returns (steps: seq<Spool.Step>, s': Spool.State)
    requires Inv(c, l) && Possible(c, l, events) && Mirrors(c, l, s)
    ensures Spool.Ran(c, s, steps, s') && Mirrors(c, Exec(c, l, events), s')
    decreases |events|
  {
    if events == [] {
      steps, s' := [], s;
    } else {
      var e := events[0];
      var first: seq<Spool.Step>, s1: Spool.State;
      if e.Enqueue? {
        first := EnqueueIsARun(c, s, l, e);
        s1 := Submitted(s, Enqueued(l, e), e);
        EnqueueMirrors(c, l, e, s);
      } else {
        assert SliceOf(l, e.id).Ok(c, e.id);
        first, s1 := VisitIsARun(c, l, e.id, e.now, e.reply, s);
      }
      EventKeepsInv(c, l, e);
      var rest: seq<Spool.Step>;
      rest, s' := RunIsMirrored(c, Apply(c, l, e), events[1..], s1);
      Spool.RanJoin(c, s, first, s1, rest, s');
      steps := first + rest;
    }
  }

  /** So every reachable ledger has a reachable spool, and what holds of all of these holds of it. */
  lemma ReachableIsMirrored(c: Config, l: Ledger) returns (s: Spool.State)
    requires Reachable(c, l)
    ensures Spool.Reachable(c, s) && Mirrors(c, l, s)
  {
    var events: seq<Event> :| Possible(c, NEW, events) && l == Exec(c, NEW, events);
    var steps;
    steps, s := RunIsMirrored(c, NEW, events, Spool.EMPTY);
    assert Spool.Possible(c, Spool.EMPTY, steps);
  }

  /** For one, a mail that is neither relayed nor given up on has its whole body on disk. */
  lemma UnfinishedMailHasItsBody(c: Config, l: Ledger, id: Id)
    requires Reachable(c, l) && id in l.tally && l.tally[id].relayed == 0 && l.tally[id].givenUp == 0
    ensures id in l.bodies && l.bodies[id].Whole?
  {
    var s := ReachableIsMirrored(c, l);
    Spool.AcceptedMailIsSafe(c, s, id);
  }
}
