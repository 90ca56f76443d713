/** The outbound queue itself: the object that keeps two files for each mail and works through them. */
module Queues {
  import opened Wrappers
  import opened Retries
  import opened Sequences

  /** The reply tells what the delivery met. */
  predicate Answers(net: Relay.Network, reply: Reply) {
    reply.failure == net.Outcome() && reply.takers == net.Takers()
  }

  class Queue {
    const config: Config

    /** The `.eml` and the `.json` files of the spool directory. */
    var bodies: map<Id, Spool.Content<string>>
    var metas: map<Id, Spool.Content<Item>>

    ghost var tally: map<Id, Tally>

    ghost function Books(): Ledger
      reads this
    {
      Ledger(bodies, metas, tally)
    }

    constructor (config: Config)
      ensures this.config == config && Books() == NEW
    {
      this.config := config;
      bodies, metas, tally := map[], map[], map[];
    }

    /** `save`; the id of the item names the file. */
    method Save(item: Item, saving: Saving) returns (ok: bool)
      modifies this`metas
      ensures ok == saving.Saved?
      ensures metas == match saving
                       case Saved => old(metas)[item.id := Spool.Whole(item)]
                       case Untouched => old(metas)
                       case CutShort => old(metas)[item.id := Spool.Torn]
    {
      if saving.Untouched? {
        return false;
      }
      metas := metas[item.id := Spool.Torn];
      if saving.CutShort? {
        return false;
      }
      metas := metas[item.id := Spool.Whole(item)];
      return true;
    }

    /** `load`: what is there and can be parsed. */
    method Load(id: Id) returns (item: Option<Item>)
      ensures item == if id in metas && metas[id].Whole? then Some(metas[id].value) else None
    {
      if id in metas && metas[id].Whole? {
        return Some(metas[id].value);
      }
      return None;
    }

    /** `remove`: both deletions are tried, whatever comes of the first. */
    method Remove(id: Id, removing: Removing)
      modifies this`bodies, this`metas
      ensures Books() == Removed(old(Books()), id, removing)
    {
      if removing.Both? || removing.BodyOnly? {
        bodies := bodies - {id};
      }
      if removing.Both? || removing.MetaOnly? {
        metas := metas - {id};
      }
    }

    /** `Enqueue` under the fresh name `e.id`; success means that both files are there, whole. */
    method Enqueue(e: Event) returns (id: Option<Id>)
      requires e.Enqueue? && Enabled(Books(), e)
      modifies this
      ensures Books() == Enqueued(old(Books()), e)
      ensures id == if e.writing.Saved? && e.saving.Saved? then Some(e.id) else None
      ensures id.Some? ==>
                && e.id in tally
                && bodies == old(bodies)[e.id := Spool.Whole(e.data)]
                && metas == old(metas)[e.id := Spool.Whole(Spool.Item(e.id, e.from, e.to, 0, e.at))]
    {
      if !e.writing.Saved? {
        if e.writing.CutShort? {
          bodies := bodies[e.id := Spool.Torn];
        }
        return None;
      }
      bodies := bodies[e.id := Spool.Whole(e.data)];
      var ok := Save(Spool.Item(e.id, e.from, e.to, 0, e.at), e.saving);
      if !ok {
        return None;
      }
      tally := tally[e.id := UNTRIED];
      return Some(e.id);
    }

    /** `attempt`.  The schedule is indexed from the end first and then, if it reaches that far, by the
        number of the attempt; with an empty schedule the first of these panics.  The delivery meets the
        world `net`; `reply` says what that comes to. */
    method Attempt(item: Item, net: Relay.Network, reply: Reply) returns (panicked: bool)
      requires Answers(net, reply)
      modifies this
      ensures Books() == Attempted(config, old(Books()), item, reply)
      ensures panicked == (item.id in old(bodies) && Panics(config, item, reply))
    {
      if item.id !in bodies {
        Remove(item.id, reply.removing);
        return false;
      }
      ghost var was := TallyOf(Books(), item.id);
      ghost var t := was.(starts := was.starts + [reply.start]);
      ghost var ended := t.(undone := t.undone + Undone(reply.removing));
      var failure, tried := Relay.Deliver(net);
      if failure.None? {
        tally := tally[item.id := ended.(relayed := t.relayed + 1)];
        Remove(item.id, reply.removing);
        return false;
      }
      var next := item.(attempts := item.attempts + 1);
      if Relay.IsPermanent(failure.value) || next.attempts > config.maxRetries {
        tally := tally[item.id := ended.(givenUp := t.givenUp + 1)];
        Remove(item.id, reply.removing);
        return false;
      }
      if config.retryIntervals == [] {
        tally := tally[item.id := t.(lost := t.lost + 1)];
        return true;
      }
      var delay := config.retryIntervals[|config.retryIntervals| - 1];
      if next.attempts - 1 < |config.retryIntervals| {
        delay := config.retryIntervals[next.attempts - 1];
      }
      next := next.(next := reply.finish + delay);
      var saved := Save(next, reply.saving);
      tally := tally[item.id := if reply.saving.Untouched? then t.(lost := t.lost + 1) else t];
      return false;
    }

    /** One name of the listing: what can be loaded and is due is attempted. */
    method Visit(id: Id, now: Time, net: Relay.Network, reply: Reply) returns (panicked: bool)
      requires Answers(net, reply)
      modifies this
      ensures Books() == Visited(config, old(Books()), id, now, reply)
      ensures panicked ==> config.retryIntervals == []
    {
      var item := Load(id);
      if item.None? {
        return false;
      }
      if item.value.next > now {
        return false;
      }
      panicked := Attempt(item.value, net, reply);
    }

    /** `processAll`: everything listed and due is attempted.  `listing` is the order the directory was
        read in, as far as the sweep got. */
    method ProcessAll(now: Time, nets: Id -> Relay.Network, replies: Id -> Reply)
      returns (listing: seq<Id>, depth: nat, panicked: bool)
      requires forall id :: Answers(nets(id), replies(id))
      modifies this
      ensures Books() == Swept(config, old(Books()), listing, now, replies)
      ensures Distinct(listing) && forall id :: id in listing ==> id in old(metas)
      ensures !panicked ==> (forall id :: id in old(metas) ==> id in listing) && depth == |old(metas)|
      ensures config.retryIntervals != [] ==> !panicked
    {
      ghost var start := Books();
      var entries := metas.Keys;
      listing, depth, panicked := [], 0, false;
      while entries != {}
        invariant Books() == Swept(config, start, listing, now, replies)
        invariant Distinct(listing)
        invariant forall id :: id in listing ==> id in start.metas && id !in entries
        invariant forall id :: id in start.metas ==> id in listing || id in entries
        invariant entries <= start.metas.Keys && depth + |entries| == |start.metas.Keys|
        decreases |entries|
      {
        var id :| id in entries;
        entries := entries - {id};
        depth := depth + 1;
        SweptFurther(config, start, listing, id, now, replies);
        panicked := Visit(id, now, nets(id), replies(id));
        listing := listing + [id];
        if panicked {
          return;
        }
      }
    }
  }

  lemma SweptFurther(c: Config, l: Ledger, listing: seq<Id>, id: Id, now: Time, replies: Id -> Reply)
    ensures Swept(c, l, listing + [id], now, replies)
         == Visited(c, Swept(c, l, listing, now, replies), id, now, replies(id))
  {
    assert (listing + [id])[..|listing|] == listing;
  }

  /** A mail only counts as relayed when a host it was offered to took it, and is only given up on when
      one rejected it for good or the retries ran out. */
  lemma OutcomesComeFromHosts(c: Config, l: Ledger, item: Item, net: Relay.Network, reply: Reply)
    requires Answers(net, reply)
    ensures var was, now := TallyOf(l, item.id), TallyOf(Attempted(c, l, item, reply), item.id);
            && (reply.failure.None? ==> reply.takers > 0)
            && (now.relayed > was.relayed ==>
                  net.Tried() != []
                  && Relay.Took(net.Route(), net.peers(net.Tried()[|net.Tried()| - 1])))
            && (now.givenUp > was.givenUp ==>
                  || item.attempts + 1 > c.maxRetries
                  || (&& net.Tried() != []
                      && var last := Relay.Session(net.Route(), net.peers(net.Tried()[|net.Tried()| - 1]));
                         last.Some? && Relay.IsPermanent(last.value)))
  {
    Relay.OutcomeIsAHostsWord(net);
    Relay.TakersAndQuits(net);
    OutcomeSteps(c, l, item, reply);
  }

  lemma OutcomeSteps(c: Config, l: Ledger, item: Item, reply: Reply)
    ensures var was, now := TallyOf(l, item.id), TallyOf(Attempted(c, l, item, reply), item.id);
            && (now.relayed > was.relayed ==> reply.failure.None?)
            && (now.givenUp > was.givenUp ==>
                  reply.failure.Some? && Spool.GivesUp(c, Relay.IsPermanent(reply.failure.value), item.attempts + 1))
  {
  }
}
