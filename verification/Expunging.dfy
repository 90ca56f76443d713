/** Removing messages from a folder's list and the sequence numbers that announce it. */
module Expunging {
  import opened UidTable
  import opened Reload

  /** The survivors, in their old order. */
  function Keep(l: seq<Message>, doomed: set<Uid>): seq<Message> {
    if l == [] then
      []
    else
      var n := |l| - 1;
      if l[n].uid in doomed then Keep(l[..n], doomed) else Keep(l[..n], doomed) + [l[n]]
  }

  /** Positions of the removed messages, counted from 1, last first. */
  function SeqNums(l: seq<Message>, doomed: set<Uid>): seq<nat> {
    if l == [] then
      []
    else
      var n := |l| - 1;
      if l[n].uid in doomed then [|l|] + SeqNums(l[..n], doomed) else SeqNums(l[..n], doomed)
  }

  /** A client's view after one EXPUNGE: the message at `num` is gone, later ones move up. */
  function RemoveAt(l: seq<Message>, num: nat): seq<Message>
    requires 1 <= num <= |l|
  {
    l[..num - 1] + l[num..]
  }

  predicate InRange(l: seq<Message>, nums: seq<nat>) {
    nums == [] || (1 <= nums[0] <= |l| && InRange(RemoveAt(l, nums[0]), nums[1..]))
  }

  function Replay(l: seq<Message>, nums: seq<nat>): seq<Message>
    requires InRange(l, nums)
  {
    if nums == [] then l else Replay(RemoveAt(l, nums[0]), nums[1..])
  }

  lemma {:induction false} ReplayPrefix(l: seq<Message>, kept: seq<Message>, doomed: set<Uid>)
    ensures InRange(l + kept, SeqNums(l, doomed))
    ensures Replay(l + kept, SeqNums(l, doomed)) == Keep(l, doomed) + kept
  {
    if l == [] {
      assert l + kept == kept;
    } else {
      var n := |l| - 1;
      if l[n].uid in doomed {
        assert RemoveAt(l + kept, |l|) == l[..n] + kept;
        assert SeqNums(l, doomed)[1..] == SeqNums(l[..n], doomed);
        ReplayPrefix(l[..n], kept, doomed);
      } else {
        assert l + kept == l[..n] + ([l[n]] + kept);
        assert Keep(l, doomed) + kept == Keep(l[..n], doomed) + ([l[n]] + kept);
        ReplayPrefix(l[..n], [l[n]] + kept, doomed);
      }
    }
  }

  /** Applying the announced numbers one after the other, renumbering each time, never leaves the
      list and ends at exactly the survivors in their old order. */
  lemma ReplayGivesSurvivors(l: seq<Message>, doomed: set<Uid>)
    ensures InRange(l, SeqNums(l, doomed))
    ensures Replay(l, SeqNums(l, doomed)) == Keep(l, doomed)
  {
    assert l + [] == l;
    assert Keep(l, doomed) + [] == Keep(l, doomed);
    ReplayPrefix(l, [], doomed);
  }

  lemma {:induction false} KeepMembers(l: seq<Message>, doomed: set<Uid>, m: Message)
    ensures m in Keep(l, doomed) <==> m in l && m.uid !in doomed
  {
    if l != [] {
      var n := |l| - 1;
      KeepMembers(l[..n], doomed, m);
      assert l == l[..n] + [l[n]];
    }
  }

  lemma {:induction false} KeepAscending(l: seq<Message>, doomed: set<Uid>)
    requires UidAscending(l)
    ensures UidAscending(Keep(l, doomed))
  {
    if l != [] {
      var n := |l| - 1;
      KeepAscending(l[..n], doomed);
      var rest := Keep(l[..n], doomed);
      forall i | 0 <= i < |rest|
        ensures rest[i].uid < l[n].uid
      {
        KeepMembers(l[..n], doomed, rest[i]);
      }
    }
  }
}
