/** The broadcast channel of broadcast.rs: one queue per subscriber, dropped receivers pruned by the
    next send.  It is a shared log in which every live receiver has a cursor. */
module Broadcast {
  /** What `recv` comes back with; `Waiting` is a receiver that blocks, or runs into its timeout. */
  datatype Outcome<T> = Got(value: T) | Disconnected | Waiting

  /** What another thread may do between two deliveries of the same send. */
  datatype Act = Takes(receiver: nat) | Drops(receiver: nat)

  /** The live receivers of a subscriber list, in order. */
  function Living(subscribers: seq<nat>, alive: seq<bool>): seq<nat> {
    if subscribers == [] then []
    else
      var last := |subscribers| - 1;
      Living(subscribers[..last], alive)
      + if subscribers[last] < |alive| && alive[subscribers[last]] then [subscribers[last]] else []
  }

  lemma {:induction false} LivingAre(subscribers: seq<nat>, alive: seq<bool>)
    ensures forall r :: r in Living(subscribers, alive) <==> r in subscribers && r < |alive| && alive[r]
    ensures |Living(subscribers, alive)| <= |subscribers|
  {
    if subscribers != [] {
      LivingAre(subscribers[..|subscribers| - 1], alive);
      assert subscribers == subscribers[..|subscribers| - 1] + [subscribers[|subscribers| - 1]];
    }
  }

  lemma LivingStep(subscribers: seq<nat>, receiver: nat, alive: seq<bool>)
    ensures Living(subscribers + [receiver], alive)
            == Living(subscribers, alive) + if receiver < |alive| && alive[receiver] then [receiver] else []
  {
    assert (subscribers + [receiver])[..|subscribers|] == subscribers;
  }

  /** The subscribers a send has kept among those it has visited. */
  ghost predicate Kept(kept: seq<nat>, visited: seq<nat>, before: seq<bool>, alive: seq<bool>) {
    && |before| == |alive|
    && (forall k :: 0 <= k < |kept| ==> kept[k] in visited && kept[k] < |before| && before[kept[k]])
    && (forall j, k :: 0 <= j < k < |kept| ==> kept[j] < kept[k])
    && (forall r :: 0 <= r < |alive| && alive[r] ==> before[r] && (r in visited ==> r in kept))
  }

  /** One more visit, after other threads may have dropped receivers. */
  lemma KeptStep(kept: seq<nat>, visited: seq<nat>, receiver: nat, before: seq<bool>, earlier: seq<bool>,
                 alive: seq<bool>)
    requires Kept(kept, visited, before, earlier) && |alive| == |earlier| && receiver < |alive|
    requires forall r :: 0 <= r < |alive| && alive[r] ==> earlier[r]
    requires forall r :: r in visited ==> r < receiver
    ensures Kept(if alive[receiver] then kept + [receiver] else kept, visited + [receiver], before, alive)
  {
  }

  class Channel<T> {
    /** The receivers whose queues the shared list still feeds. */
    var subscribers: seq<nat>
    /** The queue of every receiver, and whether the receiver still exists. */
    var queues: seq<seq<T>>
    var alive: seq<bool>
    /** How many clones of the sender there are; the list goes with the last. */
    var senders: nat

    /** Everything sent, where in it each receiver subscribed, and what it has consumed since. */
    ghost var log: seq<T>
    ghost var joined: seq<nat>
    ghost var consumed: seq<seq<T>>

    ghost predicate Shaped()
      reads this
    {
      && |queues| == |alive| == |joined| == |consumed|
      && (forall i :: 0 <= i < |subscribers| ==> subscribers[i] < |queues|)
      && (forall i, j :: 0 <= i < j < |subscribers| ==> subscribers[i] < subscribers[j])
      && (forall r :: 0 <= r < |joined| ==> joined[r] <= |log|)
      && (senders == 0 ==> subscribers == [])
      && (senders > 0 ==> forall r :: 0 <= r < |alive| && alive[r] ==> r in subscribers)
    }

    /** What a receiver has consumed followed by its queue is the log since it subscribed. */
    ghost predicate Valid()
      reads this
    {
      Shaped() && forall r :: 0 <= r < |alive| && alive[r] ==> consumed[r] + queues[r] == log[joined[r]..]
    }

    /** The place of receiver `r` in the log. */
    ghost function Cursor(r: nat): nat
      requires Shaped() && r < |joined|
      reads this
    {
      joined[r] + |consumed[r]|
    }

    /** `channel`: use `Subscribe` for the first receiver. */
    constructor ()
      ensures Valid() && senders == 1 && subscribers == [] && log == [] && |alive| == 0
    {
      subscribers, queues, alive, senders := [], [], [], 1;
      log, joined, consumed := [], [], [];
    }

    /** A new receiver sees what is sent from now on; nothing is replayed. */
    method Subscribe() returns (receiver: nat)
      requires Valid() && senders > 0
      modifies this
      ensures Valid() && log == old(log) && senders == old(senders)
      ensures receiver == |old(alive)| && alive == old(alive) + [true] && consumed == old(consumed) + [[]]
      ensures joined == old(joined) + [|log|] && queues == old(queues) + [[]]
      ensures subscribers == old(subscribers) + [receiver]
    {
      receiver := |queues|;
      queues, alive := queues + [[]], alive + [true];
      joined, consumed := joined + [|log|], consumed + [[]];
      subscribers := subscribers + [receiver];
      assert forall r :: 0 <= r < receiver ==> consumed[r] + queues[r] == old(consumed[r] + queues[r]);
      assert log[|log|..] == [];
    }

    /** `recv` and `recv_timeout`: the message under the cursor, or the news that none will come. */
    method Receive(receiver: nat) returns (outcome: Outcome<T>)
      requires Valid() && receiver < |alive| && alive[receiver]
      modifies this`queues, this`consumed
      ensures Valid()
      ensures if old(Cursor(receiver)) < |log| then
                outcome == Got(log[old(Cursor(receiver))])
                && consumed == old(consumed)[receiver := old(consumed)[receiver] + [log[old(Cursor(receiver))]]]
              else
                outcome == (if senders == 0 then Disconnected else Waiting) && consumed == old(consumed)
      ensures forall r :: 0 <= r < |queues| && r != receiver ==> queues[r] == old(queues)[r]
    {
      assert consumed[receiver] + queues[receiver] == log[joined[receiver]..];
      var some, value := Take(receiver);
      if some {
        assert log[joined[receiver]..][|old(consumed)[receiver]|] == log[old(Cursor(receiver))];
        outcome := Got(value[0]);
      } else if receiver in subscribers {
        outcome := Waiting;
      } else {
        outcome := Disconnected;
      }
    }

    /** Moves the head of a queue to its receiver. */
    method Take(receiver: nat) returns (some: bool, value: seq<T>)
      requires Shaped() && receiver < |alive|
      modifies this`queues, this`consumed
      ensures Shaped() && some == (old(queues)[receiver] != [])
      ensures value == (if some then [old(queues)[receiver][0]] else [])
      ensures !some ==> consumed == old(consumed) && queues == old(queues)
      ensures consumed == old(consumed)[receiver := old(consumed)[receiver] + value]
      ensures queues == old(queues)[receiver := old(queues)[receiver][|value|..]]
      ensures consumed[receiver] + queues[receiver] == old(consumed[receiver] + queues[receiver])
    {
      some := queues[receiver] != [];
      if some {
        value := [queues[receiver][0]];
        assert queues[receiver] == value + queues[receiver][1..];
        queues := queues[receiver := queues[receiver][1..]];
        consumed := consumed[receiver := consumed[receiver] + value];
      } else {
        value := [];
        assert consumed[receiver] + value == consumed[receiver] && queues[receiver][0..] == queues[receiver];
      }
    }

    method DropReceiver(receiver: nat)
      requires Shaped() && receiver < |alive|
      modifies this`queues, this`alive
      ensures Shaped() && alive == old(alive)[receiver := false]
      ensures queues == old(queues)[receiver := []]
      ensures old(Valid()) ==> Valid()
    {
      alive, queues := alive[receiver := false], queues[receiver := []];
    }

    method CloneSender()
      requires Valid() && senders > 0
      modifies this`senders
      ensures Valid() && senders == old(senders) + 1
    {
      senders := senders + 1;
    }

    /** The last sender takes the subscriber list with it. */
    method DropSender()
      requires Valid() && senders > 0
      modifies this`senders, this`subscribers
      ensures Valid() && senders == old(senders) - 1
      ensures subscribers == if senders == 0 then [] else old(subscribers)
    {
      senders := senders - 1;
      if senders == 0 {
        subscribers := [];
      }
    }

    /** In the middle of sending `value`: the receivers in `reached` have it. */
    ghost predicate Sending(value: T, reached: seq<nat>)
      reads this
    {
      Shaped()
      && forall r :: 0 <= r < |alive| && alive[r] ==>
           consumed[r] + queues[r] == (if r in reached then log + [value] else log)[joined[r]..]
    }

    /** Other threads receive and drop while the send holds the lock. */
    method Interfere(acts: seq<Act>, ghost value: T, ghost reached: seq<nat>)
      requires Sending(value, reached)
      modifies this`queues, this`consumed, this`alive
      ensures Sending(value, reached) && |alive| == |old(alive)| == |queues|
      ensures forall r :: 0 <= r < |alive| && alive[r] ==> old(alive)[r]
      ensures (forall i :: 0 <= i < |acts| ==> acts[i].Takes?) ==> alive == old(alive)
      ensures acts == [] ==> queues == old(queues) && consumed == old(consumed)
    {
      for i := 0 to |acts|
        invariant Sending(value, reached) && |alive| == |old(alive)|
        invariant forall r :: 0 <= r < |alive| && alive[r] ==> old(alive)[r]
        invariant (forall k :: 0 <= k < i ==> acts[k].Takes?) ==> alive == old(alive)
        invariant i == 0 ==> queues == old(queues) && consumed == old(consumed)
      {
        if acts[i].receiver < |alive| && alive[acts[i].receiver] {
          if acts[i].Takes? {
            var _, _ := Take(acts[i].receiver);
          } else {
            DropReceiver(acts[i].receiver);
          }
        }
      }
    }

    /** `send`, with everything other threads do meanwhile: `meanwhile[i]` happens before the delivery to
        subscriber `i`.  Whatever they do, the log grows by the value for every receiver still alive, and
        the count is the number of receivers that were alive at their turn; these stay subscribed.
        Undisturbed, that is exactly the live receivers. */
    method Send(value: T, meanwhile: seq<seq<Act>>) returns (delivered: nat)
      requires Valid() && senders > 0
      modifies this`subscribers, this`queues, this`consumed, this`alive, this`log
      ensures Valid() && log == old(log) + [value]
      ensures delivered == |subscribers|
      ensures forall r :: r in subscribers ==> r in old(subscribers) && old(alive)[r]
      ensures forall r :: 0 <= r < |alive| && alive[r] ==> r in subscribers && old(alive)[r]
      ensures (forall i, k :: 0 <= i < |meanwhile| && 0 <= k < |meanwhile[i]| ==> meanwhile[i][k].Takes?) ==>
                subscribers == Living(old(subscribers), alive) && alive == old(alive)
      ensures meanwhile == [] ==> consumed == old(consumed)
    {
      hide Shaped, Living, Kept, Sending;
      delivered := 0;
      var kept: seq<nat> := [];
      ghost var calm := forall i, k :: 0 <= i < |meanwhile| && 0 <= k < |meanwhile[i]| ==> meanwhile[i][k].Takes?;
      SendStarts(value);
      for i := 0 to |subscribers|
        invariant subscribers == old(subscribers) && log == old(log) && |alive| == |old(alive)| == |queues|
        invariant Shaped() && Sending(value, subscribers[..i])
        invariant delivered == |kept| && Kept(kept, subscribers[..i], old(alive), alive)
        invariant calm ==> alive == old(alive) && kept == Living(subscribers[..i], alive)
        invariant meanwhile == [] ==> consumed == old(consumed)
      {
        ghost var before := alive;
        Interfere(if i < |meanwhile| then meanwhile[i] else [], value, subscribers[..i]);
        var receiver := subscribers[i];
        SubscriberIsNew(i);
        KeptStep(kept, subscribers[..i], receiver, old(alive), before, alive);
        assert subscribers[..i + 1] == subscribers[..i] + [receiver];
        assert subscribers[..i + 1][..i] == subscribers[..i];
        LivingStep(subscribers[..i], receiver, alive);
        var sent := Deliver(value, receiver, subscribers[..i]);
        if sent {
          delivered := delivered + 1;
          kept := kept + [receiver];
        }
      }
      assert subscribers[..|subscribers|] == subscribers;
      SendEnds(value, kept, old(alive));
      subscribers := kept;
      log := log + [value];
      SentIsValid();
    }

    /** `subscriber.send(value.clone())`. */
    method Deliver(value: T, receiver: nat, ghost reached: seq<nat>) returns (sent: bool)
      requires Sending(value, reached) && receiver < |alive| && receiver !in reached
      modifies this`queues
      ensures Sending(value, reached + [receiver]) && sent == alive[receiver] && |queues| == |old(queues)|
    {
      sent := alive[receiver];
      if sent {
        assert (log + [value])[joined[receiver]..] == log[joined[receiver]..] + [value];
        queues := queues[receiver := queues[receiver] + [value]];
      }
    }

    lemma SendStarts(value: T)
      requires Valid()
      ensures Shaped() && Sending(value, subscribers[..0]) && |alive| == |queues|
      ensures Kept([], subscribers[..0], alive, alive) && Living(subscribers[..0], alive) == []
    {
    }

    lemma SubscriberIsNew(i: nat)
      requires Shaped() && i < |subscribers|
      ensures subscribers[i] !in subscribers[..i] && subscribers[i] < |alive|
      ensures forall r :: r in subscribers[..i] ==> r < subscribers[i]
    {
    }

    lemma SentIsValid()
      requires |queues| == |alive| == |joined| == |consumed|
      requires forall i :: 0 <= i < |subscribers| ==> subscribers[i] < |queues|
      requires forall i, j :: 0 <= i < j < |subscribers| ==> subscribers[i] < subscribers[j]
      requires forall r :: 0 <= r < |joined| ==> joined[r] <= |log|
      requires senders > 0 && forall r :: 0 <= r < |alive| && alive[r] ==> r in subscribers
      requires forall r :: 0 <= r < |alive| && alive[r] ==> consumed[r] + queues[r] == log[joined[r]..]
      ensures Valid()
    {
    }

    /** The value has reached everybody: the log may grow. */
    lemma SendEnds(value: T, kept: seq<nat>, before: seq<bool>)
      requires Sending(value, subscribers) && Kept(kept, subscribers, before, alive) && senders > 0
      ensures |queues| == |alive| == |joined| == |consumed|
      ensures (forall i :: 0 <= i < |kept| ==> kept[i] < |queues|)
              && (forall i, j :: 0 <= i < j < |kept| ==> kept[i] < kept[j])
      ensures forall r :: 0 <= r < |alive| && alive[r] ==> r in kept && r < |before| && before[r]
      ensures forall r :: r in kept ==> r in subscribers && r < |before| && before[r]
      ensures forall r :: 0 <= r < |joined| ==> joined[r] <= |log|
      ensures forall r :: 0 <= r < |alive| && alive[r] ==> consumed[r] + queues[r] == (log + [value])[joined[r]..]
    {
    }

    /** A live receiver's cursor is inside the log, and its queue is what lies ahead of it. */
    lemma QueueIsAhead(receiver: nat)
      requires Valid() && receiver < |alive| && alive[receiver]
      ensures Cursor(receiver) <= |log| && queues[receiver] == log[Cursor(receiver)..]
      ensures consumed[receiver] == log[joined[receiver]..Cursor(receiver)]
    {
      var seen := log[joined[receiver]..];
      assert seen[..|consumed[receiver]|] == consumed[receiver] && seen[|consumed[receiver]|..] == queues[receiver];
    }
  }
}
