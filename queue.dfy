/**
 * The bounded FIFO queues that connect the acquisition task to each consumer:
 * a send with timeout 0 drops the sample when the queue is full, a receive
 * takes the oldest sample.
 */
module Queue {
  import opened Wrappers
  import opened Sensor

  function Min(a: int, b: int): int
  {
    if a <= b then a else b
  }

  /** The queue after a send with timeout 0 of `s`. */
  function Offer(items: seq<Sample>, capacity: nat, s: Sample): (r: seq<Sample>)
    ensures |items| <= capacity ==> |r| <= capacity
    ensures |items| <= |r| && r[..|items|] == items
    ensures |r| > |items| <==> |items| < capacity
    ensures |r| > |items| ==> r == items + [s]
  {
    if |items| < capacity then items + [s] else items
  }

  /** What a receive returns: the oldest sample, if any. */
  function Head(items: seq<Sample>): Option<Sample>
  {
    if items == [] then None else Some(items[0])
  }

  /** The queue after a receive. */
  function Rest(items: seq<Sample>): seq<Sample>
  {
    if items == [] then [] else items[1..]
  }

  /** The queue after a send with timeout 0 of each of `ss` in turn, with no receive between. */
  function OfferAll(items: seq<Sample>, capacity: nat, ss: seq<Sample>): seq<Sample>
  {
    if ss == [] then items
    else Offer(OfferAll(items, capacity, ss[..|ss| - 1]), capacity, ss[|ss| - 1])
  }

  /**
   * Back to back sends admit exactly the samples that fit, in order, and drop
   * every later one.
   */
  lemma {:induction false} OfferAllAdmitsWhatFits(items: seq<Sample>, capacity: nat, ss: seq<Sample>)
    requires |items| <= capacity
    ensures OfferAll(items, capacity, ss) == items + ss[..Min(|ss|, capacity - |items|)]
  {
    if ss != [] {
      var init := ss[..|ss| - 1];
      OfferAllAdmitsWhatFits(items, capacity, init);
      assert init[..Min(|init|, capacity - |items|)] == ss[..Min(|init|, capacity - |items|)];
      if |init| < capacity - |items| {
        assert ss[..|init|] + [ss[|ss| - 1]] == ss;
      }
    }
  }

  /** What `k` successive receives return from a queue holding `items` that nobody sends to. */
  function Feed(items: seq<Sample>, k: nat): seq<Option<Sample>>
  {
    if k == 0 then [] else Feed(items, k - 1) + [if k - 1 < |items| then Some(items[k - 1]) else None]
  }

  lemma FeedSnoc(items: seq<Sample>, k: nat)
    ensures Feed(items, k + 1) == Feed(items, k) + [Head(items[Min(k, |items|)..])]
    ensures Rest(items[Min(k, |items|)..]) == items[Min(k + 1, |items|)..]
  {
  }

  /** The i-th receive returns the i-th queued sample while there is one, and nothing after. */
  lemma {:induction false} FeedAt(items: seq<Sample>, k: nat, i: nat)
    requires i < k
    ensures |Feed(items, k)| == k
    ensures Feed(items, k)[i] == if i < |items| then Some(items[i]) else None
  {
    if i < k - 1 {
      FeedAt(items, k - 1, i);
    } else {
      FeedLength(items, k - 1);
    }
  }

  lemma {:induction false} FeedLength(items: seq<Sample>, k: nat)
    ensures |Feed(items, k)| == k
  {
    if k > 0 {
      FeedLength(items, k - 1);
    }
  }

  /** One operation on a queue: a send with timeout 0 or a non-blocking receive. */
  datatype Event = Send(sample: Sample) | Receive

  /** The samples the events send, in order. */
  function Sent(events: seq<Event>): seq<Sample>
  {
    if events == [] then []
    else
      var last := events[|events| - 1];
      Sent(events[..|events| - 1]) + (if last.Send? then [last.sample] else [])
  }

  /** The queue after the events. */
  function Replay(items: seq<Sample>, capacity: nat, events: seq<Event>): seq<Sample>
  {
    if events == [] then items
    else
      var before := Replay(items, capacity, events[..|events| - 1]);
      match events[|events| - 1]
      case Send(s) => Offer(before, capacity, s)
      case Receive => Rest(before)
  }

  /** The samples the receives among the events return, in order. */
  function Received(items: seq<Sample>, capacity: nat, events: seq<Event>): seq<Sample>
  {
    if events == [] then []
    else
      var init := events[..|events| - 1];
      var before := Replay(items, capacity, init);
      Received(items, capacity, init) + (if events[|events| - 1].Receive? && before != [] then [before[0]] else [])
  }

  /** The sent samples that found room. */
  function Admitted(items: seq<Sample>, capacity: nat, events: seq<Event>): seq<Sample>
  {
    if events == [] then []
    else
      var init := events[..|events| - 1];
      var before := Replay(items, capacity, init);
      match events[|events| - 1]
      case Send(s) => Admitted(items, capacity, init) + (if |before| < capacity then [s] else [])
      case Receive => Admitted(items, capacity, init)
  }

  /** `a` is `b` with some elements left out, order kept. */
  predicate IsSubsequence(a: seq<Sample>, b: seq<Sample>)
  {
    if a == [] then true
    else if b == [] then false
    else
      (a[|a| - 1] == b[|b| - 1] && IsSubsequence(a[..|a| - 1], b[..|b| - 1]))
      || IsSubsequence(a, b[..|b| - 1])
  }

  /**
   * First in, first out: whatever interleaving of sends and receives one queue
   * sees, the samples received followed by those still queued are the initial
   * contents followed by the admitted sends.
   */
  lemma {:induction false} ReplayIsFifo(items: seq<Sample>, capacity: nat, events: seq<Event>)
    requires |items| <= capacity
    ensures |Replay(items, capacity, events)| <= capacity
    ensures Received(items, capacity, events) + Replay(items, capacity, events)
         == items + Admitted(items, capacity, events)
  {
    if events != [] {
      var init := events[..|events| - 1];
      ReplayIsFifo(items, capacity, init);
      var before := Replay(items, capacity, init);
      var rec := Received(items, capacity, init);
      var adm := Admitted(items, capacity, init);
      assert events[..|events| - 1] == init;
      match events[|events| - 1]
      case Send(s) =>
        assert Received(items, capacity, events) == rec;
        if |before| < capacity {
          assert Replay(items, capacity, events) == before + [s];
          assert Admitted(items, capacity, events) == adm + [s];
          assert rec + (before + [s]) == (rec + before) + [s];
        } else {
          assert Replay(items, capacity, events) == before;
          assert Admitted(items, capacity, events) == adm;
        }
      case Receive =>
        assert Admitted(items, capacity, events) == adm;
        if before != [] {
          assert Received(items, capacity, events) == rec + [before[0]];
          assert Replay(items, capacity, events) == before[1..];
          assert rec + [before[0]] + before[1..] == rec + before;
        } else {
          assert Received(items, capacity, events) == rec;
          assert Replay(items, capacity, events) == [];
        }
    }
  }

  /** The admitted samples are sent samples, in the order they were sent: nothing is invented or reordered. */
  lemma {:induction false} AdmittedAreSentInOrder(items: seq<Sample>, capacity: nat, events: seq<Event>)
    ensures IsSubsequence(Admitted(items, capacity, events), Sent(events))
  {
    if events != [] {
      var init := events[..|events| - 1];
      AdmittedAreSentInOrder(items, capacity, init);
      var a := Admitted(items, capacity, init);
      var sent := Sent(init);
      assert events[..|events| - 1] == init;
      match events[|events| - 1]
      case Send(s) =>
        assert Sent(events) == sent + [s];
        if |Replay(items, capacity, init)| < capacity {
          assert Admitted(items, capacity, events) == a + [s];
          assert (a + [s])[..|a|] == a;
          assert (sent + [s])[..|sent|] == sent;
        } else {
          assert Admitted(items, capacity, events) == a;
          SubsequenceExtend(a, sent, s);
        }
      case Receive =>
        assert Sent(events) == sent;
    }
  }

  lemma SubsequenceExtend(a: seq<Sample>, b: seq<Sample>, x: Sample)
    requires IsSubsequence(a, b)
    ensures IsSubsequence(a, b + [x])
  {
    assert (b + [x])[..|b|] == b;
  }

  /** The queue shared by the acquisition task and one consumer. */
  class SampleQueue {
    const capacity: nat
    var items: seq<Sample>

    ghost predicate Valid()
      reads this
    {
      |items| <= capacity
    }

    constructor (capacity: nat)
      ensures Valid() && this.capacity == capacity && items == []
    {
      this.capacity := capacity;
      items := [];
    }

    /** Send with timeout 0: never waits, says whether the sample was queued. */
    method TrySend(s: Sample) returns (sent: bool)
      requires Valid()
      modifies this
      ensures Valid()
      ensures sent <==> |old(items)| < capacity
      ensures items == Offer(old(items), capacity, s)
    {
      sent := |items| < capacity;
      if sent {
        items := items + [s];
      }
    }

    /**
     * Receive: the oldest sample, or None when the queue is empty. For a
     * blocking receive None stands for "still waiting".
     */
    method TryReceive() returns (r: Option<Sample>)
      requires Valid()
      modifies this
      ensures Valid()
      ensures r == Head(old(items)) && items == Rest(old(items))
    {
      if items == [] {
        r := None;
      } else {
        r := Some(items[0]);
        items := items[1..];
      }
    }
  }
}
