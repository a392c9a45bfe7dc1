/** The bounded buffer as a monitor: one mutex and two condition variables with
    signal, threads taking the mutex in any order. */
module BoundedBuffer {
  import opened Words

  /** A call of `Append` or `Remove` below is what one thread does while it holds the
      mutex: from taking it until it waits or returns.  Any thread may be next, so
      the runs of the monitor are the sequences of these calls. */
  class Buffer {
    var buffer: array<int>
    var cnt: nat
    var first: nat
    var last: nat
    /** Threads in each condition variable's queue, and threads woken from it that
        have not yet taken the mutex again. */
    var waitingConsumers: nat
    var wokenConsumers: nat
    var waitingProducers: nat
    var wokenProducers: nat
    /** Everything appended and removed so far. */
    ghost var appended: seq<int>
    ghost var removed: seq<int>

    /** The unremoved items sit in the ring, oldest at `first`. */
    ghost predicate Ring()
      reads this, buffer
    {
      && removed <= appended
      && cnt == |appended| - |removed| <= buffer.Length
      && (buffer.Length > 0 ==>
            && first == |removed| % buffer.Length && last == |appended| % buffer.Length
            && forall k :: |removed| <= k < |appended| ==> buffer[k % buffer.Length] == appended[k])
    }

    /** No lost signals: a consumer waits only if each item present has a woken
        consumer coming for it, and dually for producers and free slots. */
    ghost predicate NoLostSignal()
      reads this, buffer
    {
      && (waitingConsumers > 0 ==> cnt <= wokenConsumers)
      && (waitingProducers > 0 ==> buffer.Length - cnt <= wokenProducers)
    }

    ghost predicate Valid()
      reads this, buffer
    {
      Ring() && NoLostSignal()
    }

    constructor (n: nat)
      ensures Valid() && fresh(buffer) && buffer.Length == n && appended == [] && removed == []
      ensures waitingConsumers == wokenConsumers == waitingProducers == wokenProducers == 0
    {
      buffer := new int[n];
      cnt, first, last := 0, 0, 0;
      waitingConsumers, wokenConsumers, waitingProducers, wokenProducers := 0, 0, 0, 0;
      appended, removed := [], [];
    }

    /** A producer with the mutex, `woken` if it comes from the wait queue.  It either
        stores its item and returns or joins the queue. */
    method Append(data: int, woken: bool) returns (done: bool)
      requires Valid() && (woken ==> wokenProducers > 0)
      modifies this, buffer
      ensures Valid() && buffer == old(buffer)
      ensures done <==> old(cnt) < buffer.Length
      ensures removed == old(removed) && appended == old(appended) + if done then [data] else []
      ensures wokenProducers == old(wokenProducers) - if woken then 1 else 0
      ensures waitingProducers == old(waitingProducers) + if done then 0 else 1
      ensures done && old(waitingConsumers) > 0 ==>
                waitingConsumers == old(waitingConsumers) - 1 && wokenConsumers == old(wokenConsumers) + 1
      ensures !done || old(waitingConsumers) == 0 ==>
                waitingConsumers == old(waitingConsumers) && wokenConsumers == old(wokenConsumers)
    {
      if woken { wokenProducers := wokenProducers - 1; }
      if cnt == buffer.Length {
        waitingProducers := waitingProducers + 1;
        return false;
      }
      Store(data);
      if waitingConsumers > 0 {
        waitingConsumers, wokenConsumers := waitingConsumers - 1, wokenConsumers + 1;
      }
      return true;
    }

    /** The item goes into the free slot at `last`. */
    method Store(data: int)
      requires Ring() && cnt < buffer.Length
      modifies this`last, this`cnt, this`appended, buffer
      ensures Ring() && cnt == old(cnt) + 1 && appended == old(appended) + [data]
    {
      ghost var n := |appended|;
      forall k | |removed| <= k < n ensures k % buffer.Length != last {
        if k % buffer.Length == last { SameWord(n, k, buffer.Length); }
      }
      buffer[last] := data;
      Increment(n, buffer.Length);
      last := (last + 1) % buffer.Length;
      cnt := cnt + 1;
      appended := appended + [data];
    }

    /** A consumer with the mutex. */
    method Remove(woken: bool) returns (done: bool, data: int)
      requires Valid() && (woken ==> wokenConsumers > 0)
      modifies this
      ensures Valid() && buffer == old(buffer)
      ensures done <==> old(cnt) > 0
      ensures appended == old(appended)
      ensures done ==>
        && |old(removed)| < |appended| && data == appended[|old(removed)|] && removed == old(removed) + [data]
      ensures !done ==> removed == old(removed)
      ensures wokenConsumers == old(wokenConsumers) - if woken then 1 else 0
      ensures waitingConsumers == old(waitingConsumers) + if done then 0 else 1
      ensures done && old(waitingProducers) > 0 ==>
                waitingProducers == old(waitingProducers) - 1 && wokenProducers == old(wokenProducers) + 1
      ensures !done || old(waitingProducers) == 0 ==>
                waitingProducers == old(waitingProducers) && wokenProducers == old(wokenProducers)
    {
      data := 0;
      if woken { wokenConsumers := wokenConsumers - 1; }
      if cnt == 0 {
        waitingConsumers := waitingConsumers + 1;
        return false, data;
      }
      data := buffer[first];
      Increment(|removed|, buffer.Length);
      first := (first + 1) % buffer.Length;
      cnt := cnt - 1;
      removed := removed + [data];
      if waitingProducers > 0 {
        waitingProducers, wokenProducers := waitingProducers - 1, wokenProducers + 1;
      }
      return true, data;
    }

    /** A condition variable may wake a thread unasked. */
    method SpuriousWakeup(consumer: bool)
      requires Valid() && (if consumer then waitingConsumers > 0 else waitingProducers > 0)
      modifies this
      ensures Valid() && buffer == old(buffer) && appended == old(appended) && removed == old(removed)
      ensures consumer ==> wokenConsumers == old(wokenConsumers) + 1 && waitingConsumers == old(waitingConsumers) - 1
      ensures !consumer ==> wokenProducers == old(wokenProducers) + 1 && waitingProducers == old(waitingProducers) - 1
    {
      if consumer {
        waitingConsumers, wokenConsumers := waitingConsumers - 1, wokenConsumers + 1;
      } else {
        waitingProducers, wokenProducers := waitingProducers - 1, wokenProducers + 1;
      }
    }

    /** No deadlock: when every thread inside is waiting unwoken, consumers wait only
        on an empty buffer and producers only on a full one. */
    lemma StuckMeansBlocked()
      requires Valid() && wokenConsumers == 0 && wokenProducers == 0
      ensures waitingConsumers > 0 ==> cnt == 0
      ensures waitingProducers > 0 ==> cnt == buffer.Length
      ensures waitingConsumers > 0 && waitingProducers > 0 ==> buffer.Length == 0
    {
    }
  }
}
