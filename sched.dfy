/**
 * The submission side of the timed scheduler: the shared buffer that Put
 * appends to, the one-slot notification that wakes the relay loop, the
 * relay loop's drain of the buffer into its reused scratch slice and the
 * hand-off of each task to a worker, and the once-only shutdown.
 */
module Scheduler {
  import opened TaskHeap

  class TimedSched {
    /** Submitted tasks the relay has not taken yet, and the capacity of the
        slice that holds them (truncation keeps the capacity). */
    var prependTasks: seq<TimedFunc>
    var prependCap: nat
    /** The one-slot wake-up notification holds a value. */
    var notifyPending: bool
    /** The once-guard of shutdown has run; the die channel is closed. */
    var dieOnce: bool
    var dieClosed: bool
    /** The relay loop's reused scratch slice: backing array and length. */
    var scratch: array<TimedFunc>
    var scratchLen: nat
    /** Every task the relay has handed to some worker, in hand-off order. */
    var handedOff: seq<TimedFunc>
    /** The relay loop has returned after seeing shutdown. */
    var relayDone: bool

    /** The buffer fits its capacity, the scratch length fits its array,
        the die channel is closed exactly when the once-guard has run, and
        no wake-up is lost: while the buffer holds tasks a notification is
        pending, so a Put that finds the slot full may drop its signal. */
    ghost predicate Valid()
      reads this
    {
      && |prependTasks| <= prependCap
      && (prependTasks != [] ==> notifyPending)
      && scratchLen <= scratch.Length
      && dieOnce == dieClosed
    }

    /** A scheduler with an empty buffer, no pending notification, a nil
        scratch slice and shutdown not requested. */
    constructor ()
      ensures Valid()
      ensures prependTasks == [] && prependCap == 0 && !notifyPending
      ensures !dieOnce && !dieClosed && scratchLen == 0 && handedOff == [] && !relayDone
      ensures fresh(scratch)
    {
      prependTasks := [];
      prependCap := 0;
      notifyPending := false;
      dieOnce, dieClosed := false, false;
      scratch := new TimedFunc[0];
      scratchLen := 0;
      handedOff := [];
      relayDone := false;
    }

    /** Submits callback `id` to run `duration` after clock reading `now`:
        appends one task at the end of the buffer, growing its capacity
        when full, then fills the notification slot unless it already
        holds a value. Shutdown does not stop a submission. */
    method Put(id: nat, duration: int, now: int)
      requires Valid()
      modifies this
      ensures Valid()
      ensures prependTasks == old(prependTasks) + [TimedFunc(id, now + duration)]
      ensures prependCap >= old(prependCap)
      ensures notifyPending
      ensures dieOnce == old(dieOnce) && dieClosed == old(dieClosed)
      ensures scratch == old(scratch) && scratchLen == old(scratchLen)
      ensures handedOff == old(handedOff) && relayDone == old(relayDone)
    {
      if |prependTasks| == prependCap {
        // append reallocates a full slice with a larger capacity
        prependCap := if prependCap == 0 then 1 else 2 * prependCap;
      }
      prependTasks := prependTasks + [TimedFunc(id, now + duration)];
      if !notifyPending {
        notifyPending := true;
      }
    }

    /** The relay loop receives the notification. It copies the buffer into
        its scratch slice (allocating a new one when the old capacity is
        smaller than the buffer's), truncates the buffer, then hands the
        tasks off in index order. If shutdown has happened, the first
        hand-off gives way to it and the relay returns; otherwise the
        scratch length is reset to zero. */
    method RelayWake()
      requires Valid() && notifyPending && !relayDone
      modifies this, scratch
      ensures Valid()
      ensures !notifyPending
      ensures prependTasks == [] && prependCap == old(prependCap)
      ensures scratch.Length >= prependCap
      ensures scratch.Length >= |old(prependTasks)| && scratch[..|old(prependTasks)|] == old(prependTasks)
      ensures dieOnce == old(dieOnce) && dieClosed == old(dieClosed)
      ensures !dieClosed || old(prependTasks) == [] ==>
        handedOff == old(handedOff) + old(prependTasks) && scratchLen == 0 && !relayDone
      ensures dieClosed && old(prependTasks) != [] ==>
        handedOff == old(handedOff) && relayDone
    {
      notifyPending := false;
      if scratch.Length < prependCap {
        scratch := new TimedFunc[prependCap];
      }
      scratchLen := |prependTasks|;
      forall k | 0 <= k < scratchLen {
        scratch[k] := prependTasks[k];
      }
      ghost var batch := prependTasks;
      assert scratch[..scratchLen] == batch;
      prependTasks := [];

      HandOff(batch);
    }

    /** Hands the scratch tasks to workers in index order. Shutdown wins
        over the first hand-off, and the relay returns; otherwise the
        scratch length is reset to zero afterwards. */
    method HandOff(ghost batch: seq<TimedFunc>)
      requires scratchLen == |batch| <= scratch.Length && scratch[..scratchLen] == batch
      requires !relayDone
      modifies this`handedOff, this`relayDone, this`scratchLen
      ensures !dieClosed || batch == [] ==>
        handedOff == old(handedOff) + batch && scratchLen == 0 && !relayDone
      ensures dieClosed && batch != [] ==>
        handedOff == old(handedOff) && scratchLen == |batch| && relayDone
    {
      var k := 0;
      while k < scratchLen
        invariant k <= scratchLen == |batch| <= scratch.Length
        invariant scratch[..scratchLen] == batch
        invariant handedOff == old(handedOff) + batch[..k]
        invariant !relayDone
        invariant dieClosed ==> k == 0
        modifies this`handedOff, this`relayDone
      {
        if dieClosed {
          relayDone := true;
          return;
        }
        assert scratch[k] == scratch[..scratchLen][k] == batch[k];
        assert batch[..k + 1] == batch[..k] + [batch[k]];
        handedOff := handedOff + [scratch[k]];
        k := k + 1;
      }
      assert batch[..k] == batch;
      scratchLen := 0;
    }

    /** The relay loop sees shutdown while waiting and returns. */
    method RelayShutdown()
      requires Valid() && dieClosed && !relayDone
      modifies this`relayDone
      ensures Valid() && relayDone
    {
      relayDone := true;
    }

    /** Requests shutdown: the once-guard closes the die channel the first
        time only, so a second close, which would panic, never happens. */
    method Close()
      requires Valid()
      modifies this
      ensures Valid() && dieOnce && dieClosed
      ensures old(dieClosed) ==> unchanged(this)
      ensures prependTasks == old(prependTasks) && prependCap == old(prependCap)
      ensures notifyPending == old(notifyPending) && handedOff == old(handedOff)
      ensures scratch == old(scratch) && scratchLen == old(scratchLen) && relayDone == old(relayDone)
    {
      if !dieOnce {
        dieOnce := true;
        // closing a closed channel panics: the guard rules it out
        assert !dieClosed;
        dieClosed := true;
      }
    }
  }

  /** Two submissions at clock reading 0, with delays 50 and 10, leave one
      pending notification; the one relay wake-up it causes hands off both
      tasks in submission order and leaves nothing buffered. */
  method CoalescedDrainExample() returns (handed: seq<TimedFunc>, buffered: nat, notified: bool)
    ensures handed == [TimedFunc(1, 50), TimedFunc(2, 10)]
    ensures buffered == 0 && !notified
  {
    var ts := new TimedSched();
    ts.Put(1, 50, 0);
    ts.Put(2, 10, 0);
    ts.RelayWake();
    handed, buffered, notified := ts.handedOff, |ts.prependTasks|, ts.notifyPending;
  }

  /** After Close, a second Close changes nothing, and a task submitted
      afterwards stays in the buffer: the relay only sees shutdown. */
  method CloseTwiceExample() returns (closed: bool, handed: seq<TimedFunc>, buffered: seq<TimedFunc>)
    ensures closed && handed == [] && buffered == [TimedFunc(7, 5)]
  {
    var ts := new TimedSched();
    ts.Close();
    ts.Close();
    ts.Put(7, 5, 0);
    ts.RelayShutdown();
    closed, handed, buffered := ts.dieClosed, ts.handedOff, ts.prependTasks;
  }
}
