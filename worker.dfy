/**
 * One worker loop of the timed scheduler, as a state machine over an
 * integer clock. Each case of the worker's select becomes a method: a task
 * handed over by the relay (OnTask) and the wake timer firing (OnTimer).
 * Running a task's callback is recorded in an execution log.
 */
module WorkerLoop {
  import opened TaskHeap

  /** The worker's wake timer: idle (never armed, or fired and not armed
      again), or armed at clock reading `setAt` to fire after `delay`. */
  datatype Timer = Idle | Armed(setAt: int, delay: int) {
    function FiresAt(): int
      requires Armed?
    {
      setAt + delay
    }
  }

  /** One execution of a task's callback, at clock reading `at`. */
  datatype Run = Run(task: TimedFunc, at: int)

  /** The tasks a log of runs executed, in execution order. */
  function Executed(log: seq<Run>): (r: seq<TimedFunc>)
    ensures |r| == |log|
  {
    seq(|log|, k requires 0 <= k < |log| => log[k].task)
  }

  lemma ExecutedAppend(log: seq<Run>, r: Run)
    ensures Executed(log + [r]) == Executed(log) + [r.task]
  {
  }

  /** The heap is ordered; the timer is armed exactly when tasks are pending,
      never with a negative duration, and for the deadline of a pending task;
      no callback ran at or before its deadline; and every received task
      either ran exactly once or is still pending. */
  ghost predicate Consistent(items: seq<TimedFunc>, timer: Timer, log: seq<Run>, received: multiset<TimedFunc>) {
    && IsHeap(items)
    && (items != [] <==> timer.Armed?)
    && (timer.Armed? ==> timer.delay >= 0)
    && (timer.Armed? ==> exists t :: t in items && t.deadline == timer.FiresAt())
    && (forall r :: r in log ==> Overdue(r.task, r.at))
    && received == multiset(Executed(log)) + multiset(items)
  }

  /** Running an overdue task inline keeps the worker consistent. */
  lemma RunKeepsConsistent(items: seq<TimedFunc>, timer: Timer, log: seq<Run>, received: multiset<TimedFunc>, r: Run)
    requires Consistent(items, timer, log, received) && Overdue(r.task, r.at)
    ensures Consistent(items, timer, log + [r], received + multiset{r.task})
  {
    ExecutedAppend(log, r);
  }

  /** Queuing a task that is not overdue keeps the worker consistent when
      the timer is armed for it exactly when the heap was empty before. */
  lemma QueueKeepsConsistent(items: seq<TimedFunc>, timer: Timer, log: seq<Run>, received: multiset<TimedFunc>,
                             task: TimedFunc, now: int, items': seq<TimedFunc>)
    requires Consistent(items, timer, log, received) && !Overdue(task, now)
    requires IsHeap(items') && multiset(items') == multiset(items) + multiset{task}
    ensures Consistent(items', if items == [] then Armed(now, task.deadline - now) else timer,
                       log, received + multiset{task})
  {
    assert task in multiset(items');
    if items != [] {
      var t :| t in items && t.deadline == timer.FiresAt();
      assert t in multiset(items');
    }
  }

  /** The runs of the tasks `ran`, one after another, all at clock reading `now`. */
  function RunsAt(ran: seq<TimedFunc>, now: int): (r: seq<Run>)
    ensures |r| == |ran|
  {
    seq(|ran|, k requires 0 <= k < |ran| => Run(ran[k], now))
  }

  /** The runs of `ran` execute exactly the tasks of `ran`, in order. */
  lemma ExecutedRunsAt(ran: seq<TimedFunc>, now: int)
    ensures Executed(RunsAt(ran, now)) == ran
  {
  }

  lemma RunsAtAppend(ran: seq<TimedFunc>, t: TimedFunc, now: int)
    ensures RunsAt(ran + [t], now) == RunsAt(ran, now) + [Run(t, now)]
  {
  }

  lemma RunsAtTime(ran: seq<TimedFunc>, now: int, r: Run)
    requires r in RunsAt(ran, now)
    ensures r.at == now && r.task in ran
  {
    var k :| 0 <= k < |ran| && RunsAt(ran, now)[k] == r;
  }

  lemma ExecutedConcat(a: seq<Run>, b: seq<Run>)
    ensures Executed(a + b) == Executed(a) + Executed(b)
  {
  }

  /** Deadlines never decrease along `s`. */
  ghost predicate SortedByDeadline(s: seq<TimedFunc>) {
    forall k, l :: 0 <= k < l < |s| ==> s[k].deadline <= s[l].deadline
  }

  /** What holds while a timer fire drains the heap `items`: the tasks `ran`
      so far are in non-decreasing deadline order, the last of them (hence
      all) overdue at `now` and no later than anything still pending; they
      and the heap together are exactly `pending0`, the tasks pending when
      the timer fired. */
  ghost predicate Draining(items: seq<TimedFunc>, ran: seq<TimedFunc>, pending0: multiset<TimedFunc>, now: int) {
    && IsHeap(items)
    && SortedByDeadline(ran)
    && (ran != [] ==> Overdue(ran[|ran| - 1], now))
    && (ran != [] ==> forall u :: u in items ==> ran[|ran| - 1].deadline <= u.deadline)
    && multiset(ran) + multiset(items) == pending0
  }

  /** Popping the overdue root and running it keeps the drain going. */
  lemma DrainStep(items: seq<TimedFunc>, ran: seq<TimedFunc>, pending0: multiset<TimedFunc>, now: int,
                  items': seq<TimedFunc>)
    requires Draining(items, ran, pending0, now)
    requires items != [] && Overdue(items[0], now)
    requires IsHeap(items') && multiset(items') + multiset{items[0]} == multiset(items)
    ensures Draining(items', ran + [items[0]], pending0, now)
  {
    var t := items[0];
    assert t in items;
    forall u | u in items'
      ensures t.deadline <= u.deadline
    {
      assert u in multiset(items);
      RootIsMinimum(items, u);
    }
    var ran' := ran + [t];
    forall k, l | 0 <= k < l < |ran'|
      ensures ran'[k].deadline <= ran'[l].deadline
    {
      if l == |ran| {
        assert ran'[k] == ran[k];
        assert k < |ran| - 1 ==> ran[k].deadline <= ran[|ran| - 1].deadline;
      }
    }
    assert multiset(ran') == multiset(ran) + multiset{t};
  }

  /** At the end of a drain the worker is consistent again, with the runs
      of `ran` appended to its log and the timer idle for an empty heap or
      armed for the root; nothing pending is overdue. */
  lemma DrainEnd(items0: seq<TimedFunc>, timer0: Timer, log0: seq<Run>, received: multiset<TimedFunc>,
                 items: seq<TimedFunc>, ran: seq<TimedFunc>, now: int)
    requires Consistent(items0, timer0, log0, received)
    requires Draining(items, ran, multiset(items0), now)
    requires items != [] ==> !Overdue(items[0], now)
    ensures Consistent(items, if items == [] then Idle else Armed(now, items[0].deadline - now),
                       log0 + RunsAt(ran, now), received)
    ensures forall t :: t in items ==> items[0].deadline <= t.deadline && !Overdue(t, now)
    ensures forall t :: t in ran ==> Overdue(t, now)
  {
    forall t | t in ran
      ensures Overdue(t, now)
    {
      var k :| 0 <= k < |ran| && ran[k] == t;
      assert k < |ran| - 1 ==> ran[k].deadline <= ran[|ran| - 1].deadline;
    }
    LateRunsAppended(log0, ran, now);
    ExecutedAfterRuns(log0, ran, now);
    forall t | t in items
      ensures items[0].deadline <= t.deadline
    {
      RootIsMinimum(items, t);
    }
    if items != [] {
      assert items[0] in items;
    }
  }

  /** Appending runs at `now` of tasks overdue at `now` keeps every run late. */
  lemma LateRunsAppended(log0: seq<Run>, ran: seq<TimedFunc>, now: int)
    requires forall r :: r in log0 ==> Overdue(r.task, r.at)
    requires forall t :: t in ran ==> Overdue(t, now)
    ensures forall r :: r in log0 + RunsAt(ran, now) ==> Overdue(r.task, r.at)
  {
    forall r | r in log0 + RunsAt(ran, now)
      ensures Overdue(r.task, r.at)
    {
      if r !in log0 {
        RunsAtTime(ran, now, r);
      }
    }
  }

  lemma ExecutedAfterRuns(log0: seq<Run>, ran: seq<TimedFunc>, now: int)
    ensures multiset(Executed(log0 + RunsAt(ran, now))) == multiset(Executed(log0)) + multiset(ran)
  {
    ExecutedConcat(log0, RunsAt(ran, now));
    ExecutedRunsAt(ran, now);
  }

  class Worker {
    /** The private deadline heap. */
    const tasks: TimedFuncHeap
    var timer: Timer
    /** Every callback this worker has run, in order. */
    var log: seq<Run>
    /** Every task handed to this worker so far. */
    ghost var received: multiset<TimedFunc>

    ghost predicate Valid()
      reads this, tasks
    {
      Consistent(tasks.items, timer, log, received)
    }

    /** A worker starts with no tasks and an idle timer. */
    constructor ()
      ensures Valid() && fresh(tasks)
      ensures tasks.items == [] && timer == Idle && log == [] && received == multiset{}
    {
      tasks := new TimedFuncHeap();
      timer := Idle;
      log := [];
      received := multiset{};
    }

    /** A task arrives from the relay at clock reading `now`. A task whose
        deadline has strictly passed runs at once; any other task, even one
        due exactly now, is queued, and the timer is armed only when the
        heap was empty before. */
    method OnTask(task: TimedFunc, now: int)
      requires Valid()
      modifies this, tasks
      ensures Valid()
      ensures received == old(received) + multiset{task}
      ensures Overdue(task, now) ==>
        && log == old(log) + [Run(task, now)]
        && tasks.items == old(tasks.items)
        && timer == old(timer)
      ensures !Overdue(task, now) ==>
        && log == old(log)
        && |tasks.items| == |old(tasks.items)| + 1
        && multiset(tasks.items) == multiset(old(tasks.items)) + multiset{task}
        && timer == (if old(tasks.items) == [] then Armed(now, task.deadline - now) else old(timer))
    {
      if now > task.deadline {
        RunKeepsConsistent(tasks.items, timer, log, received, Run(task, now));
        log := log + [Run(task, now)];
        received := received + multiset{task};
      } else {
        ghost var before := tasks.items;
        HeapPush(tasks, task);
        QueueKeepsConsistent(before, timer, log, received, task, now, tasks.items);
        received := received + multiset{task};
        if tasks.Len() == 1 {
          timer := Armed(now, task.deadline - now);
        }
      }
    }

    /** The timer fires at clock reading `now`. The worker pops and runs the
        earliest task while its deadline is strictly before `now`, then
        arms the timer for the earliest remaining deadline, if any. `ran`
        names the tasks run, in order. */
    method OnTimer(now: int) returns (ghost ran: seq<TimedFunc>)
      requires Valid() && timer.Armed? && now >= timer.FiresAt()
      modifies this, tasks
      ensures Valid() && received == old(received)
      ensures log == old(log) + RunsAt(ran, now)
      ensures forall t :: t in ran ==> Overdue(t, now)
      ensures SortedByDeadline(ran)
      ensures multiset(ran) + multiset(tasks.items) == multiset(old(tasks.items))
      ensures forall t :: t in tasks.items ==> !Overdue(t, now)
      ensures tasks.items == [] ==> timer == Idle
      ensures tasks.items != [] ==>
        && timer == Armed(now, tasks.items[0].deadline - now)
        && forall t :: t in tasks.items ==> tasks.items[0].deadline <= t.deadline
    {
      ghost var items0, timer0, log0 := tasks.items, timer, log;
      // A timer that has fired stays idle until it is armed again.
      timer := Idle;
      ran := DrainDue(now);
      DrainEnd(items0, timer0, log0, received, tasks.items, ran, now);
    }

    /** The loop of a timer fire: while tasks are pending, run the root if
        it is overdue at `now`, else arm the timer for it and stop. */
    method DrainDue(now: int) returns (ghost ran: seq<TimedFunc>)
      requires IsHeap(tasks.items) && timer == Idle
      modifies this`log, this`timer, tasks
      ensures log == old(log) + RunsAt(ran, now)
      ensures Draining(tasks.items, ran, multiset(old(tasks.items)), now)
      ensures tasks.items == [] ==> timer == Idle
      ensures tasks.items != [] ==>
        !Overdue(tasks.items[0], now) && timer == Armed(now, tasks.items[0].deadline - now)
    {
      ghost var log0, pending0 := log, multiset(tasks.items);
      ran := [];
      while tasks.Len() > 0
        invariant timer == Idle
        invariant log == log0 + RunsAt(ran, now)
        invariant Draining(tasks.items, ran, pending0, now)
        decreases |tasks.items|
      {
        if now > tasks.items[0].deadline {
          ghost var before := tasks.items;
          var t := HeapPop(tasks);
          DrainStep(before, ran, pending0, now, tasks.items);
          RunsAtAppend(ran, t, now);
          assert log + [Run(t, now)] == log0 + RunsAt(ran + [t], now);
          log := log + [Run(t, now)];
          ran := ran + [t];
        } else {
          timer := Armed(now, tasks.items[0].deadline - now);
          break;
        }
      }
    }
  }

  /** Two tasks arrive at clock reading 0, with deadlines 100 and then 10.
      The second push finds the heap non-empty and leaves the timer alone,
      so the timer fires at 100 although the earliest pending deadline is 10. */
  method LateWakeExample() returns (firesAt: int, earliest: int)
    ensures firesAt == 100 && earliest == 10
  {
    var w := new Worker();
    var a, b := TimedFunc(1, 100), TimedFunc(2, 10);
    w.OnTask(a, 0);
    w.OnTask(b, 0);
    firesAt := w.timer.FiresAt();
    var root := w.tasks.items[0];
    assert multiset(w.tasks.items) == multiset{a, b};
    assert root in multiset(w.tasks.items);
    RootIsMinimum(w.tasks.items, b);
    earliest := root.deadline;
  }

  /** Deadline order holds within one timer fire only. A task due at 30
      arrives at 10 and runs when the timer fires at 31; a task due at 20
      that reaches the worker only at 40 then runs inline, after it. */
  method LateArrivalExample() returns (first: int, second: int)
    ensures first == 30 && second == 20
  {
    var w := new Worker();
    w.OnTask(TimedFunc(1, 30), 10);
    var ran := w.OnTimer(31);
    assert ran == [TimedFunc(1, 30)] by {
      assert TimedFunc(1, 30) !in w.tasks.items;
      assert multiset(w.tasks.items) == multiset{};
      assert multiset(ran) == multiset{TimedFunc(1, 30)};
      assert |ran| == 1 && ran[0] in multiset(ran);
    }
    assert w.log == [Run(TimedFunc(1, 30), 31)];
    w.OnTask(TimedFunc(2, 20), 40);
    first, second := w.log[0].task.deadline, w.log[1].task.deadline;
  }
}
