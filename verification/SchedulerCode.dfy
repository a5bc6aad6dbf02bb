/**
 schedule and the end of do_timer on the task array, with their loops. Each leaves the
 state Scheduler says; in particular schedule's endless loop recharges at most once.
*/
module SchedulerCode {
  import opened Scheduler

  /** What schedule needs to end: counters not negative and priorities of at least 1. */
  ghost predicate Ready(s: State) {
    Shape(s) && Counted(s.tasks) && Prioritised(s.tasks)
  }

  class RunQueue {
    const task: array<Task>
    var current: nat
    ghost var hist: seq<Hist>
    ghost var log: seq<Epoch>

    ghost function View(): State
      reads this, task
    {
      State(task[..], current, hist, log)
    }

    constructor (n: nat, idle: Task)
      requires n >= 1 && idle.Task?
      ensures View() == Boot(n, idle) && fresh(task)
    {
      task := new Task[n](i => if i == 0 then idle else NoTask);
      current, log := 0, [];
      hist := Boot(n, idle).hist;
      new;
      assert task[..] == Boot(n, idle).tasks;
    }

    /** Timeouts, alarms and signals, from the last task down to task 1. */
    method CheckAlarms(jiffies: int)
      requires task.Length >= 1
      modifies task
      ensures task[..] == AllAlarmed(old(task[..]), jiffies)
    {
      var p := task.Length - 1;
      while p > 0
        invariant 0 <= p < task.Length
        invariant forall i :: 0 <= i < task.Length ==> task[i] == if i > p then Alarmed(old(task[i]), jiffies)
            else old(task[i])
      {
        if task[p].Task? {
          var t := task[p];
          if t.timeout != 0 && t.timeout < jiffies {
            t := t.(timeout := 0);
            if t.mode == Interruptible {
              t := t.(mode := Running);
            }
          }
          if t.alarm != 0 && t.alarm < jiffies {
            t := t.(signal := t.signal + {SIGALRM});
            t := t.(alarm := 0);
          }
          if Signalled(t) && t.mode == Interruptible {
            t := t.(mode := Running);
          }
          task[p] := t;
        }
        p := p - 1;
      }
    }

    method SelectNext() returns (c: int, next: nat)
      requires task.Length >= 1
      ensures c == Best(task[..]) && next == Picked(task[..])
    {
      c, next := -1, 0;
      var i := task.Length;
      while i > 1
        invariant 1 <= i <= task.Length && (c, next) == Scan(task[..], i)
      {
        i := i - 1;
        if task[i].Task? && task[i].mode == Running && task[i].counter > c {
          c, next := task[i].counter, i;
        }
      }
    }

    method RechargeAll()
      requires task.Length >= 1
      modifies task
      ensures task[..] == Recharged(old(task[..]))
    {
      var p := task.Length - 1;
      while p > 0
        invariant 0 <= p < task.Length
        invariant forall i :: 0 <= i < task.Length ==> task[i] == if i > p then Recharge(old(task[i])) else old(task[i])
      {
        if task[p].Task? {
          task[p] := task[p].(counter := task[p].counter / 2 + task[p].priority);
        }
        p := p - 1;
      }
    }

    /** The endless loop and the switch. */
    method Choose()
      requires Ready(View())
      modifies this, task
      ensures View() == Select(old(View()))
    {
      hide Scan, Recharged, Opened;
      ghost var s := View();
      if Best(s.tasks) == 0 {
        OneRecharge(s.tasks);
      }
      var c, next := SelectNext();
      while c == 0
        invariant c == Best(task[..]) && next == Picked(task[..]) && task[..] != []
        invariant View() == s || (Best(s.tasks) == 0 && c != 0 && View().(cur := next) == Select(s))
        decreases if c == 0 then 1 else 0
      {
        log := log + [Epoch(task[..], hist)];
        RechargeAll();
        hist := Opened(task[..]);
        c, next := SelectNext();
      }
      current := next;
    }

    method Schedule(jiffies: int)
      requires Ready(View())
      modifies this, task
      ensures View() == Scheduler.Schedule(old(View()), jiffies)
    {
      hide Alarmed;
      CheckAlarms(jiffies);
      Choose();
    }

    /** The end of do_timer. */
    method DoTimer(user: bool, jiffies: int)
      requires Ready(View())
      modifies this, task
      ensures View() == Tick(old(View()), user, jiffies)
    {
      hide Scheduler.Schedule;
      ghost var s := View();
      hist := hist[current := Charged(hist[current], task[current].counter)];
      task[current] := task[current].(counter := task[current].counter - 1);
      if task[current].counter > 0 {
        assert View() == Charge(s);
        return;
      }
      task[current] := task[current].(counter := 0);
      assert View() == Charge(s);
      if !user {
        return;
      }
      Schedule(jiffies);
    }
  }
}
