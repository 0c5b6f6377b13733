/** The scheduler and the semaphores: each method is a region the original runs
    with preemption off, so that a run of the system is any sequence of calls. */
module SchedKernel {
  import opened Common
  import opened SchedOrder
  import opened SchedState

  const TICK_HZ: nat := 100

  /** What a tick does to one thread. */
  function Ticked(th: Thread): Thread {
    if th.sleep == 0 then th
    else if th.sleep == 1 then th.(sleep := 0, state := Runnable)
    else th.(sleep := th.sleep - 1)
  }

  function TickedAll(threads: Threads): Threads {
    map t | t in threads :: Ticked(threads[t])
  }

  /** The running thread gives way to the one selected. */
  function Switched(threads: Threads, cur: Tid, next: Tid): Threads
    requires cur in threads && next in threads
  {
    var out := if threads[cur].state == Running then threads[cur := threads[cur].(state := Runnable)] else threads;
    out[next := out[next].(state := Running)]
  }

  lemma SaneLoad(list: seq<Tid>, threads: Threads, cur: Tid, idle: Tid)
    requires Listed(list, threads, cur, idle)
    ensures Sane(list, LoadOf(threads)) && Sane(Order(list, cur), LoadOf(threads))
    ensures idle in list && idle in LoadOf(threads).ready
  {
    OrderMembers(list, cur);
  }

  lemma SwitchedListed(list: seq<Tid>, threads: Threads, cur: Tid, idle: Tid, next: Tid)
    requires Listed(list, threads, cur, idle) && next in list && Ready(threads[next])
    ensures cur in threads && next in threads
    ensures Listed(if threads[cur].state == Dead then Without(list, cur) else list, Switched(threads, cur, next), next, idle)
  {
    if threads[cur].state == Dead {
      SwitchedFromDead(list, threads, cur, idle, next);
    } else {
      SwitchedFromLiving(list, threads, cur, idle, next);
    }
  }

  lemma SwitchedFromDead(list: seq<Tid>, threads: Threads, cur: Tid, idle: Tid, next: Tid)
    requires Listed(list, threads, cur, idle) && next in list && Ready(threads[next]) && threads[cur].state == Dead
    ensures Listed(Without(list, cur), Switched(threads, cur, next), next, idle)
  {
    WithoutOnce(list, cur);
  }

  lemma SwitchedFromLiving(list: seq<Tid>, threads: Threads, cur: Tid, idle: Tid, next: Tid)
    requires Listed(list, threads, cur, idle) && next in list && Ready(threads[next]) && threads[cur].state != Dead
    ensures Listed(list, Switched(threads, cur, next), next, idle)
  {
  }

  /** The thread that has been switched to is the only one running. */
  lemma SwitchedAlone(list: seq<Tid>, threads: Threads, cur: Tid, idle: Tid, t: Tid)
    requires Listed(list, threads, cur, idle) && t in list
    ensures t in threads && (t != cur ==> threads[t].state != Running)
  {
  }

  lemma SwitchedLoad(threads: Threads, cur: Tid, next: Tid)
    requires cur in threads && next in threads && threads[cur].state != Dead && Ready(threads[next])
    ensures LoadOf(Switched(threads, cur, next)) == LoadOf(threads)
  {
    assert LoadOf(Switched(threads, cur, next)).prio == LoadOf(threads).prio;
  }

  lemma SwitchedBlocked(threads: Threads, cur: Tid, next: Tid, sems: map<SemId, Sem>, waiting: InWait)
    requires cur in threads && next in threads && Ready(threads[next])
    requires Blocked(threads, waiting) && Queued(threads, sems, waiting)
    ensures Blocked(Switched(threads, cur, next), waiting) && Queued(Switched(threads, cur, next), sems, waiting)
  {
  }

  lemma TickedKeeps(list: seq<Tid>, threads: Threads, cur: Tid, idle: Tid, sems: map<SemId, Sem>, waiting: InWait)
    requires Listed(list, threads, cur, idle) && Blocked(threads, waiting) && Queued(threads, sems, waiting)
    ensures Listed(list, TickedAll(threads), cur, idle) && Blocked(TickedAll(threads), waiting) && Queued(TickedAll(threads), sems, waiting)
  {
  }

  function Sleepers(threads: Threads): Load {
    Load(set t | t in threads && threads[t].state == Block, map t | t in threads :: threads[t].priority)
  }

  /** Whom a post wakes: of the waiting threads of highest priority, the one that
      has waited longest. */
  ghost predicate FirstInLine(waiters: seq<Tid>, threads: Threads, t: Tid) {
    && t in waiters && t in threads
    && (forall u :: u in waiters && u in threads ==> threads[u].priority <= threads[t].priority)
    && exists i :: 0 <= i < |waiters| && waiters[i] == t
         && forall k :: 0 <= k < i && waiters[k] in threads ==> threads[waiters[k]].priority < threads[t].priority
  }

  /** What sem_post does: one more may pass, and the first in line is woken. */
  ghost predicate PostedTo(s: SemId, sems: map<SemId, Sem>, threads: Threads, after: map<SemId, Sem>, then_: Threads, woken: Tid) {
    && s in sems
    && var Sem(count, w) := sems[s];
    if w == [] then
      after == sems[s := Sem(count + 1, [])] && then_ == threads
    else
      && FirstInLine(w, threads, woken)
      && after == sems[s := Sem(count + 1, Without(w, woken))]
      && then_ == threads[woken := threads[woken].(state := Runnable)]
  }

  class Kernel {
    var list: seq<Tid>
    var threads: Threads
    var cur: Tid
    const idle: Tid
    var sems: map<SemId, Sem>
    var waiting: InWait
    ghost var tallies: map<SemId, Tally>

    ghost predicate Valid()
      reads this
    {
      && Listed(list, threads, cur, idle)
      && Blocked(threads, waiting)
      && Queued(threads, sems, waiting)
      && Once(sems, waiting)
      && Counted(sems, tallies, waiting)
    }

    /** sched_start: made is what thread_create has put into the list so far;
        the idle thread comes after them and is the current one. */
    constructor (made: seq<Tid>, prios: map<Tid, int>, idler: Tid)
      requires NoDup(made) && made != [] && idler !in made
      requires forall t :: t in made ==> t in prios && prios[t] > 0
      ensures Valid() && list == made + [idler] && cur == idle == idler && sems == map[] && waiting == map[]
      ensures forall t :: t in made ==> t in threads && threads[t] == Thread(Runnable, prios[t], 0, 0)
      ensures idler in threads && threads[idler] == Thread(Runnable, 0, 0, 0)
    {
      list, cur, idle := made + [idler], idler, idler;
      threads := (map t | t in made :: Thread(Runnable, prios[t], 0, 0))[idler := Thread(Runnable, 0, 0, 0)];
      sems, waiting, tallies := map[], map[], map[];
    }

    /** The current thread is running code of its own. */
    ghost predicate Active()
      reads this
    {
      cur in threads && threads[cur].state == Running && cur != idle
    }

    lemma ActiveParts()
      requires Active()
      ensures cur in threads && threads[cur].state == Running && cur != idle
    {
    }

    /** sched_thread: run from every trap, so from every tick and every yield. */
    method Schedule()
      requires Valid()
      modifies this`list, this`threads, this`cur
      ensures Valid()
      ensures old(cur in list && cur in threads && Sane(list, LoadOf(threads)))
      ensures cur == Select(old(list), old(cur), LoadOf(old(threads))) && cur in old(threads)
      ensures threads == Switched(old(threads), old(cur), cur)
      ensures list == if old(threads[cur].state) == Dead then Without(old(list), old(cur)) else old(list)
      ensures Top(old(list), LoadOf(old(threads)), cur)
      ensures forall t :: t in list ==> t in threads && (threads[t].state == Running <==> t == cur)
      ensures old(threads[cur].state) != Dead ==> LoadOf(threads) == LoadOf(old(threads))
    {
      hide *;
      ValidParts();
      SaneLoad(list, threads, cur, idle);
      var next := PickNext();
      SelectIsTop(list, cur, LoadOf(threads));
      TopReady(list, threads, next);
      SwitchedListed(list, threads, cur, idle, next);
      if threads[cur].state != Dead { SwitchedLoad(threads, cur, next); }
      SwitchedBlocked(threads, cur, next, sems, waiting);
      SwitchedIs(threads, cur, next);
      if threads[cur].state == Dead {
        list := Without(list, cur);
      } else if threads[cur].state == Running {
        threads := threads[cur := threads[cur].(state := Runnable)];
      }
      threads := threads[next := threads[next].(state := Running)];
      cur := next;
      ValidFrom();
      forall t | t in list ensures t in threads && (threads[t].state == Running <==> t == cur) {
        SwitchedAlone(list, threads, cur, idle, t);
      }
    }

    lemma ValidParts()
      requires Valid()
      ensures Listed(list, threads, cur, idle) && Blocked(threads, waiting) && Queued(threads, sems, waiting)
      ensures Once(sems, waiting) && Counted(sems, tallies, waiting)
      ensures cur in list && cur in threads && NoDup(list) && idle in list && idle in threads
    {
    }

    lemma ValidFrom()
      requires Listed(list, threads, cur, idle) && Blocked(threads, waiting) && Queued(threads, sems, waiting)
      requires Once(sems, waiting) && Counted(sems, tallies, waiting)
      ensures Valid()
    {
    }

    /** The loop of sched_thread: the first ready thread of highest priority, from
        the one after the current round to the current one itself. */
    method PickNext() returns (next: Tid)
      requires Listed(list, threads, cur, idle)
      ensures cur in list && Sane(list, LoadOf(threads)) && next == Select(list, cur, LoadOf(threads))
    {
      hide *;
      ListedParts(list, threads, cur, idle);
      SaneLoad(list, threads, cur, idle);
      ghost var l := LoadOf(threads);
      ghost var i := 0;
      OrderSteps(list, cur, 0);
      PickedNone(list, cur, l);
      var t := NextThread(list, cur);
      var hp := -1;
      next := cur;
      while t != cur
        invariant 0 <= i < |list| && |Order(list, cur)| == |list| && t == Order(list, cur)[i] && t in list
        invariant Picked(list, cur, l, i, next, hp)
        decreases |list| - i
      {
        OrderSteps(list, cur, i);
        PickedStep(list, threads, cur, i, next, hp);
        LastOfOrder(list, cur, i);
        if Ready(threads[t]) && threads[t].priority > hp {
          next, hp := t, threads[t].priority;
        }
        t := NextThread(list, t);
        i := i + 1;
        OrderSteps(list, cur, i);
      }
      OrderIndex(list, cur, i);
      PickedStep(list, threads, cur, i, next, hp);
      if Ready(threads[t]) && threads[t].priority > hp {
        next := t;
        PickedAll(list, cur, l, next, threads[t].priority);
      } else {
        PickedAll(list, cur, l, next, hp);
      }
    }

    /** sched_tick: one of the threads' sleeping times runs down. */
    method Tick()
      requires Valid()
      modifies this`threads
      ensures Valid() && threads == TickedAll(old(threads))
    {
      hide *;
      ValidParts();
      TickedKeeps(list, threads, cur, idle, sems, waiting);
      ghost var was := threads;
      TickedNone(threads);
      var i := 0;
      while i < |list|
        invariant 0 <= i <= |list| && threads == TickedSome(was, list[..i])
      {
        var t := list[i];
        TickedStep(list, was, cur, idle, i);
        if threads[t].sleep != 0 {
          var th := threads[t].(sleep := threads[t].sleep - 1);
          if th.sleep == 0 {
            th := th.(state := Runnable);
          }
          threads := threads[t := th];
        }
        i := i + 1;
      }
      TickedEvery(list, was, cur, idle, waiting);
      assert list[..i] == list;
      ValidFrom();
    }

    /** sched_msleep, up to its sched_yield. */
    method Msleep(time: nat)
      requires Valid() && Active() && cur !in waiting && time < 0x1_0000_0000_0000_0000
      modifies this`threads
      ensures Valid() && cur in old(threads)
      ensures time == 0 ==> threads == old(threads)
      ensures time != 0 ==> threads == old(threads)[cur := old(threads)[cur].(state := Block, sleep := SleepTicks(time))]
    {
      hide *;
      ValidParts();
      ActiveParts();
      if time != 0 {
        SleepsSome(time);
        SleeperKeeps(list, threads, cur, idle, sems, waiting, SleepTicks(time));
        threads := threads[cur := threads[cur].(sleep := SleepTicks(time), state := Block)];
        ValidFrom();
      }
    }

    /** thread_end_point, up to its sched_yield. */
    method EndPoint(code: int)
      requires Valid() && Active() && cur !in waiting
      modifies this`threads
      ensures Valid() && cur in old(threads)
      ensures threads == old(threads)[cur := old(threads)[cur].(state := Dead, exitCode := code)]
    {
      hide *;
      ValidParts();
      ActiveParts();
      EndKeeps(list, threads, cur, idle, sems, waiting, code);
      threads := threads[cur := threads[cur].(exitCode := code, state := Dead)];
      ValidFrom();
    }

    /** thread_create: t is the record malloc has found, memory tells whether it
        and the context could be had. */
    method Create(t: Tid, memory: bool) returns (made: bool)
      requires Valid() && t !in threads
      modifies this`threads, this`list
      ensures Valid() && made == memory
      ensures list == if made then old(list) + [t] else old(list)
      ensures threads == if made then old(threads)[t := Thread(Runnable, 1, 0, 0)] else old(threads)
    {
      if !memory {
        return false;
      }
      hide *;
      ValidParts();
      CreateKeeps(list, threads, cur, idle, sems, waiting, t);
      threads := threads[t := Thread(Runnable, 1, 0, 0)];
      list := list + [t];
      ValidFrom();
      return true;
    }

    /** thread_set_priority, up to its sched_yield. */
    method SetPriority(t: Tid, p: int) returns (err: int)
      requires Valid() && t in threads
      modifies this`threads
      ensures Valid() && err == if p <= 0 then -EINVAL else 0
      ensures threads == if p <= 0 then old(threads) else old(threads)[t := old(threads)[t].(priority := p)]
    {
      if p <= 0 {
        return -EINVAL;
      }
      hide *;
      ValidParts();
      PriorityKeeps(list, threads, cur, idle, sems, waiting, t, p);
      threads := threads[t := threads[t].(priority := p)];
      ValidFrom();
      return 0;
    }

    /** thread_destroy: the record of a dead thread is freed. Nothing refers to it
        any more: it is in no list. */
    method Destroy(t: Tid) returns (code: int)
      requires Valid() && Active() && t in threads && threads[t].state == Dead
      modifies this`threads
      ensures Valid() && threads == old(threads) - {t} && code == old(threads)[t].exitCode
      ensures t !in list && t !in waiting && forall s :: s in sems ==> t !in sems[s].waiters
    {
      code := threads[t].exitCode;
      threads := threads - {t};
    }

    // ----- semaphores -----

    /** sem_init on a semaphore nobody waits on. */
    method SemInit(s: SemId, value: int)
      requires Valid() && forall t :: t in waiting ==> waiting[t] != s
      modifies this`sems, this`tallies
      ensures Valid() && sems == old(sems)[s := Sem(value, [])] && tallies == old(tallies)[s := Tally(value, 0, 0)]
    {
      sems, tallies := sems[s := Sem(value, [])], tallies[s := Tally(value, 0, 0)];
    }

    /** One turn of sem_wait's loop: the locked region, by the current thread. It
        has either not been here before, or was put to sleep here and runs again.
        When the turn ends with taken false, sched_yield follows. */
    method SemWait(s: SemId) returns (taken: bool)
      requires Valid() && Active() && s in sems && (cur in waiting ==> waiting[cur] == s)
      modifies this`sems, this`threads, this`waiting, this`tallies
      ensures Valid() && s in old(sems) && s in old(tallies) && cur in old(threads)
      ensures taken == (old(sems)[s].count > 0)
      ensures taken ==> sems == old(sems)[s := Sem(old(sems)[s].count - 1, old(sems)[s].waiters)]
      ensures taken ==> threads == old(threads) && waiting == old(waiting) - {cur}
      ensures taken ==> tallies == old(tallies)[s := old(tallies)[s].(waits := old(tallies)[s].waits + 1)]
      ensures !taken ==> sems == old(sems)[s := Sem(old(sems)[s].count, old(sems)[s].waiters + [cur])]
      ensures !taken ==> threads == old(threads)[cur := old(threads)[cur].(state := Block)] && waiting == old(waiting)[cur := s]
      ensures !taken ==> tallies == old(tallies)
    {
      hide *;
      ValidParts();
      ActiveParts();
      var inList := cur in waiting;
      NotQueued(threads, sems, waiting, cur, s);
      CountedAt(sems, tallies, waiting, s);
      if sems[s].count > 0 {
        TakenKeeps(threads, sems, tallies, waiting, cur, s);
        WithoutNone<Tid>(sems[s].waiters, cur);
        var left := sems[s].waiters;
        if inList {
          left := Without<Tid>(left, cur);
        }
        assert left == sems[s].waiters;
        sems := sems[s := Sem(sems[s].count - 1, left)];
        tallies := tallies[s := tallies[s].(waits := tallies[s].waits + 1)];
        waiting := waiting - {cur};
        ValidFrom();
        return true;
      }
      AsleepKeeps(list, threads, cur, idle, sems, waiting, s);
      AsleepCounted(sems, tallies, waiting, cur, s);
      threads := threads[cur := threads[cur].(state := Block)];
      sems := sems[s := Sem(sems[s].count, sems[s].waiters + [cur])];
      waiting := waiting[cur := s];
      ValidFrom();
      return false;
    }

    /** The loop of sem_post: -1 stands for NULL. */
    method BestWaiter(w: seq<Tid>) returns (best: int)
      requires Sane(w, Sleepers(threads)) && forall t :: t in w ==> t in threads && threads[t].state == Block
      ensures w == [] <==> best < 0
      ensures best >= 0 ==> best in w && best in threads && FirstInLine(w, threads, best)
    {
      hide *;
      ghost var l := Sleepers(threads);
      FoundNone(w, l);
      best := -1;
      var bestPrio := -1;
      var i := 0;
      while i < |w|
        invariant 0 <= i <= |w| && Found(w, i, l, best, bestPrio)
      {
        var t := w[i];
        FoundStep(w, i, threads, best, bestPrio);
        if threads[t].state == Block {
          if threads[t].priority > bestPrio {
            bestPrio := threads[t].priority;
            best := t;
          }
        }
        i := i + 1;
      }
      FoundAll(w, threads, best, bestPrio);
    }

    /** sem_post, up to its sched_yield; from a thread or an interrupt. */
    method SemPost(s: SemId) returns (ghost woken: Tid)
      requires Valid() && s in sems
      modifies this`sems, this`threads, this`tallies
      ensures Valid() && s in old(sems) && s in old(tallies)
      ensures tallies == old(tallies)[s := old(tallies)[s].(posts := old(tallies)[s].posts + 1)]
      ensures PostedTo(s, old(sems), old(threads), sems, threads, woken)
    {
      hide *;
      ValidParts();
      CountedAt(sems, tallies, waiting, s);
      WaitersAsleep(list, threads, cur, idle, sems, waiting, s);
      var w := sems[s].waiters;
      var best := BestWaiter(w);
      ghost var more := tallies[s := tallies[s].(posts := tallies[s].posts + 1)];
      if best >= 0 {
        woken := best;
        PostedKeeps(list, threads, cur, idle, sems, waiting, s, best);
        PostedIs(sems, threads, s, best);
        PostedCounted(sems, tallies, waiting, s, best);
        sems := sems[s := Sem(sems[s].count + 1, Without<Tid>(w, best))];
        threads := threads[best := threads[best].(state := Runnable)];
      } else {
        woken := cur;
        PostedNoneKeeps(threads, sems, tallies, waiting, s, woken);
        sems := sems[s := Sem(sems[s].count + 1, w)];
      }
      tallies := more;
      ValidFrom();
    }
  }

  /** What the loop has found among the first i threads of the order. */
  ghost predicate Picked(list: seq<Tid>, cur: Tid, l: Load, i: nat, next: Tid, hp: int) {
    && cur in list && i <= |list|
    && var s := Order(list, cur)[..i];
    && Sane(s, l)
    && if Best(s, l) == -1 then hp == -1 && next == cur
       else next == s[Best(s, l)] && next in l.prio && hp == l.prio[next]
  }

  lemma PickedNone(list: seq<Tid>, cur: Tid, l: Load)
    requires cur in list
    ensures Picked(list, cur, l, 0, cur, -1)
  {
  }

  lemma PickedStep(list: seq<Tid>, threads: Threads, cur: Tid, i: nat, next: Tid, hp: int)
    requires Picked(list, cur, LoadOf(threads), i, next, hp) && i < |list| && Sane(Order(list, cur), LoadOf(threads))
    ensures Order(list, cur)[i] in threads
    ensures var t := Order(list, cur)[i];
      if Ready(threads[t]) && threads[t].priority > hp then Picked(list, cur, LoadOf(threads), i + 1, t, threads[t].priority)
      else Picked(list, cur, LoadOf(threads), i + 1, next, hp)
  {
    var o, l := Order(list, cur), LoadOf(threads);
    assert o[i] in o && o[i] in l.prio;
    BestStep(o, i, l);
  }

  lemma BestStep(o: seq<Tid>, i: nat, l: Load)
    requires i < |o| && Sane(o, l)
    ensures Sane(o[..i], l) && Sane(o[..i + 1], l) && o[i] in o
    ensures Best(o[..i + 1], l) ==
      if o[i] in l.ready && (Best(o[..i], l) == -1 || l.prio[o[..i][Best(o[..i], l)]] < l.prio[o[i]]) then i else Best(o[..i], l)
  {
    assert o[..i + 1][..i] == o[..i];
  }

  lemma PickedAll(list: seq<Tid>, cur: Tid, l: Load, next: Tid, hp: int)
    requires Picked(list, cur, l, |list|, next, hp) && Sane(list, l)
    ensures next == Select(list, cur, l)
  {
    assert Order(list, cur)[..|list|] == Order(list, cur);
  }

  function SleepTicks(time: nat): nat {
    time * TICK_HZ % 0x1_0000_0000_0000_0000 / 1000 + 1
  }

  lemma SleepsSome(time: nat)
    ensures SleepTicks(time) > 0
  {
  }

  lemma SleeperKeeps(list: seq<Tid>, threads: Threads, cur: Tid, idle: Tid, sems: map<SemId, Sem>, waiting: InWait, ticks: nat)
    requires Listed(list, threads, cur, idle) && Blocked(threads, waiting) && Queued(threads, sems, waiting)
    requires cur in threads && cur !in waiting && cur != idle && ticks > 0
    ensures var then_ := threads[cur := threads[cur].(state := Block, sleep := ticks)];
      Listed(list, then_, cur, idle) && Blocked(then_, waiting) && Queued(then_, sems, waiting)
  {
  }

  lemma EndKeeps(list: seq<Tid>, threads: Threads, cur: Tid, idle: Tid, sems: map<SemId, Sem>, waiting: InWait, code: int)
    requires Listed(list, threads, cur, idle) && Blocked(threads, waiting) && Queued(threads, sems, waiting)
    requires cur in threads && threads[cur].state == Running && cur !in waiting && cur != idle
    ensures var then_ := threads[cur := threads[cur].(state := Dead, exitCode := code)];
      Listed(list, then_, cur, idle) && Blocked(then_, waiting) && Queued(then_, sems, waiting)
  {
  }

  lemma CreateKeeps(list: seq<Tid>, threads: Threads, cur: Tid, idle: Tid, sems: map<SemId, Sem>, waiting: InWait, t: Tid)
    requires Listed(list, threads, cur, idle) && Blocked(threads, waiting) && Queued(threads, sems, waiting) && t !in threads
    ensures var then_ := threads[t := Thread(Runnable, 1, 0, 0)];
      Listed(list + [t], then_, cur, idle) && Blocked(then_, waiting) && Queued(then_, sems, waiting)
  {
  }

  lemma PriorityKeeps(list: seq<Tid>, threads: Threads, cur: Tid, idle: Tid, sems: map<SemId, Sem>, waiting: InWait, t: Tid, p: int)
    requires Listed(list, threads, cur, idle) && Blocked(threads, waiting) && Queued(threads, sems, waiting) && t in threads && p > 0
    ensures var then_ := threads[t := threads[t].(priority := p)];
      Listed(list, then_, cur, idle) && Blocked(then_, waiting) && Queued(then_, sems, waiting)
  {
  }

  /** A running thread is in no wait list. */
  lemma NotQueued(threads: Threads, sems: map<SemId, Sem>, waiting: InWait, t: Tid, s: SemId)
    requires Queued(threads, sems, waiting) && Once(sems, waiting) && s in sems
    requires t in threads && threads[t].state == Running
    ensures t !in sems[s].waiters
  {
  }

  lemma CountedAt(sems: map<SemId, Sem>, tallies: map<SemId, Tally>, waiting: InWait, s: SemId)
    requires Counted(sems, tallies, waiting) && s in sems
    ensures s in tallies && Fair(s, sems[s], tallies[s], waiting)
  {
  }

  lemma TakenKeeps(threads: Threads, sems: map<SemId, Sem>, tallies: map<SemId, Tally>, waiting: InWait, t: Tid, s: SemId)
    requires Blocked(threads, waiting) && Queued(threads, sems, waiting) && Once(sems, waiting) && Counted(sems, tallies, waiting)
    requires t in threads && threads[t].state == Running && s in sems && sems[s].count > 0 && (t in waiting ==> waiting[t] == s)
    requires t !in sems[s].waiters && s in tallies
    ensures var after := sems[s := Sem(sems[s].count - 1, sems[s].waiters)];
      Blocked(threads, waiting - {t}) && Queued(threads, after, waiting - {t}) && Once(after, waiting - {t})
      && Counted(after, tallies[s := tallies[s].(waits := tallies[s].waits + 1)], waiting - {t})
  {
    FairTaken(s, sems[s], tallies[s], waiting, t);
    forall r | r in sems && r != s ensures Fair(r, sems[r], tallies[r], waiting - {t}) {
      FairElsewhere(r, sems[r], tallies[r], waiting, waiting - {t}, t);
    }
    forall r | r in sems ensures t !in sems[r].waiters {
      NotQueued(threads, sems, waiting, t, r);
    }
  }

  lemma AsleepKeeps(list: seq<Tid>, threads: Threads, cur: Tid, idle: Tid, sems: map<SemId, Sem>, waiting: InWait, s: SemId)
    requires Listed(list, threads, cur, idle) && Blocked(threads, waiting) && Queued(threads, sems, waiting)
    requires cur in threads && threads[cur].state == Running && cur != idle && s in sems
    requires cur in waiting ==> waiting[cur] == s
    ensures var then_ := threads[cur := threads[cur].(state := Block)];
      var after := sems[s := Sem(sems[s].count, sems[s].waiters + [cur])];
      Listed(list, then_, cur, idle) && Blocked(then_, waiting[cur := s]) && Queued(then_, after, waiting[cur := s])
  {
  }

  lemma AsleepCounted(sems: map<SemId, Sem>, tallies: map<SemId, Tally>, waiting: InWait, t: Tid, s: SemId)
    requires Once(sems, waiting) && Counted(sems, tallies, waiting)
    requires s in sems && sems[s].count <= 0 && (t in waiting ==> waiting[t] == s) && t !in sems[s].waiters
    ensures var after := sems[s := Sem(sems[s].count, sems[s].waiters + [t])];
      Once(after, waiting[t := s]) && Counted(after, tallies, waiting[t := s])
  {
    FairAsleep(s, sems[s], tallies[s], waiting, t);
    forall r | r in sems && r != s ensures Fair(r, sems[r], tallies[r], waiting[t := s]) {
      FairElsewhere(r, sems[r], tallies[r], waiting, waiting[t := s], t);
    }
  }

  function TickedSome(threads: Threads, done: seq<Tid>): Threads {
    map t | t in threads :: if t in done then Ticked(threads[t]) else threads[t]
  }

  lemma TickedNone(threads: Threads)
    ensures threads == TickedSome(threads, [])
  {
  }

  lemma TickedStep(list: seq<Tid>, was: Threads, cur: Tid, idle: Tid, i: nat)
    requires Listed(list, was, cur, idle) && i < |list|
    ensures list[i] in was && list[i] in TickedSome(was, list[..i])
    ensures TickedSome(was, list[..i])[list[i]] == was[list[i]]
    ensures TickedSome(was, list[..i + 1]) == TickedSome(was, list[..i])[list[i] := Ticked(was[list[i]])]
    ensures was[list[i]].sleep == 0 ==> TickedSome(was, list[..i + 1]) == TickedSome(was, list[..i])
    ensures was[list[i]].sleep == 1 ==> Ticked(was[list[i]]) == was[list[i]].(sleep := 0).(state := Runnable)
    ensures was[list[i]].sleep > 1 ==> Ticked(was[list[i]]) == was[list[i]].(sleep := was[list[i]].sleep - 1)
  {
    assert list[i] in list && list[i] !in list[..i];
    assert list[..i + 1] == list[..i] + [list[i]];
  }

  /** A thread that is in no list has no time to sleep. */
  lemma TickedEvery(list: seq<Tid>, was: Threads, cur: Tid, idle: Tid, waiting: InWait)
    requires Listed(list, was, cur, idle) && Blocked(was, waiting)
    ensures TickedSome(was, list) == TickedAll(was)
  {
    forall t | t in was && t !in list ensures Ticked(was[t]) == was[t] {
      assert was[t].state == Dead;
    }
  }

  /** What the loop over the wait list has found among its first i threads. */
  ghost predicate Found(w: seq<Tid>, i: nat, l: Load, best: int, bestPrio: int) {
    && Sane(w, l) && i <= |w|
    && if Best(w[..i], l) == -1 then best == -1 && bestPrio == -1
       else best == w[Best(w[..i], l)] && best in l.prio && bestPrio == l.prio[best]
  }

  /** Every thread in a wait list is blocked. */
  lemma WaitersAsleep(list: seq<Tid>, threads: Threads, cur: Tid, idle: Tid, sems: map<SemId, Sem>, waiting: InWait, s: SemId)
    requires Listed(list, threads, cur, idle) && Queued(threads, sems, waiting) && Once(sems, waiting) && s in sems
    ensures forall t :: t in sems[s].waiters ==> t in threads && threads[t].state == Block
    ensures Sane(sems[s].waiters, Sleepers(threads))
  {
    forall t | t in sems[s].waiters ensures t in threads && threads[t].state == Block && 0 <= threads[t].priority {
      assert t in waiting && waiting[t] == s;
      assert t in list;
    }
  }

  lemma FoundNone(w: seq<Tid>, l: Load)
    requires Sane(w, l)
    ensures Found(w, 0, l, -1, -1)
  {
  }

  lemma FoundStep(w: seq<Tid>, i: nat, threads: Threads, best: int, bestPrio: int)
    requires Found(w, i, Sleepers(threads), best, bestPrio) && i < |w|
    ensures w[i] in threads
    ensures var t := w[i];
      if threads[t].state == Block && threads[t].priority > bestPrio then Found(w, i + 1, Sleepers(threads), t, threads[t].priority)
      else Found(w, i + 1, Sleepers(threads), best, bestPrio)
  {
    BestStep(w, i, Sleepers(threads));
  }

  lemma FoundAll(w: seq<Tid>, threads: Threads, best: int, bestPrio: int)
    requires Found(w, |w|, Sleepers(threads), best, bestPrio)
    requires forall t :: t in w ==> t in threads && threads[t].state == Block
    ensures w == [] <==> best < 0
    ensures best >= 0 ==> best in w && best in threads && threads[best].state == Block && FirstInLine(w, threads, best)
  {
    assert w[..|w|] == w;
    BestIs(w, Sleepers(threads));
    if w != [] {
      assert w[0] in w;
    }
  }

  lemma PostedKeeps(list: seq<Tid>, threads: Threads, cur: Tid, idle: Tid, sems: map<SemId, Sem>, waiting: InWait, s: SemId, t: Tid)
    requires Listed(list, threads, cur, idle) && Blocked(threads, waiting) && Queued(threads, sems, waiting) && Once(sems, waiting)
    requires s in sems && t in sems[s].waiters && t in threads
    ensures var then_ := threads[t := threads[t].(state := Runnable)];
      Listed(list, then_, cur, idle) && Blocked(then_, waiting)
      && Queued(then_, sems[s := Sem(sems[s].count + 1, Without(sems[s].waiters, t))], waiting)
  {
    assert t in waiting && waiting[t] == s && threads[t].state == Block;
  }

  lemma PostedIs(sems: map<SemId, Sem>, threads: Threads, s: SemId, t: Tid)
    requires s in sems && t in sems[s].waiters && t in threads && FirstInLine(sems[s].waiters, threads, t)
    ensures PostedTo(s, sems, threads, sems[s := Sem(sems[s].count + 1, Without(sems[s].waiters, t))],
                     threads[t := threads[t].(state := Runnable)], t)
  {
  }

  lemma PostedCounted(sems: map<SemId, Sem>, tallies: map<SemId, Tally>, waiting: InWait, s: SemId, t: Tid)
    requires Once(sems, waiting) && Counted(sems, tallies, waiting) && s in sems && s in tallies && t in sems[s].waiters
    ensures var after := sems[s := Sem(sems[s].count + 1, Without(sems[s].waiters, t))];
      Once(after, waiting) && Counted(after, tallies[s := tallies[s].(posts := tallies[s].posts + 1)], waiting)
  {
    FairPosted(s, sems[s], tallies[s], waiting, t);
    WithoutOnce(sems[s].waiters, t);
  }

  lemma PostedNoneKeeps(threads: Threads, sems: map<SemId, Sem>, tallies: map<SemId, Tally>, waiting: InWait, s: SemId, t: Tid)
    requires Queued(threads, sems, waiting)
    requires Once(sems, waiting) && Counted(sems, tallies, waiting) && s in sems && s in tallies && sems[s].waiters == []
    ensures PostedTo(s, sems, threads, sems[s := Sem(sems[s].count + 1, [])], threads, t)
    ensures var after := sems[s := Sem(sems[s].count + 1, [])];
      Queued(threads, after, waiting)
      && Once(after, waiting) && Counted(after, tallies[s := tallies[s].(posts := tallies[s].posts + 1)], waiting)
  {
    FairPostedNone(s, sems[s], tallies[s], waiting);
  }

  lemma TopReady(list: seq<Tid>, threads: Threads, t: Tid)
    requires Top(list, LoadOf(threads), t)
    ensures t in list && t in threads && Ready(threads[t])
  {
  }

  lemma SwitchedIs(threads: Threads, cur: Tid, next: Tid)
    requires cur in threads && next in threads
    ensures threads[cur].state == Running ==> Switched(threads, cur, next) == threads[cur := threads[cur].(state := Runnable)][next := threads[cur := threads[cur].(state := Runnable)][next].(state := Running)]
    ensures threads[cur].state != Running ==> Switched(threads, cur, next) == threads[next := threads[next].(state := Running)]
  {
  }

  lemma ListedParts(list: seq<Tid>, threads: Threads, cur: Tid, idle: Tid)
    requires Listed(list, threads, cur, idle)
    ensures cur in list && NoDup(list) && forall t :: t in list ==> t in threads
  {
  }

  /** The current thread comes last in the order, and only there. */
  lemma LastOfOrder(list: seq<Tid>, cur: Tid, i: nat)
    requires cur in list && NoDup(list) && i < |list| && Order(list, cur)[i] != cur
    ensures i + 1 < |list|
  {
  }

  lemma OrderIndex(list: seq<Tid>, cur: Tid, i: nat)
    requires cur in list && NoDup(list) && i < |list| && Order(list, cur)[i] == cur
    ensures i + 1 == |list|
  {
    OrderMembers(list, cur);
  }
}
