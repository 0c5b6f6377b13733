/** Threads and semaphores of the single-CPU kernel, and what is true of them
    between any two of its locked regions. */
module SchedState {
  import opened Common
  import opened SchedOrder

  datatype State = Runnable | Running | Block | Dead

  datatype Thread = Thread(state: State, priority: int, sleep: nat, exitCode: int)

  type SemId = nat

  datatype Sem = Sem(count: int, waiters: seq<Tid>)

  /** What has happened to a semaphore: its first value, the posts and the
      completed waits. */
  datatype Tally = Tally(start: int, posts: nat, waits: nat)

  type Threads = map<Tid, Thread>

  /** The threads inside sem_wait that have once been put to sleep there, and on
      which semaphore: in_list is set in their frame. */
  type InWait = map<Tid, SemId>

  predicate Ready(th: Thread) { th.state == Runnable || th.state == Running }

  function LoadOf(threads: Threads): Load {
    Load(set t | t in threads && Ready(threads[t]), map t | t in threads :: threads[t].priority)
  }

  // ----- the invariant -----

  /** The thread list: it names the living threads; only the current one may be
      running, or dead and not yet taken out. */
  ghost predicate Listed(list: seq<Tid>, threads: Threads, cur: Tid, idle: Tid) {
    && NoDup(list) && cur in list && idle in list
    && (forall t :: t in list ==> t in threads && 0 <= threads[t].priority)
    && (forall t :: t in threads && t !in list ==> threads[t].state == Dead)
    && (forall t :: t in list && t != cur ==> threads[t].state != Running && threads[t].state != Dead)
    && Ready(threads[idle])
  }

  /** A blocked thread sleeps with time left or waits on a semaphore, and not
      both. */
  ghost predicate Blocked(threads: Threads, waiting: InWait) {
    forall t :: t in threads ==>
      && (threads[t].sleep > 0 ==> threads[t].state == Block && t !in waiting)
      && (threads[t].state == Block ==> threads[t].sleep > 0 || t in waiting)
  }

  /** A thread inside sem_wait is in the wait list exactly while it is blocked. */
  ghost predicate Queued(threads: Threads, sems: map<SemId, Sem>, waiting: InWait) {
    forall t :: t in waiting ==>
      && t in threads && waiting[t] in sems
      && threads[t].state != Dead
      && (t in sems[waiting[t]].waiters <==> threads[t].state == Block)
  }

  /** No thread is twice in a wait list, nor in the list of a semaphore it does
      not wait on. */
  ghost predicate Once(sems: map<SemId, Sem>, waiting: InWait) {
    forall s :: s in sems ==> NoDup(sems[s].waiters) && forall t :: t in sems[s].waiters ==> t in waiting && waiting[t] == s
  }

  /** The threads that sem_post has woken and that have not yet tried again. */
  ghost function Woken(waiting: InWait, s: SemId, waiters: seq<Tid>): set<Tid> {
    set t | t in waiting && waiting[t] == s && t !in waiters
  }

  /** A semaphore's count is right, and nobody sleeps on it unless as many threads
      as it could let through have already been woken. */
  ghost predicate Fair(s: SemId, sem: Sem, tally: Tally, waiting: InWait) {
    && sem.count == tally.start + tally.posts - tally.waits
    && (sem.count < 0 ==> tally.waits == 0)
    && (sem.waiters != [] ==> sem.count <= |Woken(waiting, s, sem.waiters)|)
  }

  ghost predicate Counted(sems: map<SemId, Sem>, tallies: map<SemId, Tally>, waiting: InWait) {
    && sems.Keys == tallies.Keys
    && forall s :: s in sems ==> Fair(s, sems[s], tallies[s], waiting)
  }

  // ----- what follows from it -----

  /** A semaphore that starts at zero or above never goes below zero. */
  lemma NeverNegative(s: SemId, sem: Sem, tally: Tally, waiting: InWait)
    requires Fair(s, sem, tally, waiting) && tally.start >= 0
    ensures sem.count >= 0
  {
  }

  /** No lost wakeup: if a semaphore could let a thread through while others
      sleep on it, then a thread that will take it is ready to run. */
  lemma NoLostWakeup(threads: Threads, sems: map<SemId, Sem>, tallies: map<SemId, Tally>, waiting: InWait, s: SemId) returns (t: Tid)
    requires Blocked(threads, waiting) && Queued(threads, sems, waiting) && Once(sems, waiting) && Counted(sems, tallies, waiting)
    requires s in sems && sems[s].count > 0 && sems[s].waiters != []
    ensures t in threads && Ready(threads[t]) && t in waiting && waiting[t] == s && t !in sems[s].waiters
  {
    assert Fair(s, sems[s], tallies[s], waiting);
    var w := Woken(waiting, s, sems[s].waiters);
    assert w != {};
    t :| t in w;
  }

  // ----- how the regions keep it -----

  lemma WokenLess(waiting: InWait, s: SemId, waiters: seq<Tid>, next: InWait, nextWaiters: seq<Tid>, t: Tid)
    requires t in waiting && waiting[t] == s && t !in waiters
    requires forall u :: u in Woken(next, s, nextWaiters) <==> u in Woken(waiting, s, waiters) && u != t
    ensures |Woken(next, s, nextWaiters)| == |Woken(waiting, s, waiters)| - 1
  {
    var a, b := Woken(waiting, s, waiters), Woken(next, s, nextWaiters);
    assert t in a && b == a - {t};
  }

  /** A thread that finds the count above zero takes one and leaves. */
  lemma FairTaken(s: SemId, sem: Sem, tally: Tally, waiting: InWait, t: Tid)
    requires Fair(s, sem, tally, waiting) && sem.count > 0 && t !in sem.waiters
    requires t in waiting ==> waiting[t] == s
    ensures Fair(s, sem.(count := sem.count - 1), tally.(waits := tally.waits + 1), waiting - {t})
  {
    if t in waiting {
      WokenLess(waiting, s, sem.waiters, waiting - {t}, sem.waiters, t);
    } else {
      assert waiting - {t} == waiting;
    }
  }

  /** One that finds it spent goes to sleep. */
  lemma FairAsleep(s: SemId, sem: Sem, tally: Tally, waiting: InWait, t: Tid)
    requires Fair(s, sem, tally, waiting) && sem.count <= 0
    ensures Fair(s, sem.(waiters := sem.waiters + [t]), tally, waiting[t := s])
  {
  }

  /** Changes to threads on other semaphores do not matter. */
  lemma FairElsewhere(s: SemId, sem: Sem, tally: Tally, waiting: InWait, next: InWait, t: Tid)
    requires Fair(s, sem, tally, waiting)
    requires forall u :: u != t ==> (u in next <==> u in waiting) && (u in next ==> next[u] == waiting[u])
    requires (t in waiting ==> waiting[t] != s) && (t in next ==> next[t] != s)
    ensures Fair(s, sem, tally, next)
  {
    assert Woken(waiting, s, sem.waiters) == Woken(next, s, sem.waiters);
  }

  /** A post lets one more through and wakes a sleeper, if there is one. */
  lemma FairPosted(s: SemId, sem: Sem, tally: Tally, waiting: InWait, t: Tid)
    requires Fair(s, sem, tally, waiting) && t in sem.waiters && t in waiting && waiting[t] == s
    ensures Fair(s, Sem(sem.count + 1, Without(sem.waiters, t)), tally.(posts := tally.posts + 1), waiting)
  {
    var a, b := Woken(waiting, s, sem.waiters), Woken(waiting, s, Without(sem.waiters, t));
    assert t !in a && b == a + {t};
  }

  lemma FairPostedNone(s: SemId, sem: Sem, tally: Tally, waiting: InWait)
    requires Fair(s, sem, tally, waiting) && sem.waiters == []
    ensures Fair(s, Sem(sem.count + 1, []), tally.(posts := tally.posts + 1), waiting)
  {
  }
}
