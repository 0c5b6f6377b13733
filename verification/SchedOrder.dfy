/** The order in which the scheduler looks at the threads, and why no thread of
    top priority is passed over. */
module SchedOrder {
  import opened Common

  type Tid = nat

  function Pos(s: seq<Tid>, t: Tid): (p: nat)
    requires t in s
    ensures p < |s| && s[p] == t && forall i :: 0 <= i < p ==> s[i] != t
  {
    if s[0] == t then 0 else 1 + Pos(s[1..], t)
  }

  /** next_thread: the list is a ring. */
  function NextThread(list: seq<Tid>, t: Tid): Tid
    requires t in list
  {
    var p := Pos(list, t);
    if p + 1 == |list| then list[0] else list[p + 1]
  }

  /** The threads as they are looked at: from the one after cur round to cur. */
  function Order(list: seq<Tid>, cur: Tid): (o: seq<Tid>)
    requires cur in list
    ensures |o| == |list| && o[|o| - 1] == cur
  {
    list[Pos(list, cur) + 1..] + list[..Pos(list, cur) + 1]
  }

  lemma PosAt(s: seq<Tid>, i: nat)
    requires NoDup(s) && i < |s|
    ensures Pos(s, s[i]) == i
  {
  }

  lemma OrderMembers(list: seq<Tid>, cur: Tid)
    requires cur in list && NoDup(list)
    ensures NoDup(Order(list, cur)) && forall t :: t in list <==> t in Order(list, cur)
  {
    var p := Pos(list, cur);
    assert list == list[..p + 1] + list[p + 1..];
  }

  /** The place in the list of the k-th thread after the one at place p. */
  function Turn(n: nat, p: nat, k: nat): nat
    requires p < n && k < n
    ensures Turn(n, p, k) < n
  {
    if k < n - (p + 1) then p + 1 + k else k - (n - (p + 1))
  }

  lemma OrderAt(list: seq<Tid>, cur: Tid, k: nat)
    requires cur in list && k < |list|
    ensures Order(list, cur)[k] == list[Turn(|list|, Pos(list, cur), k)]
  {
  }

  /** Stepping with next_thread walks along the order. */
  lemma OrderSteps(list: seq<Tid>, cur: Tid, i: nat)
    requires cur in list && NoDup(list) && i < |list|
    ensures Order(list, cur)[0] == NextThread(list, cur)
    ensures Order(list, cur)[i] in list && (i + 1 < |list| ==> Order(list, cur)[i + 1] == NextThread(list, Order(list, cur)[i]))
  {
    OrderAt(list, cur, i);
    PosAt(list, Turn(|list|, Pos(list, cur), i));
  }

  /** Seen from another thread the order is turned, but otherwise the same. */
  lemma OrderTurned(list: seq<Tid>, cur: Tid, i: nat, j: nat)
    requires cur in list && NoDup(list) && i < |list| && j < |list|
    ensures Order(list, cur)[i] in list
    ensures Order(list, Order(list, cur)[i])[j] == Order(list, cur)[if j < |list| - (i + 1) then i + 1 + j else j - (|list| - (i + 1))]
  {
    hide *;
    OrderAt(list, cur, i);
    var p, n := Pos(list, cur), |list|;
    var c := Order(list, cur)[i];
    PosAt(list, Turn(n, p, i));
    OrderAt(list, c, j);
    OrderAt(list, cur, if j < n - (i + 1) then i + 1 + j else j - (n - (i + 1)));
    TurnTurn(n, p, i, j);
  }

  lemma TurnTurn(n: nat, p: nat, i: nat, j: nat)
    requires p < n && i < n && j < n
    ensures Turn(n, Turn(n, p, i), j) == Turn(n, p, if j < n - (i + 1) then i + 1 + j else j - (n - (i + 1)))
  {
  }

  // ----- the choice -----

  /** Whom to run: who is ready, and each one's priority. */
  datatype Load = Load(ready: set<Tid>, prio: map<Tid, int>)

  ghost predicate Sane(list: seq<Tid>, l: Load) {
    forall t :: t in list ==> t in l.prio && 0 <= l.prio[t]
  }

  /** The first of the threads of highest priority among the ready ones in s, or
      none (-1). */
  function Best(s: seq<Tid>, l: Load): (r: int)
    requires Sane(s, l)
    ensures -1 <= r < |s|
  {
    if s == [] then -1
    else
      var n := |s| - 1;
      var b := Best(s[..n], l);
      if s[n] in l.ready && (b == -1 || l.prio[s[b]] < l.prio[s[n]]) then n else b
  }

  lemma {:induction false} BestIs(s: seq<Tid>, l: Load)
    requires Sane(s, l)
    ensures Best(s, l) == -1 <==> forall i :: 0 <= i < |s| ==> s[i] !in l.ready
    ensures Best(s, l) >= 0 ==> s[Best(s, l)] in l.ready
    ensures Best(s, l) >= 0 ==> forall i :: 0 <= i < |s| && s[i] in l.ready ==> l.prio[s[i]] <= l.prio[s[Best(s, l)]]
    ensures Best(s, l) >= 0 ==> forall i :: 0 <= i < Best(s, l) && s[i] in l.ready ==> l.prio[s[i]] < l.prio[s[Best(s, l)]]
  {
    if s != [] { BestIs(s[..|s| - 1], l); }
  }

  /** The thread the scheduler selects. */
  function Select(list: seq<Tid>, cur: Tid, l: Load): Tid
    requires cur in list && Sane(list, l)
  {
    var o := Order(list, cur);
    if Best(o, l) < 0 then cur else o[Best(o, l)]
  }

  /** Ready threads of the highest priority. */
  ghost predicate Top(list: seq<Tid>, l: Load, t: Tid) {
    t in list && t in l.ready && t in l.prio && forall u :: u in list && u in l.ready && u in l.prio ==> l.prio[u] <= l.prio[t]
  }

  lemma SelectIsTop(list: seq<Tid>, cur: Tid, l: Load)
    requires cur in list && NoDup(list) && Sane(list, l) && exists t :: t in list && t in l.ready
    ensures Top(list, l, Select(list, cur, l))
  {
    OrderMembers(list, cur);
    BestIs(Order(list, cur), l);
  }

  // ----- fairness -----

  /** Whom the scheduler selects at the n-th call from cur on, while the load
      stays the same. */
  function SelectAfter(list: seq<Tid>, cur: Tid, l: Load, n: nat): (t: Tid)
    requires cur in list && Sane(list, l)
    ensures t in list
    decreases n
  {
    if n == 0 then cur
    else
      SelectIn(list, cur, l);
      SelectAfter(list, Select(list, cur, l), l, n - 1)
  }

  lemma SelectIn(list: seq<Tid>, cur: Tid, l: Load)
    requires cur in list && Sane(list, l)
    ensures Select(list, cur, l) in list
  {
    var o := Order(list, cur);
    if 0 <= Best(o, l) < |o| { assert o[Best(o, l)] in o; }
  }

  ghost function Tops(s: seq<Tid>, list: seq<Tid>, l: Load): nat {
    if s == [] then 0 else (if Top(list, l, s[|s| - 1]) then 1 else 0) + Tops(s[..|s| - 1], list, l)
  }

  lemma {:induction false} TopsSplit(s: seq<Tid>, k: nat, list: seq<Tid>, l: Load)
    requires k <= |s|
    ensures Tops(s, list, l) == Tops(s[..k], list, l) + Tops(s[k..], list, l)
  {
    if k == |s| {
      assert s[..k] == s;
    } else {
      var n := |s| - 1;
      TopsSplit(s[..n], k, list, l);
      assert s[..n][..k] == s[..k] && s[..n][k..] == s[k..][..|s[k..]| - 1];
    }
  }

  lemma {:induction false} NoTops(s: seq<Tid>, list: seq<Tid>, l: Load)
    requires forall i :: 0 <= i < |s| ==> !Top(list, l, s[i])
    ensures Tops(s, list, l) == 0
  {
    if s != [] { NoTops(s[..|s| - 1], list, l); }
  }

  /** The first ready thread of highest priority, seen from cur, is the first one
      of top priority in the order. */
  lemma FirstTop(list: seq<Tid>, cur: Tid, l: Load, j: nat)
    requires cur in list && NoDup(list) && Sane(list, l) && j < |list| && Top(list, l, Order(list, cur)[j])
    ensures Sane(Order(list, cur), l) && 0 <= Best(Order(list, cur), l) <= j
    ensures Select(list, cur, l) == Order(list, cur)[Best(Order(list, cur), l)]
    ensures Top(list, l, Order(list, cur)[Best(Order(list, cur), l)])
    ensures forall i :: 0 <= i < Best(Order(list, cur), l) ==> !Top(list, l, Order(list, cur)[i])
  {
    var o := Order(list, cur);
    OrderMembers(list, cur);
    BestIs(o, l);
    SelectIsTop(list, cur, l);
    forall i | 0 <= i < |o| ensures o[i] in list {
      assert o[i] in o;
    }
  }

  lemma TopsTo(o: seq<Tid>, i: nat, j: nat, list: seq<Tid>, l: Load)
    requires i <= j < |o| && Top(list, l, o[i]) && forall k :: 0 <= k < i ==> !Top(list, l, o[k])
    ensures Tops(o[..j + 1], list, l) == 1 + Tops(o[i + 1..j + 1], list, l)
  {
    var s := o[..j + 1];
    TopsSplit(s, i + 1, list, l);
    assert s[i + 1..] == o[i + 1..j + 1];
    assert s[..i + 1][..i] == o[..i];
    NoTops(o[..i], list, l);
  }

  lemma TurnedAt(list: seq<Tid>, cur: Tid, i: nat, j: nat)
    requires cur in list && NoDup(list) && i < j < |list|
    ensures Order(list, cur)[i] in list
    ensures Order(list, Order(list, cur)[i])[j - i - 1] == Order(list, cur)[j]
    ensures Order(list, Order(list, cur)[i])[..j - i] == Order(list, cur)[i + 1..j + 1]
  {
    hide *;
    OrderTurned(list, cur, i, j - i - 1);
    var q := Order(list, Order(list, cur)[i]);
    forall k | 0 <= k < j - i ensures q[k] == Order(list, cur)[i + 1..j + 1][k] {
      OrderTurned(list, cur, i, k);
    }
  }

  /** A thread of top priority that is the d-th such thread in the order is
      selected at the d-th call. */
  lemma {:induction false} SelectedInTurn(list: seq<Tid>, cur: Tid, l: Load, j: nat)
    requires cur in list && NoDup(list) && Sane(list, l) && j < |list| && Top(list, l, Order(list, cur)[j])
    ensures SelectAfter(list, cur, l, Tops(Order(list, cur)[..j + 1], list, l)) == Order(list, cur)[j]
    decreases j
  {
    hide *;
    FirstTop(list, cur, l, j);
    var o := Order(list, cur);
    var i := Best(o, l);
    TopsTo(o, i, j, list, l);
    var n := Tops(o[i + 1..j + 1], list, l);
    AfterOne(list, cur, l, n);
    if j > i {
      TurnedAt(list, cur, i, j);
      SelectedInTurn(list, o[i], l, j - i - 1);
    } else {
      NoTops(o[i + 1..j + 1], list, l);
      AfterNone(list, o[i], l);
    }
  }

  lemma AfterOne(list: seq<Tid>, cur: Tid, l: Load, n: nat)
    requires cur in list && Sane(list, l)
    ensures Select(list, cur, l) in list
    ensures SelectAfter(list, cur, l, 1 + n) == SelectAfter(list, Select(list, cur, l), l, n)
  {
    SelectIn(list, cur, l);
  }

  lemma AfterNone(list: seq<Tid>, cur: Tid, l: Load)
    requires cur in list && Sane(list, l)
    ensures SelectAfter(list, cur, l, 0) == cur
  {
  }

  lemma OrderTops(list: seq<Tid>, cur: Tid, l: Load)
    requires cur in list
    ensures Tops(Order(list, cur), list, l) == Tops(list, list, l)
  {
    var o := Order(list, cur);
    var p := Pos(list, cur) + 1;
    TopsSplit(list, p, list, l);
    TopsSplit(o, |list| - p, list, l);
    assert o[..|list| - p] == list[p..] && o[|list| - p..] == list[..p];
  }

  lemma TopsUpTo(o: seq<Tid>, j: nat, list: seq<Tid>, l: Load)
    requires j < |o| && Top(list, l, o[j])
    ensures 1 <= Tops(o[..j + 1], list, l) <= Tops(o, list, l)
  {
    TopsSplit(o, j + 1, list, l);
  }

  /** Round robin: while the ready threads and the priorities stay as they are,
      every thread of top priority runs within as many calls as there are such
      threads. */
  lemma RoundRobin(list: seq<Tid>, cur: Tid, l: Load, t: Tid)
    requires cur in list && NoDup(list) && Sane(list, l) && Top(list, l, t)
    ensures exists n :: 1 <= n <= Tops(list, list, l) && SelectAfter(list, cur, l, n) == t
  {
    hide *;
    var j := InOrder(list, cur, l, t);
    var o := Order(list, cur);
    SelectedInTurn(list, cur, l, j);
    TopsUpTo(o, j, list, l);
    OrderTops(list, cur, l);
    var n := Tops(o[..j + 1], list, l);
    assert 1 <= n <= Tops(list, list, l) && SelectAfter(list, cur, l, n) == t;
  }

  lemma InOrder(list: seq<Tid>, cur: Tid, l: Load, t: Tid) returns (j: nat)
    requires cur in list && NoDup(list) && Top(list, l, t)
    ensures j < |list| && Order(list, cur)[j] == t
  {
    OrderMembers(list, cur);
    j :| 0 <= j < |list| && Order(list, cur)[j] == t;
  }
}
