/** The wakeup protocol of `NotifyQueue` (pkg/llm/notifyqueue.go) as a transition system. An atomic
    step is one critical section of the mutex or one channel operation; any number of threads may
    push, close and consume. */
module NotifyQueue {
  import opened Text
  import NotifyBuffer

  /** Where a thread is: outside, between leaving a critical section and `signal`, about to take the
      lock in `Next`, or blocked in the `select` of `Next`. */
  datatype Pc = Signal | Recheck | Waiting

  datatype State<!T> = State(
    items: seq<T>, closed: bool, token: bool, pcs: map<nat, Pc>,
    accepted: seq<T>, delivered: seq<T>)

  datatype Event<!T> =
    | Push(tid: nat, item: T)
    | PushBounded(tid: nat, item: T, capacity: nat, gap: nat -> Option<T>)
    | Close(tid: nat)
    | Begin(tid: nat)
    | Check(tid: nat)
    | Wake(tid: nat)
    | Cancel(tid: nat)
    | Notify(tid: nat)

  function Init<T>(): State<T> { State([], false, false, map[], [], []) }

  predicate At<T>(s: State<T>, tid: nat, pc: Pc) { tid in s.pcs && s.pcs[tid] == pc }

  predicate Enabled<T>(s: State<T>, e: Event<T>) {
    match e
    case Push(t, _) => t !in s.pcs
    case PushBounded(t, _, _, _) => t !in s.pcs
    case Close(t) => t !in s.pcs
    case Begin(t) => t !in s.pcs
    case Check(t) => At(s, t, Recheck)
    case Wake(t) => At(s, t, Waiting) && s.token
    case Cancel(t) => At(s, t, Waiting)
    case Notify(t) => At(s, t, Signal)
  }

  function Goto<T>(s: State<T>, tid: nat, pc: Pc): State<T> { s.(pcs := s.pcs[tid := pc]) }

  function Leave<T>(s: State<T>, tid: nat): State<T> { s.(pcs := s.pcs - {tid}) }

  /** The critical section of `Next`. */
  function Checked<T>(s: State<T>, tid: nat): State<T> {
    if s.items != [] then
      var taken := s.(items := s.items[1..], delivered := s.delivered + [s.items[0]]);
      if taken.items != [] || s.closed then Goto(taken, tid, Signal) else Leave(taken, tid)
    else if s.closed then Goto(s, tid, Signal)
    else Goto(s, tid, Waiting)
  }

  function Next<T>(s: State<T>, e: Event<T>): State<T> {
    match e
    case Push(t, x) =>
      if s.closed then s else Goto(s.(items := s.items + [x], accepted := s.accepted + [x]), t, Signal)
    case PushBounded(t, x, capacity, gap) =>
      if s.closed then s
      else Goto(s.(items := NotifyBuffer.Bounded(s.items, x, capacity, gap), accepted := s.accepted + [x]), t, Signal)
    case Close(t) => if s.closed then s else Goto(s.(closed := true), t, Signal)
    case Begin(t) => Goto(s, t, Recheck)
    case Check(t) => Checked(s, t)
    case Wake(t) => Goto(s.(token := false), t, Recheck)
    case Cancel(t) => Leave(s, t)
    case Notify(t) => Leave(s.(token := true), t)
  }

  /** A run: every event is enabled where it happens. */
  predicate IsRun<T>(s: State<T>, es: seq<Event<T>>)
    decreases |es|
  {
    es == [] || (Enabled(s, es[0]) && IsRun(Next(s, es[0]), es[1..]))
  }

  function After<T>(s: State<T>, es: seq<Event<T>>): State<T>
    decreases |es|
  {
    if es == [] then s else After(Next(s, es[0]), es[1..])
  }

  // ---------------------------------------------------------------- no lost wakeup

  predicate Work<T>(s: State<T>) { s.items != [] || s.closed }

  /** Work is covered: the token is there, or some thread is about to signal or to look. */
  predicate Covered<T>(s: State<T>) {
    s.token || exists t | t in s.pcs :: s.pcs[t] == Signal || s.pcs[t] == Recheck
  }

  predicate Safe<T>(s: State<T>) { Work(s) ==> Covered(s) }

  lemma MovingCovers<T>(s: State<T>, tid: nat, pc: Pc)
    requires pc == Signal || pc == Recheck
    ensures Covered(Goto(s, tid, pc))
  {
    assert tid in Goto(s, tid, pc).pcs;
  }

  /** A thread that was neither signalling nor looking does not take cover away. */
  lemma CoverStays<T>(s: State<T>, t: State<T>, tid: nat)
    requires Covered(s) && t.token == s.token
    requires !At(s, tid, Signal) && !At(s, tid, Recheck)
    requires forall u | u in s.pcs && u != tid :: u in t.pcs && t.pcs[u] == s.pcs[u]
    ensures Covered(t)
  {
    if !s.token {
      var u :| u in s.pcs && (s.pcs[u] == Signal || s.pcs[u] == Recheck);
      assert u in t.pcs;
    }
  }

  lemma CheckSafe<T>(s: State<T>, tid: nat)
    requires At(s, tid, Recheck)
    ensures Safe(Checked(s, tid))
  {
    if s.items != [] {
      var taken := s.(items := s.items[1..], delivered := s.delivered + [s.items[0]]);
      MovingCovers(taken, tid, Signal);
    } else {
      MovingCovers(s, tid, Signal);
    }
  }

  lemma StepSafe<T>(s: State<T>, e: Event<T>)
    requires Enabled(s, e) && Safe(s)
    ensures Safe(Next(s, e))
  {
    match e {
      case Push(t, x) =>
        MovingCovers(s.(items := s.items + [x], accepted := s.accepted + [x]), t, Signal);
      case PushBounded(t, x, capacity, gap) =>
        MovingCovers(s.(items := NotifyBuffer.Bounded(s.items, x, capacity, gap), accepted := s.accepted + [x]), t,
            Signal);
      case Close(t) => MovingCovers(s.(closed := true), t, Signal);
      case Begin(t) => MovingCovers(s, t, Recheck);
      case Check(t) => CheckSafe(s, t);
      case Wake(t) => MovingCovers(s.(token := false), t, Recheck);
      case Cancel(t) => if Work(s) { CoverStays(s, Leave(s, t), t); }
      case Notify(t) =>
    }
  }

  lemma {:induction false} RunSafe<T>(s: State<T>, es: seq<Event<T>>)
    requires IsRun(s, es) && Safe(s)
    ensures Safe(After(s, es))
    decreases |es|
  {
    if es != [] {
      StepSafe(s, es[0]);
      RunSafe(Next(s, es[0]), es[1..]);
    }
  }

  /** In every reachable state, for any number of producers and consumers: if the queue holds an item
      or is closed, then the wakeup token is present, or a thread is about to signal, or a consumer is
      about to look. */
  lemma NoLostWakeup<T>(es: seq<Event<T>>)
    requires IsRun(Init(), es)
    ensures Safe(After(Init(), es))
  {
    RunSafe(Init<T>(), es);
  }

  /** So a blocked consumer is never stranded: with work and nobody else moving, its wakeup is
      enabled, and the look that follows delivers the oldest item, or the close when there is none. */
  lemma BlockedConsumerWakes<T>(es: seq<Event<T>>, tid: nat)
    requires IsRun(Init(), es)
    requires var s := After(Init(), es);
      && At(s, tid, Waiting) && (s.items != [] || exists i | 0 <= i < |es| :: es[i].Close?)
      && forall t | t in s.pcs :: s.pcs[t] == Waiting
    ensures var s := After(Init(), es);
      && Enabled(s, Event<T>.Wake(tid))
      && Enabled(Next(s, Wake(tid)), Event<T>.Check(tid))
      && var t := Next(Next(s, Wake(tid)), Check(tid));
         !At(t, tid, Waiting) && t.delivered == s.delivered + if s.items != [] then [s.items[0]] else []
  {
    NoLostWakeup(es);
    ClosedExactly(es);
  }

  // ---------------------------------------------------------------- order

  predicate IsBounded<T>(e: Event<T>) { e.PushBounded? }

  ghost predicate Fifo<T>(s: State<T>) { s.accepted == s.delivered + s.items }

  lemma StepFifo<T>(s: State<T>, e: Event<T>)
    requires Enabled(s, e) && Fifo(s) && !IsBounded(e)
    ensures Fifo(Next(s, e))
  {
    if e.Check? && s.items != [] {
      assert s.items == [s.items[0]] + s.items[1..];
    }
  }

  lemma {:induction false} RunFifo<T>(s: State<T>, es: seq<Event<T>>)
    requires IsRun(s, es) && Fifo(s) && forall i | 0 <= i < |es| :: !IsBounded(es[i])
    ensures Fifo(After(s, es))
    decreases |es|
  {
    if es != [] {
      StepFifo(s, es[0]);
      RunFifo(Next(s, es[0]), es[1..]);
    }
  }

  /** Without bounded pushes, accepted items are delivered in order, each once, and whoever sees the
      close has seen everything delivered. */
  lemma {:induction false} DeliversInOrder<T>(es: seq<Event<T>>, tid: nat)
    requires IsRun(Init(), es) && forall i | 0 <= i < |es| :: !IsBounded(es[i])
    ensures var s := After(Init(), es);
      && s.delivered <= s.accepted && s.accepted == s.delivered + s.items
      && (At(s, tid, Recheck) && s.closed && Checked(s, tid).delivered == s.delivered ==> s.delivered == s.accepted)
  {
    RunFifo(Init<T>(), es);
  }

  /** After the close nothing is accepted and the queue stays closed. */
  lemma ClosedStays<T>(s: State<T>, e: Event<T>)
    requires Enabled(s, e) && s.closed
    ensures Next(s, e).closed && Next(s, e).accepted == s.accepted && |Next(s, e).items| <= |s.items|
  {}

  // ---------------------------------------------------------------- runs by their events

  lemma {:induction false} AfterLast<T>(s: State<T>, es: seq<Event<T>>)
    requires es != [] && IsRun(s, es)
    ensures var head, last := es[..|es| - 1], es[|es| - 1];
      IsRun(s, head) && Enabled(After(s, head), last) && After(s, es) == Next(After(s, head), last)
    decreases |es|
  {
    hide Enabled, Next;
    if |es| == 1 {
      assert es[1..] == [];
    } else {
      AfterLast(Next(s, es[0]), es[1..]);
      assert es[..|es| - 1][1..] == es[1..][..|es| - 2];
    }
  }

  predicate HasClose<T>(es: seq<Event<T>>) { exists i | 0 <= i < |es| :: es[i].Close? }

  /** The items pushed before the first close, in order. */
  function PushedOpen<T>(es: seq<Event<T>>): seq<T> {
    if es == [] then [] else
      var head, last := es[..|es| - 1], es[|es| - 1];
      PushedOpen(head) + if (last.Push? || last.PushBounded?) && !HasClose(head) then [last.item] else []
  }

  /** The queue is closed exactly if somebody closed it, and has accepted exactly what was pushed before. */
  lemma {:induction false} ClosedExactly<T>(es: seq<Event<T>>)
    requires IsRun(Init(), es)
    ensures After(Init(), es).closed <==> exists i | 0 <= i < |es| :: es[i].Close?
    ensures After(Init(), es).accepted == PushedOpen(es)
    decreases |es|
  {
    hide IsRun, After, Enabled;
    if es == [] {
      assert After(Init(), es) == Init<T>() by { NoEvents(es); }
    } else {
      var head, last := es[..|es| - 1], es[|es| - 1];
      AfterLast(Init(), es);
      ClosedExactly(head);
      assert HasClose(es) <==> HasClose(head) || last.Close? by { CloseLast(es); }
      StepAccepts(After(Init(), head), last);
    }
  }

  lemma NoEvents<T>(es: seq<Event<T>>)
    requires es == []
    ensures After(Init(), es) == Init<T>()
  {}

  lemma CloseLast<T>(es: seq<Event<T>>)
    requires es != []
    ensures HasClose(es) <==> HasClose(es[..|es| - 1]) || es[|es| - 1].Close?
  {
    var head := es[..|es| - 1];
    if i :| 0 <= i < |head| && head[i].Close? { assert es[i].Close?; }
    if i :| 0 <= i < |es| && es[i].Close? && i < |head| { assert head[i].Close?; }
  }

  lemma StepAccepts<T>(s: State<T>, e: Event<T>)
    ensures Next(s, e).closed == (s.closed || e.Close?)
    ensures Next(s, e).accepted == s.accepted + if (e.Push? || e.PushBounded?) && !s.closed then [e.item] else []
  {
    assert s.accepted + [] == s.accepted;
  }

  function Wakes<T>(es: seq<Event<T>>): nat {
    if es == [] then 0 else Wakes(es[..|es| - 1]) + if es[|es| - 1].Wake? then 1 else 0
  }

  function Notifies<T>(es: seq<Event<T>>): nat {
    if es == [] then 0 else Notifies(es[..|es| - 1]) + if es[|es| - 1].Notify? then 1 else 0
  }

  /** Nobody wakes without a signal of its own: the token is one signal not yet taken. */
  lemma {:induction false} WakesAreSignalled<T>(es: seq<Event<T>>)
    requires IsRun(Init(), es)
    ensures Wakes(es) + (if After(Init(), es).token then 1 else 0) <= Notifies(es)
    decreases |es|
  {
    hide IsRun, After;
    if es == [] {
      NoEvents(es);
    } else {
      AfterLast(Init(), es);
      WakesAreSignalled(es[..|es| - 1]);
    }
  }
}
