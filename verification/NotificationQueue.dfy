/** The bounded notification queue of pkg/llm/codex/notification_queue.go: overflow evicts the oldest
    entry and counts it, and `next` reports evictions before it delivers. */
module NotificationQueue {
  import opened Text
  import opened NotificationRing

  /** What is shared under the mutex. */
  datatype Queue<T> = Queue(buffer: seq<T>, dropped: nat, err: Option<string>)

  /** What the critical section of `next` finds. */
  datatype Outcome<T> = Gap(count: nat) | Item(item: T) | Ended(err: string) | Nothing

  function PushTo<T>(q: Queue<T>, x: T, capacity: nat): Queue<T>
    requires |q.buffer| <= capacity
  {
    if q.err.Some? then q
    else q.(buffer := Displaced(q.buffer, x, capacity),
            dropped := q.dropped + if 0 < capacity == |q.buffer| then 1 else 0)
  }

  function NextOf<T>(q: Queue<T>): (Outcome<T>, Queue<T>) {
    if q.dropped > 0 then (Gap(q.dropped), q.(dropped := 0))
    else if q.buffer != [] then (Item(q.buffer[0]), q.(buffer := q.buffer[1..]))
    else if q.err.Some? then (Ended(q.err.value), q)
    else (Nothing, q)
  }

  function CloseOf<T>(q: Queue<T>, e: string): Queue<T> { if q.err.Some? then q else q.(err := Some(e)) }

  class Shared<T(==)> {
    const ring: Ring<T>
    var dropped: nat
    var err: Option<string>

    ghost predicate Valid()
      reads this, ring, ring.values
    { ring.Valid() }

    ghost function View(): (q: Queue<T>)
      requires Valid()
      reads this, ring, ring.values
      ensures |q.buffer| <= ring.values.Length
    { Queue(ring.Contents(), dropped, err) }

    constructor (capacity: nat, zero: T)
      ensures Valid() && fresh(ring) && fresh(ring.values) && ring.values.Length == capacity
      ensures View() == Queue([], 0, None)
    {
      ring := new Ring(capacity, zero);
      dropped, err := 0, None;
    }

    method Push(x: T)
      requires Valid()
      modifies this, ring, ring.values
      ensures Valid() && View() == PushTo(old(View()), x, ring.values.Length)
    {
      if err.Some? { return; }
      var displaced := ring.PushDisplacing(x);
      if displaced { dropped := dropped + 1; }
    }

    method Next() returns (r: Outcome<T>)
      requires Valid()
      modifies this, ring, ring.values
      ensures Valid() && (r, View()) == NextOf(old(View()))
    {
      if dropped > 0 {
        r := Gap(dropped);
        dropped := 0;
        return;
      }
      var x := ring.Pop();
      if x.Some? { return Item(x.value); }
      return if err.Some? then Ended(err.value) else Nothing;
    }

    method Close(e: string)
      requires Valid()
      modifies this
      ensures Valid() && View() == CloseOf(old(View()), e)
    {
      if err.Some? { return; }
      err := Some(e);
    }

    /** Registration hands over what arrived before there was a consumer. */
    method Preload(pending: seq<T>, evicted: nat) returns (ok: bool)
      requires Valid() && View() == Queue([], 0, None)
      modifies this, ring, ring.values
      ensures Valid() && ok == (|pending| <= ring.values.Length)
      ensures ok ==> View() == Queue(pending, evicted, None)
    {
      ok := ring.AppendAll(pending);
      if ok { dropped := evicted; }
    }
  }

  // ---------------------------------------------------------------- runs

  datatype Pc = Recheck | Waiting

  /** Entries are numbered in push order. `log` is everything `next` has returned. */
  datatype State = State(
    q: Queue<nat>, pushed: nat, log: seq<Outcome<nat>>, token: bool, pcs: map<nat, Pc>)

  datatype Event = Push | Close(err: string) | Begin(tid: nat) | Check(tid: nat) | Wake(tid: nat) | Cancel(tid: nat)

  /** A queue registered after `evicted + n` arrivals of which the newest `n` are still pending. */
  function Start(evicted: nat, n: nat): State {
    State(Queue(seq(n, i => evicted + i), evicted, None), evicted + n, [], evicted > 0, map[])
  }

  predicate Enabled(s: State, e: Event) {
    match e
    case Begin(t) => t !in s.pcs
    case Check(t) => t in s.pcs && s.pcs[t] == Recheck
    case Wake(t) => t in s.pcs && s.pcs[t] == Waiting && s.token
    case Cancel(t) => t in s.pcs && s.pcs[t] == Waiting
    case _ => true
  }

  function Next(s: State, e: Event, capacity: nat): State
    requires |s.q.buffer| <= capacity
  {
    match e
    case Push =>
      if s.q.err.Some? then s
      else s.(q := PushTo(s.q, s.pushed, capacity), pushed := s.pushed + 1, token := true)
    case Close(err) => if s.q.err.Some? then s else s.(q := CloseOf(s.q, err), token := true)
    case Begin(t) => s.(pcs := s.pcs[t := Recheck])
    case Check(t) =>
      var (r, q) := NextOf(s.q);
      if r.Nothing? then s.(pcs := s.pcs[t := Waiting])
      else s.(q := q, log := s.log + [r], pcs := s.pcs - {t})
    case Wake(t) => s.(token := false, pcs := s.pcs[t := Recheck])
    case Cancel(t) => s.(pcs := s.pcs - {t})
  }

  // ---------------------------------------------------------------- gap accounting

  function Weight(r: Outcome<nat>): nat {
    match r
    case Gap(n) => n
    case Item(_) => 1
    case _ => 0
  }

  /** How many pushes the log accounts for: one per delivery and as many as each gap reports. */
  function Accounted(log: seq<Outcome<nat>>): nat {
    if log == [] then 0 else Accounted(log[..|log| - 1]) + Weight(log[|log| - 1])
  }

  predicate Contiguous(buffer: seq<nat>, pushed: nat) {
    |buffer| <= pushed && forall i | 0 <= i < |buffer| :: buffer[i] == pushed - |buffer| + i
  }

  /** Each delivery is the push right after everything the log accounted for before it. */
  predicate Exact(log: seq<Outcome<nat>>) {
    forall j | 0 <= j < |log| && log[j].Item? :: log[j].item == Accounted(log[..j])
  }

  predicate Inv(s: State, capacity: nat) {
    && |s.q.buffer| <= capacity
    && Contiguous(s.q.buffer, s.pushed)
    && s.pushed == Accounted(s.log) + s.q.dropped + |s.q.buffer|
    && Exact(s.log)
    && (forall j | 0 <= j < |s.log| && s.log[j].Ended? ::
          s.q.err.Some? && Accounted(s.log[..j]) == s.pushed)
  }

  lemma LogGrows(log: seq<Outcome<nat>>, r: Outcome<nat>)
    ensures (log + [r])[..|log|] == log
    ensures Accounted(log + [r]) == Accounted(log) + Weight(r)
    ensures forall j | 0 <= j <= |log| :: (log + [r])[..j] == log[..j]
  {
    assert (log + [r])[..|log|] == log;
  }

  lemma CheckInv(s: State, tid: nat, capacity: nat)
    requires Inv(s, capacity) && Enabled(s, Check(tid))
    ensures Inv(Next(s, Check(tid), capacity), capacity)
  {
    hide Accounted;
    var r := NextOf(s.q).0;
    LogGrows(s.log, r);
  }

  lemma StepInv(s: State, e: Event, capacity: nat)
    requires Inv(s, capacity) && Enabled(s, e) && capacity > 0
    ensures Inv(Next(s, e, capacity), capacity)
  {
    if e.Check? { CheckInv(s, e.tid, capacity); }
  }

  predicate IsRun(s: State, es: seq<Event>, capacity: nat)
    decreases |es|
  {
    |s.q.buffer| <= capacity
    && (es == [] || (Enabled(s, es[0]) && IsRun(Next(s, es[0], capacity), es[1..], capacity)))
  }

  function After(s: State, es: seq<Event>, capacity: nat): State
    requires IsRun(s, es, capacity)
    decreases |es|
  {
    if es == [] then s else After(Next(s, es[0], capacity), es[1..], capacity)
  }

  lemma {:induction false} RunInv(s: State, es: seq<Event>, capacity: nat)
    requires IsRun(s, es, capacity) && Inv(s, capacity) && capacity > 0
    ensures Inv(After(s, es, capacity), capacity)
    decreases |es|
  {
    if es != [] {
      StepInv(s, es[0], capacity);
      RunInv(Next(s, es[0], capacity), es[1..], capacity);
    }
  }

  /** What a log accounts for between two of its positions. */
  function Reported(log: seq<Outcome<nat>>, i: nat, j: nat): nat
    requires i <= j <= |log|
  {
    if i == j then 0 else Reported(log, i, j - 1) + Weight(log[j - 1])
  }

  lemma {:induction false} AccountedSplit(log: seq<Outcome<nat>>, i: nat, j: nat)
    requires i <= j <= |log|
    ensures Accounted(log[..j]) == Accounted(log[..i]) + Reported(log, i, j)
    decreases j - i
  {
    if i < j {
      AccountedSplit(log, i, j - 1);
      assert log[..j][..j - 1] == log[..j - 1];
    }
  }

  /** In every run: what was pushed is what was delivered, reported as dropped, not yet reported, or
      still buffered in order; each delivery is the push right after all that was accounted for before
      it; and the close error comes only when nothing is left. */
  lemma Conservation(evicted: nat, n: nat, es: seq<Event>, capacity: nat)
    requires 0 < capacity && n <= capacity && IsRun(Start(evicted, n), es, capacity)
    ensures var s := After(Start(evicted, n), es, capacity);
      && s.pushed == Accounted(s.log) + s.q.dropped + |s.q.buffer|
      && Contiguous(s.q.buffer, s.pushed) && |s.q.buffer| <= capacity
      && Exact(s.log)
      && (forall k | 0 <= k < |s.log| && s.log[k].Ended? :: Accounted(s.log[..k]) == s.pushed)
  {
    StartInv(evicted, n, capacity);
    RunInv(Start(evicted, n), es, capacity);
  }

  /** Deliveries keep push order, and the pushes missing between two deliveries are exactly the drops
      and deliveries reported between them. */
  lemma GapAccounting(evicted: nat, n: nat, es: seq<Event>, capacity: nat, i: nat, j: nat)
    requires 0 < capacity && n <= capacity && IsRun(Start(evicted, n), es, capacity)
    requires var log := After(Start(evicted, n), es, capacity).log;
      i < j < |log| && log[i].Item? && log[j].Item?
    ensures var log := After(Start(evicted, n), es, capacity).log;
      log[i].item < log[j].item && log[j].item - log[i].item - 1 == Reported(log, i + 1, j)
  {
    Conservation(evicted, n, es, capacity);
    var log := After(Start(evicted, n), es, capacity).log;
    AccountedSplit(log, i, j);
    AccountedSplit(log, i + 1, j);
    AccountedSplit(log, i, i + 1);
  }

  lemma StartInv(evicted: nat, n: nat, capacity: nat)
    requires n <= capacity
    ensures Inv(Start(evicted, n), capacity)
  {}

  // ---------------------------------------------------------------- runs by their events

  lemma {:induction false} AfterLast(s: State, es: seq<Event>, capacity: nat)
    requires es != [] && IsRun(s, es, capacity)
    ensures var head, last := es[..|es| - 1], es[|es| - 1];
      && IsRun(s, head, capacity) && Enabled(After(s, head, capacity), last)
      && |After(s, head, capacity).q.buffer| <= capacity
      && After(s, es, capacity) == Next(After(s, head, capacity), last, capacity)
    decreases |es|
  {
    hide Enabled, Next;
    if |es| == 1 {
      assert es[1..] == [];
    } else {
      AfterLast(Next(s, es[0], capacity), es[1..], capacity);
      assert es[..|es| - 1][1..] == es[1..][..|es| - 2];
    }
  }

  /** The error of the first close. */
  function FirstError(es: seq<Event>): Option<string> {
    if es == [] then None else
      var head, last := es[..|es| - 1], es[|es| - 1];
      if FirstError(head).None? && last.Close? then Some(last.err) else FirstError(head)
  }

  /** The pushes before the first close. */
  function Pushes(es: seq<Event>): nat {
    if es == [] then 0 else
      var head, last := es[..|es| - 1], es[|es| - 1];
      Pushes(head) + if last.Push? && FirstError(head).None? then 1 else 0
  }

  /** Whether a signal came since the last wakeup: the handover of earlier drops is one, and so is every
      push and close before the queue is closed. */
  function Signalled(evicted: nat, es: seq<Event>): bool {
    if es == [] then evicted != 0 else
      var head, last := es[..|es| - 1], es[|es| - 1];
      if last.Wake? then false
      else Signalled(evicted, head) || ((last.Push? || last.Close?) && FirstError(head).None?)
  }

  /** Error, number of pushes and token of every run, by its events. */
  lemma {:induction false} EventsTell(evicted: nat, n: nat, es: seq<Event>, capacity: nat)
    requires IsRun(Start(evicted, n), es, capacity)
    ensures var s := After(Start(evicted, n), es, capacity);
      && s.q.err == FirstError(es) && s.pushed == evicted + n + Pushes(es) && s.token == Signalled(evicted, es)
    decreases |es|
  {
    hide IsRun;
    if es != [] {
      AfterLast(Start(evicted, n), es, capacity);
      EventsTell(evicted, n, es[..|es| - 1], capacity);
    }
  }

  /** The event is one of thread `t`. */
  predicate Of(e: Event, t: nat) {
    match e
    case Begin(u) => u == t
    case Check(u) => u == t
    case Wake(u) => u == t
    case Cancel(u) => u == t
    case _ => false
  }

  /** The last event of thread `t` was a look, number `j`, that found nothing. */
  ghost predicate LookedInVain(start: State, capacity: nat, es: seq<Event>, t: nat, j: nat)
    requires IsRun(start, es, capacity)
  {
    && j < |es| && es[j] == Check(t) && (forall k | j < k < |es| :: !Of(es[k], t))
    && IsRun(start, es[..j], capacity) && NextOf(After(start, es[..j], capacity).q).0 == Nothing
  }

  lemma VainStays(start: State, capacity: nat, es: seq<Event>, t: nat, j: nat)
    requires es != [] && IsRun(start, es, capacity) && IsRun(start, es[..|es| - 1], capacity)
    requires !Of(es[|es| - 1], t)
    requires LookedInVain(start, capacity, es[..|es| - 1], t, j)
    ensures LookedInVain(start, capacity, es, t, j)
  {
    hide IsRun, After, Of;
    var head := es[..|es| - 1];
    assert head[..j] == es[..j] && head[j] == es[j];
    forall k | j < k < |es| ensures !Of(es[k], t) { if k < |head| { assert head[k] == es[k]; } }
  }

  /** Who waits has looked and found nothing since its call began. */
  lemma {:induction false} WaitingLooked(start: State, capacity: nat, es: seq<Event>, t: nat) returns (j: nat)
    requires start.pcs == map[] && IsRun(start, es, capacity)
    requires t in After(start, es, capacity).pcs && After(start, es, capacity).pcs[t] == Waiting
    ensures LookedInVain(start, capacity, es, t, j)
    decreases |es|
  {
    hide IsRun, After, LookedInVain, Of;
    j := 0;
    if es == [] {
      EmptyRun(start, capacity, es);
      assert false;
    } else {
      AfterLast(start, es, capacity);
      var head, last := es[..|es| - 1], es[|es| - 1];
      if last == Check(t) {
        j := |es| - 1;
        JustLooked(start, capacity, es, t);
      } else {
        NotHisStep(After(start, head, capacity), last, t, capacity);
        j := WaitingLooked(start, capacity, head, t);
        VainStays(start, capacity, es, t, j);
      }
    }
  }

  lemma EmptyRun(start: State, capacity: nat, es: seq<Event>)
    requires es == []
    ensures IsRun(start, es, capacity) ==> After(start, es, capacity) == start
  {}

  lemma JustLooked(start: State, capacity: nat, es: seq<Event>, t: nat)
    requires es != [] && es[|es| - 1] == Check(t)
    requires IsRun(start, es, capacity) && IsRun(start, es[..|es| - 1], capacity)
    requires |After(start, es[..|es| - 1], capacity).q.buffer| <= capacity
    requires After(start, es, capacity) == Next(After(start, es[..|es| - 1], capacity), Check(t), capacity)
    requires t in After(start, es, capacity).pcs
    ensures LookedInVain(start, capacity, es, t, |es| - 1)
  {
    hide IsRun, After, Of;
  }

  lemma NotHisStep(s: State, e: Event, t: nat, capacity: nat)
    requires |s.q.buffer| <= capacity && Enabled(s, e) && e != Check(t)
    requires t in Next(s, e, capacity).pcs && Next(s, e, capacity).pcs[t] == Waiting
    ensures !Of(e, t) && t in s.pcs && s.pcs[t] == Waiting
  {}

  /** So only a call that found nothing can be cancelled. */
  lemma CancelledInVain(start: State, capacity: nat, es: seq<Event>, t: nat) returns (j: nat)
    requires start.pcs == map[] && IsRun(start, es, capacity) && Enabled(After(start, es, capacity), Cancel(t))
    ensures LookedInVain(start, capacity, es, t, j)
  {
    hide IsRun, After, LookedInVain;
    j := WaitingLooked(start, capacity, es, t);
  }

  // ---------------------------------------------------------------- wakeups

  /** A look at the queue would return something. */
  predicate Work(s: State) { !NextOf(s.q).0.Nothing? }

  /** Only thread `c` consumes, and while it waits, work comes with a token. */
  predicate Served(s: State, c: nat) {
    && s.pcs.Keys <= {c}
    && (c in s.pcs && s.pcs[c] == Waiting && Work(s) ==> s.token)
  }

  predicate By(e: Event, c: nat) {
    match e
    case Begin(t) => t == c
    case Check(t) => t == c
    case Wake(t) => t == c
    case Cancel(t) => t == c
    case _ => true
  }

  lemma {:induction false} SingleConsumerServed(s: State, es: seq<Event>, capacity: nat, c: nat)
    requires IsRun(s, es, capacity) && Served(s, c) && forall i | 0 <= i < |es| :: By(es[i], c)
    ensures Served(After(s, es, capacity), c)
    decreases |es|
  {
    if es != [] {
      assert By(es[0], c);
      SingleConsumerServed(Next(s, es[0], capacity), es[1..], capacity, c);
    }
  }

  function TwoWaiting(c: nat, d: nat): State {
    State(Queue([], 0, None), 0, [], false, map[c := Waiting, d := Waiting])
  }

  /** Any two consumers of an empty queue can both wait. */
  lemma TwoConsumersWait(c: nat, d: nat, capacity: nat)
    requires c != d
    ensures var es := [Begin(c)] + ([Check(c)] + ([Begin(d)] + ([Check(d)] + [])));
      IsRun(Start(0, 0), es, capacity) && After(Start(0, 0), es, capacity) == TwoWaiting(c, d)
  {
    hide IsRun, After;
    var none: Queue<nat> := Queue([], 0, None);
    var s0 := State(none, 0, [], false, map[]);
    var s1 := s0.(pcs := map[c := Recheck]);
    var s2 := s0.(pcs := map[c := Waiting]);
    var s3 := s0.(pcs := map[c := Waiting, d := Recheck]);
    assert Start(0, 0) == s0;
    assert Next(s0, Begin(c), capacity) == s1;
    assert Next(s1, Check(c), capacity) == s2;
    assert Next(s2, Begin(d), capacity) == s3;
    assert Next(s3, Check(d), capacity) == TwoWaiting(c, d);
    RunNil(TwoWaiting(c, d), capacity);
    RunCons(s3, Check(d), [], capacity);
    RunCons(s2, Begin(d), [Check(d)] + [], capacity);
    RunCons(s1, Check(c), [Begin(d)] + ([Check(d)] + []), capacity);
    RunCons(s0, Begin(c), [Check(c)] + ([Begin(d)] + ([Check(d)] + [])), capacity);
  }

  /** After two pushes: both entries, or with one slot the second and a drop. */
  function TwoPushed(capacity: nat): Queue<nat> {
    if capacity == 1 then Queue([1], 1, None) else Queue([0, 1], 0, None)
  }

  /** With two consumers a wakeup can be lost: two pushes leave one token, the woken consumer takes one
      entry or the drop report and does not re-arm, and the other waits beside the entry that is left. */
  lemma SecondConsumerStranded(c: nat, d: nat, capacity: nat)
    requires c != d && capacity > 0
    ensures var es := [Push] + ([Push] + ([Wake(c)] + ([Check(c)] + [])));
      IsRun(TwoWaiting(c, d), es, capacity)
      && var s := After(TwoWaiting(c, d), es, capacity);
         Work(s) && !s.token && s.pcs == map[d := Waiting]
  {
    hide IsRun, After;
    var s4, two := TwoWaiting(c, d), TwoPushed(capacity);
    var s5 := s4.(q := Queue([0], 0, None), pushed := 1, token := true);
    var s6 := s4.(q := two, pushed := 2, token := true);
    var s7 := State(two, 2, [], false, map[c := Recheck, d := Waiting]);
    var s8 := State(Queue([1], 0, None), 2, [if capacity == 1 then Gap(1) else Item(0)], false, map[d := Waiting]);
    OnePasses(c, d);
    assert Next(s4, Push, capacity) == s5 && Next(s5, Push, capacity) == s6;
    assert Next(s6, Wake(c), capacity) == s7 && Next(s7, Check(c), capacity) == s8;
    hide Next;
    RunNil(s8, capacity);
    RunCons(s7, Check(c), [], capacity);
    RunCons(s6, Wake(c), [Check(c)] + [], capacity);
    RunCons(s5, Push, [Wake(c)] + ([Check(c)] + []), capacity);
    RunCons(s4, Push, [Push] + ([Wake(c)] + ([Check(c)] + [])), capacity);
  }

  lemma OnePasses(c: nat, d: nat)
    requires c != d
    ensures map[c := Waiting, d := Waiting][c := Recheck] == map[c := Recheck, d := Waiting]
    ensures map[c := Recheck, d := Waiting] - {c} == map[d := Waiting]
  {}

  // ---------------------------------------------------------------- how many consumers

  predicate ByAny(e: Event, cs: set<nat>) {
    match e
    case Begin(t) => t in cs
    case Check(t) => t in cs
    case Wake(t) => t in cs
    case Cancel(t) => t in cs
    case _ => true
  }

  predicate AllBy(es: seq<Event>, cs: set<nat>) { forall i | 0 <= i < |es| :: ByAny(es[i], cs) }

  /** Nobody waits beside work without a token. */
  predicate NobodyStranded(s: State) { forall t | t in s.pcs && s.pcs[t] == Waiting && Work(s) :: s.token }

  /** From every start, however many arrivals came before. */
  ghost predicate AlwaysServed(cs: set<nat>, capacity: nat) {
    forall evicted: nat, n: nat, es | IsRun(Start(evicted, n), es, capacity) && AllBy(es, cs) ::
      NobodyStranded(After(Start(evicted, n), es, capacity))
  }

  lemma {:induction false} RunJoin(s: State, es: seq<Event>, fs: seq<Event>, capacity: nat)
    requires IsRun(s, es, capacity) && IsRun(After(s, es, capacity), fs, capacity)
    ensures IsRun(s, es + fs, capacity)
    ensures After(s, es + fs, capacity) == After(After(s, es, capacity), fs, capacity)
    decreases |es|
  {
    hide Enabled, Next;
    if es == [] {
      assert es + fs == fs;
    } else {
      RunJoin(Next(s, es[0], capacity), es[1..], fs, capacity);
      assert (es + fs)[0] == es[0] && (es + fs)[1..] == es[1..] + fs;
    }
  }

  lemma PairStranded(c: nat, d: nat, capacity: nat) returns (es: seq<Event>)
    requires c != d && capacity > 0
    ensures IsRun(Start(0, 0), es, capacity) && AllBy(es, {c, d})
    ensures !NobodyStranded(After(Start(0, 0), es, capacity))
  {
    hide IsRun, After;
    var before := [Begin(c)] + ([Check(c)] + ([Begin(d)] + ([Check(d)] + [])));
    var behind := [Push] + ([Push] + ([Wake(c)] + ([Check(c)] + [])));
    TwoConsumersWait(c, d, capacity);
    SecondConsumerStranded(c, d, capacity);
    RunJoin(Start(0, 0), before, behind, capacity);
    es := before + behind;
    var s := After(Start(0, 0), es, capacity);
    assert d in s.pcs && s.pcs[d] == Waiting && Work(s) && !s.token;
  }

  lemma FewServed(cs: set<nat>, s: State, es: seq<Event>, capacity: nat)
    requires |cs| <= 1 && IsRun(s, es, capacity) && s.pcs == map[] && AllBy(es, cs)
    ensures NobodyStranded(After(s, es, capacity))
  {
    hide IsRun, After;
    var c := 0;
    if cs != {} {
      c :| c in cs;
      assert |cs - {c}| == 0 && cs == {c};
    }
    forall i | 0 <= i < |es| ensures By(es[i], c) { assert ByAny(es[i], cs); }
    SingleConsumerServed(s, es, capacity, c);
  }

  /** Every waiting consumer is served in every run of a set of consumers if and only if the set has at
      most one member. */
  lemma ServedExactly(cs: set<nat>, capacity: nat)
    requires capacity > 0
    ensures AlwaysServed(cs, capacity) <==> |cs| <= 1
  {
    hide IsRun, After, NobodyStranded, AllBy;
    if |cs| <= 1 {
      forall evicted: nat, n: nat, es | IsRun(Start(evicted, n), es, capacity) && AllBy(es, cs)
        ensures NobodyStranded(After(Start(evicted, n), es, capacity))
      {
        FewServed(cs, Start(evicted, n), es, capacity);
      }
    } else {
      var c :| c in cs;
      assert |cs - {c}| == |cs| - 1;
      var d :| d in cs - {c};
      var es := PairStranded(c, d, capacity);
      MoreConsumers(es, {c, d}, cs);
    }
  }

  lemma MoreConsumers(es: seq<Event>, cs: set<nat>, ds: set<nat>)
    requires cs <= ds && AllBy(es, cs)
    ensures AllBy(es, ds)
  {
    forall i | 0 <= i < |es| ensures ByAny(es[i], ds) { assert ByAny(es[i], cs); }
  }

  lemma RunNil(s: State, capacity: nat)
    requires |s.q.buffer| <= capacity
    ensures IsRun(s, [], capacity) && After(s, [], capacity) == s
  {}

  lemma RunCons(s: State, e: Event, es: seq<Event>, capacity: nat)
    requires |s.q.buffer| <= capacity && Enabled(s, e) && IsRun(Next(s, e, capacity), es, capacity)
    ensures IsRun(s, [e] + es, capacity)
    ensures After(s, [e] + es, capacity) == After(Next(s, e, capacity), es, capacity)
  {
    assert ([e] + es)[1..] == es;
  }
}
