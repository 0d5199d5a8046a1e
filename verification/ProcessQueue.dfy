/** The reordering queue of pkg/llm/codex/execserver_process.go: process events arrive in any order
    and leave by sequence number. */
module ProcessQueue {
  import opened Text

  datatype Notification = Notification(seqNo: nat, payload: string)

  datatype Queue = Queue(nextSeq: nat, pending: map<nat, Notification>, err: Option<string>)

  const Fresh := Queue(1, map[], None)

  datatype Outcome = Item(n: Notification) | Failed(err: string) | Nothing

  function PushTo(q: Queue, n: Notification): Queue {
    if q.err.Some? then q else q.(pending := q.pending[n.seqNo := n])
  }

  /** The critical section of `next`: an error comes before anything still pending. */
  function NextOf(q: Queue): (Outcome, Queue) {
    if q.err.Some? then (Failed(q.err.value), q)
    else if q.nextSeq in q.pending then
      (Item(q.pending[q.nextSeq]), q.(pending := q.pending - {q.nextSeq}, nextSeq := q.nextSeq + 1))
    else (Nothing, q)
  }

  function CloseOf(q: Queue, e: string): Queue { if q.err.Some? then q else q.(err := Some(e)) }

  class Shared {
    var nextSeq: nat
    var pending: map<nat, Notification>
    var err: Option<string>

    ghost function View(): Queue
      reads this
    { Queue(nextSeq, pending, err) }

    constructor ()
      ensures View() == Fresh
    {
      nextSeq, pending, err := 1, map[], None;
    }

    method Push(n: Notification)
      modifies this`pending
      ensures View() == PushTo(old(View()), n)
    {
      if err.Some? { return; }
      pending := pending[n.seqNo := n];
    }

    method Next() returns (r: Outcome)
      modifies this`pending, this`nextSeq
      ensures (r, View()) == NextOf(old(View()))
    {
      if err.Some? { return Failed(err.value); }
      if nextSeq in pending {
        r := Item(pending[nextSeq]);
        pending := pending - {nextSeq};
        nextSeq := nextSeq + 1;
        return;
      }
      return Nothing;
    }

    method Close(e: string)
      modifies this`err
      ensures View() == CloseOf(old(View()), e)
    {
      if err.Some? { return; }
      err := Some(e);
    }
  }

  // ---------------------------------------------------------------- runs

  datatype Pc = Recheck | Waiting

  datatype State = State(q: Queue, delivered: seq<Notification>, token: bool, pcs: map<nat, Pc>)

  const Init := State(Fresh, [], false, map[])

  datatype Event =
    Push(n: Notification) | Close(err: string) | Begin(tid: nat) | Check(tid: nat) | Wake(tid: nat) | Cancel(tid: nat)

  predicate Enabled(s: State, e: Event) {
    match e
    case Begin(t) => t !in s.pcs
    case Check(t) => t in s.pcs && s.pcs[t] == Recheck
    case Wake(t) => t in s.pcs && s.pcs[t] == Waiting && s.token
    case Cancel(t) => t in s.pcs && s.pcs[t] == Waiting
    case _ => true
  }

  function Next(s: State, e: Event): State {
    match e
    case Push(n) => if s.q.err.Some? then s else s.(q := PushTo(s.q, n), token := true)
    case Close(err) => if s.q.err.Some? then s else s.(q := CloseOf(s.q, err), token := true)
    case Begin(t) => s.(pcs := s.pcs[t := Recheck])
    case Check(t) =>
      (match NextOf(s.q)
       case (Item(n), q) => s.(q := q, delivered := s.delivered + [n], pcs := s.pcs - {t})
       case (Failed(_), _) => s.(pcs := s.pcs - {t})
       case (Nothing, _) => s.(pcs := s.pcs[t := Waiting]))
    case Wake(t) => s.(token := false, pcs := s.pcs[t := Recheck])
    case Cancel(t) => s.(pcs := s.pcs - {t})
  }

  predicate IsRun(s: State, es: seq<Event>)
    decreases |es|
  {
    es == [] || (Enabled(s, es[0]) && IsRun(Next(s, es[0]), es[1..]))
  }

  function After(s: State, es: seq<Event>): State
    decreases |es|
  {
    if es == [] then s else After(Next(s, es[0]), es[1..])
  }

  lemma {:induction false} AfterLast(s: State, es: seq<Event>)
    requires es != [] && IsRun(s, es)
    ensures var head, last := es[..|es| - 1], es[|es| - 1];
      IsRun(s, head) && Enabled(After(s, head), last) && After(s, es) == Next(After(s, head), last)
    decreases |es|
  {
    hide Enabled, Next;
    if |es| == 1 {
      assert es[1..] == [];
    } else {
      AfterLast(Next(s, es[0]), es[1..]);
      assert es[..|es| - 1][1..] == es[1..][..|es| - 2];
    }
  }

  /** The error of the first close. */
  function FirstError(es: seq<Event>): Option<string> {
    if es == [] then None else
      var head, last := es[..|es| - 1], es[|es| - 1];
      if FirstError(head).None? && last.Close? then Some(last.err) else FirstError(head)
  }

  /** Whether a signal came since the last wakeup: every push and close before the queue is closed is one. */
  function Signalled(es: seq<Event>): bool {
    if es == [] then false else
      var head, last := es[..|es| - 1], es[|es| - 1];
      if last.Wake? then false
      else Signalled(head) || ((last.Push? || last.Close?) && FirstError(head).None?)
  }

  /** Error and token of every run, by its events. */
  lemma {:induction false} EventsTell(es: seq<Event>)
    requires IsRun(Init, es)
    ensures After(Init, es).q.err == FirstError(es)
    ensures After(Init, es).token == Signalled(es)
    decreases |es|
  {
    hide IsRun;
    if es != [] {
      AfterLast(Init, es);
      EventsTell(es[..|es| - 1]);
    }
  }

  /** The event is one of thread `t`. */
  predicate Of(e: Event, t: nat) {
    match e
    case Begin(u) => u == t
    case Check(u) => u == t
    case Wake(u) => u == t
    case Cancel(u) => u == t
    case _ => false
  }

  /** The last event of thread `t` was a look, number `j`, that found nothing. */
  ghost predicate LookedInVain(es: seq<Event>, t: nat, j: nat)
    requires IsRun(Init, es)
  {
    && j < |es| && es[j] == Check(t) && (forall k | j < k < |es| :: !Of(es[k], t))
    && IsRun(Init, es[..j]) && NextOf(After(Init, es[..j]).q).0 == Nothing
  }

  lemma VainStays(es: seq<Event>, t: nat, j: nat)
    requires es != [] && IsRun(Init, es) && IsRun(Init, es[..|es| - 1]) && !Of(es[|es| - 1], t)
    requires LookedInVain(es[..|es| - 1], t, j)
    ensures LookedInVain(es, t, j)
  {
    hide IsRun, After, Of;
    var head := es[..|es| - 1];
    assert head[..j] == es[..j] && head[j] == es[j];
    forall k | j < k < |es| ensures !Of(es[k], t) { if k < |head| { assert head[k] == es[k]; } }
  }

  /** Who waits has looked and found nothing since its call began. */
  lemma {:induction false} WaitingLooked(es: seq<Event>, t: nat) returns (j: nat)
    requires IsRun(Init, es) && t in After(Init, es).pcs && After(Init, es).pcs[t] == Waiting
    ensures LookedInVain(es, t, j)
    decreases |es|
  {
    hide IsRun, After, LookedInVain, Of;
    j := 0;
    if es == [] {
      EmptyRun(es);
      assert false;
    } else {
      AfterLast(Init, es);
      var head, last := es[..|es| - 1], es[|es| - 1];
      if last == Check(t) {
        j := |es| - 1;
        JustLooked(es, t);
      } else {
        NotHisStep(After(Init, head), last, t);
        j := WaitingLooked(head, t);
        VainStays(es, t, j);
      }
    }
  }

  lemma EmptyRun(es: seq<Event>)
    requires es == []
    ensures After(Init, es) == Init
  {}

  lemma JustLooked(es: seq<Event>, t: nat)
    requires es != [] && IsRun(Init, es) && es[|es| - 1] == Check(t) && IsRun(Init, es[..|es| - 1])
    requires After(Init, es) == Next(After(Init, es[..|es| - 1]), Check(t))
    requires t in After(Init, es).pcs
    ensures LookedInVain(es, t, |es| - 1)
  {
    hide IsRun, After, Of;
  }

  lemma NotHisStep(s: State, e: Event, t: nat)
    requires Enabled(s, e) && e != Check(t) && t in Next(s, e).pcs && Next(s, e).pcs[t] == Waiting
    ensures !Of(e, t) && t in s.pcs && s.pcs[t] == Waiting
  {}

  /** So only a call that found nothing can be cancelled. */
  lemma CancelledInVain(es: seq<Event>, t: nat) returns (j: nat)
    requires IsRun(Init, es) && Enabled(After(Init, es), Cancel(t))
    ensures LookedInVain(es, t, j)
  {
    hide IsRun, After, LookedInVain;
    j := WaitingLooked(es, t);
  }

  // ---------------------------------------------------------------- the delivered stream

  /** Deliveries are numbered 1, 2, 3, ... */
  predicate InSequence(s: State) {
    && s.q.nextSeq == |s.delivered| + 1
    && (forall k | k in s.q.pending :: s.q.pending[k].seqNo == k)
    && (forall i | 0 <= i < |s.delivered| :: s.delivered[i].seqNo == i + 1)
  }

  /** Whatever the arrival order, duplicates and gaps included, the delivered sequence numbers are
      exactly 1, 2, 3, ... */
  lemma {:induction false} DeliversInSequence(s: State, es: seq<Event>)
    requires IsRun(s, es) && InSequence(s)
    ensures InSequence(After(s, es))
    decreases |es|
  {
    if es != [] { DeliversInSequence(Next(s, es[0]), es[1..]); }
  }

  /** The stream that a set of events determines: from `k` on, up to the first missing number. */
  function Stream(m: map<nat, Notification>, k: nat): seq<Notification>
    decreases |From(m, k)|
  {
    if k in m then
      assert From(m, k + 1) == From(m, k) - {k};
      [m[k]] + Stream(m, k + 1)
    else []
  }

  function From(m: map<nat, Notification>, k: nat): set<nat> { set j | j in m && j >= k }

  /** The events pushed so far, by number. */
  function Pushed(es: seq<Event>): map<nat, Notification> {
    if es == [] then map[] else
      var last := es[|es| - 1];
      if last.Push? then Pushed(es[..|es| - 1])[last.n.seqNo := last.n] else Pushed(es[..|es| - 1])
  }

  predicate DistinctPushes(es: seq<Event>) {
    forall i, j | 0 <= i < j < |es| && es[i].Push? && es[j].Push? :: es[i].n.seqNo != es[j].n.seqNo
  }

  predicate NoClose(es: seq<Event>) { forall i | 0 <= i < |es| :: !es[i].Close? }

  /** The events that count, by number: pushed before the close, the latest under its number, and not
      behind the delivery of that number. */
  function Accepted(es: seq<Event>): map<nat, Notification> {
    if es == [] then map[] else
      var head, last := es[..|es| - 1], es[|es| - 1];
      var q := After(Init, head).q;
      if last.Push? && q.err.None? && q.nextSeq <= last.n.seqNo then Accepted(head)[last.n.seqNo := last.n]
      else Accepted(head)
  }

  /** What counts is what was delivered and what is pending ahead, each at its own number. */
  ghost predicate Split(s: State, m: map<nat, Notification>) {
    && s.q.nextSeq == |s.delivered| + 1
    && (forall k | k in m :: k >= 1)
    && (forall k: nat | k >= s.q.nextSeq :: (k in m <==> k in s.q.pending) && (k in m ==> m[k] == s.q.pending[k]))
    && (forall k: nat | 1 <= k < s.q.nextSeq :: k in m && m[k] == s.delivered[k - 1])
  }

  lemma SplitStep(s: State, m: map<nat, Notification>, e: Event)
    requires Split(s, m) && Enabled(s, e)
    ensures Split(Next(s, e),
      if e.Push? && s.q.err.None? && s.q.nextSeq <= e.n.seqNo then m[e.n.seqNo := e.n] else m)
  {}

  lemma {:induction false} SplitRun(es: seq<Event>)
    requires IsRun(Init, es)
    ensures Split(After(Init, es), Accepted(es))
  {
    hide After, IsRun, Enabled, Next, Split;
    if es == [] {
      assert Split(Init, map[]) && After(Init, []) == Init by { SplitInit(); }
    } else {
      var head, last := es[..|es| - 1], es[|es| - 1];
      AfterLast(Init, es);
      SplitRun(head);
      SplitStep(After(Init, head), Accepted(head), last);
    }
  }

  lemma SplitInit()
    ensures Split(Init, map[]) && After(Init, []) == Init
  {}

  lemma {:induction false} PushedFrom(es: seq<Event>, k: nat)
    ensures k in Pushed(es) ==>
      exists i | 0 <= i < |es| :: es[i].Push? && es[i].n == Pushed(es)[k] && es[i].n.seqNo == k
  {
    if es != [] {
      var head, last := es[..|es| - 1], es[|es| - 1];
      PushedFrom(head, k);
      if k in Pushed(head) {
        var i :| 0 <= i < |head| && head[i].Push? && head[i].n == Pushed(head)[k] && head[i].n.seqNo == k;
        assert es[i] == head[i];
      }
    }
  }

  /** With distinct numbers and no close, every event counts. */
  lemma {:induction false} AcceptedIsPushed(es: seq<Event>, k: nat)
    requires IsRun(Init, es) && NoClose(es) && DistinctPushes(es) && k >= 1
    ensures After(Init, es).q.err.None?
    ensures k in Accepted(es) <==> k in Pushed(es)
    ensures k in Accepted(es) ==> Accepted(es)[k] == Pushed(es)[k]
  {
    hide IsRun, After, Split;
    if es == [] {
      SplitInit();
    } else {
      var head, last := es[..|es| - 1], es[|es| - 1];
      AfterLast(Init, es);
      assert NoClose(head) && DistinctPushes(head) && !last.Close?;
      AcceptedIsPushed(head, k);
      if last.Push? && last.n.seqNo == k { NotDelivered(es); }
    }
  }

  lemma NotDelivered(es: seq<Event>)
    requires es != [] && IsRun(Init, es) && NoClose(es) && DistinctPushes(es) && es[|es| - 1].Push?
    requires var head, k := es[..|es| - 1], es[|es| - 1].n.seqNo;
      IsRun(Init, head) && k >= 1 && (k in Accepted(head) <==> k in Pushed(head))
    ensures After(Init, es[..|es| - 1]).q.nextSeq <= es[|es| - 1].n.seqNo
  {
    hide IsRun, After;
    var head, n := es[..|es| - 1], es[|es| - 1].n;
    SplitRun(head);
    PushedFrom(head, n.seqNo);
    assert forall i | 0 <= i < |head| :: es[i] == head[i];
    assert n.seqNo !in Pushed(head);
  }

  lemma {:induction false} StreamPrefix(m: map<nat, Notification>, d: seq<Notification>, k: nat)
    requires forall j | k <= j < k + |d| :: j in m && m[j] == d[j - k]
    ensures Stream(m, k) == d + Stream(m, k + |d|)
    decreases |d|
  {
    hide Stream;
    if d == [] {
      assert [] + Stream(m, k) == Stream(m, k);
    } else {
      assert k in m && m[k] == d[0];
      StreamPrefix(m, d[1..], k + 1);
      StreamHead(m, k);
      HeadFirst(d, Stream(m, k + |d|));
    }
  }

  lemma StreamHead(m: map<nat, Notification>, k: nat)
    requires k in m
    ensures Stream(m, k) == [m[k]] + Stream(m, k + 1)
  {}

  lemma HeadFirst(d: seq<Notification>, rest: seq<Notification>)
    requires d != []
    ensures d + rest == [d[0]] + (d[1..] + rest)
  {}

  lemma {:induction false} StreamAgrees(m: map<nat, Notification>, p: map<nat, Notification>, k: nat)
    requires forall j | j >= k :: (j in m <==> j in p) && (j in m ==> m[j] == p[j])
    ensures Stream(m, k) == Stream(p, k)
    decreases |From(m, k)|
  {
    if k in m {
      assert From(m, k + 1) == From(m, k) - {k};
      StreamAgrees(m, p, k + 1);
    }
  }

  /** In every run, at any moment, duplicates, gaps and a close included: what was delivered followed by
      what is ready to be delivered is the stream determined by the events that count. */
  lemma DeliveredStream(es: seq<Event>)
    requires IsRun(Init, es)
    ensures var s := After(Init, es);
      Stream(Accepted(es), 1) == s.delivered + Stream(s.q.pending, s.q.nextSeq)
  {
    hide After, IsRun, Accepted;
    var s, m := After(Init, es), Accepted(es);
    SplitRun(es);
    StreamPrefix(m, s.delivered, 1);
    StreamAgrees(m, s.q.pending, s.q.nextSeq);
  }

  /** The notifications of the push events, in arrival order. */
  function Arrivals(es: seq<Event>): seq<Notification> {
    if es == [] then [] else
      var last := es[|es| - 1];
      Arrivals(es[..|es| - 1]) + if last.Push? then [last.n] else []
  }

  lemma {:induction false} ArrivalsPushed(es: seq<Event>, n: Notification)
    requires DistinctPushes(es)
    ensures n in Arrivals(es) <==> n.seqNo in Pushed(es) && Pushed(es)[n.seqNo] == n
  {
    if es != [] {
      var head, last := es[..|es| - 1], es[|es| - 1];
      assert DistinctPushes(head);
      ArrivalsPushed(head, n);
      if last.Push? {
        PushedFrom(head, last.n.seqNo);
        assert forall i | 0 <= i < |head| :: es[i] == head[i];
      }
    }
  }

  lemma {:induction false} PushedNumbers(es: seq<Event>, k: nat)
    ensures k in Pushed(es) ==> Pushed(es)[k].seqNo == k
  {
    PushedFrom(es, k);
  }

  lemma {:induction false} SameArrivalsSamePushed(es: seq<Event>, fs: seq<Event>)
    requires DistinctPushes(es) && DistinctPushes(fs)
    requires multiset(Arrivals(es)) == multiset(Arrivals(fs))
    ensures Pushed(es) == Pushed(fs)
  {
    forall k | k in Pushed(es) ensures k in Pushed(fs) && Pushed(fs)[k] == Pushed(es)[k] {
      SameEntry(es, fs, k);
    }
    forall k | k in Pushed(fs) ensures k in Pushed(es) {
      SameEntry(fs, es, k);
    }
  }

  lemma SameEntry(es: seq<Event>, fs: seq<Event>, k: nat)
    requires DistinctPushes(es) && DistinctPushes(fs) && k in Pushed(es)
    requires multiset(Arrivals(es)) == multiset(Arrivals(fs))
    ensures k in Pushed(fs) && Pushed(fs)[k] == Pushed(es)[k]
  {
    hide Pushed, Arrivals, DistinctPushes;
    var n := Pushed(es)[k];
    PushedNumbers(es, k);
    ArrivalsPushed(es, n);
    ArrivalsPushed(fs, n);
    assert n in multiset(Arrivals(es));
    assert n in multiset(Arrivals(fs));
  }

  /** Two runs over the same events in any two arrival orders, interleaved with consumers in any way,
      deliver the same stream once both are drained. */
  lemma ArrivalOrderIrrelevant(es: seq<Event>, fs: seq<Event>)
    requires IsRun(Init, es) && NoClose(es) && DistinctPushes(es)
    requires IsRun(Init, fs) && NoClose(fs) && DistinctPushes(fs)
    requires multiset(Arrivals(es)) == multiset(Arrivals(fs))
    requires After(Init, es).q.nextSeq !in After(Init, es).q.pending
    requires After(Init, fs).q.nextSeq !in After(Init, fs).q.pending
    ensures After(Init, es).delivered == After(Init, fs).delivered
  {
    hide After, IsRun, Pushed, Accepted, Arrivals, DistinctPushes, NoClose;
    DeliveredStream(es);
    DeliveredStream(fs);
    SameArrivalsSamePushed(es, fs);
    forall k | k >= 1
      ensures (k in Accepted(es) <==> k in Accepted(fs)) && (k in Accepted(es) ==> Accepted(es)[k] == Accepted(fs)[k])
    {
      AcceptedIsPushed(es, k);
      AcceptedIsPushed(fs, k);
    }
    StreamAgrees(Accepted(es), Accepted(fs), 1);
    var s, t := After(Init, es), After(Init, fs);
    assert s.delivered + [] == s.delivered && t.delivered + [] == t.delivered;
  }

  /** After the close nothing more is delivered, even what was ready. */
  lemma CloseStopsDelivery(s: State, e: Event)
    requires s.q.err.Some?
    ensures Next(s, e).q == s.q && Next(s, e).delivered == s.delivered
  {}

  // ---------------------------------------------------------------- wakeups

  /** A look at the queue would return something. */
  predicate Work(s: State) { !NextOf(s.q).0.Nothing? }

  /** Only thread `c` consumes, and while it waits, a deliverable event or an error comes with a
      token. */
  predicate Served(s: State, c: nat) {
    && s.pcs.Keys <= {c}
    && (c in s.pcs && s.pcs[c] == Waiting && Work(s) ==> s.token)
  }

  predicate By(e: Event, c: nat) {
    match e
    case Begin(t) => t == c
    case Check(t) => t == c
    case Wake(t) => t == c
    case Cancel(t) => t == c
    case _ => true
  }

  lemma {:induction false} SingleConsumerServed(s: State, es: seq<Event>, c: nat)
    requires IsRun(s, es) && Served(s, c) && forall i | 0 <= i < |es| :: By(es[i], c)
    ensures Served(After(s, es), c)
    decreases |es|
  {
    if es != [] {
      assert By(es[0], c);
      SingleConsumerServed(Next(s, es[0]), es[1..], c);
    }
  }

  function TwoWaiting(c: nat, d: nat): State { State(Fresh, [], false, map[c := Waiting, d := Waiting]) }

  /** Any two consumers of a fresh queue can both wait. */
  lemma TwoConsumersWait(c: nat, d: nat)
    requires c != d
    ensures var es := [Begin(c)] + ([Check(c)] + ([Begin(d)] + ([Check(d)] + [])));
      IsRun(Init, es) && After(Init, es) == TwoWaiting(c, d)
  {
    hide IsRun, After;
    var s1 := Init.(pcs := map[c := Recheck]);
    var s2 := Init.(pcs := map[c := Waiting]);
    var s3 := Init.(pcs := map[c := Waiting, d := Recheck]);
    assert Next(Init, Begin(c)) == s1;
    assert Next(s1, Check(c)) == s2;
    assert Next(s2, Begin(d)) == s3;
    assert Next(s3, Check(d)) == TwoWaiting(c, d);
    RunNil(TwoWaiting(c, d));
    RunCons(s3, Check(d), []);
    RunCons(s2, Begin(d), [Check(d)] + []);
    RunCons(s1, Check(c), [Begin(d)] + ([Check(d)] + []));
    RunCons(Init, Begin(c), [Check(c)] + ([Begin(d)] + ([Check(d)] + [])));
  }

  /** Two waiting consumers, events 2 and 1 arrive: one token, one delivery, and the second consumer
      waits beside a deliverable event. */
  lemma SecondConsumerStranded(a: Notification, b: Notification, c: nat, d: nat)
    requires a.seqNo == 1 && b.seqNo == 2 && c != d
    ensures var es := [Push(b)] + ([Push(a)] + ([Wake(c)] + ([Check(c)] + [])));
      IsRun(TwoWaiting(c, d), es)
      && var s := After(TwoWaiting(c, d), es);
         Work(s) && !s.token && s.pcs == map[d := Waiting]
  {
    hide IsRun, After;
    var both := map[c := Waiting, d := Waiting];
    var s0 := TwoWaiting(c, d);
    var s1 := State(Queue(1, map[2 := b], None), [], true, both);
    var s2 := State(Queue(1, map[2 := b, 1 := a], None), [], true, both);
    var s3 := State(Queue(1, map[2 := b, 1 := a], None), [], false, map[c := Recheck, d := Waiting]);
    var s4 := State(Queue(2, map[2 := b], None), [a], false, map[d := Waiting]);
    OnePasses(c, d);
    assert Next(s0, Push(b)) == s1 && Next(s1, Push(a)) == s2;
    assert Next(s2, Wake(c)) == s3 && Next(s3, Check(c)) == s4 by {
      assert s2.q.pending - {1} == map[2 := b] && [] + [a] == [a];
    }
    hide Next;
    RunNil(s4);
    RunCons(s3, Check(c), []);
    RunCons(s2, Wake(c), [Check(c)] + []);
    RunCons(s1, Push(a), [Wake(c)] + ([Check(c)] + []));
    RunCons(s0, Push(b), [Push(a)] + ([Wake(c)] + ([Check(c)] + [])));
  }

  lemma OnePasses(c: nat, d: nat)
    requires c != d
    ensures map[c := Waiting, d := Waiting][c := Recheck] == map[c := Recheck, d := Waiting]
    ensures map[c := Recheck, d := Waiting] - {c} == map[d := Waiting]
  {}

  // ---------------------------------------------------------------- how many consumers

  predicate ByAny(e: Event, cs: set<nat>) {
    match e
    case Begin(t) => t in cs
    case Check(t) => t in cs
    case Wake(t) => t in cs
    case Cancel(t) => t in cs
    case _ => true
  }

  predicate AllBy(es: seq<Event>, cs: set<nat>) { forall i | 0 <= i < |es| :: ByAny(es[i], cs) }

  /** Nobody waits beside work without a token. */
  predicate NobodyStranded(s: State) { forall t | t in s.pcs && s.pcs[t] == Waiting && Work(s) :: s.token }

  ghost predicate AlwaysServed(cs: set<nat>) {
    forall es | IsRun(Init, es) && AllBy(es, cs) :: NobodyStranded(After(Init, es))
  }

  lemma {:induction false} RunJoin(s: State, es: seq<Event>, fs: seq<Event>)
    requires IsRun(s, es) && IsRun(After(s, es), fs)
    ensures IsRun(s, es + fs) && After(s, es + fs) == After(After(s, es), fs)
    decreases |es|
  {
    hide Enabled, Next;
    if es == [] {
      assert es + fs == fs;
    } else {
      RunJoin(Next(s, es[0]), es[1..], fs);
      assert (es + fs)[0] == es[0] && (es + fs)[1..] == es[1..] + fs;
    }
  }

  lemma PairStranded(c: nat, d: nat) returns (es: seq<Event>)
    requires c != d
    ensures IsRun(Init, es) && AllBy(es, {c, d}) && !NobodyStranded(After(Init, es))
  {
    hide IsRun, After;
    var a, b := Notification(1, ""), Notification(2, "");
    var before := [Begin(c)] + ([Check(c)] + ([Begin(d)] + ([Check(d)] + [])));
    var behind := [Push(b)] + ([Push(a)] + ([Wake(c)] + ([Check(c)] + [])));
    TwoConsumersWait(c, d);
    SecondConsumerStranded(a, b, c, d);
    RunJoin(Init, before, behind);
    es := before + behind;
    var s := After(Init, es);
    assert d in s.pcs && s.pcs[d] == Waiting && Work(s) && !s.token;
  }

  lemma FewServed(cs: set<nat>, es: seq<Event>)
    requires |cs| <= 1 && IsRun(Init, es) && AllBy(es, cs)
    ensures NobodyStranded(After(Init, es))
  {
    hide IsRun, After;
    var c := 0;
    if cs != {} {
      c :| c in cs;
      assert |cs - {c}| == 0 && cs == {c};
    }
    forall i | 0 <= i < |es| ensures By(es[i], c) { assert ByAny(es[i], cs); }
    SingleConsumerServed(Init, es, c);
  }

  /** Every waiting consumer is served in every run of a set of consumers if and only if the set has at
      most one member. */
  lemma ServedExactly(cs: set<nat>)
    ensures AlwaysServed(cs) <==> |cs| <= 1
  {
    hide IsRun, After, NobodyStranded, AllBy;
    if |cs| <= 1 {
      forall es | IsRun(Init, es) && AllBy(es, cs) ensures NobodyStranded(After(Init, es)) { FewServed(cs, es); }
    } else {
      var c :| c in cs;
      assert |cs - {c}| == |cs| - 1;
      var d :| d in cs - {c};
      var es := PairStranded(c, d);
      MoreConsumers(es, {c, d}, cs);
    }
  }

  lemma MoreConsumers(es: seq<Event>, cs: set<nat>, ds: set<nat>)
    requires cs <= ds && AllBy(es, cs)
    ensures AllBy(es, ds)
  {
    forall i | 0 <= i < |es| ensures ByAny(es[i], ds) { assert ByAny(es[i], cs); }
  }

  lemma RunNil(s: State)
    ensures IsRun(s, []) && After(s, []) == s
  {}

  lemma RunCons(s: State, e: Event, es: seq<Event>)
    requires Enabled(s, e) && IsRun(Next(s, e), es)
    ensures IsRun(s, [e] + es) && After(s, [e] + es) == After(Next(s, e), es)
  {
    assert ([e] + es)[1..] == es;
  }
}
