/** Requests and replies of the JSON-RPC client (pkg/llm/codex/jsonrpc_helpers.go). Request number `n`
    owns the one-slot channel `n` and the identifier `go-sdk-n`. Steps are critical sections of
    `responseMu` and channel operations; any number of requests, deliveries and failures interleave,
    and the server may send any reply at any time. */
module JsonRpc {
  import opened Text
  import Decimal

  datatype Value = Reply(id: Bytes, body: Bytes) | Failure(err: Bytes)

  function IdOf(n: nat): Bytes { "go-sdk-" + Decimal.Itoa(n) }

  lemma IdsDiffer(m: nat, n: nat)
    requires IdOf(m) == IdOf(n)
    ensures m == n
  {
    assert IdOf(m)[7..] == Decimal.Itoa(m) && IdOf(n)[7..] == Decimal.Itoa(n);
    Decimal.ItoaInjective(m, n);
  }

  // ---------------------------------------------------------------- runs

  datatype Table = Table(seqNo: nat, responses: map<Bytes, nat>)

  datatype Send = Send(channel: nat, value: Value)

  /** `sends` are values taken out of the table and not yet in their channel; `sent` is everything a
      channel was ever given. */
  datatype State = State(
    table: Table, registered: set<nat>, unregistered: set<nat>,
    sends: set<Send>, sent: map<nat, seq<Value>>, received: set<nat>)

  const Init := State(Table(0, map[]), {}, {}, {}, map[], {})

  datatype Event =
    | Allocate
    | Register(n: nat)
    | Unregister(n: nat)
    | Deliver(reply: Value)
    | FailPending(err: Bytes)
    | Complete(send: Send)
    | Receive(n: nat)

  function SentTo(s: State, n: nat): seq<Value> { if n in s.sent then s.sent[n] else [] }

  /** The one-slot channel has room: nothing was sent, or what was sent has been received. */
  predicate HasRoom(s: State, n: nat) { |SentTo(s, n)| == if n in s.received then 1 else 0 }

  predicate Enabled(s: State, e: Event) {
    match e
    case Register(n) => 1 <= n <= s.table.seqNo && n !in s.registered
    case Unregister(n) => n in s.registered && n !in s.unregistered
    case Deliver(reply) => reply.Reply?
    case Complete(send) => send in s.sends && HasRoom(s, send.channel)
    case Receive(n) => n in s.registered && n !in s.received && SentTo(s, n) != []
    case _ => true
  }

  function Next(s: State, e: Event): State {
    var r := s.table.responses;
    match e
    case Allocate => s.(table := s.table.(seqNo := s.table.seqNo + 1))
    case Register(n) => s.(table := s.table.(responses := r[IdOf(n) := n]), registered := s.registered + {n})
    case Unregister(n) => s.(table := s.table.(responses := r - {IdOf(n)}), unregistered := s.unregistered + {n})
    case Deliver(reply) =>
      if reply.Failure? || reply.id !in r then s
      else s.(table := s.table.(responses := r - {reply.id}), sends := s.sends + {Send(r[reply.id], reply)})
    case FailPending(err) =>
      s.(table := s.table.(responses := map[]), sends := s.sends + set id | id in r :: Send(r[id], Failure(err)))
    case Complete(send) =>
      s.(sends := s.sends - {send}, sent := s.sent[send.channel := SentTo(s, send.channel) + [send.value]])
    case Receive(n) => s.(received := s.received + {n})
  }

  predicate IsRun(s: State, es: seq<Event>)
    decreases |es|
  {
    es == [] || (Enabled(s, es[0]) && IsRun(Next(s, es[0]), es[1..]))
  }

  function After(s: State, es: seq<Event>): State
    decreases |es|
  {
    if es == [] then s else After(Next(s, es[0]), es[1..])
  }

  // ---------------------------------------------------------------- invariant

  predicate Pending(s: State, n: nat) { IdOf(n) in s.table.responses }

  predicate InFlight(s: State, n: nat) { exists x | x in s.sends :: x.channel == n }

  /** A value may be given to channel `n`: a reply carrying its identifier, or a failure. */
  predicate Fits(n: nat, v: Value) { v.Reply? ==> v.id == IdOf(n) }

  /** The table files each waiting request under its own identifier. */
  predicate TableOk(s: State) {
    forall id | id in s.table.responses ::
      var n := s.table.responses[id];
      id == IdOf(n) && n in s.registered && n !in s.unregistered
  }

  /** Only numbers given out by `nextRequestID` are registered. */
  predicate Numbered(s: State) { forall n | n in s.registered :: 1 <= n <= s.table.seqNo }

  /** What is on its way goes to a channel that is out of the table and was given nothing. */
  predicate SendsOk(s: State) {
    && (forall x | x in s.sends ::
          x.channel in s.registered && Fits(x.channel, x.value) && !Pending(s, x.channel) && SentTo(s, x.channel) == [])
    && (forall x, y | x in s.sends && y in s.sends && x.channel == y.channel :: x == y)
  }

  predicate ChannelsOk(s: State) {
    && (forall n | n in s.sent ::
          n in s.registered && |s.sent[n]| <= 1 && (s.sent[n] != [] ==> !Pending(s, n))
          && (s.sent[n] != [] ==> Fits(n, s.sent[n][0])))
    && (forall n | n in s.received :: |SentTo(s, n)| == 1)
  }

  /** Nobody is forgotten. */
  predicate Remembered(s: State) {
    && s.unregistered <= s.registered
    && (forall n | n in s.registered ::
          Pending(s, n) || InFlight(s, n) || |SentTo(s, n)| == 1 || n in s.unregistered)
  }

  predicate Inv(s: State) { TableOk(s) && Numbered(s) && SendsOk(s) && ChannelsOk(s) && Remembered(s) }

  lemma AllIdsDiffer()
    ensures forall m: nat, n: nat | IdOf(m) == IdOf(n) :: m == n
  {
    forall m: nat, n: nat | IdOf(m) == IdOf(n) ensures m == n { IdsDiffer(m, n); }
  }

  lemma RegisterInv(s: State, n: nat)
    requires Inv(s) && Enabled(s, Register(n))
    ensures Inv(Next(s, Register(n)))
  {
    hide IdOf;
    AllIdsDiffer();
    var t := Next(s, Register(n));
    assert !InFlight(s, n) && SentTo(s, n) == [];
    assert forall m | m != n :: Pending(t, m) == Pending(s, m) && InFlight(t, m) == InFlight(s, m);
  }

  lemma UnregisterInv(s: State, n: nat)
    requires Inv(s) && Enabled(s, Unregister(n))
    ensures Inv(Next(s, Unregister(n)))
  {
    hide IdOf, Fits;
    AllIdsDiffer();
    var t := Next(s, Unregister(n));
    assert forall m | m != n :: Pending(t, m) == Pending(s, m);
    assert !Pending(t, n);
    assert forall m :: InFlight(t, m) == InFlight(s, m) && SentTo(t, m) == SentTo(s, m);
    assert TableOk(t) && SendsOk(t) && ChannelsOk(t);
  }

  lemma DeliverInv(s: State, reply: Value)
    requires Inv(s) && reply.Reply?
    ensures Inv(Next(s, Deliver(reply)))
  {
    hide IdOf;
    AllIdsDiffer();
    if reply.id in s.table.responses {
      var n := s.table.responses[reply.id];
      var t := Next(s, Deliver(reply));
      assert Send(n, reply) in t.sends;
      assert !InFlight(s, n) && SentTo(s, n) == [];
      assert forall m | m != n :: Pending(t, m) == Pending(s, m) && (InFlight(s, m) ==> InFlight(t, m));
    }
  }

  lemma FailPendingInv(s: State, err: Bytes)
    requires Inv(s)
    ensures Inv(Next(s, FailPending(err)))
  {
    hide IdOf;
    AllIdsDiffer();
    var t := Next(s, FailPending(err));
    assert forall n :: !Pending(t, n) && SentTo(t, n) == SentTo(s, n);
    forall n | n in t.registered
      ensures Pending(t, n) || InFlight(t, n) || |SentTo(t, n)| == 1 || n in t.unregistered
    {
      if Pending(s, n) {
        assert Send(s.table.responses[IdOf(n)], Failure(err)) in t.sends;
      } else if InFlight(s, n) {
        var x :| x in s.sends && x.channel == n;
        assert x in t.sends;
      }
    }
  }

  lemma CompleteInv(s: State, x: Send)
    requires Inv(s) && Enabled(s, Complete(x))
    ensures Inv(Next(s, Complete(x)))
  {
    hide IdOf;
    var n := x.channel;
    var t := Next(s, Complete(x));
    assert SentTo(t, n) == [x.value];
    assert forall m | m != n :: SentTo(t, m) == SentTo(s, m) && InFlight(t, m) == InFlight(s, m) by {
      forall m | m != n ensures InFlight(t, m) == InFlight(s, m) {
        if InFlight(s, m) {
          var y :| y in s.sends && y.channel == m;
          assert y in t.sends;
        }
      }
    }
  }

  lemma StepInv(s: State, e: Event)
    requires Inv(s) && Enabled(s, e)
    ensures Inv(Next(s, e))
  {
    match e {
      case Allocate => KeepsInv(s, Next(s, e));
      case Register(n) => RegisterInv(s, n);
      case Unregister(n) => UnregisterInv(s, n);
      case Deliver(reply) => DeliverInv(s, reply);
      case FailPending(err) => FailPendingInv(s, err);
      case Complete(x) => CompleteInv(s, x);
      case Receive(n) => ReceiveInv(s, n);
    }
  }

  lemma KeepsInv(s: State, t: State)
    requires Inv(s) && t == s.(table := s.table.(seqNo := t.table.seqNo)) && s.table.seqNo <= t.table.seqNo
    ensures Inv(t)
  {
    hide IdOf;
    assert forall n :: Pending(t, n) == Pending(s, n) && InFlight(t, n) == InFlight(s, n);
    assert forall n :: SentTo(t, n) == SentTo(s, n);
  }

  lemma ReceiveInv(s: State, n: nat)
    requires Inv(s) && Enabled(s, Receive(n))
    ensures Inv(Next(s, Receive(n)))
  {
    hide IdOf;
    var t := Next(s, Receive(n));
    assert forall m :: Pending(t, m) == Pending(s, m) && InFlight(t, m) == InFlight(s, m);
    assert forall m :: SentTo(t, m) == SentTo(s, m);
  }

  lemma {:induction false} RunInv(s: State, es: seq<Event>)
    requires IsRun(s, es) && Inv(s)
    ensures Inv(After(s, es))
    decreases |es|
  {
    hide Inv, Enabled, Next;
    if es != [] {
      StepInv(s, es[0]);
      RunInv(Next(s, es[0]), es[1..]);
    }
  }

  // ---------------------------------------------------------------- the locked state

  /** The request counter and the table guarded by `responseMu`. Each method makes the step of the
      transition system that it is named in. */
  class ClientState {
    var seqNo: nat
    var responses: map<Bytes, nat>

    ghost predicate Shows(s: State)
      reads this
    { seqNo == s.table.seqNo && responses == s.table.responses }

    constructor ()
      ensures Shows(Init) && Inv(Init)
    {
      seqNo, responses := 0, map[];
    }

    /** The identifier is new: no request was ever registered under it. */
    method NextRequestId(ghost s: State) returns (id: Bytes)
      requires Shows(s) && Inv(s)
      modifies this`seqNo
      ensures var t := Next(s, Allocate);
        Shows(t) && Inv(t) && id == IdOf(t.table.seqNo) && Enabled(t, Event.Register(t.table.seqNo))
      ensures id !in responses && forall n | n in s.registered :: IdOf(n) != id
    {
      hide IdOf, SendsOk, ChannelsOk, Remembered;
      AllIdsDiffer();
      StepInv(s, Allocate);
      seqNo := seqNo + 1;
      id := IdOf(seqNo);
    }

    /** Nobody who waits loses their entry. */
    method Register(id: Bytes, channel: nat, ghost s: State)
      requires Shows(s) && Inv(s) && Enabled(s, Event.Register(channel)) && id == IdOf(channel)
      modifies this`responses
      ensures var t := Next(s, Event.Register(channel));
        Shows(t) && Inv(t) && Pending(t, channel) && forall n | Pending(s, n) :: Pending(t, n) && n != channel
    {
      hide IdOf, SendsOk, ChannelsOk, Remembered;
      AllIdsDiffer();
      StepInv(s, Event.Register(channel));
      responses := responses[id := channel];
    }

    /** Nobody else loses their entry. */
    method Unregister(id: Bytes, ghost n: nat, ghost s: State)
      requires Shows(s) && Inv(s) && Enabled(s, Event.Unregister(n)) && id == IdOf(n)
      modifies this`responses
      ensures var t := Next(s, Event.Unregister(n));
        Shows(t) && Inv(t) && forall m :: Pending(t, m) == (Pending(s, m) && m != n)
    {
      hide IdOf, SendsOk, ChannelsOk, Remembered;
      AllIdsDiffer();
      StepInv(s, Event.Unregister(n));
      responses := responses - {id};
    }

    /** The critical section of `deliverResponse`. A channel comes out exactly if the request with the
        identifier of the reply waits; it is that request's own, and the send on it will not block. */
    method Take(reply: Value, ghost s: State) returns (channel: Option<nat>)
      requires Shows(s) && Inv(s) && reply.Reply?
      modifies this`responses
      ensures var t := Next(s, Deliver(reply));
        Shows(t) && Inv(t) && t.sends == s.sends + if channel.Some? then {Send(channel.value, reply)} else {}
      ensures channel.Some? ==>
        reply.id == IdOf(channel.value) && Pending(s, channel.value)
        && Enabled(Next(s, Deliver(reply)), Complete(Send(channel.value, reply)))
      ensures channel.None? ==> forall n | Pending(s, n) :: IdOf(n) != reply.id
    {
      hide IdOf, Remembered;
      StepInv(s, Deliver(reply));
      channel := if reply.id in responses then Some(responses[reply.id]) else None;
      responses := responses - {reply.id};
    }

    /** The critical section of `failPending`: every channel that waits and no other, none of whose
        sends will block. */
    method TakeAll(ghost err: Bytes, ghost s: State) returns (taken: map<Bytes, nat>)
      requires Shows(s) && Inv(s)
      modifies this`responses
      ensures var t := Next(s, FailPending(err));
        Shows(t) && Inv(t) && t.sends == s.sends + set n | n in taken.Values :: Send(n, Failure(err))
      ensures forall n :: n in taken.Values <==> Pending(s, n)
      ensures forall n | n in taken.Values :: Enabled(Next(s, FailPending(err)), Complete(Send(n, Failure(err))))
    {
      hide IdOf, Remembered;
      AllIdsDiffer();
      StepInv(s, FailPending(err));
      taken := responses;
      responses := map[];
    }
  }

  // ---------------------------------------------------------------- theorems

  /** In every run each channel is given at most one value, and that value is a failure or the reply
      with the request's own identifier; and whatever is still to be sent finds its channel empty, so
      no send ever blocks. */
  lemma OneOwnReply(es: seq<Event>, n: nat)
    requires IsRun(Init, es)
    ensures var s := After(Init, es);
      && |SentTo(s, n)| <= 1
      && (SentTo(s, n) != [] ==> Fits(n, SentTo(s, n)[0]))
      && forall x | x in s.sends :: Enabled(s, Complete(x))
  {
    hide IdOf, After, IsRun;
    InitInv();
    RunInv(Init, es);
  }

  lemma InitInv()
    ensures Inv(Init)
  {}

  /** A request that is out of the table stays out. */
  lemma {:induction false} StaysOut(s: State, es: seq<Event>, n: nat)
    requires IsRun(s, es) && Inv(s) && n in s.registered && !Pending(s, n)
    ensures n in After(s, es).registered && !Pending(After(s, es), n)
    decreases |es|
  {
    if es != [] {
      StepInv(s, es[0]);
      OutStep(s, es[0], n);
      StaysOut(Next(s, es[0]), es[1..], n);
    }
  }

  lemma OutStep(s: State, e: Event, n: nat)
    requires Enabled(s, e) && n in s.registered && !Pending(s, n)
    ensures n in Next(s, e).registered && !Pending(Next(s, e), n)
  {
    hide IdOf;
    AllIdsDiffer();
  }

  /** After `failPending`, however the run goes on, every request registered before it is answered or
      has given up once the sends under way are done: exactly one value, or unregistered. */
  lemma FailPendingSettles(es: seq<Event>, err: Bytes, fs: seq<Event>, n: nat)
    requires IsRun(Init, es) && IsRun(Next(After(Init, es), FailPending(err)), fs)
    requires n in After(Init, es).registered
    ensures var s := After(Next(After(Init, es), FailPending(err)), fs);
      && !Pending(s, n)
      && (!InFlight(s, n) ==> |SentTo(s, n)| == 1 || n in s.unregistered)
  {
    hide IdOf, After, IsRun, Enabled;
    InitInv();
    RunInv(Init, es);
    var s := After(Init, es);
    StepInv(s, FailPending(err));
    StaysOut(Next(s, FailPending(err)), fs, n);
    RunInv(Next(s, FailPending(err)), fs);
  }

  // ---------------------------------------------------------------- which value a request gets

  /** The value is one the events brought in: a delivered reply, or the error of a failure. */
  predicate Brought(v: Value, e: Event) { if v.Reply? then e == Deliver(v) else e == FailPending(v.err) }

  predicate Sourced(v: Value, es: seq<Event>) { exists i | 0 <= i < |es| :: Brought(v, es[i]) }

  predicate AllSourced(s: State, es: seq<Event>) {
    && (forall x | x in s.sends :: Sourced(x.value, es))
    && (forall n | n in s.sent :: forall i | 0 <= i < |s.sent[n]| :: Sourced(s.sent[n][i], es))
  }

  lemma SourcedLonger(v: Value, es: seq<Event>, e: Event)
    requires Sourced(v, es) || Brought(v, e)
    ensures Sourced(v, es + [e])
  {
    if Sourced(v, es) {
      var i :| 0 <= i < |es| && Brought(v, es[i]);
      assert (es + [e])[i] == es[i];
    } else {
      assert (es + [e])[|es|] == e;
    }
  }

  lemma StepSourced(s: State, es: seq<Event>, e: Event)
    requires AllSourced(s, es) && Enabled(s, e)
    ensures AllSourced(Next(s, e), es + [e])
  {
    hide Sourced, HasRoom, IdOf;
    forall v | Sourced(v, es) || Brought(v, e) ensures Sourced(v, es + [e]) { SourcedLonger(v, es, e); }
    var t := Next(s, e);
    forall x | x in t.sends ensures Sourced(x.value, es + [e]) {
      if x !in s.sends { NewSend(s, e, x); }
    }
  }

  lemma NewSend(s: State, e: Event, x: Send)
    requires Enabled(s, e) && x in Next(s, e).sends && x !in s.sends
    ensures Brought(x.value, e)
  {}

  lemma {:induction false} AfterLast(s: State, es: seq<Event>)
    requires es != [] && IsRun(s, es)
    ensures var head, last := es[..|es| - 1], es[|es| - 1];
      IsRun(s, head) && Enabled(After(s, head), last) && After(s, es) == Next(After(s, head), last)
    decreases |es|
  {
    hide Enabled, Next;
    if |es| == 1 {
      assert es[1..] == [];
    } else {
      AfterLast(Next(s, es[0]), es[1..]);
      assert es[..|es| - 1][1..] == es[1..][..|es| - 2];
    }
  }

  /** In every run a channel holds only replies that were delivered, as they were, and errors of failures. */
  lemma {:induction false} NothingInvented(es: seq<Event>)
    requires IsRun(Init, es)
    ensures AllSourced(After(Init, es), es)
    decreases |es|
  {
    hide IsRun, After, AllSourced, Enabled, Next;
    if es == [] {
      assert After(Init, es) == Init && AllSourced(Init, es) by { NothingYet(es); }
    } else {
      var head, last := es[..|es| - 1], es[|es| - 1];
      AfterLast(Init, es);
      NothingInvented(head);
      StepSourced(After(Init, head), head, last);
      assert es == head + [last];
    }
  }

  lemma NothingYet(es: seq<Event>)
    requires es == []
    ensures After(Init, es) == Init && AllSourced(Init, es)
  {}

  /** Channel `n` holds `v` or is about to, and nothing else. */
  predicate Settled(s: State, n: nat, v: Value) { Send(n, v) in s.sends || SentTo(s, n) == [v] }

  lemma StepSettled(s: State, e: Event, n: nat, v: Value)
    requires Inv(s) && Enabled(s, e) && Settled(s, n, v)
    ensures Settled(Next(s, e), n, v)
  {
    hide IdOf, Remembered, Numbered, TableOk;
  }

  lemma {:induction false} RunSettled(s: State, es: seq<Event>, n: nat, v: Value)
    requires IsRun(s, es) && Inv(s) && Settled(s, n, v)
    ensures Settled(After(s, es), n, v)
    decreases |es|
  {
    hide Inv, Settled, Next, Enabled;
    if es != [] {
      StepInv(s, es[0]);
      StepSettled(s, es[0], n, v);
      RunSettled(Next(s, es[0]), es[1..], n, v);
    }
  }

  /** A request that waits when its reply is delivered gets exactly that reply; one that waits when the
      client fails gets exactly that error. Either way its channel never holds anything else. */
  lemma WaitingGets(es: seq<Event>, e: Event, fs: seq<Event>, n: nat)
    requires IsRun(Init, es) && Enabled(After(Init, es), e) && IsRun(Next(After(Init, es), e), fs)
    requires n in After(Init, es).registered && Pending(After(Init, es), n)
    ensures var t := After(Next(After(Init, es), e), fs);
      && (e.Deliver? && e.reply.id == IdOf(n) ==> Settled(t, n, e.reply))
      && (e.FailPending? ==> Settled(t, n, Failure(e.err)))
  {
    hide IdOf, After, IsRun, Inv, Settled, Enabled, Next;
    InitInv();
    RunInv(Init, es);
    var s := After(Init, es);
    StepInv(s, e);
    assert e.Deliver? ==> e.reply.Reply? by { OnlyReplies(s, e); }
    if e.Deliver? && e.reply.id == IdOf(n) {
      ReplyTaken(s, e.reply, n);
      RunSettled(Next(s, e), fs, n, e.reply);
    }
    if e.FailPending? {
      FailureTaken(s, e.err, n);
      RunSettled(Next(s, e), fs, n, Failure(e.err));
    }
  }

  lemma OnlyReplies(s: State, e: Event)
    requires Enabled(s, e)
    ensures e.Deliver? ==> e.reply.Reply?
  {}

  lemma OwnEntry(s: State, n: nat)
    requires Inv(s) && Pending(s, n)
    ensures s.table.responses[IdOf(n)] == n
  {
    AllIdsDiffer();
  }

  lemma ReplyTaken(s: State, reply: Value, n: nat)
    requires Inv(s) && Pending(s, n) && Enabled(s, Deliver(reply)) && reply.id == IdOf(n)
    ensures Settled(Next(s, Deliver(reply)), n, reply)
  {
    hide IdOf;
    OwnEntry(s, n);
  }

  lemma FailureTaken(s: State, err: Bytes, n: nat)
    requires Inv(s) && Pending(s, n)
    ensures Settled(Next(s, FailPending(err)), n, Failure(err))
  {
    hide IdOf;
    OwnEntry(s, n);
  }
}
