/** Command execution of the tmux control-mode client (pkg/tmux/client.go) as a transition system.
    A caller is one `ExecRaw` call and owns one one-slot channel. Steps are critical sections and
    channel operations of callers, the reader, aborters and `Close`, interleaved in any order. The
    server answers each written line once, in order; a failed write delivers nothing. */
module TmuxClient {
  import opened Text

  /** Where the holder of the write lock is in `ExecRaw`. */
  datatype Phase =
    | Entered     // has the lock, has not checked `closed`
    | Ready       // saw the client open
    | Registered  // its command is pending, its line is not written
    | Written     // waits for its channel or its context
    | Failing     // the write failed; about to clear its command
    | Cancelling  // its context is done; about to clear its command
    | Cleared     // about to mark the client closed

  datatype Author = Caller(id: nat) | Detach

  /** The answer to line `k`, or an error from an abort or a close. */
  datatype Value = Answer(k: nat) | Failure

  datatype Send = Send(to: nat, value: Value)

  datatype State = State(
    closed: bool, holder: Option<(nat, Phase)>, pending: Option<nat>,
    written: seq<Author>, answered: nat, used: set<nat>,
    sends: set<Send>, sent: map<nat, Value>, results: map<nat, Value>)

  const Init := State(false, None, None, [], 0, {}, {}, map[], map[])

  datatype Event =
    | Enter(c: nat)        // take the write lock
    | Refuse(c: nat)       // closed, or the context is done: return at once
    | SeeOpen(c: nat)
    | Register(c: nat)
    | Write(c: nat)
    | WriteFails(c: nat)
    | ContextDone(c: nat)
    | Clear(c: nat)        // clearPending
    | Abort(c: nat)        // markClosed by a cancelled caller, which then returns
    | Receive(c: nat)      // take the result from the channel and return it
    | MarkClosed           // markClosed by the reader or by Close
    | FailPending          // the critical section of failPending, always after markClosed
    | Deliver              // the critical section of deliverResponse on the next answer
    | Complete(send: Send) // put a value into its channel
    | WriteDetach          // Close found the write lock free

  predicate At(s: State, c: nat, p: Phase) { s.holder == Some((c, p)) }

  predicate Enabled(s: State, e: Event) {
    match e
    case Enter(c) => s.holder.None? && c !in s.used
    case Refuse(c) => At(s, c, Entered) || At(s, c, Ready)
    case SeeOpen(c) => At(s, c, Entered) && !s.closed
    case Register(c) => At(s, c, Ready) && s.pending.None?
    case Write(c) => At(s, c, Registered)
    case WriteFails(c) => At(s, c, Registered)
    case ContextDone(c) => At(s, c, Written)
    case Clear(c) => At(s, c, Failing) || At(s, c, Cancelling)
    case Abort(c) => At(s, c, Cleared)
    case Receive(c) => At(s, c, Written) && c in s.sent
    case MarkClosed => true
    case FailPending => s.closed
    case Deliver => s.answered < |s.written|
    case Complete(x) => x in s.sends && x.to !in s.sent
    case WriteDetach => s.closed && s.holder.None?
  }

  function Step(s: State, c: nat, p: Phase): State { s.(holder := Some((c, p))) }

  function Release(s: State): State { s.(holder := None) }

  /** Takes the pending command out and starts sending it `v`. */
  function TakePending(s: State, v: Value): State {
    if s.pending.None? then s else s.(pending := None, sends := s.sends + {Send(s.pending.value, v)})
  }

  function Next(s: State, e: Event): State {
    match e
    case Enter(c) => Step(s.(used := s.used + {c}), c, Entered)
    case Refuse(c) => Release(s)
    case SeeOpen(c) => Step(s, c, Ready)
    case Register(c) => Step(s.(pending := Some(c)), c, Registered)
    case Write(c) => Step(s.(written := s.written + [Caller(c)]), c, Written)
    case WriteFails(c) => Step(s, c, Failing)
    case ContextDone(c) => Step(s, c, Cancelling)
    case Clear(c) =>
      var t := if s.pending == Some(c) then s.(pending := None) else s;
      if At(s, c, Failing) then Release(t) else Step(t, c, Cleared)
    case Abort(c) => Release(s.(closed := true))
    case Receive(c) => if c in s.sent then Release(s.(results := s.results[c := s.sent[c]])) else s
    case MarkClosed => s.(closed := true)
    case FailPending => TakePending(s, Failure)
    case Deliver => TakePending(s, Answer(s.answered)).(answered := s.answered + 1)
    case Complete(x) => s.(sends := s.sends - {x}, sent := s.sent[x.to := x.value])
    case WriteDetach => s.(written := s.written + [Detach])
  }

  /** The fields guarded by `pendingMu` and `stateMu`. Each critical section makes a step of the
      system. */
  class Guarded {
    var pending: Option<nat>
    var closed: bool

    ghost predicate Shows(s: State)
      reads this
    { pending == s.pending && closed == s.closed }

    constructor ()
      ensures Shows(Init)
    {
      pending, closed := None, false;
    }

    method RegisterPending(c: nat, ghost s: State) returns (ok: bool)
      requires Shows(s) && At(s, c, Ready)
      modifies this`pending
      ensures ok == Enabled(s, Register(c))
      ensures Shows(if ok then Next(s, Register(c)) else s)
    {
      if pending.Some? { return false; }
      pending := Some(c);
      return true;
    }

    method ClearPending(c: nat, ghost s: State)
      requires Shows(s) && Enabled(s, Clear(c))
      modifies this`pending
      ensures Shows(Next(s, Clear(c)))
    {
      if pending == Some(c) { pending := None; }
    }

    /** Shared by `deliverResponse` and `failPending`: whoever is taken out is sent the value. */
    method Take(v: Value, ghost s: State) returns (c: Option<nat>)
      requires Shows(s)
      modifies this`pending
      ensures Shows(TakePending(s, v))
      ensures c == s.pending
      ensures TakePending(s, v).sends == s.sends + if c.Some? then {Send(c.value, v)} else {}
    {
      c := pending;
      pending := None;
    }

    /** `deliverResponse`: the waiting caller, if any, is to be sent the server's answer. */
    method DeliverResponse(k: nat, ghost s: State) returns (send: Option<Send>)
      requires Shows(s) && Enabled(s, Deliver) && k == s.answered
      modifies this`pending
      ensures Shows(Next(s, Deliver))
      ensures Next(s, Deliver).sends == s.sends + if send.Some? then {send.value} else {}
      ensures s.pending.Some? ==> send == Some(Send(s.pending.value, Answer(k)))
    {
      var c := Take(Answer(k), s);
      return if c.Some? then Some(Send(c.value, Answer(k))) else None;
    }

    /** `failPending`: the waiting caller, if any, is to be sent the error. */
    method FailWaiting(ghost s: State) returns (send: Option<Send>)
      requires Shows(s) && Enabled(s, FailPending)
      modifies this`pending
      ensures Shows(Next(s, FailPending))
      ensures Next(s, FailPending).sends == s.sends + if send.Some? then {send.value} else {}
      ensures s.pending.Some? ==> send == Some(Send(s.pending.value, Failure))
    {
      var c := Take(Failure, s);
      return if c.Some? then Some(Send(c.value, Failure)) else None;
    }

    method MarkClosed(ghost s: State)
      requires Shows(s)
      modifies this`closed
      ensures Shows(Next(s, Event.MarkClosed))
    {
      closed := true;
    }
  }

  predicate IsRun(s: State, es: seq<Event>)
    decreases |es|
  {
    es == [] || (Enabled(s, es[0]) && IsRun(Next(s, es[0]), es[1..]))
  }

  function After(s: State, es: seq<Event>): State
    decreases |es|
  {
    if es == [] then s else After(Next(s, es[0]), es[1..])
  }

  // ---------------------------------------------------------------- invariant

  predicate Quiet(s: State) { s.answered == |s.written| }

  /** Past the open check a caller owns every line the server has yet to answer. */
  predicate LinesOk(s: State) {
    && s.answered <= |s.written|
    && (match s.holder
        case None => !s.closed ==> Quiet(s)
        case Some((c, Entered)) => !s.closed ==> Quiet(s)
        case Some((c, Ready)) => Quiet(s)
        case Some((c, Registered)) => Quiet(s)
        case Some((c, Failing)) => Quiet(s)
        case Some((c, _)) => Quiet(s) || (|s.written| == s.answered + 1 && s.written[s.answered] == Caller(c)))
  }

  /** A pending command belongs to the caller that holds the write lock. If its line is written and
      the client open, the line is still unanswered. */
  predicate PendingOk(s: State) {
    && (s.pending.Some? ==>
          && s.holder.Some? && s.holder.value.0 == s.pending.value
          && s.holder.value.1 in {Registered, Written, Failing, Cancelling})
    && (s.holder.Some? && s.holder.value.1 == Written && s.pending.None? && !s.closed ==> Quiet(s))
    && (s.holder.Some? && s.holder.value.1 == Failing && s.pending.None? ==> s.closed)
    && (s.holder.Some? && s.holder.value.1 == Registered && s.pending.None? ==> s.closed)
    && (s.holder.Some? ==> s.holder.value.0 in s.used)
  }

  predicate OwnAnswer(s: State, c: nat, v: Value) {
    v.Answer? ==> v.k < s.answered && v.k < |s.written| && s.written[v.k] == Caller(c)
  }

  predicate ChannelsOk(s: State) {
    && (forall x | x in s.sends ::
          x.to in s.used && x.to !in s.sent && s.pending != Some(x.to) && OwnAnswer(s, x.to, x.value))
    && (forall x, y | x in s.sends && y in s.sends && x.to == y.to :: x == y)
    && (forall c | c in s.sent :: c in s.used && s.pending != Some(c) && OwnAnswer(s, c, s.sent[c]))
    && (forall c | c in s.results :: c in s.sent && s.results[c] == s.sent[c])
    && (s.holder.Some? && s.holder.value.1 in {Entered, Ready} ==>
          s.holder.value.0 !in s.sent && forall x | x in s.sends :: x.to != s.holder.value.0)
  }

  predicate Inv(s: State) { LinesOk(s) && PendingOk(s) && ChannelsOk(s) }

  lemma StepLines(s: State, e: Event)
    requires Inv(s) && Enabled(s, e)
    ensures LinesOk(Next(s, e))
  {}

  lemma StepPending(s: State, e: Event)
    requires Inv(s) && Enabled(s, e)
    ensures PendingOk(Next(s, e))
  {}

  /** Taking the pending command out hands it the one value it will get. */
  lemma TakeChannels(s: State, v: Value, answered: nat)
    requires ChannelsOk(s) && PendingOk(s) && s.answered <= answered
    requires s.pending.Some? ==> OwnAnswer(s.(answered := answered), s.pending.value, v)
    ensures ChannelsOk(TakePending(s, v).(answered := answered))
  {
    hide PendingOk;
    var t := TakePending(s, v).(answered := answered);
    if s.pending.Some? { PendingUsed(s); }
  }

  lemma PendingUsed(s: State)
    requires PendingOk(s) && s.pending.Some?
    ensures s.pending.value in s.used && s.holder.Some? && s.holder.value.1 !in {Entered, Ready}
  {}

  lemma DeliverChannels(s: State)
    requires Inv(s) && Enabled(s, Deliver)
    ensures ChannelsOk(Next(s, Deliver))
  {
    hide ChannelsOk, TakePending;
    TakeChannels(s, Answer(s.answered), s.answered + 1);
  }

  lemma FailChannels(s: State)
    requires Inv(s)
    ensures ChannelsOk(Next(s, FailPending))
  {
    hide ChannelsOk, LinesOk;
    TakeChannels(s, Failure, s.answered);
    assert TakePending(s, Failure).(answered := s.answered) == TakePending(s, Failure);
  }

  lemma CompleteChannels(s: State, x: Send)
    requires Inv(s) && Enabled(s, Complete(x))
    ensures ChannelsOk(Next(s, Complete(x)))
  {
    hide PendingOk, LinesOk;
  }

  lemma LineChannels(s: State, e: Event)
    requires Inv(s) && Enabled(s, e) && (e.Write? || e.WriteDetach?)
    ensures ChannelsOk(Next(s, e))
  {
    hide PendingOk, LinesOk;
  }

  lemma CallerChannels(s: State, e: Event)
    requires Inv(s) && Enabled(s, e) && (e.Enter? || e.Register? || e.Receive?)
    ensures ChannelsOk(Next(s, e))
  {
    hide LinesOk;
  }

  lemma OtherChannels(s: State, e: Event)
    requires Inv(s) && Enabled(s, e) && !e.Deliver? && !e.FailPending? && !e.Complete?
    ensures ChannelsOk(Next(s, e))
  {
    hide PendingOk, LinesOk, OwnAnswer;
    if e.Write? || e.WriteDetach? {
      LineChannels(s, e);
    } else if e.Enter? || e.Register? || e.Receive? {
      CallerChannels(s, e);
    } else {
      var t := Next(s, e);
      assert forall c, v :: OwnAnswer(t, c, v) == OwnAnswer(s, c, v) by { SameAnswers(s, t); }
    }
  }

  lemma SameAnswers(s: State, t: State)
    requires t.answered == s.answered && t.written == s.written
    ensures forall c, v :: OwnAnswer(t, c, v) == OwnAnswer(s, c, v)
  {}

  lemma {:induction false} StepInv(s: State, e: Event)
    requires Inv(s) && Enabled(s, e)
    ensures Inv(Next(s, e))
  {
    StepLines(s, e);
    StepPending(s, e);
    hide LinesOk, PendingOk, ChannelsOk, Next, Enabled;
    match e {
      case Deliver => DeliverChannels(s);
      case FailPending => FailChannels(s);
      case Complete(x) => CompleteChannels(s, x);
      case _ => OtherChannels(s, e);
    }
  }

  lemma {:induction false} RunInv(s: State, es: seq<Event>)
    requires IsRun(s, es) && Inv(s)
    ensures Inv(After(s, es))
    decreases |es|
  {
    hide Inv, Next, Enabled;
    if es != [] {
      StepInv(s, es[0]);
      RunInv(Next(s, es[0]), es[1..]);
    }
  }

  lemma InitInv()
    ensures Inv(Init)
  {}

  // ---------------------------------------------------------------- answers and failures

  /** Nobody is told of a failure while the client is open. */
  predicate FailuresClose(s: State) {
    && (forall x | x in s.sends && x.value.Failure? :: s.closed)
    && (forall c | c in s.sent && s.sent[c].Failure? :: s.closed)
    && (forall c | c in s.results && s.results[c].Failure? :: s.closed)
  }

  lemma StepFailures(s: State, e: Event)
    requires FailuresClose(s) && Enabled(s, e)
    ensures FailuresClose(Next(s, e))
  {}

  /** A caller that holds the lock, up to the write of its line. */
  predicate BeforeWrite(s: State, c: nat) {
    s.holder.Some? && s.holder.value.0 == c && s.holder.value.1 in {Entered, Ready, Registered, Failing}
  }

  /** No caller writes twice, and none that has not reached its write has written. */
  predicate WrittenOnce(s: State) {
    && (forall k | 0 <= k < |s.written| && s.written[k].Caller? ::
          s.written[k].id in s.used && !BeforeWrite(s, s.written[k].id))
    && (forall j, k | 0 <= j < k < |s.written| && s.written[j].Caller? :: s.written[j] != s.written[k])
    && (s.holder.Some? ==> s.holder.value.0 in s.used)
  }

  lemma StepWritten(s: State, e: Event)
    requires WrittenOnce(s) && Enabled(s, e)
    ensures WrittenOnce(Next(s, e))
  {
    hide BeforeWrite, TakePending;
    if e.Write? || e.WriteDetach? {
      WriteOnce(s, e);
    } else {
      var t := Next(s, e);
      assert t.written == s.written && s.used <= t.used by { OtherLines(s, e); }
      forall c | c in s.used && !BeforeWrite(s, c) ensures !BeforeWrite(t, c) { StaysPast(s, e, c); }
      assert t.holder.Some? ==> t.holder.value.0 in t.used by { HolderUsed(s, e); }
    }
  }

  lemma OtherLines(s: State, e: Event)
    requires !e.Write? && !e.WriteDetach?
    ensures Next(s, e).written == s.written && s.used <= Next(s, e).used
  {}

  lemma HolderUsed(s: State, e: Event)
    requires Enabled(s, e) && (s.holder.Some? ==> s.holder.value.0 in s.used)
    ensures Next(s, e).holder.Some? ==> Next(s, e).holder.value.0 in Next(s, e).used
  {}

  lemma StaysPast(s: State, e: Event, c: nat)
    requires Enabled(s, e) && c in s.used && !BeforeWrite(s, c)
    ensures !BeforeWrite(Next(s, e), c)
  {}

  lemma WriteOnce(s: State, e: Event)
    requires WrittenOnce(s) && Enabled(s, e) && (e.Write? || e.WriteDetach?)
    ensures WrittenOnce(Next(s, e))
  {}

  /** While the client is open, whoever wrote a line waits for its answer or has returned it. */
  predicate Served(s: State) {
    !s.closed ==>
      forall k | 0 <= k < |s.written| && s.written[k].Caller? ::
        var c := s.written[k].id;
        (s.holder.Some? && s.holder.value.0 == c) || (c in s.results && s.results[c] == Answer(k))
  }

  lemma ReceiveServes(s: State, c: nat)
    requires Inv(s) && FailuresClose(s) && WrittenOnce(s) && Served(s) && Enabled(s, Receive(c))
    ensures Served(Next(s, Receive(c)))
  {
    hide LinesOk, PendingOk;
    if !s.closed {
      assert s.sent[c].Answer? && OwnAnswer(s, c, s.sent[c]);
    }
  }

  lemma StepServes(s: State, e: Event)
    requires Inv(s) && FailuresClose(s) && WrittenOnce(s) && Served(s) && Enabled(s, e)
    ensures Served(Next(s, e))
  {
    hide Inv, FailuresClose;
    if e.Receive? { ReceiveServes(s, e.c); }
  }

  predicate Answering(s: State) { Inv(s) && FailuresClose(s) && WrittenOnce(s) && Served(s) }

  lemma {:induction false} RunAnswering(s: State, es: seq<Event>)
    requires IsRun(s, es) && Answering(s)
    ensures Answering(After(s, es))
    decreases |es|
  {
    hide Inv, FailuresClose, WrittenOnce, Served, Next, Enabled;
    if es != [] {
      StepInv(s, es[0]);
      StepFailures(s, es[0]);
      StepWritten(s, es[0]);
      StepServes(s, es[0]);
      RunAnswering(Next(s, es[0]), es[1..]);
    }
  }

  lemma InitAnswering()
    ensures Answering(Init)
  {
    InitInv();
  }

  /** The channel of `c` holds `v` or is about to. */
  predicate Settled(s: State, c: nat, v: Value) {
    Send(c, v) in s.sends || (c in s.sent && s.sent[c] == v)
  }

  lemma StepSettled(s: State, e: Event, c: nat, v: Value)
    requires Inv(s) && Enabled(s, e) && Settled(s, c, v)
    ensures Settled(Next(s, e), c, v)
  {
    hide LinesOk, PendingOk;
  }

  lemma {:induction false} RunSettled(s: State, es: seq<Event>, c: nat, v: Value)
    requires Inv(s) && IsRun(s, es) && Settled(s, c, v)
    ensures Settled(After(s, es), c, v)
    decreases |es|
  {
    hide Inv, Settled, Next, Enabled;
    if es != [] {
      StepInv(s, es[0]);
      StepSettled(s, es[0], c, v);
      RunSettled(Next(s, es[0]), es[1..], c, v);
    }
  }

  lemma {:induction false} RunJoin(s: State, es: seq<Event>, fs: seq<Event>)
    ensures IsRun(s, es + fs) <==> IsRun(s, es) && IsRun(After(s, es), fs)
    ensures After(s, es + fs) == After(After(s, es), fs)
    decreases |es|
  {
    hide Next, Enabled;
    if es == [] {
      assert es + fs == fs;
    } else {
      assert (es + fs)[1..] == es[1..] + fs;
      RunJoin(Next(s, es[0]), es[1..], fs);
    }
  }

  // ---------------------------------------------------------------- theorems

  /** In every run: `ExecRaw` returns the answer to the caller's own line, or a failure of a client that
      is closed; a channel is given at most one value and has room for it, so no send blocks; and a caller
      that is about to register never finds another command pending. */
  lemma OwnResponse(es: seq<Event>, c: nat)
    requires IsRun(Init, es)
    ensures var s := After(Init, es);
      && (c in s.results && s.results[c].Answer? ==>
            s.results[c].k < |s.written| && s.written[s.results[c].k] == Caller(c))
      && (c in s.results && s.results[c].Failure? ==> s.closed)
      && (forall x | x in s.sends :: Enabled(s, Complete(x)))
      && (forall x, y | x in s.sends && y in s.sends && x.to == y.to :: x == y)
      && (At(s, c, Ready) ==> s.pending.None?)
  {
    hide IsRun, After, Served, WrittenOnce;
    InitAnswering();
    RunAnswering(Init, es);
  }

  /** While the client is open, every caller that wrote a line holds the write lock or has returned the
      answer to exactly that line. */
  lemma WrittenIsAnswered(es: seq<Event>, k: nat, c: nat)
    requires IsRun(Init, es)
    requires var s := After(Init, es); !s.closed && k < |s.written| && s.written[k] == Caller(c)
    ensures var s := After(Init, es);
      (s.holder.Some? && s.holder.value.0 == c) || (c in s.results && s.results[c] == Answer(k))
  {
    hide IsRun, After, Inv, WrittenOnce, FailuresClose;
    InitAnswering();
    RunAnswering(Init, es);
  }

  /** The command pending when line `k` is answered is the one that wrote it. From then on its channel
      holds, or is about to hold, that answer and nothing else, and so does its result. */
  lemma AnswerArrives(es: seq<Event>, fs: seq<Event>)
    requires IsRun(Init, es + [Deliver] + fs) && After(Init, es).pending.Some?
    ensures var s, t := After(Init, es), After(Init, es + [Deliver] + fs);
      var c, k := s.pending.value, s.answered;
      && k < |s.written| && s.written[k] == Caller(c)
      && Settled(t, c, Answer(k))
      && (c in t.results ==> t.results[c] == Answer(k))
  {
    hide IsRun, After, Inv, Settled, Next, Enabled;
    var s := After(Init, es);
    RunJoin(Init, es + [Deliver], fs);
    RunJoin(Init, es, [Deliver]);
    OneStep(s, Deliver);
    InitInv();
    RunInv(Init, es);
    PendingOwns(s);
    DeliverSettles(s);
    StepInv(s, Deliver);
    var c, k := s.pending.value, s.answered;
    RunSettled(Next(s, Deliver), fs, c, Answer(k));
    RunInv(Init, es + [Deliver] + fs);
    ResultSettled(After(Init, es + [Deliver] + fs), c, Answer(k));
  }

  lemma OneStep(s: State, e: Event)
    ensures IsRun(s, [e]) <==> Enabled(s, e)
    ensures After(s, [e]) == Next(s, e)
  {
    hide Next, Enabled;
    assert [e][1..] == [];
    assert IsRun(Next(s, e), []) && After(Next(s, e), []) == Next(s, e);
  }

  lemma PendingOwns(s: State)
    requires Inv(s) && s.pending.Some? && Enabled(s, Deliver)
    ensures s.answered < |s.written| && s.written[s.answered] == Caller(s.pending.value)
  {
    hide ChannelsOk;
  }

  lemma DeliverSettles(s: State)
    requires s.pending.Some?
    ensures Settled(Next(s, Deliver), s.pending.value, Answer(s.answered))
  {}

  lemma ResultSettled(s: State, c: nat, v: Value)
    requires Inv(s) && Settled(s, c, v)
    ensures c in s.results ==> s.results[c] == v
  {
    hide LinesOk, PendingOk;
  }

  /** While the client is open and nobody holds the write lock, every line has been answered. */
  lemma OpenAndFreeIsQuiet(es: seq<Event>)
    requires IsRun(Init, es)
    ensures var s := After(Init, es);
      !s.closed && s.holder.None? ==> s.answered == |s.written| && s.pending.None?
  {
    hide IsRun, After;
    InitInv();
    RunInv(Init, es);
  }

  /** Whoever holds the write lock can go on, and may do exactly what its phase allows. */
  lemma HolderMoves(es: seq<Event>, c: nat, p: Phase)
    requires IsRun(Init, es) && At(After(Init, es), c, p)
    ensures var s := After(Init, es);
      match p
      case Entered => Enabled(s, Refuse(c)) && (Enabled(s, SeeOpen(c)) <==> !s.closed)
      case Ready => Enabled(s, Refuse(c)) && Enabled(s, Register(c)) && !Enabled(s, SeeOpen(c))
      case Registered => Enabled(s, Write(c)) && Enabled(s, WriteFails(c)) && !Enabled(s, Refuse(c))
      case Written => Enabled(s, ContextDone(c)) && (Enabled(s, Receive(c)) <==> c in s.sent)
      case Failing => Enabled(s, Clear(c)) && !Enabled(s, ContextDone(c))
      case Cancelling => Enabled(s, Clear(c)) && !Enabled(s, Receive(c))
      case Cleared => Enabled(s, Abort(c)) && !Enabled(s, Receive(c))
  {
    hide IsRun, After;
    OwnResponse(es, c);
  }
}
