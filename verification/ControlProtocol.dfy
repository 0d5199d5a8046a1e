/** Shutdown of inbound control requests (pkg/llm/claude/control_protocol.go). Each accepted request
    runs in a handler of its own; steps are the critical sections of `inflightMu`, the cancel calls
    made outside it, and the exit of a handler, interleaved in any order. */
module ControlProtocol {
  import opened Text

  /** Where a handler is: in the callback, returned from it, out of the in-flight map, or after its own
      cancel. The next step after that is `Done`. */
  datatype Phase = Running | Returned | Removed | Released

  datatype Handler = Handler(id: Bytes, phase: Phase)

  /** `cancelling` are cancel functions taken out of the map and not called yet. */
  datatype State = State(
    closed: bool, inflight: map<Bytes, nat>, count: int, live: map<nat, Handler>,
    used: set<nat>, cancelling: set<nat>, cancelled: set<nat>, waited: bool)

  const Init := State(false, map[], 0, map[], {}, {}, {}, false)

  datatype Event =
    | Spawn(h: nat, id: Bytes)
    | Return(h: nat)
    | Remove(h: nat)
    | CancelOwn(h: nat)
    | Done(h: nat)
    | CloseInflight
    | CancelRequest(id: Bytes)
    | CallCancel(h: nat)
    | WaitSucceeds

  predicate In(s: State, h: nat, p: Phase) { h in s.live && s.live[h].phase == p }

  predicate Enabled(s: State, e: Event) {
    match e
    case Spawn(h, id) => h !in s.used && id != ""
    case Return(h) => In(s, h, Running)
    case Remove(h) => In(s, h, Returned)
    case CancelOwn(h) => In(s, h, Removed)
    case Done(h) => In(s, h, Released)
    case CallCancel(h) => h in s.cancelling
    case WaitSucceeds => s.closed && s.count == 0
    case _ => true
  }

  function Goto(s: State, h: nat, p: Phase): State
    requires h in s.live
  { s.(live := s.live[h := s.live[h].(phase := p)]) }

  function Next(s: State, e: Event): State
    requires Enabled(s, e)
  {
    match e
    case Spawn(h, id) =>
      if s.closed then s.(used := s.used + {h})
      else s.(used := s.used + {h}, inflight := s.inflight[id := h], count := s.count + 1,
              live := s.live[h := Handler(id, Running)])
    case Return(h) => Goto(s, h, Returned)
    case Remove(h) => Goto(s.(inflight := s.inflight - {s.live[h].id}), h, Removed)
    case CancelOwn(h) => Goto(s.(cancelled := s.cancelled + {h}), h, Released)
    case Done(h) => s.(count := s.count - 1, live := s.live - {h})
    case CloseInflight =>
      s.(closed := true, cancelling := s.cancelling + set id | id in s.inflight :: s.inflight[id])
    case CancelRequest(id) =>
      if id in s.inflight then s.(cancelling := s.cancelling + {s.inflight[id]}, inflight := s.inflight - {id})
      else s
    case CallCancel(h) => s.(cancelling := s.cancelling - {h}, cancelled := s.cancelled + {h})
    case WaitSucceeds => s.(waited := true)
  }

  /** The fields guarded by `inflightMu`. Each critical section makes the step of the same name. */
  class Inflight {
    var closed: bool
    var cancels: map<Bytes, nat>
    var count: int

    ghost predicate Shows(s: State)
      reads this
    { closed == s.closed && cancels == s.inflight && count == s.count }

    constructor ()
      ensures Shows(Init)
    {
      closed, cancels, count := false, map[], 0;
    }

    method Admit(h: nat, id: Bytes, ghost s: State) returns (ok: bool)
      requires Shows(s) && Enabled(s, Spawn(h, id))
      modifies this
      ensures Shows(Next(s, Spawn(h, id))) && ok == !old(closed)
    {
      if closed { return false; }
      cancels := cancels[id := h];
      count := count + 1;
      return true;
    }

    method Forget(h: nat, id: Bytes, ghost s: State)
      requires Shows(s) && Enabled(s, Remove(h)) && id == s.live[h].id
      modifies this`cancels
      ensures Shows(Next(s, Remove(h)))
    {
      cancels := cancels - {id};
    }

    method Finish(h: nat, ghost s: State)
      requires Shows(s) && Enabled(s, Done(h))
      modifies this`count
      ensures Shows(Next(s, Done(h)))
    {
      count := count - 1;
    }

    /** Closes the gate and snapshots the cancel functions to call. */
    method Close(ghost s: State) returns (taken: set<nat>)
      requires Shows(s)
      modifies this`closed
      ensures Shows(Next(s, CloseInflight)) && Next(s, CloseInflight).cancelling == s.cancelling + taken
    {
      closed := true;
      taken := set id | id in cancels :: cancels[id];
    }

    method TakeCancel(id: Bytes, ghost s: State) returns (h: Option<nat>)
      requires Shows(s)
      modifies this`cancels
      ensures Shows(Next(s, CancelRequest(id)))
      ensures Next(s, CancelRequest(id)).cancelling == s.cancelling + if h.Some? then {h.value} else {}
    {
      h := if id in cancels then Some(cancels[id]) else None;
      cancels := cancels - {id};
    }
  }

  predicate IsRun(s: State, es: seq<Event>)
    decreases |es|
  {
    es == [] || (Enabled(s, es[0]) && IsRun(Next(s, es[0]), es[1..]))
  }

  function After(s: State, es: seq<Event>): State
    requires IsRun(s, es)
    decreases |es|
  {
    if es == [] then s else After(Next(s, es[0]), es[1..])
  }

  // ---------------------------------------------------------------- the barrier

  /** The wait group counts the live handlers, and a successful wait means there are none. */
  predicate Inv(s: State) {
    && s.count == |s.live|
    && s.live.Keys <= s.used
    && (s.waited ==> s.closed && s.live == map[])
  }

  lemma CountGrows(m: map<nat, Handler>, h: nat, v: Handler)
    ensures h !in m ==> |m[h := v]| == |m| + 1
    ensures h in m ==> |m[h := v]| == |m|
  {
    if h in m {
      assert m[h := v].Keys == m.Keys;
    } else {
      assert m[h := v].Keys == m.Keys + {h};
    }
    assert |m[h := v]| == |m[h := v].Keys| && |m| == |m.Keys|;
  }

  lemma CountShrinks(m: map<nat, Handler>, h: nat)
    requires h in m
    ensures |m - {h}| == |m| - 1
  {
    assert (m - {h}).Keys == m.Keys - {h};
    assert |m - {h}| == |(m - {h}).Keys| && |m| == |m.Keys|;
  }

  lemma StepInv(s: State, e: Event)
    requires Inv(s) && Enabled(s, e)
    ensures Inv(Next(s, e))
  {
    match e {
      case Spawn(h, id) => CountGrows(s.live, h, Handler(id, Running));
      case Return(h) => CountGrows(s.live, h, s.live[h].(phase := Returned));
      case Remove(h) => CountGrows(s.live, h, s.live[h].(phase := Removed));
      case CancelOwn(h) => CountGrows(s.live, h, s.live[h].(phase := Released));
      case Done(h) => CountShrinks(s.live, h);
      case WaitSucceeds => assert |s.live| == 0 ==> s.live == map[];
      case _ =>
    }
  }

  lemma {:induction false} RunInv(s: State, es: seq<Event>)
    requires IsRun(s, es) && Inv(s)
    ensures Inv(After(s, es))
    decreases |es|
  {
    hide Inv, Enabled, Next;
    if es != [] {
      StepInv(s, es[0]);
      RunInv(Next(s, es[0]), es[1..]);
    }
  }

  /** Once closed, no handler starts and the count never grows. */
  lemma {:induction false} ClosedOnlyShrinks(s: State, es: seq<Event>)
    requires IsRun(s, es) && Inv(s) && s.closed
    ensures After(s, es).closed && After(s, es).live.Keys <= s.live.Keys && After(s, es).count <= s.count
    decreases |es|
  {
    if es != [] {
      StepInv(s, es[0]);
      ClosedStep(s, es[0]);
      ClosedOnlyShrinks(Next(s, es[0]), es[1..]);
    }
  }

  lemma ClosedStep(s: State, e: Event)
    requires Enabled(s, e) && s.closed
    ensures Next(s, e).closed && Next(s, e).live.Keys <= s.live.Keys && Next(s, e).count <= s.count
  {}

  lemma {:induction false} EventsTell(s: State, es: seq<Event>)
    requires IsRun(s, es)
    ensures After(s, es).waited <==> s.waited || WaitSucceeds in es
    ensures After(s, es).closed <==> s.closed || CloseInflight in es
    decreases |es|
  {
    if es != [] {
      EventsTell(Next(s, es[0]), es[1..]);
      assert es == [es[0]] + es[1..];
    }
  }

  /** In every run the wait group counts the live handlers; once `waitInflight` has succeeded after
      `closeInflight`, no handler runs again, whatever else happens; and after `closeInflight` handlers
      only leave. */
  lemma ShutdownBarrier(es: seq<Event>, fs: seq<Event>)
    requires IsRun(Init, es) && IsRun(After(Init, es), fs)
    ensures var s := After(Init, es);
      && s.count == |s.live|
      && (WaitSucceeds in es ==> CloseInflight in es && After(s, fs).live == map[])
      && (CloseInflight in es ==> After(s, fs).live.Keys <= s.live.Keys && After(s, fs).count <= s.count)
  {
    hide Enabled, Next, IsRun, After;
    assert Inv(Init);
    RunInv(Init, es);
    EventsTell(Init, es);
    var s := After(Init, es);
    if s.closed { ClosedOnlyShrinks(s, fs); }
  }

  // ---------------------------------------------------------------- cancellation

  predicate Reached(s: State, h: nat) { h in s.cancelled || h in s.cancelling }

  /** A handler still in its callback can be found under its identifier, or its cancel is on its way. */
  predicate Findable(s: State) {
    && s.live.Keys <= s.used
    && (forall h | h in s.live && s.live[h].phase in {Running, Returned} ::
          Reached(s, h) || (!s.closed && s.live[h].id in s.inflight && s.inflight[s.live[h].id] == h))
    && (forall g, h | g in s.live && h in s.live && g != h :: s.live[g].id != s.live[h].id)
  }

  /** Requests that are being handled at the same time have different identifiers. */
  predicate Distinct(s: State, e: Event) {
    e.Spawn? ==> forall h | h in s.live :: s.live[h].id != e.id
  }

  predicate DistinctRun(s: State, es: seq<Event>)
    decreases |es|
  {
    es == [] || (Enabled(s, es[0]) && Distinct(s, es[0]) && DistinctRun(Next(s, es[0]), es[1..]))
  }

  lemma {:induction false} DistinctIsRun(s: State, es: seq<Event>)
    requires DistinctRun(s, es)
    ensures IsRun(s, es)
    decreases |es|
  {
    hide Enabled, Next, Distinct;
    if es != [] { DistinctIsRun(Next(s, es[0]), es[1..]); }
  }

  lemma CloseFindable(s: State)
    requires Findable(s)
    ensures Findable(Next(s, CloseInflight))
  {
    var t := Next(s, CloseInflight);
    forall h | h in t.live && t.live[h].phase in {Running, Returned} ensures Reached(t, h) {
      if !Reached(s, h) { assert s.inflight[s.live[h].id] == h; }
    }
  }

  lemma StepFindable(s: State, e: Event)
    requires Findable(s) && Enabled(s, e) && Distinct(s, e)
    ensures Findable(Next(s, e))
  {
    if e.CloseInflight? { CloseFindable(s); }
  }

  lemma {:induction false} RunFindable(s: State, es: seq<Event>)
    requires DistinctRun(s, es) && Findable(s)
    ensures IsRun(s, es) && Findable(After(s, es))
    decreases |es|
  {
    hide Findable, Distinct, Enabled, Next;
    DistinctIsRun(s, es);
    if es != [] {
      StepFindable(s, es[0]);
      RunFindable(Next(s, es[0]), es[1..]);
    }
  }

  /** With distinct identifiers, after the close every handler still in its callback is cancelled or
      has a cancel call under way. */
  lemma CloseReachesEveryone(es: seq<Event>, h: nat)
    requires DistinctRun(Init, es)
    ensures IsRun(Init, es)
    ensures var s := After(Init, es);
      s.closed && h in s.live && s.live[h].phase in {Running, Returned} ==> Reached(s, h)
  {
    hide Enabled, Next, IsRun, After, DistinctRun;
    RunFindable(Init, es);
  }

  // ---------------------------------------------------------------- who is reached, exactly

  /** Steps that call the cancel function filed under `id`, if one is. */
  predicate Cancels(e: Event, id: Bytes) { e == CloseInflight || e == CancelRequest(id) }

  /** After the steps `before`, `e` takes `h` out of the map without calling its cancel function:
      another request with the same identifier arrives, or a handler of one has finished. */
  predicate Displaces(before: seq<Event>, e: Event, h: nat, id: Bytes) {
    || (e.Spawn? && e.h != h && e.id == id)
    || (e.Remove? && e.h != h && Spawn(e.h, id) in before)
  }

  predicate Undisturbed(es: seq<Event>, i: nat, k: nat, h: nat, id: Bytes)
    requires i <= k <= |es|
  {
    forall j | i < j < k :: !Displaces(es[..j], es[j], h, id)
  }

  /** Nothing displaced `h` since it was spawned. */
  predicate Unhidden(es: seq<Event>, h: nat, id: Bytes) {
    exists i | 0 <= i < |es| :: es[i] == Spawn(h, id) && Undisturbed(es, i, |es|, h, id)
  }

  /** A cancelling step came before anything displaced `h`. */
  predicate CancelledInTime(es: seq<Event>, h: nat, id: Bytes) {
    exists i, k | 0 <= i < k < |es| ::
      es[i] == Spawn(h, id) && Cancels(es[k], id) && Undisturbed(es, i, k, h, id)
  }

  lemma PrefixAt(es: seq<Event>, e: Event)
    ensures forall j | 0 <= j < |es| :: (es + [e])[..j] == es[..j] && (es + [e])[j] == es[j]
    ensures (es + [e])[..|es|] == es && (es + [e])[|es|] == e
  {}

  lemma UndisturbedStep(es: seq<Event>, e: Event, i: nat, h: nat, id: Bytes)
    requires i < |es|
    ensures Undisturbed(es + [e], i, |es| + 1, h, id)
            <==> Undisturbed(es, i, |es|, h, id) && !Displaces(es, e, h, id)
    ensures forall k | i <= k <= |es| :: Undisturbed(es + [e], i, k, h, id) == Undisturbed(es, i, k, h, id)
  {
    hide Displaces;
    PrefixAt(es, e);
  }

  lemma UnhiddenStep(es: seq<Event>, e: Event, h: nat, id: Bytes)
    ensures Unhidden(es + [e], h, id) <==> e == Spawn(h, id) || (Unhidden(es, h, id) && !Displaces(es, e, h, id))
  {
    hide Undisturbed, Displaces;
    var fs := es + [e];
    if e == Spawn(h, id) {
      assert fs[|es|] == Spawn(h, id);
      assert Undisturbed(fs, |es|, |fs|, h, id) by { UndisturbedEmpty(fs, |es|, h, id); }
    }
    if Unhidden(es, h, id) && !Displaces(es, e, h, id) {
      var i :| 0 <= i < |es| && es[i] == Spawn(h, id) && Undisturbed(es, i, |es|, h, id);
      UndisturbedStep(es, e, i, h, id);
      assert fs[i] == Spawn(h, id);
    }
    if Unhidden(fs, h, id) && e != Spawn(h, id) {
      var i :| 0 <= i < |fs| && fs[i] == Spawn(h, id) && Undisturbed(fs, i, |fs|, h, id);
      UndisturbedStep(es, e, i, h, id);
      assert es[i] == Spawn(h, id);
    }
  }

  lemma UndisturbedEmpty(es: seq<Event>, i: nat, h: nat, id: Bytes)
    requires i < |es| && i + 1 == |es|
    ensures Undisturbed(es, i, |es|, h, id)
  {}

  lemma CancelledStep(es: seq<Event>, e: Event, h: nat, id: Bytes)
    ensures CancelledInTime(es + [e], h, id)
            <==> CancelledInTime(es, h, id) || (Cancels(e, id) && Unhidden(es, h, id))
  {
    hide Undisturbed, Cancels;
    var fs := es + [e];
    if CancelledInTime(es, h, id) {
      var i, k :| 0 <= i < k < |es| && es[i] == Spawn(h, id) && Cancels(es[k], id) && Undisturbed(es, i, k, h, id);
      UndisturbedStep(es, e, i, h, id);
      assert fs[i] == Spawn(h, id) && Cancels(fs[k], id) && Undisturbed(fs, i, k, h, id);
    }
    if Cancels(e, id) && Unhidden(es, h, id) {
      var i :| 0 <= i < |es| && es[i] == Spawn(h, id) && Undisturbed(es, i, |es|, h, id);
      UndisturbedStep(es, e, i, h, id);
      assert fs[i] == Spawn(h, id) && Cancels(fs[|es|], id) && Undisturbed(fs, i, |es|, h, id);
    }
    if CancelledInTime(fs, h, id) {
      var i, k :| 0 <= i < k < |fs| && fs[i] == Spawn(h, id) && Cancels(fs[k], id) && Undisturbed(fs, i, k, h, id);
      UndisturbedStep(es, e, i, h, id);
      assert es[i] == Spawn(h, id) && Undisturbed(es, i, k, h, id);
      if k < |es| { assert Cancels(es[k], id); }
    }
  }

  /** The steps so far and the state agree on who was spawned under which identifier. */
  predicate Spawned(es: seq<Event>, s: State) {
    && (forall e | e in es && e.Spawn? :: e.h in s.used)
    && (forall h | h in s.live :: h in s.used && Spawn(h, s.live[h].id) in es)
    && (forall e, f | e in es && f in es && e.Spawn? && f.Spawn? && e.h == f.h :: e == f)
  }

  predicate Filed(s: State, h: nat, id: Bytes) { id in s.inflight && s.inflight[id] == h }

  /** A handler in its callback that was never displaced is filed or reached, and the steps say which. */
  predicate Accounted(es: seq<Event>, s: State, h: nat) {
    h in s.live && s.live[h].phase in {Running, Returned} ==>
      var id := s.live[h].id;
      && (Reached(s, h) <==> CancelledInTime(es, h, id))
      && (Filed(s, h, id) ==> Unhidden(es, h, id) || Reached(s, h))
      && (Filed(s, h, id) && s.closed ==> Reached(s, h))
      && (Unhidden(es, h, id) && !Reached(s, h) ==> Filed(s, h, id))
  }

  predicate FilesOk(s: State) {
    && (forall id | id in s.inflight :: s.inflight[id] in s.used)
    && (forall id | id in s.inflight && s.inflight[id] in s.live :: s.live[s.inflight[id]].id == id)
    && s.cancelling <= s.used && s.cancelled <= s.used
  }

  lemma SpawnedStep(es: seq<Event>, s: State, e: Event)
    requires Spawned(es, s) && Enabled(s, e)
    ensures Spawned(es + [e], Next(s, e))
  {
    var fs := es + [e];
    assert forall x :: x in fs <==> x in es || x == e;
  }

  lemma FilesStep(s: State, e: Event)
    requires FilesOk(s) && s.live.Keys <= s.used && Enabled(s, e)
    ensures FilesOk(Next(s, e))
  {}

  lemma NotSpawned(es: seq<Event>, s: State, h: nat, id: Bytes)
    requires Spawned(es, s) && h !in s.used
    ensures !CancelledInTime(es, h, id) && !Unhidden(es, h, id)
  {
    hide Undisturbed;
    assert Spawn(h, id) !in es;
  }

  lemma AccountedSpawn(es: seq<Event>, s: State, e: Event, h: nat)
    requires Spawned(es, s) && FilesOk(s) && Accounted(es, s, h) && Enabled(s, e) && e.Spawn?
    ensures Accounted(es + [e], Next(s, e), h)
  {
    hide Unhidden, CancelledInTime, FilesOk;
    var t := Next(s, e);
    if h in t.live && t.live[h].phase in {Running, Returned} {
      var id := t.live[h].id;
      UnhiddenStep(es, e, h, id);
      CancelledStep(es, e, h, id);
      if h == e.h {
        NotSpawned(es, s, h, id);
        assert !Reached(t, h) by { NotReached(s, h); }
      }
    }
  }

  lemma NotReached(s: State, h: nat)
    requires FilesOk(s) && h !in s.used
    ensures !Reached(s, h)
  {}

  lemma OwnFile(s: State, h: nat, id: Bytes)
    requires FilesOk(s) && h in s.live && id in s.inflight && s.inflight[id] == h
    ensures s.live[h].id == id
  {}

  lemma AccountedCancel(es: seq<Event>, s: State, e: Event, h: nat)
    requires FilesOk(s) && Accounted(es, s, h) && (e.CloseInflight? || e.CancelRequest?)
    ensures Accounted(es + [e], Next(s, e), h)
  {
    hide Unhidden, CancelledInTime, FilesOk;
    var t := Next(s, e);
    if h in t.live && t.live[h].phase in {Running, Returned} {
      var id := t.live[h].id;
      UnhiddenStep(es, e, h, id);
      CancelledStep(es, e, h, id);
      assert forall x | x in s.inflight && s.inflight[x] == h :: x == id by {
        forall x | x in s.inflight && s.inflight[x] == h ensures x == id { OwnFile(s, h, x); }
      }
    }
  }

  lemma AccountedStep(es: seq<Event>, s: State, e: Event, h: nat)
    requires Spawned(es, s) && FilesOk(s) && Accounted(es, s, h) && Enabled(s, e)
    ensures Accounted(es + [e], Next(s, e), h)
  {
    hide Unhidden, CancelledInTime, FilesOk;
    if e.Spawn? {
      AccountedSpawn(es, s, e, h);
    } else if e.CloseInflight? || e.CancelRequest? {
      AccountedCancel(es, s, e, h);
    } else {
      var t := Next(s, e);
      if h in t.live && t.live[h].phase in {Running, Returned} {
        UnhiddenStep(es, e, h, t.live[h].id);
        CancelledStep(es, e, h, t.live[h].id);
      }
    }
  }

  lemma {:induction false} RunAccounted(es: seq<Event>, fs: seq<Event>, s: State)
    requires IsRun(s, fs) && Spawned(es, s) && FilesOk(s) && forall h :: Accounted(es, s, h)
    ensures forall h :: Accounted(es + fs, After(s, fs), h)
    decreases |fs|
  {
    hide Accounted, Spawned, FilesOk, Enabled, Next;
    if fs == [] {
      assert es + fs == es;
    } else {
      var e := fs[0];
      assert s.live.Keys <= s.used by { UsedAll(es, s); }
      SpawnedStep(es, s, e);
      FilesStep(s, e);
      forall h ensures Accounted(es + [e], Next(s, e), h) { AccountedStep(es, s, e, h); }
      RunAccounted(es + [e], fs[1..], Next(s, e));
      assert es + fs == es + [e] + fs[1..];
    }
  }

  lemma UsedAll(es: seq<Event>, s: State)
    requires Spawned(es, s)
    ensures s.live.Keys <= s.used
  {}

  /** In every run, duplicate identifiers or not: a handler still in its callback is cancelled, or has a
      cancel call under way, if and only if between its spawn and some close or cancel request for its
      identifier no other request with that identifier was spawned and none was removed. Once closed,
      that is so of every handler that was never displaced. */
  lemma CloseReachesExactly(es: seq<Event>, h: nat)
    requires IsRun(Init, es)
    ensures var s := After(Init, es);
      h in s.live && s.live[h].phase in {Running, Returned} ==>
        && (Reached(s, h) <==> CancelledInTime(es, h, s.live[h].id))
        && (s.closed && Unhidden(es, h, s.live[h].id) ==> Reached(s, h))
  {
    hide IsRun, After, Enabled, Next, Unhidden, CancelledInTime;
    assert forall g :: Accounted([], Init, g);
    RunAccounted([], es, Init);
    assert [] + es == es;
    assert Accounted(es, After(Init, es), h);
  }

  /** Two requests with one identifier: the second hides the first, and the close misses it. */
  lemma DuplicateEscapes(id: Bytes)
    requires id != ""
    ensures var es := [Spawn(1, id)] + ([Spawn(2, id)] + ([CloseInflight] + []));
      IsRun(Init, es) && var s := After(Init, es); s.closed && In(s, 1, Running) && !Reached(s, 1)
  {
    hide IsRun, After;
    var s1 := State(false, map[id := 1], 1, map[1 := Handler(id, Running)], {1}, {}, {}, false);
    var s2 := State(false, map[id := 2], 2, map[1 := Handler(id, Running), 2 := Handler(id, Running)], {1, 2}, {},
        {}, false);
    var s3 := s2.(closed := true, cancelling := {2});
    assert Next(Init, Spawn(1, id)) == s1;
    assert Next(s1, Spawn(2, id)) == s2;
    assert id in s2.inflight && s2.inflight[id] == 2 && s2.inflight.Keys == {id};
    assert (set i | i in s2.inflight :: s2.inflight[i]) == {2};
    assert Next(s2, CloseInflight) == s3;
    RunNil(s3);
    RunCons(s2, CloseInflight, []);
    RunCons(s1, Spawn(2, id), [CloseInflight] + []);
    RunCons(Init, Spawn(1, id), [Spawn(2, id)] + ([CloseInflight] + []));
  }

  lemma RunNil(s: State)
    ensures IsRun(s, []) && After(s, []) == s
  {}

  lemma RunCons(s: State, e: Event, es: seq<Event>)
    requires Enabled(s, e) && IsRun(Next(s, e), es)
    ensures IsRun(s, [e] + es) && After(s, [e] + es) == After(Next(s, e), es)
  {
    assert ([e] + es)[1..] == es;
  }
}
