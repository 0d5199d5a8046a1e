/** Which documents `parseDocument` (pkg/toml/value.go) refuses, and with which error, as conditions on
    the earlier statements and the tree they built. */
module TomlRules {
  import opened Text
  import opened TomlTree
  import opened TomlTables
  import opened TomlElements
  import opened TomlStale

  predicate Barred(root: Entries, path: Path) {
    exists i | 0 < i <= |path| :: Find(root, path[..i]).Some? && !Enterable(Find(root, path[..i]).value)
  }

  /** The statements `pre` built the tree `root`; `why` is then a reason to refuse `stmt`. */
  predicate Reason(pre: seq<Stmt>, root: Entries, stmt: Stmt, why: Rejection)
    requires WellFormed(stmt)
  {
    match stmt
    case TableHeader(p) => TableReason(pre, root, p, why)
    case ArrayHeader(p) => ArrayReason(pre, root, p, why)
    case KeyValue(key, _, _) => KeyReason(pre, root, CurrentOf(pre), key, why)
  }

  predicate InsideInline(pre: seq<Stmt>, p: Path) { exists i | 1 <= i <= |p| :: MadeInContext(pre, Closing, p[..i]) }

  predicate TableReason(pre: seq<Stmt>, root: Entries, p: Path, why: Rejection) {
    match why
    case RedefinesArray => ArrayHeader(p) in pre
    case RedefinesDotted => MadeInContext(pre, Dotting, p)
    case ExtendsInline => InsideInline(pre, p)
    case DuplicateTable => MadeInContext(pre, Declaring, p)
    case RedefinesValue => Barred(root, p)
    case _ => false
  }

  predicate ArrayReason(pre: seq<Stmt>, root: Entries, p: Path, why: Rejection)
    requires p != []
  {
    match why
    case RedefinesTable => MadeEver(pre, Declaring, p)
    case RedefinesDotted => MadeInContext(pre, Dotting, p)
    case ExtendsInline => InsideInline(pre, p)
    case RedefinesValue => (Find(root, p).Some? && !Find(root, p).value.Array?) || Blocked(root, p)
    case _ => false
  }

  /** A dotted key may not pass through a declared table or an inline value. */
  predicate KeyReason(pre: seq<Stmt>, root: Entries, current: Path, key: Path, why: Rejection)
    requires key != []
  {
    var full := current + key;
    match why
    case ExtendsExplicit => exists i | |current| < i < |full| :: MadeEver(pre, Declaring, full[..i])
    case ExtendsInline => exists i | |current| < i < |full| :: MadeInContext(pre, Closing, full[..i])
    case RedefinesValue => Current(root, current).Some? && Occupied(Current(root, current).value, key)
    case _ => false
  }

  // ---------------------------------------------------------------- one statement

  lemma RefAnswers(pre: seq<Stmt>, r: Ref, e: Elem, p: Path)
    requires Program(pre) && Traced(pre, r, e) && p != []
    ensures var q := AskRef(r);
      && (q.isArray(p) <==> ArrayHeader(p) in pre)
      && (q.declaredEver(p) <==> MadeEver(pre, Declaring, p))
      && (q.declaredNow(p) <==> MadeInContext(pre, Declaring, p))
      && (q.dottedNow(p) <==> MadeInContext(pre, Dotting, p))
      && (q.closedNow(p) <==> MadeInContext(pre, Closing, p))
  {
    hide HistoryOf, RecordsOf, Skeleton, MadeInContext, MadeEver, ContextOf;
    NowMeans(pre, Declaring, r.declared, p);
    NowMeans(pre, Dotting, r.dotted, p);
    NowMeans(pre, Closing, r.closed, p);
  }

  lemma PrefixAnswers(pre: seq<Stmt>, r: Ref, e: Elem, p: Path)
    requires Program(pre) && Traced(pre, r, e)
    ensures ClosedPrefix(AskRef(r), p) <==> InsideInline(pre, p)
  {
    hide Traced, AskRef, MadeInContext;
    forall i | 1 <= i <= |p| ensures AskRef(r).closedNow(p[..i]) <==> MadeInContext(pre, Closing, p[..i]) {
      RefAnswers(pre, r, e, p[..i]);
    }
  }

  ghost predicate Judged(pre: seq<Stmt>, r: Ref, stmt: Stmt)
    requires WellFormed(stmt)
  {
    && (StepRef(r, stmt).Ok? <==> forall why :: !Reason(pre, r.root, stmt, why))
    && (StepRef(r, stmt).Rejected? ==> Reason(pre, r.root, stmt, StepRef(r, stmt).why))
  }

  lemma TableJudged(pre: seq<Stmt>, r: Ref, e: Elem, p: Path)
    requires Program(pre) && Traced(pre, r, e) && p != []
    ensures Judged(pre, r, TableHeader(p))
  {
    hide Traced, AskRef, MadeInContext, ClosedPrefix, InsideInline, RecordAll, EnsureTable, Barred;
    RefAnswers(pre, r, e, p);
    PrefixAnswers(pre, r, e, p);
    assert EnsureTable(r.root, p).None? <==> Barred(r.root, p) by { BarredFails(r.root, p); }
    TableCases(pre, r.root, p);
  }

  lemma BarredFails(root: Entries, p: Path)
    ensures EnsureTable(root, p).None? <==> Barred(root, p)
  {
    EnsureTableFails(root, p);
  }

  lemma TableCases(pre: seq<Stmt>, root: Entries, p: Path)
    requires p != []
    ensures (forall why :: !Reason(pre, root, TableHeader(p), why)) <==>
            && ArrayHeader(p) !in pre && !MadeInContext(pre, Dotting, p) && !InsideInline(pre, p)
            && !MadeInContext(pre, Declaring, p) && !Barred(root, p)
  {
    hide MadeInContext, InsideInline, Barred;
    var t := TableHeader(p);
    assert Reason(pre, root, t, RedefinesArray) <==> ArrayHeader(p) in pre;
    assert Reason(pre, root, t, RedefinesDotted) <==> MadeInContext(pre, Dotting, p);
    assert Reason(pre, root, t, ExtendsInline) <==> InsideInline(pre, p);
    assert Reason(pre, root, t, DuplicateTable) <==> MadeInContext(pre, Declaring, p);
    assert Reason(pre, root, t, RedefinesValue) <==> Barred(root, p);
  }

  lemma ArrayJudged(pre: seq<Stmt>, r: Ref, e: Elem, p: Path)
    requires Program(pre) && Traced(pre, r, e) && p != []
    ensures Judged(pre, r, ArrayHeader(p))
  {
    hide Traced, AskRef, MadeInContext, MadeEver, ClosedPrefix, InsideInline, RecordAll, AppendArrayTable, Find,
      Blocked;
    RefAnswers(pre, r, e, p);
    PrefixAnswers(pre, r, e, p);
    AppendArrayTableFails(r.root, p);
    var t := ArrayHeader(p);
    assert Reason(pre, r.root, t, RedefinesTable) <==> MadeEver(pre, Declaring, p);
    assert Reason(pre, r.root, t, RedefinesDotted) <==> MadeInContext(pre, Dotting, p);
    assert Reason(pre, r.root, t, ExtendsInline) <==> InsideInline(pre, p);
    assert Reason(pre, r.root, t, RedefinesValue) <==> AppendArrayTable(r.root, p).None?;
  }

  /** The walk over the prefixes of a dotted key stops at the first offending one. */
  lemma {:induction false} DottedJudged(pre: seq<Stmt>, r: Ref, e: Elem, full: Path, from: nat)
    requires Program(pre) && Traced(pre, r, e) && 0 < from
    ensures var out := CheckDotted(AskRef(r), full, from);
      && (out.None? <==> forall i | from <= i < |full| ::
            !MadeEver(pre, Declaring, full[..i]) && !MadeInContext(pre, Closing, full[..i]))
      && (out == Some(ExtendsExplicit) ==> exists i | from <= i < |full| :: MadeEver(pre, Declaring, full[..i]))
      && (out == Some(ExtendsInline) ==> exists i | from <= i < |full| :: MadeInContext(pre, Closing, full[..i]))
      && (out.Some? ==> out.value in {ExtendsExplicit, ExtendsInline})
    decreases |full| - from
  {
    hide Traced, AskRef, MadeInContext, MadeEver;
    if from < |full| {
      RefAnswers(pre, r, e, full[..from]);
      DottedJudged(pre, r, e, full, from + 1);
    }
  }

  lemma KeyJudged(pre: seq<Stmt>, r: Ref, e: Elem, stmt: Stmt)
    requires Program(pre) && Traced(pre, r, e) && stmt.KeyValue? && WellFormed(stmt)
    requires Current(r.root, r.current).Some?
    ensures Judged(pre, r, stmt)
  {
    hide Traced, AskRef, MadeInContext, MadeEver, RecordAll, AssignUnder, Occupied, Current, CheckDotted,
      DottedPrefixes;
    assert r.current == CurrentOf(pre) by { CurrentRead(pre, r, e); }
    var full := r.current + stmt.key;
    DottedJudged(pre, r, e, full, |r.current| + 1);
    AssignUnderFails(r.root, r.current, stmt.key, stmt.value);
    KeyCases(pre, r.root, r.current, stmt.key);
    assert forall why :: Reason(pre, r.root, stmt, why) == KeyReason(pre, r.root, r.current, stmt.key, why);
    var out := CheckKey(AskRef(r), r.current, stmt.key);
    assert out == CheckDotted(AskRef(r), full, |r.current| + 1) by { ShortKey(AskRef(r), r.current, stmt.key); }
  }

  /** A key of one segment passes through nothing. */
  lemma ShortKey(q: Queries, current: Path, key: Path)
    requires key != []
    ensures CheckKey(q, current, key) == CheckDotted(q, current + key, |current| + 1)
  {}

  lemma CurrentRead(pre: seq<Stmt>, r: Ref, e: Elem)
    requires Program(pre) && Traced(pre, r, e)
    ensures r.current == CurrentOf(pre)
  {}

  lemma KeyCases(pre: seq<Stmt>, root: Entries, current: Path, key: Path)
    requires key != [] && Current(root, current).Some?
    ensures (forall why :: !KeyReason(pre, root, current, key, why)) <==>
            && (forall i | |current| < i < |current + key| ::
                  !MadeEver(pre, Declaring, (current + key)[..i]) && !MadeInContext(pre, Closing, (current + key)[..i]))
            && !Occupied(Current(root, current).value, key)
  {
    hide MadeInContext, MadeEver, Occupied, Current;
    var full := current + key;
    assert KeyReason(pre, root, current, key, ExtendsExplicit)
      <==> exists i | |current| < i < |full| :: MadeEver(pre, Declaring, full[..i]);
    assert KeyReason(pre, root, current, key, ExtendsInline)
      <==> exists i | |current| < i < |full| :: MadeInContext(pre, Closing, full[..i]);
    assert KeyReason(pre, root, current, key, RedefinesValue) <==> Occupied(Current(root, current).value, key);
  }

  lemma StepJudged(pre: seq<Stmt>, r: Ref, e: Elem, stmt: Stmt)
    requires Program(pre) && Traced(pre, r, e) && WellFormed(stmt) && Current(r.root, r.current).Some?
    ensures Judged(pre, r, stmt)
  {
    hide Traced, Judged;
    match stmt {
      case TableHeader(p) => TableJudged(pre, r, e, p);
      case ArrayHeader(p) => ArrayJudged(pre, r, e, p);
      case KeyValue(_, _, _) => KeyJudged(pre, r, e, stmt);
    }
  }

  // ---------------------------------------------------------------- whole documents

  predicate Readable(stmts: seq<Stmt>) {
    Program(stmts) && forall i | 0 <= i < |stmts| :: StmtNulFree(stmts[i])
  }

  /** The three machines side by side after an accepted document. */
  lemma {:induction false} RunTraced(pre: seq<Stmt>, s: State, r: Ref, e: Elem, stmts: seq<Stmt>)
    returns (r2: Ref, e2: Elem)
    requires Program(pre) && Readable(stmts) && Match(s, r) && Joint(r, e) && Traced(pre, r, e) && HasCurrent(s)
    requires Run(s, stmts).Ok?
    ensures Program(pre + stmts) && Match(Run(s, stmts).st, r2) && Joint(r2, e2) && Traced(pre + stmts, r2, e2)
    ensures HasCurrent(Run(s, stmts).st)
    decreases |stmts|
  {
    hide Match, Joint, Traced, HasCurrent, Step, StepRef, StepElem, StmtNulFree, StaleAt;
    if stmts == [] {
      r2, e2 := r, e;
      assert pre + stmts == pre;
    } else {
      var x := stmts[0];
      StepMatches(s, r, x);
      StepGrows(s, x);
      ElementStep(pre, r, e, x);
      assert StepRef(r, x).Ok? by { OutcomesAlike(s, r, x); }
      r2, e2 := RunTraced(pre + [x], Step(s, x).st, StepRef(r, x).st, StepElem(e, x).st, stmts[1..]);
      assert pre + [x] + stmts[1..] == pre + stmts;
    }
  }

  lemma OutcomesAlike(s: State, r: Ref, x: Stmt)
    requires WellFormed(x) && SameOutcome(Step(s, x), StepRef(r, x))
    ensures Step(s, x).Ok? <==> StepRef(r, x).Ok?
    ensures Step(s, x).Rejected? ==> StepRef(r, x) == Rejected(Step(s, x).why)
  {}

  /** After any accepted document the next statement is accepted exactly if there is no reason against
      it, and the error names a reason. */
  lemma NextJudged(stmts: seq<Stmt>, x: Stmt)
    requires Readable(stmts) && WellFormed(x) && StmtNulFree(x) && Run(Empty, stmts).Ok?
    ensures var s := Run(Empty, stmts).st;
      && (Step(s, x).Ok? <==> forall why :: !Reason(stmts, s.root, x, why))
      && (Step(s, x).Rejected? ==> Reason(stmts, s.root, x, Step(s, x).why))
  {
    hide Match, Joint, Traced, Step, StepRef, Run, Reason, SameOutcome;
    assert Match(Empty, EmptyRef) && Joint(EmptyRef, EmptyElem) && HasCurrent(Empty) by { EmptyStates(); }
    assert Traced([], EmptyRef, EmptyElem) by { EmptyStates(); }
    var s := Run(Empty, stmts).st;
    var r, e := RunTraced([], Empty, EmptyRef, EmptyElem, stmts);
    assert [] + stmts == stmts;
    StepMatches(s, r, x);
    OutcomesAlike(s, r, x);
    MatchedRoots(s, r);
    StepJudged(stmts, r, e, x);
  }

  lemma EmptyStates()
    ensures Match(Empty, EmptyRef) && Joint(EmptyRef, EmptyElem) && HasCurrent(Empty)
    ensures Traced([], EmptyRef, EmptyElem)
  {}

  lemma MatchedRoots(s: State, r: Ref)
    requires Match(s, r)
    ensures s.root == r.root && s.current == r.current
  {}

  lemma {:induction false} RunLast(s: State, stmts: seq<Stmt>, x: Stmt)
    requires Program(stmts) && WellFormed(x)
    ensures Program(stmts + [x])
    ensures Run(s, stmts + [x]) == if Run(s, stmts).Ok? then Step(Run(s, stmts).st, x) else Run(s, stmts)
    decreases |stmts|
  {
    hide Step;
    if stmts == [] {
      assert (stmts + [x])[1..] == [];
    } else {
      assert (stmts + [x])[1..] == stmts[1..] + [x];
      if Step(s, stmts[0]).Ok? { RunLast(Step(s, stmts[0]).st, stmts[1..], x); }
    }
  }

  /** The statements before `i` are accepted and `why` is a reason against statement `i`. */
  ghost predicate RefusedAt(stmts: seq<Stmt>, i: nat, why: Rejection)
    requires Program(stmts) && i < |stmts|
  {
    Run(Empty, stmts[..i]).Ok? && Reason(stmts[..i], Run(Empty, stmts[..i]).st.root, stmts[i], why)
  }

  /** A document is accepted exactly if there is no reason against any of its statements; otherwise the
      error is a reason against one of them. */
  lemma {:induction false} RefusedExactly(stmts: seq<Stmt>)
    requires Readable(stmts)
    ensures Run(Empty, stmts).Ok? <==> forall i, why | 0 <= i < |stmts| :: !RefusedAt(stmts, i, why)
    ensures Run(Empty, stmts).Rejected? ==> exists i | 0 <= i < |stmts| :: RefusedAt(stmts, i, Run(Empty, stmts).why)
    decreases |stmts|
  {
    hide Run, Step, Reason, StmtNulFree;
    if stmts == [] {
      assert Run(Empty, stmts) == Ok(Empty) by { RunNone(stmts); }
    } else {
      var n := |stmts| - 1;
      var front, x := stmts[..n], stmts[n];
      assert stmts == front + [x];
      RefusedExactly(front);
      RunLast(Empty, front, x);
      forall i | 0 <= i < n ensures front[..i] == stmts[..i] && front[i] == stmts[i] {}
      assert forall i, why | 0 <= i < n :: RefusedAt(front, i, why) == RefusedAt(stmts, i, why);
      if Run(Empty, front).Ok? {
        NextJudged(front, x);
        assert forall why :: RefusedAt(stmts, n, why) <==> Reason(front, Run(Empty, front).st.root, x, why);
      }
    }
  }

  lemma RunNone(stmts: seq<Stmt>)
    requires stmts == []
    ensures Run(Empty, stmts) == Ok(Empty)
  {}
}
