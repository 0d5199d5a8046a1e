/** Which documents `parseDocument` (pkg/toml/value.go) refuses although every array-of-tables element is
    well formed by itself, as a property of the list of statements: a header or key falls under a record
    of its path that a later array header on the way to the path has left behind in another element. */
module TomlStale {
  import opened Text
  import opened TomlTree
  import opened TomlTables
  import opened TomlElements

  // ---------------------------------------------------------------- statements and their records

  /** The table that keys belong to after the statements. */
  function CurrentOf(pre: seq<Stmt>): Path {
    if pre == [] then [] else
      match pre[|pre| - 1]
      case TableHeader(p) => p
      case ArrayHeader(p) => p
      case KeyValue(_, _, _) => CurrentOf(pre[..|pre| - 1])
  }

  datatype Sort = Declaring | Dotting | Closing

  /** The paths that statement `k` records: a table header declares its path, a dotted key writes through
      its prefixes, an inline value closes its containers. */
  function Marked(pre: seq<Stmt>, k: nat, sort: Sort): seq<Path>
    requires k < |pre|
  {
    match (sort, pre[k])
    case (Declaring, TableHeader(p)) => [p]
    case (Dotting, KeyValue(key, _, _)) => DottedPrefixes(CurrentOf(pre[..k]) + key, |CurrentOf(pre[..k])| + 1)
    case (Closing, KeyValue(_, _, visit)) => visit
    case _ => []
  }

  predicate Makes(pre: seq<Stmt>, k: nat, sort: Sort, p: Path)
    requires k < |pre|
  {
    p in Marked(pre, k, sort)
  }

  /** The statement opens a new element on the way to `p`. */
  predicate Passes(stmt: Stmt, p: Path) { stmt.ArrayHeader? && stmt.path <= p }

  /** Since statement `k` no new element was opened on the way to `p`. */
  predicate Untouched(pre: seq<Stmt>, k: nat, p: Path) { forall j | k <= j < |pre| :: !Passes(pre[j], p) }

  /** Statement `j` opens an element on the way to `p`, and no longer prefix of `p` was an array before. */
  predicate Renews(pre: seq<Stmt>, j: nat, p: Path)
    requires j < |pre|
  {
    Passes(pre[j], p) && forall m | |pre[j].path| < m <= |p| :: ArrayHeader(p[..m]) !in pre[..j]
  }

  predicate SameContext(pre: seq<Stmt>, k: nat, p: Path) { forall j | k <= j < |pre| :: !Renews(pre, j, p) }

  // ---------------------------------------------------------------- stale records

  predicate MadeEver(pre: seq<Stmt>, sort: Sort, p: Path) { exists k | 0 <= k < |pre| :: Makes(pre, k, sort, p) }

  predicate MadeHere(pre: seq<Stmt>, sort: Sort, p: Path) {
    exists k | 0 <= k < |pre| :: Makes(pre, k, sort, p) && Untouched(pre, k, p)
  }

  predicate MadeInContext(pre: seq<Stmt>, sort: Sort, p: Path) {
    exists k | 0 <= k < |pre| :: Makes(pre, k, sort, p) && SameContext(pre, k, p)
  }

  /** Recorded, and behind every record a new element was opened on the way. */
  predicate StaleEver(pre: seq<Stmt>, sort: Sort, p: Path) { MadeEver(pre, sort, p) && !MadeHere(pre, sort, p) }

  /** The same, and the source's context does not show it: every new element since some record was opened
      above an array that stood on the path before. */
  predicate StaleNow(pre: seq<Stmt>, sort: Sort, p: Path) { MadeInContext(pre, sort, p) && !MadeHere(pre, sort, p) }

  /** The array was opened, and behind every opening a new element around it. */
  predicate StaleOpening(pre: seq<Stmt>, p: Path) { ArrayHeader(p) in pre && !OpenedHere(pre, p) }

  predicate OpenedHere(pre: seq<Stmt>, p: Path) {
    p != [] && exists k | 0 <= k < |pre| :: pre[k] == ArrayHeader(p) && Untouched(pre, k, p[..|p| - 1])
  }

  /** After the statements `pre`, `stmt` falls under a stale record. */
  predicate StaleAt(pre: seq<Stmt>, stmt: Stmt) {
    match stmt
    case TableHeader(p) =>
      || StaleOpening(pre, p) || StaleNow(pre, Dotting, p) || StaleNow(pre, Declaring, p)
      || exists i | 1 <= i <= |p| :: StaleNow(pre, Closing, p[..i])
    case ArrayHeader(p) =>
      || StaleEver(pre, Declaring, p) || StaleNow(pre, Dotting, p)
      || exists i | 1 <= i <= |p| :: StaleNow(pre, Closing, p[..i])
    case KeyValue(key, _, _) =>
      var current := CurrentOf(pre);
      |key| > 1 && StaleKey(pre, current + key, |current| + 1)
  }

  predicate StaleKey(pre: seq<Stmt>, full: Path, from: nat) {
    exists i | from <= i < |full| :: StaleEver(pre, Declaring, full[..i]) || StaleNow(pre, Closing, full[..i])
  }

  // ---------------------------------------------------------------- elements after a list of statements

  /** Epochs and openings after the statements. */
  function Skeleton(pre: seq<Stmt>): Elem
    requires Program(pre)
  {
    if pre == [] then EmptyElem else
      var last := pre[|pre| - 1];
      if last.ArrayHeader? then Open(Skeleton(pre[..|pre| - 1]), last.path) else Skeleton(pre[..|pre| - 1])
  }

  lemma {:induction false} SkeletonEpochs(pre: seq<Stmt>, q: Path)
    requires Program(pre)
    ensures q in Skeleton(pre).epochs <==> ArrayHeader(q) in pre
    ensures q in Skeleton(pre).epochs ==> Skeleton(pre).epochs[q] > 0
  {
    hide PlaceFrom;
    if pre != [] {
      SkeletonEpochs(pre[..|pre| - 1], q);
      assert pre == pre[..|pre| - 1] + [pre[|pre| - 1]];
    }
  }

  lemma {:induction false} ReachedLater(pre: seq<Stmt>, k: nat, p: Path, i: nat)
    requires Program(pre) && k <= |pre| && i <= |p|
    ensures Reached(Skeleton(pre).epochs, p, PlaceFrom(Skeleton(pre[..k]), p, i))
    decreases |pre|
  {
    hide Reached, PlaceFrom;
    if k == |pre| {
      assert pre[..k] == pre;
      PresentReached(Skeleton(pre), p, i);
    } else {
      var front, last := pre[..|pre| - 1], pre[|pre| - 1];
      ReachedLater(front, k, p, i);
      assert front[..k] == pre[..k];
      if last.ArrayHeader? { StaysReached(Skeleton(front).epochs, last.path, p, PlaceFrom(Skeleton(pre[..k]), p, i)); }
    }
  }

  lemma NotOnTheWay(q: Path, p: Path, i: nat)
    requires i <= |p| && !(q <= p[..i])
    ensures forall k | 0 < k <= i :: p[..k] != q
  {
    forall k | 0 < k <= i ensures p[..k] != q { assert p[..i][..k] == p[..k]; }
  }

  /** A path is in the elements it was in at statement `k` exactly if none was opened on the way since. */
  lemma {:induction false} PlaceKept(pre: seq<Stmt>, k: nat, p: Path, i: nat)
    requires Program(pre) && k <= |pre| && i <= |p|
    ensures PlaceFrom(Skeleton(pre), p, i) == PlaceFrom(Skeleton(pre[..k]), p, i) <==> Untouched(pre, k, p[..i])
    decreases |pre|
  {
    hide PlaceFrom, Reached;
    if k == |pre| {
      assert pre[..k] == pre;
    } else {
      var front, last := pre[..|pre| - 1], pre[|pre| - 1];
      assert front[..k] == pre[..k] && pre == front + [last];
      PlaceKept(front, k, p, i);
      UntouchedLast(front, last, k, p[..i]);
      if last.ArrayHeader? {
        if last.path <= p[..i] {
          assert p[..|last.path|] == p[..i][..|last.path|] == last.path;
          InNewElement(Skeleton(front), last.path, p, i);
          ReachedLater(front, k, p, i);
          NewNotReached(Skeleton(front), last.path, p, PlaceFrom(Skeleton(pre[..k]), p, i));
        } else {
          NotOnTheWay(last.path, p, i);
          ElsewhereKept(Skeleton(front), last.path, p, i);
        }
      }
    }
  }

  lemma UntouchedLast(front: seq<Stmt>, last: Stmt, k: nat, p: Path)
    requires k <= |front|
    ensures Untouched(front + [last], k, p) <==> Untouched(front, k, p) && !Passes(last, p)
  {
    hide Passes;
    var pre := front + [last];
    assert pre[|front|] == last && forall j | 0 <= j < |front| :: pre[j] == front[j];
  }

  lemma {:induction false} EpochsLater(pre: seq<Stmt>, k: nat)
    requires Program(pre) && k <= |pre|
    ensures EpochsAdvance(Skeleton(pre[..k]).epochs, Skeleton(pre).epochs)
    decreases |pre|
  {
    hide PlaceFrom;
    if k == |pre| {
      assert pre[..k] == pre;
    } else {
      EpochsLater(pre[..|pre| - 1], k);
      assert pre[..|pre| - 1][..k] == pre[..k];
    }
  }

  /** With an array on a longer prefix, a new element further out does not show in the context. */
  lemma {:induction false} ContextHidden(epochs: Epochs, q: Path, n: nat, p: Path, m: nat, i: nat)
    requires |q| < m <= i <= |p| && p[..m] in epochs && epochs[p[..m]] > 0
    ensures ContextFrom(epochs[q := n], p, i) == ContextFrom(epochs, p, i)
    decreases i
  {
    assert p[..i] != q;
    if i > m { ContextHidden(epochs, q, n, p, m, i - 1); }
  }

  lemma {:induction false} ContextShown(epochs: Epochs, q: Path, n: nat, p: Path, i: nat)
    requires 0 < |q| <= i <= |p| && p[..|q|] == q && n > 0 && forall m | |q| < m <= i :: p[..m] !in epochs
    ensures ContextFrom(epochs[q := n], p, i) == Element(|q|, n)
    ensures ContextFrom(epochs, p, i) == ContextFrom(epochs, p, |q|)
    decreases i
  {
    if i > |q| {
      assert p[..i] != q;
      ContextShown(epochs, q, n, p, i - 1);
    }
  }

  /** The context at statement `k` is not the new one. */
  lemma ContextNew(before: Epochs, epochs: Epochs, q: Path, p: Path)
    requires EpochsAdvance(before, epochs) && 0 < |q| <= |p| && p[..|q|] == q
    requires forall m | |q| < m <= |p| :: p[..m] !in epochs
    ensures ContextOf(before, p) != Element(|q|, NextEpoch(epochs, q))
  {
    hide ContextFrom;
    ContextAdvances(before, epochs, p, |p|);
    ContextShown(epochs, q, NextEpoch(epochs, q), p, |p|);
    assert ContextFrom(epochs, p, |q|).Element? && ContextFrom(epochs, p, |q|).depth == |q|
      ==> q in epochs && ContextFrom(epochs, p, |q|).epoch == epochs[q] by { ContextTop(epochs, p, |q|); }
  }

  lemma ContextTop(epochs: Epochs, p: Path, i: nat)
    requires 0 < i <= |p|
    ensures var c := ContextFrom(epochs, p, i);
      c.Element? && c.depth == i ==> p[..i] in epochs && c.epoch == epochs[p[..i]]
  {}

  lemma SameContextLast(front: seq<Stmt>, last: Stmt, k: nat, p: Path)
    requires k <= |front|
    ensures SameContext(front + [last], k, p) <==> SameContext(front, k, p) && !Renews(front + [last], |front|, p)
  {
    hide Renews;
    var pre := front + [last];
    forall j | 0 <= j < |front| ensures Renews(pre, j, p) == Renews(front, j, p) { RenewsEarlier(front, last, j, p); }
  }

  lemma RenewsEarlier(front: seq<Stmt>, last: Stmt, j: nat, p: Path)
    requires j < |front|
    ensures Renews(front + [last], j, p) == Renews(front, j, p)
  {
    assert (front + [last])[j] == front[j] && (front + [last])[..j] == front[..j];
  }

  lemma ContextStep(front: seq<Stmt>, last: Stmt, k: nat, p: Path)
    requires Program(front + [last]) && Program(front) && k <= |front| && last.ArrayHeader?
    ensures var e, f := Skeleton(front).epochs, Skeleton(front + [last]).epochs;
      if Renews(front + [last], |front|, p) then ContextOf(f, p) != ContextOf(Skeleton(front[..k]).epochs, p)
      else ContextOf(f, p) == ContextOf(e, p)
  {
    hide ContextFrom, PlaceFrom;
    var pre, q := front + [last], last.path;
    var e := Skeleton(front).epochs;
    assert pre[..|front|] == front && pre[|front|] == last;
    assert Skeleton(pre).epochs == e[q := NextEpoch(e, q)];
    if !(q <= p) {
      assert p[..|p|] == p;
      NotOnTheWay(q, p, |p|);
      ElsewhereKept(Skeleton(front), q, p, |p|);
    } else if m :| |q| < m <= |p| && ArrayHeader(p[..m]) in front {
      SkeletonEpochs(front, p[..m]);
      ContextHidden(e, q, NextEpoch(e, q), p, m, |p|);
    } else {
      forall m | |q| < m <= |p| ensures p[..m] !in e { SkeletonEpochs(front, p[..m]); }
      ContextShown(e, q, NextEpoch(e, q), p, |p|);
      EpochsLater(front, k);
      ContextNew(Skeleton(front[..k]).epochs, e, q, p);
    }
  }

  /** The source's context of a path is the one it was at statement `k` exactly if none renewed it. */
  lemma {:induction false} ContextKept(pre: seq<Stmt>, k: nat, p: Path)
    requires Program(pre) && k <= |pre|
    ensures ContextOf(Skeleton(pre).epochs, p) == ContextOf(Skeleton(pre[..k]).epochs, p) <==> SameContext(pre, k, p)
    decreases |pre|
  {
    hide ContextFrom, PlaceFrom, Renews;
    if k == |pre| {
      assert pre[..k] == pre;
    } else {
      var front, last := pre[..|pre| - 1], pre[|pre| - 1];
      assert front[..k] == pre[..k] && pre == front + [last];
      ContextKept(front, k, p);
      SameContextLast(front, last, k, p);
      if last.ArrayHeader? {
        ContextStep(front, last, k, p);
      } else {
        NoRenewal(front, last, p);
      }
    }
  }

  lemma NoRenewal(front: seq<Stmt>, last: Stmt, p: Path)
    requires !last.ArrayHeader?
    ensures !Renews(front + [last], |front|, p)
  {}

  // ---------------------------------------------------------------- records of a run, by statement

  lemma {:induction false} RecordedPaths(epochs: Epochs, h: History, paths: seq<Path>, x: (Path, Context))
    ensures x in RecordAll(epochs, h, paths) <==> x in h || (x.0 in paths && x.1 == ContextOf(epochs, x.0))
  {
    hide ContextOf;
    if paths != [] {
      RecordedPaths(epochs, h, paths[..|paths| - 1], x);
      assert paths == paths[..|paths| - 1] + [paths[|paths| - 1]];
    }
  }

  lemma {:induction false} RecordedHere(e: Elem, h: Records, paths: seq<Path>, x: (Path, Place))
    ensures x in RecordHere(e, h, paths) <==> x in h || (x.0 in paths && x.1 == PlaceOf(e, x.0))
  {
    hide PlaceOf;
    if paths != [] {
      RecordedHere(e, h, paths[..|paths| - 1], x);
      assert paths == paths[..|paths| - 1] + [paths[|paths| - 1]];
    }
  }

  /** The history holds what the statements recorded, each with its context at the time. */
  ghost predicate HistoryOf(pre: seq<Stmt>, sort: Sort, h: History)
    requires Program(pre)
  {
    forall x :: x in h <==>
      exists k | 0 <= k < |pre| :: Makes(pre, k, sort, x.0) && x.1 == ContextOf(Skeleton(pre[..k]).epochs, x.0)
  }

  /** The records hold the same, each with the elements around it at the time. */
  ghost predicate RecordsOf(pre: seq<Stmt>, sort: Sort, h: Records)
    requires Program(pre)
  {
    forall x :: x in h <==>
      exists k | 0 <= k < |pre| :: Makes(pre, k, sort, x.0) && x.1 == PlaceOf(Skeleton(pre[..k]), x.0)
  }

  ghost predicate Traced(pre: seq<Stmt>, r: Ref, e: Elem)
    requires Program(pre)
  {
    && r.current == e.current == CurrentOf(pre)
    && r.epochs == e.epochs == Skeleton(pre).epochs && e.openings == Skeleton(pre).openings
    && (forall p :: p in r.arrays <==> ArrayHeader(p) in pre)
    && HistoryOf(pre, Declaring, r.declared) && RecordsOf(pre, Declaring, e.declared)
    && HistoryOf(pre, Dotting, r.dotted) && RecordsOf(pre, Dotting, e.dotted)
    && HistoryOf(pre, Closing, r.closed) && RecordsOf(pre, Closing, e.closed)
  }

  lemma MakesEarlier(pre: seq<Stmt>, stmt: Stmt, k: nat, sort: Sort, p: Path)
    requires k < |pre|
    ensures Makes(pre + [stmt], k, sort, p) == Makes(pre, k, sort, p)
  {
    assert (pre + [stmt])[k] == pre[k] && (pre + [stmt])[..k] == pre[..k];
  }

  lemma ProgramFront(pre: seq<Stmt>, stmt: Stmt)
    requires Program(pre) && WellFormed(stmt)
    ensures Program(pre + [stmt]) && (pre + [stmt])[..|pre|] == pre
    ensures forall k | 0 <= k <= |pre| :: (pre + [stmt])[..k] == pre[..k] && Program(pre[..k])
  {}

  lemma HistoryStep(pre: seq<Stmt>, stmt: Stmt, sort: Sort, h: History)
    requires Program(pre) && WellFormed(stmt) && Program(pre + [stmt]) && HistoryOf(pre, sort, h)
    ensures HistoryOf(pre + [stmt], sort, RecordAll(Skeleton(pre).epochs, h, Marked(pre + [stmt], |pre|, sort)))
  {
    hide ContextOf, Skeleton, RecordAll, Marked, Makes;
    var all := pre + [stmt];
    ProgramFront(pre, stmt);
    forall x ensures x in RecordAll(Skeleton(pre).epochs, h, Marked(all, |pre|, sort)) <==>
      exists k | 0 <= k < |all| :: Makes(all, k, sort, x.0) && x.1 == ContextOf(Skeleton(all[..k]).epochs, x.0)
    {
      RecordedPaths(Skeleton(pre).epochs, h, Marked(all, |pre|, sort), x);
      assert Makes(all, |pre|, sort, x.0) <==> x.0 in Marked(all, |pre|, sort) by { MakesLast(all, |pre|, sort, x.0); }
      forall k | 0 <= k < |pre| ensures Makes(all, k, sort, x.0) == Makes(pre, k, sort, x.0) {
        MakesEarlier(pre, stmt, k, sort, x.0);
      }
      if k :| 0 <= k < |pre| && Makes(pre, k, sort, x.0) && x.1 == ContextOf(Skeleton(pre[..k]).epochs, x.0) {
        assert Makes(all, k, sort, x.0) && x.1 == ContextOf(Skeleton(all[..k]).epochs, x.0);
      }
      if Makes(all, |pre|, sort, x.0) && x.1 == ContextOf(Skeleton(pre).epochs, x.0) {
        assert all[..|pre|] == pre;
      }
    }
  }

  lemma MakesLast(pre: seq<Stmt>, k: nat, sort: Sort, p: Path)
    requires k < |pre|
    ensures Makes(pre, k, sort, p) <==> p in Marked(pre, k, sort)
  {}

  lemma RecordsStep(pre: seq<Stmt>, stmt: Stmt, sort: Sort, h: Records)
    requires Program(pre) && WellFormed(stmt) && Program(pre + [stmt]) && RecordsOf(pre, sort, h)
    ensures RecordsOf(pre + [stmt], sort, RecordHere(Skeleton(pre), h, Marked(pre + [stmt], |pre|, sort)))
  {
    hide PlaceOf, Skeleton, RecordHere, Marked, Makes;
    var all := pre + [stmt];
    ProgramFront(pre, stmt);
    forall x ensures x in RecordHere(Skeleton(pre), h, Marked(all, |pre|, sort)) <==>
      exists k | 0 <= k < |all| :: Makes(all, k, sort, x.0) && x.1 == PlaceOf(Skeleton(all[..k]), x.0)
    {
      RecordedHere(Skeleton(pre), h, Marked(all, |pre|, sort), x);
      assert Makes(all, |pre|, sort, x.0) <==> x.0 in Marked(all, |pre|, sort) by { MakesLast(all, |pre|, sort, x.0); }
      forall k | 0 <= k < |pre| ensures Makes(all, k, sort, x.0) == Makes(pre, k, sort, x.0) {
        MakesEarlier(pre, stmt, k, sort, x.0);
      }
      if k :| 0 <= k < |pre| && Makes(pre, k, sort, x.0) && x.1 == PlaceOf(Skeleton(pre[..k]), x.0) {
        assert Makes(all, k, sort, x.0) && x.1 == PlaceOf(Skeleton(all[..k]), x.0);
      }
      if Makes(all, |pre|, sort, x.0) && x.1 == PlaceOf(Skeleton(pre), x.0) {
        assert all[..|pre|] == pre;
      }
    }
  }

  lemma {:induction false} SameRecords(e: Elem, f: Elem, h: Records, paths: seq<Path>)
    requires e.epochs == f.epochs && e.openings == f.openings
    ensures RecordHere(e, h, paths) == RecordHere(f, h, paths)
  {
    if paths != [] {
      var last := paths[|paths| - 1];
      SameRecords(e, f, h, paths[..|paths| - 1]);
      SamePlace(e, f, last, |last|);
    }
  }

  lemma BothSteps(pre: seq<Stmt>, stmt: Stmt, sort: Sort, h: History, e: Elem, g: Records)
    requires Program(pre) && WellFormed(stmt) && Program(pre + [stmt]) && HistoryOf(pre, sort, h)
    requires RecordsOf(pre, sort, g)
    requires e.epochs == Skeleton(pre).epochs && e.openings == Skeleton(pre).openings
    ensures var marked := Marked(pre + [stmt], |pre|, sort);
      && HistoryOf(pre + [stmt], sort, RecordAll(e.epochs, h, marked))
      && RecordsOf(pre + [stmt], sort, RecordHere(e, g, marked))
  {
    hide HistoryOf, RecordsOf, RecordAll, RecordHere, Skeleton, Marked;
    HistoryStep(pre, stmt, sort, h);
    RecordsStep(pre, stmt, sort, g);
    SameRecords(e, Skeleton(pre), g, Marked(pre + [stmt], |pre|, sort));
  }

  lemma SameOpen(e: Elem, f: Elem, p: Path)
    requires p != [] && e.epochs == f.epochs && e.openings == f.openings
    ensures Open(e, p).epochs == Open(f, p).epochs && Open(e, p).openings == Open(f, p).openings
  {
    SamePlace(e, f, p, |p| - 1);
  }

  lemma RecordNone(e: Elem, h: History, g: Records)
    ensures RecordAll(e.epochs, h, []) == h && RecordHere(e, g, []) == g
  {}

  lemma LastMarked(pre: seq<Stmt>, stmt: Stmt)
    ensures var all, current := pre + [stmt], CurrentOf(pre);
      && CurrentOf(all) == (if stmt.KeyValue? then current else stmt.path)
      && Marked(all, |pre|, Declaring) == (if stmt.TableHeader? then [stmt.path] else [])
      && Marked(all, |pre|, Dotting)
         == (if stmt.KeyValue? then DottedPrefixes(current + stmt.key, |current| + 1) else [])
      && Marked(all, |pre|, Closing) == (if stmt.KeyValue? then stmt.visit else [])
  {
    hide DottedPrefixes;
    var all := pre + [stmt];
    assert all[..|pre|] == pre && all[|pre|] == stmt;
  }

  /** What a step of the first machine records is what the statement marks. */
  lemma RefRecords(pre: seq<Stmt>, stmt: Stmt, r: Ref)
    requires WellFormed(stmt) && StepRef(r, stmt).Ok? && r.current == CurrentOf(pre)
    ensures var all, st := pre + [stmt], StepRef(r, stmt).st;
      && st.current == CurrentOf(all)
      && st.declared == RecordAll(r.epochs, r.declared, Marked(all, |pre|, Declaring))
      && st.dotted == RecordAll(r.epochs, r.dotted, Marked(all, |pre|, Dotting))
      && st.closed == RecordAll(r.epochs, r.closed, Marked(all, |pre|, Closing))
  {
    hide EnsureTable, AppendArrayTable, AssignUnder, CheckTable, CheckArray, CheckKey, AskRef,
      DottedPrefixes, RecordAll, Marked, CurrentOf;
    LastMarked(pre, stmt);
    var e := EmptyElem.(epochs := r.epochs);
    RecordNone(e, r.declared, {});
    RecordNone(e, r.dotted, {});
    RecordNone(e, r.closed, {});
  }

  lemma ElemRecords(pre: seq<Stmt>, stmt: Stmt, e: Elem)
    requires WellFormed(stmt) && StepElem(e, stmt).Ok? && e.current == CurrentOf(pre)
    ensures var all, st := pre + [stmt], StepElem(e, stmt).st;
      && st.current == CurrentOf(all)
      && st.declared == RecordHere(e, e.declared, Marked(all, |pre|, Declaring))
      && st.dotted == RecordHere(e, e.dotted, Marked(all, |pre|, Dotting))
      && st.closed == RecordHere(e, e.closed, Marked(all, |pre|, Closing))
  {
    hide EnsureTable, AppendArrayTable, AssignUnder, CheckTable, CheckArray, CheckKey, AskElem,
      DottedPrefixes, RecordHere, Marked, CurrentOf, PlaceFrom;
    LastMarked(pre, stmt);
    RecordNone(e, {}, e.declared);
    RecordNone(e, {}, e.dotted);
    RecordNone(e, {}, e.closed);
  }

  lemma OpenedAlike(pre: seq<Stmt>, stmt: Stmt, r: Ref, e: Elem)
    requires Program(pre) && WellFormed(stmt) && Program(pre + [stmt])
    requires StepRef(r, stmt).Ok? && StepElem(e, stmt).Ok?
    requires r.epochs == e.epochs == Skeleton(pre).epochs && e.openings == Skeleton(pre).openings
    ensures var all, st, here := pre + [stmt], StepRef(r, stmt).st, StepElem(e, stmt).st;
      && st.epochs == here.epochs == Skeleton(all).epochs && here.openings == Skeleton(all).openings
      && st.arrays == r.arrays + (if stmt.ArrayHeader? then {stmt.path} else {})
  {
    hide EnsureTable, AppendArrayTable, AssignUnder, CheckTable, CheckArray, CheckKey, DottedPrefixes, PlaceFrom,
      RecordAll, RecordHere;
    var all := pre + [stmt];
    assert all[..|all| - 1] == pre && all[|all| - 1] == stmt;
    if stmt.ArrayHeader? { SameOpen(e, Skeleton(pre), stmt.path); }
  }

  lemma TracedStep(pre: seq<Stmt>, r: Ref, e: Elem, stmt: Stmt)
    requires Program(pre) && WellFormed(stmt) && Traced(pre, r, e) && StepRef(r, stmt).Ok? && StepElem(e, stmt).Ok?
    ensures Program(pre + [stmt]) && Traced(pre + [stmt], StepRef(r, stmt).st, StepElem(e, stmt).st)
  {
    hide HistoryOf, RecordsOf, StepRef, StepElem, Skeleton, Marked, RecordAll, RecordHere, CurrentOf;
    ProgramFront(pre, stmt);
    RefRecords(pre, stmt, r);
    ElemRecords(pre, stmt, e);
    OpenedAlike(pre, stmt, r, e);
    BothSteps(pre, stmt, Declaring, r.declared, e, e.declared);
    BothSteps(pre, stmt, Dotting, r.dotted, e, e.dotted);
    BothSteps(pre, stmt, Closing, r.closed, e, e.closed);
  }

  // ---------------------------------------------------------------- what the checks ask, by statement

  /** Where the last opening of an array stands. */
  lemma {:induction false} LastOpening(pre: seq<Stmt>, p: Path) returns (k: nat)
    requires Program(pre) && p != [] && p in Skeleton(pre).openings
    ensures k < |pre| && pre[k] == ArrayHeader(p) && forall j | k < j < |pre| :: pre[j] != ArrayHeader(p)
    ensures Skeleton(pre).openings[p] == PlaceFrom(Skeleton(pre[..k]), p, |p| - 1)
  {
    hide PlaceFrom;
    var front, last := pre[..|pre| - 1], pre[|pre| - 1];
    if last == ArrayHeader(p) {
      k := |pre| - 1;
    } else {
      k := LastOpening(front, p);
      assert front[..k] == pre[..k];
    }
  }

  lemma {:induction false} OpeningFiled(pre: seq<Stmt>, p: Path)
    requires Program(pre)
    ensures p in Skeleton(pre).openings <==> ArrayHeader(p) in pre
  {
    hide PlaceFrom;
    if pre != [] {
      OpeningFiled(pre[..|pre| - 1], p);
      assert pre == pre[..|pre| - 1] + [pre[|pre| - 1]];
    }
  }

  lemma OpenedMeans(pre: seq<Stmt>, p: Path)
    requires Program(pre) && p != []
    ensures IsArrayHere(Skeleton(pre), p) <==> OpenedHere(pre, p)
  {
    hide PlaceFrom, Skeleton;
    OpeningFiled(pre, p);
    if p in Skeleton(pre).openings {
      var k := LastOpening(pre, p);
      PlaceKept(pre, k, p, |p| - 1);
      if j :| 0 <= j < |pre| && pre[j] == ArrayHeader(p) && Untouched(pre, j, p[..|p| - 1]) { assert j <= k; }
    }
  }

  lemma HereMeans(pre: seq<Stmt>, sort: Sort, h: Records, p: Path)
    requires Program(pre) && RecordsOf(pre, sort, h)
    ensures (p, PlaceOf(Skeleton(pre), p)) in h <==> MadeHere(pre, sort, p)
  {
    hide PlaceFrom, Skeleton, Makes, Untouched;
    var x := (p, PlaceOf(Skeleton(pre), p));
    forall k | 0 <= k < |pre|
      ensures Program(pre[..k]) && (PlaceOf(Skeleton(pre), p) == PlaceOf(Skeleton(pre[..k]), p)
          <==> Untouched(pre, k, p))
    {
      PlaceKept(pre, k, p, |p|);
      assert p[..|p|] == p;
    }
    if x in h {
      var k :| 0 <= k < |pre| && Makes(pre, k, sort, x.0) && x.1 == PlaceOf(Skeleton(pre[..k]), x.0);
      assert Makes(pre, k, sort, p) && Untouched(pre, k, p);
    }
    if MadeHere(pre, sort, p) {
      var k :| 0 <= k < |pre| && Makes(pre, k, sort, p) && Untouched(pre, k, p);
      assert Makes(pre, k, sort, x.0) && x.1 == PlaceOf(Skeleton(pre[..k]), x.0);
    }
  }

  lemma NowMeans(pre: seq<Stmt>, sort: Sort, h: History, p: Path)
    requires Program(pre) && HistoryOf(pre, sort, h)
    ensures (p, ContextOf(Skeleton(pre).epochs, p)) in h <==> MadeInContext(pre, sort, p)
    ensures Recorded(h, p) <==> MadeEver(pre, sort, p)
  {
    hide ContextFrom, Skeleton, Makes, SameContext;
    var x := (p, ContextOf(Skeleton(pre).epochs, p));
    forall k | 0 <= k < |pre|
      ensures Program(pre[..k])
        && (ContextOf(Skeleton(pre).epochs, p) == ContextOf(Skeleton(pre[..k]).epochs, p) <==> SameContext(pre, k, p))
    {
      ContextKept(pre, k, p);
    }
    if x in h {
      var k :| 0 <= k < |pre| && Makes(pre, k, sort, x.0) && x.1 == ContextOf(Skeleton(pre[..k]).epochs, x.0);
      assert Makes(pre, k, sort, p) && SameContext(pre, k, p);
    }
    if MadeInContext(pre, sort, p) {
      var k :| 0 <= k < |pre| && Makes(pre, k, sort, p) && SameContext(pre, k, p);
      assert Makes(pre, k, sort, x.0) && x.1 == ContextOf(Skeleton(pre[..k]).epochs, x.0);
    }
    if MadeEver(pre, sort, p) {
      var k :| 0 <= k < |pre| && Makes(pre, k, sort, p);
      var y := (p, ContextOf(Skeleton(pre[..k]).epochs, p));
      assert Makes(pre, k, sort, y.0) && y.1 == ContextOf(Skeleton(pre[..k]).epochs, y.0);
      assert y in h && y.0 == p;
    }
  }

  /** The answers of both machines about one path. */
  lemma AnswersMean(pre: seq<Stmt>, r: Ref, e: Elem, p: Path)
    requires Program(pre) && Traced(pre, r, e) && p != []
    ensures var a, b := AskElem(e), AskRef(r);
      && (b.isArray(p) && !a.isArray(p) <==> StaleOpening(pre, p))
      && (b.declaredEver(p) && !a.declaredEver(p) <==> StaleEver(pre, Declaring, p))
      && (b.declaredNow(p) && !a.declaredNow(p) <==> StaleNow(pre, Declaring, p))
      && (b.dottedNow(p) && !a.dottedNow(p) <==> StaleNow(pre, Dotting, p))
      && (b.closedNow(p) && !a.closedNow(p) <==> StaleNow(pre, Closing, p))
  {
    hide HistoryOf, RecordsOf, Skeleton, MadeHere, MadeInContext, MadeEver, OpenedHere, ContextOf, PlaceOf;
    SamePlaceOf(e, Skeleton(pre), p);
    OpenedMeans(pre, p);
    HereMeans(pre, Declaring, e.declared, p);
    HereMeans(pre, Dotting, e.dotted, p);
    HereMeans(pre, Closing, e.closed, p);
    NowMeans(pre, Declaring, r.declared, p);
    NowMeans(pre, Dotting, r.dotted, p);
    NowMeans(pre, Closing, r.closed, p);
  }

  lemma SamePlaceOf(e: Elem, f: Elem, p: Path)
    requires e.epochs == f.epochs && e.openings == f.openings && p != []
    ensures PlaceOf(e, p) == PlaceOf(f, p) && IsArrayHere(e, p) == IsArrayHere(f, p)
  {
    SamePlace(e, f, p, |p|);
    SamePlace(e, f, p, |p| - 1);
  }

  /** The machines answer a statement's questions differently exactly if it falls under a stale record. */
  lemma StaleMeans(pre: seq<Stmt>, r: Ref, e: Elem, stmt: Stmt)
    requires Program(pre) && Traced(pre, r, e) && WellFormed(stmt)
    ensures AnswersDiffer(AskElem(e), AskRef(r), e.current, stmt) <==> StaleAt(pre, stmt)
  {
    hide AskElem, AskRef, StaleOpening, StaleEver, StaleNow, Traced;
    match stmt {
      case TableHeader(p) =>
        AnswersMean(pre, r, e, p);
        forall i | 1 <= i <= |p|
          ensures AskRef(r).closedNow(p[..i]) && !AskElem(e).closedNow(p[..i]) <==> StaleNow(pre, Closing, p[..i])
        { AnswersMean(pre, r, e, p[..i]); }
      case ArrayHeader(p) =>
        AnswersMean(pre, r, e, p);
        forall i | 1 <= i <= |p|
          ensures AskRef(r).closedNow(p[..i]) && !AskElem(e).closedNow(p[..i]) <==> StaleNow(pre, Closing, p[..i])
        { AnswersMean(pre, r, e, p[..i]); }
      case KeyValue(key, _, _) =>
        CurrentTraced(pre, r, e);
        var full, from := e.current + key, |e.current| + 1;
        forall i | from <= i < |full|
          ensures AskRef(r).closedNow(full[..i]) && !AskElem(e).closedNow(full[..i])
              <==> StaleNow(pre, Closing, full[..i])
          ensures AskRef(r).declaredEver(full[..i]) && !AskElem(e).declaredEver(full[..i])
                  <==> StaleEver(pre, Declaring, full[..i])
        { AnswersMean(pre, r, e, full[..i]); }
    }
  }

  lemma CurrentTraced(pre: seq<Stmt>, r: Ref, e: Elem)
    requires Program(pre) && Traced(pre, r, e)
    ensures e.current == CurrentOf(pre)
  {}

  // ---------------------------------------------------------------- whole documents

  lemma ElementStep(pre: seq<Stmt>, r: Ref, e: Elem, stmt: Stmt)
    requires Program(pre) && WellFormed(stmt) && Joint(r, e) && Traced(pre, r, e)
    ensures StepRef(r, stmt).Ok? <==> StepElem(e, stmt).Ok? && !StaleAt(pre, stmt)
    ensures StepRef(r, stmt).Ok? ==>
      && Program(pre + [stmt]) && Joint(StepRef(r, stmt).st, StepElem(e, stmt).st)
      && Traced(pre + [stmt], StepRef(r, stmt).st, StepElem(e, stmt).st)
  {
    hide Joint, Traced, StepRef, StepElem, StaleAt, AnswersDiffer;
    StepAgrees(r, e, stmt);
    StaleMeans(pre, r, e, stmt);
    if StepRef(r, stmt).Ok? { TracedStep(pre, r, e, stmt); }
  }

  lemma {:induction false} RunsAgree(pre: seq<Stmt>, r: Ref, e: Elem, stmts: seq<Stmt>)
    requires Program(pre) && Program(stmts) && Joint(r, e) && Traced(pre, r, e)
    ensures RunRef(r, stmts).Ok?
            <==> RunElem(e, stmts).Ok? && forall i | 0 <= i < |stmts| :: !StaleAt(pre + stmts[..i], stmts[i])
    ensures RunRef(r, stmts).Ok? ==> RunRef(r, stmts).st.root == RunElem(e, stmts).st.root
    decreases |stmts|
  {
    hide Joint, Traced, StepRef, StepElem, StaleAt;
    if stmts == [] {
      assert r.root == e.root by { SameRoot(r, e); }
    } else {
      var s, rest := stmts[0], stmts[1..];
      assert pre + stmts[..0] == pre;
      ElementStep(pre, r, e, s);
      if StepRef(r, s).Ok? {
        RunsAgree(pre + [s], StepRef(r, s).st, StepElem(e, s).st, rest);
        assert (forall i | 0 <= i < |stmts| :: !StaleAt(pre + stmts[..i], stmts[i]))
          <==> forall i | 0 <= i < |rest| :: !StaleAt(pre + [s] + rest[..i], rest[i]) by {
          StaleTail(pre, s, rest, stmts);
        }
      }
    }
  }

  lemma SameRoot(r: Ref, e: Elem)
    requires Joint(r, e)
    ensures r.root == e.root
  {}

  lemma StaleTail(pre: seq<Stmt>, s: Stmt, rest: seq<Stmt>, stmts: seq<Stmt>)
    requires stmts == [s] + rest && !StaleAt(pre, s)
    ensures (forall i | 0 <= i < |stmts| :: !StaleAt(pre + stmts[..i], stmts[i]))
            <==> forall i | 0 <= i < |rest| :: !StaleAt(pre + [s] + rest[..i], rest[i])
  {
    hide StaleAt;
    assert pre + stmts[..0] == pre;
    forall i | 0 <= i < |rest| ensures pre + [s] + rest[..i] == pre + stmts[..i + 1] && rest[i] == stmts[i + 1] {}
    if forall i | 0 <= i < |rest| :: !StaleAt(pre + [s] + rest[..i], rest[i]) {
      forall i | 0 <= i < |stmts| ensures !StaleAt(pre + stmts[..i], stmts[i]) {
        if i > 0 { assert !StaleAt(pre + [s] + rest[..i - 1], rest[i - 1]); }
      }
    }
    if forall i | 0 <= i < |stmts| :: !StaleAt(pre + stmts[..i], stmts[i]) {
      forall i | 0 <= i < |rest| ensures !StaleAt(pre + [s] + rest[..i], rest[i]) {
        assert !StaleAt(pre + stmts[..i + 1], stmts[i + 1]);
      }
    }
  }

  /** The source accepts a document without NUL in its keys if and only if it is well formed element by
      element and no statement falls under a stale record. What it accepts has the tree of the reference,
      so it accepts nothing it should refuse. */
  lemma ElementsDecide(stmts: seq<Stmt>)
    requires Program(stmts) && forall i | 0 <= i < |stmts| :: StmtNulFree(stmts[i])
    ensures Run(Empty, stmts).Ok?
            <==> RunElem(EmptyElem, stmts).Ok? && forall i | 0 <= i < |stmts| :: !StaleAt(stmts[..i], stmts[i])
    ensures Run(Empty, stmts).Ok? ==> Run(Empty, stmts).st.root == RunElem(EmptyElem, stmts).st.root
  {
    hide Run, RunRef, RunElem, StaleAt;
    LatestContextSuffices(stmts);
    assert Traced([], EmptyRef, EmptyElem);
    RunsAgree([], EmptyRef, EmptyElem, stmts);
    assert forall i | 0 <= i < |stmts| :: [] + stmts[..i] == stmts[..i];
  }
}
