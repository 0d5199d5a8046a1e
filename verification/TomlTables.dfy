/** The statement machine of `parseDocument` (pkg/toml/value.go) with no decode filter: which
    headers and dotted keys it rejects, and the tree it builds.

    The source remembers, per path, only the latest array-table context in which a table was
    declared, written by a dotted key or closed by an inline value, and keys its maps by joined
    strings. The reference machine remembers every (path, context) pair ever recorded. */
module TomlTables {
  import opened Text
  import opened TomlTree
  import Decimal

  datatype Stmt =
    | TableHeader(path: Path)
    | ArrayHeader(path: Path)
    /** `visit`: the containers inside `value`, in the order Go's map iteration reaches them. */
    | KeyValue(key: Path, value: Value, visit: seq<Path>)

  datatype Rejection =
    | RedefinesArray | RedefinesDotted | ExtendsInline | DuplicateTable | RedefinesTable | ExtendsExplicit
    | RedefinesValue

  // ---------------------------------------------------------------- string keys

  predicate NulFree(p: Path) { forall i | 0 <= i < |p| :: '\0' !in p[i] }

  /** `encodedKeyPath`: segments joined by NUL. */
  function Encode(p: Path): Bytes {
    if p == [] then "" else if |p| == 1 then p[0] else p[0] + "\0" + Encode(p[1..])
  }

  lemma FirstMark(a: Bytes, x: Bytes, c: char)
    requires c !in a
    ensures (a + [c] + x)[|a|] == c
    ensures forall k | 0 <= k < |a| :: (a + [c] + x)[k] != c
  {}

  lemma LastMark(a: Bytes, x: Bytes, c: char)
    requires c !in x
    ensures (a + [c] + x)[|a|] == c
    ensures forall k | |a| < k < |a + [c] + x| :: (a + [c] + x)[k] != c
  {}

  lemma SplitAt(a: Bytes, x: Bytes, b: Bytes, y: Bytes, c: char)
    requires a + [c] + x == b + [c] + y && c !in a && c !in b
    ensures a == b && x == y
  {
    var s, t := a + [c] + x, b + [c] + y;
    FirstMark(a, x, c);
    FirstMark(b, y, c);
    assert a == s[..|a|] == t[..|b|];
    assert x == s[|a| + 1..] == t[|b| + 1..];
  }

  lemma {:induction false} EncodeHasNul(p: Path)
    requires |p| > 1
    ensures '\0' in Encode(p)
  {
    assert Encode(p)[|p[0]|] == '\0';
  }

  /** Joined keys determine their path when no segment contains NUL. */
  lemma {:induction false} EncodeInjective(p: Path, q: Path)
    requires NulFree(p) && NulFree(q) && p != [] && q != [] && Encode(p) == Encode(q)
    ensures p == q
    decreases |p|
  {
    if |p| == 1 {
      if |q| > 1 { EncodeHasNul(q); }
    } else {
      EncodeHasNul(p);
      SplitAt(p[0], Encode(p[1..]), q[0], Encode(q[1..]), '\0');
      EncodeInjective(p[1..], q[1..]);
      assert p == [p[0]] + p[1..] && q == [q[0]] + q[1..];
    }
  }

  // ---------------------------------------------------------------- declaration contexts

  /** The innermost array-table element a path lies in: the length of the array's path and which
      element it is. */
  datatype Context = TopLevel | Element(depth: nat, epoch: nat)

  type Epochs = map<Path, nat>

  function ContextFrom(epochs: Epochs, p: Path, i: nat): (c: Context)
    requires i <= |p|
    ensures c.Element? ==> 0 < c.depth <= i && c.epoch > 0
  {
    if i == 0 then TopLevel
    else if p[..i] in epochs && epochs[p[..i]] > 0 then Element(i, epochs[p[..i]])
    else ContextFrom(epochs, p, i - 1)
  }

  function ContextOf(epochs: Epochs, p: Path): Context { ContextFrom(epochs, p, |p|) }

  /** `declarationContext`: the context as the source writes it. */
  function ContextText(p: Path, c: Context): Bytes
    requires c.Element? ==> c.depth <= |p|
  {
    match c
    case TopLevel => ""
    case Element(d, e) => Encode(p[..d]) + "#" + Decimal.Itoa(e)
  }

  /** `declarationContext` as the loop over string-keyed epochs. */
  function DeclarationContext(epochs: map<Bytes, nat>, p: Path, i: nat): Bytes
    requires i <= |p|
  {
    if i == 0 then ""
    else if Encode(p[..i]) in epochs && epochs[Encode(p[..i])] > 0 then
      Encode(p[..i]) + "#" + Decimal.Itoa(epochs[Encode(p[..i])])
    else DeclarationContext(epochs, p, i - 1)
  }

  lemma LastSplit(a: Bytes, x: Bytes, b: Bytes, y: Bytes, c: char)
    requires a + [c] + x == b + [c] + y && c !in x && c !in y
    ensures a == b && x == y
  {
    var s, t := a + [c] + x, b + [c] + y;
    LastMark(a, x, c);
    LastMark(b, y, c);
    assert a == s[..|a|] == t[..|b|];
    assert x == s[|a| + 1..] == t[|b| + 1..];
  }

  lemma ItoaHasNoHash(n: nat)
    ensures '#' !in Decimal.Itoa(n)
  {}

  /** For a NUL-free path the text determines the context. */
  lemma ContextTextInjective(p: Path, c: Context, d: Context)
    requires NulFree(p)
    requires (c.Element? ==> 0 < c.depth <= |p|) && (d.Element? ==> 0 < d.depth <= |p|)
    ensures ContextText(p, c) == ContextText(p, d) <==> c == d
  {
    if c.Element? && d.Element? && ContextText(p, c) == ContextText(p, d) {
      ItoaHasNoHash(c.epoch);
      ItoaHasNoHash(d.epoch);
      LastSplit(Encode(p[..c.depth]), Decimal.Itoa(c.epoch), Encode(p[..d.depth]), Decimal.Itoa(d.epoch), '#');
      EncodeInjective(p[..c.depth], p[..d.depth]);
      Decimal.ItoaInjective(c.epoch, d.epoch);
    }
  }

  /** Contexts of one path in the order in which they can occur. */
  predicate NotAfter(c: Context, d: Context) {
    c == TopLevel || (d.Element? && (c.depth < d.depth || (c.depth == d.depth && c.epoch <= d.epoch)))
  }

  predicate EpochsAdvance(before: Epochs, after: Epochs) {
    forall q | q in before :: q in after && before[q] <= after[q]
  }

  /** A path's context only moves forward. */
  lemma {:induction false} ContextAdvances(before: Epochs, after: Epochs, p: Path, i: nat)
    requires EpochsAdvance(before, after) && i <= |p|
    ensures NotAfter(ContextFrom(before, p, i), ContextFrom(after, p, i))
  {
    if i > 0 { ContextAdvances(before, after, p, i - 1); }
  }

  // ---------------------------------------------------------------- the checks

  /** What the checks ask of the bookkeeping. `…Now`: recorded in the path's present context. */
  datatype Queries = Queries(
    isArray: Path -> bool, declaredEver: Path -> bool,
    declaredNow: Path -> bool, dottedNow: Path -> bool, closedNow: Path -> bool)

  /** `closedInlinePrefix`. */
  predicate ClosedPrefix(q: Queries, p: Path) { exists i | 1 <= i <= |p| :: q.closedNow(p[..i]) }

  function CheckTable(q: Queries, p: Path): Option<Rejection> {
    if q.isArray(p) then Some(RedefinesArray)
    else if q.dottedNow(p) then Some(RedefinesDotted)
    else if ClosedPrefix(q, p) then Some(ExtendsInline)
    else if q.declaredNow(p) then Some(DuplicateTable)
    else None
  }

  function CheckArray(q: Queries, p: Path): Option<Rejection> {
    if q.declaredEver(p) then Some(RedefinesTable)
    else if q.dottedNow(p) then Some(RedefinesDotted)
    else if ClosedPrefix(q, p) then Some(ExtendsInline)
    else None
  }

  /** The prefixes a dotted key passes through, shortest first. */
  function CheckDotted(q: Queries, full: Path, i: nat): Option<Rejection>
    decreases |full| - i
  {
    if i >= |full| then None
    else if q.declaredEver(full[..i]) then Some(ExtendsExplicit)
    else if q.closedNow(full[..i]) then Some(ExtendsInline)
    else CheckDotted(q, full, i + 1)
  }

  function CheckKey(q: Queries, current: Path, key: Path): Option<Rejection> {
    if |key| > 1 then CheckDotted(q, current + key, |current| + 1) else None
  }

  // ---------------------------------------------------------------- the source's machine

  type Marks = map<Bytes, Bytes>

  datatype State = State(
    root: Entries, current: Path,
    arrayTables: set<Bytes>, epochs: map<Bytes, nat>,
    declared: Marks, dotted: Marks, closed: Marks)

  datatype Outcome<S> = Ok(st: S) | Rejected(why: Rejection)

  function ContextNow(epochs: map<Bytes, nat>, p: Path): Bytes { DeclarationContext(epochs, p, |p|) }

  predicate MarkedNow(s: State, m: Marks, p: Path) {
    Encode(p) in m && m[Encode(p)] == ContextNow(s.epochs, p)
  }

  function Ask(s: State): Queries {
    Queries(p => Encode(p) in s.arrayTables, p => Encode(p) in s.declared,
            p => MarkedNow(s, s.declared, p), p => MarkedNow(s, s.dotted, p), p => MarkedNow(s, s.closed, p))
  }

  /** Record the present context of each path, overwriting what was there. */
  function MarkAll(epochs: map<Bytes, nat>, m: Marks, paths: seq<Path>): Marks {
    if paths == [] then m else
      var last := paths[|paths| - 1];
      MarkAll(epochs, m, paths[..|paths| - 1])[Encode(last) := ContextNow(epochs, last)]
  }

  lemma {:induction false} MarkAllAppend(epochs: map<Bytes, nat>, m: Marks, a: seq<Path>, b: seq<Path>)
    ensures MarkAll(epochs, MarkAll(epochs, m, a), b) == MarkAll(epochs, m, a + b)
  {
    if b == [] {
      assert a + b == a;
    } else {
      MarkAllAppend(epochs, m, a, b[..|b| - 1]);
      assert (a + b)[..|a + b| - 1] == a + b[..|b| - 1];
    }
  }

  /** `markClosedValuePaths` marks `p` when it marks `value` at `path`: every table or array it
      reaches, an array lending its own path to the keys of its elements. */
  ghost predicate Closes(path: Path, value: Value, p: Path)
    decreases value, 1
  {
    match value
    case Leaf(_) => false
    case Table(e) => p == path || ClosesEntries(path, value, e.Keys, p)
    case Array(items) => p == path || ClosesItems(path, value, |items|, p)
  }

  /** Through the entries of a table under the given keys. */
  ghost predicate ClosesEntries(path: Path, table: Value, keys: set<Bytes>, p: Path)
    requires table.Table? && keys <= table.entries.Keys
    decreases table, 0
  {
    exists k | k in keys :: Closes(path + [k], table.entries[k], p)
  }

  /** Through the first `n` elements of an array. */
  ghost predicate ClosesItems(path: Path, a: Value, n: nat, p: Path)
    requires a.Array? && n <= |a.items|
    decreases a, 0
  {
    exists i | 0 <= i < n :: a.items[i].Table? && ClosesEntries(path, a.items[i], a.items[i].entries.Keys, p)
  }

  /** The proper prefixes of `full` longer than the current table's path. */
  function DottedPrefixes(full: Path, from: nat): seq<Path>
    decreases |full| - from
  {
    if from >= |full| then [] else [full[..from]] + DottedPrefixes(full, from + 1)
  }

  function Step(s: State, stmt: Stmt): Outcome<State>
    requires WellFormed(stmt)
  {
    match stmt
    case TableHeader(p) =>
      (match CheckTable(Ask(s), p)
       case Some(why) => Rejected(why)
       case None =>
         match EnsureTable(s.root, p)
         case None => Rejected(RedefinesValue)
         case Some(root) => Ok(s.(root := root, current := p, declared := MarkAll(s.epochs, s.declared, [p]))))
    case ArrayHeader(p) =>
      (match CheckArray(Ask(s), p)
       case Some(why) => Rejected(why)
       case None =>
         match AppendArrayTable(s.root, p)
         case None => Rejected(RedefinesValue)
         case Some(root) =>
           var n := if Encode(p) in s.epochs then s.epochs[Encode(p)] else 0;
           Ok(s.(root := root, current := p, arrayTables := s.arrayTables + {Encode(p)},
                 epochs := s.epochs[Encode(p) := n + 1])))
    case KeyValue(key, value, visit) =>
      (match CheckKey(Ask(s), s.current, key)
       case Some(why) => Rejected(why)
       case None =>
         match AssignUnder(s.root, s.current, key, value)
         case None => Rejected(RedefinesValue)
         case Some(root) =>
           Ok(s.(root := root,
                 dotted := MarkAll(s.epochs, s.dotted, DottedPrefixes(s.current + key, |s.current| + 1)),
                 closed := MarkAll(s.epochs, s.closed, visit))))
  }

  predicate WellFormed(stmt: Stmt) {
    match stmt
    case TableHeader(p) => p != []
    case ArrayHeader(p) => p != []
    case KeyValue(key, _, _) => key != []
  }

  predicate StmtNulFree(stmt: Stmt) {
    match stmt
    case TableHeader(p) => NulFree(p)
    case ArrayHeader(p) => NulFree(p)
    case KeyValue(key, _, visit) => NulFree(key) && forall i | 0 <= i < |visit| :: NulFree(visit[i]) && visit[i] != []
  }

  // ---------------------------------------------------------------- the reference machine

  /** Everything ever recorded. */
  type History = set<(Path, Context)>

  datatype Ref = Ref(
    root: Entries, current: Path,
    arrays: set<Path>, epochs: Epochs,
    declared: History, dotted: History, closed: History)

  predicate Recorded(h: History, p: Path) { exists r | r in h :: r.0 == p }

  predicate RecordedNow(r: Ref, h: History, p: Path) { (p, ContextOf(r.epochs, p)) in h }

  function AskRef(r: Ref): Queries {
    Queries(p => p in r.arrays, p => Recorded(r.declared, p),
            p => RecordedNow(r, r.declared, p), p => RecordedNow(r, r.dotted, p), p => RecordedNow(r, r.closed, p))
  }

  function RecordAll(epochs: Epochs, h: History, paths: seq<Path>): History {
    if paths == [] then h else
      var last := paths[|paths| - 1];
      RecordAll(epochs, h, paths[..|paths| - 1]) + {(last, ContextOf(epochs, last))}
  }

  function StepRef(r: Ref, stmt: Stmt): Outcome<Ref>
    requires WellFormed(stmt)
  {
    match stmt
    case TableHeader(p) =>
      (match CheckTable(AskRef(r), p)
       case Some(why) => Rejected(why)
       case None =>
         match EnsureTable(r.root, p)
         case None => Rejected(RedefinesValue)
         case Some(root) => Ok(r.(root := root, current := p, declared := RecordAll(r.epochs, r.declared, [p]))))
    case ArrayHeader(p) =>
      (match CheckArray(AskRef(r), p)
       case Some(why) => Rejected(why)
       case None =>
         match AppendArrayTable(r.root, p)
         case None => Rejected(RedefinesValue)
         case Some(root) =>
           var n := if p in r.epochs then r.epochs[p] else 0;
           Ok(r.(root := root, current := p, arrays := r.arrays + {p}, epochs := r.epochs[p := n + 1])))
    case KeyValue(key, value, visit) =>
      (match CheckKey(AskRef(r), r.current, key)
       case Some(why) => Rejected(why)
       case None =>
         match AssignUnder(r.root, r.current, key, value)
         case None => Rejected(RedefinesValue)
         case Some(root) =>
           Ok(r.(root := root,
                 dotted := RecordAll(r.epochs, r.dotted, DottedPrefixes(r.current + key, |r.current| + 1)),
                 closed := RecordAll(r.epochs, r.closed, visit))))
  }

  // ---------------------------------------------------------------- the two machines agree

  ghost predicate EpochsMatch(coded: map<Bytes, nat>, epochs: Epochs) {
    forall p: Path | p != [] && NulFree(p) ::
      (Encode(p) in coded <==> p in epochs) && (p in epochs ==> coded[Encode(p)] == epochs[p])
  }

  /** `c` is the last context recorded for `p`, and the present one is no earlier. */
  ghost predicate Latest(h: History, epochs: Epochs, p: Path, c: Context) {
    && (p, c) in h
    && (c.Element? ==> 0 < c.depth <= |p|)
    && NotAfter(c, ContextOf(epochs, p))
    && forall r | r in h && r.0 == p :: NotAfter(r.1, c)
  }

  /** A string map holds, for each path, the text of the last context in the history. */
  ghost predicate MarksMatch(m: Marks, h: History, epochs: Epochs) {
    forall p: Path | p != [] && NulFree(p) ::
      && (Encode(p) in m <==> Recorded(h, p))
      && (Encode(p) in m ==> exists c :: Latest(h, epochs, p, c) && m[Encode(p)] == ContextText(p, c))
  }

  ghost predicate Match(s: State, r: Ref) {
    && s.root == r.root && s.current == r.current && NulFree(r.current)
    && (forall p: Path | p != [] && NulFree(p) :: Encode(p) in s.arrayTables <==> p in r.arrays)
    && EpochsMatch(s.epochs, r.epochs)
    && MarksMatch(s.declared, r.declared, r.epochs)
    && MarksMatch(s.dotted, r.dotted, r.epochs)
    && MarksMatch(s.closed, r.closed, r.epochs)
  }

  lemma NulFreePrefix(p: Path, i: nat)
    requires NulFree(p) && i <= |p|
    ensures NulFree(p[..i])
  {}

  lemma {:induction false} ContextsMatch(coded: map<Bytes, nat>, epochs: Epochs, p: Path, i: nat)
    requires EpochsMatch(coded, epochs) && NulFree(p) && i <= |p|
    ensures DeclarationContext(coded, p, i) == ContextText(p, ContextFrom(epochs, p, i))
  {
    if i > 0 {
      NulFreePrefix(p, i);
      ContextsMatch(coded, epochs, p, i - 1);
    }
  }

  /** Keeping only the latest context answers "recorded in the present context?" like the whole
      history does, because contexts only move forward. */
  lemma LatestIsEnough(s: State, r: Ref, m: Marks, h: History, p: Path)
    requires EpochsMatch(s.epochs, r.epochs) && MarksMatch(m, h, r.epochs) && p != [] && NulFree(p)
    ensures MarkedNow(s, m, p) <==> RecordedNow(r, h, p)
  {
    ContextsMatch(s.epochs, r.epochs, p, |p|);
    var now := ContextOf(r.epochs, p);
    if RecordedNow(r, h, p) {
      assert (p, now) in h && (p, now).0 == p;
      assert Recorded(h, p);
    }
    if Encode(p) in m {
      var c :| Latest(h, r.epochs, p, c) && m[Encode(p)] == ContextText(p, c);
      ContextTextInjective(p, c, now);
    }
  }

  lemma {:induction false} QueriesAgree(s: State, r: Ref, p: Path)
    requires Match(s, r) && p != [] && NulFree(p)
    ensures Ask(s).isArray(p) == AskRef(r).isArray(p)
    ensures Ask(s).declaredEver(p) == AskRef(r).declaredEver(p)
    ensures Ask(s).declaredNow(p) == AskRef(r).declaredNow(p)
    ensures Ask(s).dottedNow(p) == AskRef(r).dottedNow(p)
    ensures Ask(s).closedNow(p) == AskRef(r).closedNow(p)
  {
    LatestIsEnough(s, r, s.declared, r.declared, p);
    LatestIsEnough(s, r, s.dotted, r.dotted, p);
    LatestIsEnough(s, r, s.closed, r.closed, p);
  }

  lemma ClosedPrefixAgrees(s: State, r: Ref, p: Path)
    requires Match(s, r) && p != [] && NulFree(p)
    ensures ClosedPrefix(Ask(s), p) == ClosedPrefix(AskRef(r), p)
  {
    forall i | 1 <= i <= |p| ensures Ask(s).closedNow(p[..i]) == AskRef(r).closedNow(p[..i]) {
      NulFreePrefix(p, i);
      QueriesAgree(s, r, p[..i]);
    }
  }

  lemma {:induction false} CheckDottedAgrees(s: State, r: Ref, full: Path, i: nat)
    requires Match(s, r) && NulFree(full) && i > 0
    ensures CheckDotted(Ask(s), full, i) == CheckDotted(AskRef(r), full, i)
    decreases |full| - i
  {
    if i < |full| {
      NulFreePrefix(full, i);
      QueriesAgree(s, r, full[..i]);
      CheckDottedAgrees(s, r, full, i + 1);
    }
  }

  // ---------------------------------------------------------------- recording

  lemma {:induction false} MarkOne(s: State, r: Ref, m: Marks, h: History, p: Path)
    requires EpochsMatch(s.epochs, r.epochs) && MarksMatch(m, h, r.epochs) && p != [] && NulFree(p)
    ensures MarksMatch(m[Encode(p) := ContextNow(s.epochs, p)], h + {(p, ContextOf(r.epochs, p))}, r.epochs)
  {
    var now := ContextOf(r.epochs, p);
    var m2, h2 := m[Encode(p) := ContextNow(s.epochs, p)], h + {(p, now)};
    ContextsMatch(s.epochs, r.epochs, p, |p|);
    forall q: Path | q != [] && NulFree(q)
      ensures Encode(q) in m2 <==> Recorded(h2, q)
      ensures Encode(q) in m2 ==> exists c :: Latest(h2, r.epochs, q, c) && m2[Encode(q)] == ContextText(q, c)
    {
      if q == p {
        assert (p, now) in h2 && (p, now).0 == p;
        PresentIsLatest(m, h, r.epochs, p);
        assert Latest(h2, r.epochs, p, now);
      } else {
        if Encode(q) == Encode(p) { EncodeInjective(p, q); }
        OtherPath(m, h, r.epochs, q, (p, now));
      }
    }
  }

  lemma PresentIsLatest(m: Marks, h: History, epochs: Epochs, p: Path)
    requires MarksMatch(m, h, epochs) && p != [] && NulFree(p)
    ensures forall x | x in h && x.0 == p :: NotAfter(x.1, ContextOf(epochs, p))
  {
    forall x | x in h && x.0 == p ensures NotAfter(x.1, ContextOf(epochs, p)) {
      assert Recorded(h, p);
      var c :| Latest(h, epochs, p, c) && m[Encode(p)] == ContextText(p, c);
      assert NotAfter(x.1, c) && NotAfter(c, ContextOf(epochs, p));
    }
  }

  lemma OtherPath(m: Marks, h: History, epochs: Epochs, q: Path, x: (Path, Context))
    requires MarksMatch(m, h, epochs) && q != [] && NulFree(q) && x.0 != q
    ensures Recorded(h + {x}, q) <==> Recorded(h, q)
    ensures Encode(q) in m ==> exists c :: Latest(h + {x}, epochs, q, c) && m[Encode(q)] == ContextText(q, c)
  {
    if Recorded(h, q) {
      var y :| y in h && y.0 == q;
      assert y in h + {x};
    }
    if Encode(q) in m {
      var c :| Latest(h, epochs, q, c) && m[Encode(q)] == ContextText(q, c);
      assert Latest(h + {x}, epochs, q, c);
    }
  }

  predicate PathsOk(paths: seq<Path>) { forall i | 0 <= i < |paths| :: paths[i] != [] && NulFree(paths[i]) }

  lemma {:induction false} MarkAllMatches(s: State, r: Ref, m: Marks, h: History, paths: seq<Path>)
    requires EpochsMatch(s.epochs, r.epochs) && MarksMatch(m, h, r.epochs) && PathsOk(paths)
    ensures MarksMatch(MarkAll(s.epochs, m, paths), RecordAll(r.epochs, h, paths), r.epochs)
  {
    if paths != [] {
      var rest := paths[..|paths| - 1];
      MarkAllMatches(s, r, m, h, rest);
      MarkOne(s, r, MarkAll(s.epochs, m, rest), RecordAll(r.epochs, h, rest), paths[|paths| - 1]);
    }
  }

  lemma {:induction false} DottedPrefixesOk(full: Path, from: nat)
    requires NulFree(full) && from > 0
    ensures PathsOk(DottedPrefixes(full, from))
    decreases |full| - from
  {
    if from < |full| {
      DottedPrefixesOk(full, from + 1);
      NulFreePrefix(full, from);
    }
  }

  lemma EpochBump(coded: map<Bytes, nat>, epochs: Epochs, p: Path, n: nat)
    requires EpochsMatch(coded, epochs) && p != [] && NulFree(p)
    ensures EpochsMatch(coded[Encode(p) := n], epochs[p := n])
  {
    forall q: Path | q != [] && NulFree(q)
      ensures var c2, e2 := coded[Encode(p) := n], epochs[p := n];
              (Encode(q) in c2 <==> q in e2) && (q in e2 ==> c2[Encode(q)] == e2[q])
    {
      if Encode(q) == Encode(p) { EncodeInjective(p, q); }
    }
  }

  /** Old records stay in order when epochs advance. */
  lemma MarksSurviveBump(m: Marks, h: History, before: Epochs, after: Epochs)
    requires MarksMatch(m, h, before) && EpochsAdvance(before, after)
    ensures MarksMatch(m, h, after)
  {
    forall p: Path | p != [] && NulFree(p) && Encode(p) in m
      ensures exists c :: Latest(h, after, p, c) && m[Encode(p)] == ContextText(p, c)
    {
      var c :| Latest(h, before, p, c) && m[Encode(p)] == ContextText(p, c);
      ContextAdvances(before, after, p, |p|);
      assert Latest(h, after, p, c);
    }
  }

  // ---------------------------------------------------------------- steps and runs

  predicate SameOutcome(a: Outcome<State>, b: Outcome<Ref>) {
    match (a, b)
    case (Ok(_), Ok(_)) => true
    case (Rejected(x), Rejected(y)) => x == y
    case _ => false
  }

  lemma {:induction false} ChecksAgree(s: State, r: Ref, p: Path)
    requires Match(s, r) && p != [] && NulFree(p)
    ensures CheckTable(Ask(s), p) == CheckTable(AskRef(r), p)
    ensures CheckArray(Ask(s), p) == CheckArray(AskRef(r), p)
  {
    QueriesAgree(s, r, p);
    ClosedPrefixAgrees(s, r, p);
  }

  lemma {:induction false} TableStepMatches(s: State, r: Ref, p: Path)
    requires Match(s, r) && p != [] && NulFree(p)
    ensures SameOutcome(Step(s, TableHeader(p)), StepRef(r, TableHeader(p)))
    ensures Step(s, TableHeader(p)).Ok? ==> Match(Step(s, TableHeader(p)).st, StepRef(r, TableHeader(p)).st)
  {
    hide EnsureTable, CheckTable, MarksMatch, EpochsMatch, MarkAll, RecordAll;
    ChecksAgree(s, r, p);
    MarkAllMatches(s, r, s.declared, r.declared, [p]);
  }

  lemma {:induction false} ArrayStepMatches(s: State, r: Ref, p: Path)
    requires Match(s, r) && p != [] && NulFree(p)
    ensures SameOutcome(Step(s, ArrayHeader(p)), StepRef(r, ArrayHeader(p)))
    ensures Step(s, ArrayHeader(p)).Ok? ==> Match(Step(s, ArrayHeader(p)).st, StepRef(r, ArrayHeader(p)).st)
  {
    hide AppendArrayTable, CheckArray, MarksMatch, EpochsMatch, NulFree, Encode;
    ChecksAgree(s, r, p);
    SameEpoch(s.epochs, r.epochs, p);
    if Step(s, ArrayHeader(p)).Ok? {
      var s2, r2 := Step(s, ArrayHeader(p)).st, StepRef(r, ArrayHeader(p)).st;
      EpochBump(s.epochs, r.epochs, p, r2.epochs[p]);
      MarksSurviveBump(s.declared, r.declared, r.epochs, r2.epochs);
      MarksSurviveBump(s.dotted, r.dotted, r.epochs, r2.epochs);
      MarksSurviveBump(s.closed, r.closed, r.epochs, r2.epochs);
      forall q: Path | q != [] && NulFree(q) ensures Encode(q) in s2.arrayTables <==> q in r2.arrays {
        if Encode(q) == Encode(p) { EncodeInjective(p, q); }
      }
    }
  }

  lemma SameEpoch(coded: map<Bytes, nat>, epochs: Epochs, p: Path)
    requires EpochsMatch(coded, epochs) && p != [] && NulFree(p)
    ensures Encode(p) in coded <==> p in epochs
    ensures p in epochs ==> coded[Encode(p)] == epochs[p]
  {}

  lemma KeyChecksAgree(s: State, r: Ref, key: Path)
    requires Match(s, r) && key != [] && NulFree(key)
    ensures NulFree(s.current + key)
    ensures CheckKey(Ask(s), s.current, key) == CheckKey(AskRef(r), r.current, key)
  {
    CheckDottedAgrees(s, r, s.current + key, |s.current| + 1);
  }

  lemma MatchWithMarks(s: State, r: Ref, root: map<Bytes, Value>, dotted: Marks, closed: Marks, dh: History,
      ch: History)
    requires Match(s, r) && MarksMatch(dotted, dh, r.epochs) && MarksMatch(closed, ch, r.epochs)
    ensures Match(s.(root := root, dotted := dotted, closed := closed),
                  r.(root := root, dotted := dh, closed := ch))
  {}

  lemma {:induction false} KeyMarksMatch(s: State, r: Ref, key: Path, visit: seq<Path>)
    requires Match(s, r) && NulFree(s.current + key) && PathsOk(visit)
    ensures var prefixes := DottedPrefixes(s.current + key, |s.current| + 1);
            && MarksMatch(MarkAll(s.epochs, s.dotted, prefixes), RecordAll(r.epochs, r.dotted, prefixes), r.epochs)
            && MarksMatch(MarkAll(s.epochs, s.closed, visit), RecordAll(r.epochs, r.closed, visit), r.epochs)
  {
    var prefixes := DottedPrefixes(s.current + key, |s.current| + 1);
    DottedPrefixesOk(s.current + key, |s.current| + 1);
    MarkAllMatches(s, r, s.dotted, r.dotted, prefixes);
    MarkAllMatches(s, r, s.closed, r.closed, visit);
  }

  lemma {:induction false} KeyStepMatches(s: State, r: Ref, stmt: Stmt)
    requires Match(s, r) && stmt.KeyValue? && WellFormed(stmt) && StmtNulFree(stmt)
    ensures SameOutcome(Step(s, stmt), StepRef(r, stmt))
    ensures Step(s, stmt).Ok? ==> Match(Step(s, stmt).st, StepRef(r, stmt).st)
  {
    hide CheckKey, AssignUnder, MarkAll, RecordAll, MarksMatch, EpochsMatch, DottedPrefixes, NulFree;
    KeyChecksAgree(s, r, stmt.key);
    assert PathsOk(stmt.visit);
    if Step(s, stmt).Ok? {
      KeyMarksMatch(s, r, stmt.key, stmt.visit);
      var t, u := Step(s, stmt).st, StepRef(r, stmt).st;
      MatchWithMarks(s, r, t.root, t.dotted, t.closed, u.dotted, u.closed);
    }
  }

  lemma {:induction false} StepMatches(s: State, r: Ref, stmt: Stmt)
    requires Match(s, r) && WellFormed(stmt) && StmtNulFree(stmt)
    ensures SameOutcome(Step(s, stmt), StepRef(r, stmt))
    ensures Step(s, stmt).Ok? ==> Match(Step(s, stmt).st, StepRef(r, stmt).st)
  {
    match stmt {
      case TableHeader(p) => TableStepMatches(s, r, p);
      case ArrayHeader(p) => ArrayStepMatches(s, r, p);
      case KeyValue(_, _, _) => KeyStepMatches(s, r, stmt);
    }
  }

  predicate Program(stmts: seq<Stmt>) { forall i | 0 <= i < |stmts| :: WellFormed(stmts[i]) }

  function Run(s: State, stmts: seq<Stmt>): Outcome<State>
    requires Program(stmts)
    decreases |stmts|
  {
    if stmts == [] then Ok(s) else
    match Step(s, stmts[0])
    case Rejected(why) => Rejected(why)
    case Ok(t) => Run(t, stmts[1..])
  }

  function RunRef(r: Ref, stmts: seq<Stmt>): Outcome<Ref>
    requires Program(stmts)
    decreases |stmts|
  {
    if stmts == [] then Ok(r) else
    match StepRef(r, stmts[0])
    case Rejected(why) => Rejected(why)
    case Ok(t) => RunRef(t, stmts[1..])
  }

  const Empty := State(map[], [], {}, map[], map[], map[], map[])
  const EmptyRef := Ref(map[], [], {}, map[], {}, {}, {})

  lemma {:induction false} RunsMatch(s: State, r: Ref, stmts: seq<Stmt>)
    requires Match(s, r) && Program(stmts) && forall i | 0 <= i < |stmts| :: StmtNulFree(stmts[i])
    ensures SameOutcome(Run(s, stmts), RunRef(r, stmts))
    ensures Run(s, stmts).Ok? ==> Run(s, stmts).st.root == RunRef(r, stmts).st.root
    decreases |stmts|
  {
    if stmts != [] {
      StepMatches(s, r, stmts[0]);
      if Step(s, stmts[0]).Ok? {
        RunsMatch(Step(s, stmts[0]).st, StepRef(r, stmts[0]).st, stmts[1..]);
      }
    }
  }

  /** On every document without NUL in its keys, remembering the latest context per path under
      joined string keys accepts, rejects, and builds exactly what remembering the whole history of
      (path, context) pairs would. */
  lemma {:induction false} LatestContextSuffices(stmts: seq<Stmt>)
    requires Program(stmts) && forall i | 0 <= i < |stmts| :: StmtNulFree(stmts[i])
    ensures SameOutcome(Run(Empty, stmts), RunRef(EmptyRef, stmts))
    ensures Run(Empty, stmts).Ok? ==> Run(Empty, stmts).st.root == RunRef(EmptyRef, stmts).st.root
  {
    RunsMatch(Empty, EmptyRef, stmts);
  }

  // ---------------------------------------------------------------- the tree over whole runs

  predicate HasCurrent(s: State) { Current(s.root, s.current).Some? }

  lemma StepGrows(s: State, stmt: Stmt)
    requires WellFormed(stmt) && HasCurrent(s) && Step(s, stmt).Ok?
    ensures EntriesGrow(s.root, Step(s, stmt).st.root) && HasCurrent(Step(s, stmt).st)
  {
    match stmt {
      case TableHeader(p) =>
        EnsureTableGrows(s.root, p);
        EnsuredIsCurrent(s.root, p);
      case ArrayHeader(p) =>
        AppendArrayTableGrows(s.root, p);
        AppendedIsCurrent(s.root, p);
      case KeyValue(key, value, _) =>
        AssignUnderGrows(s.root, s.current, key, value);
        AssignInPlace(s.root, s.current, key, value);
    }
  }

  /** Every accepted run only adds to the tree. */
  lemma {:induction false} RunGrows(s: State, stmts: seq<Stmt>)
    requires Program(stmts) && HasCurrent(s) && Run(s, stmts).Ok?
    ensures EntriesGrow(s.root, Run(s, stmts).st.root)
    decreases |stmts|
  {
    if stmts == [] {
      EntriesReflexive(s.root);
    } else {
      var t := Step(s, stmts[0]).st;
      StepGrows(s, stmts[0]);
      RunGrows(t, stmts[1..]);
      EntriesTransitive(s.root, t.root, Run(t, stmts[1..]).st.root);
    }
  }

  /** For the rest of any accepted run every leaf keeps its address and text, and every
      array-of-tables element that another follows keeps its whole subtree. */
  lemma NothingIsOverwritten(s: State, stmts: seq<Stmt>, loc: seq<Hop>)
    requires Program(stmts) && HasCurrent(s) && Run(s, stmts).Ok?
    requires At(Table(s.root), loc).Some?
    ensures var was, now := At(Table(s.root), loc).value, At(Table(Run(s, stmts).st.root), loc);
            && now.Some?
            && (was.Leaf? ==> now.value == was)
            && (was.Array? ==>
                  && now.value.Array? && |was.items| <= |now.value.items|
                  && forall i | 0 <= i < |was.items| - 1 :: now.value.items[i] == was.items[i])
  {
    RunGrows(s, stmts);
    LeavesStay(Table(s.root), Table(Run(s, stmts).st.root), loc);
  }

  // ---------------------------------------------------------------- when string keys collide

  /** A segment cut at each NUL. */
  function SplitNul(s: Bytes): (parts: Path)
    ensures parts != []
  {
    if s == "" then [""] else
      var rest := SplitNul(s[1..]);
      if s[0] == '\0' then [""] + rest else [[s[0]] + rest[0]] + rest[1..]
  }

  function SplitPath(p: Path): Path { if p == [] then [] else SplitNul(p[0]) + SplitPath(p[1..]) }

  lemma EncodeHead(a: Bytes, rest: Path)
    requires rest != []
    ensures Encode([a] + rest) == a + "\0" + Encode(rest)
  {
    assert ([a] + rest)[1..] == rest;
  }

  lemma EncodeGrow(c: char, parts: Path)
    requires parts != []
    ensures Encode([[c] + parts[0]] + parts[1..]) == [c] + Encode(parts)
  {
    var grown := [[c] + parts[0]] + parts[1..];
    if |parts| == 1 {
      assert grown == [[c] + parts[0]];
    } else {
      EncodeHead([c] + parts[0], parts[1..]);
      Regroup([c], parts[0], "\0");
      Regroup([c], parts[0] + "\0", Encode(parts[1..]));
    }
  }

  lemma {:induction false} SplitJoins(s: Bytes)
    ensures Encode(SplitNul(s)) == s && NulFree(SplitNul(s))
    decreases |s|
  {
    hide Encode;
    if s == "" {
      assert Encode([""]) == "" by { EncodeSingle(""); }
    } else {
      var rest := SplitNul(s[1..]);
      SplitJoins(s[1..]);
      assert s == [s[0]] + s[1..];
      if s[0] == '\0' {
        EncodeHead("", rest);
        assert "" + "\0" == "\0";
      } else {
        EncodeGrow(s[0], rest);
      }
    }
  }

  lemma EncodeSingle(a: Bytes)
    ensures Encode([a]) == a
  {}

  lemma {:induction false} EncodeJoin(a: Path, b: Path)
    requires a != [] && b != []
    ensures Encode(a + b) == Encode(a) + "\0" + Encode(b)
    decreases |a|
  {
    hide Encode;
    if |a| == 1 {
      EncodeSingle(a[0]);
      assert a == [a[0]];
      EncodeHead(a[0], b);
    } else {
      EncodeJoin(a[1..], b);
      assert a + b == [a[0]] + (a[1..] + b) && a == [a[0]] + a[1..];
      EncodeHead(a[0], a[1..] + b);
      EncodeHead(a[0], a[1..]);
      Regroup(a[0] + "\0", Encode(a[1..]), "\0");
      Regroup(a[0] + "\0", Encode(a[1..]) + "\0", Encode(b));
    }
  }

  lemma {:induction false} EncodeSplit(p: Path)
    requires p != []
    ensures SplitPath(p) != [] && NulFree(SplitPath(p)) && Encode(SplitPath(p)) == Encode(p)
    decreases |p|
  {
    hide Encode, SplitNul;
    SplitJoins(p[0]);
    if |p| == 1 {
      assert p == [p[0]] && SplitPath(p) == SplitNul(p[0]) by { assert SplitNul(p[0]) + [] == SplitNul(p[0]); }
      EncodeSingle(p[0]);
    } else {
      EncodeSplit(p[1..]);
      EncodeJoin(SplitNul(p[0]), SplitPath(p[1..]));
      assert p == [p[0]] + p[1..];
      EncodeHead(p[0], p[1..]);
    }
  }

  /** Two paths share a string key if and only if they agree once every segment is cut at its NULs. */
  lemma CollideExactly(p: Path, q: Path)
    requires p != [] && q != []
    ensures Encode(p) == Encode(q) <==> SplitPath(p) == SplitPath(q)
  {
    hide Encode, SplitPath;
    EncodeSplit(p);
    EncodeSplit(q);
    if Encode(p) == Encode(q) { EncodeInjective(SplitPath(p), SplitPath(q)); }
  }

  /** Without the NUL condition the string keys do confuse paths: the quoted key "a<NUL>b" and the
      dotted key a.b collide, and the second header is refused as a duplicate. */
  lemma NulConfusesPaths()
    ensures var stmts := [TableHeader(["a\0b"]), TableHeader(["a", "b"])];
            && Run(Empty, stmts) == Rejected(DuplicateTable)
            && RunRef(EmptyRef, stmts).Ok?
  {
    hide Step, StepRef;
    var p: Path, q: Path := ["a\0b"], ["a", "b"];
    var stmts := [TableHeader(p), TableHeader(q)];
    assert stmts[1..] == [TableHeader(q)] && [TableHeader(q)][1..] == [];
    assert Encode(p) == Encode(q) == "a\0b" by { assert Encode(q[1..]) == "b"; }
    NoContext(p);
    NoContext(q);
    var s := FirstHeader(p);
    SecondHeader(s, p, q);
    var r := FirstHeaderRef(p);
    assert p != q && p[0] != q[0] by { assert |p| != |q| && |p[0]| != |q[0]|; }
    SecondHeaderRef(r, p, q);
  }

  lemma {:induction false} NoContextFrom(p: Path, i: nat)
    requires i <= |p|
    ensures DeclarationContext(map[], p, i) == "" && ContextFrom(map[], p, i) == TopLevel
  {
    if i > 0 { NoContextFrom(p, i - 1); }
  }

  lemma NoContext(p: Path)
    ensures ContextNow(map[], p) == "" && ContextOf(map[], p) == TopLevel
  {
    NoContextFrom(p, |p|);
  }

  lemma {:induction false} NewTable(p: Path)
    ensures EnsureTable(map[], p).Some?
  {
    if p != [] { NewTable(p[1..]); }
  }

  lemma FirstHeader(p: Path) returns (s: State)
    requires p != [] && ContextNow(map[], p) == ""
    ensures Step(Empty, TableHeader(p)) == Ok(s) && s.declared == map[Encode(p) := ""]
    ensures s.dotted == map[] && s.closed == map[] && s.arrayTables == {} && s.epochs == map[]
  {
    hide EnsureTable, Encode, ContextNow;
    NewTable(p);
    var one: seq<Path> := [p];
    assert MarkAll(map[], map[], one) == map[Encode(p) := ""] by { assert one[..0] == []; }
    s := Step(Empty, TableHeader(p)).st;
  }

  lemma SecondHeader(s: State, p: Path, q: Path)
    requires q != [] && Encode(p) == Encode(q) && ContextNow(map[], q) == ""
    requires s.declared == map[Encode(p) := ""] && s.dotted == map[] && s.closed == map[]
    requires s.arrayTables == {} && s.epochs == map[]
    ensures Step(s, TableHeader(q)) == Rejected(DuplicateTable)
  {
    hide EnsureTable, Encode, ContextNow;
  }

  lemma FirstHeaderRef(p: Path) returns (r: Ref)
    requires |p| == 1 && ContextOf(map[], p) == TopLevel
    ensures StepRef(EmptyRef, TableHeader(p)) == Ok(r) && r.declared == {(p, TopLevel)} && r.root.Keys == {p[0]}
    ensures r.dotted == {} && r.closed == {} && r.arrays == {} && r.epochs == map[]
  {
    hide ContextOf;
    assert EnsureTable(map[], p) == Some(map[p[0] := Table(map[])]) by { assert p[1..] == []; }
    var one: seq<Path> := [p];
    assert RecordAll(map[], {}, one) == {(p, TopLevel)} by { assert one[..0] == []; }
    r := StepRef(EmptyRef, TableHeader(p)).st;
  }

  lemma SecondHeaderRef(r: Ref, p: Path, q: Path)
    requires |p| == 1 && q != [] && p != q && p[0] != q[0]
    requires r.declared == {(p, TopLevel)} && r.dotted == {} && r.closed == {} && r.arrays == {}
    requires r.root.Keys == {p[0]}
    ensures StepRef(r, TableHeader(q)).Ok?
  {
    assert EnsureTable(r.root, q).Some? by { NewTable(q[1..]); }
  }
}
