/** The table rules of `parseDocument` (pkg/toml/value.go) against a reference in which every element of
    an array of tables is a document of its own: a header or dotted key is judged only by what was
    recorded in the elements it lies in. The source's records carry less: a path, and the number of the
    innermost array that ever stood on it. */
module TomlElements {
  import opened Text
  import opened TomlTree
  import opened TomlTables

  /** The elements around a path, outermost first: how long the array's path is, and which element. */
  type Place = seq<(nat, nat)>

  type Records = set<(Path, Place)>

  /** `openings`: where each array was last opened. */
  datatype Elem = Elem(
    root: Entries, current: Path, epochs: Epochs, openings: map<Path, Place>,
    declared: Records, dotted: Records, closed: Records)

  const EmptyElem := Elem(map[], [], map[], map[], {}, {}, {})

  /** The elements around the first `i` segments: an array counts only in the element it was opened in. */
  function PlaceFrom(e: Elem, p: Path, i: nat): Place
    requires i <= |p|
  {
    if i == 0 then [] else
      var outer := PlaceFrom(e, p, i - 1);
      if p[..i] in e.openings && e.openings[p[..i]] == outer && p[..i] in e.epochs
      then outer + [(i, e.epochs[p[..i]])] else outer
  }

  function PlaceOf(e: Elem, p: Path): Place { PlaceFrom(e, p, |p|) }

  predicate IsArrayHere(e: Elem, p: Path) {
    p != [] && p in e.openings && e.openings[p] == PlaceFrom(e, p, |p| - 1)
  }

  predicate Here(e: Elem, h: Records, p: Path) { (p, PlaceOf(e, p)) in h }

  function AskElem(e: Elem): Queries {
    Queries(p => IsArrayHere(e, p), p => Here(e, e.declared, p), p => Here(e, e.declared, p),
            p => Here(e, e.dotted, p), p => Here(e, e.closed, p))
  }

  function RecordHere(e: Elem, h: Records, paths: seq<Path>): Records {
    if paths == [] then h else
      var last := paths[|paths| - 1];
      RecordHere(e, h, paths[..|paths| - 1]) + {(last, PlaceOf(e, last))}
  }

  function StepElem(e: Elem, stmt: Stmt): Outcome<Elem>
    requires WellFormed(stmt)
  {
    match stmt
    case TableHeader(p) =>
      (match CheckTable(AskElem(e), p)
       case Some(why) => Rejected(why)
       case None =>
         match EnsureTable(e.root, p)
         case None => Rejected(RedefinesValue)
         case Some(root) => Ok(e.(root := root, current := p, declared := RecordHere(e, e.declared, [p]))))
    case ArrayHeader(p) =>
      (match CheckArray(AskElem(e), p)
       case Some(why) => Rejected(why)
       case None =>
         match AppendArrayTable(e.root, p)
         case None => Rejected(RedefinesValue)
         case Some(root) => Ok(Open(e, p).(root := root, current := p)))
    case KeyValue(key, value, visit) =>
      (match CheckKey(AskElem(e), e.current, key)
       case Some(why) => Rejected(why)
       case None =>
         match AssignUnder(e.root, e.current, key, value)
         case None => Rejected(RedefinesValue)
         case Some(root) =>
           Ok(e.(root := root,
                 dotted := RecordHere(e, e.dotted, DottedPrefixes(e.current + key, |e.current| + 1)),
                 closed := RecordHere(e, e.closed, visit))))
  }

  function NextEpoch(epochs: Epochs, p: Path): nat { if p in epochs then epochs[p] + 1 else 1 }

  /** A new element of the array at `p`. */
  function Open(e: Elem, p: Path): Elem
    requires p != []
  {
    e.(epochs := e.epochs[p := NextEpoch(e.epochs, p)], openings := e.openings[p := PlaceFrom(e, p, |p| - 1)])
  }

  // ---------------------------------------------------------------- records of the two machines

  /** Every element number in a recorded place has been reached. */
  predicate Reached(epochs: Epochs, p: Path, place: Place) {
    forall x | x in place :: 0 < x.0 <= |p| && p[..x.0] in epochs && x.1 <= epochs[p[..x.0]]
  }

  /** The record has a counterpart in the history, in the present context if the place is present. */
  ghost predicate Linked(h: History, e: Elem, x: (Path, Place)) {
    && Reached(e.epochs, x.0, x.1)
    && exists c :: (x.0, c) in h && (x.1 == PlaceOf(e, x.0) ==> c == ContextOf(e.epochs, x.0))
  }

  ghost predicate AllLinked(h: History, e: Elem, records: Records) { forall x | x in records :: Linked(h, e, x) }

  ghost predicate Joint(r: Ref, e: Elem) {
    && r.root == e.root && r.current == e.current && r.epochs == e.epochs
    && e.openings.Keys <= r.arrays
    && AllLinked(r.declared, e, e.declared) && AllLinked(r.dotted, e, e.dotted) && AllLinked(r.closed, e, e.closed)
  }

  lemma {:induction false} PresentReached(e: Elem, p: Path, i: nat)
    requires i <= |p|
    ensures Reached(e.epochs, p, PlaceFrom(e, p, i))
  {
    if i > 0 { PresentReached(e, p, i - 1); }
  }

  lemma PresentHere(e: Elem, p: Path)
    ensures Reached(e.epochs, p, PlaceOf(e, p))
  {
    PresentReached(e, p, |p|);
  }

  lemma {:induction false} RecordLinked(h: History, e: Elem, records: Records, paths: seq<Path>)
    requires AllLinked(h, e, records)
    ensures AllLinked(RecordAll(e.epochs, h, paths), e, RecordHere(e, records, paths))
  {
    hide Reached, PlaceOf;
    if paths != [] {
      var rest, last := paths[..|paths| - 1], paths[|paths| - 1];
      RecordLinked(h, e, records, rest);
      var g := RecordAll(e.epochs, h, rest) + {(last, ContextOf(e.epochs, last))};
      forall x | x in RecordHere(e, records, paths) ensures Linked(g, e, x) {
        if x == (last, PlaceOf(e, last)) {
          PresentHere(e, last);
          assert (last, ContextOf(e.epochs, last)) in g;
        } else {
          assert Linked(RecordAll(e.epochs, h, rest), e, x);
          var c :| (x.0, c) in RecordAll(e.epochs, h, rest)
              && (x.1 == PlaceOf(e, x.0) ==> c == ContextOf(e.epochs, x.0));
          assert (x.0, c) in g;
        }
      }
    }
  }

  // ---------------------------------------------------------------- a new element

  /** Paths that do not pass through the array keep their place and context. */
  lemma {:induction false} ElsewhereKept(e: Elem, q: Path, p: Path, i: nat)
    requires q != [] && i <= |p| && forall k | 0 < k <= i :: p[..k] != q
    ensures PlaceFrom(Open(e, q), p, i) == PlaceFrom(e, p, i)
    ensures ContextFrom(Open(e, q).epochs, p, i) == ContextFrom(e.epochs, p, i)
  {
    if i > 0 { ElsewhereKept(e, q, p, i - 1); }
  }

  lemma {:induction false} SharedPrefix(e: Elem, p: Path, q: Path, i: nat)
    requires i <= |p| && i <= |q| && p[..i] == q[..i]
    ensures PlaceFrom(e, p, i) == PlaceFrom(e, q, i)
  {
    if i > 0 {
      assert p[..i - 1] == p[..i][..i - 1] == q[..i][..i - 1] == q[..i - 1];
      SharedPrefix(e, p, q, i - 1);
    }
  }

  /** Below the array, every path lies in the new element. */
  lemma {:induction false} InNewElement(e: Elem, q: Path, p: Path, i: nat)
    requires q != [] && |q| <= i <= |p| && p[..|q|] == q
    ensures (|q|, NextEpoch(e.epochs, q)) in PlaceFrom(Open(e, q), p, i)
  {
    var d := |q|;
    if i == d {
      forall k | 0 < k <= d - 1 ensures p[..k] != q { assert |p[..k]| == k; }
      ElsewhereKept(e, q, p, d - 1);
      assert p[..d - 1] == p[..d][..d - 1] == q[..d - 1];
      SharedPrefix(e, p, q, d - 1);
    } else {
      InNewElement(e, q, p, i - 1);
    }
  }

  lemma StaysReached(before: Epochs, q: Path, p: Path, place: Place)
    requires Reached(before, p, place)
    ensures Reached(before[q := NextEpoch(before, q)], p, place)
  {}

  /** A record made before is never taken for one of the new element. */
  lemma OpenLinked(h: History, e: Elem, q: Path, x: (Path, Place))
    requires q != [] && Linked(h, e, x)
    ensures Linked(h, Open(e, q), x)
  {
    hide PlaceFrom, ContextFrom, Reached;
    var p, f := x.0, Open(e, q);
    StaysReached(e.epochs, q, p, x.1);
    var c :| (p, c) in h && (x.1 == PlaceOf(e, p) ==> c == ContextOf(e.epochs, p));
    if |q| <= |p| && p[..|q|] == q {
      InNewElement(e, q, p, |p|);
      if x.1 == PlaceOf(f, p) { NewNotReached(e, q, p, x.1); }
    } else {
      forall k | 0 < k <= |p| ensures p[..k] != q { if |q| == k { assert p[..k] != q; } }
      ElsewhereKept(e, q, p, |p|);
    }
    assert (p, c) in h && (x.1 == PlaceOf(f, p) ==> c == ContextOf(f.epochs, p));
  }

  lemma NewNotReached(e: Elem, q: Path, p: Path, place: Place)
    requires q != [] && |q| <= |p| && p[..|q|] == q && Reached(e.epochs, p, place)
    ensures (|q|, NextEpoch(e.epochs, q)) !in place
  {}

  lemma OpenAllLinked(h: History, e: Elem, records: Records, q: Path)
    requires q != [] && AllLinked(h, e, records)
    ensures AllLinked(h, Open(e, q), records)
  {
    hide Linked;
    forall x | x in records ensures Linked(h, Open(e, q), x) { OpenLinked(h, e, q, x); }
  }

  // ---------------------------------------------------------------- one statement

  /** What the source's query answers and the element's does not. */
  lemma HereIsRecorded(r: Ref, e: Elem, h: History, records: Records, p: Path)
    requires r.epochs == e.epochs && AllLinked(h, e, records) && Here(e, records, p)
    ensures RecordedNow(r, h, p) && Recorded(h, p)
  {
    hide PlaceOf, ContextFrom, Reached;
    assert Linked(h, e, (p, PlaceOf(e, p)));
    var c :| (p, c) in h && c == ContextOf(e.epochs, p);
    assert (p, c).0 == p;
  }

  /** The element's answers imply the source's. */
  ghost predicate Weaker(a: Queries, b: Queries) {
    forall p :: (a.isArray(p) ==> b.isArray(p)) && (a.declaredEver(p) ==> b.declaredEver(p))
      && (a.declaredNow(p) ==> b.declaredNow(p)) && (a.dottedNow(p) ==> b.dottedNow(p))
      && (a.closedNow(p) ==> b.closedNow(p))
  }

  lemma ElemWeaker(r: Ref, e: Elem)
    requires Joint(r, e)
    ensures Weaker(AskElem(e), AskRef(r))
  {
    hide AllLinked, Here, RecordedNow, Recorded;
    forall p ensures (Here(e, e.declared, p) ==> RecordedNow(r, r.declared, p) && Recorded(r.declared, p))
      && (Here(e, e.dotted, p) ==> RecordedNow(r, r.dotted, p))
      && (Here(e, e.closed, p) ==> RecordedNow(r, r.closed, p))
    {
      if Here(e, e.declared, p) { HereIsRecorded(r, e, r.declared, e.declared, p); }
      if Here(e, e.dotted, p) { HereIsRecorded(r, e, r.dotted, e.dotted, p); }
      if Here(e, e.closed, p) { HereIsRecorded(r, e, r.closed, e.closed, p); }
    }
  }

  /** The source's machine and the reference answer a question of the check differently. */
  predicate TableDiffers(a: Queries, b: Queries, p: Path) {
    || (b.isArray(p) && !a.isArray(p)) || (b.dottedNow(p) && !a.dottedNow(p)) || (b.declaredNow(p) && !a.declaredNow(p))
    || exists i | 1 <= i <= |p| :: b.closedNow(p[..i]) && !a.closedNow(p[..i])
  }

  predicate ArrayDiffers(a: Queries, b: Queries, p: Path) {
    || (b.declaredEver(p) && !a.declaredEver(p)) || (b.dottedNow(p) && !a.dottedNow(p))
    || exists i | 1 <= i <= |p| :: b.closedNow(p[..i]) && !a.closedNow(p[..i])
  }

  predicate DottedDiffers(a: Queries, b: Queries, full: Path, from: nat) {
    exists i | from <= i < |full| ::
      (b.declaredEver(full[..i]) && !a.declaredEver(full[..i])) || (b.closedNow(full[..i]) && !a.closedNow(full[..i]))
  }

  predicate AnswersDiffer(a: Queries, b: Queries, current: Path, stmt: Stmt) {
    match stmt
    case TableHeader(p) => TableDiffers(a, b, p)
    case ArrayHeader(p) => ArrayDiffers(a, b, p)
    case KeyValue(key, _, _) => |key| > 1 && DottedDiffers(a, b, current + key, |current| + 1)
  }

  lemma HeaderChecks(a: Queries, b: Queries, p: Path)
    requires Weaker(a, b)
    ensures CheckTable(b, p).None? <==> CheckTable(a, p).None? && !TableDiffers(a, b, p)
    ensures CheckArray(b, p).None? <==> CheckArray(a, p).None? && !ArrayDiffers(a, b, p)
  {
    if i :| 1 <= i <= |p| && b.closedNow(p[..i]) { assert ClosedPrefix(b, p); }
    if i :| 1 <= i <= |p| && a.closedNow(p[..i]) { assert ClosedPrefix(a, p) && b.closedNow(p[..i]); }
  }

  lemma {:induction false} DottedChecks(a: Queries, b: Queries, full: Path, i: nat)
    requires Weaker(a, b)
    ensures CheckDotted(b, full, i).None? <==> CheckDotted(a, full, i).None? && !DottedDiffers(a, b, full, i)
    decreases |full| - i
  {
    if i < |full| { DottedChecks(a, b, full, i + 1); }
  }

  lemma KeyLinked(r: Ref, e: Elem, key: Path, visit: seq<Path>)
    requires Joint(r, e)
    ensures var prefixes := DottedPrefixes(e.current + key, |e.current| + 1);
      && AllLinked(RecordAll(r.epochs, r.dotted, prefixes), e, RecordHere(e, e.dotted, prefixes))
      && AllLinked(RecordAll(r.epochs, r.closed, visit), e, RecordHere(e, e.closed, visit))
  {
    hide AllLinked;
    RecordLinked(r.dotted, e, e.dotted, DottedPrefixes(e.current + key, |e.current| + 1));
    RecordLinked(r.closed, e, e.closed, visit);
  }

  lemma TableElement(r: Ref, e: Elem, p: Path)
    requires Joint(r, e) && p != []
    ensures Agrees(r, e, TableHeader(p))
  {
    hide CheckTable, AllLinked, RecordAll, RecordHere, TableDiffers, Weaker, EnsureTable;
    ElemWeaker(r, e);
    HeaderChecks(AskElem(e), AskRef(r), p);
    if StepRef(r, TableHeader(p)).Ok? {
      var f := StepElem(e, TableHeader(p)).st;
      RecordLinked(r.declared, e, e.declared, [p]);
      SamePlaces(RecordAll(r.epochs, r.declared, [p]), e, f, f.declared);
      SamePlaces(r.dotted, e, f, f.dotted);
      SamePlaces(r.closed, e, f, f.closed);
    }
  }

  /** Records and their links depend only on the epochs and openings. */
  lemma SamePlaces(h: History, e: Elem, f: Elem, records: Records)
    requires e.epochs == f.epochs && e.openings == f.openings && AllLinked(h, e, records)
    ensures AllLinked(h, f, records)
  {
    hide Reached, ContextFrom;
    forall x | x in records ensures Linked(h, f, x) {
      SamePlace(e, f, x.0, |x.0|);
      assert Linked(h, e, x);
    }
  }

  lemma {:induction false} SamePlace(e: Elem, f: Elem, p: Path, i: nat)
    requires e.epochs == f.epochs && e.openings == f.openings && i <= |p|
    ensures PlaceFrom(e, p, i) == PlaceFrom(f, p, i)
  {
    if i > 0 { SamePlace(e, f, p, i - 1); }
  }

  lemma ArrayElement(r: Ref, e: Elem, p: Path)
    requires Joint(r, e) && p != []
    ensures Agrees(r, e, ArrayHeader(p))
  {
    hide CheckArray, AllLinked, RecordAll, RecordHere, ArrayDiffers, Weaker, AppendArrayTable, PlaceFrom;
    ElemWeaker(r, e);
    HeaderChecks(AskElem(e), AskRef(r), p);
    if StepRef(r, ArrayHeader(p)).Ok? {
      var f, g := Open(e, p), StepElem(e, ArrayHeader(p)).st;
      OpenAllLinked(r.declared, e, e.declared, p);
      OpenAllLinked(r.dotted, e, e.dotted, p);
      OpenAllLinked(r.closed, e, e.closed, p);
      SamePlaces(r.declared, f, g, g.declared);
      SamePlaces(r.dotted, f, g, g.dotted);
      SamePlaces(r.closed, f, g, g.closed);
    }
  }

  lemma KeyElement(r: Ref, e: Elem, stmt: Stmt)
    requires Joint(r, e) && stmt.KeyValue? && WellFormed(stmt)
    ensures Agrees(r, e, stmt)
  {
    hide CheckDotted, AllLinked, RecordAll, RecordHere, DottedDiffers, Weaker, AssignUnder, DottedPrefixes;
    ElemWeaker(r, e);
    DottedChecks(AskElem(e), AskRef(r), e.current + stmt.key, |e.current| + 1);
    if StepRef(r, stmt).Ok? {
      var f, s := StepElem(e, stmt).st, StepRef(r, stmt).st;
      KeyLinked(r, e, stmt.key, stmt.visit);
      SamePlaces(r.declared, e, f, f.declared);
      SamePlaces(s.dotted, e, f, f.dotted);
      SamePlaces(s.closed, e, f, f.closed);
    }
  }

  /** The source accepts a statement if and only if the per-element reference does and no question of the
      check is answered differently; both then build the same tree. */
  ghost predicate Agrees(r: Ref, e: Elem, stmt: Stmt)
    requires WellFormed(stmt)
  {
    && (StepRef(r, stmt).Ok? <==> StepElem(e, stmt).Ok? && !AnswersDiffer(AskElem(e), AskRef(r), e.current, stmt))
    && (StepRef(r, stmt).Ok? ==> Joint(StepRef(r, stmt).st, StepElem(e, stmt).st))
  }

  lemma StepAgrees(r: Ref, e: Elem, stmt: Stmt)
    requires Joint(r, e) && WellFormed(stmt)
    ensures Agrees(r, e, stmt)
  {
    hide Agrees, Joint;
    match stmt {
      case TableHeader(p) => TableElement(r, e, p);
      case ArrayHeader(p) => ArrayElement(r, e, p);
      case KeyValue(_, _, _) => KeyElement(r, e, stmt);
    }
  }

  // ---------------------------------------------------------------- whole documents

  function RunElem(e: Elem, stmts: seq<Stmt>): Outcome<Elem>
    requires Program(stmts)
    decreases |stmts|
  {
    if stmts == [] then Ok(e) else
    match StepElem(e, stmts[0])
    case Rejected(why) => Rejected(why)
    case Ok(f) => RunElem(f, stmts[1..])
  }

  // ---------------------------------------------------------------- documents refused by stale records

  const A: Path := ["a"]
  const AB: Path := ["a", "b"]

  function Last(a: seq<Value>, e: Entries): Entries { map["a" := Array(a + [Table(e)])] }

  lemma Grown(a: seq<Value>, e: Entries)
    ensures AppendArrayTable(map[], A) == Some(Last([], map[]))
    ensures AppendArrayTable(Last(a, e), A) == Some(Last(a + [Table(e)], map[]))
  {
    assert A[0] == "a" && |A| == 1;
    var grown := Array(a + [Table(e)] + [Table(map[])]);
    assert Last(a, e)["a"] == Array(a + [Table(e)]) && Last(a, e)["a" := grown] == map["a" := grown];
    assert [] + [Table(map[])] == [Table(map[])];
  }

  /** A table or array `a.b` in the last element of `a`, which has no `b` yet. */
  lemma Trees(a: seq<Value>)
    ensures EnsureTable(Last(a, map[]), AB) == Some(Last(a, map["b" := Table(map[])]))
    ensures AppendArrayTable(Last(a, map[]), AB) == Some(Last(a, map["b" := Array([Table(map[])])]))
  {
    assert AB[0] == "a" && AB[1..] == ["b"] && ["b"][1..] == [];
    var x := Array(a + [Table(map[])]);
    assert Enterable(x) && Enter(x) == map[];
    assert EnsureTable(map[], []) == Some(map[]);
    assert EnsureTable(map[], ["b"]) == Some(map["b" := Table(map[])]);
    assert AppendArrayTable(map[], ["b"]) == Some(map["b" := Array([Table(map[])])]);
    assert Last(a, map[])["a"] == x;
    Replaced(a, map["b" := Table(map[])]);
    Replaced(a, map["b" := Array([Table(map[])])]);
  }

  lemma Replaced(a: seq<Value>, e: Entries)
    ensures Last(a, map[])["a" := Rebuild(Array(a + [Table(map[])]), e)] == Last(a, e)
  {
    assert (a + [Table(map[])])[|a| := Table(e)] == a + [Table(e)];
  }

  /** The elements around `a.b` when `a` has `n` elements and `a.b` was opened in element `m`, or never. */
  lemma PlacesOf(e: Elem, n: nat, m: nat)
    requires n > 0 && m <= n && e.epochs == (if m == 0 then map[A := n] else map[A := n, AB := 1])
    requires e.openings == (if m == 0 then map[A := []] else map[A := [], AB := [(1, m)]])
    ensures PlaceFrom(e, A, 0) == [] && PlaceFrom(e, AB, 1) == [(1, n)] && PlaceOf(e, A) == [(1, n)]
    ensures PlaceOf(e, AB) == if n == m then [(1, n), (2, 1)] else [(1, n)]
  {
    assert AB[..1] == A && AB[..2] == AB && A[..1] == A;
    assert [] + [(1, n)] == [(1, n)];
    assert PlaceFrom(e, AB, 0) == [];
    assert A != AB;
  }

  /** What the reference knows after `[[a]]`, a table or array `a.b`, and a second `[[a]]`. */
  lemma SecondElement(e: Elem, r: Ref, tableFirst: bool)
    requires e == (if tableFirst
      then Elem(Last([Table(map["b" := Table(map[])])], map[]), A, map[A := 2], map[A := []], {(AB, [(1, 1)])}, {}, {})
      else Elem(Last([Table(map["b" := Array([Table(map[])])])], map[]), A, map[A := 2, AB := 1],
                map[A := [], AB := [(1, 1)]], {}, {}, {}))
    requires r == (if tableFirst
      then Ref(e.root, A, {A}, map[A := 2], {(AB, Element(1, 1))}, {}, {})
      else Ref(e.root, A, {A, AB}, map[A := 2, AB := 1], {}, {}, {}))
    ensures tableFirst ==> StepElem(e, ArrayHeader(AB)).Ok? && StepRef(r, ArrayHeader(AB)) == Rejected(RedefinesTable)
    ensures !tableFirst ==> StepElem(e, TableHeader(AB)).Ok? && StepRef(r, TableHeader(AB)) == Rejected(RedefinesArray)
  {
    hide EnsureTable, AppendArrayTable, PlaceFrom;
    PlacesOf(e, 2, if tableFirst then 0 else 1);
    if tableFirst {
      Trees([Table(map["b" := Table(map[])])]);
      assert (AB, Element(1, 1)).0 == AB && Recorded(r.declared, AB);
      assert [(1, 2)] != [(1, 1)] by { assert [(1, 2)][0].1 == 2; }
    } else {
      Trees([Table(map["b" := Array([Table(map[])])])]);
      assert [(1, 2)] != [(1, 1)] by { assert [(1, 2)][0].1 == 2; }
    }
  }

  function Document(tableFirst: bool): seq<Stmt> {
    var x, y := TableHeader(AB), ArrayHeader(AB);
    [ArrayHeader(A)] + ([if tableFirst then x else y] + ([ArrayHeader(A)] + ([if tableFirst then y else x] + [])))
  }

  lemma RunsCons(e: Elem, r: Ref, stmt: Stmt, rest: seq<Stmt>)
    requires WellFormed(stmt) && Program(rest)
    ensures Program([stmt] + rest)
    ensures StepElem(e, stmt).Ok? ==> RunElem(e, [stmt] + rest) == RunElem(StepElem(e, stmt).st, rest)
    ensures StepRef(r, stmt).Ok? ==> RunRef(r, [stmt] + rest) == RunRef(StepRef(r, stmt).st, rest)
    ensures StepRef(r, stmt).Rejected? ==> RunRef(r, [stmt] + rest) == StepRef(r, stmt)
  {
    hide StepElem, StepRef;
    assert ([stmt] + rest)[1..] == rest;
  }

  function ElemOne(): Elem { Elem(Last([], map[]), A, map[A := 1], map[A := []], {}, {}, {}) }

  function RefOne(): Ref { Ref(Last([], map[]), A, {A}, map[A := 1], {}, {}, {}) }

  function Child(tableFirst: bool): Entries {
    map["b" := if tableFirst then Table(map[]) else Array([Table(map[])])]
  }

  function ElemTwo(tableFirst: bool): Elem {
    var e := ElemOne().(root := Last([], Child(tableFirst)), current := AB);
    if tableFirst then e.(declared := {(AB, [(1, 1)])})
    else e.(epochs := map[A := 1, AB := 1], openings := map[A := [], AB := [(1, 1)]])
  }

  function RefTwo(tableFirst: bool): Ref {
    var r := RefOne().(root := Last([], Child(tableFirst)), current := AB);
    if tableFirst then r.(declared := {(AB, Element(1, 1))}) else r.(arrays := {A, AB}, epochs := map[A := 1, AB := 1])
  }

  function ElemThree(tableFirst: bool): Elem {
    var e := ElemTwo(tableFirst).(root := Last([Table(Child(tableFirst))], map[]), current := A);
    e.(epochs := if tableFirst then map[A := 2] else map[A := 2, AB := 1])
  }

  function RefThree(tableFirst: bool): Ref {
    var r := RefTwo(tableFirst).(root := Last([Table(Child(tableFirst))], map[]), current := A);
    r.(epochs := if tableFirst then map[A := 2] else map[A := 2, AB := 1])
  }

  lemma FirstHeader()
    ensures StepElem(EmptyElem, ArrayHeader(A)) == Ok(ElemOne()) && StepRef(EmptyRef, ArrayHeader(A)) == Ok(RefOne())
  {
    hide EnsureTable, AppendArrayTable;
    Grown([], map[]);
    NothingRecorded(EmptyElem, EmptyRef, A);
    assert PlaceFrom(EmptyElem, A, 0) == [];
    var f, t := StepElem(EmptyElem, ArrayHeader(A)), StepRef(EmptyRef, ArrayHeader(A));
    assert f.Ok? && f.st.epochs == map[A := 1] && f.st.openings == map[A := []];
    assert t.Ok? && t.st.epochs == map[A := 1] && t.st.arrays == {A};
  }

  lemma ContextAB(epochs: Epochs)
    requires epochs == map[A := 1]
    ensures ContextOf(epochs, AB) == Element(1, 1)
  {
    assert AB[..1] == A && AB[..2] == AB && AB != A;
    assert ContextFrom(epochs, AB, 1) == Element(1, 1);
  }

  lemma NothingRecorded(e: Elem, r: Ref, p: Path)
    requires e.declared == {} && e.dotted == {} && e.closed == {} && r.declared == {} && r.dotted == {}
    requires r.closed == {}
    requires p !in e.openings && p !in r.arrays
    ensures CheckTable(AskElem(e), p) == None && CheckTable(AskRef(r), p) == None
    ensures CheckArray(AskElem(e), p) == None && CheckArray(AskRef(r), p) == None
  {}

  lemma SecondTable()
    ensures StepElem(ElemOne(), TableHeader(AB)) == Ok(ElemTwo(true))
    ensures StepRef(RefOne(), TableHeader(AB)) == Ok(RefTwo(true))
  {
    hide EnsureTable, AppendArrayTable, PlaceFrom, CheckTable;
    var e, r := ElemOne(), RefOne();
    Trees([]);
    PlacesOf(e, 1, 0);
    ContextAB(map[A := 1]);
    assert AB != A;
    NothingRecorded(e, r, AB);
    assert RecordHere(e, e.declared, [AB]) == {(AB, [(1, 1)])} by { assert [AB][..0] == []; }
    assert RecordAll(r.epochs, r.declared, [AB]) == {(AB, Element(1, 1))} by { assert [AB][..0] == []; }
  }

  lemma SecondArray()
    ensures StepElem(ElemOne(), ArrayHeader(AB)) == Ok(ElemTwo(false))
    ensures StepRef(RefOne(), ArrayHeader(AB)) == Ok(RefTwo(false))
  {
    hide EnsureTable, AppendArrayTable, PlaceFrom, CheckArray;
    var e, r := ElemOne(), RefOne();
    Trees([]);
    PlacesOf(e, 1, 0);
    assert AB != A;
    NothingRecorded(e, r, AB);
    var f, t := StepElem(e, ArrayHeader(AB)), StepRef(r, ArrayHeader(AB));
    assert f.Ok? && f.st.epochs == map[A := 1, AB := 1] && f.st.openings == map[A := [], AB := [(1, 1)]];
    assert t.Ok? && t.st.epochs == map[A := 1, AB := 1] && t.st.arrays == {A, AB};
  }

  lemma OpensArray(e: Elem, r: Ref, p: Path, root: Entries)
    requires p != [] && CheckArray(AskElem(e), p) == None && CheckArray(AskRef(r), p) == None
    ensures AppendArrayTable(e.root, p) == Some(root) ==>
      StepElem(e, ArrayHeader(p)) == Ok(Open(e, p).(root := root, current := p))
    ensures AppendArrayTable(r.root, p) == Some(root) ==>
      StepRef(r, ArrayHeader(p)) ==
      Ok(r.(root := root, current := p, arrays := r.arrays + {p}, epochs := r.epochs[p := NextEpoch(r.epochs, p)]))
  {
    hide CheckArray, AppendArrayTable, Open;
  }

  lemma Bumped<T>(a: Path, b: Path, x: T, y: T, z: T)
    requires a != b
    ensures map[a := x][a := z] == map[a := z] && map[a := x, b := y][a := z] == map[a := z, b := y]
  {}

  lemma ThirdElem(tableFirst: bool)
    ensures StepElem(ElemTwo(tableFirst), ArrayHeader(A)) == Ok(ElemThree(tableFirst))
  {
    hide StepElem, AppendArrayTable, PlaceFrom, CheckArray, Child, Last;
    var e := ElemTwo(tableFirst);
    Grown([], Child(tableFirst));
    assert [] + [Table(Child(tableFirst))] == [Table(Child(tableFirst))];
    PlacesOf(e, 1, if tableFirst then 0 else 1);
    OnlyAB(e, RefOne());
    OpensArray(e, RefOne(), A, Last([Table(Child(tableFirst))], map[]));
    Bumped(A, AB, 1, 1, 2);
    Bumped(A, AB, [], [(1, 1)], []);
    assert e.epochs[A] == 1;
  }

  lemma ThirdRef(tableFirst: bool)
    ensures StepRef(RefTwo(tableFirst), ArrayHeader(A)) == Ok(RefThree(tableFirst))
  {
    hide StepRef, AppendArrayTable, CheckArray, Child, Last;
    var r := RefTwo(tableFirst);
    Grown([], Child(tableFirst));
    assert [] + [Table(Child(tableFirst))] == [Table(Child(tableFirst))];
    OnlyAB(ElemOne(), r);
    OpensArray(ElemOne(), r, A, Last([Table(Child(tableFirst))], map[]));
    Bumped(A, AB, 1, 1, 2);
    assert r.epochs[A] == 1 && r.arrays + {A} == r.arrays;
  }

  lemma OnlyAB(e: Elem, r: Ref)
    requires e.declared <= {(AB, [(1, 1)])} && r.declared <= {(AB, Element(1, 1))}
    requires e.dotted == {} && e.closed == {} && r.dotted == {} && r.closed == {}
    ensures CheckArray(AskElem(e), A) == None && CheckArray(AskRef(r), A) == None
  {
    assert A != AB;
    assert forall x | x in r.declared :: x.0 == AB;
  }

  /** `[[a]] [a.b] [[a]] [[a.b]]` and `[[a]] [[a.b]] [[a]] [a.b]`: each element of `a` is well formed, and
      the source refuses the second for what the first holds. */
  lemma StaleRecordsRefuse(tableFirst: bool)
    ensures Program(Document(tableFirst)) && RunElem(EmptyElem, Document(tableFirst)).Ok?
    ensures Run(Empty, Document(tableFirst)) == Rejected(if tableFirst then RedefinesTable else RedefinesArray)
  {
    hide StepElem, StepRef, RunElem, RunRef, Run;
    var x, y := TableHeader(AB), ArrayHeader(AB);
    var second, last := if tableFirst then x else y, if tableFirst then y else x;
    FirstHeader();
    if tableFirst { SecondTable(); } else { SecondArray(); }
    ThirdElem(tableFirst);
    ThirdRef(tableFirst);
    SecondElement(ElemThree(tableFirst), RefThree(tableFirst), tableFirst);
    RunsCons(ElemThree(tableFirst), RefThree(tableFirst), last, []);
    RunsCons(ElemTwo(tableFirst), RefTwo(tableFirst), ArrayHeader(A), [last] + []);
    RunsCons(ElemOne(), RefOne(), second, [ArrayHeader(A)] + ([last] + []));
    RunsCons(EmptyElem, EmptyRef, ArrayHeader(A), [second] + ([ArrayHeader(A)] + ([last] + [])));
    RunsNil(StepElem(ElemThree(tableFirst), last).st);
    assert NulFree(A) && NulFree(AB);
    LatestContextSuffices(Document(tableFirst));
  }

  lemma RunsNil(e: Elem)
    ensures RunElem(e, []) == Ok(e)
  {}
}
