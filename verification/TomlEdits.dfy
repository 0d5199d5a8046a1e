/** Exactly when `Bytes` of pkg/toml/document.go writes every replacement and deletion: entries of
    different paths must not share a line, and where entries of one path do, the deletions that the
    cursor loop skips must leave nothing behind. */
module TomlEdits {
  import opened Text
  import opened TomlDocument
  import opened TomlEditor

  // ---------------------------------------------------------------- parsed entries

  /** What parsing gives: values in order and apart, lines in order, no line ends where a value starts,
      and a key on a shared line has the start of its value there too. */
  predicate Layout(raw: Bytes, entries: seq<Entry>) {
    && SpansIn(raw, entries)
    && (forall i | 0 <= i < |entries| :: entries[i].value.start < entries[i].value.end)
    && (forall i, j | 0 <= i < j < |entries| :: InOrder(entries[i], entries[j]))
    && (forall i, j | 0 <= i < |entries| && 0 <= j < |entries| :: entries[i].line.end != entries[j].value.start)
  }

  predicate InOrder(x: Entry, y: Entry) {
    && x.value.end < y.value.start
    && x.line.start <= y.line.start && x.line.end <= y.line.end
    && (y.line.start < x.line.end ==> y.value.start < x.line.end)
  }

  /** The cursor after the deletions of one path's lines among the first `n` entries. */
  function Sweep(entries: seq<Entry>, key: Bytes, n: nat): nat
    requires n <= |entries|
  {
    if n == 0 then 0 else
      var c, e := Sweep(entries, key, n - 1), entries[n - 1];
      if e.key == key && e.line.start >= c then e.line.end else c
  }

  /** Deleting the path, the line of entry `t` is not skipped. */
  predicate Kept(entries: seq<Entry>, t: nat)
    requires t < |entries|
  {
    Sweep(entries, entries[t].key, t) <= entries[t].line.start
  }

  /** Entries of different paths stand on different lines. */
  predicate PathsApart(entries: seq<Entry>) {
    forall i, j | 0 <= i < j < |entries| && entries[i].key != entries[j].key ::
      entries[i].line.end <= entries[j].line.start
  }

  /** A skipped line does not run past the cursor, or the path has a line that starts right there. */
  predicate Swept(entries: seq<Entry>) {
    forall t | 0 <= t < |entries| && !Kept(entries, t) ::
      var c := Sweep(entries, entries[t].key, t);
      entries[t].line.end <= c || StartsAt(entries, entries[t].key, c)
  }

  predicate StartsAt(entries: seq<Entry>, key: Bytes, p: nat) {
    exists z | 0 <= z < |entries| :: entries[z].key == key && entries[z].line.start == p
  }

  predicate Separate(entries: seq<Entry>) { PathsApart(entries) && Swept(entries) }

  // ---------------------------------------------------------------- one path's lines

  lemma {:induction false} SweepGrows(raw: Bytes, entries: seq<Entry>, key: Bytes, m: nat, n: nat)
    requires SpansIn(raw, entries) && m <= n <= |entries|
    ensures Sweep(entries, key, m) <= Sweep(entries, key, n)
    decreases n
  {
    if m < n {
      SweepGrows(raw, entries, key, m, n - 1);
      assert entries[n - 1].line.start <= entries[n - 1].line.end;
    }
  }

  /** A kept line ends at or before every later cursor. */
  lemma KeptBelow(raw: Bytes, entries: seq<Entry>, i: nat, t: nat)
    requires SpansIn(raw, entries) && i < t <= |entries| && Kept(entries, i)
    ensures entries[i].line.end <= Sweep(entries, entries[i].key, t)
  {
    SweepGrows(raw, entries, entries[i].key, i + 1, t);
  }

  /** The cursor is the end of the last kept line. */
  lemma {:induction false} SweepFrom(entries: seq<Entry>, key: Bytes, n: nat) returns (i: nat)
    requires n <= |entries| && Sweep(entries, key, n) > 0
    ensures i < n && entries[i].key == key && Kept(entries, i) && entries[i].line.end == Sweep(entries, key, n)
  {
    var e := entries[n - 1];
    if e.key == key && e.line.start >= Sweep(entries, key, n - 1) {
      i := n - 1;
    } else {
      i := SweepFrom(entries, key, n - 1);
    }
  }

  /** While the path's lines start before the cursor, it stays. */
  lemma {:induction false} SweepStays(entries: seq<Entry>, key: Bytes, t: nat, n: nat)
    requires t <= n <= |entries|
    requires forall u | t <= u < n && entries[u].key == key :: entries[u].line.start < Sweep(entries, key, t)
    ensures Sweep(entries, key, n) == Sweep(entries, key, t)
    decreases n
  {
    if t < n { SweepStays(entries, key, t, n - 1); }
  }

  lemma {:induction false} FirstAt(entries: seq<Entry>, key: Bytes, p: nat, z: nat) returns (y: nat)
    requires z < |entries| && entries[z].key == key && entries[z].line.start == p
    ensures y <= z && entries[y].key == key && entries[y].line.start == p
    ensures forall u | 0 <= u < y :: !(entries[u].key == key && entries[u].line.start == p)
    decreases z
  {
    if x :| 0 <= x < z && entries[x].key == key && entries[x].line.start == p {
      y := FirstAt(entries, key, p, x);
    } else {
      y := z;
    }
  }

  /** The first line of the path that starts at the cursor is kept. */
  lemma KeptAt(raw: Bytes, entries: seq<Entry>, t: nat, z: nat) returns (y: nat)
    requires Layout(raw, entries) && t < |entries| && !Kept(entries, t)
    requires z < |entries| && entries[z].key == entries[t].key
    requires entries[z].line.start == Sweep(entries, entries[t].key, t)
    ensures t < y < |entries| && entries[y].key == entries[t].key && Kept(entries, y)
    ensures entries[y].line.start == Sweep(entries, entries[t].key, t)
  {
    var key := entries[t].key;
    var c := Sweep(entries, key, t);
    y := FirstAt(entries, key, c, z);
    assert y > t;
    forall u | t <= u < y && entries[u].key == key ensures entries[u].line.start < c {
      assert InOrder(entries[u], entries[y]);
    }
    SweepStays(entries, key, t, y);
  }

  /** Every byte of the path's lines is in a kept line. */
  lemma SweptCovers(raw: Bytes, entries: seq<Entry>, t: nat, p: nat) returns (i: nat)
    requires Layout(raw, entries) && Swept(entries) && t < |entries|
    requires entries[t].line.start <= p < entries[t].line.end
    ensures i < |entries| && entries[i].key == entries[t].key && Kept(entries, i)
    ensures entries[i].line.start <= p < entries[i].line.end
  {
    i := t;
    if !Kept(entries, t) {
      var c := Sweep(entries, entries[t].key, t);
      if p < c {
        i := SweepFrom(entries, entries[t].key, t);
        assert InOrder(entries[i], entries[t]);
      } else {
        var z :| 0 <= z < |entries| && entries[z].key == entries[t].key && entries[z].line.start == c;
        i := KeptAt(raw, entries, t, z);
        assert InOrder(entries[t], entries[i]);
      }
    }
  }

  /** Otherwise the first byte behind the cursor is in no kept line. */
  lemma UnsweptByte(raw: Bytes, entries: seq<Entry>, t: nat, i: nat)
    requires Layout(raw, entries) && t < |entries| && !Kept(entries, t)
    requires i < |entries| && entries[i].key == entries[t].key && Kept(entries, i)
    requires !StartsAt(entries, entries[t].key, Sweep(entries, entries[t].key, t))
    ensures var c := Sweep(entries, entries[t].key, t); !(entries[i].line.start <= c < entries[i].line.end)
  {
    var key := entries[t].key;
    if i < t {
      KeptBelow(raw, entries, i, t);
    } else {
      SweepGrows(raw, entries, key, t, i);
      assert !(entries[i].key == key && entries[i].line.start == Sweep(entries, key, t));
    }
  }

  // ---------------------------------------------------------------- what the cursor loop keeps

  predicate Edited(e: Entry, replacements: map<Bytes, Bytes>, deletions: set<Bytes>) {
    e.key in deletions || e.key in replacements
  }

  /** Edited entries of different paths stand on different lines. */
  predicate Apart(entries: seq<Entry>, replacements: map<Bytes, Bytes>, deletions: set<Bytes>) {
    forall i, j | 0 <= i < j < |entries| && entries[i].key != entries[j].key
        && Edited(entries[i], replacements, deletions) && Edited(entries[j], replacements, deletions) ::
      entries[i].line.end <= entries[j].line.start
  }

  /** The operation of entry `t` is not skipped. */
  predicate Survives(entries: seq<Entry>, replacements: map<Bytes, Bytes>, deletions: set<Bytes>, t: nat)
    requires t < |entries|
  {
    Edited(entries[t], replacements, deletions) && (entries[t].key in deletions ==> Kept(entries, t))
  }

  /** The cursor after the first `n` entries: the end of an operation `u`, and past every path's sweep. */
  predicate CursorOk(entries: seq<Entry>, replacements: map<Bytes, Bytes>, deletions: set<Bytes>, n: nat, c: nat)
    requires n <= |entries|
  {
    && (forall k | k in deletions :: Sweep(entries, k, n) <= c)
    && (c == 0 || exists u | 0 <= u < n :: EndsOp(entries, replacements, deletions, n, u, c))
  }

  predicate EndsOp(entries: seq<Entry>, replacements: map<Bytes, Bytes>, deletions: set<Bytes>, n: nat, u: nat, c: nat)
    requires u < n <= |entries|
  {
    && Edited(entries[u], replacements, deletions)
    && EntryOp(entries[u], replacements, deletions).value.end == c
    && (entries[u].key in deletions ==> Sweep(entries, entries[u].key, n) == c)
  }

  /** The guard on the next deletion is the guard of its own path's sweep. */
  lemma DeletionGuard(raw: Bytes, entries: seq<Entry>, replacements: map<Bytes, Bytes>, deletions: set<Bytes>,
      n: nat, c: nat)
    requires Layout(raw, entries) && Apart(entries, replacements, deletions) && n < |entries|
    requires CursorOk(entries, replacements, deletions, n, c) && entries[n].key in deletions
    ensures Kept(entries, n) <==> c <= entries[n].line.start
  {
    if c > entries[n].line.start {
      var u :| 0 <= u < n && EndsOp(entries, replacements, deletions, n, u, c);
      assert entries[u].value.end <= entries[u].line.end;
    }
  }

  /** No replacement is skipped. */
  lemma ReplacementGuard(raw: Bytes, entries: seq<Entry>, replacements: map<Bytes, Bytes>, deletions: set<Bytes>,
      n: nat, c: nat)
    requires Layout(raw, entries) && Apart(entries, replacements, deletions) && n < |entries|
    requires CursorOk(entries, replacements, deletions, n, c)
    requires entries[n].key in replacements && entries[n].key !in deletions
    ensures c <= entries[n].value.start
  {
    if c > 0 {
      var u :| 0 <= u < n && EndsOp(entries, replacements, deletions, n, u, c);
      assert InOrder(entries[u], entries[n]) && entries[u].value.end <= entries[u].line.end;
      assert entries[n].line.start <= entries[n].value.start;
    }
  }

  lemma CursorStays(entries: seq<Entry>, replacements: map<Bytes, Bytes>, deletions: set<Bytes>, n: nat, c: nat)
    requires n < |entries| && CursorOk(entries, replacements, deletions, n, c)
    requires entries[n].key in deletions ==> !Kept(entries, n)
    ensures CursorOk(entries, replacements, deletions, n + 1, c)
  {
    if c > 0 {
      var u :| 0 <= u < n && EndsOp(entries, replacements, deletions, n, u, c);
      assert EndsOp(entries, replacements, deletions, n + 1, u, c);
    }
  }

  lemma CursorMoves(raw: Bytes, entries: seq<Entry>, replacements: map<Bytes, Bytes>, deletions: set<Bytes>,
      n: nat, c: nat)
    requires Layout(raw, entries) && n < |entries| && CursorOk(entries, replacements, deletions, n, c)
    requires Survives(entries, replacements, deletions, n)
    requires c <= EntryOp(entries[n], replacements, deletions).value.start
    ensures CursorOk(entries, replacements, deletions, n + 1, EntryOp(entries[n], replacements, deletions).value.end)
  {
    var end := EntryOp(entries[n], replacements, deletions).value.end;
    assert entries[n].line.start <= entries[n].line.end;
    assert EndsOp(entries, replacements, deletions, n + 1, n, end);
  }

  /** The operations of the first `n` entries in the loop. */
  ghost predicate LoopOk(raw: Bytes, entries: seq<Entry>, replacements: map<Bytes, Bytes>, deletions: set<Bytes>,
      n: nat)
    requires n <= |entries|
  {
    var ops := EntryOps(entries[..n], replacements, deletions);
    var w := Written(raw, ops, 0);
    && CursorOk(entries, replacements, deletions, n, CursorAfter(raw, ops, 0))
    && (forall p :: InsertedAt(w, p) == InsertedAt(ops, p) && ReplacedAt(w, p) == ReplacedAt(ops, p))
    && (forall x :: x in w <==>
          exists t | 0 <= t < n :: Survives(entries, replacements, deletions, t)
            && EntryOp(entries[t], replacements, deletions) == Some(x))
  }

  lemma {:induction false} LoopRuns(raw: Bytes, entries: seq<Entry>, replacements: map<Bytes, Bytes>,
      deletions: set<Bytes>, n: nat)
    requires Layout(raw, entries) && Apart(entries, replacements, deletions) && n <= |entries|
    ensures LoopOk(raw, entries, replacements, deletions, n)
    decreases n
  {
    hide LoopOk, Layout, Apart;
    if n == 0 {
      assert entries[..0] == [];
      LoopStarts(raw, entries, replacements, deletions);
    } else {
      LoopRuns(raw, entries, replacements, deletions, n - 1);
      LoopStep(raw, entries, replacements, deletions, n - 1);
    }
  }

  lemma LoopStarts(raw: Bytes, entries: seq<Entry>, replacements: map<Bytes, Bytes>, deletions: set<Bytes>)
    ensures LoopOk(raw, entries, replacements, deletions, 0)
  {
    assert entries[..0] == [];
    NoEntriesNoOps(replacements, deletions);
  }

  lemma LoopStep(raw: Bytes, entries: seq<Entry>, replacements: map<Bytes, Bytes>, deletions: set<Bytes>, n: nat)
    requires Layout(raw, entries) && Apart(entries, replacements, deletions) && n < |entries|
    requires LoopOk(raw, entries, replacements, deletions, n)
    ensures LoopOk(raw, entries, replacements, deletions, n + 1)
  {
    hide EntryOps, Written, CursorAfter, InsertedAt, ReplacedAt, CursorOk, Layout, Apart, Kept;
    var e := entries[n];
    var ops := EntryOps(entries[..n], replacements, deletions);
    var c := CursorAfter(raw, ops, 0);
    var next := entries[..n + 1];
    assert next[..n] == entries[..n] && next[n] == e;
    EntryOpsLast(next, replacements, deletions);
    var op := EntryOp(e, replacements, deletions);
    if op.None? {
      assert ops + [] == ops;
      CursorStays(entries, replacements, deletions, n, c);
    } else {
      var x := op.value;
      WrittenLast(raw, ops, x, 0);
      EntryOpIn(raw, entries, replacements, deletions, n);
      if e.key in deletions { DeletionGuard(raw, entries, replacements, deletions, n, c); }
      else { ReplacementGuard(raw, entries, replacements, deletions, n, c); }
      if Skips(raw, c, x) {
        assert Written(raw, ops, 0) + [] == Written(raw, ops, 0);
        CursorStays(entries, replacements, deletions, n, c);
        forall p
          ensures InsertedAt(ops + [x], p) == InsertedAt(ops, p) && ReplacedAt(ops + [x], p) == ReplacedAt(ops, p)
        {
          TextsOfLast(ops, x, p);
          Padding(InsertedAt(ops, p));
          Padding(ReplacedAt(ops, p));
        }
      } else {
        CursorMoves(raw, entries, replacements, deletions, n, c);
        var w := Written(raw, ops, 0);
        forall p
          ensures InsertedAt(ops + [x], p) == InsertedAt(w + [x], p)
          ensures ReplacedAt(ops + [x], p) == ReplacedAt(w + [x], p)
        {
          TextsOfLast(ops, x, p);
          TextsOfLast(w, x, p);
        }
      }
    }
  }

  lemma EntryOpIn(raw: Bytes, entries: seq<Entry>, replacements: map<Bytes, Bytes>, deletions: set<Bytes>, n: nat)
    requires Layout(raw, entries) && n < |entries| && EntryOp(entries[n], replacements, deletions).Some?
    ensures var x := EntryOp(entries[n], replacements, deletions).value; OpIn(raw, x) && x.start < x.end
  {
    assert entries[n].line.start <= entries[n].value.start;
  }

  lemma EntriesSorted(raw: Bytes, entries: seq<Entry>, replacements: map<Bytes, Bytes>, deletions: set<Bytes>,
      i: nat, j: nat)
    requires Layout(raw, entries) && Apart(entries, replacements, deletions) && i < j < |entries|
    requires Edited(entries[i], replacements, deletions) && Edited(entries[j], replacements, deletions)
    ensures !After(EntryOp(entries[i], replacements, deletions).value,
        EntryOp(entries[j], replacements, deletions).value)
  {
    assert InOrder(entries[i], entries[j]);
    assert entries[i].line.start <= entries[i].value.start <= entries[i].value.end <= entries[i].line.end;
    assert entries[j].line.start <= entries[j].value.start <= entries[j].value.end <= entries[j].line.end;
  }

  lemma {:induction false} OpsSorted(raw: Bytes, entries: seq<Entry>, replacements: map<Bytes, Bytes>,
      deletions: set<Bytes>, n: nat)
    requires Layout(raw, entries) && Apart(entries, replacements, deletions) && n <= |entries|
    ensures Sorted(EntryOps(entries[..n], replacements, deletions))
    ensures forall y | y in EntryOps(entries[..n], replacements, deletions) ::
      exists i | 0 <= i < n :: EntryOp(entries[i], replacements, deletions) == Some(y)
    decreases n
  {
    hide EntryOps, Layout, Apart, After, EntryOp;
    if n == 0 {
      assert entries[..0] == [];
      NoEntriesNoOps(replacements, deletions);
    } else {
      OpsSorted(raw, entries, replacements, deletions, n - 1);
      var ops, next := EntryOps(entries[..n - 1], replacements, deletions), entries[..n];
      assert next[..n - 1] == entries[..n - 1];
      EntryOpsLast(next, replacements, deletions);
      var op := EntryOp(entries[n - 1], replacements, deletions);
      if op.Some? {
        forall k | 0 <= k < |ops| ensures !After(ops[k], op.value) {
          assert ops[k] in ops;
          var i :| 0 <= i < n - 1 && EntryOp(entries[i], replacements, deletions) == Some(ops[k]);
          EditedOps(entries[i], replacements, deletions);
          EditedOps(entries[n - 1], replacements, deletions);
          EntriesSorted(raw, entries, replacements, deletions, i, n - 1);
        }
      }
    }
  }

  lemma EditedOps(e: Entry, replacements: map<Bytes, Bytes>, deletions: set<Bytes>)
    ensures EntryOp(e, replacements, deletions).Some? <==> Edited(e, replacements, deletions)
  {}

  lemma {:induction false} SameRender(raw: Bytes, a: seq<Op>, b: seq<Op>, p: nat)
    requires p <= |raw|
    requires forall q :: InsertedAt(a, q) == InsertedAt(b, q) && ReplacedAt(a, q) == ReplacedAt(b, q)
    requires forall q :: Covered(a, q) == Covered(b, q)
    ensures Render(raw, a, p) == Render(raw, b, p)
    decreases |raw| - p
  {
    hide InsertedAt, ReplacedAt, Covered;
    if p < |raw| { SameRender(raw, a, b, p + 1); }
  }

  lemma SweptOps(raw: Bytes, entries: seq<Entry>, replacements: map<Bytes, Bytes>, deletions: set<Bytes>, p: nat)
    requires Layout(raw, entries) && Swept(entries) && LoopOk(raw, entries, replacements, deletions, |entries|)
    ensures var ops := EntryOps(entries, replacements, deletions);
      Covered(Written(raw, ops, 0), p) == Covered(ops, p)
  {
    hide Written, CursorAfter, InsertedAt, ReplacedAt, CursorOk, Kept, EntryOps, Layout, Swept;
    var ops := EntryOps(entries, replacements, deletions);
    assert entries[..|entries|] == entries;
    var w := Written(raw, ops, 0);
    EntryOpsCover(entries, replacements, deletions, p);
    if Covered(w, p) {
      var x :| x in w && x.start <= p < x.end;
      var t :| 0 <= t < |entries| && Survives(entries, replacements, deletions, t)
        && EntryOp(entries[t], replacements, deletions) == Some(x);
      assert Hides(entries[t], replacements, deletions, p);
    }
    if Covered(ops, p) {
      var t :| 0 <= t < |entries| && Hides(entries[t], replacements, deletions, p);
      if entries[t].key in deletions {
        var i := SweptCovers(raw, entries, t, p);
        assert Survives(entries, replacements, deletions, i);
        assert EntryOp(entries[i], replacements, deletions).value in w;
      } else {
        assert Survives(entries, replacements, deletions, t);
        assert EntryOp(entries[t], replacements, deletions).value in w;
      }
    }
  }

  /** Separate entries: whatever the edits, what is written is the edited text. */
  lemma SeparateSuffices(raw: Bytes, entries: seq<Entry>, replacements: map<Bytes, Bytes>, deletions: set<Bytes>)
    requires Layout(raw, entries) && Separate(entries)
    ensures var ops := EntryOps(entries, replacements, deletions);
      Splice(raw, StableSort(ops), 0) == Render(raw, ops, 0)
  {
    hide EntryOps, Splice, Render, StableSort, Written, Layout, Swept, InsertedAt, ReplacedAt, Covered, CursorOk,
        Survives;
    var ops := EntryOps(entries, replacements, deletions);
    assert entries[..|entries|] == entries;
    LoopRuns(raw, entries, replacements, deletions, |entries|);
    OpsSorted(raw, entries, replacements, deletions, |entries|);
    SortedStays(ops);
    SpliceIsWritten(raw, ops);
    forall p ensures Covered(Written(raw, ops, 0), p) == Covered(ops, p) {
      SweptOps(raw, entries, replacements, deletions, p);
    }
    SameRender(raw, Written(raw, ops, 0), ops, 0);
  }

  // ---------------------------------------------------------------- sizes

  function TextSize(ops: seq<Op>): nat {
    if ops == [] then 0 else TextSize(ops[..|ops| - 1]) + |ops[|ops| - 1].text|
  }

  /** Original bytes from `p` on that no operation covers. */
  function Uncovered(raw: Bytes, ops: seq<Op>, p: nat): nat
    requires p <= |raw|
    decreases |raw| - p
  {
    if p == |raw| then 0 else Uncovered(raw, ops, p + 1) + if Covered(ops, p) then 0 else 1
  }

  /** Inserted and replaced text from `p` on. */
  function TextsFrom(raw: Bytes, ops: seq<Op>, p: nat): nat
    requires p <= |raw|
    decreases |raw| - p
  {
    |InsertedAt(ops, p)| + |ReplacedAt(ops, p)| + if p == |raw| then 0 else TextsFrom(raw, ops, p + 1)
  }

  lemma {:induction false} RenderParts(raw: Bytes, ops: seq<Op>, p: nat)
    requires p <= |raw|
    ensures |Render(raw, ops, p)| == TextsFrom(raw, ops, p) + Uncovered(raw, ops, p)
    decreases |raw| - p
  {
    hide InsertedAt, ReplacedAt, Covered;
    if p < |raw| { RenderParts(raw, ops, p + 1); }
  }

  lemma {:induction false} TextsLast(raw: Bytes, ops: seq<Op>, x: Op, p: nat)
    requires p <= |raw| && x.start <= x.end && x.start <= |raw|
    ensures TextsFrom(raw, ops + [x], p) == TextsFrom(raw, ops, p) + if p <= x.start then |x.text| else 0
    decreases |raw| - p
  {
    hide InsertedAt, ReplacedAt;
    TextsOfLast(ops, x, p);
    if p < |raw| { TextsLast(raw, ops, x, p + 1); }
  }

  lemma {:induction false} NoTexts(raw: Bytes, p: nat)
    requires p <= |raw|
    ensures TextsFrom(raw, [], p) == 0
    decreases |raw| - p
  {
    if p < |raw| { NoTexts(raw, p + 1); }
  }

  lemma {:induction false} AllTexts(raw: Bytes, ops: seq<Op>)
    requires AllIn(raw, ops)
    ensures TextsFrom(raw, ops, 0) == TextSize(ops)
  {
    hide TextsFrom;
    if ops == [] {
      NoTexts(raw, 0);
    } else {
      var rest, x := ops[..|ops| - 1], ops[|ops| - 1];
      AllTexts(raw, rest);
      assert OpIn(raw, x) && ops == rest + [x];
      TextsLast(raw, rest, x, 0);
    }
  }

  /** The size of the edited text. */
  lemma RenderSize(raw: Bytes, ops: seq<Op>)
    requires AllIn(raw, ops)
    ensures |Render(raw, ops, 0)| == TextSize(ops) + Uncovered(raw, ops, 0)
  {
    RenderParts(raw, ops, 0);
    AllTexts(raw, ops);
  }

  lemma {:induction false} FewerUncovered(raw: Bytes, a: seq<Op>, b: seq<Op>, p: nat)
    requires p <= |raw| && forall q :: Covered(a, q) ==> Covered(b, q)
    ensures Uncovered(raw, b, p) <= Uncovered(raw, a, p) <= |raw| - p
    decreases |raw| - p
  {
    hide Covered;
    if p < |raw| { FewerUncovered(raw, a, b, p + 1); }
  }

  lemma {:induction false} FewerUncoveredAt(raw: Bytes, a: seq<Op>, b: seq<Op>, p: nat, q: nat)
    requires p <= q < |raw| && (forall o :: Covered(a, o) ==> Covered(b, o)) && Covered(b, q) && !Covered(a, q)
    ensures Uncovered(raw, b, p) < Uncovered(raw, a, p)
    decreases q - p
  {
    hide Covered;
    FewerUncovered(raw, a, b, p + 1);
    if p < q { FewerUncoveredAt(raw, a, b, p + 1, q); }
  }

  // ---------------------------------------------------------------- text that is lost or left

  lemma TextSizeLast(ops: seq<Op>, x: Op)
    ensures TextSize(ops + [x]) == TextSize(ops) + |x.text|
  {
    assert (ops + [x])[..|ops|] == ops;
  }

  lemma {:induction false} InsertedSize(ops: seq<Op>, x: Op)
    ensures TextSize(InsertSorted(ops, x)) == TextSize(ops) + |x.text|
  {
    if ops != [] && After(ops[|ops| - 1], x) {
      var rest, last := ops[..|ops| - 1], ops[|ops| - 1];
      InsertedSize(rest, x);
      TextSizeLast(InsertSorted(rest, x), last);
    } else {
      TextSizeLast(ops, x);
    }
  }

  lemma {:induction false} SortedSize(ops: seq<Op>)
    ensures TextSize(StableSort(ops)) == TextSize(ops)
  {
    if ops != [] {
      SortedSize(ops[..|ops| - 1]);
      InsertedSize(StableSort(ops[..|ops| - 1]), ops[|ops| - 1]);
    }
  }

  /** Every text is empty or `text`. */
  predicate OneText(ops: seq<Op>, text: Bytes) { forall x | x in ops :: x.text == "" || x.text == text }

  /** `w` is among `ops`; each text that is not in `w` is missing whole, and that of `y` is if `y` is not
      there. */
  predicate Sized(ops: seq<Op>, w: seq<Op>, text: Bytes, y: Op) {
    && (forall x | x in w :: x in ops)
    && (TextSize(w) == TextSize(ops) || TextSize(w) + |text| <= TextSize(ops))
    && (y in ops && y.text == text && y !in w ==> TextSize(w) + |text| <= TextSize(ops))
  }

  lemma SizedStep(ops: seq<Op>, w: seq<Op>, x: Op, text: Bytes, y: Op)
    requires Sized(ops, w, text, y) && (x.text == "" || x.text == text)
    ensures Sized(ops + [x], w, text, y) && Sized(ops + [x], w + [x], text, y)
  {
    hide TextSize;
    TextSizeLast(ops, x);
    TextSizeLast(w, x);
  }

  lemma {:induction false} WrittenSize(raw: Bytes, ops: seq<Op>, text: Bytes, y: Op)
    requires OneText(ops, text)
    ensures Sized(ops, Written(raw, ops, 0), text, y)
  {
    hide Written, Skips, Sized;
    if ops == [] {
      NoneWritten(raw);
      assert Sized([], [], text, y) by { NoneSized(text, y); }
    } else {
      var rest, x := ops[..|ops| - 1], ops[|ops| - 1];
      assert ops == rest + [x] && x in ops;
      WrittenSize(raw, rest, text, y);
      WrittenLast(raw, rest, x, 0);
      SizedStep(rest, Written(raw, rest, 0), x, text, y);
      assert Written(raw, rest, 0) + [] == Written(raw, rest, 0);
    }
  }

  lemma NoneSized(text: Bytes, y: Op)
    ensures Sized([], [], text, y)
  {}

  lemma NoneWritten(raw: Bytes)
    ensures Written(raw, [], 0) == []
  {}

  lemma SubsetCovers(a: seq<Op>, b: seq<Op>)
    requires forall x | x in a :: x in b
    ensures forall q :: Covered(a, q) ==> Covered(b, q)
  {}

  /** A byte that is covered but in no written operation stays, unless whole texts are missing. */
  lemma SizesDiffer(raw: Bytes, ops: seq<Op>, text: Bytes, q: nat)
    requires AllIn(raw, ops) && OneText(ops, text) && q < |raw| && Covered(ops, q)
    requires var w := Written(raw, StableSort(ops), 0);
      || (TextSize(w) + |text| <= TextSize(ops) && |text| > |raw|)
      || (TextSize(w) == TextSize(ops) && !Covered(w, q))
    ensures Splice(raw, StableSort(ops), 0) != Render(raw, ops, 0)
  {
    hide Splice, Render, Written, StableSort, Covered, TextSize, Uncovered;
    var sorted := StableSort(ops);
    var w := Written(raw, sorted, 0);
    StableSortFacts(ops);
    assert OneText(sorted, text);
    WrittenSize(raw, sorted, text, Op(0, 0, text));
    SpliceIsWritten(raw, sorted);
    WrittenChained(raw, sorted, 0);
    RenderSize(raw, w);
    RenderSize(raw, ops);
    SubsetCovers(w, ops);
    FewerUncovered(raw, w, ops, 0);
    if !Covered(w, q) { FewerUncoveredAt(raw, w, ops, 0, q); }
  }

  /** Entries of different paths on one line: deleting the first loses the replacement of the second, or
      leaves what stands before it. */
  lemma SharedLineLoses(raw: Bytes, entries: seq<Entry>, i: nat, j: nat, text: Bytes)
    requires Layout(raw, entries) && i < j < |entries| && entries[i].key != entries[j].key
    requires entries[j].line.start < entries[i].line.end && |text| > |raw|
    ensures var ops := EntryOps(entries, map[entries[j].key := text], {entries[i].key});
      Splice(raw, StableSort(ops), 0) != Render(raw, ops, 0)
  {
    hide EntryOps, Splice, Render, Written, StableSort, Layout, TextSize, InOrder;
    var r, d := map[entries[j].key := text], {entries[i].key};
    var ops := EntryOps(entries, r, d);
    var y := Op(entries[j].value.start, entries[j].value.end, text);
    var q := entries[j].value.start - 1;
    SharedFacts(raw, entries, i, j);
    EntryOpsWithin(raw, entries, r, d);
    OpsOf(entries, r, d);
    assert EntryOp(entries[j], r, d) == Some(y);
    assert Covered(ops, q) by {
      EntryOpsCover(entries, r, d, q);
      assert Hides(entries[i], r, d, q);
    }
    var sorted := StableSort(ops);
    StableSortFacts(ops);
    SortedSize(ops);
    assert OneText(sorted, text);
    WrittenSize(raw, sorted, text, y);
    var w := Written(raw, sorted, 0);
    if TextSize(w) == TextSize(sorted) {
      assert y in w;
      WrittenChained(raw, sorted, 0);
      if Covered(w, q) {
        var x :| x in w && x.start <= q < x.end;
        ChainedMeet(raw, w, x, y);
        var t :| 0 <= t < |entries| && EntryOp(entries[t], r, d) == Some(x);
        NoOpEndsAt(raw, entries, r, d, t, j);
      }
    }
    SizesDiffer(raw, ops, text, q);
  }

  lemma SharedFacts(raw: Bytes, entries: seq<Entry>, i: nat, j: nat)
    requires Layout(raw, entries) && i < j < |entries| && entries[j].line.start < entries[i].line.end
    ensures SpansIn(raw, entries)
    ensures entries[i].line.start < entries[j].value.start < entries[i].line.end <= |raw|
  {
    assert InOrder(entries[i], entries[j]);
  }

  predicate HasOp(entries: seq<Entry>, replacements: map<Bytes, Bytes>, deletions: set<Bytes>, x: Op) {
    exists t | 0 <= t < |entries| :: EntryOp(entries[t], replacements, deletions) == Some(x)
  }

  lemma OpsOf(entries: seq<Entry>, replacements: map<Bytes, Bytes>, deletions: set<Bytes>)
    ensures forall x :: x in EntryOps(entries, replacements, deletions) <==> HasOp(entries, replacements, deletions, x)
  {
    var all := seq(|entries|, i requires 0 <= i < |entries| => EntryOp(entries[i], replacements, deletions));
    CollectMembers(all);
    forall x ensures Some(x) in all <==> HasOp(entries, replacements, deletions, x) {
      if t :| 0 <= t < |entries| && EntryOp(entries[t], replacements, deletions) == Some(x) {
        assert all[t] == Some(x);
      }
      if Some(x) in all { var t :| 0 <= t < |all| && all[t] == Some(x); }
    }
  }

  lemma ChainedMeet(raw: Bytes, ops: seq<Op>, x: Op, y: Op)
    requires Chained(raw, ops, 0) && x in ops && y in ops && x != y
    ensures Compatible(x, y)
  {
    var i :| 0 <= i < |ops| && ops[i] == x;
    var j :| 0 <= j < |ops| && ops[j] == y;
    if i < j { assert ops[i].end <= ops[j].start; } else { assert ops[j].end <= ops[i].start; }
  }

  /** No edit ends right where a value starts. */
  lemma NoOpEndsAt(raw: Bytes, entries: seq<Entry>, replacements: map<Bytes, Bytes>, deletions: set<Bytes>, t: nat,
      j: nat)
    requires Layout(raw, entries) && t < |entries| && j < |entries|
    requires EntryOp(entries[t], replacements, deletions).Some?
    ensures EntryOp(entries[t], replacements, deletions).value.end != entries[j].value.start
  {
    if t < j { assert InOrder(entries[t], entries[j]); }
    if j < t { assert InOrder(entries[j], entries[t]); }
  }

  /** Deleting one path, the lines are sorted as they stand, and exactly the kept ones are written. */
  lemma OnePath(raw: Bytes, entries: seq<Entry>, key: Bytes)
    requires Layout(raw, entries)
    ensures var ops := EntryOps(entries, map[], {key});
      && StableSort(ops) == ops && AllIn(raw, ops) && OneText(ops, "")
      && forall x | x in Written(raw, ops, 0) :: SurvivingOp(entries, key, x)
  {
    hide EntryOps, Written, StableSort, InOrder, InsertedAt, ReplacedAt, CursorOk, CursorAfter, Kept;
    var r: map<Bytes, Bytes>, d := map[], {key};
    assert entries[..|entries|] == entries;
    LoopRuns(raw, entries, r, d, |entries|);
    OpsSorted(raw, entries, r, d, |entries|);
    SortedStays(EntryOps(entries, r, d));
    EntryOpsWithin(raw, entries, r, d);
  }

  predicate SurvivingOp(entries: seq<Entry>, key: Bytes, x: Op) {
    exists i | 0 <= i < |entries| :: Survives(entries, map[], {key}, i) && EntryOp(entries[i], map[], {key}) == Some(x)
  }

  /** A skipped line of one path that runs past the cursor leaves its tail. */
  lemma TailStays(raw: Bytes, entries: seq<Entry>, t: nat)
    requires Layout(raw, entries) && t < |entries| && !Kept(entries, t)
    requires var c := Sweep(entries, entries[t].key, t);
      c < entries[t].line.end && !StartsAt(entries, entries[t].key, c)
    ensures var ops := EntryOps(entries, map[], {entries[t].key});
      Splice(raw, StableSort(ops), 0) != Render(raw, ops, 0)
  {
    hide EntryOps, Splice, Render, Written, StableSort, TextSize, InOrder, Covered, OneText, AllIn;
    var r: map<Bytes, Bytes>, key := map[], entries[t].key;
    var ops := EntryOps(entries, r, {key});
    var c := Sweep(entries, key, t);
    assert entries[t].line.end <= |raw|;
    OnePath(raw, entries, key);
    EntryOpsCover(entries, r, {key}, c);
    assert Hides(entries[t], r, {key}, c);
    var w := Written(raw, ops, 0);
    TailUncovered(raw, entries, t, w);
    WrittenSize(raw, ops, "", Op(0, 0, ""));
    NoTextNoSize(ops);
    SizesDiffer(raw, ops, "", c);
  }

  lemma TailUncovered(raw: Bytes, entries: seq<Entry>, t: nat, w: seq<Op>)
    requires Layout(raw, entries) && t < |entries| && !Kept(entries, t)
    requires !StartsAt(entries, entries[t].key, Sweep(entries, entries[t].key, t))
    requires forall x | x in w :: SurvivingOp(entries, entries[t].key, x)
    ensures !Covered(w, Sweep(entries, entries[t].key, t))
  {
    hide Layout, Kept;
    var c := Sweep(entries, entries[t].key, t);
    if x :| x in w && x.start <= c < x.end {
      var i :| 0 <= i < |entries| && Survives(entries, map[], {entries[t].key}, i)
        && EntryOp(entries[i], map[], {entries[t].key}) == Some(x);
      UnsweptByte(raw, entries, t, i);
    }
  }

  lemma {:induction false} NoTextNoSize(ops: seq<Op>)
    requires OneText(ops, "")
    ensures TextSize(ops) == 0
  {
    if ops != [] {
      var rest, x := ops[..|ops| - 1], ops[|ops| - 1];
      assert x in ops && forall y | y in rest :: y in ops;
      NoTextNoSize(rest);
    }
  }

  // ---------------------------------------------------------------- the theorem

  /** All edits of a document come out as written, whichever they are. */
  ghost predicate EveryEditWritten(raw: Bytes, entries: seq<Entry>) {
    forall replacements, deletions ::
      Splice(raw, StableSort(EntryOps(entries, replacements, deletions)), 0)
      == Render(raw, EntryOps(entries, replacements, deletions), 0)
  }

  /** Every set of replacements and deletions gives the original text with exactly those edits if and only
      if entries of different paths never share a line and no skipped line of a path leaves a tail. */
  lemma EditsDecide(raw: Bytes, entries: seq<Entry>)
    requires Layout(raw, entries)
    ensures EveryEditWritten(raw, entries) <==> Separate(entries)
  {
    hide EntryOps, Splice, Render, StableSort, Layout, Kept, Sweep, StartsAt;
    if Separate(entries) {
      forall replacements, deletions
        ensures Splice(raw, StableSort(EntryOps(entries, replacements, deletions)), 0)
          == Render(raw, EntryOps(entries, replacements, deletions), 0)
      {
        SeparateSuffices(raw, entries, replacements, deletions);
      }
    } else if !PathsApart(entries) {
      var i, j :| 0 <= i < j < |entries| && entries[i].key != entries[j].key
        && entries[i].line.end > entries[j].line.start;
      SharedLineLoses(raw, entries, i, j, seq(|raw| + 1, _ => 'x'));
    } else {
      var t :| 0 <= t < |entries| && !Kept(entries, t)
        && entries[t].line.end > Sweep(entries, entries[t].key, t)
        && !StartsAt(entries, entries[t].key, Sweep(entries, entries[t].key, t));
      TailStays(raw, entries, t);
    }
  }

  /** Disjoint lines are separate, so they are enough. */
  lemma DisjointIsSeparate(raw: Bytes, entries: seq<Entry>)
    requires Layout(raw, entries) && LinesDisjoint(entries)
    ensures Separate(entries)
  {
    forall t | 0 <= t < |entries| ensures Kept(entries, t) {
      if Sweep(entries, entries[t].key, t) > 0 { var i := SweepFrom(entries, entries[t].key, t); }
    }
  }

  /** Two entries that share a line are separate exactly if they are of one path and end together. */
  lemma TwoOnALine(raw: Bytes, x: Entry, y: Entry)
    requires Layout(raw, [x, y]) && y.line.start < x.line.end
    ensures Separate([x, y]) <==> x.key == y.key && x.line.end == y.line.end
  {
    var es := [x, y];
    assert es[0] == x && es[1] == y && InOrder(es[0], es[1]);
    assert Sweep(es, x.key, 0) == 0 && Sweep(es, x.key, 1) == x.line.end;
    assert Kept(es, 0);
    if x.key == y.key {
      assert !Kept(es, 1);
      assert !StartsAt(es, y.key, x.line.end);
    }
  }
}
