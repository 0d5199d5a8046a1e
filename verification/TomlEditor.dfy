/** The `Document` object of pkg/toml/document.go: pending edits keyed by path, and the bytes they
    produce. How values are parsed and printed is a parameter. */
module TomlEditor {
  import opened Text
  import opened TomlDocument
  import TomlKey
  import TomlTables

  /** `parse` reads a raw value, `format` prints one, `restyle` prints one over an existing raw value. */
  datatype Codec<!V> = Codec(
    parse: Bytes -> Option<V>, format: V -> Option<Bytes>, restyle: (Bytes, V) -> Option<Bytes>)

  /** A new line for `path`; `after` is the key of its anchor, or empty for the end of the text. */
  datatype Insertion = Insertion(after: Bytes, path: seq<Bytes>)

  function Key(path: seq<Bytes>): Bytes { TomlTables.Encode(path) }

  // ---------------------------------------------------------------- the operations of `Bytes`

  /** Parsed lines lie inside the text and hold their values. */
  predicate SpansIn(raw: Bytes, entries: seq<Entry>) {
    forall i | 0 <= i < |entries| ::
      var e := entries[i];
      e.line.start <= e.value.start <= e.value.end <= e.line.end <= |raw|
  }

  predicate LinesDisjoint(entries: seq<Entry>) {
    forall i, j | 0 <= i < j < |entries| :: entries[i].line.end <= entries[j].line.start
  }

  function EntryOp(e: Entry, replacements: map<Bytes, Bytes>, deletions: set<Bytes>): Option<Op> {
    if e.key in deletions then Some(Op(e.line.start, e.line.end, ""))
    else if e.key in replacements then Some(Op(e.value.start, e.value.end, replacements[e.key]))
    else None
  }

  function Collect(ops: seq<Option<Op>>): seq<Op> {
    if ops == [] then [] else
      Collect(ops[..|ops| - 1]) + if ops[|ops| - 1].Some? then [ops[|ops| - 1].value] else []
  }

  function EntryOps(entries: seq<Entry>, replacements: map<Bytes, Bytes>, deletions: set<Bytes>): seq<Op> {
    Collect(seq(|entries|, i requires 0 <= i < |entries| => EntryOp(entries[i], replacements, deletions)))
  }

  function LineText<V>(codec: Codec<V>, path: seq<Bytes>, value: V): Option<Bytes>
    requires path != []
  {
    var text :- codec.format(value);
    Some(TomlKey.JoinKeys(path) + " = " + text + "\n")
  }

  predicate Indexed(entries: seq<Entry>, byPath: map<Bytes, nat>) {
    && (forall k | k in byPath :: byPath[k] < |entries| && entries[byPath[k]].key == k)
    && (forall i | 0 <= i < |entries| :: entries[i].key in byPath && i <= byPath[entries[i].key])
  }

  /** Where an insertion lands: at the end of the text, on a fresh line, or after its anchor's line. */
  function InsertionOp<V>(raw: Bytes, entries: seq<Entry>, byPath: map<Bytes, nat>, pending: map<Bytes, V>,
      codec: Codec<V>, ins: Insertion): Option<Op>
    requires Indexed(entries, byPath) && ins.path != []
  {
    if Key(ins.path) !in pending then None else
      var text :- LineText(codec, ins.path, pending[Key(ins.path)]);
      if ins.after == "" then
        var prefix := if raw != "" && raw[|raw| - 1] != '\n' then "\n" else "";
        Some(Op(|raw|, |raw|, prefix + text))
      else if ins.after !in byPath then None
      else
        var pos := entries[byPath[ins.after]].line.end;
        Some(Op(pos, pos, text))
  }

  predicate Anchored(byPath: map<Bytes, nat>, insertions: seq<Insertion>) {
    forall i | 0 <= i < |insertions| :: insertions[i].after == "" || insertions[i].after in byPath
  }

  function InsertionOps<V>(raw: Bytes, entries: seq<Entry>, byPath: map<Bytes, nat>, pending: map<Bytes, V>,
      codec: Codec<V>, insertions: seq<Insertion>): seq<Op>
    requires Indexed(entries, byPath) && forall i | 0 <= i < |insertions| :: insertions[i].path != []
  {
    Collect(seq(|insertions|, i requires 0 <= i < |insertions| =>
      InsertionOp(raw, entries, byPath, pending, codec, insertions[i])))
  }

  // ---------------------------------------------------------------- compatibility

  lemma {:induction false} CollectMembers(ops: seq<Option<Op>>)
    ensures forall x :: x in Collect(ops) <==> Some(x) in ops
  {
    if ops != [] {
      var rest, last := ops[..|ops| - 1], ops[|ops| - 1];
      CollectMembers(rest);
      assert ops == rest + [last];
    }
  }

  predicate Within(x: Op, line: Span) { line.start <= x.start <= x.end <= line.end }

  /** An operation stays inside its entry's line. */
  lemma EntryOpsWithin(raw: Bytes, entries: seq<Entry>, replacements: map<Bytes, Bytes>, deletions: set<Bytes>)
    requires SpansIn(raw, entries)
    ensures forall x | x in EntryOps(entries, replacements, deletions) ::
              OpIn(raw, x) && exists k | 0 <= k < |entries| :: Within(x, entries[k].line)
  {
    var all := seq(|entries|, i requires 0 <= i < |entries| => EntryOp(entries[i], replacements, deletions));
    CollectMembers(all);
    forall x | x in Collect(all)
      ensures OpIn(raw, x) && exists k | 0 <= k < |entries| :: Within(x, entries[k].line)
    {
      var k :| 0 <= k < |all| && all[k] == Some(x);
      assert Within(x, entries[k].line);
    }
  }

  lemma {:induction false} EntryOpsChained(raw: Bytes, entries: seq<Entry>, replacements: map<Bytes, Bytes>,
      deletions: set<Bytes>)
    requires SpansIn(raw, entries) && LinesDisjoint(entries)
    ensures AllCompatible(EntryOps(entries, replacements, deletions))
  {
    if entries != [] {
      var rest, last := entries[..|entries| - 1], entries[|entries| - 1];
      EntryOpsChained(raw, rest, replacements, deletions);
      EntryOpsWithin(raw, rest, replacements, deletions);
      EntryOpsLast(entries, replacements, deletions);
      var ops := EntryOps(rest, replacements, deletions);
      forall i | 0 <= i < |ops| ensures ops[i].end <= last.line.start {
        assert ops[i] in ops;
        var k :| 0 <= k < |rest| && Within(ops[i], rest[k].line);
        assert rest[k] == entries[k];
      }
    }
  }

  lemma EntryOpsLast(entries: seq<Entry>, replacements: map<Bytes, Bytes>, deletions: set<Bytes>)
    requires entries != []
    ensures var op := EntryOp(entries[|entries| - 1], replacements, deletions);
            EntryOps(entries, replacements, deletions)
            == EntryOps(entries[..|entries| - 1], replacements, deletions) + if op.Some? then [op.value] else []
  {
    var f := seq(|entries|, i requires 0 <= i < |entries| => EntryOp(entries[i], replacements, deletions));
    var rest := entries[..|entries| - 1];
    assert f[..|f| - 1] == seq(|rest|, i requires 0 <= i < |rest| => EntryOp(rest[i], replacements, deletions));
  }

  /** No line of `entries` strictly contains the position. */
  predicate Boundary(entries: seq<Entry>, p: nat) {
    forall k | 0 <= k < |entries| :: entries[k].line.end <= p || p <= entries[k].line.start
  }

  lemma InsertionOpLands<V>(raw: Bytes, entries: seq<Entry>, byPath: map<Bytes, nat>, pending: map<Bytes, V>,
      codec: Codec<V>, ins: Insertion)
    requires SpansIn(raw, entries) && LinesDisjoint(entries) && Indexed(entries, byPath) && ins.path != []
    ensures var x := InsertionOp(raw, entries, byPath, pending, codec, ins);
            x.Some? ==> IsInsertion(x.value) && OpIn(raw, x.value) && Boundary(entries, x.value.start)
  {
    hide LineText, Key, SpansIn, LinesDisjoint, Boundary;
    var x := InsertionOp(raw, entries, byPath, pending, codec, ins);
    if x.Some? {
      if ins.after == "" { EndIsBoundary(raw, entries); } else { LineEndIsBoundary(raw, entries, byPath[ins.after]); }
    }
  }

  lemma EndIsBoundary(raw: Bytes, entries: seq<Entry>)
    requires SpansIn(raw, entries)
    ensures Boundary(entries, |raw|)
  {}

  lemma LineEndIsBoundary(raw: Bytes, entries: seq<Entry>, k: nat)
    requires SpansIn(raw, entries) && LinesDisjoint(entries) && k < |entries|
    ensures entries[k].line.end <= |raw| && Boundary(entries, entries[k].line.end)
  {
    var p := entries[k].line.end;
    forall j | 0 <= j < |entries| ensures entries[j].line.end <= p || p <= entries[j].line.start {
      if j < k { assert entries[k].line.start <= entries[k].value.start; }
    }
  }

  lemma InsertionOpsLand<V>(raw: Bytes, entries: seq<Entry>, byPath: map<Bytes, nat>, pending: map<Bytes, V>,
      codec: Codec<V>, insertions: seq<Insertion>)
    requires SpansIn(raw, entries) && LinesDisjoint(entries) && Indexed(entries, byPath)
    requires forall i | 0 <= i < |insertions| :: insertions[i].path != []
    ensures forall x | x in InsertionOps(raw, entries, byPath, pending, codec, insertions) ::
              IsInsertion(x) && OpIn(raw, x) && Boundary(entries, x.start)
  {
    var all := seq(|insertions|, i requires 0 <= i < |insertions| =>
      InsertionOp(raw, entries, byPath, pending, codec, insertions[i]));
    CollectMembers(all);
    forall x | x in Collect(all) ensures IsInsertion(x) && OpIn(raw, x) && Boundary(entries, x.start) {
      var k :| 0 <= k < |all| && all[k] == Some(x);
      InsertionOpLands(raw, entries, byPath, pending, codec, insertions[k]);
    }
  }

  lemma BoundaryIsCompatible(entries: seq<Entry>, x: Op, y: Op, k: nat)
    requires k < |entries| && Within(x, entries[k].line) && IsInsertion(y) && Boundary(entries, y.start)
    ensures Compatible(x, y)
  {
    assert entries[k].line.end <= y.start || y.start <= entries[k].line.start;
  }

  lemma JoinCompatible(a: seq<Op>, b: seq<Op>)
    requires AllCompatible(a) && AllCompatible(b)
    requires forall x, y | x in a && y in b :: Compatible(x, y)
    ensures AllCompatible(a + b)
  {
    forall i, j | 0 <= i < j < |a + b| ensures Compatible((a + b)[i], (a + b)[j]) {
      if i < |a| <= j { assert a[i] in a && b[j - |a|] in b; }
    }
  }

  /** The edits of a document never overlap. */
  lemma EditsCompatible<V>(raw: Bytes, entries: seq<Entry>, byPath: map<Bytes, nat>,
      replacements: map<Bytes, Bytes>, deletions: set<Bytes>, pending: map<Bytes, V>, codec: Codec<V>,
      insertions: seq<Insertion>)
    requires SpansIn(raw, entries) && LinesDisjoint(entries) && Indexed(entries, byPath)
    requires forall i | 0 <= i < |insertions| :: insertions[i].path != []
    ensures var ops := EntryOps(entries, replacements, deletions)
                       + InsertionOps(raw, entries, byPath, pending, codec, insertions);
            AllIn(raw, ops) && AllCompatible(ops)
  {
    var a := EntryOps(entries, replacements, deletions);
    var b := InsertionOps(raw, entries, byPath, pending, codec, insertions);
    EntryOpsWithin(raw, entries, replacements, deletions);
    EntryOpsChained(raw, entries, replacements, deletions);
    InsertionOpsLand(raw, entries, byPath, pending, codec, insertions);
    forall i | 0 <= i < |a + b| ensures OpIn(raw, (a + b)[i]) {
      assert (a + b)[i] in a || (a + b)[i] in b;
    }
    forall x, y | x in a && y in b ensures Compatible(x, y) {
      var k :| 0 <= k < |entries| && Within(x, entries[k].line);
      BoundaryIsCompatible(entries, x, y, k);
    }
    forall i, j | 0 <= i < j < |b| ensures Compatible(b[i], b[j]) {
      assert b[i] in b && b[j] in b;
    }
    JoinCompatible(a, b);
  }

  lemma EditsIn<V>(raw: Bytes, entries: seq<Entry>, byPath: map<Bytes, nat>,
      replacements: map<Bytes, Bytes>, deletions: set<Bytes>, pending: map<Bytes, V>, codec: Codec<V>,
      insertions: seq<Insertion>)
    requires SpansIn(raw, entries) && Indexed(entries, byPath)
    requires forall i | 0 <= i < |insertions| :: insertions[i].path != []
    ensures AllIn(raw, EntryOps(entries, replacements, deletions)
                       + InsertionOps(raw, entries, byPath, pending, codec, insertions))
  {
    var a := EntryOps(entries, replacements, deletions);
    var b := InsertionOps(raw, entries, byPath, pending, codec, insertions);
    EntryOpsWithin(raw, entries, replacements, deletions);
    var all := seq(|insertions|, i requires 0 <= i < |insertions| =>
      InsertionOp(raw, entries, byPath, pending, codec, insertions[i]));
    CollectMembers(all);
    forall x | x in b ensures OpIn(raw, x) {
      var k :| 0 <= k < |all| && all[k] == Some(x);
      assert InsertionOp(raw, entries, byPath, pending, codec, insertions[k]) == Some(x);
    }
    forall i | 0 <= i < |a + b| ensures OpIn(raw, (a + b)[i]) {
      assert (a + b)[i] in a || (a + b)[i] in b;
    }
  }

  // ---------------------------------------------------------------- when operations overlap

  predicate ValuesOrdered(entries: seq<Entry>) {
    && (forall i | 0 <= i < |entries| :: entries[i].value.start < entries[i].value.end)
    && (forall i, j | 0 <= i < j < |entries| :: entries[i].value.end <= entries[j].value.start)
  }

  lemma {:induction false} AllDeleted(entries: seq<Entry>, deletions: set<Bytes>)
    requires forall i | 0 <= i < |entries| :: entries[i].key in deletions
    ensures var ops := EntryOps(entries, map[], deletions);
      |ops| == |entries| && forall i | 0 <= i < |ops| :: ops[i] == Op(entries[i].line.start, entries[i].line.end, "")
  {
    hide EntryOps;
    if entries == [] {
      NoEditsNoOps(entries);
      NoEntriesNoOps(map[], deletions);
    } else {
      EntryOpsLast(entries, map[], deletions);
      AllDeleted(entries[..|entries| - 1], deletions);
    }
  }

  /** No two operations overlap, whatever the edits are, if and only if no two entries share a line. */
  lemma LinesDecide(raw: Bytes, entries: seq<Entry>)
    requires SpansIn(raw, entries) && ValuesOrdered(entries)
    ensures LinesDisjoint(entries)
            <==> forall replacements, deletions :: AllCompatible(EntryOps(entries, replacements, deletions))
  {
    hide EntryOps;
    if LinesDisjoint(entries) {
      forall replacements, deletions ensures AllCompatible(EntryOps(entries, replacements, deletions)) {
        EntryOpsChained(raw, entries, replacements, deletions);
      }
    } else {
      var i, j :| 0 <= i < j < |entries| && entries[i].line.end > entries[j].line.start;
      SharedLineClashes(raw, entries, i, j);
    }
  }

  lemma SharedLineClashes(raw: Bytes, entries: seq<Entry>, i: nat, j: nat)
    requires SpansIn(raw, entries) && ValuesOrdered(entries)
    requires i < j < |entries| && entries[i].line.end > entries[j].line.start
    ensures exists replacements, deletions :: !AllCompatible(EntryOps(entries, replacements, deletions))
  {
    hide EntryOps;
    var deletions := set k | 0 <= k < |entries| :: entries[k].key;
    AllDeleted(entries, deletions);
    var ops := EntryOps(entries, map[], deletions);
    assert entries[i].line.start < entries[i].value.end <= entries[j].value.start < entries[j].line.end;
    assert !Compatible(ops[i], ops[j]);
    assert !AllCompatible(EntryOps(entries, map[], deletions));
  }

  /** A replacement on a line that another edit deletes is lost: it overlaps the deletion. */
  lemma ReplacementLost(raw: Bytes, x: Entry, y: Entry, text: Bytes)
    requires SpansIn(raw, [x, y]) && x.key != y.key && x.line == y.line
    requires x.line.start < y.value.start < y.value.end
    ensures var ops := EntryOps([x, y], map[y.key := text], {x.key});
      !AllCompatible(ops) && Splice(raw, StableSort(ops), 0) == raw[..x.line.start] + raw[x.line.end..]
  {
    hide EntryOps, StableSort, Splice;
    var a, b := Op(x.line.start, x.line.end, ""), Op(y.value.start, y.value.end, text);
    assert [x, y][0].line.end <= |raw| && [x, y][1].value.end <= [x, y][1].line.end;
    TwoOps(x, y, text);
    SortedPair(a, b);
    DroppedSecond(raw, a, b);
    assert !Compatible([a, b][0], [a, b][1]);
  }

  lemma TwoOps(x: Entry, y: Entry, text: Bytes)
    requires x.key != y.key
    ensures EntryOps([x, y], map[y.key := text], {x.key})
            == [Op(x.line.start, x.line.end, ""), Op(y.value.start, y.value.end, text)]
  {
    hide EntryOps;
    var r := map[y.key := text];
    EntryOpsLast([x, y], r, {x.key});
    EntryOpsLast([x], r, {x.key});
    assert [x, y][..1] == [x] && [x][..0] == [];
    assert EntryOps([], r, {x.key}) == [] by { NoEntriesNoOps(r, {x.key}); }
  }

  lemma NoEntriesNoOps(replacements: map<Bytes, Bytes>, deletions: set<Bytes>)
    ensures EntryOps([], replacements, deletions) == []
  {}

  lemma DroppedSecond(raw: Bytes, a: Op, b: Op)
    requires OpIn(raw, a) && a.text == "" && b.start < a.end
    ensures Splice(raw, [a, b], 0) == raw[..a.start] + raw[a.end..]
  {
    SpliceCons(raw, a, [b], 0);
    SpliceCons(raw, b, [], a.end);
    assert [a, b] == [a] + [b] && [b] == [b] + [];
    Padding(raw[..a.start]);
  }

  lemma SortedPair(a: Op, b: Op)
    requires !After(a, b)
    ensures StableSort([a, b]) == [a, b]
  {
    assert [a, b][..1] == [a] && [a][..0] == [];
    assert StableSort([a]) == [a];
  }

  lemma SpliceCons(raw: Bytes, op: Op, ops: seq<Op>, cursor: nat)
    requires cursor <= |raw|
    ensures Splice(raw, [op] + ops, cursor) ==
      if Skips(raw, cursor, op) then Splice(raw, ops, cursor)
      else raw[cursor..op.start] + op.text + Splice(raw, ops, op.end)
  {
    assert ([op] + ops)[1..] == ops;
  }

  // ---------------------------------------------------------------- inserted lines

  function Times(insertions: seq<Insertion>, key: Bytes): nat {
    if insertions == [] then 0 else
      Times(insertions[..|insertions| - 1], key) + if Key(insertions[|insertions| - 1].path) == key then 1 else 0
  }

  /** How many of the insertions for a path key put a line into the output. */
  function LinesFor<V>(raw: Bytes, entries: seq<Entry>, byPath: map<Bytes, nat>, pending: map<Bytes, V>,
      codec: Codec<V>, insertions: seq<Insertion>, key: Bytes): nat
    requires Indexed(entries, byPath) && forall i | 0 <= i < |insertions| :: insertions[i].path != []
  {
    if insertions == [] then 0 else
      var rest, last := insertions[..|insertions| - 1], insertions[|insertions| - 1];
      LinesFor(raw, entries, byPath, pending, codec, rest, key)
      + if Key(last.path) == key && InsertionOp(raw, entries, byPath, pending, codec, last).Some? then 1 else 0
  }

  /** A new path gets one line per call that inserted it, all with its latest value, and none once it is
      no longer pending or cannot be printed; so it gets exactly one line if and only if it is pending,
      printable, and was inserted once. */
  lemma {:induction false} LinesPerPath<V>(raw: Bytes, entries: seq<Entry>, byPath: map<Bytes, nat>,
      pending: map<Bytes, V>, codec: Codec<V>, insertions: seq<Insertion>, key: Bytes)
    requires Indexed(entries, byPath) && Anchored(byPath, insertions)
    requires forall i | 0 <= i < |insertions| :: insertions[i].path != []
    ensures var written := key in pending && codec.format(pending[key]).Some?;
      var n := LinesFor(raw, entries, byPath, pending, codec, insertions, key);
      n == (if written then Times(insertions, key) else 0) && (n == 1 <==> written && Times(insertions, key) == 1)
  {
    hide Key;
    if insertions != [] {
      LinesPerPath(raw, entries, byPath, pending, codec, insertions[..|insertions| - 1], key);
    }
  }

  lemma OneInsertionOp<V>(raw: Bytes, entries: seq<Entry>, byPath: map<Bytes, nat>, pending: map<Bytes, V>,
      codec: Codec<V>, insertions: seq<Insertion>, ins: Insertion)
    requires Indexed(entries, byPath) && forall i | 0 <= i < |insertions| :: insertions[i].path != []
    requires ins.path != []
    ensures var op := InsertionOp(raw, entries, byPath, pending, codec, ins);
      InsertionOps(raw, entries, byPath, pending, codec, insertions + [ins])
      == InsertionOps(raw, entries, byPath, pending, codec, insertions) + if op.Some? then [op.value] else []
  {
    var all := insertions + [ins];
    InsertionOpsNext(raw, entries, byPath, pending, codec, all, |insertions|);
    assert all[..|insertions| + 1] == all && all[..|insertions|] == insertions;
  }

  /** What ends the last line of a text, if it is not ended yet. */
  function Terminator(raw: Bytes): Bytes { if raw == "" || raw[|raw| - 1] == '\n' then "" else "\n" }

  /** The line of a new path: nothing if the path is no longer pending or its value cannot be printed. */
  function NewLine<V>(pending: map<Bytes, V>, codec: Codec<V>, path: seq<Bytes>): Bytes {
    if Key(path) in pending && codec.format(pending[Key(path)]).Some?
    then TomlKey.JoinKeys(path) + " = " + codec.format(pending[Key(path)]).value + "\n" else ""
  }

  /** What an insertion puts at position `p`: its line, at the end of the text or of its anchor's line. */
  function LineAt<V>(raw: Bytes, entries: seq<Entry>, byPath: map<Bytes, nat>, pending: map<Bytes, V>,
      codec: Codec<V>, ins: Insertion, p: nat): Bytes
    requires Indexed(entries, byPath)
  {
    var line := NewLine(pending, codec, ins.path);
    if line == "" then ""
    else if ins.after == "" then (if p == |raw| then Terminator(raw) + line else "")
    else if ins.after in byPath && p == entries[byPath[ins.after]].line.end then line else ""
  }

  /** The text that the insertions put at position `p`, one line after the other. */
  function LinesAt<V>(raw: Bytes, entries: seq<Entry>, byPath: map<Bytes, nat>, pending: map<Bytes, V>,
      codec: Codec<V>, insertions: seq<Insertion>, p: nat): Bytes
    requires Indexed(entries, byPath)
  {
    if insertions == [] then "" else
      var rest, last := insertions[..|insertions| - 1], insertions[|insertions| - 1];
      LinesAt(raw, entries, byPath, pending, codec, rest, p) + LineAt(raw, entries, byPath, pending, codec, last, p)
  }

  lemma InsertionText<V>(raw: Bytes, entries: seq<Entry>, byPath: map<Bytes, nat>, pending: map<Bytes, V>,
      codec: Codec<V>, ins: Insertion, p: nat)
    requires Indexed(entries, byPath) && ins.path != []
    ensures var op := InsertionOp(raw, entries, byPath, pending, codec, ins);
      (if op.Some? then InsertText(op.value, p) else "") == LineAt(raw, entries, byPath, pending, codec, ins, p)
  {
    hide Key, TomlKey.JoinKeys;
  }

  /** What the edited text holds at a position are the lines of the insertions that land there. */
  lemma {:induction false} LinesInText<V>(raw: Bytes, entries: seq<Entry>, byPath: map<Bytes, nat>,
      pending: map<Bytes, V>, codec: Codec<V>, insertions: seq<Insertion>, p: nat)
    requires Indexed(entries, byPath) && forall i | 0 <= i < |insertions| :: insertions[i].path != []
    ensures InsertedAt(InsertionOps(raw, entries, byPath, pending, codec, insertions), p)
            == LinesAt(raw, entries, byPath, pending, codec, insertions, p)
  {
    hide InsertionOps, InsertionOp, InsertedAt, InsertText, LineAt;
    if insertions == [] {
      NoInsertionOps(raw, entries, byPath, pending, codec);
      assert InsertedAt([], p) == "" by { NothingInserted(p); }
    } else {
      var rest, last := insertions[..|insertions| - 1], insertions[|insertions| - 1];
      LinesInText(raw, entries, byPath, pending, codec, rest, p);
      OneInsertionOp(raw, entries, byPath, pending, codec, rest, last);
      assert insertions == rest + [last];
      var ops := InsertionOps(raw, entries, byPath, pending, codec, rest);
      var op := InsertionOp(raw, entries, byPath, pending, codec, last);
      InsertionText(raw, entries, byPath, pending, codec, last, p);
      if op.Some? {
        TextsOfLast(ops, op.value, p);
      } else {
        assert ops + [] == ops;
        Padding(InsertedAt(ops, p));
      }
    }
  }

  lemma NothingInserted(p: nat)
    ensures InsertedAt([], p) == ""
  {}

  function Repeat(text: Bytes, n: nat): Bytes { if n == 0 then "" else text + Repeat(text, n - 1) }

  /** What new paths set in this order add to the end of the text. */
  function Appended<V>(raw: Bytes, pending: map<Bytes, V>, codec: Codec<V>, insertions: seq<Insertion>): Bytes {
    if insertions == [] then "" else
      var rest, line := insertions[..|insertions| - 1], NewLine(pending, codec, insertions[|insertions| - 1].path);
      Appended(raw, pending, codec, rest) + if line == "" then "" else Terminator(raw) + line
  }

  predicate AtEnd(raw: Bytes, ops: seq<Op>) { forall i | 0 <= i < |ops| :: ops[i].start == ops[i].end == |raw| }

  function Texts(ops: seq<Op>): Bytes {
    if ops == [] then "" else Texts(ops[..|ops| - 1]) + ops[|ops| - 1].text
  }

  lemma {:induction false} AppendedOps<V>(raw: Bytes, entries: seq<Entry>, byPath: map<Bytes, nat>,
      pending: map<Bytes, V>, codec: Codec<V>, insertions: seq<Insertion>)
    requires Indexed(entries, byPath)
    requires forall i | 0 <= i < |insertions| :: insertions[i].after == "" && insertions[i].path != []
    ensures var ops := InsertionOps(raw, entries, byPath, pending, codec, insertions);
      AtEnd(raw, ops) && Texts(ops) == Appended(raw, pending, codec, insertions)
  {
    hide InsertionOps, InsertionOp, NewLine, Terminator, AtEnd, Texts;
    if insertions == [] {
      NoInsertionOps(raw, entries, byPath, pending, codec);
      NoTexts(raw);
    } else {
      var rest, last := insertions[..|insertions| - 1], insertions[|insertions| - 1];
      AppendedOps(raw, entries, byPath, pending, codec, rest);
      OneInsertionOp(raw, entries, byPath, pending, codec, rest, last);
      assert insertions == rest + [last];
      AppendedOp(raw, entries, byPath, pending, codec, last);
      var ops := InsertionOps(raw, entries, byPath, pending, codec, rest);
      var op := InsertionOp(raw, entries, byPath, pending, codec, last);
      if op.Some? {
        LastText(raw, ops, op.value);
      } else {
        assert ops + [] == ops;
        Padding(Texts(ops));
      }
    }
  }

  lemma NoTexts(raw: Bytes)
    ensures AtEnd(raw, []) && Texts([]) == ""
  {}

  lemma LastText(raw: Bytes, ops: seq<Op>, x: Op)
    requires AtEnd(raw, ops) && x.start == x.end == |raw|
    ensures AtEnd(raw, ops + [x]) && Texts(ops + [x]) == Texts(ops) + x.text
  {
    assert (ops + [x])[..|ops|] == ops;
  }

  lemma AppendedOp<V>(raw: Bytes, entries: seq<Entry>, byPath: map<Bytes, nat>, pending: map<Bytes, V>,
      codec: Codec<V>, ins: Insertion)
    requires Indexed(entries, byPath) && ins.path != [] && ins.after == ""
    ensures var line := NewLine(pending, codec, ins.path);
      InsertionOp(raw, entries, byPath, pending, codec, ins)
      == if line == "" then None else Some(Op(|raw|, |raw|, Terminator(raw) + line))
  {
    hide Key, TomlKey.JoinKeys;
  }

  lemma {:induction false} SpliceAtEnd(raw: Bytes, ops: seq<Op>, more: seq<Op>)
    requires AtEnd(raw, ops) && AtEnd(raw, more)
    ensures Splice(raw, ops + more, |raw|) == Texts(ops) + Splice(raw, more, |raw|)
    decreases |ops|
  {
    hide Splice;
    if ops == [] {
      assert ops + more == more;
    } else {
      var rest, last := ops[..|ops| - 1], ops[|ops| - 1];
      assert ops + more == rest + ([last] + more);
      SpliceAtEnd(raw, rest, [last] + more);
      SpliceCons(raw, last, more, |raw|);
      assert raw[|raw|..|raw|] == "" && "" + last.text == last.text;
      Regroup(Texts(rest), last.text, Splice(raw, more, |raw|));
    }
  }

  lemma AppendedSorted(raw: Bytes, ops: seq<Op>)
    requires AtEnd(raw, ops)
    ensures StableSort(ops) == ops && Splice(raw, ops, 0) == raw + Texts(ops)
  {
    hide Splice, StableSort;
    SortedStays(ops);
    if ops == [] {
      assert Splice(raw, ops, 0) == raw by { NoSplice(raw, 0); assert raw[0..] == raw; }
    } else {
      var x, rest := ops[0], ops[1..];
      assert ops == [x] + rest && rest + [] == rest;
      SpliceCons(raw, x, rest, 0);
      SpliceAtEnd(raw, ops, []);
      assert ops + [] == ops;
      NoSplice(raw, |raw|);
      SpliceCons(raw, x, rest, |raw|);
      assert raw[0..|raw|] == raw && raw[|raw|..|raw|] == "" && "" + x.text == x.text;
      Regroup(raw, x.text, Splice(raw, rest, |raw|));
      assert Texts(ops) + "" == Texts(ops);
    }
  }

  lemma NoSplice(raw: Bytes, cursor: nat)
    requires cursor <= |raw|
    ensures Splice(raw, [], cursor) == raw[cursor..]
  {}

  /** New paths are written behind the text in the order they were set, each on a line of its own:
      before every line the output is empty or ends with a newline. */
  lemma AppendedText<V>(raw: Bytes, entries: seq<Entry>, byPath: map<Bytes, nat>, pending: map<Bytes, V>,
      codec: Codec<V>, insertions: seq<Insertion>)
    requires Indexed(entries, byPath)
    requires forall i | 0 <= i < |insertions| :: insertions[i].after == "" && insertions[i].path != []
    ensures Splice(raw, StableSort(InsertionOps(raw, entries, byPath, pending, codec, insertions)), 0)
            == raw + Appended(raw, pending, codec, insertions)
    ensures Terminator(raw + Appended(raw, pending, codec, insertions) + Terminator(raw)) == ""
  {
    hide InsertionOps, Splice, StableSort;
    AppendedOps(raw, entries, byPath, pending, codec, insertions);
    AppendedSorted(raw, InsertionOps(raw, entries, byPath, pending, codec, insertions));
    AppendedEnds(raw, pending, codec, insertions);
  }

  lemma {:induction false} AppendedEnds<V>(raw: Bytes, pending: map<Bytes, V>, codec: Codec<V>,
      insertions: seq<Insertion>)
    ensures var out := Appended(raw, pending, codec, insertions);
      (out == "" || out[|out| - 1] == '\n') && Terminator(raw + out + Terminator(raw)) == ""
  {
    hide NewLine, Terminator;
    if insertions != [] {
      AppendedEnds(raw, pending, codec, insertions[..|insertions| - 1]);
      NewLineEnds(pending, codec, insertions[|insertions| - 1].path);
    }
    EndsClean(raw, Appended(raw, pending, codec, insertions));
  }

  lemma NewLineEnds<V>(pending: map<Bytes, V>, codec: Codec<V>, path: seq<Bytes>)
    ensures var line := NewLine(pending, codec, path); line == "" || line[|line| - 1] == '\n'
  {}

  lemma EndsClean(raw: Bytes, out: Bytes)
    requires out == "" || out[|out| - 1] == '\n'
    ensures Terminator(raw + out + Terminator(raw)) == ""
  {
    var t := Terminator(raw);
    if t == "" { Padding(raw + out); if out == "" { Padding(raw); } }
  }

  /** One new path on any text. */
  lemma AppendedOne<V>(raw: Bytes, entries: seq<Entry>, byPath: map<Bytes, nat>, pending: map<Bytes, V>,
      codec: Codec<V>, path: seq<Bytes>, text: Bytes)
    requires Indexed(entries, byPath) && path != []
    requires Key(path) in pending && codec.format(pending[Key(path)]) == Some(text)
    ensures var line := TomlKey.JoinKeys(path) + " = " + text + "\n";
      Splice(raw, StableSort(InsertionOps(raw, entries, byPath, pending, codec, [Insertion("", path)])), 0)
      == if raw == "" || raw[|raw| - 1] == '\n' then raw + line else raw + "\n" + line
  {
    hide InsertionOps, Splice, StableSort, Key, TomlKey.JoinKeys;
    var insertions := [Insertion("", path)];
    AppendedText(raw, entries, byPath, pending, codec, insertions);
    assert insertions[..0] == [] && Appended(raw, pending, codec, insertions[..0]) == "";
    var line := TomlKey.JoinKeys(path) + " = " + text + "\n";
    assert NewLine(pending, codec, path) == line;
    assert "" + (Terminator(raw) + line) == Terminator(raw) + line;
    Regroup(raw, Terminator(raw), line);
    Padding(raw);
  }

  /** Setting a new path `n` times writes its line `n` times. */
  lemma SetWritesEachTime<V>(raw: Bytes, entries: seq<Entry>, byPath: map<Bytes, nat>, pending: map<Bytes, V>,
      codec: Codec<V>, path: seq<Bytes>, text: Bytes, insertions: seq<Insertion>)
    requires Indexed(entries, byPath) && path != []
    requires Key(path) in pending && codec.format(pending[Key(path)]) == Some(text)
    requires forall i | 0 <= i < |insertions| :: insertions[i] == Insertion("", path)
    ensures var line := TomlKey.JoinKeys(path) + " = " + text + "\n";
      Splice(raw, StableSort(InsertionOps(raw, entries, byPath, pending, codec, insertions)), 0)
      == raw + Repeat(Terminator(raw) + line, |insertions|)
    ensures LinesFor(raw, entries, byPath, pending, codec, insertions, Key(path)) == |insertions|
  {
    hide InsertionOps, Splice, StableSort, Key, TomlKey.JoinKeys, Terminator;
    AppendedText(raw, entries, byPath, pending, codec, insertions);
    AppendedRepeats(raw, pending, codec, path, text, insertions);
    LinesPerPath(raw, entries, byPath, pending, codec, insertions, Key(path));
    TimesAll(insertions, path);
  }

  lemma {:induction false} TimesAll(insertions: seq<Insertion>, path: seq<Bytes>)
    requires forall i | 0 <= i < |insertions| :: insertions[i] == Insertion("", path)
    ensures Times(insertions, Key(path)) == |insertions|
  {
    hide Key;
    if insertions != [] { TimesAll(insertions[..|insertions| - 1], path); }
  }

  lemma {:induction false} AppendedRepeats<V>(raw: Bytes, pending: map<Bytes, V>, codec: Codec<V>,
      path: seq<Bytes>, text: Bytes, insertions: seq<Insertion>)
    requires Key(path) in pending && codec.format(pending[Key(path)]) == Some(text)
    requires forall i | 0 <= i < |insertions| :: insertions[i] == Insertion("", path)
    ensures var line := TomlKey.JoinKeys(path) + " = " + text + "\n";
      Appended(raw, pending, codec, insertions) == Repeat(Terminator(raw) + line, |insertions|)
  {
    hide Key, TomlKey.JoinKeys, Terminator;
    if insertions != [] {
      AppendedRepeats(raw, pending, codec, path, text, insertions[..|insertions| - 1]);
      RepeatLast(Terminator(raw) + (TomlKey.JoinKeys(path) + " = " + text + "\n"), |insertions| - 1);
    }
  }

  lemma {:induction false} RepeatLast(text: Bytes, n: nat)
    ensures Repeat(text, n + 1) == Repeat(text, n) + text
  {
    if n == 0 {
      assert text + "" == "" + text;
    } else {
      RepeatLast(text, n - 1);
      Regroup(text, Repeat(text, n - 1), text);
    }
  }

  lemma NoInsertionOps<V>(raw: Bytes, entries: seq<Entry>, byPath: map<Bytes, nat>, pending: map<Bytes, V>,
      codec: Codec<V>)
    requires Indexed(entries, byPath)
    ensures InsertionOps(raw, entries, byPath, pending, codec, []) == []
  {}

  /** An insertion after an entry lands at the end of its line, and starts a line of its own if and only
      if a newline follows the entry's value. */
  lemma InsertedAfter<V>(raw: Bytes, entries: seq<Entry>, byPath: map<Bytes, nat>, pending: map<Bytes, V>,
      codec: Codec<V>, after: Bytes, path: seq<Bytes>, text: Bytes)
    requires Indexed(entries, byPath) && path != [] && after != "" && after in byPath
    requires var e := entries[byPath[after]];
      0 < e.value.end <= |raw| && !IsNewline(raw[e.value.end - 1]) && e.line.end == LineEnd(raw, e.value.end)
    requires Key(path) in pending && codec.format(pending[Key(path)]) == Some(text)
    ensures var e, line := entries[byPath[after]], TomlKey.JoinKeys(path) + " = " + text + "\n";
      && Splice(raw, StableSort(InsertionOps(raw, entries, byPath, pending, codec, [] + [Insertion(after, path)])), 0)
         == raw[..e.line.end] + line + raw[e.line.end..]
      && 0 < e.line.end
      && (IsNewline(raw[e.line.end - 1]) <==> HasBreak(raw, e.value.end, |raw|))
  {
    hide LineText, Key, LineEnd, Splice, InsertionOps, StableSort, HasBreak, TomlKey.JoinKeys;
    var e := entries[byPath[after]];
    var line := TomlKey.JoinKeys(path) + " = " + text + "\n";
    assert LineText(codec, path, pending[Key(path)]) == Some(line) by { LineSpelled(codec, path, pending[Key(path)]); }
    LoneInsertion(raw, entries, byPath, pending, codec, after, path, line);
    AnchorSpliced(raw, e, line);
  }

  lemma AnchorSpliced(raw: Bytes, e: Entry, line: Bytes)
    requires 0 < e.value.end <= |raw| && !IsNewline(raw[e.value.end - 1]) && e.line.end == LineEnd(raw, e.value.end)
    ensures Splice(raw, StableSort([Op(e.line.end, e.line.end, line)]), 0)
            == raw[..e.line.end] + line + raw[e.line.end..]
    ensures 0 < e.line.end && (IsNewline(raw[e.line.end - 1]) <==> HasBreak(raw, e.value.end, |raw|))
  {
    hide Splice, StableSort, HasBreak, LineEnd;
    var op := Op(e.line.end, e.line.end, line);
    SortedStays([op]);
    SpliceOne(raw, op);
    EndsAtNewline(raw, e.value.end);
  }

  lemma LineSpelled<V>(codec: Codec<V>, path: seq<Bytes>, value: V)
    requires path != [] && codec.format(value).Some?
    ensures LineText(codec, path, value) == Some(TomlKey.JoinKeys(path) + " = " + codec.format(value).value + "\n")
  {}

  lemma LoneInsertion<V>(raw: Bytes, entries: seq<Entry>, byPath: map<Bytes, nat>, pending: map<Bytes, V>,
      codec: Codec<V>, after: Bytes, path: seq<Bytes>, text: Bytes)
    requires Indexed(entries, byPath) && path != [] && after != "" && after in byPath
    requires Key(path) in pending && LineText(codec, path, pending[Key(path)]) == Some(text)
    ensures var pos := entries[byPath[after]].line.end;
      InsertionOps(raw, entries, byPath, pending, codec, [] + [Insertion(after, path)]) == [Op(pos, pos, text)]
  {
    hide LineText, Key, InsertionOps;
    NoInsertionOps(raw, entries, byPath, pending, codec);
    OneInsertionOp(raw, entries, byPath, pending, codec, [], Insertion(after, path));
  }

  lemma SpliceOne(raw: Bytes, op: Op)
    requires OpIn(raw, op)
    ensures Splice(raw, [op], 0) == raw[..op.start] + op.text + raw[op.end..]
  {
    SpliceCons(raw, op, [], 0);
    assert [op] == [op] + [] && raw[0..op.start] == raw[..op.start];
  }

  /** Inserted after an entry on an unterminated last line, the new line is glued to that line. */
  lemma InsertedTextIsGlued<V>(raw: Bytes, entries: seq<Entry>, byPath: map<Bytes, nat>, pending: map<Bytes, V>,
      codec: Codec<V>, after: Bytes, path: seq<Bytes>, text: Bytes)
    requires Indexed(entries, byPath) && path != [] && after != "" && after in byPath
    requires var e := entries[byPath[after]];
      && 0 < e.value.end <= |raw| && !IsNewline(raw[e.value.end - 1]) && e.line.end == LineEnd(raw, e.value.end)
      && !HasBreak(raw, e.value.end, |raw|)
    requires Key(path) in pending && codec.format(pending[Key(path)]) == Some(text)
    ensures Splice(raw, StableSort(InsertionOps(raw, entries, byPath, pending, codec,
        [] + [Insertion(after, path)])), 0)
            == raw + (TomlKey.JoinKeys(path) + " = " + text + "\n")
    ensures !IsNewline(raw[|raw| - 1])
  {
    hide LineText, Key, LineEnd, Splice, InsertionOps, StableSort, TomlKey.JoinKeys;
    InsertedAfter(raw, entries, byPath, pending, codec, after, path, text);
    LineEndStops(raw, entries[byPath[after]].value.end);
    var line := TomlKey.JoinKeys(path) + " = " + text + "\n";
    assert raw[..|raw|] == raw && raw[|raw|..] == "" && raw + line + "" == raw + line;
  }

  /** So `b` inserted after the only line of `a = 1` yields `a = 1b = 2`. */
  lemma GluedExample<V>(pending: map<Bytes, V>, codec: Codec<V>)
    requires "b" in pending && codec.format(pending["b"]) == Some("2")
    ensures var raw := "a = 1";
      var entries := [Entry("a", Span(4, 5), Span(LineBegin(raw, 0), LineEnd(raw, 5)))];
      && Indexed(entries, map["a" := 0])
      && Splice(raw, StableSort(InsertionOps(raw, entries, map["a" := 0], pending, codec,
          [] + [Insertion("a", ["b"])])), 0)
         == "a = 1b = 2\n"
  {
    hide InsertionOps, StableSort, Splice, Key, TomlKey.JoinKeys;
    var raw := "a = 1";
    var entries := [Entry("a", Span(4, 5), Span(LineBegin(raw, 0), LineEnd(raw, 5)))];
    assert LineEnd(raw, 5) == 5;
    LineOfB();
    assert raw + "b = 2\n" == "a = 1b = 2\n";
    assert raw[4] == '1' && !HasBreak(raw, 5, 5);
    InsertedTextIsGlued(raw, entries, map["a" := 0], pending, codec, "a", ["b"], "2");
  }

  lemma LineOfB()
    ensures Key(["b"]) == "b" && TomlKey.JoinKeys(["b"]) + " = " + "2" + "\n" == "b = 2\n"
  {
    assert TomlKey.JoinKeys(["b"]) == "b" by { assert TomlKey.IsSimpleBareKey("b"); }
    assert "b" + " = " == "b = " && "b = " + "2" == "b = 2" && "b = 2" + "\n" == "b = 2\n";
  }

  /** The byte belongs to a deleted line or to a replaced value. */
  predicate Hides(e: Entry, replacements: map<Bytes, Bytes>, deletions: set<Bytes>, p: nat) {
    if e.key in deletions then e.line.start <= p < e.line.end
    else e.key in replacements && e.value.start <= p < e.value.end
  }

  lemma EntryOpsCover(entries: seq<Entry>, replacements: map<Bytes, Bytes>, deletions: set<Bytes>, p: nat)
    ensures Covered(EntryOps(entries, replacements, deletions), p)
            <==> exists k | 0 <= k < |entries| :: Hides(entries[k], replacements, deletions, p)
  {
    var all := seq(|entries|, i requires 0 <= i < |entries| => EntryOp(entries[i], replacements, deletions));
    CollectMembers(all);
    if x: Op :| x in Collect(all) && x.start <= p < x.end {
      var k :| 0 <= k < |all| && all[k] == Some(x);
      assert Hides(entries[k], replacements, deletions, p);
    }
    if k :| 0 <= k < |entries| && Hides(entries[k], replacements, deletions, p) {
      assert all[k].Some? && all[k].value in Collect(all);
    }
  }

  /** A byte goes missing exactly when a deleted line or a replaced value holds it. */
  lemma CoveredMeans<V>(raw: Bytes, entries: seq<Entry>, byPath: map<Bytes, nat>,
      replacements: map<Bytes, Bytes>, deletions: set<Bytes>, pending: map<Bytes, V>, codec: Codec<V>,
      insertions: seq<Insertion>, p: nat)
    requires SpansIn(raw, entries) && LinesDisjoint(entries) && Indexed(entries, byPath)
    requires forall i | 0 <= i < |insertions| :: insertions[i].path != []
    ensures Covered(EntryOps(entries, replacements, deletions)
                    + InsertionOps(raw, entries, byPath, pending, codec, insertions), p)
            <==> exists k | 0 <= k < |entries| :: Hides(entries[k], replacements, deletions, p)
  {
    var a := EntryOps(entries, replacements, deletions);
    var b := InsertionOps(raw, entries, byPath, pending, codec, insertions);
    EntryOpsCover(entries, replacements, deletions, p);
    InsertionOpsLand(raw, entries, byPath, pending, codec, insertions);
    assert forall x: Op :: x in a + b <==> x in a || x in b;
  }

  // ---------------------------------------------------------------- the object

  class Document<V> {
    const raw: Bytes
    const entries: seq<Entry>
    const codec: Codec<V>
    var byPath: map<Bytes, nat>
    var values: map<Bytes, V>
    var replacements: map<Bytes, Bytes>
    var deletions: set<Bytes>
    var insertions: seq<Insertion>
    var pending: map<Bytes, V>

    /** Replaced and deleted paths are existing entries and never the same ones. */
    ghost predicate Valid()
      reads this
    {
      && SpansIn(raw, entries)
      && Indexed(entries, byPath)
      && replacements.Keys <= byPath.Keys
      && deletions <= byPath.Keys
      && replacements.Keys !! deletions
      && (forall i | 0 <= i < |insertions| :: insertions[i].path != [])
      && Anchored(byPath, insertions)
    }

    ghost function Ops(): seq<Op>
      requires Valid()
      reads this
    {
      EntryOps(entries, replacements, deletions)
      + InsertionOps(raw, entries, byPath, pending, codec, insertions)
    }

    /** The value a caller sees at a path key. */
    ghost function Lookup(key: Bytes): Option<V>
      requires Valid()
      reads this
    {
      if key !in byPath then (if key in pending then Some(pending[key]) else None)
      else if key in deletions then None
      else if key in values then Some(values[key])
      else
        var span := entries[byPath[key]].value;
        codec.parse(raw[span.start..span.end])
    }

    constructor (raw: Bytes, entries: seq<Entry>, codec: Codec<V>)
      requires SpansIn(raw, entries)
      ensures Valid() && this.raw == raw && this.entries == entries && this.codec == codec
      ensures forall k :: k in byPath <==> exists i | 0 <= i < |entries| :: entries[i].key == k
      ensures Ops() == []
    {
      this.raw, this.entries, this.codec := raw, entries, codec;
      byPath, values, replacements, deletions, insertions, pending := map[], map[], map[], {}, [], map[];
      new;
      for i := 0 to |entries|
        invariant Indexed(entries[..i], byPath)
        invariant values == map[] && replacements == map[] && deletions == {} && insertions == [] && pending == map[]
      {
        byPath := byPath[entries[i].key := i];
      }
      assert entries[..|entries|] == entries;
      NoEditsNoOps(entries);
    }

    method Get(path: Bytes) returns (r: Option<V>)
      requires Valid()
      modifies this`values
      ensures Valid()
      ensures var parts := TomlKey.ParseDottedKey(path);
              r == if parts.None? then None else Lookup(Key(parts.value))
      ensures forall k :: Lookup(k) == old(Lookup(k))
    {
      hide TomlKey.ParseDottedKey, Key;
      var parts := TomlKey.ParseDottedKey(path);
      if parts.None? { return None; }
      var key := Key(parts.value);
      if key !in byPath {
        return if key in pending then Some(pending[key]) else None;
      }
      if key in deletions { return None; }
      if key !in values {
        var span := entries[byPath[key]].value;
        var value := codec.parse(raw[span.start..span.end]);
        if value.None? { return None; }
        values := values[key := value.value];
      }
      return Some(values[key]);
    }

    method Set(path: Bytes, value: V) returns (ok: bool)
      requires Valid()
      modifies this
      ensures Valid() && byPath == old(byPath)
      ensures var parts := TomlKey.ParseDottedKey(path);
        ok == (parts.Some? && (if Key(parts.value) in byPath
                               then var span := entries[byPath[Key(parts.value)]].value;
                                    codec.restyle(raw[span.start..span.end], value).Some?
                               else codec.format(value).Some?))
      ensures !ok ==> unchanged(this)
      ensures ok ==> var key := Key(TomlKey.ParseDottedKey(path).value);
        && Lookup(key) == Some(value)
        && (forall k | k != key :: Lookup(k) == old(Lookup(k)))
        && (if key in byPath
            then && insertions == old(insertions) && pending == old(pending) - {key}
                 && replacements.Keys == old(replacements.Keys) + {key}
                 && (forall k | k in old(replacements) && k != key :: replacements[k] == old(replacements[k]))
                 && deletions == old(deletions) - {key}
                 && (var span := entries[byPath[key]].value;
                     codec.restyle(raw[span.start..span.end], value) == Some(replacements[key]))
            else && replacements == old(replacements) && deletions == old(deletions)
                 && pending == old(pending)[key := value]
                 && insertions == old(insertions) + [Insertion("", TomlKey.ParseDottedKey(path).value)])
    {
      hide TomlKey.ParseDottedKey, Key;
      var parts := TomlKey.ParseDottedKey(path);
      if parts.None? { return false; }
      var key := Key(parts.value);
      if key in byPath {
        var span := entries[byPath[key]].value;
        var text := codec.restyle(raw[span.start..span.end], value);
        if text.None? { return false; }
        values := values[key := value];
        replacements := replacements[key := text.value];
        deletions := deletions - {key};
        pending := pending - {key};
      } else {
        if codec.format(value).None? { return false; }
        pending := pending[key := value];
        insertions := insertions + [Insertion("", parts.value)];
      }
      return true;
    }

    method InsertAfter(afterPath: Bytes, path: Bytes, value: V) returns (ok: bool)
      requires Valid()
      modifies this`pending, this`insertions
      ensures Valid()
      ensures var anchor, parts := TomlKey.ParseDottedKey(afterPath), TomlKey.ParseDottedKey(path);
        && ok == (anchor.Some? && Key(anchor.value) in byPath && Key(anchor.value) !in deletions && parts.Some?)
        && (if ok
            then && pending == old(pending)[Key(parts.value) := value]
                 && insertions == old(insertions) + [Insertion(Key(anchor.value), parts.value)]
                 && (Key(parts.value) !in byPath ==> Lookup(Key(parts.value)) == Some(value))
                 && (forall k | k in byPath || k != Key(parts.value) :: Lookup(k) == old(Lookup(k)))
            else unchanged(this))
    {
      hide TomlKey.ParseDottedKey, Key;
      var anchor := TomlKey.ParseDottedKey(afterPath);
      if anchor.None? { return false; }
      var afterKey := Key(anchor.value);
      if afterKey !in byPath || afterKey in deletions { return false; }
      var parts := TomlKey.ParseDottedKey(path);
      if parts.None? { return false; }
      pending := pending[Key(parts.value) := value];
      insertions := insertions + [Insertion(afterKey, parts.value)];
      return true;
    }

    method Delete(path: Bytes) returns (ok: bool)
      requires Valid()
      modifies this`pending, this`deletions, this`replacements
      ensures Valid()
      ensures var parts := TomlKey.ParseDottedKey(path);
        && ok == (parts.Some? && (Key(parts.value) in byPath || Key(parts.value) in old(pending)))
        && (!ok ==> unchanged(this))
        && (ok ==> var key := Key(parts.value);
             && Lookup(key) == None
             && (forall k | k != key :: Lookup(k) == old(Lookup(k)))
             && (if key in byPath
                 then && deletions == old(deletions) + {key}
                      && replacements == old(replacements) - {key} && pending == old(pending)
                 else && pending == old(pending) - {key}
                      && deletions == old(deletions) && replacements == old(replacements)))
    {
      hide TomlKey.ParseDottedKey, Key;
      var parts := TomlKey.ParseDottedKey(path);
      if parts.None? { return false; }
      var key := Key(parts.value);
      if key !in byPath {
        if key !in pending { return false; }
        pending := pending - {key};
        return true;
      }
      deletions := deletions + {key};
      replacements := replacements - {key};
      return true;
    }

    /** The sorted splice: the original text with exactly the unskipped edits applied. None is skipped if
        and only if no two operations overlap; disjoint lines are enough for that. */
    method Bytes() returns (out: Bytes)
      requires Valid()
      ensures out == Splice(raw, StableSort(Ops()), 0)
      ensures Written(raw, StableSort(Ops()), 0) == StableSort(Ops()) <==> AllCompatible(Ops())
      ensures out == Render(raw, Written(raw, StableSort(Ops()), 0), 0)
      ensures AllCompatible(Ops()) ==> out == Render(raw, Ops(), 0)
      ensures LinesDisjoint(entries) ==> AllCompatible(Ops())
    {
      if replacements == map[] && deletions == {} && insertions == [] {
        NoEditsNoOps(entries);
        SpliceMeaning(raw, Ops());
        SpliceIsWritten(raw, StableSort(Ops()));
        return raw;
      }
      var ops := EntryOpsOf(entries, replacements, deletions);
      ghost var entryOps := ops;
      for i := 0 to |insertions|
        invariant ops == entryOps + InsertionOps(raw, entries, byPath, pending, codec, insertions[..i])
      {
        var op := InsertionOp(raw, entries, byPath, pending, codec, insertions[i]);
        if op.Some? { ops := ops + [op.value]; }
        InsertionOpsNext(raw, entries, byPath, pending, codec, insertions, i);
      }
      assert insertions[..|insertions|] == insertions;
      out := SpliceAll(raw, StableSort(ops));
      if LinesDisjoint(entries) {
        EditsCompatible(raw, entries, byPath, replacements, deletions, pending, codec, insertions);
      }
      EditsIn(raw, entries, byPath, replacements, deletions, pending, codec, insertions);
      NothingSkipped(raw, ops);
      SpliceIsWritten(raw, StableSort(ops));
      if AllCompatible(ops) { SpliceMeaning(raw, ops); }
    }
  }

  lemma {:induction false} NoEditsNoOps(entries: seq<Entry>)
    ensures EntryOps(entries, map[], {}) == []
  {
    if entries != [] {
      EntryOpsLast(entries, map[], {});
      NoEditsNoOps(entries[..|entries| - 1]);
    }
  }

  lemma InsertionOpsNext<V>(raw: Bytes, entries: seq<Entry>, byPath: map<Bytes, nat>, pending: map<Bytes, V>,
      codec: Codec<V>, insertions: seq<Insertion>, i: nat)
    requires Indexed(entries, byPath) && forall i | 0 <= i < |insertions| :: insertions[i].path != []
    requires i < |insertions|
    ensures var op := InsertionOp(raw, entries, byPath, pending, codec, insertions[i]);
            InsertionOps(raw, entries, byPath, pending, codec, insertions[..i + 1])
            == InsertionOps(raw, entries, byPath, pending, codec, insertions[..i])
               + if op.Some? then [op.value] else []
  {
    var next, now := insertions[..i + 1], insertions[..i];
    var f := seq(|next|, k requires 0 <= k < |next| => InsertionOp(raw, entries, byPath, pending, codec, next[k]));
    assert f[..i] == seq(|now|, k requires 0 <= k < |now| => InsertionOp(raw, entries, byPath, pending, codec, now[k]));
  }

  method EntryOpsOf(entries: seq<Entry>, replacements: map<Bytes, Bytes>, deletions: set<Bytes>)
    returns (ops: seq<Op>)
    ensures ops == EntryOps(entries, replacements, deletions)
  {
    ops := [];
    for i := 0 to |entries|
      invariant ops == EntryOps(entries[..i], replacements, deletions)
    {
      var e := entries[i];
      EntryOpsLast(entries[..i + 1], replacements, deletions);
      assert entries[..i + 1][..i] == entries[..i];
      if e.key in deletions {
        ops := ops + [Op(e.line.start, e.line.end, "")];
        continue;
      }
      if e.key in replacements {
        ops := ops + [Op(e.value.start, e.value.end, replacements[e.key])];
      }
    }
    assert entries[..|entries|] == entries;
  }

  lemma SpliceNext(raw: Bytes, ops: seq<Op>, i: nat, cursor: nat)
    requires i < |ops| && cursor <= |raw|
    ensures var op, after := ops[i], ops[i + 1..];
            Splice(raw, ops[i..], cursor) ==
              if Skips(raw, cursor, op) then Splice(raw, after, cursor)
              else raw[cursor..op.start] + op.text + Splice(raw, after, op.end)
  {
    assert ops[i..][1..] == ops[i + 1..];
  }

  method SpliceAll(raw: Bytes, ops: seq<Op>) returns (out: Bytes)
    ensures out == Splice(raw, ops, 0)
  {
    out := [];
    var cursor: nat := 0;
    assert ops[0..] == ops;
    for i := 0 to |ops|
      invariant cursor <= |raw| && Splice(raw, ops, 0) == out + Splice(raw, ops[i..], cursor)
    {
      var op := ops[i];
      SpliceNext(raw, ops, i, cursor);
      if op.start < cursor || op.end < op.start || op.end > |raw| { continue; }
      var piece := raw[cursor..op.start] + op.text;
      Regroup(out, piece, Splice(raw, ops[i + 1..], op.end));
      out := out + piece;
      cursor := op.end;
    }
    out := out + raw[cursor..];
  }
}
