/** `parseDocument`'s variables as an object whose methods update them, one method per statement
    kind, with the source's loops. */
module TomlBuilder {
  import opened Text
  import opened TomlTree
  import opened TomlTables
  import Decimal

  class Builder {
    var root: Entries
    var current: Path
    var arrayTables: set<Bytes>
    var epochs: map<Bytes, nat>
    var declared: Marks
    var dotted: Marks
    var closed: Marks

    function Snapshot(): State
      reads this
    {
      State(root, current, arrayTables, epochs, declared, dotted, closed)
    }

    constructor ()
      ensures Snapshot() == Empty
    {
      root, current, arrayTables, epochs := map[], [], {}, map[];
      declared, dotted, closed := map[], map[], map[];
    }

    /** `declarationContext`: the longest array-table prefix, found from the full path down. */
    method FindContext(path: Path) returns (text: Bytes)
      ensures text == ContextNow(epochs, path)
    {
      var i := |path|;
      while i > 0
        invariant 0 <= i <= |path|
        invariant DeclarationContext(epochs, path, i) == ContextNow(epochs, path)
      {
        var prefix := Encode(path[..i]);
        if prefix in epochs && epochs[prefix] > 0 {
          return prefix + "#" + Decimal.Itoa(epochs[prefix]);
        }
        i := i - 1;
      }
      return "";
    }

    method IsMarkedNow(m: Marks, path: Path) returns (b: bool)
      ensures b == MarkedNow(Snapshot(), m, path)
    {
      var text := FindContext(path);
      return Encode(path) in m && m[Encode(path)] == text;
    }

    method ClosedInlinePrefix(path: Path) returns (b: bool)
      ensures b == ClosedPrefix(Ask(Snapshot()), path)
    {
      for i := 1 to |path| + 1
        invariant forall j | 1 <= j < i :: !MarkedNow(Snapshot(), closed, path[..j])
      {
        var hit := IsMarkedNow(closed, path[..i]);
        if hit {
          assert Ask(Snapshot()).closedNow(path[..i]);
          return true;
        }
      }
      forall j | 1 <= j <= |path| ensures !Ask(Snapshot()).closedNow(path[..j]) {}
      return false;
    }

    /** A `[table]` header; the object changes only when the header is accepted. */
    method Table(path: Path) returns (why: Option<Rejection>)
      requires path != []
      modifies this
      ensures Step(old(Snapshot()), TableHeader(path)) == if why.Some? then Rejected(why.value) else Ok(Snapshot())
      ensures why.Some? ==> Snapshot() == old(Snapshot())
    {
      if Encode(path) in arrayTables { return Some(RedefinesArray); }
      var dottedHere := IsMarkedNow(dotted, path);
      if dottedHere { return Some(RedefinesDotted); }
      var closedHere := ClosedInlinePrefix(path);
      if closedHere { return Some(ExtendsInline); }
      var declaredHere := IsMarkedNow(declared, path);
      if declaredHere { return Some(DuplicateTable); }
      var next := EnsureTable(root, path);
      if next.None? { return Some(RedefinesValue); }
      var text := FindContext(path);
      assert MarkAll(epochs, declared, [path]) == declared[Encode(path) := text] by { assert [path][..0] == []; }
      root, current := next.value, path;
      declared := declared[Encode(path) := text];
      return None;
    }

    /** An `[[array table]]` header. */
    method ArrayTable(path: Path) returns (why: Option<Rejection>)
      requires path != []
      modifies this
      ensures Step(old(Snapshot()), ArrayHeader(path)) == if why.Some? then Rejected(why.value) else Ok(Snapshot())
      ensures why.Some? ==> Snapshot() == old(Snapshot())
    {
      if Encode(path) in declared { return Some(RedefinesTable); }
      var dottedHere := IsMarkedNow(dotted, path);
      if dottedHere { return Some(RedefinesDotted); }
      var closedHere := ClosedInlinePrefix(path);
      if closedHere { return Some(ExtendsInline); }
      var next := AppendArrayTable(root, path);
      if next.None? { return Some(RedefinesValue); }
      arrayTables := arrayTables + {Encode(path)};
      epochs := epochs[Encode(path) := (if Encode(path) in epochs then epochs[Encode(path)] else 0) + 1];
      root, current := next.value, path;
      return None;
    }

    /** The prefix checks of a dotted key. */
    method CheckDottedKey(full: Path, from: nat) returns (why: Option<Rejection>)
      requires from <= |full|
      ensures why == CheckDotted(Ask(Snapshot()), full, from)
    {
      var i := from;
      while i < |full|
        invariant from <= i <= |full|
        invariant CheckDotted(Ask(Snapshot()), full, i) == CheckDotted(Ask(Snapshot()), full, from)
      {
        if Encode(full[..i]) in declared { return Some(ExtendsExplicit); }
        var closedHere := IsMarkedNow(closed, full[..i]);
        if closedHere { return Some(ExtendsInline); }
        i := i + 1;
      }
      return None;
    }

    /** `markDottedKeyTables`. */
    method MarkDottedKeyTables(full: Path, from: nat)
      requires from <= |full|
      modifies this`dotted
      ensures dotted == MarkAll(epochs, old(dotted), DottedPrefixes(full, from))
    {
      var i := from;
      ghost var goal := MarkAll(epochs, dotted, DottedPrefixes(full, from));
      while i < |full|
        invariant from <= i <= |full|
        invariant MarkAll(epochs, dotted, DottedPrefixes(full, i)) == goal
      {
        var text := FindContext(full[..i]);
        ghost var one: seq<Path> := [full[..i]];
        MarkAllAppend(epochs, dotted, one, DottedPrefixes(full, i + 1));
        assert MarkAll(epochs, dotted, one) == dotted[Encode(full[..i]) := text] by { assert one[..0] == []; }
        dotted := dotted[Encode(full[..i]) := text];
        i := i + 1;
      }
    }

    method MarkClosedPath(path: Path, ghost visited: seq<Path>, ghost before: Marks)
      requires closed == MarkAll(epochs, before, visited)
      modifies this`closed
      ensures closed == MarkAll(epochs, before, visited + [path])
    {
      var text := FindContext(path);
      assert (visited + [path])[..|visited|] == visited;
      closed := closed[Encode(path) := text];
    }

    /** `markClosedValuePaths`: every container inside the value, in whatever order the map is walked. */
    method MarkClosedValuePaths(path: Path, value: Value) returns (ghost visit: seq<Path>)
      modifies this`closed
      ensures closed == MarkAll(epochs, old(closed), visit)
      ensures forall p :: p in visit <==> Closes(path, value, p)
      decreases value, 1
    {
      visit := [];
      if value.Leaf? { return; }
      MarkClosedPath(path, [], closed);
      visit := [path];
      if value.Table? {
        ghost var more := MarkClosedEntries(path, value);
        MarkAllAppend(epochs, old(closed), [path], more);
        visit := [path] + more;
      } else {
        for i := 0 to |value.items|
          invariant closed == MarkAll(epochs, old(closed), visit)
          invariant forall p :: p in visit <==> p == path || ClosesItems(path, value, i, p)
        {
          ghost var before := visit;
          if value.items[i].Table? {
            ghost var more := MarkClosedEntries(path, value.items[i]);
            MarkAllAppend(epochs, old(closed), visit, more);
            visit := visit + more;
          }
          assert forall p :: p in visit <==> p == path || ClosesItems(path, value, i + 1, p);
        }
      }
    }

    method MarkClosedEntries(path: Path, table: Value) returns (ghost visit: seq<Path>)
      requires table.Table?
      modifies this`closed
      ensures closed == MarkAll(epochs, old(closed), visit)
      ensures forall p :: p in visit <==> ClosesEntries(path, table, table.entries.Keys, p)
      decreases table, 0
    {
      visit := [];
      var keys := table.entries.Keys;
      while keys != {}
        invariant keys <= table.entries.Keys
        invariant closed == MarkAll(epochs, old(closed), visit)
        invariant forall p :: p in visit <==> ClosesEntries(path, table, table.entries.Keys - keys, p)
        decreases keys
      {
        var k :| k in keys;
        ghost var more := MarkClosedValuePaths(path + [k], table.entries[k]);
        MarkAllAppend(epochs, old(closed), visit, more);
        ghost var done := table.entries.Keys - keys;
        keys := keys - {k};
        assert table.entries.Keys - keys == done + {k};
        visit := visit + more;
      }
      assert table.entries.Keys - {} == table.entries.Keys;
    }

    /** A key/value statement. The ghost result is the order in which the value's containers were
        marked closed. */
    method Assign(key: Path, value: Value) returns (why: Option<Rejection>, ghost visit: seq<Path>)
      requires key != []
      modifies this
      ensures forall p :: why.None? ==> (p in visit <==> Closes(old(current) + key, value, p))
      ensures Step(old(Snapshot()), KeyValue(key, value, visit))
          == if why.Some? then Rejected(why.value) else Ok(Snapshot())
      ensures why.Some? ==> Snapshot() == old(Snapshot())
    {
      hide MarkAll, DottedPrefixes, AssignUnder, Closes, CheckDotted;
      visit := [];
      var full := current + key;
      if |key| > 1 {
        why := CheckDottedKey(full, |current| + 1);
        if why.Some? { return; }
      }
      var next := AssignUnder(root, current, key, value);
      if next.None? { return Some(RedefinesValue), []; }
      MarkDottedKeyTables(full, |current| + 1);
      visit := MarkClosedValuePaths(full, value);
      root := next.value;
      return None, visit;
    }
  }
}
