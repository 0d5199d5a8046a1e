/** The document tree that pkg/toml/value.go builds, and its three builders. A step may add to the
    tree but never disturbs what is already there. */
module TomlTree {
  import opened Text

  type Path = seq<Bytes>
  type Entries = map<Bytes, Value>

  datatype Value = Leaf(text: Bytes) | Table(entries: Entries) | Array(items: seq<Value>)

  predicate EndsInTable(items: seq<Value>) {
    items != [] && items[|items| - 1].Table?
  }

  /** The table a header or key descends into: a table, or the last element of an array of tables. */
  predicate Enterable(v: Value) {
    match v
    case Leaf(_) => false
    case Table(_) => true
    case Array(items) => EndsInTable(items)
  }

  function Enter(v: Value): (e: Entries)
    requires Enterable(v)
  {
    if v.Table? then v.entries else v.items[|v.items| - 1].entries
  }

  function Rebuild(v: Value, e: Entries): (w: Value)
    requires Enterable(v)
    ensures Enterable(w) && Enter(w) == e
  {
    if v.Table? then Table(e) else Array(v.items[|v.items| - 1 := Table(e)])
  }

  /** `ensureTableRaw`: open or create the table at `path`. */
  function EnsureTable(root: Entries, path: Path): Option<Entries>
    decreases |path|
  {
    if path == [] then Some(root)
    else if path[0] !in root then
      var sub :- EnsureTable(map[], path[1..]);
      Some(root[path[0] := Table(sub)])
    else if Enterable(root[path[0]]) then
      var sub :- EnsureTable(Enter(root[path[0]]), path[1..]);
      Some(root[path[0] := Rebuild(root[path[0]], sub)])
    else None
  }

  /** `appendArrayTableRaw`: a fresh element at the end of the array of tables at `path`. */
  function AppendArrayTable(root: Entries, path: Path): Option<Entries>
    requires path != []
    decreases |path|
  {
    var k := path[0];
    if |path| == 1 then
      if k !in root then Some(root[k := Array([Table(map[])])])
      else if root[k].Array? then Some(root[k := Array(root[k].items + [Table(map[])])])
      else None
    else if k !in root then
      var sub :- AppendArrayTable(map[], path[1..]);
      Some(root[k := Table(sub)])
    else if Enterable(root[k]) then
      var sub :- AppendArrayTable(Enter(root[k]), path[1..]);
      Some(root[k := Rebuild(root[k], sub)])
    else None
  }

  /** `assignUniqueRaw`: store `value` under a dotted key, through plain tables only. */
  function AssignUnique(root: Entries, key: Path, value: Value): Option<Entries>
    requires key != []
    decreases |key|
  {
    var k := key[0];
    if |key| == 1 then (if k in root then None else Some(root[k := value]))
    else if k !in root then
      var sub :- AssignUnique(map[], key[1..], value);
      Some(root[k := Table(sub)])
    else if root[k].Table? then
      var sub :- AssignUnique(root[k].entries, key[1..], value);
      Some(root[k := Table(sub)])
    else None
  }

  /** The assignment made through the current-table reference, which points at the table found by
      walking `current` from the root. */
  function AssignUnder(root: Entries, current: Path, key: Path, value: Value): Option<Entries>
    requires key != []
    decreases |current|
  {
    if current == [] then AssignUnique(root, key, value)
    else if current[0] in root && Enterable(root[current[0]]) then
      var sub :- AssignUnder(Enter(root[current[0]]), current[1..], key, value);
      Some(root[current[0] := Rebuild(root[current[0]], sub)])
    else None
  }

  // ---------------------------------------------------------------- growth

  /** `b` contains `a`: leaves are equal, tables keep their keys, an array keeps its elements in
      place and only its last element may itself have grown. */
  predicate Grows(a: Value, b: Value)
    decreases a
  {
    match a
    case Leaf(_) => a == b
    case Table(e) => b.Table? && forall k | k in e :: k in b.entries && Grows(e[k], b.entries[k])
    case Array(items) =>
      && b.Array? && |items| <= |b.items|
      && (forall i | 0 <= i < |items| - 1 :: items[i] == b.items[i])
      && (items != [] ==> Grows(items[|items| - 1], b.items[|items| - 1]))
  }

  predicate EntriesGrow(a: Entries, b: Entries) {
    forall k | k in a :: k in b && Grows(a[k], b[k])
  }

  lemma {:induction false} GrowsReflexive(a: Value)
    ensures Grows(a, a)
    decreases a
  {
    match a {
      case Leaf(_) =>
      case Table(e) => forall k | k in e ensures Grows(e[k], e[k]) { GrowsReflexive(e[k]); }
      case Array(items) => if items != [] { GrowsReflexive(items[|items| - 1]); }
    }
  }

  lemma {:induction false} GrowsTransitive(a: Value, b: Value, c: Value)
    requires Grows(a, b) && Grows(b, c)
    ensures Grows(a, c)
    decreases a
  {
    match a {
      case Leaf(_) =>
      case Table(e) =>
        forall k | k in e ensures k in c.entries && Grows(e[k], c.entries[k]) {
          GrowsTransitive(e[k], b.entries[k], c.entries[k]);
        }
      case Array(items) =>
        if items != [] {
          var l := |items| - 1;
          if |b.items| == |items| {
            GrowsTransitive(items[l], b.items[l], c.items[l]);
          }
        }
    }
  }

  lemma EntriesReflexive(a: Entries)
    ensures EntriesGrow(a, a)
  {
    forall k | k in a ensures Grows(a[k], a[k]) { GrowsReflexive(a[k]); }
  }

  lemma EntriesTransitive(a: Entries, b: Entries, c: Entries)
    requires EntriesGrow(a, b) && EntriesGrow(b, c)
    ensures EntriesGrow(a, c)
  {
    forall k | k in a ensures k in c && Grows(a[k], c[k]) { GrowsTransitive(a[k], b[k], c[k]); }
  }

  /** Changing one entry to something it grows into grows the table. */
  lemma UpdateGrows(a: Entries, k: Bytes, v: Value)
    requires k in a ==> Grows(a[k], v)
    ensures EntriesGrow(a, a[k := v])
  {
    forall j | j in a ensures Grows(a[j], a[k := v][j]) { GrowsReflexive(a[j]); }
  }

  lemma RebuildGrows(v: Value, e: Entries)
    requires Enterable(v) && EntriesGrow(Enter(v), e)
    ensures Grows(v, Rebuild(v, e))
  {
    if v.Array? { assert Grows(Table(Enter(v)), Table(e)); }
  }

  lemma {:induction false} EnsureTableGrows(root: Entries, path: Path)
    requires EnsureTable(root, path).Some?
    ensures EntriesGrow(root, EnsureTable(root, path).value)
    decreases |path|
  {
    if path == [] {
      EntriesReflexive(root);
    } else if path[0] !in root {
      UpdateGrows(root, path[0], Table(EnsureTable(map[], path[1..]).value));
    } else {
      var v := root[path[0]];
      EnsureTableGrows(Enter(v), path[1..]);
      var sub := EnsureTable(Enter(v), path[1..]).value;
      RebuildGrows(v, sub);
      UpdateGrows(root, path[0], Rebuild(v, sub));
    }
  }

  lemma AppendedGrows(items: seq<Value>, x: Value)
    ensures Grows(Array(items), Array(items + [x]))
  {
    if items != [] { GrowsReflexive(items[|items| - 1]); }
  }

  lemma {:induction false} AppendArrayTableGrows(root: Entries, path: Path)
    requires path != [] && AppendArrayTable(root, path).Some?
    ensures EntriesGrow(root, AppendArrayTable(root, path).value)
    decreases |path|
  {
    var k := path[0];
    if k !in root {
      UpdateGrows(root, k, AppendArrayTable(root, path).value[k]);
    } else if |path| == 1 {
      AppendedGrows(root[k].items, Table(map[]));
      UpdateGrows(root, k, Array(root[k].items + [Table(map[])]));
    } else {
      AppendArrayTableGrows(Enter(root[k]), path[1..]);
      var sub := AppendArrayTable(Enter(root[k]), path[1..]).value;
      RebuildGrows(root[k], sub);
      UpdateGrows(root, k, Rebuild(root[k], sub));
    }
  }

  lemma {:induction false} AssignUniqueGrows(root: Entries, key: Path, value: Value)
    requires key != [] && AssignUnique(root, key, value).Some?
    ensures EntriesGrow(root, AssignUnique(root, key, value).value)
    decreases |key|
  {
    var k := key[0];
    if k in root {
      AssignUniqueGrows(root[k].entries, key[1..], value);
      var sub := AssignUnique(root[k].entries, key[1..], value).value;
      RebuildGrows(root[k], sub);
      UpdateGrows(root, k, Table(sub));
    } else {
      UpdateGrows(root, k, AssignUnique(root, key, value).value[k]);
    }
  }

  lemma {:induction false} AssignUnderGrows(root: Entries, current: Path, key: Path, value: Value)
    requires key != [] && AssignUnder(root, current, key, value).Some?
    ensures EntriesGrow(root, AssignUnder(root, current, key, value).value)
    decreases |current|
  {
    if current == [] {
      AssignUniqueGrows(root, key, value);
    } else {
      var v := root[current[0]];
      AssignUnderGrows(Enter(v), current[1..], key, value);
      var sub := AssignUnder(Enter(v), current[1..], key, value).value;
      RebuildGrows(v, sub);
      UpdateGrows(root, current[0], Rebuild(v, sub));
    }
  }

  // ---------------------------------------------------------------- what growth preserves

  /** An address inside a tree: table keys and array positions. */
  datatype Hop = Key(name: Bytes) | Index(i: nat)

  function At(v: Value, loc: seq<Hop>): Option<Value>
    decreases |loc|
  {
    if loc == [] then Some(v) else
    match (v, loc[0])
    case (Table(e), Key(k)) => if k in e then At(e[k], loc[1..]) else None
    case (Array(items), Index(i)) => if i < |items| then At(items[i], loc[1..]) else None
    case _ => None
  }

  /** Every address stays occupied, and every leaf keeps its text. */
  lemma {:induction false} LeavesStay(a: Value, b: Value, loc: seq<Hop>)
    requires Grows(a, b) && At(a, loc).Some?
    ensures At(b, loc).Some? && Grows(At(a, loc).value, At(b, loc).value)
    ensures At(a, loc).value.Leaf? ==> At(b, loc) == At(a, loc)
    decreases |loc|
  {
    if loc != [] {
      match a {
        case Table(e) => LeavesStay(e[loc[0].name], b.entries[loc[0].name], loc[1..]);
        case Array(items) =>
          var i := loc[0].i;
          if i < |items| - 1 { GrowsReflexive(items[i]); }
          LeavesStay(items[i], b.items[i], loc[1..]);
      }
    }
  }

  /** An element of an array of tables is frozen, subtree and all, once another follows it. */
  lemma EarlierElementsFrozen(a: Value, b: Value, loc: seq<Hop>, i: nat)
    requires Grows(a, b)
    requires At(a, loc).Some? && At(a, loc).value.Array? && i + 1 < |At(a, loc).value.items|
    ensures At(b, loc).Some? && At(b, loc).value.Array? && i + 1 < |At(b, loc).value.items|
    ensures At(b, loc).value.items[i] == At(a, loc).value.items[i]
  {
    LeavesStay(a, b, loc);
  }

  // ---------------------------------------------------------------- what each step adds

  /** The value reached by a path of keys, entering the last element of arrays of tables. */
  function Find(root: Entries, path: Path): Option<Value>
    requires path != []
    decreases |path|
  {
    if path[0] !in root then None
    else if |path| == 1 then Some(root[path[0]])
    else if Enterable(root[path[0]]) then Find(Enter(root[path[0]]), path[1..])
    else None
  }

  /** Opening a table makes it reachable; opening it again changes nothing. */
  lemma {:induction false} EnsureTableOpens(root: Entries, path: Path)
    requires path != [] && EnsureTable(root, path).Some?
    ensures var r := EnsureTable(root, path).value;
            && Find(r, path).Some? && Enterable(Find(r, path).value)
            && EnsureTable(r, path) == Some(r)
    decreases |path|
  {
    var r := EnsureTable(root, path).value;
    var sub := if path[0] in root then Enter(root[path[0]]) else map[];
    var subR := EnsureTable(sub, path[1..]).value;
    if |path| > 1 {
      EnsureTableOpens(sub, path[1..]);
    }
    assert Enter(r[path[0]]) == subR;
    assert Rebuild(r[path[0]], subR) == r[path[0]];
    assert r[path[0] := r[path[0]]] == r;
  }

  /** Opening fails exactly when some prefix of the path holds a value that cannot be entered. */
  lemma {:induction false} EnsureTableFails(root: Entries, path: Path)
    ensures EnsureTable(root, path).None? <==>
            exists i | 0 < i <= |path| :: Find(root, path[..i]).Some? && !Enterable(Find(root, path[..i]).value)
    decreases |path|
  {
    if path != [] {
      var k := path[0];
      var blocked := (i: nat) requires 0 < i <= |path| =>
        Find(root, path[..i]).Some? && !Enterable(Find(root, path[..i]).value);
      assert path[..1] == [k];
      if k !in root {
        EnsureTableFails(map[], path[1..]);
        forall i | 0 < i <= |path| ensures !blocked(i) { assert path[..i][0] == k; }
        forall i | 0 < i <= |path[1..]| ensures Find(map[], path[1..][..i]).None? {}
      } else if Enterable(root[k]) {
        EnsureTableFails(Enter(root[k]), path[1..]);
        forall i | 1 < i <= |path|
          ensures Find(root, path[..i]) == Find(Enter(root[k]), path[1..][..i - 1])
        {
          assert path[..i][1..] == path[1..][..i - 1];
        }
        if EnsureTable(root, path).None? {
          var j :| 0 < j <= |path[1..]| && Find(Enter(root[k]), path[1..][..j]).Some?
            && !Enterable(Find(Enter(root[k]), path[1..][..j]).value);
          assert blocked(j + 1);
        }
      } else {
        assert blocked(1);
      }
    }
  }

  /** A value on the way to `path`, itself excluded, that cannot be entered. */
  predicate Blocked(root: Entries, path: Path) {
    exists i | 0 < i < |path| :: Find(root, path[..i]).Some? && !Enterable(Find(root, path[..i]).value)
  }

  lemma FindTail(root: Entries, path: Path, i: nat)
    requires 1 < i <= |path| && path[0] in root && Enterable(root[path[0]])
    ensures Find(root, path[..i]) == Find(Enter(root[path[0]]), path[1..][..i - 1])
  {
    assert path[..i][1..] == path[1..][..i - 1];
  }

  lemma NothingFound(path: Path)
    ensures !Blocked(map[], path) && (path != [] ==> Find(map[], path).None?)
  {}

  lemma BlockedTail(root: Entries, path: Path)
    requires |path| > 1 && path[0] in root && Enterable(root[path[0]])
    ensures Blocked(root, path) <==> Blocked(Enter(root[path[0]]), path[1..])
    ensures Find(root, path) == Find(Enter(root[path[0]]), path[1..])
  {
    var sub, tail := Enter(root[path[0]]), path[1..];
    forall i | 1 < i <= |path| ensures Find(root, path[..i]) == Find(sub, tail[..i - 1]) { FindTail(root, path, i); }
    assert path[..1] == [path[0]];
    if i :| 0 < i < |path| && Find(root, path[..i]).Some? && !Enterable(Find(root, path[..i]).value) {
      assert Find(sub, tail[..i - 1]).Some?;
    }
    if j :| 0 < j < |tail| && Find(sub, tail[..j]).Some? && !Enterable(Find(sub, tail[..j]).value) {
      assert Find(root, path[..j + 1]).Some?;
    }
  }

  lemma BlockedHead(root: Entries, path: Path)
    requires |path| > 1 && (path[0] in root ==> !Enterable(root[path[0]]))
    ensures Blocked(root, path) <==> path[0] in root
    ensures Find(root, path).None?
  {
    assert path[..1] == [path[0]];
    if path[0] in root { assert Find(root, path[..1]) == Some(root[path[0]]); }
  }

  /** Appending an element fails exactly when the path holds something that is no array, or some proper
      prefix of it a value that cannot be entered. */
  lemma {:induction false} AppendArrayTableFails(root: Entries, path: Path)
    requires path != []
    ensures AppendArrayTable(root, path).None? <==>
            (Find(root, path).Some? && !Find(root, path).value.Array?) || Blocked(root, path)
    decreases |path|
  {
    hide Blocked, Find;
    if |path| == 1 {
      FindOne(root, path);
    } else if path[0] in root && Enterable(root[path[0]]) {
      BlockedTail(root, path);
      AppendArrayTableFails(Enter(root[path[0]]), path[1..]);
    } else {
      BlockedHead(root, path);
      NothingFound(path[1..]);
      AppendArrayTableFails(map[], path[1..]);
    }
  }

  lemma FindOne(root: Entries, path: Path)
    requires |path| == 1
    ensures Find(root, path) == (if path[0] in root then Some(root[path[0]]) else None) && !Blocked(root, path)
  {}

  /** An array header appends one empty table and keeps the elements before it. */
  lemma {:induction false} AppendArrayTableAppends(root: Entries, path: Path)
    requires path != [] && AppendArrayTable(root, path).Some?
    ensures var r := AppendArrayTable(root, path).value;
            var before := if Find(root, path).Some? then Find(root, path).value else Array([]);
            before.Array? && Find(r, path) == Some(Array(before.items + [Table(map[])]))
    decreases |path|
  {
    if |path| > 1 {
      var sub := if path[0] in root then Enter(root[path[0]]) else map[];
      AppendArrayTableAppends(sub, path[1..]);
    } else {
      assert [] + [Table(map[])] == [Table(map[])];
    }
  }

  /** A key step succeeds only on a free key, and stores exactly the value there. */
  lemma {:induction false} AssignUniqueStores(root: Entries, key: Path, value: Value)
    requires key != [] && AssignUnique(root, key, value).Some?
    ensures Find(root, key).None?
    ensures Find(AssignUnique(root, key, value).value, key) == Some(value)
    decreases |key|
  {
    if |key| > 1 {
      var sub := if key[0] in root then root[key[0]].entries else map[];
      AssignUniqueStores(sub, key[1..], value);
    }
  }

  /** The value reached by a path of keys through plain tables only. */
  function FindPlain(root: Entries, path: Path): Option<Value>
    requires path != []
    decreases |path|
  {
    if path[0] !in root then None
    else if |path| == 1 then Some(root[path[0]])
    else if root[path[0]].Table? then FindPlain(root[path[0]].entries, path[1..])
    else None
  }

  /** The key is taken, or a value that is no table stands on the way to it. */
  predicate Occupied(root: Entries, key: Path)
    requires key != []
  {
    || FindPlain(root, key).Some?
    || exists i | 0 < i < |key| :: FindPlain(root, key[..i]).Some? && !FindPlain(root, key[..i]).value.Table?
  }

  lemma OccupiedTail(root: Entries, key: Path)
    requires |key| > 1 && key[0] in root && root[key[0]].Table?
    ensures Occupied(root, key) <==> Occupied(root[key[0]].entries, key[1..])
  {
    var sub, tail := root[key[0]].entries, key[1..];
    forall i | 1 < i <= |key| ensures FindPlain(root, key[..i]) == FindPlain(sub, tail[..i - 1]) {
      assert key[..i][1..] == tail[..i - 1];
    }
    assert key[..1] == [key[0]] && key[..|key|] == key && tail[..|tail|] == tail;
    if i :| 0 < i < |key| && FindPlain(root, key[..i]).Some? && !FindPlain(root, key[..i]).value.Table? {
      assert FindPlain(sub, tail[..i - 1]).Some?;
    }
    if j :| 0 < j < |tail| && FindPlain(sub, tail[..j]).Some? && !FindPlain(sub, tail[..j]).value.Table? {
      assert FindPlain(root, key[..j + 1]).Some?;
    }
  }

  lemma OccupiedHead(root: Entries, key: Path)
    requires key != [] && (key[0] in root && |key| > 1 ==> !root[key[0]].Table?)
    ensures Occupied(root, key) <==> key[0] in root
  {
    assert key[..1] == [key[0]];
    if key[0] in root { assert FindPlain(root, key[..1]) == Some(root[key[0]]); }
  }

  /** A key step fails exactly when its key is taken or its way is barred. */
  lemma {:induction false} AssignUniqueFails(root: Entries, key: Path, value: Value)
    requires key != []
    ensures AssignUnique(root, key, value).None? <==> Occupied(root, key)
    decreases |key|
  {
    hide Occupied;
    if |key| > 1 && key[0] in root && root[key[0]].Table? {
      OccupiedTail(root, key);
      AssignUniqueFails(root[key[0]].entries, key[1..], value);
    } else {
      OccupiedHead(root, key);
      if |key| > 1 {
        AssignUniqueFails(map[], key[1..], value);
        OccupiedHead(map[], key[1..]);
      }
    }
  }

  lemma {:induction false} AssignUnderStores(root: Entries, current: Path, key: Path, value: Value)
    requires key != [] && AssignUnder(root, current, key, value).Some?
    ensures Find(root, current + key).None?
    ensures Find(AssignUnder(root, current, key, value).value, current + key) == Some(value)
    decreases |current|
  {
    if current == [] {
      assert current + key == key;
      AssignUniqueStores(root, key, value);
    } else {
      assert (current + key)[1..] == current[1..] + key;
      AssignUnderStores(Enter(root[current[0]]), current[1..], key, value);
    }
  }

  /** The table the current-table reference designates. */
  function Current(root: Entries, current: Path): Option<Entries>
    decreases |current|
  {
    if current == [] then Some(root)
    else if current[0] in root && Enterable(root[current[0]]) then Current(Enter(root[current[0]]), current[1..])
    else None
  }

  /** Assigning from the root is assigning in the current table, in place. */
  lemma {:induction false} AssignInPlace(root: Entries, current: Path, key: Path, value: Value)
    requires key != [] && Current(root, current).Some?
    ensures var table := Current(root, current).value;
            && (AssignUnder(root, current, key, value).Some? <==> AssignUnique(table, key, value).Some?)
            && (AssignUnder(root, current, key, value).Some? ==>
                  Current(AssignUnder(root, current, key, value).value, current) == AssignUnique(table, key, value))
    decreases |current|
  {
    if current != [] { AssignInPlace(Enter(root[current[0]]), current[1..], key, value); }
  }

  /** Through the current table: the assignment fails exactly when the key is occupied there. */
  lemma {:induction false} AssignUnderFails(root: Entries, current: Path, key: Path, value: Value)
    requires key != []
    ensures AssignUnder(root, current, key, value).None? <==>
            Current(root, current).None? || Occupied(Current(root, current).value, key)
    decreases |current|
  {
    hide Occupied;
    if current == [] {
      AssignUniqueFails(root, key, value);
    } else if current[0] in root && Enterable(root[current[0]]) {
      AssignUnderFails(Enter(root[current[0]]), current[1..], key, value);
    }
  }

  /** The current table is where the path leads. */
  lemma {:induction false} CurrentIsFound(root: Entries, current: Path)
    requires current != []
    ensures Current(root, current).Some? <==> Find(root, current).Some? && Enterable(Find(root, current).value)
    ensures Current(root, current).Some? ==> Current(root, current).value == Enter(Find(root, current).value)
    decreases |current|
  {
    if |current| > 1 && current[0] in root && Enterable(root[current[0]]) {
      CurrentIsFound(Enter(root[current[0]]), current[1..]);
    }
  }

  lemma {:induction false} EnsuredIsCurrent(root: Entries, path: Path)
    requires EnsureTable(root, path).Some?
    ensures Current(EnsureTable(root, path).value, path).Some?
    decreases |path|
  {
    if path != [] {
      EnsuredIsCurrent(if path[0] in root then Enter(root[path[0]]) else map[], path[1..]);
    }
  }

  lemma {:induction false} AppendedIsCurrent(root: Entries, path: Path)
    requires path != [] && AppendArrayTable(root, path).Some?
    ensures Current(AppendArrayTable(root, path).value, path) == Some(map[])
    decreases |path|
  {
    if |path| > 1 {
      AppendedIsCurrent(if path[0] in root then Enter(root[path[0]]) else map[], path[1..]);
    }
  }
}
