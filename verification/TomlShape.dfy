/** The three tree builders of pkg/toml/value.go, position by position: what stands at every address of
    the tree after a table header, an array header or a key, and that nothing else changed. */
module TomlShape {
  import opened Text
  import opened TomlTree

  /** What stands at an address, without what is below it. */
  datatype Shape = LeafShape(text: Bytes) | TableShape | ArrayShape(n: nat)

  function ShapeOf(v: Value): Shape {
    match v
    case Leaf(text) => LeafShape(text)
    case Table(_) => TableShape
    case Array(items) => ArrayShape(|items|)
  }

  function ShapeAt(v: Value, loc: seq<Hop>): Option<Shape> {
    if At(v, loc).None? then None else Some(ShapeOf(At(v, loc).value))
  }

  /** The shapes at all addresses determine a tree. */
  lemma {:induction false} ShapesDecide(a: Value, b: Value)
    requires forall loc :: ShapeAt(a, loc) == ShapeAt(b, loc)
    ensures a == b
    decreases a
  {
    assert ShapeAt(a, []) == ShapeAt(b, []);
    match a {
      case Leaf(_) =>
      case Table(e) =>
        forall k ensures k in e <==> k in b.entries { KeyShape(a, k); KeyShape(b, k); }
        forall k | k in e ensures e[k] == b.entries[k] {
          forall loc ensures ShapeAt(e[k], loc) == ShapeAt(b.entries[k], loc) {
            assert ([Key(k)] + loc)[1..] == loc;
            assert ShapeAt(a, [Key(k)] + loc) == ShapeAt(b, [Key(k)] + loc);
          }
          ShapesDecide(e[k], b.entries[k]);
        }
        assert e == b.entries;
      case Array(items) =>
        forall i | 0 <= i < |items| ensures items[i] == b.items[i] {
          forall loc ensures ShapeAt(items[i], loc) == ShapeAt(b.items[i], loc) {
            assert ([Index(i)] + loc)[1..] == loc;
            assert ShapeAt(a, [Index(i)] + loc) == ShapeAt(b, [Index(i)] + loc);
          }
          ShapesDecide(items[i], b.items[i]);
        }
        assert items == b.items;
    }
  }

  lemma KeyShape(v: Value, k: Bytes)
    requires v.Table?
    ensures ShapeAt(v, [Key(k)]).Some? <==> k in v.entries
  {
    assert [Key(k)][1..] == [];
    if k in v.entries { assert At(v.entries[k], []).Some?; }
  }

  // ---------------------------------------------------------------- the way of a path

  /** The first hops of a path: into a table, or into the last element of an array of tables. */
  function Door(root: Entries, k: Bytes): seq<Hop> {
    if k in root && root[k].Array? && EndsInTable(root[k].items) then [Key(k), Index(|root[k].items| - 1)]
    else [Key(k)]
  }

  function Behind(root: Entries, k: Bytes): Entries {
    if k in root && Enterable(root[k]) then Enter(root[k]) else map[]
  }

  /** The address of the table that a path leads to, through plain tables where nothing stands yet. */
  function Way(root: Entries, path: Path): seq<Hop>
    decreases |path|
  {
    if path == [] then [] else Door(root, path[0]) + Way(Behind(root, path[0]), path[1..])
  }

  predicate OnWay(root: Entries, path: Path, loc: seq<Hop>) {
    exists i | 0 <= i <= |path| :: loc == Way(root, path[..i])
  }

  lemma WayTail(root: Entries, path: Path, i: nat)
    requires 0 < i <= |path|
    ensures Way(root, path[..i]) == Door(root, path[0]) + Way(Behind(root, path[0]), path[1..][..i - 1])
  {
    assert path[..i][1..] == path[1..][..i - 1];
  }

  lemma OnWayTail(root: Entries, path: Path, loc: seq<Hop>)
    requires path != []
    ensures var door := Door(root, path[0]);
      OnWay(root, path, loc) <==>
        loc == [] || (door <= loc && OnWay(Behind(root, path[0]), path[1..], loc[|door|..]))
  {
    hide Way;
    var door, sub, tail := Door(root, path[0]), Behind(root, path[0]), path[1..];
    assert Way(root, path[..0]) == [] by { NoWay(root, path[..0]); }
    forall i | 0 < i <= |path| ensures Way(root, path[..i]) == door + Way(sub, tail[..i - 1]) {
      WayTail(root, path, i);
    }
    if OnWay(root, path, loc) && loc != [] {
      var i :| 0 <= i <= |path| && loc == Way(root, path[..i]);
      assert loc[|door|..] == Way(sub, tail[..i - 1]);
    }
    if door <= loc && OnWay(sub, tail, loc[|door|..]) {
      var j :| 0 <= j <= |tail| && loc[|door|..] == Way(sub, tail[..j]);
      assert loc == door + loc[|door|..] == Way(root, path[..j + 1]);
    }
  }

  lemma NoWay(root: Entries, path: Path)
    requires path == []
    ensures Way(root, path) == []
  {}

  // ---------------------------------------------------------------- one entry replaced

  lemma ShapeInto(root: Entries, k: Bytes, loc: seq<Hop>)
    requires k in root && loc != [] && loc[0] == Key(k)
    ensures ShapeAt(Table(root), loc) == ShapeAt(root[k], loc[1..])
  {}

  lemma ShapeBeside(root: Entries, k: Bytes, v: Value, loc: seq<Hop>)
    requires loc == [] || loc[0] != Key(k)
    ensures ShapeAt(Table(root[k := v]), loc) == ShapeAt(Table(root), loc)
  {}

  lemma ShapeMissing(root: Entries, k: Bytes, loc: seq<Hop>)
    requires k !in root && loc != [] && loc[0] == Key(k)
    ensures ShapeAt(Table(root), loc) == None
  {}

  /** Behind the door stands the entered table; beside it everything is as before. */
  lemma ShapeThroughDoor(root: Entries, k: Bytes, sub: Entries, loc: seq<Hop>)
    requires k in root && Enterable(root[k]) && loc != [] && loc[0] == Key(k)
    ensures var door := Door(root, k);
      ShapeAt(Table(root[k := Rebuild(root[k], sub)]), loc)
      == (if door <= loc then ShapeAt(Table(sub), loc[|door|..]) else ShapeAt(Table(root), loc))
  {
    var door, v := Door(root, k), root[k];
    ShapeInto(root, k, loc);
    ShapeInto(root[k := Rebuild(v, sub)], k, loc);
    if v.Array? {
      if |loc| > 1 && loc[1] == Index(|v.items| - 1) { assert loc[1..][1..] == loc[2..]; }
      if |loc| > 1 && loc[1].Index? && loc[1].i < |v.items| - 1 {
        assert Rebuild(v, sub).items[loc[1].i] == v.items[loc[1].i];
      }
    }
  }

  lemma ShapeBehind(root: Entries, k: Bytes, loc: seq<Hop>)
    requires k in root && Enterable(root[k]) && Door(root, k) <= loc
    ensures ShapeAt(Table(root), loc) == ShapeAt(Table(Behind(root, k)), loc[|Door(root, k)|..])
  {
    assert Rebuild(root[k], Enter(root[k])) == root[k];
    assert root[k := root[k]] == root;
    assert loc[0] == Door(root, k)[0];
    ShapeThroughDoor(root, k, Enter(root[k]), loc);
  }

  // ---------------------------------------------------------------- table headers

  function Before(root: Entries, loc: seq<Hop>): Option<Shape> { ShapeAt(Table(root), loc) }

  predicate Opened(root: Entries, path: Path, r: Entries, loc: seq<Hop>) {
    ShapeAt(Table(r), loc)
    == if Before(root, loc).Some? then Before(root, loc) else if OnWay(root, path, loc) then Some(TableShape) else None
  }

  /** A table header creates the missing tables on its way, and changes no other address. */
  lemma {:induction false} EnsureTableExactly(root: Entries, path: Path, loc: seq<Hop>)
    requires EnsureTable(root, path).Some?
    ensures Opened(root, path, EnsureTable(root, path).value, loc)
    decreases |path|
  {
    hide Way, OnWay, ShapeAt;
    if path == [] {
      if OnWay(root, path, loc) { OnlyRoot(root, path, loc); RootShape(root); }
    } else {
      var k, door, sub := path[0], Door(root, path[0]), Behind(root, path[0]);
      var subR := EnsureTable(sub, path[1..]).value;
      OnWayTail(root, path, loc);
      RootShape(root);
      RootShape(EnsureTable(root, path).value);
      if loc == [] {
      } else if loc[0] != Key(k) {
        ShapeBeside(root, k, EnsureTable(root, path).value[k], loc);
      } else if k in root {
        ShapeThroughDoor(root, k, subR, loc);
        if door <= loc {
          ShapeBehind(root, k, loc);
          EnsureTableExactly(sub, path[1..], loc[|door|..]);
        }
      } else {
        ShapeMissing(root, k, loc);
        ShapeInto(root[k := Table(subR)], k, loc);
        EnsureTableExactly(sub, path[1..], loc[1..]);
        RootShape(subR);
        if loc[1..] == [] { FirstOnWay(sub, path[1..]); } else { NothingThere(loc[1..]); }
      }
    }
  }

  lemma RootShape(root: Entries)
    ensures ShapeAt(Table(root), []) == Some(TableShape)
  {}

  lemma NothingThere(loc: seq<Hop>)
    requires loc != []
    ensures ShapeAt(Table(map[]), loc) == None
  {}

  lemma FirstOnWay(root: Entries, path: Path)
    ensures OnWay(root, path, [])
  {
    assert Way(root, path[..0]) == [];
  }

  lemma OnlyRoot(root: Entries, path: Path, loc: seq<Hop>)
    requires path == [] && OnWay(root, path, loc)
    ensures loc == []
  {}

  // ---------------------------------------------------------------- keys

  /** The address of a key: through plain tables. */
  function Hops(key: Path): seq<Hop> { seq(|key|, i requires 0 <= i < |key| => Key(key[i])) }

  lemma HopsTail(key: Path, i: nat)
    requires 0 < i <= |key|
    ensures Hops(key[..i]) == [Key(key[0])] + Hops(key[1..][..i - 1])
  {}

  /** The address is that of a proper prefix of the key. */
  predicate OnKey(key: Path, loc: seq<Hop>) { exists i | 0 <= i < |key| :: loc == Hops(key[..i]) }

  lemma OnKeyTail(key: Path, loc: seq<Hop>)
    requires |key| > 1
    ensures OnKey(key, loc) <==> loc == [] || (loc[0] == Key(key[0]) && OnKey(key[1..], loc[1..]))
  {
    hide Hops;
    var tail := key[1..];
    forall i | 0 < i <= |key| ensures Hops(key[..i]) == [Key(key[0])] + Hops(tail[..i - 1]) { HopsTail(key, i); }
    assert Hops(key[..0]) == [] by { NoHops(key[..0]); }
    if loc != [] && loc[0] == Key(key[0]) && OnKey(tail, loc[1..]) {
      var j :| 0 <= j < |tail| && loc[1..] == Hops(tail[..j]);
      assert loc == Hops(key[..j + 1]);
    }
  }

  lemma NoHops(key: Path)
    requires key == []
    ensures Hops(key) == []
  {}

  predicate Stored(root: Entries, key: Path, value: Value, r: Entries, loc: seq<Hop>) {
    ShapeAt(Table(r), loc)
    == if Before(root, loc).Some? then Before(root, loc)
       else if OnKey(key, loc) then Some(TableShape)
       else if Hops(key) <= loc then ShapeAt(value, loc[|key|..]) else None
  }

  /** A key stores its value at its address and creates the missing tables before it. */
  lemma {:induction false} AssignUniqueExactly(root: Entries, key: Path, value: Value, loc: seq<Hop>)
    requires key != [] && AssignUnique(root, key, value).Some?
    ensures Stored(root, key, value, AssignUnique(root, key, value).value, loc)
    decreases |key|
  {
    hide OnKey, ShapeAt, Hops, AssignUnique;
    var k, r := key[0], AssignUnique(root, key, value).value;
    AssignStep(root, key, value);
    RootShape(root);
    RootShape(r);
    if loc == [] {
    } else if loc[0] != Key(k) {
      ShapeBeside(root, k, r[k], loc);
      KeyElsewhere(key, loc);
    } else {
      ShapeInto(r, k, loc);
      KeyHead(key, loc);
      if k in root { ShapeInto(root, k, loc); } else { ShapeMissing(root, k, loc); }
      if |key| > 1 {
        var sub := if k in root then root[k].entries else map[];
        OnKeyTail(key, loc);
        AssignUniqueExactly(sub, key[1..], value, loc[1..]);
        RootShape(AssignUnique(sub, key[1..], value).value);
        if k !in root {
          if loc[1..] == [] { FirstOnKey(key[1..]); } else { NothingThere(loc[1..]); }
        }
      }
    }
  }

  /** One step of the assignment: only the entry of the first segment changes. */
  lemma AssignStep(root: Entries, key: Path, value: Value)
    requires key != [] && AssignUnique(root, key, value).Some?
    ensures var k, r := key[0], AssignUnique(root, key, value).value;
      && k in r && r == root[k := r[k]] && (k in root ==> |key| > 1 && root[k].Table?)
      && (|key| == 1 ==> r[k] == value)
      && (|key| > 1 ==>
            var sub := AssignUnique(if k in root then root[k].entries else map[], key[1..], value);
            sub.Some? && r[k] == Table(sub.value))
  {}

  lemma FirstOnKey(key: Path)
    requires key != []
    ensures OnKey(key, [])
  {
    assert Hops(key[..0]) == [];
  }

  lemma KeyElsewhere(key: Path, loc: seq<Hop>)
    requires key != [] && loc != [] && loc[0] != Key(key[0])
    ensures !OnKey(key, loc) && !(Hops(key) <= loc)
  {
    assert Hops(key)[0] == Key(key[0]);
    forall i | 0 < i < |key| ensures loc != Hops(key[..i]) { assert Hops(key[..i])[0] == Key(key[0]); }
  }

  lemma KeyHead(key: Path, loc: seq<Hop>)
    requires key != [] && loc != [] && loc[0] == Key(key[0])
    ensures Hops(key) <= loc <==> Hops(key[1..]) <= loc[1..]
    ensures Hops(key) <= loc ==> loc[|key|..] == loc[1..][|key| - 1..]
    ensures |key| == 1 ==> Hops(key) <= loc && !OnKey(key, loc)
  {
    var tail := Hops(key[1..]);
    assert Hops(key) == [Key(key[0])] + tail;
    if tail <= loc[1..] { assert loc == [loc[0]] + loc[1..]; }
    if Hops(key) <= loc { assert tail == Hops(key)[1..] && Hops(key)[1..] <= loc[1..]; }
    if |key| == 1 { assert Hops(key[..0]) == []; }
  }

  predicate StoredUnder(root: Entries, current: Path, key: Path, value: Value, r: Entries, loc: seq<Hop>) {
    var base := Way(root, current);
    ShapeAt(Table(r), loc)
    == if Before(root, loc).Some? then Before(root, loc)
       else if base <= loc && OnKey(key, loc[|base|..]) then Some(TableShape)
       else if base <= loc && Hops(key) <= loc[|base|..] then ShapeAt(value, loc[|base|..][|key|..]) else None
  }

  /** The same in the current table, found by the way of its header. */
  lemma {:induction false} AssignUnderExactly(root: Entries, current: Path, key: Path, value: Value, loc: seq<Hop>)
    requires key != [] && AssignUnder(root, current, key, value).Some?
    ensures StoredUnder(root, current, key, value, AssignUnder(root, current, key, value).value, loc)
    decreases |current|
  {
    hide OnKey, ShapeAt, Hops, AssignUnique;
    if current == [] {
      AssignUniqueExactly(root, key, value, loc);
      assert loc[0..] == loc;
    } else {
      var k, door, sub := current[0], Door(root, current[0]), Behind(root, current[0]);
      var subR := AssignUnder(sub, current[1..], key, value).value;
      RootShape(root);
      RootShape(AssignUnder(root, current, key, value).value);
      WayHead(root, current, loc);
      if loc == [] {
      } else if loc[0] != Key(k) {
        ShapeBeside(root, k, AssignUnder(root, current, key, value).value[k], loc);
      } else {
        ShapeThroughDoor(root, k, subR, loc);
        if door <= loc {
          ShapeBehind(root, k, loc);
          AssignUnderExactly(sub, current[1..], key, value, loc[|door|..]);
        }
      }
    }
  }

  lemma WayHead(root: Entries, path: Path, loc: seq<Hop>)
    requires path != []
    ensures var door, rest := Door(root, path[0]), Way(Behind(root, path[0]), path[1..]);
      && (Way(root, path) <= loc <==> door <= loc && rest <= loc[|door|..])
      && (Way(root, path) <= loc ==> loc[|Way(root, path)|..] == loc[|door|..][|rest|..])
      && door[0] == Key(path[0])
  {
    var door, rest := Door(root, path[0]), Way(Behind(root, path[0]), path[1..]);
    assert Way(root, path) == door + rest;
    if door + rest <= loc { assert rest == (door + rest)[|door|..] <= loc[|door|..]; }
    if door <= loc && rest <= loc[|door|..] { assert loc == door + loc[|door|..]; }
  }

  // ---------------------------------------------------------------- array headers

  /** The address of the array that an array header appends to. */
  function Row(root: Entries, path: Path): seq<Hop>
    requires path != []
  {
    Way(root, path[..|path| - 1]) + [Key(path[|path| - 1])]
  }

  function Length(root: Entries, path: Path): nat
    requires path != []
  {
    var v := Find(root, path);
    if v.Some? && v.value.Array? then |v.value.items| else 0
  }

  predicate Appended(root: Entries, path: Path, r: Entries, loc: seq<Hop>)
    requires path != []
  {
    var row, n := Row(root, path), Length(root, path);
    ShapeAt(Table(r), loc)
    == if loc == row then Some(ArrayShape(n + 1))
       else if loc == row + [Index(n)] then Some(TableShape)
       else if Before(root, loc).Some? then Before(root, loc)
       else if OnWay(root, path[..|path| - 1], loc) then Some(TableShape) else None
  }

  lemma AppendHere(root: Entries, path: Path, loc: seq<Hop>)
    requires |path| == 1 && AppendArrayTable(root, path).Some?
    ensures Appended(root, path, AppendArrayTable(root, path).value, loc)
  {
    var k, r := path[0], AppendArrayTable(root, path).value;
    assert Row(root, path) == [Key(k)];
    var n := Length(root, path);
    RootShape(root);
    RootShape(r);
    if OnWay(root, path[..0], loc) { OnlyRoot(root, path[..0], loc); }
    if loc == [] || loc[0] != Key(k) {
      ShapeBeside(root, k, r[k], loc);
    } else {
      ShapeInto(r, k, loc);
      if k in root { ShapeInto(root, k, loc); } else { ShapeMissing(root, k, loc); }
      ItemShapes(if k in root then root[k].items else [], loc[1..]);
      assert loc == [Key(k)] + loc[1..];
      if loc[1..] == [Index(n)] { assert loc == [Key(k)] + [Index(n)]; }
    }
  }

  lemma ItemShapes(items: seq<Value>, loc: seq<Hop>)
    ensures ShapeAt(Array(items + [Table(map[])]), loc)
            == if loc == [] then Some(ArrayShape(|items| + 1))
               else if loc == [Index(|items|)] then Some(TableShape)
               else ShapeAt(Array(items), loc)
  {
    if loc != [] && loc[0] == Index(|items|) && |loc| > 1 { NothingThere(loc[1..]); }
    if loc == [Index(|items|)] { RootShape(map[]); assert loc[1..] == []; }
  }

  lemma RowHead(root: Entries, path: Path)
    requires |path| > 1
    ensures var door, sub := Door(root, path[0]), Behind(root, path[0]);
      && Row(root, path) == door + Row(sub, path[1..])
      && Length(root, path) == Length(sub, path[1..])
      && path[..|path| - 1][0] == path[0] && path[..|path| - 1][1..] == path[1..][..|path| - 2]
  {
    var front := path[..|path| - 1];
    assert front[1..] == path[1..][..|path| - 2];
  }

  /** An array header appends one empty table to its array and creates the missing tables before it. */
  lemma {:induction false} AppendArrayTableExactly(root: Entries, path: Path, loc: seq<Hop>)
    requires path != [] && AppendArrayTable(root, path).Some?
    ensures Appended(root, path, AppendArrayTable(root, path).value, loc)
    decreases |path|
  {
    hide Way, OnWay, ShapeAt, Row, Length;
    if |path| == 1 {
      AppendHere(root, path, loc);
    } else {
      var k, door, sub := path[0], Door(root, path[0]), Behind(root, path[0]);
      var r, subR := AppendArrayTable(root, path).value, AppendArrayTable(sub, path[1..]).value;
      RowHead(root, path);
      OnWayTail(root, path[..|path| - 1], loc);
      RootShape(root);
      RootShape(r);
      RootShape(subR);
      RowDeep(sub, path[1..]);
      if loc == [] {
      } else if loc[0] != Key(k) {
        ShapeBeside(root, k, r[k], loc);
      } else if k in root {
        ShapeThroughDoor(root, k, subR, loc);
        if door <= loc {
          ShapeBehind(root, k, loc);
          AppendArrayTableExactly(sub, path[1..], loc[|door|..]);
          assert loc == door + loc[|door|..];
        }
      } else {
        ShapeMissing(root, k, loc);
        ShapeInto(r, k, loc);
        AppendArrayTableExactly(sub, path[1..], loc[1..]);
        assert loc == door + loc[1..];
        if loc[1..] == [] { FirstOnWay(sub, path[1..][..|path| - 2]); } else { NothingThere(loc[1..]); }
      }
    }
  }

  lemma RowDeep(root: Entries, path: Path)
    requires path != []
    ensures Row(root, path) != []
  {}
}
