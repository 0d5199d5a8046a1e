/** The converse of module JsonText: whatever the skipper of
    pkg/llm/codex/notification_scan.go consumes is a JSON text, up to commas before a closing
    bracket. Each lemma returns the text's structure. */
module JsonSound {
  import opened Text
  import opened JsonScan
  import opened JsonText

  lemma {:induction false} AtJoin(d: Bytes, p: nat, a: Bytes, b: Bytes)
    requires At(d, p, a) && At(d, p + |a|, b)
    ensures At(d, p, a + b)
    decreases |a|
  {
    if a == "" {
      assert a + b == b;
    } else {
      assert (a + b)[1..] == a[1..] + b;
      AtJoin(d, p + 1, a[1..], b);
    }
  }

  lemma {:induction false} AtThere(d: Bytes, p: nat, q: nat)
    requires p <= q <= |d|
    ensures At(d, p, d[p..q])
    decreases q - p
  {
    if p < q {
      AtThere(d, p + 1, q);
      assert d[p..q][1..] == d[p + 1..q];
    }
  }

  lemma {:induction false} SpaceIsWs(d: Bytes, p: nat)
    requires p <= |d|
    ensures Ws(d[p..SkipSpace(d, p)])
    decreases |d| - p
  {
    if p < |d| && IsWs(d[p]) {
      SpaceIsWs(d, p + 1);
      assert d[p..SkipSpace(d, p)] == [d[p]] + d[p + 1..SkipSpace(d, p)];
    }
  }

  lemma Spaces(d: Bytes, p: nat) returns (w: Bytes)
    requires p <= |d|
    ensures Ws(w) && At(d, p, w) && p + |w| == SkipSpace(d, p) == SkipSpace(d, p + |w|)
  {
    w := d[p..SkipSpace(d, p)];
    SpaceIsWs(d, p);
    AtThere(d, p, SkipSpace(d, p));
  }

  // ---------------------------------------------------------------- strings

  lemma UnitParsed(d: Bytes, p: nat) returns (u: Unit)
    requires p < |d| && d[p] != '"' && UnitEnd(d, p).Some?
    ensures UnitOk(u) && At(d, p, UnitText(u)) && UnitEnd(d, p).value == p + |UnitText(u)|
  {
    var q := UnitEnd(d, p).value;
    AtThere(d, p, q);
    if d[p] != '\\' {
      u := Plain(d[p]);
      assert d[p..q] == [d[p]];
    } else if IsEscape(d[p + 1]) {
      u := Esc(d[p + 1]);
      assert d[p..q] == ['\\', d[p + 1]];
    } else {
      u := Hex(d[p + 2..p + 6]);
      assert d[p..q] == "\\u" + d[p + 2..p + 6];
    }
  }

  lemma {:induction false} BodyParsed(d: Bytes, p: nat) returns (us: seq<Unit>)
    requires p <= |d| && BodyEnd(d, p).Some?
    ensures UnitsOk(us) && At(d, p, UnitsText(us)) && BodyEnd(d, p).value == p + |UnitsText(us)|
    decreases |d| - p
  {
    if d[p] == '"' {
      us := [];
    } else {
      var u := UnitParsed(d, p);
      var rest := BodyParsed(d, UnitEnd(d, p).value);
      us := [u] + rest;
      assert us[0] == u && us[1..] == rest;
      AtJoin(d, p, UnitText(u), UnitsText(rest));
    }
  }

  lemma StringParsed(d: Bytes, p: nat) returns (us: seq<Unit>)
    requires p <= |d| && ReadString(d, p).Some?
    ensures UnitsOk(us) && At(d, p, StringText(us)) && ReadString(d, p).value.next == p + |StringText(us)|
  {
    us := BodyParsed(d, p + 1);
    var e := p + 1 + |UnitsText(us)|;
    AtThere(d, e, e + 1);
    assert d[e..e + 1] == "\"";
    AtJoin(d, p + 1, UnitsText(us), "\"");
    assert StringText(us)[1..] == UnitsText(us) + "\"";
  }

  // ---------------------------------------------------------------- numbers

  lemma DigitsParsed(d: Bytes, p: nat) returns (t: Bytes)
    requires p <= |d| && Digits(d, p).Some?
    ensures DigitText(t) && At(d, p, t) && Digits(d, p).value == p + |t| && t[0] == d[p]
  {
    t := d[p..Digits(d, p).value];
    AtThere(d, p, Digits(d, p).value);
  }

  lemma IntegerParsed(d: Bytes, p: nat) returns (t: Bytes)
    requires p <= |d| && Integer(d, p).Some?
    ensures DigitText(t) && (t == "0" || t[0] != '0') && At(d, p, t) && Integer(d, p).value == p + |t|
  {
    if Sees(d, p, '0') {
      t := "0";
      assert t[1..] == "";
    } else {
      t := DigitsParsed(d, p);
    }
  }

  lemma FractionParsed(d: Bytes, p: nat) returns (f: Option<Bytes>)
    requires p <= |d| && Fraction(d, p).Some?
    ensures f.Some? ==> DigitText(f.value)
    ensures var t := if f.Some? then "." + f.value else "";
      At(d, p, t) && Fraction(d, p).value == p + |t|
  {
    if Sees(d, p, '.') {
      var t := DigitsParsed(d, p + 1);
      f := Some(t);
      assert ("." + t)[1..] == t;
    } else {
      f := None;
    }
  }

  lemma ExponentParsed(d: Bytes, p: nat) returns (x: Option<Exp>)
    requires p <= |d| && Exponent(d, p).Some?
    ensures x.Some? ==> ExpOk(x.value)
    ensures var t := if x.Some? then [x.value.e] + (x.value.sign + x.value.digits) else "";
      At(d, p, t) && Exponent(d, p).value == p + |t|
  {
    if Sees(d, p, 'e') || Sees(d, p, 'E') {
      var sign := if Sees(d, p + 1, '+') then "+" else if Sees(d, p + 1, '-') then "-" else "";
      assert sign != "" ==> sign[1..] == "";
      var t := DigitsParsed(d, p + 1 + |sign|);
      x := Some(Exp(d[p], sign, t));
      AtJoin(d, p + 1, sign, t);
      assert ([d[p]] + (sign + t))[1..] == sign + t;
    } else {
      x := None;
    }
  }

  lemma NumberJoin(d: Bytes, p: nat, n: Number, i: nat)
    requires i == (if n.minus then p + 1 else p) && (n.minus ==> Sees(d, p, '-'))
    requires At(d, i, n.whole) && At(d, i + |n.whole|, FracText(n))
    requires At(d, i + |n.whole| + |FracText(n)|, ExpText(n))
    ensures At(d, p, NumberText(n)) && |NumberText(n)| == i - p + |n.whole| + |FracText(n)| + |ExpText(n)|
  {
    hide FracText, ExpText;
    var sign := if n.minus then "-" else "";
    assert At(d, p, sign) by { assert n.minus ==> sign[1..] == ""; AtBound(d, i, n.whole); }
    AtJoin(d, i + |n.whole|, FracText(n), ExpText(n));
    AtJoin(d, i, n.whole, FracText(n) + ExpText(n));
    AtJoin(d, p, sign, n.whole + (FracText(n) + ExpText(n)));
  }

  lemma NumberParsed(d: Bytes, p: nat) returns (n: Number)
    requires p <= |d| && SkipNumber(d, p).Some?
    ensures NumberOk(n) && At(d, p, NumberText(n)) && SkipNumber(d, p).value == p + |NumberText(n)|
  {
    hide Integer, Fraction, Exponent, At, DigitText, NumberText;
    var minus := Sees(d, p, '-');
    var i := if minus then p + 1 else p;
    var whole := IntegerParsed(d, i);
    var f := i + |whole|;
    var frac := FractionParsed(d, f);
    var exp := ExponentParsed(d, Fraction(d, f).value);
    n := Number(minus, whole, frac, exp);
    NumberJoin(d, p, n, i);
  }

  // ---------------------------------------------------------------- values

  lemma LiteralParsed(d: Bytes, p: nat, t: Bytes)
    requires p <= |d| && Literal(d, p, t).Some?
    ensures At(d, p, t)
  {
    AtThere(d, p, p + |t|);
  }

  lemma SlotJoin(d: Bytes, p: nat, before: Bytes, t: Bytes, after: Bytes, comma: bool, rest: Bytes)
    requires Slot(d, p, before, t, after, comma)
    requires At(d, p + |before| + |t| + |after| + |Comma(comma)|, rest)
    ensures At(d, p, before + (t + (after + (Comma(comma) + rest))))
  {
    hide At, Comma;
    AtJoin(d, p + |before| + |t| + |after|, Comma(comma), rest);
    AtJoin(d, p + |before| + |t|, after, Comma(comma) + rest);
    AtJoin(d, p + |before|, t, after + (Comma(comma) + rest));
    AtJoin(d, p, before, t + (after + (Comma(comma) + rest)));
  }

  lemma CommaAt(d: Bytes, p: nat, comma: bool)
    requires p <= |d| && (comma ==> Sees(d, p, ','))
    ensures At(d, p, Comma(comma))
  {
    if comma { assert ","[1..] == ""; }
  }

  lemma ItemsCons(x: Item, rest: seq<Item>)
    requires Ws(x.before) && Ok(x.value) && Ws(x.after) && ItemsOk(rest) && (x.comma || rest == [])
    ensures ItemsOk([x] + rest)
    ensures ItemsText([x] + rest)
            == x.before + (Print(x.value) + (x.after + (Comma(x.comma) + ItemsText(rest))))
  {
    hide Ok, Ws;
    var items := [x] + rest;
    assert items[0] == x && items[1..] == rest;
    forall i | 0 <= i < |items|
      ensures Ws(items[i].before) && Ok(items[i].value) && Ws(items[i].after) && (items[i].comma || i == |items| - 1)
    {
      if i > 0 { assert items[i] == rest[i - 1]; }
    }
  }

  /** The rounds of the array loop spell a list of elements and the space before the bracket. */
  lemma {:induction false} ElementsParsed(d: Bytes, p: nat) returns (items: seq<Item>, end: Bytes)
    requires p <= |d| && SkipElements(d, p).Some?
    ensures ItemsOk(items) && Ws(end) && At(d, p, ItemsText(items)) && At(d, p + |ItemsText(items)|, end)
    ensures Sees(d, p + |ItemsText(items)| + |end|, ']')
    ensures SkipElements(d, p).value == p + |ItemsText(items)| + |end| + 1
    decreases |d| - p, 4
  {
    hide Print, ItemsOk, Ok, SkipElements, SkipSpace, ItemsText, At;
    if Sees(d, SkipSpace(d, p), ']') {
      end := Spaces(d, p);
      items := [];
      NoItems(d, p);
      ElementsDone(d, p);
    } else {
      var x, rest, tail := ElementParsed(d, p);
      items, end := [x] + rest, tail;
      ItemsCons(x, rest);
      SlotJoin(d, p, x.before, Print(x.value), x.after, x.comma, ItemsText(rest));
    }
  }

  lemma NoItems(d: Bytes, p: nat)
    requires p <= |d|
    ensures ItemsOk([]) && ItemsText([]) == "" && At(d, p, "")
  {}

  lemma ElementsDone(d: Bytes, p: nat)
    requires p <= |d| && Sees(d, SkipSpace(d, p), ']')
    ensures SkipElements(d, p) == Some(SkipSpace(d, p) + 1)
  {}

  lemma ElementStep(d: Bytes, p: nat, v: nat)
    requires p <= |d| && !Sees(d, SkipSpace(d, p), ']') && SkipValue(d, SkipSpace(d, p)) == Some(v)
    ensures var t := SkipSpace(d, v);
      SkipElements(d, p) ==
        if Sees(d, t, ']') then Some(t + 1) else if Sees(d, t, ',') then SkipElements(d, t + 1) else None
  {
    hide SkipSpace, SkipValue;
  }

  lemma ElementGoesOn(d: Bytes, p: nat)
    requires p <= |d| && SkipElements(d, p).Some? && !Sees(d, SkipSpace(d, p), ']')
    ensures SkipValue(d, SkipSpace(d, p)).Some?
  {
    hide SkipSpace, SkipValue;
  }

  /** An element, and what the rest of the loop spells. */
  lemma {:induction false} ElementParsed(d: Bytes, p: nat) returns (x: Item, rest: seq<Item>, end: Bytes)
    requires p <= |d| && SkipElements(d, p).Some? && !Sees(d, SkipSpace(d, p), ']')
    ensures Ws(x.before) && Ok(x.value) && Ws(x.after) && ItemsOk(rest) && (x.comma || rest == []) && Ws(end)
    ensures Slot(d, p, x.before, Print(x.value), x.after, x.comma)
    ensures At(d, PastItem(p, x), ItemsText(rest)) && At(d, PastItem(p, x) + |ItemsText(rest)|, end)
    ensures Sees(d, PastItem(p, x) + |ItemsText(rest)| + |end|, ']')
    ensures SkipElements(d, p).value == PastItem(p, x) + |ItemsText(rest)| + |end| + 1
    decreases |d| - p, 3
  {
    hide SkipElements, SkipValue, SkipSpace, Print, ItemsOk, Ok, ItemsText, At, Ws;
    ElementGoesOn(d, p);
    var before := Spaces(d, p);
    var s := p + |before|;
    var v := SkipValue(d, s).value;
    ElementStep(d, p, v);
    var value := ValueFrom(d, s);
    var after := Spaces(d, v);
    var t := v + |after|;
    var comma := Sees(d, t, ',');
    CommaAt(d, t, comma);
    x := Item(before, value, after, comma);
    NoItems(d, t);
    if comma {
      rest, end := ElementsParsed(d, t + 1);
    } else {
      rest, end := [], "";
      NoSpace();
    }
  }

  lemma NoSpace()
    ensures Ws("")
  {}

  /** A value at a position with no space before it. */
  lemma {:induction false} ValueFrom(d: Bytes, s: nat) returns (v: Json)
    requires s <= |d| && SkipSpace(d, s) == s && SkipValue(d, s).Some?
    ensures Ok(v) && At(d, s, Print(v)) && SkipValue(d, s).value == s + |Print(v)|
    decreases |d| - s, 2
  {
    hide SkipSpace, SkipNumber, ReadString, Literal, SkipElements, SkipMembers;
    if d[s] == '"' {
      var us := StringParsed(d, s);
      v := Str(us);
    } else if d[s] == '{' {
      v := ObjectFrom(d, s);
    } else if d[s] == '[' {
      v := ArrayFrom(d, s);
    } else if d[s] == 't' {
      LiteralParsed(d, s, "true");
      v := True;
    } else if d[s] == 'f' {
      LiteralParsed(d, s, "false");
      v := False;
    } else if d[s] == 'n' {
      LiteralParsed(d, s, "null");
      v := Null;
    } else {
      var n := NumberParsed(d, s);
      v := Num(n);
    }
  }

  lemma {:induction false} ArrayFrom(d: Bytes, s: nat) returns (v: Json)
    requires Sees(d, s, '[') && SkipElements(d, s + 1).Some?
    ensures Ok(v) && At(d, s, Print(v)) && SkipElements(d, s + 1).value == s + |Print(v)|
    decreases |d| - s, 1
  {
    hide SkipElements, ItemsText, ItemsOk;
    var items, end := ElementsParsed(d, s + 1);
    v := Arr(items, end);
    CloseJoin(d, s + 1, ItemsText(items), end, ']');
    assert Print(v)[1..] == ItemsText(items) + (end + "]");
  }

  lemma CloseJoin(d: Bytes, p: nat, t: Bytes, end: Bytes, close: char)
    requires At(d, p, t) && At(d, p + |t|, end) && Sees(d, p + |t| + |end|, close)
    ensures At(d, p, t + (end + [close]))
  {
    assert At(d, p + |t| + |end|, [close]) by { assert [close][1..] == ""; }
    AtJoin(d, p + |t|, end, [close]);
    AtJoin(d, p, t, end + [close]);
  }

  // ---------------------------------------------------------------- objects

  lemma KeyParsed(d: Bytes, p: nat) returns (key: seq<Unit>, w: Bytes)
    requires p <= |d| && ReadKey(d, p).Some?
    ensures UnitsOk(key) && Ws(w) && At(d, p, StringText(key) + (w + ":"))
    ensures ReadKey(d, p).value.next == p + |StringText(key)| + |w| + 1
  {
    hide ReadString, SkipSpace, StringText;
    key := StringParsed(d, p);
    var q := p + |StringText(key)|;
    w := Spaces(d, q);
    assert At(d, q + |w|, ":") by { assert ":"[1..] == ""; }
    AtJoin(d, q, w, ":");
    AtJoin(d, p, StringText(key), w + ":");
  }

  lemma MembersCons(m: Member, rest: seq<Member>)
    requires MemberOk(m) && MembersOk(rest) && (m.comma || rest == [])
    ensures MembersOk([m] + rest)
    ensures MembersText([m] + rest) == m.before + (KeyText(m)
      + (m.beforeValue + (Print(m.value) + (m.after + (Comma(m.comma) + MembersText(rest))))))
  {
    hide MemberOk;
    var ms := [m] + rest;
    assert ms[0] == m && ms[1..] == rest;
    forall i | 0 <= i < |ms| ensures MemberOk(ms[i]) && (ms[i].comma || i == |ms| - 1) {
      if i > 0 { assert ms[i] == rest[i - 1]; }
    }
  }

  lemma NoMembersText(d: Bytes, p: nat)
    requires p <= |d|
    ensures MembersOk([]) && MembersText([]) == "" && At(d, p, "")
  {}

  lemma MembersDone(d: Bytes, p: nat)
    requires p <= |d| && Sees(d, SkipSpace(d, p), '}')
    ensures SkipMembers(d, p) == Some(SkipSpace(d, p) + 1)
  {}

  lemma {:induction false} MembersParsed(d: Bytes, p: nat) returns (ms: seq<Member>, end: Bytes)
    requires p <= |d| && SkipMembers(d, p).Some?
    ensures MembersOk(ms) && Ws(end) && At(d, p, MembersText(ms)) && At(d, p + |MembersText(ms)|, end)
    ensures Sees(d, p + |MembersText(ms)| + |end|, '}')
    ensures SkipMembers(d, p).value == p + |MembersText(ms)| + |end| + 1
    decreases |d| - p, 4
  {
    hide Print, MembersOk, MemberOk, KeyText, SkipMembers, SkipSpace, MembersText, At;
    if Sees(d, SkipSpace(d, p), '}') {
      end := Spaces(d, p);
      ms := [];
      NoMembersText(d, p);
      MembersDone(d, p);
    } else {
      var m, rest, tail := MemberParsed(d, p);
      ms, end := [m] + rest, tail;
      MembersCons(m, rest);
      MemberJoin(d, p, m, rest);
    }
  }

  lemma MemberJoin(d: Bytes, p: nat, m: Member, rest: seq<Member>)
    requires At(d, p, m.before) && At(d, p + |m.before|, KeyText(m))
    requires Slot(d, ValuePos(p, m), m.beforeValue, Print(m.value), m.after, m.comma)
    requires At(d, PastMember(p, m), MembersText(rest))
    ensures At(d, p, m.before + (KeyText(m)
      + (m.beforeValue + (Print(m.value) + (m.after + (Comma(m.comma) + MembersText(rest)))))))
  {
    hide At, Print, KeyText, MembersText, Comma;
    var slot := m.beforeValue + (Print(m.value) + (m.after + (Comma(m.comma) + MembersText(rest))));
    SlotJoin(d, ValuePos(p, m), m.beforeValue, Print(m.value), m.after, m.comma, MembersText(rest));
    AtJoin(d, p + |m.before|, KeyText(m), slot);
    AtJoin(d, p, m.before, KeyText(m) + slot);
  }

  lemma MemberGoesOn(d: Bytes, p: nat)
    requires p <= |d| && SkipMembers(d, p).Some? && !Sees(d, SkipSpace(d, p), '}')
    ensures ReadKey(d, SkipSpace(d, p)).Some?
    ensures SkipValue(d, ReadKey(d, SkipSpace(d, p)).value.next).Some?
  {
    hide SkipSpace, SkipValue, ReadKey;
  }

  lemma MemberStepAll(d: Bytes, p: nat, k: Token, v: nat)
    requires p <= |d| && !Sees(d, SkipSpace(d, p), '}') && ReadKey(d, SkipSpace(d, p)) == Some(k)
    requires SkipValue(d, k.next) == Some(v)
    ensures var t := SkipSpace(d, v);
      SkipMembers(d, p) ==
        if Sees(d, t, '}') then Some(t + 1) else if Sees(d, t, ',') then SkipMembers(d, t + 1) else None
  {
    hide SkipSpace, SkipValue, ReadKey;
  }

  lemma SpaceThenValue(d: Bytes, p: nat) returns (w: Bytes)
    requires p <= |d| && SkipValue(d, p).Some?
    ensures Ws(w) && At(d, p, w) && p + |w| <= |d|
    ensures SkipSpace(d, p + |w|) == p + |w| && SkipValue(d, p + |w|) == SkipValue(d, p)
  {
    w := Spaces(d, p);
    SkipFromSpace(d, p, w);
  }

  lemma {:induction false} MemberParsed(d: Bytes, p: nat) returns (m: Member, rest: seq<Member>, end: Bytes)
    requires p <= |d| && SkipMembers(d, p).Some? && !Sees(d, SkipSpace(d, p), '}')
    ensures MemberOk(m) && MembersOk(rest) && (m.comma || rest == []) && Ws(end)
    ensures At(d, p, m.before) && At(d, p + |m.before|, KeyText(m))
    ensures Slot(d, ValuePos(p, m), m.beforeValue, Print(m.value), m.after, m.comma)
    ensures At(d, PastMember(p, m), MembersText(rest)) && At(d, PastMember(p, m) + |MembersText(rest)|, end)
    ensures Sees(d, PastMember(p, m) + |MembersText(rest)| + |end|, '}')
    ensures SkipMembers(d, p).value == PastMember(p, m) + |MembersText(rest)| + |end| + 1
    decreases |d| - p, 3
  {
    hide SkipMembers, SkipValue, SkipSpace, Print, MembersOk, Ok, MembersText, StringText, ReadKey, UnitsOk, At, Ws;
    MemberGoesOn(d, p);
    var before := Spaces(d, p);
    var s := p + |before|;
    var k := ReadKey(d, s).value;
    var key, afterKey := KeyParsed(d, s);
    var v := SkipValue(d, k.next).value;
    MemberStepAll(d, p, k, v);
    var beforeValue := SpaceThenValue(d, k.next);
    var value := ValueFrom(d, k.next + |beforeValue|);
    var after := Spaces(d, v);
    var t := v + |after|;
    var comma := Sees(d, t, ',');
    CommaAt(d, t, comma);
    m := Member(before, key, afterKey, beforeValue, value, after, comma);
    NoMembersText(d, t);
    if comma {
      rest, end := MembersParsed(d, t + 1);
    } else {
      rest, end := [], "";
      NoSpace();
    }
  }

  lemma {:induction false} ObjectFrom(d: Bytes, s: nat) returns (v: Json)
    requires Sees(d, s, '{') && SkipMembers(d, s + 1).Some?
    ensures Ok(v) && At(d, s, Print(v)) && SkipMembers(d, s + 1).value == s + |Print(v)|
    decreases |d| - s, 1
  {
    hide SkipMembers, MembersText, MembersOk;
    var ms, end := MembersParsed(d, s + 1);
    v := Obj(ms, end);
    CloseJoin(d, s + 1, MembersText(ms), end, '}');
    assert Print(v)[1..] == MembersText(ms) + (end + "}");
  }

  // ---------------------------------------------------------------- the language skipped

  /** `d[p..q]` is white space and a JSON text. */
  ghost predicate Spells(d: Bytes, p: nat, q: nat) {
    exists w: Bytes, v: Json ::
      Ws(w) && Ok(v) && At(d, p, w) && At(d, p + |w|, Print(v)) && q == p + |w| + |Print(v)|
  }

  /** Up to a delimiter, the skipper accepts exactly JSON texts (with commas allowed before a closing
      bracket), and consumes all of the text and nothing else. */
  lemma {:induction false} SkipsExactlyJson(d: Bytes, p: nat, q: nat)
    requires p <= |d| && Delimited(d, q)
    ensures SkipValue(d, p) == Some(q) <==> Spells(d, p, q)
  {
    hide SkipValue, SkipSpace, Print, Ok, At, Delimited;
    if SkipValue(d, p) == Some(q) {
      var w := SpaceThenValue(d, p);
      var v := ValueFrom(d, p + |w|);
      assert Spells(d, p, q);
    }
    if Spells(d, p, q) {
      var w: Bytes, v: Json :|
        Ws(w) && Ok(v) && At(d, p, w) && At(d, p + |w|, Print(v)) && q == p + |w| + |Print(v)|;
      ValueRead(d, p + |w|, v);
      SkipFromSpace(d, p, w);
    }
  }
}
