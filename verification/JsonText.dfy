/** JSON texts of RFC 8259 with their white space, and the proof that the skipper consumes each of
    them exactly. A comma after the last element is allowed, as the skipper allows it. */
module JsonText {
  import opened Text
  import opened JsonScan

  /** One character of a string: itself, a two-character escape, or `\u` and four hex digits. */
  datatype Unit = Plain(c: char) | Esc(c: char) | Hex(h: Bytes)

  /** Section 6: optional minus, integer part, optional fraction, optional exponent. */
  datatype Number = Number(minus: bool, whole: Bytes, frac: Option<Bytes>, exp: Option<Exp>)

  datatype Exp = Exp(e: char, sign: Bytes, digits: Bytes)

  datatype Json =
    | Null | True | False
    | Num(n: Number)
    | Str(units: seq<Unit>)
    | Arr(items: seq<Item>, end: Bytes)
    | Obj(members: seq<Member>, end: Bytes)

  /** An element with the white space around it. */
  datatype Item = Item(before: Bytes, value: Json, after: Bytes, comma: bool)

  datatype Member = Member(
    before: Bytes, key: seq<Unit>, afterKey: Bytes, beforeValue: Bytes, value: Json, after: Bytes, comma: bool)

  /** Section 2: space, tab, line feed, carriage return. */
  predicate Ws(b: Bytes) { forall i | 0 <= i < |b| :: b[i] as int in {0x20, 0x09, 0x0A, 0x0D} }

  predicate DigitText(b: Bytes) { b != "" && forall i | 0 <= i < |b| :: 0x30 <= b[i] as int <= 0x39 }

  // ---------------------------------------------------------------- well-formed texts

  predicate UnitOk(u: Unit) {
    match u
    case Plain(c) => 0x20 <= c as int && c as int != 0x22 && c as int != 0x5C
    case Esc(c) => EscapeCode(c as int)
    case Hex(h) => |h| == 4 && forall i | 0 <= i < 4 :: HexCode(h[i] as int)
  }

  /** Section 7: what may follow a backslash, apart from `u`: quote, backslash, slash, b, f, n, r, t. */
  predicate EscapeCode(c: nat) { c in {0x22, 0x5C, 0x2F, 0x62, 0x66, 0x6E, 0x72, 0x74} }

  predicate HexCode(c: nat) { 0x30 <= c <= 0x39 || 0x41 <= c <= 0x46 || 0x61 <= c <= 0x66 }

  predicate UnitsOk(us: seq<Unit>) { forall i | 0 <= i < |us| :: UnitOk(us[i]) }

  predicate NumberOk(n: Number) {
    && DigitText(n.whole) && (n.whole == "0" || n.whole[0] != '0')
    && (n.frac.Some? ==> DigitText(n.frac.value))
    && (n.exp.Some? ==> ExpOk(n.exp.value))
  }

  predicate ExpOk(x: Exp) {
    (x.e == 'e' || x.e == 'E') && (x.sign == "" || x.sign == "+" || x.sign == "-") && DigitText(x.digits)
  }

  predicate Ok(v: Json) {
    match v
    case Num(n) => NumberOk(n)
    case Str(us) => UnitsOk(us)
    case Arr(items, end) => ItemsOk(items) && Ws(end)
    case Obj(members, end) => MembersOk(members) && Ws(end)
    case _ => true
  }

  predicate ItemsOk(items: seq<Item>) {
    forall i | 0 <= i < |items| ::
      Ws(items[i].before) && Ok(items[i].value) && Ws(items[i].after) && (items[i].comma || i == |items| - 1)
  }

  predicate MembersOk(ms: seq<Member>) {
    forall i | 0 <= i < |ms| :: MemberOk(ms[i]) && (ms[i].comma || i == |ms| - 1)
  }

  predicate MemberOk(m: Member) {
    Ws(m.before) && UnitsOk(m.key) && Ws(m.afterKey) && Ws(m.beforeValue) && Ok(m.value) && Ws(m.after)
  }

  // ---------------------------------------------------------------- printing

  function UnitText(u: Unit): Bytes {
    match u
    case Plain(c) => [c]
    case Esc(c) => ['\\', c]
    case Hex(h) => "\\u" + h
  }

  function UnitsText(us: seq<Unit>): Bytes { if us == [] then "" else UnitText(us[0]) + UnitsText(us[1..]) }

  function StringText(us: seq<Unit>): Bytes { "\"" + (UnitsText(us) + "\"") }

  function FracText(n: Number): Bytes { if n.frac.Some? then "." + n.frac.value else "" }

  function ExpText(n: Number): Bytes {
    if n.exp.Some? then [n.exp.value.e] + (n.exp.value.sign + n.exp.value.digits) else ""
  }

  function NumberText(n: Number): Bytes {
    (if n.minus then "-" else "") + (n.whole + (FracText(n) + ExpText(n)))
  }

  function Print(v: Json): Bytes {
    match v
    case Null => "null"
    case True => "true"
    case False => "false"
    case Num(n) => NumberText(n)
    case Str(us) => StringText(us)
    case Arr(items, end) => "[" + (ItemsText(items) + (end + "]"))
    case Obj(members, end) => "{" + (MembersText(members) + (end + "}"))
  }

  function Comma(comma: bool): Bytes { if comma then "," else "" }

  function ItemsText(items: seq<Item>): Bytes {
    if items == [] then "" else
      var x := items[0];
      x.before + (Print(x.value) + (x.after + (Comma(x.comma) + ItemsText(items[1..]))))
  }

  function KeyText(m: Member): Bytes { StringText(m.key) + (m.afterKey + ":") }

  function MembersText(ms: seq<Member>): Bytes {
    if ms == [] then "" else
      var m := ms[0];
      m.before + (KeyText(m) + (m.beforeValue + (Print(m.value) + (m.after + (Comma(m.comma) + MembersText(ms[1..]))))))
  }

  // ---------------------------------------------------------------- texts in place

  /** `t` stands in `d` at `p`. */
  predicate At(d: Bytes, p: nat, t: Bytes)
    decreases |t|
  {
    if t == "" then p <= |d| else p < |d| && d[p] == t[0] && At(d, p + 1, t[1..])
  }

  lemma {:induction false} AtSplit(d: Bytes, p: nat, a: Bytes, b: Bytes)
    requires At(d, p, a + b)
    ensures At(d, p, a) && At(d, p + |a|, b)
    decreases |a|
  {
    if a == "" {
      assert a + b == b;
      AtBound(d, p, b);
    } else {
      assert (a + b)[1..] == a[1..] + b;
      AtSplit(d, p + 1, a[1..], b);
    }
  }

  lemma {:induction false} AtBound(d: Bytes, p: nat, t: Bytes)
    requires At(d, p, t)
    ensures p + |t| <= |d|
    decreases |t|
  {
    if t != "" { AtBound(d, p + 1, t[1..]); }
  }

  lemma {:induction false} AtSlice(d: Bytes, p: nat, t: Bytes)
    requires At(d, p, t)
    ensures p + |t| <= |d| && d[p..p + |t|] == t
    decreases |t|
  {
    if t == "" {
      assert d[p..p] == "";
    } else {
      AtSlice(d, p + 1, t[1..]);
      assert d[p..p + |t|] == [d[p]] + d[p + 1..p + |t|];
    }
  }

  lemma {:induction false} SpaceThrough(d: Bytes, p: nat, w: Bytes)
    requires At(d, p, w) && Ws(w)
    ensures p + |w| <= |d| && SkipSpace(d, p) == SkipSpace(d, p + |w|)
    decreases |w|
  {
    if w != "" { SpaceThrough(d, p + 1, w[1..]); }
  }

  // ---------------------------------------------------------------- strings

  lemma UnitRead(d: Bytes, p: nat, u: Unit)
    requires UnitOk(u) && At(d, p, UnitText(u))
    ensures p < |d| && d[p] != '"' && UnitEnd(d, p) == Some(p + |UnitText(u)|)
  {
    AtSlice(d, p, UnitText(u));
    if u.Hex? {
      AtSplit(d, p, "\\u", u.h);
      AtSlice(d, p + 2, u.h);
      assert forall k | p + 2 <= k < p + 6 :: d[k] == u.h[k - p - 2];
    }
  }

  lemma {:induction false} BodyRead(d: Bytes, p: nat, us: seq<Unit>)
    requires UnitsOk(us) && At(d, p, UnitsText(us)) && Sees(d, p + |UnitsText(us)|, '"')
    ensures BodyEnd(d, p) == Some(p + |UnitsText(us)|)
    decreases |us|
  {
    if us != [] {
      AtSplit(d, p, UnitText(us[0]), UnitsText(us[1..]));
      UnitRead(d, p, us[0]);
      BodyRead(d, p + |UnitText(us[0])|, us[1..]);
    }
  }

  predicate Escaped(us: seq<Unit>) { exists i | 0 <= i < |us| :: !us[i].Plain? }

  lemma {:induction false} EscapedText(us: seq<Unit>)
    requires UnitsOk(us)
    ensures '\\' in UnitsText(us) <==> Escaped(us)
  {
    if us != [] {
      EscapedText(us[1..]);
      var t := UnitText(us[0]);
      assert '\\' in t <==> !us[0].Plain? by {
        if !us[0].Plain? { assert t[0] == '\\'; }
      }
      assert us == [us[0]] + us[1..];
    }
  }

  lemma StringRead(d: Bytes, p: nat, us: seq<Unit>)
    requires UnitsOk(us) && At(d, p, StringText(us))
    ensures ReadString(d, p) == Some(Token(UnitsText(us), Escaped(us), p + |StringText(us)|))
  {
    var body := UnitsText(us);
    assert StringText(us)[1..] == body + "\"";
    AtSplit(d, p + 1, body, "\"");
    BodyRead(d, p + 1, us);
    AtSlice(d, p + 1, body);
    EscapedText(us);
  }

  // ---------------------------------------------------------------- numbers

  /** What may follow a number so that the scan stops there. */
  predicate Delimited(d: Bytes, q: nat) {
    q == |d| || (q < |d| && (IsWs(d[q]) || d[q] == ',' || d[q] == ']' || d[q] == '}'))
  }

  predicate NotDigit(d: Bytes, q: nat) { q == |d| || (q < |d| && !IsDigit(d[q])) }

  lemma {:induction false} DigitsRead(d: Bytes, p: nat, t: Bytes)
    requires At(d, p, t) && NotDigit(d, p + |t|) && forall i | 0 <= i < |t| :: IsDigit(t[i])
    ensures p <= |d| && DigitsEnd(d, p) == p + |t|
    decreases |t|
  {
    if t != "" { DigitsRead(d, p + 1, t[1..]); }
  }

  lemma FractionRead(d: Bytes, p: nat, n: Number)
    requires NumberOk(n) && At(d, p, FracText(n)) && NotDigit(d, p + |FracText(n)|)
    requires n.frac.None? ==> !Sees(d, p, '.')
    ensures p <= |d| && Fraction(d, p) == Some(p + |FracText(n)|)
  {
    if n.frac.Some? {
      assert FracText(n)[1..] == n.frac.value;
      DigitsRead(d, p + 1, n.frac.value);
    }
  }

  lemma ExponentRead(d: Bytes, p: nat, n: Number)
    requires NumberOk(n) && At(d, p, ExpText(n)) && Delimited(d, p + |ExpText(n)|)
    ensures p <= |d| && Exponent(d, p) == Some(p + |ExpText(n)|)
  {
    if n.exp.Some? {
      var x := n.exp.value;
      assert ExpText(n)[1..] == x.sign + x.digits;
      AtSplit(d, p + 1, x.sign, x.digits);
      DigitsRead(d, p + 1 + |x.sign|, x.digits);
    }
  }

  lemma IntegerRead(d: Bytes, p: nat, n: Number)
    requires NumberOk(n) && At(d, p, n.whole) && NotDigit(d, p + |n.whole|)
    ensures p <= |d| && Integer(d, p) == Some(p + |n.whole|)
  {
    DigitsRead(d, p, n.whole);
  }

  lemma AfterWhole(d: Bytes, p: nat, n: Number)
    requires NumberOk(n) && At(d, p, FracText(n)) && At(d, p + |FracText(n)|, ExpText(n))
    requires Delimited(d, p + |FracText(n)| + |ExpText(n)|)
    ensures NotDigit(d, p) && NotDigit(d, p + |FracText(n)|) && (n.frac.None? ==> !Sees(d, p, '.'))
  {}

  /** The four parts of a number stand one after the other. */
  lemma NumberParts(d: Bytes, p: nat, n: Number) returns (i: nat, f: nat, x: nat)
    requires At(d, p, NumberText(n))
    ensures i == p + (if n.minus then 1 else 0) && f == i + |n.whole| && x == f + |FracText(n)|
    ensures n.minus ==> Sees(d, p, '-')
    ensures At(d, i, n.whole) && At(d, f, FracText(n)) && At(d, x, ExpText(n))
    ensures x + |ExpText(n)| == p + |NumberText(n)|
  {
    hide At, FracText, ExpText;
    var sign := if n.minus then "-" else "";
    AtSplit(d, p, sign, n.whole + (FracText(n) + ExpText(n)));
    i := p + |sign|;
    AtSplit(d, i, n.whole, FracText(n) + ExpText(n));
    f := i + |n.whole|;
    AtSplit(d, f, FracText(n), ExpText(n));
    x := f + |FracText(n)|;
    if n.minus { assert Sees(d, p, '-') by { OneByteAt(d, p, '-'); } }
  }

  lemma OneByteAt(d: Bytes, p: nat, c: char)
    requires At(d, p, [c])
    ensures Sees(d, p, c)
  {}

  lemma NumberFromParts(d: Bytes, p: nat, n: Number, i: nat, f: nat, x: nat)
    requires NumberOk(n) && i == p + (if n.minus then 1 else 0) && f == i + |n.whole| && x == f + |FracText(n)|
    requires n.minus ==> Sees(d, p, '-')
    requires At(d, i, n.whole) && At(d, f, FracText(n)) && At(d, x, ExpText(n))
    requires Delimited(d, x + |ExpText(n)|)
    ensures p <= |d| && SkipNumber(d, p) == Some(x + |ExpText(n)|)
  {
    hide Integer, Fraction, Exponent, FracText, ExpText, Delimited;
    AfterWhole(d, f, n);
    IntegerRead(d, i, n);
    FractionRead(d, f, n);
    ExponentRead(d, x, n);
  }

  lemma NumberRead(d: Bytes, p: nat, n: Number)
    requires NumberOk(n) && At(d, p, NumberText(n)) && Delimited(d, p + |NumberText(n)|)
    ensures p <= |d| && SkipNumber(d, p) == Some(p + |NumberText(n)|)
  {
    hide At, FracText, ExpText, NumberText, NumberOk, Delimited, SkipNumber;
    var i, f, x := NumberParts(d, p, n);
    NumberFromParts(d, p, n, i, f, x);
  }

  // ---------------------------------------------------------------- values

  /** First byte of a printed value. */
  lemma FirstByte(v: Json)
    requires Ok(v)
    ensures Print(v) != ""
    ensures var c := Print(v)[0];
      match v
      case Null => c == 'n'
      case True => c == 't'
      case False => c == 'f'
      case Num(_) => c == '-' || IsDigit(c)
      case Str(_) => c == '"'
      case Arr(_, _) => c == '['
      case Obj(_, _) => c == '{'
  {
    if v.Num? {
      var t := v.n.whole + (FracText(v.n) + ExpText(v.n));
      assert t[0] == v.n.whole[0];
    }
  }

  lemma LiteralRead(d: Bytes, p: nat, t: Bytes)
    requires At(d, p, t)
    ensures p <= |d| && Literal(d, p, t) == Some(p + |t|)
  {
    AtSlice(d, p, t);
  }

  /** A value starts with no white space and no closing bracket. */
  lemma ValueStart(d: Bytes, p: nat, v: Json)
    requires Ok(v) && At(d, p, Print(v))
    ensures p < |d| && d[p] == Print(v)[0] && !IsWs(d[p]) && d[p] != ']' && d[p] != '}' && SkipSpace(d, p) == p
  {
    FirstByte(v);
  }

  /** A value text with the white space around it, and a comma or not. */
  predicate Slot(d: Bytes, p: nat, before: Bytes, t: Bytes, after: Bytes, comma: bool) {
    && At(d, p, before) && At(d, p + |before|, t) && At(d, p + |before| + |t|, after)
    && At(d, p + |before| + |t| + |after|, Comma(comma))
  }

  lemma SlotSplit(d: Bytes, p: nat, before: Bytes, t: Bytes, after: Bytes, comma: bool, rest: Bytes)
    requires At(d, p, before + (t + (after + (Comma(comma) + rest))))
    ensures Slot(d, p, before, t, after, comma)
    ensures At(d, p + |before| + |t| + |after| + |Comma(comma)|, rest)
  {
    var t3 := Comma(comma) + rest;
    var t2 := after + t3;
    AtSplit(d, p, before, t + t2);
    AtSplit(d, p + |before|, t, t2);
    AtSplit(d, p + |before| + |t|, after, t3);
    AtSplit(d, p + |before| + |t| + |after|, Comma(comma), rest);
  }

  /** After a value come white space, a comma, or the end of its container. */
  lemma ValueDelimited(d: Bytes, e: nat, after: Bytes, comma: bool, end: Bytes, close: char)
    requires Ws(after) && Ws(end) && (close == ']' || close == '}')
    requires At(d, e, after) && At(d, e + |after|, Comma(comma))
    requires !comma ==> At(d, e + |after|, end) && Sees(d, e + |after| + |end|, close)
    ensures Delimited(d, e)
  {}

  lemma ClosingRead(d: Bytes, p: nat, end: Bytes, close: char)
    requires Ws(end) && !IsWs(close) && At(d, p, end) && Sees(d, p + |end|, close)
    ensures p <= |d| && SkipSpace(d, p) == p + |end|
  {
    SpaceThrough(d, p, end);
  }

  /** White space, then a comma or the closing bracket. */
  lemma AfterValue(d: Bytes, e: nat, after: Bytes, comma: bool, end: Bytes, close: char)
    requires Ws(after) && Ws(end) && (close == ']' || close == '}')
    requires At(d, e, after) && At(d, e + |after|, Comma(comma))
    requires !comma ==> At(d, e + |after|, end) && Sees(d, e + |after| + |end|, close)
    ensures e <= |d| && SkipSpace(d, e) == e + |after| + (if comma then 0 else |end|)
    ensures Sees(d, SkipSpace(d, e), if comma then ',' else close)
  {
    SpaceThrough(d, e, after);
    if !comma { ClosingRead(d, e + |after|, end, close); }
  }

  predicate StartsValue(t: Bytes) { t != "" && !IsWs(t[0]) && t[0] != ']' && t[0] != '}' }

  /** One round of the array loop over an element whose value is skipped exactly. */
  lemma ElementRound(d: Bytes, p: nat, before: Bytes, t: Bytes, after: Bytes, comma: bool, end: Bytes)
    requires Ws(before) && Ws(after) && Ws(end) && StartsValue(t) && Slot(d, p, before, t, after, comma)
    requires var e := p + |before| + |t|;
      && p + |before| <= |d| && SkipValue(d, p + |before|) == Some(e)
      && (!comma ==> At(d, e + |after|, end) && Sees(d, e + |after| + |end|, ']'))
    ensures var c := p + |before| + |t| + |after|;
      && p <= |d| && (comma ==> c < |d| && SkipElements(d, p) == SkipElements(d, c + 1))
      && (!comma ==> SkipElements(d, p) == Some(c + |end| + 1))
  {
    hide SkipValue;
    SpaceThrough(d, p, before);
    AfterValue(d, p + |before| + |t|, after, comma, end, ']');
  }

  /** The position after the first item of a list. */
  function PastItem(p: nat, x: Item): nat {
    p + |x.before| + |Print(x.value)| + |x.after| + |Comma(x.comma)|
  }

  lemma ItemSlot(d: Bytes, p: nat, items: seq<Item>)
    requires items != [] && At(d, p, ItemsText(items))
    ensures var x := items[0];
      && Slot(d, p, x.before, Print(x.value), x.after, x.comma)
      && At(d, PastItem(p, x), ItemsText(items[1..]))
      && PastItem(p, x) + |ItemsText(items[1..])| == p + |ItemsText(items)|
  {
    hide Print, At, Ok;
    var x := items[0];
    SlotSplit(d, p, x.before, Print(x.value), x.after, x.comma, ItemsText(items[1..]));
  }

  lemma ValueStarts(v: Json)
    requires Ok(v)
    ensures StartsValue(Print(v))
  {
    FirstByte(v);
  }

  lemma ItemsTail(items: seq<Item>)
    requires ItemsOk(items) && items != []
    ensures var x := items[0];
      && Ws(x.before) && Ok(x.value) && Ws(x.after) && ItemsOk(items[1..])
      && (!x.comma ==> items[1..] == [] && ItemsText(items[1..]) == "")
  {
    forall i | 0 <= i < |items[1..]|
      ensures var y := items[1..][i];
        Ws(y.before) && Ok(y.value) && Ws(y.after) && (y.comma || i == |items[1..]| - 1)
    {
      assert items[1..][i] == items[i + 1];
    }
  }

  lemma NoElements(d: Bytes, p: nat, end: Bytes)
    requires Ws(end) && At(d, p, end) && Sees(d, p + |end|, ']')
    ensures p <= |d| && SkipElements(d, p) == Some(p + |ItemsText([])| + |end| + 1)
  {
    ClosingRead(d, p, end, ']');
  }

  lemma {:induction false} ElementsRead(d: Bytes, p: nat, items: seq<Item>, end: Bytes)
    requires ItemsOk(items) && Ws(end) && At(d, p, ItemsText(items))
    requires At(d, p + |ItemsText(items)|, end) && Sees(d, p + |ItemsText(items)| + |end|, ']')
    ensures p <= |d| && SkipElements(d, p) == Some(p + |ItemsText(items)| + |end| + 1)
    decreases items, 0
  {
    hide SkipElements, SkipValue, SkipSpace, Print, At, Ok;
    if items == [] {
      NoElements(d, p, end);
    } else {
      var x := items[0];
      ItemSlot(d, p, items);
      ItemsTail(items);
      ItemValueRead(d, p, x, end, ']');
      ValueStarts(x.value);
      ElementRound(d, p, x.before, Print(x.value), x.after, x.comma, end);
      if x.comma { ElementsRead(d, PastItem(p, x), items[1..], end); }
    }
  }

  lemma {:induction false} ItemValueRead(d: Bytes, p: nat, x: Item, end: Bytes, close: char)
    requires Ws(end) && Ok(x.value) && Ws(x.after) && (close == ']' || close == '}')
    requires Slot(d, p, x.before, Print(x.value), x.after, x.comma)
    requires !x.comma ==> At(d, PastItem(p, x), end) && Sees(d, PastItem(p, x) + |end|, close)
    ensures var v := p + |x.before|;
      v <= |d| && SkipValue(d, v) == Some(v + |Print(x.value)|)
    decreases x, 0
  {
    hide SkipValue, SkipSpace, Print, At, Ok;
    var v := p + |x.before|;
    ValueDelimited(d, v + |Print(x.value)|, x.after, x.comma, end, close);
    ValueRead(d, v, x.value);
  }

  // ---------------------------------------------------------------- objects

  lemma KeyRead(d: Bytes, p: nat, m: Member)
    requires MemberOk(m) && At(d, p, KeyText(m))
    ensures p < |d| && d[p] == '"' && SkipSpace(d, p) == p
    ensures ReadKey(d, p) == Some(Token(UnitsText(m.key), Escaped(m.key), p + |KeyText(m)|))
  {
    hide At, StringText, UnitsText, Ok, Escaped, BodyEnd;
    AtSplit(d, p, StringText(m.key), m.afterKey + ":");
    StringRead(d, p, m.key);
    ColonRead(d, p + |StringText(m.key)|, m.afterKey);
  }

  lemma ColonRead(d: Bytes, q: nat, w: Bytes)
    requires Ws(w) && At(d, q, w + ":")
    ensures q <= |d| && SkipSpace(d, q) == q + |w| && Sees(d, q + |w|, ':')
  {
    AtSplit(d, q, w, ":");
    SpaceThrough(d, q, w);
  }

  /** The value part of a member seen as an item. */
  function ValueItem(m: Member): Item { Item(m.beforeValue, m.value, m.after, m.comma) }

  function ValuePos(p: nat, m: Member): nat { p + |m.before| + |KeyText(m)| }

  function PastMember(p: nat, m: Member): nat { PastItem(ValuePos(p, m), ValueItem(m)) }

  lemma MemberSlot(d: Bytes, p: nat, ms: seq<Member>)
    requires ms != [] && At(d, p, MembersText(ms))
    ensures var m := ms[0];
      && At(d, p, m.before) && At(d, p + |m.before|, KeyText(m))
      && Slot(d, ValuePos(p, m), m.beforeValue, Print(m.value), m.after, m.comma)
      && At(d, PastMember(p, m), MembersText(ms[1..]))
      && PastMember(p, m) + |MembersText(ms[1..])| == p + |MembersText(ms)|
  {
    hide Print, KeyText, At, MembersOk, Ok;
    var m, rest := ms[0], MembersText(ms[1..]);
    var slot := m.beforeValue + (Print(m.value) + (m.after + (Comma(m.comma) + rest)));
    AtSplit(d, p, m.before, KeyText(m) + slot);
    AtSplit(d, p + |m.before|, KeyText(m), slot);
    SlotSplit(d, ValuePos(p, m), m.beforeValue, Print(m.value), m.after, m.comma, rest);
  }

  /** The start of a round of an object loop: the key is read from the white space before it. */
  lemma RoundKey(d: Bytes, p: nat, m: Member)
    requires MemberOk(m) && At(d, p, m.before) && At(d, p + |m.before|, KeyText(m))
    ensures p <= |d| && SkipSpace(d, p) == p + |m.before| && !Sees(d, p + |m.before|, '}')
    ensures ReadKey(d, p + |m.before|) == Some(Token(UnitsText(m.key), Escaped(m.key), ValuePos(p, m)))
  {
    hide ReadKey, SkipSpace, KeyText, At, UnitsText, Escaped, Ok;
    SpaceThrough(d, p, m.before);
    KeyRead(d, p + |m.before|, m);
  }

  /** The end of a round of an object loop. */
  lemma RoundEnd(d: Bytes, p: nat, m: Member, end: Bytes)
    requires MemberOk(m) && Ws(end) && Slot(d, ValuePos(p, m), m.beforeValue, Print(m.value), m.after, m.comma)
    requires !m.comma ==> At(d, PastMember(p, m), end) && Sees(d, PastMember(p, m) + |end|, '}')
    ensures var e := ValuePos(p, m) + |m.beforeValue| + |Print(m.value)|;
      && e <= |d|
      && SkipSpace(d, e) == (if m.comma then PastMember(p, m) - 1 else PastMember(p, m) + |end|)
      && Sees(d, SkipSpace(d, e), if m.comma then ',' else '}')
  {
    hide SkipSpace, KeyText, At, Print, Ok;
    AfterValue(d, ValuePos(p, m) + |m.beforeValue| + |Print(m.value)|, m.after, m.comma, end, '}');
  }

  lemma {:induction false} MemberValueRead(d: Bytes, p: nat, m: Member, end: Bytes)
    requires MemberOk(m) && Ws(end) && Slot(d, ValuePos(p, m), m.beforeValue, Print(m.value), m.after, m.comma)
    requires !m.comma ==> At(d, PastMember(p, m), end) && Sees(d, PastMember(p, m) + |end|, '}')
    ensures var b := ValuePos(p, m);
      b <= |d| && SkipValue(d, b) == Some(b + |m.beforeValue| + |Print(m.value)|)
    decreases m, 0
  {
    hide SkipValue, SkipSpace, Print, KeyText, At, Ok;
    var b := ValuePos(p, m);
    SpaceThrough(d, b, m.beforeValue);
    ValueDelimited(d, b + |m.beforeValue| + |Print(m.value)|, m.after, m.comma, end, '}');
    ValueRead(d, b + |m.beforeValue|, m.value);
    SkipFromSpace(d, b, m.beforeValue);
  }

  /** A value may be skipped from any white space before it. */
  lemma SkipFromSpace(d: Bytes, p: nat, w: Bytes)
    requires At(d, p, w) && Ws(w)
    ensures p + |w| <= |d| && SkipValue(d, p) == SkipValue(d, p + |w|)
  {
    SpaceThrough(d, p, w);
  }

  lemma MembersTail(ms: seq<Member>)
    requires MembersOk(ms) && ms != []
    ensures MemberOk(ms[0]) && MembersOk(ms[1..])
    ensures !ms[0].comma ==> ms[1..] == [] && MembersText(ms[1..]) == ""
  {
    forall i | 0 <= i < |ms[1..]| ensures MemberOk(ms[1..][i]) && (ms[1..][i].comma || i == |ms[1..]| - 1) {
      assert ms[1..][i] == ms[i + 1];
    }
  }

  lemma MemberStep(d: Bytes, p: nat, s: nat, k: Token, v: nat, t: nat)
    requires p <= |d| && s == SkipSpace(d, p) && !Sees(d, s, '}')
    requires ReadKey(d, s) == Some(k) && SkipValue(d, k.next) == Some(v) && t == SkipSpace(d, v)
    ensures Sees(d, t, '}') ==> SkipMembers(d, p) == Some(t + 1)
    ensures Sees(d, t, ',') ==> SkipMembers(d, p) == SkipMembers(d, t + 1)
  {
    hide SkipValue, ReadKey, SkipSpace;
  }

  lemma {:induction false} FirstMember(d: Bytes, p: nat, m: Member, end: Bytes)
    requires MemberOk(m) && Ws(end) && At(d, p, m.before) && At(d, p + |m.before|, KeyText(m))
    requires Slot(d, ValuePos(p, m), m.beforeValue, Print(m.value), m.after, m.comma)
    requires !m.comma ==> At(d, PastMember(p, m), end) && Sees(d, PastMember(p, m) + |end|, '}')
    requires ValuePos(p, m) <= |d|
    requires SkipValue(d, ValuePos(p, m)) == Some(ValuePos(p, m) + |m.beforeValue| + |Print(m.value)|)
    ensures p <= |d|
    ensures if m.comma
      then PastMember(p, m) <= |d| && SkipMembers(d, p) == SkipMembers(d, PastMember(p, m))
      else SkipMembers(d, p) == Some(PastMember(p, m) + |end| + 1)
  {
    hide SkipMembers, SkipValue, ReadKey, SkipSpace, Print, KeyText, At;
    RoundKey(d, p, m);
    RoundEnd(d, p, m, end);
    var b := ValuePos(p, m);
    var e := b + |m.beforeValue| + |Print(m.value)|;
    MemberStep(d, p, p + |m.before|, Token(UnitsText(m.key), Escaped(m.key), b), e, SkipSpace(d, e));
  }

  lemma NoMembers(d: Bytes, p: nat, end: Bytes)
    requires Ws(end) && At(d, p, end) && Sees(d, p + |end|, '}')
    ensures p <= |d| && SkipMembers(d, p) == Some(p + |MembersText([])| + |end| + 1)
  {
    ClosingRead(d, p, end, '}');
  }

  lemma {:induction false} MembersRead(d: Bytes, p: nat, ms: seq<Member>, end: Bytes)
    requires MembersOk(ms) && Ws(end) && At(d, p, MembersText(ms))
    requires At(d, p + |MembersText(ms)|, end) && Sees(d, p + |MembersText(ms)| + |end|, '}')
    ensures p <= |d| && SkipMembers(d, p) == Some(p + |MembersText(ms)| + |end| + 1)
    decreases ms, 0
  {
    hide SkipMembers, SkipValue, SkipSpace, Print, KeyText, At, Ok, MemberOk;
    if ms == [] {
      NoMembers(d, p, end);
    } else {
      var m := ms[0];
      MemberSlot(d, p, ms);
      MembersTail(ms);
      MemberValueRead(d, p, m, end);
      FirstMember(d, p, m, end);
      if m.comma { MembersRead(d, PastMember(p, m), ms[1..], end); }
    }
  }

  // ---------------------------------------------------------------- all values

  lemma {:induction false} ArrayRead(d: Bytes, p: nat, items: seq<Item>, end: Bytes)
    requires ItemsOk(items) && Ws(end) && At(d, p, Print(Arr(items, end)))
    ensures p < |d| && d[p] == '[' && SkipElements(d, p + 1) == Some(p + |Print(Arr(items, end))|)
    decreases items, 1
  {
    hide SkipElements, ItemsOk, ItemsText;
    var t := ItemsText(items);
    assert Print(Arr(items, end))[1..] == t + (end + "]");
    AtSplit(d, p + 1, t, end + "]");
    AtSplit(d, p + 1 + |t|, end, "]");
    ElementsRead(d, p + 1, items, end);
  }

  lemma {:induction false} ObjectRead(d: Bytes, p: nat, ms: seq<Member>, end: Bytes)
    requires MembersOk(ms) && Ws(end) && At(d, p, Print(Obj(ms, end)))
    ensures p < |d| && d[p] == '{' && SkipMembers(d, p + 1) == Some(p + |Print(Obj(ms, end))|)
    decreases ms, 1
  {
    hide At, SkipMembers, Print, MembersText, MembersOk;
    ObjectParts(d, p, ms, end);
    MembersRead(d, p + 1, ms, end);
  }

  lemma ObjectParts(d: Bytes, p: nat, ms: seq<Member>, end: Bytes)
    requires At(d, p, Print(Obj(ms, end)))
    ensures Sees(d, p, '{') && At(d, p + 1, MembersText(ms)) && At(d, p + 1 + |MembersText(ms)|, end)
    ensures Sees(d, p + 1 + |MembersText(ms)| + |end|, '}')
    ensures |Print(Obj(ms, end))| == |MembersText(ms)| + |end| + 2
  {
    var t := MembersText(ms);
    assert Print(Obj(ms, end))[1..] == t + (end + "}");
    AtSplit(d, p + 1, t, end + "}");
    AtSplit(d, p + 1 + |t|, end, "}");
  }

  /** Every JSON text is consumed exactly, whatever follows it, provided a number is followed by a
      delimiter. */
  lemma {:induction false} ValueRead(d: Bytes, p: nat, v: Json)
    requires Ok(v) && At(d, p, Print(v)) && Delimited(d, p + |Print(v)|)
    ensures p <= |d| && SkipValue(d, p) == Some(p + |Print(v)|)
    decreases v, 0
  {
    hide SkipElements, SkipMembers, SkipNumber, ReadString, Literal, At, StringText, NumberText,
      ItemsText, MembersText, ItemsOk, MembersOk;
    ValueStart(d, p, v);
    FirstByte(v);
    match v {
      case Null => LiteralRead(d, p, "null");
      case True => LiteralRead(d, p, "true");
      case False => LiteralRead(d, p, "false");
      case Num(n) => NumberRead(d, p, n);
      case Str(us) => StringRead(d, p, us);
      case Arr(items, end) => ArrayRead(d, p, items, end);
      case Obj(members, end) => ObjectRead(d, p, members, end);
    }
  }
}
