/** Integer literals: `parseIntegerLiteral` with its 64-bit arithmetic made explicit
    (pkg/toml/value.go), and the decimal form `strconv.AppendInt` prints. */
module TomlInteger {
  import opened Text
  import Decimal

  const TWO63: int := 0x8000_0000_0000_0000
  const TWO64: int := 0x1_0000_0000_0000_0000

  /** uint64 and int64 conversions of the source, wrap-around included. */
  function ToUint64(n: nat): nat { n % TWO64 }

  function ToInt64(u: nat): int
    requires u < TWO64
  {
    if u < TWO63 then u else u - TWO64
  }

  predicate IsInt64(n: int) { -TWO63 <= n < TWO63 }

  datatype Result = Ok(value: int) | SyntaxError | RangeError

  function NumericDigit(c: char): (v: Option<nat>)
    ensures v.Some? ==> v.value < 16
  {
    if IsDigit(c) then Some(c as int - '0' as int)
    else if 'a' <= c <= 'f' then Some(c as int - 'a' as int + 10)
    else if 'A' <= c <= 'F' then Some(c as int - 'A' as int + 10)
    else None
  }

  predicate DigitIn(c: char, base: nat) {
    NumericDigit(c).Some? && NumericDigit(c).value < base
  }

  /** Digits of `base`, underscores anywhere. */
  predicate DigitText(raw: Bytes, base: nat) {
    forall i | 0 <= i < |raw| :: raw[i] == '_' || DigitIn(raw[i], base)
  }

  predicate HasDigit(raw: Bytes) {
    exists i | 0 <= i < |raw| :: raw[i] != '_'
  }

  /** The mathematical value of a digit text, unbounded. */
  function Value(raw: Bytes, base: nat): (v: int)
    requires DigitText(raw, base)
    ensures v >= 0
  {
    if raw == [] then 0 else Shift(Value(raw[..|raw| - 1], base), raw[|raw| - 1], base)
  }

  function Shift(v: int, c: char, base: nat): (w: int)
    requires c == '_' || DigitIn(c, base)
    requires v >= 0
    ensures base > 0 ==> w >= v
    ensures w >= 0
  {
    if c == '_' then v else Product(base, v) + NumericDigit(c).value
  }

  function Product(base: nat, v: int): (w: int)
    requires v >= 0
    ensures w >= 0
    ensures base > 0 ==> w >= v
  {
    base * v
  }

  lemma {:induction false} ValueMonotone(raw: Bytes, base: nat, i: nat)
    requires DigitText(raw, base) && base > 0 && i <= |raw|
    ensures Value(raw[..i], base) <= Value(raw, base)
    decreases |raw| - i
  {
    if i < |raw| {
      ValueMonotone(raw[..|raw| - 1], base, i);
      assert raw[..|raw| - 1][..i] == raw[..i];
    } else {
      assert raw[..i] == raw;
    }
  }

  lemma ProductMonotone(base: nat, v: int, w: int)
    requires 0 <= v <= w
    ensures Product(base, v) <= Product(base, w)
    ensures Product(base, v + 1) == Product(base, v) + base
  {
    assert base * w == base * v + base * (w - v);
    assert base * (w - v) >= 0;
  }

  lemma DivisionBounds(m: nat, base: nat)
    requires 0 < base
    ensures 0 <= m / base && Product(base, m / base) <= m < Product(base, m / base) + base
  {
    assert m == base * (m / base) + m % base;
  }

  /** Comparing with the quotient is comparing the product. */
  lemma {:induction false} DivisionGuard(u: int, m: nat, base: nat)
    requires 0 < base && 0 <= u
    ensures u > m / base <==> Product(base, u) > m
  {
    hide Product;
    var q := m / base;
    DivisionBounds(m, base);
    if u > q {
      ProductMonotone(base, q, q);
      ProductMonotone(base, q + 1, u);
    } else {
      ProductMonotone(base, u, q);
    }
  }

  /** The source's division guard is exactly the overflow test, and past it nothing wraps. */
  lemma {:induction false} GuardedStep(u: int, d: nat, base: nat, limit: int)
    requires 0 < base && d <= limit < TWO64 && 0 <= u
    ensures u > ToUint64(limit - d) / base <==> Product(base, u) + d > limit
    ensures Product(base, u) + d <= limit ==> ToUint64(ToUint64(Product(base, u)) + d) == Product(base, u) + d
  {
    hide Product;
    assert ToUint64(limit - d) == limit - d;
    DivisionGuard(u, limit - d, base);
  }

  lemma NoText(base: nat)
    ensures DigitText([], base) && Value([], base) == 0 && !HasDigit([])
  {}

  lemma TextLast(raw: Bytes, base: nat)
    requires raw != [] && DigitText(raw[..|raw| - 1], base)
    ensures var c := raw[|raw| - 1];
      && (DigitText(raw, base) <==> c == '_' || DigitIn(c, base))
      && (HasDigit(raw) <==> HasDigit(raw[..|raw| - 1]) || c != '_')
      && (DigitText(raw, base) ==> Value(raw, base) == Shift(Value(raw[..|raw| - 1], base), c, base))
  {
    hide Shift, NumericDigit;
    var rest, c := raw[..|raw| - 1], raw[|raw| - 1];
    assert raw == rest + [c];
    if HasDigit(rest) {
      var i :| 0 <= i < |rest| && rest[i] != '_';
      assert raw[i] != '_';
    }
  }

  lemma BadDigit(raw: Bytes, base: nat, i: nat)
    requires i < |raw| && raw[i] != '_' && !DigitIn(raw[i], base)
    ensures !DigitText(raw, base)
  {}

  /** `parseUintLiteralDigits`: the guard before each step keeps the uint64 accumulator exact. */
  method ParseUintDigits(raw: Bytes, base: nat, limit: int) returns (r: Result)
    requires 2 <= base <= 16 <= limit < TWO64
    ensures r.Ok? <==> DigitText(raw, base) && HasDigit(raw) && Value(raw, base) <= limit
    ensures r.Ok? ==> r.value == Value(raw, base)
    ensures DigitText(raw, base) && HasDigit(raw) && Value(raw, base) > limit ==> r.RangeError?
    ensures r.RangeError? ==> exists i | 0 <= i <= |raw| :: DigitText(raw[..i], base) && Value(raw[..i], base) > limit
  {
    if |raw| == 0 { return SyntaxError; }
    hide Value, DigitText, HasDigit, ToUint64, NumericDigit;
    var u := 0;
    var sawDigit := false;
    NoText(base);
    assert raw[..0] == [];
    for i := 0 to |raw|
      invariant DigitText(raw[..i], base)
      invariant u == Value(raw[..i], base) <= limit
      invariant sawDigit <==> HasDigit(raw[..i])
    {
      ghost var next := raw[..i + 1];
      assert next[..i] == raw[..i] && next[i] == raw[i];
      TextLast(next, base);
      if raw[i] == '_' { continue; }
      var digit := NumericDigit(raw[i]);
      if digit.None? || digit.value >= base { BadDigit(raw, base, i); return SyntaxError; }
      sawDigit := true;
      GuardedStep(u, digit.value, base, limit);
      if u > ToUint64(limit - digit.value) / base {
        if DigitText(raw, base) { ValueMonotone(raw, base, i + 1); }
        return RangeError;
      }
      u := ToUint64(ToUint64(Product(base, u)) + digit.value);
    }
    assert raw[..|raw|] == raw;
    if !sawDigit { return SyntaxError; }
    return Ok(u);
  }

  /** Sign, base and digits of a literal, split as the source splits them. */
  datatype Literal = Literal(negative: bool, base: nat, digits: Bytes)

  function SplitBase(negative: bool, text: Bytes): (l: Literal)
    ensures l.base in {2, 8, 10, 16}
  {
    if |text| > 2 && text[0] == '0' then
      match text[1]
      case 'b' => Literal(negative, 2, text[2..])
      case 'B' => Literal(negative, 2, text[2..])
      case 'o' => Literal(negative, 8, text[2..])
      case 'O' => Literal(negative, 8, text[2..])
      case 'x' => Literal(negative, 16, text[2..])
      case 'X' => Literal(negative, 16, text[2..])
      case _ => Literal(negative, 10, text)
    else Literal(negative, 10, text)
  }

  function Split(raw: Bytes): (l: Literal)
    ensures l.base in {2, 8, 10, 16}
  {
    var negative := raw != [] && raw[0] == '-';
    SplitBase(negative, if raw != [] && (raw[0] == '+' || raw[0] == '-') then raw[1..] else raw)
  }

  predicate WellFormed(raw: Bytes) {
    DigitText(Split(raw).digits, Split(raw).base) && HasDigit(Split(raw).digits)
  }

  /** The integer a well-formed literal denotes, of any magnitude. */
  function Denotes(raw: Bytes): int
    requires WellFormed(raw)
  {
    var l := Split(raw);
    if l.negative then -Value(l.digits, l.base) else Value(l.digits, l.base)
  }

  /** `parseIntegerLiteral` returns the exact value or an error; it never wraps. */
  method ParseInteger(raw: Bytes) returns (r: Result)
    ensures r.Ok? <==> WellFormed(raw) && IsInt64(Denotes(raw))
    ensures r.Ok? ==> r.value == Denotes(raw)
    ensures WellFormed(raw) && !IsInt64(Denotes(raw)) ==> r.RangeError?
  {
    var l := Split(raw);
    var limit := if l.negative then TWO63 else TWO63 - 1;
    var u := ParseUintDigits(l.digits, l.base, limit);
    if !u.Ok? { return u; }
    if l.negative {
      if u.value == TWO63 { return Ok(-TWO63); }
      return Ok(-ToInt64(u.value));
    }
    return Ok(ToInt64(u.value));
  }

  // ---------------------------------------------------------------- literals by a grammar of their own

  datatype Piece = Underscore | Digit(value: nat, capital: bool)

  predicate InBase(ps: seq<Piece>, base: nat) {
    forall i | 0 <= i < |ps| :: ps[i].Digit? ==> ps[i].value < base && ps[i].value < 16
  }

  function PieceChar(p: Piece): char
    requires p.Digit? ==> p.value < 16
  {
    match p
    case Underscore => '_'
    case Digit(v, capital) => (if capital then "0123456789ABCDEF" else "0123456789abcdef")[v]
  }

  function PiecesText(ps: seq<Piece>): Bytes
    requires InBase(ps, 16)
  {
    seq(|ps|, i requires 0 <= i < |ps| => PieceChar(ps[i]))
  }

  /** The number with these digits, most significant first. */
  function Magnitude(ps: seq<Piece>, base: nat): int {
    if ps == [] then 0 else
      var front, last := Magnitude(ps[..|ps| - 1], base), ps[|ps| - 1];
      if last.Digit? then base * front + last.value else front
  }

  predicate SomeDigit(ps: seq<Piece>) { exists i | 0 <= i < |ps| :: ps[i].Digit? }

  lemma PieceRead(p: Piece, base: nat)
    requires base <= 16 && (p.Digit? ==> p.value < base)
    ensures p.Digit? ==> NumericDigit(PieceChar(p)) == Some(p.value) && PieceChar(p) != '_'
  {}

  lemma {:induction false} PiecesRead(ps: seq<Piece>, base: nat)
    requires base <= 16 && InBase(ps, base)
    ensures InBase(ps, 16) && DigitText(PiecesText(ps), base)
    ensures Value(PiecesText(ps), base) == Magnitude(ps, base)
    ensures HasDigit(PiecesText(ps)) <==> SomeDigit(ps)
  {
    hide NumericDigit, PieceChar;
    var raw := PiecesText(ps);
    forall i | 0 <= i < |ps|
      ensures (raw[i] == '_' <==> ps[i].Underscore?) && (raw[i] == '_' || DigitIn(raw[i], base))
    {
      PieceRead(ps[i], base);
      assert PieceChar(Underscore) == '_' by { UnderscoreChar(); }
    }
    if SomeDigit(ps) {
      var i :| 0 <= i < |ps| && ps[i].Digit?;
      assert raw[i] != '_';
    }
    if ps != [] {
      var front := ps[..|ps| - 1];
      PiecesRead(front, base);
      assert raw[..|raw| - 1] == PiecesText(front);
      PieceRead(ps[|ps| - 1], base);
    }
  }

  lemma UnderscoreChar()
    ensures PieceChar(Underscore) == '_'
  {}

  lemma {:induction false} PiecesOf(raw: Bytes, base: nat) returns (ps: seq<Piece>)
    requires base <= 16 && DigitText(raw, base)
    ensures InBase(ps, base) && PiecesText(ps) == raw
    decreases |raw|
  {
    hide NumericDigit, PieceChar;
    ps := [];
    if raw != [] {
      var front, c := raw[..|raw| - 1], raw[|raw| - 1];
      var rest := PiecesOf(front, base);
      var p := PieceOf(c, base);
      ps := rest + [p];
      assert raw == front + [c] && |rest| == |front|;
      forall i | 0 <= i < |raw| ensures PiecesText(ps)[i] == raw[i] {
        if i < |front| { assert PiecesText(rest)[i] == front[i]; }
      }
    }
  }

  lemma PieceOf(c: char, base: nat) returns (p: Piece)
    requires base <= 16 && (c == '_' || DigitIn(c, base))
    ensures (p.Digit? ==> p.value < base) && PieceChar(p) == c
  {
    p := if c == '_' then Underscore else Digit(NumericDigit(c).value, 'A' <= c <= 'F');
  }

  /** What stands between sign and digits: nothing, or zero and the letter of the base in either case. */
  predicate IsPrefix(prefix: Bytes, base: nat) {
    || (base == 10 && prefix == "")
    || (base == 2 && prefix in {"0b", "0B"})
    || (base == 8 && prefix in {"0o", "0O"})
    || (base == 16 && prefix in {"0x", "0X"})
  }

  predicate IsLiteral(raw: Bytes, sign: Bytes, prefix: Bytes, base: nat, ps: seq<Piece>) {
    && sign in {"", "+", "-"} && IsPrefix(prefix, base) && base <= 16 && InBase(ps, base) && InBase(ps, 16)
    && SomeDigit(ps) && raw == sign + (prefix + PiecesText(ps))
  }

  lemma SignRead(sign: Bytes, text: Bytes)
    requires sign in {"", "+", "-"} && text != "" && text[0] != '+' && text[0] != '-'
    ensures Split(sign + text) == SplitBase(sign == "-", text)
  {
    hide SplitBase;
    var raw := sign + text;
    if sign == "" { assert raw == text; } else { assert raw[0] == sign[0] && raw[1..] == text; }
  }

  lemma PrefixRead(prefix: Bytes, base: nat, digits: Bytes, negative: bool)
    requires IsPrefix(prefix, base) && digits != "" && DigitText(digits, base)
    ensures var text := prefix + digits;
      text != "" && text[0] != '+' && text[0] != '-' && SplitBase(negative, text) == Literal(negative, base, digits)
  {
    hide NumericDigit;
    var text := prefix + digits;
    if base == 10 {
      assert text == digits;
      PlainDigit(digits[0]);
      if |digits| > 1 { PlainDigit(digits[1]); }
    } else {
      assert |prefix| == 2 && text[0] == prefix[0] && text[1] == prefix[1] && text[2..] == digits;
      assert prefix == [prefix[0], prefix[1]];
    }
  }

  lemma PlainDigit(c: char)
    requires c == '_' || DigitIn(c, 10)
    ensures c !in {'+', '-', 'b', 'B', 'o', 'O', 'x', 'X'}
  {}

  lemma LiteralSplit(raw: Bytes, sign: Bytes, prefix: Bytes, base: nat, ps: seq<Piece>)
    requires IsLiteral(raw, sign, prefix, base, ps)
    ensures Split(raw) == Literal(sign == "-", base, PiecesText(ps))
  {
    hide Split, SplitBase, DigitText, IsPrefix, InBase;
    var digits := PiecesText(ps);
    PiecesRead(ps, base);
    assert digits != "" by { var i :| 0 <= i < |ps| && ps[i].Digit?; assert |digits| == |ps|; }
    PrefixRead(prefix, base, digits, sign == "-");
    SignRead(sign, prefix + digits);
  }

  lemma BaseShape(negative: bool, text: Bytes) returns (prefix: Bytes)
    ensures var l := SplitBase(negative, text);
      l.negative == negative && IsPrefix(prefix, l.base) && text == prefix + l.digits
  {
    var l := SplitBase(negative, text);
    if l.base == 10 {
      prefix := "";
    } else {
      prefix := [text[0], text[1]];
      assert text == prefix + text[2..];
      PrefixShape(text[1], l.base);
    }
  }

  lemma PrefixShape(c: char, base: nat)
    requires (c in {'b', 'B'} && base == 2) || (c in {'o', 'O'} && base == 8) || (c in {'x', 'X'} && base == 16)
    ensures IsPrefix(['0', c], base)
  {
    assert ['0', 'b'] == "0b" && ['0', 'B'] == "0B" && ['0', 'o'] == "0o" && ['0', 'O'] == "0O";
    assert ['0', 'x'] == "0x" && ['0', 'X'] == "0X";
  }

  lemma SplitShape(raw: Bytes) returns (sign: Bytes, prefix: Bytes)
    ensures var l := Split(raw);
      && sign in {"", "+", "-"} && l.negative == (sign == "-") && IsPrefix(prefix, l.base)
      && raw == sign + (prefix + l.digits)
  {
    hide SplitBase, IsPrefix;
    var negative := raw != [] && raw[0] == '-';
    if raw != [] && (raw[0] == '+' || raw[0] == '-') {
      sign := if negative then "-" else "+";
      assert raw == sign + raw[1..];
      prefix := BaseShape(negative, raw[1..]);
    } else {
      sign := "";
      assert raw == sign + raw;
      prefix := BaseShape(negative, raw);
    }
  }

  /** The number that a sign, a base and digits make up. */
  function Made(sign: Bytes, base: nat, ps: seq<Piece>): int {
    if sign == "-" then 0 - Magnitude(ps, base) else Magnitude(ps, base)
  }

  ghost predicate Spells(raw: Bytes, n: int) {
    exists sign, prefix, base, ps :: IsLiteral(raw, sign, prefix, base, ps) && n == Made(sign, base, ps)
  }

  /** A literal is well formed and denotes `n` exactly if it is a sign, a base and digits of that base that
      make up `n`. */
  lemma LiteralExactly(raw: Bytes, n: int)
    ensures WellFormed(raw) && Denotes(raw) == n <==> Spells(raw, n)
  {
    hide Split, DigitText, HasDigit, Value, PiecesText, Magnitude, SomeDigit, InBase, IsPrefix;
    if WellFormed(raw) && Denotes(raw) == n {
      var l := Split(raw);
      var sign, prefix := SplitShape(raw);
      var ps := PiecesOf(l.digits, l.base);
      PiecesRead(ps, l.base);
      assert IsLiteral(raw, sign, prefix, l.base, ps) && n == Made(sign, l.base, ps);
    }
    if Spells(raw, n) {
      var sign, prefix, base, ps :| IsLiteral(raw, sign, prefix, base, ps) && n == Made(sign, base, ps);
      LiteralSplit(raw, sign, prefix, base, ps);
      PiecesRead(ps, base);
    }
  }

  // ---------------------------------------------------------------- round trip

  function FormatInt(n: int): Bytes {
    if n < 0 then "-" + Decimal.Itoa(-n) else Decimal.Itoa(n)
  }

  lemma {:induction false} DecimalValue(s: Bytes)
    requires Decimal.AllDigits(s)
    ensures DigitText(s, 10) && Value(s, 10) == Decimal.Value(s)
  {
    if s != [] {
      DecimalValue(s[..|s| - 1]);
      assert s == s[..|s| - 1] + [s[|s| - 1]];
    }
  }

  /** A digit text, with or without a minus sign, is a decimal literal. */
  lemma SplitDigits(s: Bytes, negative: bool)
    requires s != [] && Decimal.AllDigits(s)
    ensures Split(if negative then "-" + s else s) == Literal(negative, 10, s)
  {
    assert IsDigit(s[0]) && (|s| > 1 ==> IsDigit(s[1]));
    if negative { assert ("-" + s)[0] == '-' && ("-" + s)[1..] == s; }
  }

  lemma FirstIsDigit(s: Bytes)
    requires s != [] && Decimal.AllDigits(s)
    ensures HasDigit(s)
  {
    assert IsDigit(s[0]) && s[0] != '_';
  }

  /** Every int64, the minimum included, prints to a literal that denotes it. */
  lemma FormatIntRoundTrip(n: int)
    ensures WellFormed(FormatInt(n)) && Denotes(FormatInt(n)) == n
  {
    hide Split, DigitText, HasDigit, Value, Decimal.Itoa, Decimal.Value, Decimal.AllDigits;
    var m := if n < 0 then -n else n;
    var s := Decimal.Itoa(m);
    Decimal.ValueOfItoa(m);
    DecimalValue(s);
    FirstIsDigit(s);
    SplitDigits(s, n < 0);
  }

  /** Printing an int64 and parsing it gives the same int64. */
  method PrintThenParse(n: int) returns (r: Result)
    requires IsInt64(n)
    ensures r == Ok(n)
  {
    FormatIntRoundTrip(n);
    r := ParseInteger(FormatInt(n));
  }
}
