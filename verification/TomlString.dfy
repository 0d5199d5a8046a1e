/** TOML string tokens: delimiters, escape decoding and the canonical printer
    (pkg/toml/value.go `parseStringValue`, pkg/toml/marshal.go `writeQuotedString`). */
module TomlString {
  import opened Text

  predicate ProhibitedControl(c: char, multiline: bool) {
    c != '\t' && !(multiline && c == '\n') && (c < ' ' || c == '\U{7f}')
  }

  predicate IsCrLf(raw: Bytes, i: nat) {
    i + 1 < |raw| && raw[i] == '\r' && raw[i + 1] == '\n'
  }

  // ---------------------------------------------------------------- escapes

  function HexValue(c: char): (v: Option<nat>)
    ensures v.Some? ==> v.value < 16
  {
    if IsDigit(c) then Some(c as int - '0' as int)
    else if 'A' <= c <= 'F' then Some(c as int - 'A' as int + 10)
    else if 'a' <= c <= 'f' then Some(c as int - 'a' as int + 10)
    else None
  }

  function HexNumber(raw: Bytes): Option<nat> {
    if raw == [] then Some(0) else
      var hi :- HexNumber(raw[..|raw| - 1]);
      var lo :- HexValue(raw[|raw| - 1]);
      Some(16 * hi + lo)
  }

  /** UTF-8 form of a code point, one `char` per byte. */
  function Utf8(r: nat): Bytes
    requires r < 0x110000
  {
    if r < 0x80 then [r as char]
    else if r < 0x800 then [(0xC0 + r / 64) as char, (0x80 + r % 64) as char]
    else if r < 0x10000 then
      [(0xE0 + r / 4096) as char, (0x80 + r / 64 % 64) as char, (0x80 + r % 64) as char]
    else
      [(0xF0 + r / 262144) as char, (0x80 + r / 4096 % 64) as char, (0x80 + r / 64 % 64) as char,
          (0x80 + r % 64) as char]
  }

  function UnicodeEscape(raw: Bytes, start: nat, digits: nat): (u: Option<Bytes>)
    ensures u.Some? ==> start + digits <= |raw|
  {
    if start + digits > |raw| then None else
      var v :- HexNumber(raw[start..start + digits]);
      if v < 0xD800 || 0xE000 <= v < 0x110000 then Some(Utf8(v)) else None
  }

  /** End of a run of blanks, LF and CRLF. */
  function WhitespaceEnd(raw: Bytes, j: nat): (k: nat)
    requires j <= |raw|
    ensures j <= k <= |raw|
    decreases |raw| - j
  {
    if j >= |raw| then j
    else if IsBlank(raw[j]) || raw[j] == '\n' then WhitespaceEnd(raw, j + 1)
    else if IsCrLf(raw, j) then WhitespaceEnd(raw, j + 2)
    else j
  }

  /** A line-ending backslash swallows the newline and all whitespace after it. */
  function LineContinuation(raw: Bytes, i: nat): (k: Option<nat>)
    requires i <= |raw|
    ensures k.Some? ==> i < k.value <= |raw|
  {
    var j := BlankEnd(raw, i);
    if j < |raw| && raw[j] == '\n' then Some(WhitespaceEnd(raw, j + 1))
    else if IsCrLf(raw, j) then Some(WhitespaceEnd(raw, j + 2))
    else None
  }

  /** The text and the width of the escape whose backslash is at `i`. */
  function Escape(raw: Bytes, i: nat): (e: Option<(Bytes, nat)>)
    requires i < |raw|
    ensures e.Some? ==> 2 <= e.value.1 && i + e.value.1 <= |raw|
  {
    if i + 1 >= |raw| then None else
    match raw[i + 1]
      case 'b' => Some(("\U{8}", 2))
      case 't' => Some(("\t", 2))
      case 'n' => Some(("\n", 2))
      case 'f' => Some(("\U{c}", 2))
      case 'r' => Some(("\r", 2))
      case 'e' => Some(("\U{1b}", 2))
      case '"' => Some(("\"", 2))
      case '\\' => Some(("\\", 2))
      case 'x' => var u :- UnicodeEscape(raw, i + 2, 2); Some((u, 4))
      case 'u' => var u :- UnicodeEscape(raw, i + 2, 4); Some((u, 6))
      case 'U' => var u :- UnicodeEscape(raw, i + 2, 8); Some((u, 10))
      case _ => None
  }

  // ---------------------------------------------------------------- basic string bodies

  function Prepend(p: Bytes, rest: Option<Bytes>): Option<Bytes> {
    if rest.None? then None else Some(p + rest.value)
  }

  lemma PrependTwice(p: Bytes, q: Bytes, rest: Option<Bytes>)
    ensures Prepend(p, Prepend(q, rest)) == Prepend(p + q, rest)
    ensures Prepend([], rest) == rest
  {
    if rest.Some? {
      assert p + (q + rest.value) == p + q + rest.value;
      assert [] + rest.value == rest.value;
    }
  }

  /** The text produced at `i` and where decoding goes on. */
  function BodyStep(raw: Bytes, i: nat, multiline: bool): (r: Option<(Bytes, nat)>)
    requires i < |raw|
    ensures r.Some? ==> i < r.value.1 <= |raw|
  {
    if raw[i] != '\\' then
      if multiline && IsCrLf(raw, i) then Some(("\r\n", i + 2))
      else if ProhibitedControl(raw[i], multiline) then None
      else Some(([raw[i]], i + 1))
    else if multiline && LineContinuation(raw, i + 1).Some? then
      Some(("", LineContinuation(raw, i + 1).value))
    else
      var e :- Escape(raw, i);
      Some((e.0, i + e.1))
  }

  /** Decodes `raw[i..]` byte by byte. */
  function DecodeBody(raw: Bytes, i: nat, multiline: bool): Option<Bytes>
    requires i <= |raw|
    decreases |raw| - i
  {
    if i == |raw| then Some([]) else
      var step :- BodyStep(raw, i, multiline);
      Prepend(step.0, DecodeBody(raw, step.1, multiline))
  }

  predicate StrictStop(c: char) {
    c == '"' || c == '\\' || c == '\U{7f}' || (c < ' ' && c != '\t')
  }

  /** The kernel `scan.ScanBasicStringStrict`: first byte that is not plain body text. */
  function StrictEnd(raw: Bytes, i: nat): (j: nat)
    requires i <= |raw|
    ensures i <= j <= |raw|
    ensures forall k | i <= k < j :: !StrictStop(raw[k])
    ensures j < |raw| ==> StrictStop(raw[j])
    decreases |raw| - i
  {
    if i < |raw| && !StrictStop(raw[i]) then StrictEnd(raw, i + 1) else i
  }

  lemma {:induction false} PlainRun(raw: Bytes, i: nat, j: nat)
    requires i <= j <= |raw|
    requires forall k | i <= k < j :: !StrictStop(raw[k])
    ensures DecodeBody(raw, i, false) == Prepend(raw[i..j], DecodeBody(raw, j, false))
    decreases j - i
  {
    PrependTwice([], [], DecodeBody(raw, j, false));
    if i < j {
      PlainRun(raw, i + 1, j);
      PrependTwice([raw[i]], raw[i + 1..j], DecodeBody(raw, j, false));
      assert raw[i..j] == [raw[i]] + raw[i + 1..j];
    } else {
      assert raw[i..j] == [];
    }
  }

  /** The branches of one round of `scanBasicStringBody`. */
  method ScanStep(raw: Bytes, i: nat, multiline: bool) returns (r: Option<(Bytes, nat)>)
    requires i < |raw|
    ensures r == BodyStep(raw, i, multiline)
  {
    if raw[i] != '\\' {
      if multiline && IsCrLf(raw, i) { return Some(("\r\n", i + 2)); }
      if ProhibitedControl(raw[i], multiline) { return None; }
      return Some(([raw[i]], i + 1));
    }
    if multiline {
      var next := LineContinuation(raw, i + 1);
      if next.Some? { return Some(("", next.value)); }
    }
    var e := Escape(raw, i);
    if e.None? { return None; }
    return Some((e.value.0, i + e.value.1));
  }

  /** `scanBasicStringBody`: the run-at-a-time loop computes the byte-at-a-time meaning. */
  method ScanBasicStringBody(raw: Bytes, multiline: bool) returns (r: Option<Bytes>)
    ensures r == DecodeBody(raw, 0, multiline)
  {
    var b: Bytes := [];
    var i := 0;
    PrependTwice([], [], DecodeBody(raw, 0, multiline));
    while i < |raw|
      invariant 0 <= i <= |raw|
      invariant DecodeBody(raw, 0, multiline) == Prepend(b, DecodeBody(raw, i, multiline))
      decreases |raw| - i
    {
      if !multiline {
        var n := StrictEnd(raw, i);
        if n > i {
          PlainRun(raw, i, n);
          PrependTwice(b, raw[i..n], DecodeBody(raw, n, false));
          b, i := b + raw[i..n], n;
          if i >= |raw| { break; }
        }
      }
      var step := ScanStep(raw, i, multiline);
      if step.None? { return None; }
      PrependTwice(b, step.value.0, DecodeBody(raw, step.value.1, multiline));
      b, i := b + step.value.0, step.value.1;
    }
    assert b + [] == b;
    return Some(b);
  }

  // ---------------------------------------------------------------- whole string tokens

  predicate HasTripleDelimiter(raw: Bytes, q: char) {
    |raw| >= 6 && raw[..3] == [q, q, q] && raw[|raw| - 3..] == [q, q, q]
  }

  predicate HasPairDelimiter(raw: Bytes, q: char) {
    |raw| >= 2 && raw[0] == q && raw[|raw| - 1] == q
  }

  function TrimInitialNewline(raw: Bytes): Bytes {
    if IsCrLf(raw, 0) then raw[2..]
    else if raw != [] && raw[0] == '\n' then raw[1..]
    else raw
  }

  /** No prohibited control byte, a CRLF pair counting as a newline in multi-line text. */
  predicate ControlFree(raw: Bytes, i: nat, multiline: bool)
    requires i <= |raw|
    decreases |raw| - i
  {
    if i == |raw| then true
    else if multiline && IsCrLf(raw, i) then ControlFree(raw, i + 2, multiline)
    else !ProhibitedControl(raw[i], multiline) && ControlFree(raw, i + 1, multiline)
  }

  function ParseLiteral(body: Bytes, multiline: bool): Option<Bytes> {
    if ControlFree(body, 0, multiline) then Some(body) else None
  }

  /** `parseStringValue`: the text a string token denotes. */
  function ParseString(raw: Bytes): Option<Bytes> {
    if HasTripleDelimiter(raw, '\'') then ParseLiteral(TrimInitialNewline(raw[3..|raw| - 3]), true)
    else if HasTripleDelimiter(raw, '"') then DecodeBody(TrimInitialNewline(raw[3..|raw| - 3]), 0, true)
    else if HasPairDelimiter(raw, '\'') then ParseLiteral(raw[1..|raw| - 1], false)
    else if HasPairDelimiter(raw, '"') then DecodeBody(raw[1..|raw| - 1], 0, false)
    else None
  }

  /** `validateStringValue` accepts exactly what `parseStringValue` decodes. */
  predicate ValidString(raw: Bytes) { ParseString(raw).Some? }

  // ---------------------------------------------------------------- printing

  /** Printable ASCII, by its codes. */
  predicate Printable(s: Bytes) { forall i | 0 <= i < |s| :: 0x20 <= s[i] as int <= 0x7E }

  predicate NeedsEscape(c: char) { c == '"' || c == '\\' }

  function EscapedByte(c: char): Bytes { if NeedsEscape(c) then ['\\', c] else [c] }

  function Escaped(s: Bytes): Bytes { if s == [] then [] else EscapedByte(s[0]) + Escaped(s[1..]) }

  function Quoted(s: Bytes): Bytes { "\"" + Escaped(s) + "\"" }

  lemma {:induction false} EscapedAppend(s: Bytes, t: Bytes)
    ensures Escaped(s + t) == Escaped(s) + Escaped(t)
  {
    if s == [] {
      assert s + t == t;
    } else {
      assert (s + t)[1..] == s[1..] + t;
      EscapedAppend(s[1..], t);
      Regroup(EscapedByte(s[0]), Escaped(s[1..]), Escaped(t));
    }
  }

  lemma EscapedNext(s: Bytes, i: nat)
    requires i < |s|
    ensures Escaped(s[..i + 1]) == Escaped(s[..i]) + EscapedByte(s[i])
  {
    EscapedAppend(s[..i], [s[i]]);
    assert s[..i + 1] == s[..i] + [s[i]];
    assert Escaped([s[i]]) == EscapedByte(s[i]) + Escaped([s[i]][1..]) == EscapedByte(s[i]);
  }

  lemma {:induction false} EscapedPlain(s: Bytes)
    requires forall k | 0 <= k < |s| :: !NeedsEscape(s[k])
    ensures Escaped(s) == s
  {
    if s != [] {
      EscapedPlain(s[1..]);
      assert s == [s[0]] + s[1..];
    }
  }

  /** `asciiQuoteEscapeIndex`; `None` is the fallback for bytes outside printable ASCII. */
  method AsciiQuoteEscapeIndex(s: Bytes) returns (first: Option<int>)
    ensures first.Some? <==> Printable(s)
    ensures first.Some? ==> -1 <= first.value < |s|
    ensures first.Some? && first.value >= 0 ==> NeedsEscape(s[first.value])
    ensures first.Some? ==>
            forall k | 0 <= k < (if first.value < 0 then |s| else first.value) :: !NeedsEscape(s[k])
  {
    var f := -1;
    for i := 0 to |s|
      invariant Printable(s[..i])
      invariant -1 <= f < i
      invariant f >= 0 ==> NeedsEscape(s[f])
      invariant forall k | 0 <= k < (if f < 0 then i else f) :: !NeedsEscape(s[k])
    {
      assert s[..i + 1] == s[..i] + [s[i]];
      if !IsPrintable(s[i]) { return None; }
      if NeedsEscape(s[i]) && f < 0 { f := i; }
    }
    assert s[..|s|] == s;
    return Some(f);
  }

  /** One round of the printer: an escaped byte ends the pending span, any other extends it. */
  lemma QuoteStep(b: Bytes, s: Bytes, start: nat, i: nat)
    requires start <= i < |s| && b + s[start..i] == "\"" + Escaped(s[..i])
    ensures NeedsEscape(s[i]) ==> b + s[start..i] + ['\\', s[i]] + s[i + 1..i + 1] == "\"" + Escaped(s[..i + 1])
    ensures !NeedsEscape(s[i]) ==> b + s[start..i + 1] == "\"" + Escaped(s[..i + 1])
  {
    hide Escaped;
    EscapedNext(s, i);
    Regroup("\"", Escaped(s[..i]), EscapedByte(s[i]));
    if NeedsEscape(s[i]) {
      assert s[i + 1..i + 1] == "";
      assert b + s[start..i] + ['\\', s[i]] + "" == b + s[start..i] + ['\\', s[i]];
    } else {
      assert s[start..i + 1] == s[start..i] + [s[i]];
      Regroup(b, s[start..i], [s[i]]);
    }
  }

  /** `writeQuotedString` on printable text, copying untouched spans in one piece. */
  method WriteQuotedString(s: Bytes) returns (r: Option<Bytes>)
    ensures r == if Printable(s) then Some(Quoted(s)) else None
  {
    hide Printable, Escaped, EscapedByte;
    var first := AsciiQuoteEscapeIndex(s);
    if first.None? { return None; }
    if first.value < 0 {
      EscapedPlain(s);
      return Some("\"" + s + "\"");
    }
    var b: Bytes := "\"";
    var start := 0;
    EscapedPlain(s[..first.value]);
    var i := first.value;
    while i < |s|
      invariant 0 <= start <= i <= |s|
      invariant b + s[start..i] == "\"" + Escaped(s[..i])
    {
      QuoteStep(b, s, start, i);
      if NeedsEscape(s[i]) {
        b := b + s[start..i] + ['\\', s[i]];
        start := i + 1;
      }
      i := i + 1;
    }
    assert s[..|s|] == s && s[start..|s|] == s[start..];
    return Some(b + s[start..] + "\"");
  }

  // ---------------------------------------------------------------- round trip

  lemma StepOfEscaped(raw: Bytes, i: nat, c: char)
    requires IsPrintable(c) && i + |EscapedByte(c)| <= |raw| && raw[i..i + |EscapedByte(c)|] == EscapedByte(c)
    ensures BodyStep(raw, i, false) == Some(([c], i + |EscapedByte(c)|))
  {
    assert raw[i] == EscapedByte(c)[0];
    if NeedsEscape(c) { assert raw[i + 1] == EscapedByte(c)[1] == c; }
  }

  lemma SplitAt(raw: Bytes, i: nat, a: Bytes, b: Bytes)
    requires i <= |raw| && raw[i..] == a + b
    ensures i + |a| <= |raw| && raw[i..i + |a|] == a && raw[i + |a|..] == b
  {
    assert raw[i..][..|a|] == a && raw[i..][|a|..] == b;
  }

  lemma {:induction false} DecodeEscaped(raw: Bytes, i: nat, s: Bytes)
    requires Printable(s) && i <= |raw| && raw[i..] == Escaped(s)
    ensures DecodeBody(raw, i, false) == Some(s)
    decreases |s|
  {
    if s != [] {
      var head, rest := EscapedByte(s[0]), s[1..];
      SplitAt(raw, i, head, Escaped(rest));
      StepOfEscaped(raw, i, s[0]);
      DecodeEscaped(raw, i + |head|, rest);
      assert [s[0]] + rest == s;
    }
  }

  lemma QuotedShape(s: Bytes)
    ensures var raw := Quoted(s);
            !HasTripleDelimiter(raw, '\'') && !HasTripleDelimiter(raw, '"')
            && !HasPairDelimiter(raw, '\'') && HasPairDelimiter(raw, '"') && raw[1..|raw| - 1] == Escaped(s)
  {
    var raw := Quoted(s);
    assert |raw| >= 3 ==> raw[..3][0] == '"' && raw[..3][1] == raw[1];
    if s != [] {
      assert Escaped(s)[0] == EscapedByte(s[0])[0];
      assert raw[1] == Escaped(s)[0] != '"';
    }
  }

  /** Printing then parsing is the identity on printable ASCII, quotes and backslashes included. */
  lemma QuotedRoundTrip(s: Bytes)
    requires Printable(s)
    ensures ParseString(Quoted(s)) == Some(s)
  {
    QuotedShape(s);
    assert Escaped(s)[0..] == Escaped(s);
    DecodeEscaped(Escaped(s), 0, s);
  }
}
