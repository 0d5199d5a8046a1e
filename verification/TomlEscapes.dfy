/** What the bodies of TOML basic strings denote (`scanBasicStringBody` in pkg/toml/value.go), by a grammar
    of its own: pieces with a spelling and a meaning. The decoder accepts exactly the texts the pieces
    spell, and gives exactly what they mean. */
module TomlEscapes {
  import opened Text
  import TomlString

  // ---------------------------------------------------------------- hexadecimal numbers

  function Power16(n: nat): nat { if n == 0 then 1 else 16 * Power16(n - 1) }

  function HexDigit(n: nat, capital: bool): char
    requires n < 16
  {
    (if capital then "0123456789ABCDEF" else "0123456789abcdef")[n]
  }

  /** The digits of `r`, most significant first, each in the case given for it. */
  function HexText(r: nat, capitals: seq<bool>): Bytes
    decreases |capitals|
  {
    if capitals == [] then "" else
      HexText(r / 16, capitals[..|capitals| - 1]) + [HexDigit(r % 16, capitals[|capitals| - 1])]
  }

  lemma HexDigitRead(n: nat, capital: bool)
    requires n < 16
    ensures TomlString.HexValue(HexDigit(n, capital)) == Some(n)
  {}

  lemma HexDigitOf(c: char) returns (capital: bool)
    requires TomlString.HexValue(c).Some?
    ensures c == HexDigit(TomlString.HexValue(c).value, capital)
  {
    capital := 'A' <= c <= 'F';
  }

  lemma {:induction false} HexRead(r: nat, capitals: seq<bool>)
    requires r < Power16(|capitals|)
    ensures |HexText(r, capitals)| == |capitals|
    ensures TomlString.HexNumber(HexText(r, capitals)) == Some(r)
    decreases |capitals|
  {
    if capitals != [] {
      var front := capitals[..|capitals| - 1];
      HexRead(r / 16, front);
      HexDigitRead(r % 16, capitals[|capitals| - 1]);
      assert HexText(r, capitals)[..|front|] == HexText(r / 16, front);
    }
  }

  lemma HexLonger(hi: nat, lo: nat, capitals: seq<bool>, capital: bool)
    requires lo < 16
    ensures HexText(16 * hi + lo, capitals + [capital]) == HexText(hi, capitals) + [HexDigit(lo, capital)]
    ensures hi < Power16(|capitals|) ==> 16 * hi + lo < Power16(|capitals| + 1)
  {
    assert (16 * hi + lo) / 16 == hi && (16 * hi + lo) % 16 == lo;
    assert (capitals + [capital])[..|capitals|] == capitals;
  }

  lemma HexNext(raw: Bytes)
    requires raw != [] && TomlString.HexNumber(raw).Some?
    ensures var front, lo := TomlString.HexNumber(raw[..|raw| - 1]), TomlString.HexValue(raw[|raw| - 1]);
      front.Some? && lo.Some? && TomlString.HexNumber(raw) == Some(16 * front.value + lo.value)
  {}

  lemma HexNone(raw: Bytes)
    requires raw == []
    ensures TomlString.HexNumber(raw) == Some(0) && HexText(0, []) == "" && Power16(0) == 1
  {}

  lemma {:induction false} HexSpelled(raw: Bytes) returns (capitals: seq<bool>)
    requires TomlString.HexNumber(raw).Some?
    ensures |capitals| == |raw| && TomlString.HexNumber(raw).value < Power16(|raw|)
    ensures raw == HexText(TomlString.HexNumber(raw).value, capitals)
  {
    hide TomlString.HexNumber, TomlString.HexValue, HexDigit, HexText, Power16;
    if raw == [] {
      capitals := [];
      HexNone(raw);
    } else {
      HexNext(raw);
      var front, last := raw[..|raw| - 1], raw[|raw| - 1];
      var some := HexSpelled(front);
      var capital := HexDigitOf(last);
      capitals := some + [capital];
      HexLonger(TomlString.HexNumber(front).value, TomlString.HexValue(last).value, some, capital);
      assert raw == front + [last];
    }
  }

  // ---------------------------------------------------------------- UTF-8

  predicate IsScalar(r: nat) { r < 0xD800 || 0xE000 <= r < 0x110000 }

  predicate IsTail(b: Bytes, i: nat) { i < |b| && 0x80 <= b[i] as int < 0xC0 }

  function Tail(b: Bytes, i: nat): nat
    requires IsTail(b, i)
  {
    b[i] as int - 0x80
  }

  /** The first scalar value of a UTF-8 text and its width: no overlong form, no surrogate, no value past
      the last plane. */
  function ReadRune(b: Bytes): Option<(nat, nat)> {
    if b == [] then None else
      var c := b[0] as int;
      if c < 0x80 then Some((c, 1))
      else if 0xC2 <= c < 0xE0 && IsTail(b, 1) then Some(((c - 0xC0) * 64 + Tail(b, 1), 2))
      else if 0xE0 <= c < 0xF0 && IsTail(b, 1) && IsTail(b, 2) then
        var r := (c - 0xE0) * 4096 + Tail(b, 1) * 64 + Tail(b, 2);
        if r < 0x800 || !IsScalar(r) then None else Some((r, 3))
      else if 0xF0 <= c < 0xF5 && IsTail(b, 1) && IsTail(b, 2) && IsTail(b, 3) then
        var r := (c - 0xF0) * 262144 + Tail(b, 1) * 4096 + Tail(b, 2) * 64 + Tail(b, 3);
        if r < 0x10000 || !IsScalar(r) then None else Some((r, 4))
      else None
  }

  lemma Split64(r: nat)
    ensures r == r / 64 * 64 + r % 64 && r / 4096 == r / 64 / 64 && r / 64 % 64 == r / 64 - r / 4096 * 64
    ensures r / 262144 == r / 4096 / 64 && r / 4096 % 64 == r / 4096 - r / 262144 * 64
  {}

  lemma RuneRead2(r: nat, rest: Bytes)
    requires 0x80 <= r < 0x800
    ensures ReadRune(TomlString.Utf8(r) + rest) == Some((r, 2))
  {
    var b := TomlString.Utf8(r) + rest;
    assert b[0] as int == 0xC0 + r / 64 && b[1] as int == 0x80 + r % 64;
  }

  lemma RuneRead3(r: nat, rest: Bytes)
    requires 0x800 <= r < 0x10000 && IsScalar(r)
    ensures ReadRune(TomlString.Utf8(r) + rest) == Some((r, 3))
  {
    Split64(r);
    var b := TomlString.Utf8(r) + rest;
    assert b[0] as int == 0xE0 + r / 4096 && b[1] as int == 0x80 + r / 64 % 64 && b[2] as int == 0x80 + r % 64;
  }

  lemma RuneRead4(r: nat, rest: Bytes)
    requires 0x10000 <= r && IsScalar(r)
    ensures ReadRune(TomlString.Utf8(r) + rest) == Some((r, 4))
  {
    Split64(r);
    var b := TomlString.Utf8(r) + rest;
    assert b[0] as int == 0xF0 + r / 262144 && b[1] as int == 0x80 + r / 4096 % 64;
    assert b[2] as int == 0x80 + r / 64 % 64 && b[3] as int == 0x80 + r % 64;
  }

  /** A UTF-8 reader gets back every scalar value, whatever follows. */
  lemma RuneRead(r: nat, rest: Bytes)
    requires IsScalar(r)
    ensures ReadRune(TomlString.Utf8(r) + rest) == Some((r, |TomlString.Utf8(r)|))
  {
    hide ReadRune;
    if r < 0x80 {
      RuneRead1(r, rest);
    } else if r < 0x800 {
      RuneRead2(r, rest);
    } else if r < 0x10000 {
      RuneRead3(r, rest);
    } else {
      RuneRead4(r, rest);
    }
  }

  lemma RuneRead1(r: nat, rest: Bytes)
    requires r < 0x80
    ensures ReadRune(TomlString.Utf8(r) + rest) == Some((r, 1))
  {}

  function ReadRunes(b: Bytes): Option<seq<nat>>
    decreases |b|
  {
    if b == [] then Some([]) else
      var first :- ReadRune(b);
      if first.1 == 0 || first.1 > |b| then None else
        var rest :- ReadRunes(b[first.1..]);
        Some([first.0] + rest)
  }

  // ---------------------------------------------------------------- pieces of a body

  datatype Gap = Space | Tab | Lf | CrLf

  datatype Piece =
    | Plain(c: char)                       // a byte that stands for itself
    | Break                                // CRLF in a multi-line string
    | Short(code: nat)                     // a backslash and a letter
    | Hex(r: nat, capitals: seq<bool>)     // two, four or eight digits after x, u or U
    | Fold(blanks: seq<Gap>, end: Gap, gaps: seq<Gap>)  // a line-ending backslash

  /** The letter of a short escape, by the code of the byte it stands for. */
  function Letter(code: nat): Option<char> {
    if code == 8 then Some('b') else if code == 9 then Some('t') else if code == 10 then Some('n')
    else if code == 12 then Some('f') else if code == 13 then Some('r') else if code == 27 then Some('e')
    else if code == 34 then Some('"') else if code == 92 then Some('\\') else None
  }

  predicate Allowed(p: Piece, multiline: bool) {
    match p
    case Plain(c) =>
      c as int == 9 || (multiline && c as int == 10) || (32 <= c as int && c as int != 92 && c as int != 127)
    case Break => multiline
    case Short(code) => Letter(code).Some?
    case Hex(r, capitals) => |capitals| in {2, 4, 8} && r < Power16(|capitals|) && IsScalar(r)
    case Fold(blanks, end, gaps) =>
      multiline && end in {Lf, CrLf} && forall i | 0 <= i < |blanks| :: blanks[i] in {Space, Tab}
  }

  function GapText(g: Gap): Bytes {
    match g
    case Space => " "
    case Tab => "\t"
    case Lf => "\n"
    case CrLf => "\r\n"
  }

  function GapsText(gs: seq<Gap>): Bytes { if gs == [] then "" else GapText(gs[0]) + GapsText(gs[1..]) }

  function Spelling(p: Piece, multiline: bool): Bytes
    requires Allowed(p, multiline)
  {
    match p
    case Plain(c) => [c]
    case Break => "\r\n"
    case Short(code) => ['\\', Letter(code).value]
    case Hex(r, capitals) =>
      ['\\', if |capitals| == 2 then 'x' else if |capitals| == 4 then 'u' else 'U'] + HexText(r, capitals)
    case Fold(blanks, end, gaps) => "\\" + GapsText(blanks) + GapText(end) + GapsText(gaps)
  }

  function Meaning(p: Piece): Bytes
    requires p.Short? ==> Letter(p.code).Some?
    requires p.Hex? ==> IsScalar(p.r)
  {
    match p
    case Plain(c) => [c]
    case Break => "\r\n"
    case Short(code) => [code as char]
    case Hex(r, _) => TomlString.Utf8(r)
    case Fold(_, _, _) => ""
  }

  /** Whitespace that a line-ending backslash before it would swallow. */
  predicate StartsWithGap(b: Bytes) {
    b != [] && (IsBlank(b[0]) || b[0] == '\n' || TomlString.IsCrLf(b, 0))
  }

  /** The pieces from `ps` spell `raw` and mean `out`. */
  predicate Spells(ps: seq<Piece>, raw: Bytes, out: Bytes, multiline: bool)
    decreases |ps|
  {
    if ps == [] then raw == "" && out == "" else
      && Allowed(ps[0], multiline)
      && var text, mean := Spelling(ps[0], multiline), Meaning(ps[0]);
      && text <= raw && mean <= out
      && (ps[0].Fold? ==> !StartsWithGap(raw[|text|..]))
      && Spells(ps[1..], raw[|text|..], out[|mean|..], multiline)
  }

  // ---------------------------------------------------------------- whitespace behind a backslash

  lemma {:induction false} BlanksEnd(raw: Bytes, i: nat, blanks: seq<Gap>, rest: Bytes)
    requires i <= |raw| && raw[i..] == GapsText(blanks) + rest
    requires forall k | 0 <= k < |blanks| :: blanks[k] in {Space, Tab}
    requires rest == [] || !IsBlank(rest[0])
    ensures BlankEnd(raw, i) == i + |GapsText(blanks)| <= |raw|
    decreases |blanks|
  {
    if blanks == [] {
      if i < |raw| { assert raw[i] == raw[i..][0]; }
    } else {
      var g := GapText(blanks[0]);
      assert raw[i] == raw[i..][0] == g[0];
      assert raw[i + 1..] == raw[i..][1..] == GapsText(blanks[1..]) + rest;
      BlanksEnd(raw, i + 1, blanks[1..], rest);
    }
  }

  lemma {:induction false} GapsEnd(raw: Bytes, i: nat, gaps: seq<Gap>, rest: Bytes)
    requires i <= |raw| && raw[i..] == GapsText(gaps) + rest && !StartsWithGap(rest)
    ensures TomlString.WhitespaceEnd(raw, i) == i + |GapsText(gaps)| <= |raw|
    decreases |gaps|
  {
    hide GapsText;
    if gaps == [] {
      NoGaps(gaps);
      assert raw[i..] == rest;
      GapsOver(raw, i);
    } else {
      var g, more := GapText(gaps[0]), GapsText(gaps[1..]);
      FirstGap(gaps);
      assert raw[i..] == g + (more + rest);
      TomlString.SplitAt(raw, i, g, more + rest);
      GapsEnd(raw, i + |g|, gaps[1..], rest);
      GapStep(raw, i, gaps[0]);
    }
  }

  lemma NoGaps(gaps: seq<Gap>)
    requires gaps == []
    ensures GapsText(gaps) == ""
  {}

  lemma FirstGap(gaps: seq<Gap>)
    requires gaps != []
    ensures GapsText(gaps) == GapText(gaps[0]) + GapsText(gaps[1..])
  {}

  lemma GapsOver(raw: Bytes, i: nat)
    requires i <= |raw| && !StartsWithGap(raw[i..])
    ensures TomlString.WhitespaceEnd(raw, i) == i
  {
    if i < |raw| { assert raw[i] == raw[i..][0]; }
    if i + 1 < |raw| { assert raw[i + 1] == raw[i..][1]; }
  }

  lemma GapStep(raw: Bytes, i: nat, g: Gap)
    requires i + |GapText(g)| <= |raw| && raw[i..i + |GapText(g)|] == GapText(g)
    ensures TomlString.WhitespaceEnd(raw, i) == TomlString.WhitespaceEnd(raw, i + |GapText(g)|)
  {
    assert raw[i] == GapText(g)[0];
    if g.CrLf? { assert raw[i + 1] == GapText(g)[1]; }
  }

  lemma FoldSkipped(raw: Bytes, i: nat, p: Piece, rest: Bytes)
    requires p.Fold? && Allowed(p, true) && i < |raw| && raw[i..] == Spelling(p, true) + rest && !StartsWithGap(rest)
    ensures TomlString.LineContinuation(raw, i + 1) == Some(i + |Spelling(p, true)|)
  {
    hide GapsText, StartsWithGap, TomlString.WhitespaceEnd;
    var blanks, end, gaps := GapsText(p.blanks), GapText(p.end), GapsText(p.gaps);
    assert raw[i..] == "\\" + (blanks + (end + (gaps + rest)));
    TomlString.SplitAt(raw, i, "\\", blanks + (end + (gaps + rest)));
    BlanksEnd(raw, i + 1, p.blanks, end + (gaps + rest));
    TomlString.SplitAt(raw, i + 1, blanks, end + (gaps + rest));
    var j := i + 1 + |blanks|;
    TomlString.SplitAt(raw, j, end, gaps + rest);
    assert raw[j] == raw[j..j + |end|][0];
    if p.end.CrLf? { assert raw[j + 1] == raw[j..j + |end|][1]; }
    GapsEnd(raw, j + |end|, p.gaps, rest);
  }

  // ---------------------------------------------------------------- the decoder reads every spelling

  lemma NoFold(raw: Bytes, i: nat)
    requires i + 1 < |raw| && !IsBlank(raw[i + 1]) && !IsNewline(raw[i + 1])
    ensures TomlString.LineContinuation(raw, i + 1).None?
  {}

  lemma ShortRead(raw: Bytes, i: nat, code: nat, multiline: bool)
    requires Letter(code).Some? && i + 1 < |raw| && raw[i] == '\\' && raw[i + 1] == Letter(code).value
    ensures TomlString.BodyStep(raw, i, multiline) == Some(([code as char], i + 2))
  {
    NoFold(raw, i);
  }

  lemma HexBody(raw: Bytes, i: nat, p: Piece)
    requires p.Hex? && Allowed(p, false)
    requires var n := |p.capitals|; i + 2 + n <= |raw| && raw[i + 2..i + 2 + n] == HexText(p.r, p.capitals)
    ensures TomlString.UnicodeEscape(raw, i + 2, |p.capitals|) == Some(TomlString.Utf8(p.r))
  {
    HexRead(p.r, p.capitals);
  }

  lemma HexPieceRead(raw: Bytes, i: nat, p: Piece, rest: Bytes, multiline: bool)
    requires p.Hex? && Allowed(p, multiline) && i < |raw| && raw[i..] == Spelling(p, multiline) + rest
    ensures TomlString.BodyStep(raw, i, multiline) == Some((Meaning(p), i + |Spelling(p, multiline)|))
  {
    hide TomlString.LineContinuation, TomlString.UnicodeEscape, TomlString.Utf8, HexText;
    var n, text := |p.capitals|, Spelling(p, multiline);
    HexRead(p.r, p.capitals);
    TomlString.SplitAt(raw, i, text, rest);
    assert raw[i] == raw[i..i + |text|][0] && raw[i + 1] == raw[i..i + |text|][1];
    assert raw[i + 2..i + 2 + n] == raw[i..i + |text|][2..] == HexText(p.r, p.capitals);
    HexBody(raw, i, p);
    NoFold(raw, i);
  }

  lemma PieceRead(raw: Bytes, i: nat, p: Piece, rest: Bytes, multiline: bool)
    requires Allowed(p, multiline) && i < |raw| && raw[i..] == Spelling(p, multiline) + rest
    requires p.Fold? ==> !StartsWithGap(rest)
    ensures TomlString.BodyStep(raw, i, multiline) == Some((Meaning(p), i + |Spelling(p, multiline)|))
  {
    hide TomlString.LineContinuation, TomlString.Escape, TomlString.Utf8, HexText, GapsText, StartsWithGap;
    var text := Spelling(p, multiline);
    assert raw[i] == raw[i..][0] == text[0];
    match p {
      case Plain(_) =>
      case Break => assert raw[i + 1] == raw[i..][1] == text[1];
      case Short(code) =>
        assert raw[i + 1] == raw[i..][1] == text[1];
        ShortRead(raw, i, code, multiline);
      case Hex(_, _) => HexPieceRead(raw, i, p, rest, multiline);
      case Fold(_, _, _) => FoldSkipped(raw, i, p, rest);
    }
  }

  lemma {:induction false} SpellingDecodes(raw: Bytes, i: nat, ps: seq<Piece>, out: Bytes, multiline: bool)
    requires i <= |raw| && Spells(ps, raw[i..], out, multiline)
    ensures TomlString.DecodeBody(raw, i, multiline) == Some(out)
    decreases |ps|
  {
    hide TomlString.BodyStep, Spelling, Meaning, StartsWithGap, TomlString.DecodeBody;
    if ps == [] {
      NothingDecodes(raw, i, multiline);
    } else {
      var text, mean := Spelling(ps[0], multiline), Meaning(ps[0]);
      var rest := raw[i..][|text|..];
      assert raw[i..] == text + rest;
      SpellingLong(ps[0], multiline);
      TomlString.SplitAt(raw, i, text, rest);
      PieceRead(raw, i, ps[0], rest, multiline);
      SpellingDecodes(raw, i + |text|, ps[1..], out[|mean|..], multiline);
      DecodeStep(raw, i, mean, i + |text|, out[|mean|..], multiline);
      assert out == mean + out[|mean|..];
    }
  }

  lemma NothingDecodes(raw: Bytes, i: nat, multiline: bool)
    requires i <= |raw| && raw[i..] == ""
    ensures TomlString.DecodeBody(raw, i, multiline) == Some("")
  {
    assert |raw[i..]| == 0;
  }

  lemma DecodeStep(raw: Bytes, i: nat, mean: Bytes, next: nat, rest: Bytes, multiline: bool)
    requires i < |raw| && TomlString.BodyStep(raw, i, multiline) == Some((mean, next)) && next <= |raw|
    requires TomlString.DecodeBody(raw, next, multiline) == Some(rest)
    ensures TomlString.DecodeBody(raw, i, multiline) == Some(mean + rest)
  {
    hide TomlString.BodyStep;
  }

  lemma SpellingLong(p: Piece, multiline: bool)
    requires Allowed(p, multiline)
    ensures Spelling(p, multiline) != ""
  {}

  // ---------------------------------------------------------------- whatever is decoded was spelled

  lemma {:induction false} BlanksOf(raw: Bytes, i: nat) returns (gs: seq<Gap>)
    requires i <= |raw|
    ensures GapsText(gs) == raw[i..BlankEnd(raw, i)]
    ensures forall k | 0 <= k < |gs| :: gs[k] in {Space, Tab}
    decreases |raw| - i
  {
    gs := [];
    if i < |raw| && IsBlank(raw[i]) {
      var rest := BlanksOf(raw, i + 1);
      gs := [if raw[i] == ' ' then Space else Tab] + rest;
      assert gs[1..] == rest;
    }
  }

  /** The whitespace piece at `i`, if there is one. */
  function GapAt(raw: Bytes, i: nat): (g: Option<Gap>)
    requires i <= |raw|
    ensures g.Some? ==> i + |GapText(g.value)| <= |raw| && raw[i..i + |GapText(g.value)|] == GapText(g.value)
    ensures g.None? ==> !StartsWithGap(raw[i..])
  {
    if i == |raw| then None
    else if raw[i] == ' ' then Some(Space)
    else if raw[i] == '\t' then Some(Tab)
    else if raw[i] == '\n' then Some(Lf)
    else if TomlString.IsCrLf(raw, i) then Some(CrLf)
    else None
  }

  lemma {:induction false} GapsOf(raw: Bytes, i: nat) returns (gs: seq<Gap>)
    requires i <= |raw|
    ensures GapsText(gs) == raw[i..TomlString.WhitespaceEnd(raw, i)]
    ensures !StartsWithGap(raw[TomlString.WhitespaceEnd(raw, i)..])
    decreases |raw| - i
  {
    hide GapsText, TomlString.WhitespaceEnd, StartsWithGap;
    var g := GapAt(raw, i);
    if g.None? {
      gs := [];
      NoGaps(gs);
      GapsOver(raw, i);
      assert raw[i..i] == "";
    } else {
      var j := i + |GapText(g.value)|;
      var rest := GapsOf(raw, j);
      gs := [g.value] + rest;
      FirstGap(gs);
      assert gs[1..] == rest;
      GapStep(raw, i, g.value);
      var e := TomlString.WhitespaceEnd(raw, i);
      assert raw[i..e] == raw[i..j] + raw[j..e];
    }
  }

  /** The decoder's step at `i` reads the piece `p`. */
  ghost predicate ReadAs(raw: Bytes, i: nat, multiline: bool, p: Piece)
    requires i < |raw| && TomlString.BodyStep(raw, i, multiline).Some?
  {
    var step := TomlString.BodyStep(raw, i, multiline).value;
    && Allowed(p, multiline) && Spelling(p, multiline) == raw[i..step.1] && Meaning(p) == step.0
    && (p.Fold? ==> !StartsWithGap(raw[step.1..]))
  }

  lemma FourParts(raw: Bytes, i: nat, j: nat, m: nat, k: nat)
    requires i < j <= m <= k <= |raw|
    ensures raw[i..k] == [raw[i]] + raw[i + 1..j] + raw[j..m] + raw[m..k]
  {
    assert raw[i..k] == raw[i..m] + raw[m..k];
    assert raw[i..m] == raw[i..j] + raw[j..m];
    assert raw[i..j] == [raw[i]] + raw[i + 1..j];
  }

  lemma FoldReads(raw: Bytes, i: nat, p: Piece, k: nat)
    requires i < |raw| && raw[i] == '\\' && TomlString.LineContinuation(raw, i + 1) == Some(k)
    requires p.Fold? && Allowed(p, true) && Spelling(p, true) == raw[i..k] && !StartsWithGap(raw[k..])
    ensures ReadAs(raw, i, true, p)
  {
    hide GapsText, StartsWithGap, TomlString.LineContinuation, TomlString.Escape;
  }

  /** Where a line-ending backslash leads, and the newline it passes. */
  lemma FoldPlaces(raw: Bytes, i: nat) returns (j: nat, end: Gap)
    requires i < |raw| && TomlString.LineContinuation(raw, i + 1).Some?
    ensures i + 1 <= j == BlankEnd(raw, i + 1) && end in {Lf, CrLf}
    ensures j + |GapText(end)| <= |raw| && raw[j..j + |GapText(end)|] == GapText(end)
    ensures TomlString.LineContinuation(raw, i + 1) == Some(TomlString.WhitespaceEnd(raw, j + |GapText(end)|))
  {
    hide TomlString.WhitespaceEnd;
    j := BlankEnd(raw, i + 1);
    end := if raw[j] == '\n' then Lf else CrLf;
    if end == CrLf { assert raw[j..j + 2] == [raw[j], raw[j + 1]]; }
  }

  lemma FoldOf(raw: Bytes, i: nat) returns (p: Piece)
    requires i < |raw| && raw[i] == '\\' && TomlString.LineContinuation(raw, i + 1).Some?
    ensures ReadAs(raw, i, true, p)
  {
    hide GapsText, StartsWithGap, TomlString.WhitespaceEnd, TomlString.LineContinuation, ReadAs, BlankEnd, GapText;
    var j, end := FoldPlaces(raw, i);
    var m := j + |GapText(end)|;
    var k := TomlString.WhitespaceEnd(raw, m);
    var blanks := BlanksOf(raw, i + 1);
    var gaps := GapsOf(raw, m);
    p := Fold(blanks, end, gaps);
    FourParts(raw, i, j, m, k);
    FoldReads(raw, i, p, k);
  }

  lemma HexOf(raw: Bytes, i: nat, n: nat, multiline: bool) returns (p: Piece)
    requires i + 1 < |raw| && n in {2, 4, 8} && TomlString.UnicodeEscape(raw, i + 2, n).Some?
    requires raw[i] == '\\' && raw[i + 1] == (if n == 2 then 'x' else if n == 4 then 'u' else 'U')
    ensures p.Hex? && Allowed(p, multiline) && Spelling(p, multiline) == raw[i..i + 2 + n]
    ensures TomlString.UnicodeEscape(raw, i + 2, n) == Some(Meaning(p))
  {
    hide TomlString.Utf8;
    var digits := raw[i + 2..i + 2 + n];
    var capitals := HexSpelled(digits);
    p := Hex(TomlString.HexNumber(digits).value, capitals);
    assert raw[i..i + 2 + n] == [raw[i], raw[i + 1]] + digits;
  }

  lemma EscapeOf(raw: Bytes, i: nat, multiline: bool) returns (p: Piece)
    requires i < |raw| && raw[i] == '\\' && TomlString.Escape(raw, i).Some?
    ensures var e := TomlString.Escape(raw, i).value;
      !p.Fold? && Allowed(p, multiline) && Spelling(p, multiline) == raw[i..i + e.1] && Meaning(p) == e.0
  {
    hide TomlString.UnicodeEscape, HexText, TomlString.Utf8;
    assert raw[i..i + 2] == [raw[i], raw[i + 1]];
    match raw[i + 1] {
      case 'b' => p := Short(8);
      case 't' => p := Short(9);
      case 'n' => p := Short(10);
      case 'f' => p := Short(12);
      case 'r' => p := Short(13);
      case 'e' => p := Short(27);
      case '"' => p := Short(34);
      case '\\' => p := Short(92);
      case 'x' => p := HexOf(raw, i, 2, multiline);
      case 'u' => p := HexOf(raw, i, 4, multiline);
      case _ => p := HexOf(raw, i, 8, multiline);
    }
  }

  lemma PieceOf(raw: Bytes, i: nat, multiline: bool) returns (p: Piece)
    requires i < |raw| && TomlString.BodyStep(raw, i, multiline).Some?
    ensures ReadAs(raw, i, multiline, p)
  {
    hide TomlString.LineContinuation, TomlString.Escape, HexText, TomlString.Utf8, GapsText;
    if raw[i] != '\\' {
      if multiline && TomlString.IsCrLf(raw, i) {
        p := Break;
        assert raw[i..i + 2] == [raw[i], raw[i + 1]];
      } else {
        p := Plain(raw[i]);
      }
    } else if multiline && TomlString.LineContinuation(raw, i + 1).Some? {
      p := FoldOf(raw, i);
    } else {
      p := EscapeOf(raw, i, multiline);
    }
  }

  lemma {:induction false} DecodedIsSpelled(raw: Bytes, i: nat, multiline: bool) returns (ps: seq<Piece>)
    requires i <= |raw| && TomlString.DecodeBody(raw, i, multiline).Some?
    ensures Spells(ps, raw[i..], TomlString.DecodeBody(raw, i, multiline).value, multiline)
    decreases |raw| - i
  {
    hide TomlString.BodyStep, Spelling, Meaning, StartsWithGap;
    ps := [];
    if i < |raw| {
      var p := PieceOf(raw, i, multiline);
      var step := TomlString.BodyStep(raw, i, multiline).value;
      var rest := DecodedIsSpelled(raw, step.1, multiline);
      ps := [p] + rest;
      assert ps[1..] == rest;
      var text, out := Spelling(p, multiline), TomlString.DecodeBody(raw, i, multiline).value;
      assert text <= raw[i..] && raw[i..][|text|..] == raw[step.1..];
      assert out == step.0 + TomlString.DecodeBody(raw, step.1, multiline).value;
      assert out[|step.0|..] == TomlString.DecodeBody(raw, step.1, multiline).value;
    }
  }

  /** The decoder gives `out` for `raw` exactly if some pieces spell `raw` and mean `out`. */
  lemma DecodesExactly(raw: Bytes, out: Bytes, multiline: bool)
    ensures TomlString.DecodeBody(raw, 0, multiline) == Some(out) <==> exists ps :: Spells(ps, raw, out, multiline)
  {
    hide Spells, TomlString.DecodeBody;
    assert raw[0..] == raw;
    if TomlString.DecodeBody(raw, 0, multiline) == Some(out) {
      var ps := DecodedIsSpelled(raw, 0, multiline);
      assert Spells(ps, raw, out, multiline);
    }
    if ps :| Spells(ps, raw, out, multiline) { SpellingDecodes(raw, 0, ps, out, multiline); }
  }

  // ---------------------------------------------------------------- texts of scalar values

  /** The scalar value a piece stands for by itself. */
  function RuneOf(p: Piece): Option<nat> {
    match p
    case Plain(c) => if c as int < 0x80 then Some(c as int) else None
    case Short(code) => Some(code)
    case Hex(r, _) => Some(r)
    case _ => None
  }

  predicate AllRunes(ps: seq<Piece>) { forall i | 0 <= i < |ps| :: RuneOf(ps[i]).Some? }

  function Runes(ps: seq<Piece>): seq<nat>
    requires AllRunes(ps)
  {
    seq(|ps|, i requires 0 <= i < |ps| => RuneOf(ps[i]).value)
  }

  lemma MeaningIsUtf8(p: Piece, multiline: bool)
    requires Allowed(p, multiline) && RuneOf(p).Some?
    ensures IsScalar(RuneOf(p).value) && Meaning(p) == TomlString.Utf8(RuneOf(p).value) && Meaning(p) != ""
  {}

  /** However the scalar values of a text are spelled, a UTF-8 reader of the decoded text gets them back. */
  lemma {:induction false} RunesDecode(ps: seq<Piece>, raw: Bytes, out: Bytes, multiline: bool)
    requires Spells(ps, raw, out, multiline) && AllRunes(ps)
    ensures ReadRunes(out) == Some(Runes(ps))
    decreases |ps|
  {
    hide TomlString.Utf8, Spelling, Meaning, StartsWithGap, ReadRune;
    if ps == [] {
      assert Runes(ps) == [];
    } else {
      var mean := Meaning(ps[0]);
      var rest := out[|mean|..];
      MeaningIsUtf8(ps[0], multiline);
      RuneRead(RuneOf(ps[0]).value, rest);
      assert out == mean + rest;
      RunesDecode(ps[1..], raw[|Spelling(ps[0], multiline)|..], rest, multiline);
      assert Runes(ps) == [RuneOf(ps[0]).value] + Runes(ps[1..]);
    }
  }

  /** A spelling of any ASCII byte: a letter where there is one, `x` and two digits for other controls. */
  function AsciiPiece(c: char): Piece
    requires c as int < 0x80
  {
    var code := c as int;
    if Letter(code).Some? then Short(code)
    else if code < 32 || code == 127 then Hex(code, [false, false])
    else Plain(c)
  }

  predicate Ascii(s: Bytes) { forall i | 0 <= i < |s| :: s[i] as int < 0x80 }

  /** Every ASCII text, control bytes included, escaped. */
  function Encoded(s: Bytes, multiline: bool): Bytes
    requires Ascii(s)
  {
    if s == "" then "" else
      AsciiAllowed(s[0], multiline);
      Spelling(AsciiPiece(s[0]), multiline) + Encoded(s[1..], multiline)
  }

  lemma AsciiAllowed(c: char, multiline: bool)
    requires c as int < 0x80
    ensures Allowed(AsciiPiece(c), multiline) && Meaning(AsciiPiece(c)) == [c] && !AsciiPiece(c).Fold?
  {
    assert Power16(2) == 256 by { assert Power16(1) == 16 * Power16(0); }
  }

  lemma {:induction false} EncodedSpells(s: Bytes, multiline: bool) returns (ps: seq<Piece>)
    requires Ascii(s)
    ensures Spells(ps, Encoded(s, multiline), s, multiline)
    decreases |s|
  {
    hide Spelling, Meaning, AsciiPiece, Allowed, StartsWithGap;
    ps := [];
    if s != "" {
      AsciiAllowed(s[0], multiline);
      var rest := EncodedSpells(s[1..], multiline);
      ps := [AsciiPiece(s[0])] + rest;
      var text := Spelling(AsciiPiece(s[0]), multiline);
      assert ps[1..] == rest && Encoded(s, multiline)[|text|..] == Encoded(s[1..], multiline);
      assert [s[0]] <= s;
    }
  }

  /** Escaping and decoding is the identity on every ASCII text, in both kinds of basic strings. */
  lemma AsciiRoundTrip(s: Bytes, multiline: bool)
    requires Ascii(s)
    ensures TomlString.DecodeBody(Encoded(s, multiline), 0, multiline) == Some(s)
  {
    hide TomlString.DecodeBody, Spells, Encoded;
    var ps := EncodedSpells(s, multiline);
    DecodesExactly(Encoded(s, multiline), s, multiline);
  }

  // ---------------------------------------------------------------- literal strings and delimiters

  /** Bytes that may stand in a literal string: like plain pieces, and the backslash. */
  predicate LiteralByte(c: char, multiline: bool) {
    c as int == 9 || (multiline && c as int == 10) || (32 <= c as int && c as int != 127)
  }

  predicate LiteralText(raw: Bytes, multiline: bool) {
    forall i | 0 <= i < |raw| ::
      LiteralByte(raw[i], multiline) || (multiline && raw[i] == '\r' && i + 1 < |raw| && raw[i + 1] == '\n')
  }

  lemma {:induction false} LiteralFrom(raw: Bytes, i: nat, multiline: bool)
    requires i <= |raw|
    ensures TomlString.ControlFree(raw, i, multiline) <==> LiteralText(raw[i..], multiline)
    decreases |raw| - i
  {
    if i < |raw| {
      var rest := raw[i..];
      if multiline && TomlString.IsCrLf(raw, i) {
        LiteralFrom(raw, i + 2, multiline);
        LiteralPair(rest);
        assert rest[2..] == raw[i + 2..];
      } else {
        LiteralFrom(raw, i + 1, multiline);
        LiteralHead(rest, multiline);
        assert rest[1..] == raw[i + 1..];
      }
    }
  }

  lemma LiteralHead(raw: Bytes, multiline: bool)
    requires raw != [] && !(multiline && TomlString.IsCrLf(raw, 0))
    ensures LiteralText(raw, multiline) <==> LiteralByte(raw[0], multiline) && LiteralText(raw[1..], multiline)
  {
    if LiteralText(raw, multiline) {
      forall i | 0 <= i < |raw[1..]| ensures raw[1..][i] == raw[i + 1] {}
    }
    if LiteralByte(raw[0], multiline) && LiteralText(raw[1..], multiline) {
      forall i | 0 < i < |raw| ensures raw[i] == raw[1..][i - 1] {}
    }
  }

  lemma LiteralPair(raw: Bytes)
    requires TomlString.IsCrLf(raw, 0)
    ensures LiteralText(raw, true) <==> LiteralText(raw[2..], true)
  {
    if LiteralText(raw, true) {
      forall i | 0 <= i < |raw[2..]| ensures raw[2..][i] == raw[i + 2] {}
    }
    if LiteralText(raw[2..], true) {
      forall i | 2 <= i < |raw| ensures raw[i] == raw[2..][i - 2] {}
    }
  }

  /** What stands between the quotes denotes: itself in a literal string, its decoding in a basic one. */
  function Body(body: Bytes, quote: char, multiline: bool): Option<Bytes> {
    if quote == '"' then TomlString.DecodeBody(body, 0, multiline)
    else if LiteralText(body, multiline) then Some(body) else None
  }

  /** A string of one line. */
  lemma OneLineString(body: Bytes, quote: char)
    requires quote in {'"', '\''} && (body == "" || body[0] != quote)
    ensures TomlString.ParseString([quote] + body + [quote]) == Body(body, quote, false)
  {
    hide TomlString.DecodeBody, LiteralText, TomlString.ControlFree;
    var raw := [quote] + body + [quote];
    assert raw[1..|raw| - 1] == body && raw[0] == quote;
    assert |raw| >= 3 ==> raw[..3][1] == raw[1] != quote && raw[..3][0] == raw[0];
    LiteralFrom(body, 0, false);
    assert body[0..] == body;
  }

  /** A string of several lines; a newline right behind the opening quotes is dropped. */
  lemma MultiLineString(lead: Bytes, body: Bytes, quote: char)
    requires quote in {'"', '\''} && lead in {"", "\n", "\r\n"}
    requires lead == "" && body != "" ==> body[0] != '\n' && !TomlString.IsCrLf(body, 0)
    ensures var q := [quote, quote, quote]; TomlString.ParseString(q + lead + body + q) == Body(body, quote, true)
  {
    hide TomlString.DecodeBody, LiteralText, TomlString.ControlFree;
    var q := [quote, quote, quote];
    var raw := q + lead + body + q;
    assert raw[..3] == q && raw[|raw| - 3..] == q;
    assert raw[3..|raw| - 3] == lead + body;
    assert raw[..3][0] == quote;
    TrimmedLead(lead, body);
    LiteralFrom(body, 0, true);
    assert body[0..] == body;
  }

  lemma TrimmedLead(lead: Bytes, body: Bytes)
    requires lead in {"", "\n", "\r\n"}
    requires lead == "" && body != "" ==> body[0] != '\n' && !TomlString.IsCrLf(body, 0)
    ensures TomlString.TrimInitialNewline(lead + body) == body
  {
    if lead == "" { assert lead + body == body; }
  }
}
