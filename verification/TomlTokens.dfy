/** What the tokens of pkg/toml/decoder.go are: the kind of every token of every run against its bytes,
    and printed headers, keys and values read back as tokens. */
module TomlTokens {
  import opened Text
  import opened TomlLexer
  import opened TomlDecoder
  import opened TomlDecoderRuns
  import TomlString
  import TomlKey
  import TomlEscapes
  import TomlDateTime

  // ---------------------------------------------------------------- kinds and bytes

  /** The kind that the bytes of a token decide; the rest are keys and scalar values. */
  function KindOf(text: Bytes): Option<Kind> {
    if text == "[" then Some(ArrayStart)
    else if text == "]" then Some(ArrayEnd)
    else if text == "{" then Some(InlineStart)
    else if text == "}" then Some(InlineEnd)
    else if "#" <= text then Some(Comment)
    else if "[[" <= text then Some(ArrayTableHeader)
    else if "[" <= text then Some(TableHeader)
    else None
  }

  predicate EndsWith(text: Bytes, end: Bytes) { |text| >= |end| && text[|text| - |end|..] == end }

  /** Printable, tab, or beyond ASCII. */
  predicate CommentByte(c: char) { c as int == 9 || (32 <= c as int && c as int != 127) }

  predicate EndsLine(b: Bytes, i: nat) { i == |b| || (i < |b| && b[i] == '\n') || TomlString.IsCrLf(b, i) }

  predicate Ordinary(c: char) { c !in {'[', ']', '{', '}', '#', '=', ',', ' ', '\t', '\n', '\r'} }

  /** What its kind says of a token's bytes. */
  predicate Fits(src: Source, t: Token) {
    && t.start < t.end <= |src.buf|
    && var text := src.buf[t.start..t.end];
    match t.kind
    case ArrayStart => text == "["
    case ArrayEnd => text == "]"
    case InlineStart => text == "{"
    case InlineEnd => text == "}"
    case Comment =>
      text[0] == '#' && EndsLine(src.buf, t.end) && forall i | 0 <= i < |text| :: CommentByte(text[i])
    case TableHeader => |text| > 1 && text[0] == '[' && text[1] != '[' && EndsWith(text, "]")
    case ArrayTableHeader => |text| >= 4 && "[[" <= text && EndsWith(text, "]]")
    case Key =>
      && Ordinary(text[0]) && ValidKey(text) && |text| <= src.maxKeyLength
      && var e := BlankEnd(src.buf, t.end); e < |src.buf| && src.buf[e] == '='
    case Value =>
      && Ordinary(text[0])
      && if IsQuote(text[0]) then TomlString.ValidString(text) && |text| <= src.maxStringLength else src.classify(text)
  }

  /** Kind and bytes decide each other. */
  lemma KindDecided(src: Source, t: Token)
    requires Fits(src, t)
    ensures KindOf(src.buf[t.start..t.end]) == if t.kind in {Key, Value} then None else Some(t.kind)
  {
    var text := src.buf[t.start..t.end];
    assert "[[" <= text <==> |text| >= 2 && text[0] == '[' && text[1] == '[' by { TwoBytes(text); }
  }

  lemma TwoBytes(text: Bytes)
    ensures "[[" <= text <==> |text| >= 2 && text[0] == '[' && text[1] == '['
  {
    if |text| >= 2 { assert text[..2] == [text[0], text[1]]; }
  }

  predicate ReadFits(src: Source, r: Read) { r.out.Got? ==> Fits(src, r.out.token) }

  lemma {:induction false} CommentBytes(b: Bytes, i: nat)
    requires i <= |b|
    ensures forall k | i <= k < CommentBodyEnd(b, i) :: CommentByte(b[k])
    decreases |b| - i
  {
    if i < CommentBodyEnd(b, i) { CommentBytes(b, i + 1); }
  }

  lemma CommentFits(src: Source, s: State)
    requires s.off < |src.buf| && src.buf[s.off] == '#'
    ensures ReadFits(src, ReadComment(src, s))
  {
    CommentBytes(src.buf, s.off + 1);
  }

  lemma KeyFits(src: Source, s: State)
    requires s.off < |src.buf| && !IsBlank(src.buf[s.off]) && src.buf[s.off] !in {'[', ']', '{', '}', ','}
    ensures ReadFits(src, ReadKey(src, s))
  {
    hide ScanKey, Advance, ValidKey;
    if ReadKey(src, s).out.Got? { ScannedKey(src, s.off); }
  }

  lemma ScannedKey(src: Source, start: nat)
    requires start < |src.buf| && ScanKey(src, start).KeyAt?
    ensures var e, text := ScanKey(src, start).keyEnd, src.buf[start..ScanKey(src, start).keyEnd];
      && src.buf[start] != '=' && src.buf[start] != '#' && !IsNewline(src.buf[start])
      && ValidKey(text) && |text| <= src.maxKeyLength
      && BlankEnd(src.buf, e) < |src.buf| && src.buf[BlankEnd(src.buf, e)] == '='
  {
    hide KeyEnd, ValidKey, BlankEnd, TrimRightBlanks;
    KeyEndFirst(src.buf, start);
    var i := KeyEnd(src.buf, start).end;
    var key := TrimRightBlanks(src.buf[start..i]);
    assert src.buf[start..start + |key|] == key;
    BlanksTrimmed(src.buf, start, i);
  }

  lemma KeyEndFirst(b: Bytes, i: nat)
    requires i < |b| && KeyEnd(b, i).End? && KeyEnd(b, i).end != i
    ensures b[i] != '=' && b[i] != '#' && !IsNewline(b[i])
  {}

  /** The blanks cut off a key are followed by what follows the key. */
  lemma {:induction false} BlanksTrimmed(b: Bytes, start: nat, end: nat)
    requires start <= end <= |b|
    ensures BlankEnd(b, start + |TrimRightBlanks(b[start..end])|) == BlankEnd(b, end)
    decreases end
  {
    hide BlankEnd, TrimRightBlanks;
    var key := b[start..end];
    TrimStep(key);
    if key != [] && IsBlank(key[|key| - 1]) {
      assert key[..|key| - 1] == b[start..end - 1];
      BlanksTrimmed(b, start, end - 1);
      BlankStep(b, end - 1);
    }
  }

  lemma TrimStep(b: Bytes)
    ensures TrimRightBlanks(b) == if b != [] && IsBlank(b[|b| - 1]) then TrimRightBlanks(b[..|b| - 1]) else b
  {}

  lemma BlankStep(b: Bytes, i: nat)
    requires i < |b| && IsBlank(b[i])
    ensures BlankEnd(b, i) == BlankEnd(b, i + 1)
  {}

  lemma ScalarFits(src: Source, s: State)
    requires s.off < |src.buf| && src.buf[s.off] !in {'[', '{'}
    ensures ReadFits(src, ReadScalar(src, s))
  {
    hide ScanBareValue;
    if ReadScalar(src, s).out.Got? {
      var e := ScalarEnd(src, s.off).end;
      if IsQuote(src.buf[s.off]) { StringValid(src.buf, s.off); }
    }
  }

  lemma StringValid(b: Bytes, off: nat)
    requires off < |b| && IsQuote(b[off]) && ScanString(b, off).End?
    ensures TomlString.ValidString(b[off..ScanString(b, off).end])
  {
    hide TomlString.ValidString;
  }

  lemma {:induction false} HeaderCloses(b: Bytes, i: nat, isArray: bool)
    requires HeaderEnd(b, i, isArray).End?
    ensures var e := HeaderEnd(b, i, isArray).end;
      b[e] == ']' && (isArray ==> b[e + 1] == ']')
    decreases |b| - i
  {
    if IsQuote(b[i]) { HeaderCloses(b, ScanQuoted(b, i).end, isArray); }
    else if !(b[i] == ']' && (!isArray || (i + 1 < |b| && b[i + 1] == ']'))) { HeaderCloses(b, i + 1, isArray); }
  }

  lemma HeaderFits(src: Source, s: State)
    requires s.off < |src.buf| && src.buf[s.off] == '['
    ensures ReadFits(src, ReadHeader(src, s, s.off + 1 < |src.buf| && src.buf[s.off + 1] == '['))
  {
    hide HeaderKey, HeaderEnd, Advance, Fits;
    var b, isArray := src.buf, s.off + 1 < |src.buf| && src.buf[s.off + 1] == '[';
    var r := ReadHeader(src, s, isArray);
    if r.out.Got? { HeaderText(src, r.out.token, isArray); }
  }

  lemma HeaderText(src: Source, t: Token, isArray: bool)
    requires t.start < |src.buf| && src.buf[t.start] == '['
    requires isArray <==> t.start + 1 < |src.buf| && src.buf[t.start + 1] == '['
    requires var w := if isArray then 2 else 1; w <= t.end && HeaderEnd(src.buf, t.start + w, isArray) == End(t.end - w)
    requires t.kind == if isArray then ArrayTableHeader else TableHeader
    ensures Fits(src, t)
  {
    hide HeaderEnd;
    var b, w := src.buf, if isArray then 2 else 1;
    HeaderCloses(b, t.start + w, isArray);
    var text := b[t.start..t.end];
    assert text[0] == b[t.start] && text[1] == b[t.start + 1];
    if isArray { assert text[|text| - 2..] == "]]" && text[..2] == "[["; } else { assert text[|text| - 1..] == "]"; }
  }

  lemma BracketFits(src: Source, s: State)
    requires s.off < |src.buf|
    ensures var c, b := src.buf[s.off], src.buf[s.off..s.off + 1]; b == [c]
  {}

  lemma DispatchFits(src: Source, s: State)
    requires s.off < |src.buf| && !IsBlank(src.buf[s.off])
    ensures DispatchToken(src, s).Done? ==> ReadFits(src, DispatchToken(src, s).read)
  {
    hide ReadKey, ReadScalar, ReadComment, AfterValue, Advance;
    var c := src.buf[s.off];
    BracketFits(src, s);
    if c == '#' {
      CommentFits(src, s);
    } else if c !in {'[', ']', '{', '}', '=', ','} {
      KeyFits(src, s);
      ScalarFits(src, s);
    }
  }

  /** What is neither bracket, header nor comment is a value if and only if one is expected. */
  lemma IterateKind(src: Source, s: State)
    requires s.off < |src.buf| && Iterate(src, s).Done? && Iterate(src, s).read.out.Got?
    ensures var t := Iterate(src, s).read.out.token;
      t.start == s.off && (t.kind in {Key, Value} ==> (t.kind == Value <==> s.expectingValue))
  {
    hide ScanKey, ScalarEnd, ScanComment, HeaderEnd, HeaderKey;
  }

  lemma IterateFits(src: Source, s: State)
    requires s.off < |src.buf| && !IsBlank(src.buf[s.off])
    ensures Iterate(src, s).Done? ==> ReadFits(src, Iterate(src, s).read)
  {
    hide DispatchToken, ReadHeader, ReadComment, Fits;
    var c := src.buf[s.off];
    if s.needLineEnd {
      if c == '#' { CommentFits(src, s); }
    } else if s.atLineStart && !s.expectingValue && c == '[' {
      HeaderFits(src, s);
    } else {
      DispatchFits(src, s);
    }
  }

  lemma {:induction false} LoopFits(src: Source, s: State)
    requires InBounds(src, s)
    ensures ReadFits(src, Loop(src, s))
    decreases |src.buf| - s.off
  {
    hide Iterate, Fits, SkipSpaces;
    var t := SkipSpaces(src, s);
    if t.off < |src.buf| {
      SkipSpacesStop(src, s);
      IterateFits(src, t);
      if Iterate(src, t).Again? { LoopFits(src, Iterate(src, t).st); }
    }
  }

  /** The kind of every token of every run fits its bytes. */
  lemma {:induction false} StreamFits(src: Source, s: State)
    requires InBounds(src, s) && FlagInv(s)
    ensures forall i | 0 <= i < |Stream(src, s).0| :: Fits(src, Stream(src, s).0[i])
    decreases |src.buf| - s.off
  {
    hide Fits, Loop;
    var r := ReadToken(src, s);
    if !s.failed { LoopFits(src, s); }
    if r.out.Got? {
      LoopOk(src, s);
      StreamFits(src, r.st);
    }
  }

  // ---------------------------------------------------------------- printed keys under the scanners

  predicate PrintablePath(path: seq<Bytes>) {
    path != [] && forall i | 0 <= i < |path| :: TomlString.Printable(path[i])
  }

  /** A printed segment is followed by something that does not extend it. */
  predicate Closed(rest: Bytes) { rest == [] || !(IsQuote(rest[0]) || IsBareKeyChar(rest[0])) }

  lemma {:induction false} EscapedBodyEnd(b: Bytes, i: nat, k: Bytes, rest: Bytes)
    requires i <= |b| && b[i..] == TomlString.Escaped(k) + ("\"" + rest) && TomlString.Printable(k)
    ensures QuotedBodyEnd(b, '"', i) == Some(i + |TomlString.Escaped(k)| + 1)
    ensures BasicEnd(b, i) == End(i + |TomlString.Escaped(k)| + 1)
    decreases |k|
  {
    hide QuotedBodyEnd, BasicEnd;
    if k == [] {
      assert b[i] == b[i..][0] == '"';
      ClosingQuote(b, i);
    } else {
      var head, tail := TomlString.EscapedByte(k[0]), TomlString.Escaped(k[1..]);
      assert b[i..] == head + (tail + ("\"" + rest));
      TomlString.SplitAt(b, i, head, tail + ("\"" + rest));
      EscapedStep(b, i, k[0]);
      EscapedBodyEnd(b, i + |head|, k[1..], rest);
    }
  }

  lemma ClosingQuote(b: Bytes, i: nat)
    requires i < |b| && b[i] == '"'
    ensures QuotedBodyEnd(b, '"', i) == Some(i + 1) && BasicEnd(b, i) == End(i + 1)
  {}

  lemma EscapedStep(b: Bytes, i: nat, c: char)
    requires var head := TomlString.EscapedByte(c); i + |head| <= |b| && b[i..i + |head|] == head
    requires IsPrintable(c)
    ensures var j := i + |TomlString.EscapedByte(c)|;
      QuotedBodyEnd(b, '"', i) == QuotedBodyEnd(b, '"', j) && BasicEnd(b, i) == BasicEnd(b, j)
  {
    var head := TomlString.EscapedByte(c);
    assert b[i] == b[i..i + |head|][0] == head[0];
  }

  /** Both quote scanners find the end of a printed string. */
  lemma QuotedScanned(b: Bytes, i: nat, k: Bytes, rest: Bytes)
    requires i <= |b| && b[i..] == TomlString.Quoted(k) + rest && TomlString.Printable(k)
    requires rest == [] || rest[0] != '"'
    ensures i < |b| && b[i] == '"'
    ensures ScanQuoted(b, i) == End(i + |TomlString.Quoted(k)|) == ScanString(b, i)
  {
    hide TomlString.Escaped, TomlString.ParseString;
    var q, body := TomlString.Quoted(k), TomlString.Escaped(k);
    assert b[i..] == "\"" + (body + ("\"" + rest));
    TomlString.SplitAt(b, i, "\"", body + ("\"" + rest));
    assert b[i] == b[i..i + 1][0];
    EscapedBodyEnd(b, i + 1, k, rest);
    TomlString.SplitAt(b, i, q, rest);
    TomlString.QuotedRoundTrip(k);
    NoTriple(b, i, k, rest);
  }

  lemma NoTriple(b: Bytes, i: nat, k: Bytes, rest: Bytes)
    requires i < |b| && b[i..] == TomlString.Quoted(k) + rest && (rest == [] || rest[0] != '"')
    ensures !(i + 2 < |b| && b[i + 1] == '"' && b[i + 2] == '"')
  {
    if i + 2 < |b| {
      assert b[i + 1] == b[i..][1] && b[i + 2] == b[i..][2];
      if k == [] {
        assert TomlString.Quoted(k) == "\"\"";
      } else {
        assert TomlString.Escaped(k)[0] == TomlString.EscapedByte(k[0])[0];
        assert b[i..][1] == TomlString.Escaped(k)[0];
      }
    }
  }

  lemma {:induction false} BareSkipped(b: Bytes, i: nat, k: Bytes, rest: Bytes, isArray: bool)
    requires i <= |b| && b[i..] == k + rest && forall j | 0 <= j < |k| :: IsBareKeyChar(k[j])
    ensures HeaderEnd(b, i, isArray) == HeaderEnd(b, i + |k|, isArray) && KeyEnd(b, i) == KeyEnd(b, i + |k|)
    decreases |k|
  {
    if k != [] {
      assert b[i] == b[i..][0] == k[0];
      assert b[i + 1..] == b[i..][1..] == k[1..] + rest;
      BareSkipped(b, i + 1, k[1..], rest, isArray);
    }
  }

  lemma {:induction false} BareFound(b: Bytes, i: nat, end: nat, k: Bytes)
    requires i <= end <= |b| && i + |k| <= end && b[i..i + |k|] == k && forall j | 0 <= j < |k| :: IsBareKeyChar(k[j])
    requires i + |k| < end ==> !IsBareKeyChar(b[i + |k|])
    ensures BareKeyEnd(b[..end], i) == i + |k|
    decreases |k|
  {
    if k != [] {
      assert b[i] == b[i..i + |k|][0] == k[0];
      assert b[i + 1..i + |k|] == b[i..i + |k|][1..] == k[1..];
      BareFound(b, i + 1, end, k[1..]);
    }
  }

  /** Every scanner of keys passes over a printed segment. */
  lemma SegmentSkipped(b: Bytes, i: nat, k: Bytes, rest: Bytes, isArray: bool)
    requires i <= |b| && b[i..] == TomlKey.FormatKey(k) + rest && TomlString.Printable(k) && Closed(rest)
    ensures var j := i + |TomlKey.FormatKey(k)|;
      HeaderEnd(b, i, isArray) == HeaderEnd(b, j, isArray) && KeyEnd(b, i) == KeyEnd(b, j)
  {
    hide TomlString.Quoted, TomlString.Printable, HeaderEnd, KeyEnd, ScanQuoted, ScanString;
    if TomlKey.IsSimpleBareKey(k) {
      BareSkipped(b, i, k, rest, isArray);
    } else {
      QuotedScanned(b, i, k, rest);
      QuotedSkipped(b, i, isArray);
    }
  }

  lemma QuotedSkipped(b: Bytes, i: nat, isArray: bool)
    requires i < |b| && b[i] == '"' && ScanQuoted(b, i).End?
    ensures var j := ScanQuoted(b, i).end;
      HeaderEnd(b, i, isArray) == HeaderEnd(b, j, isArray) && KeyEnd(b, i) == KeyEnd(b, j)
  {
    hide ScanQuoted;
  }

  lemma SegmentAccepted(b: Bytes, i: nat, end: nat, k: Bytes, rest: Bytes)
    requires i <= |b| && b[i..] == TomlKey.FormatKey(k) + rest && TomlString.Printable(k) && Closed(rest)
    requires i + |TomlKey.FormatKey(k)| <= end <= |b|
    ensures HeaderKey(b, i, end, true) == HeaderKey(b, i + |TomlKey.FormatKey(k)|, end, false)
  {
    hide TomlString.Quoted, TomlString.Printable, ScanQuoted, HeaderKey, BareKeyEnd;
    var text := TomlKey.FormatKey(k);
    TomlString.SplitAt(b, i, text, rest);
    if i + |text| < |b| { assert b[i + |text|] == rest[0]; }
    if TomlKey.IsSimpleBareKey(k) {
      assert b[i] == b[i..i + |text|][0] == k[0];
      BareFound(b, i, end, k);
      BareAccepted(b, i, end);
    } else {
      QuotedScanned(b, i, k, rest);
      QuotedAccepted(b, i, end);
    }
  }

  lemma BareAccepted(b: Bytes, i: nat, end: nat)
    requires i < end <= |b| && IsBareKeyChar(b[i]) && BareKeyEnd(b[..end], i) > i
    ensures HeaderKey(b, i, end, true) == HeaderKey(b, BareKeyEnd(b[..end], i), end, false)
  {
    hide BareKeyEnd;
    assert BlankEnd(b[..end], i) == i;
  }

  lemma QuotedAccepted(b: Bytes, i: nat, end: nat)
    requires i < end <= |b| && b[i] == '"' && ScanQuoted(b, i).End? && ScanQuoted(b, i).end <= end
    ensures HeaderKey(b, i, end, true) == HeaderKey(b, ScanQuoted(b, i).end, end, false)
  {
    hide ScanQuoted;
    assert BlankEnd(b[..end], i) == i;
  }

  lemma Joined(path: seq<Bytes>)
    requires path != []
    ensures var head := TomlKey.FormatKey(path[0]);
      TomlKey.JoinKeys(path) == if |path| == 1 then head else head + ("." + TomlKey.JoinKeys(path[1..]))
  {
    hide TomlKey.FormatKey;
  }

  /** `scanHeaderEnd` stops right behind a printed path. */
  lemma {:induction false} PathEnds(b: Bytes, i: nat, path: seq<Bytes>, isArray: bool, rest: Bytes)
    requires PrintablePath(path) && i <= |b| && b[i..] == TomlKey.JoinKeys(path) + rest && Closed(rest)
    ensures HeaderEnd(b, i, isArray) == HeaderEnd(b, i + |TomlKey.JoinKeys(path)|, isArray)
    ensures KeyEnd(b, i) == KeyEnd(b, i + |TomlKey.JoinKeys(path)|)
    decreases |path|
  {
    hide TomlKey.FormatKey, TomlKey.JoinKeys, HeaderEnd, KeyEnd;
    var head := TomlKey.FormatKey(path[0]);
    Joined(path);
    if |path| == 1 {
      SegmentSkipped(b, i, path[0], rest, isArray);
    } else {
      var tail := TomlKey.JoinKeys(path[1..]);
      Regroup(head, "." + tail, rest);
      Regroup(".", tail, rest);
      assert b[i..] == head + ("." + (tail + rest));
      TomlString.SplitAt(b, i, head, "." + (tail + rest));
      SegmentSkipped(b, i, path[0], "." + (tail + rest), isArray);
      var j := i + |head|;
      TomlString.SplitAt(b, j, ".", tail + rest);
      assert b[j] == b[j..j + 1][0];
      DotSkipped(b, j, isArray);
      PathEnds(b, j + 1, path[1..], isArray, rest);
    }
  }

  lemma DotSkipped(b: Bytes, i: nat, isArray: bool)
    requires i < |b| && b[i] == '.'
    ensures HeaderEnd(b, i, isArray) == HeaderEnd(b, i + 1, isArray) && KeyEnd(b, i) == KeyEnd(b, i + 1)
  {}

  /** `validateHeaderKey` accepts a printed path. */
  lemma {:induction false} PathAccepted(b: Bytes, i: nat, end: nat, path: seq<Bytes>, rest: Bytes)
    requires PrintablePath(path) && i <= |b| && b[i..] == TomlKey.JoinKeys(path) + rest && Closed(rest)
    requires end == i + |TomlKey.JoinKeys(path)| <= |b|
    ensures HeaderKey(b, i, end, true) == End(end)
    decreases |path|
  {
    hide TomlKey.FormatKey, TomlKey.JoinKeys, HeaderKey;
    var head := TomlKey.FormatKey(path[0]);
    Joined(path);
    if |path| == 1 {
      SegmentAccepted(b, i, end, path[0], rest);
      KeyOver(b, end);
    } else {
      var tail := TomlKey.JoinKeys(path[1..]);
      Regroup(head, "." + tail, rest);
      Regroup(".", tail, rest);
      assert b[i..] == head + ("." + (tail + rest));
      TomlString.SplitAt(b, i, head, "." + (tail + rest));
      var j := i + |head|;
      SegmentAccepted(b, i, end, path[0], "." + (tail + rest));
      TomlString.SplitAt(b, j, ".", tail + rest);
      assert b[j] == b[j..j + 1][0];
      DotAccepted(b, j, end);
      PathAccepted(b, j + 1, end, path[1..], rest);
    }
  }

  lemma KeyOver(b: Bytes, end: nat)
    requires end <= |b|
    ensures HeaderKey(b, end, end, false) == End(end)
  {}

  lemma DotAccepted(b: Bytes, i: nat, end: nat)
    requires i < end <= |b| && b[i] == '.'
    ensures HeaderKey(b, i, end, false) == HeaderKey(b, i + 1, end, true)
  {
    assert BlankEnd(b[..end], i) == i;
  }

  // ---------------------------------------------------------------- printed headers as tokens

  function Open(isArray: bool): Bytes { if isArray then "[[" else "[" }

  function Close(isArray: bool): Bytes { if isArray then "]]" else "]" }

  lemma ThreeParts(b: Bytes, off: nat, x: Bytes, y: Bytes, z: Bytes)
    requires off <= |b| && b[off..] == x + (y + z)
    ensures var i, j := off + |x|, off + |x| + |y|;
      j <= |b| && b[off..i] == x && b[i..] == y + z && b[i..j] == y && b[j..] == z
  {
    TomlString.SplitAt(b, off, x, y + z);
    TomlString.SplitAt(b, off + |x|, y, z);
  }

  lemma PathClosed(b: Bytes, i: nat, path: seq<Bytes>, isArray: bool, rest: Bytes)
    requires PrintablePath(path) && i <= |b| && b[i..] == TomlKey.JoinKeys(path) + (Close(isArray) + rest)
    ensures var j := i + |TomlKey.JoinKeys(path)|;
      j + |Open(isArray)| <= |b| && HeaderEnd(b, i, isArray) == End(j) && HeaderKey(b, i, j, true) == End(j)
  {
    hide TomlKey.JoinKeys, HeaderKey, HeaderEnd, KeyEnd, Open, Close, Closed, PrintablePath;
    var j := i + |TomlKey.JoinKeys(path)|;
    assert j <= |b| && b[j..] == Close(isArray) + rest by {
      TomlString.SplitAt(b, i, TomlKey.JoinKeys(path), Close(isArray) + rest);
    }
    CloseFound(b, j, isArray, rest);
    PathEnds(b, i, path, isArray, Close(isArray) + rest);
    PathAccepted(b, i, j, path, Close(isArray) + rest);
  }

  lemma CloseFound(b: Bytes, j: nat, isArray: bool, rest: Bytes)
    requires j <= |b| && b[j..] == Close(isArray) + rest
    ensures Closed(Close(isArray) + rest) && j + |Open(isArray)| <= |b| && HeaderEnd(b, j, isArray) == End(j)
  {
    assert b[j] == b[j..][0];
    if isArray { assert b[j + 1] == b[j..][1]; }
  }

  /** At a line start where a header may stand. */
  predicate AtHeader(src: Source, s: State) {
    InBounds(src, s) && !s.failed && s.atLineStart && !s.needLineEnd && !s.expectingValue
  }

  /** The token `r` read at `s` is the header of `path`. */
  predicate IsHeader(src: Source, s: State, r: Read, path: seq<Bytes>, isArray: bool) {
    && r.out.Got?
    && var t := r.out.token;
    && t.kind == (if isArray then ArrayTableHeader else TableHeader)
    && t.start == s.off && s.off <= t.end == r.st.off <= |src.buf|
    && var text := src.buf[t.start..t.end];
    text + "\n" == TomlKey.Header(path, isArray)
    && TomlKey.ParseDottedKey(TomlKey.TrimHeaderKey(text, isArray)) == Some(path)
  }

  /** A printed header is read back as one token of its kind, whose key parses to the path, unless the
      key is longer than the cap. */
  lemma HeaderToken(src: Source, s: State, path: seq<Bytes>, isArray: bool, rest: Bytes)
    requires AtHeader(src, s) && PrintablePath(path) && src.buf[s.off..] == TomlKey.Header(path, isArray) + rest
    ensures var r := ReadToken(src, s);
      if |TomlKey.JoinKeys(path)| > src.maxKeyLength then r.out == Error && r.st.failed
      else IsHeader(src, s, r, path, isArray)
  {
    hide TomlKey.JoinKeys, Loop, Open, Close, IsHeader, TomlKey.Header, PrintablePath;
    var open, key, close := Open(isArray), TomlKey.JoinKeys(path), Close(isArray);
    HeaderParts(path, isArray, rest);
    HeaderLoop(src, s, path, isArray, "\n" + rest);
    if |key| <= src.maxKeyLength {
      TomlString.SplitAt(src.buf, s.off, open + key + close, "\n" + rest);
      HeaderRead(src, s, ReadToken(src, s), path, isArray);
    }
  }

  lemma HeaderLoop(src: Source, s: State, path: seq<Bytes>, isArray: bool, rest: Bytes)
    requires AtHeader(src, s) && PrintablePath(path)
    requires src.buf[s.off..] == Open(isArray) + (TomlKey.JoinKeys(path) + (Close(isArray) + rest))
    ensures var n, r := |Open(isArray)| + |TomlKey.JoinKeys(path)| + |Close(isArray)|, Loop(src, s);
      s.off + n <= |src.buf|
      && if |TomlKey.JoinKeys(path)| > src.maxKeyLength then r.out == Error && r.st.failed
         else
           && r.out == MakeToken(s, if isArray then ArrayTableHeader else TableHeader, s.off + n)
           && r.st.off == s.off + n
  {
    hide TomlKey.JoinKeys, HeaderEnd, HeaderKey, Loop, ReadHeader, Open, Close, PrintablePath;
    var b, open, key, close := src.buf, Open(isArray), TomlKey.JoinKeys(path), Close(isArray);
    ThreeParts(b, s.off, open, key, close + rest);
    PathClosed(b, s.off + |open|, path, isArray, rest);
    HeaderStart(b, s.off, path, isArray);
    HeaderDispatched(src, s, isArray);
    HeaderResult(src, s, isArray, s.off + |open| + |key|);
  }

  lemma HeaderRead(src: Source, s: State, r: Read, path: seq<Bytes>, isArray: bool)
    requires PrintablePath(path) && r.out.Got?
    requires r.out.token.kind == if isArray then ArrayTableHeader else TableHeader
    requires r.out.token.start == s.off && s.off <= r.out.token.end == r.st.off <= |src.buf|
    requires src.buf[s.off..r.st.off] == Open(isArray) + TomlKey.JoinKeys(path) + Close(isArray)
    ensures IsHeader(src, s, r, path, isArray)
  {
    hide TomlKey.JoinKeys, TomlKey.ParseDottedKey, TomlKey.TrimHeaderKey;
    HeaderParts(path, isArray, "");
    TrimmedHeader(path, isArray);
  }

  lemma HeaderDispatched(src: Source, s: State, isArray: bool)
    requires AtHeader(src, s) && s.off < |src.buf| && src.buf[s.off] == '['
    requires s.off + 1 < |src.buf| && src.buf[s.off + 1] == '[' <==> isArray
    ensures Loop(src, s) == ReadHeader(src, s, isArray)
  {
    hide ReadHeader, DispatchToken, SkipSpaces;
    NoSpaceAt(src, s);
  }

  lemma HeaderResult(src: Source, s: State, isArray: bool, j: nat)
    requires var i := s.off + |Open(isArray)|;
      && i <= j && j + |Open(isArray)| <= |src.buf|
      && HeaderEnd(src.buf, i, isArray) == End(j) && HeaderKey(src.buf, i, j, true) == End(j)
    ensures var i, r := s.off + |Open(isArray)|, ReadHeader(src, s, isArray);
      if j - i > src.maxKeyLength then r.out == Error && r.st.failed
      else
        && r.out == MakeToken(s, if isArray then ArrayTableHeader else TableHeader, j + |Open(isArray)|)
        && r.st.off == j + |Open(isArray)| == j + |Close(isArray)|
  {
    hide HeaderEnd, HeaderKey, AdvancePosition;
  }

  lemma HeaderParts(path: seq<Bytes>, isArray: bool, rest: Bytes)
    ensures var open, key, close := Open(isArray), TomlKey.JoinKeys(path), Close(isArray);
      && TomlKey.Header(path, isArray) == open + key + close + "\n"
      && TomlKey.Header(path, isArray) + rest == open + (key + (close + ("\n" + rest)))
      && TomlKey.Header(path, isArray) + rest == open + key + close + ("\n" + rest)
  {
    hide TomlKey.JoinKeys;
    var open, key, close := Open(isArray), TomlKey.JoinKeys(path), Close(isArray);
    assert "]]\n" == "]]" + "\n" && "]\n" == "]" + "\n";
    assert TomlKey.Header(path, isArray) == open + key + close + "\n";
    Regroup(open + key + close, "\n", rest);
    Regroup(open + key, close, "\n" + rest);
    Regroup(open, key, close + ("\n" + rest));
  }

  lemma HeaderStart(b: Bytes, off: nat, path: seq<Bytes>, isArray: bool)
    requires PrintablePath(path) && off + |Open(isArray)| + |TomlKey.JoinKeys(path)| <= |b|
    requires b[off..off + |Open(isArray)|] == Open(isArray)
    requires b[off + |Open(isArray)|..off + |Open(isArray)| + |TomlKey.JoinKeys(path)|] == TomlKey.JoinKeys(path)
    ensures off < |b| && b[off] == '[' && (off + 1 < |b| && b[off + 1] == '[' <==> isArray)
  {
    hide TomlKey.JoinKeys;
    assert b[off] == Open(isArray)[0];
    KeyStart(path);
    if isArray {
      assert b[off + 1] == Open(isArray)[1];
    } else {
      assert b[off + 1] == TomlKey.JoinKeys(path)[0];
    }
  }

  lemma KeyStart(path: seq<Bytes>)
    requires PrintablePath(path)
    ensures var key := TomlKey.JoinKeys(path); key != [] && (key[0] == '"' || IsBareKeyChar(key[0]))
  {
    var head := TomlKey.FormatKey(path[0]);
    assert head != [] && (head[0] == '"' || IsBareKeyChar(head[0]));
    assert head <= TomlKey.JoinKeys(path);
  }

  lemma NoSpaceAt(src: Source, s: State)
    requires s.off < |src.buf| && !IsBlank(src.buf[s.off]) && !IsNewline(src.buf[s.off])
    ensures SkipSpaces(src, s) == s
  {}

  lemma TrimmedHeader(path: seq<Bytes>, isArray: bool)
    requires PrintablePath(path)
    ensures var text := Open(isArray) + TomlKey.JoinKeys(path) + Close(isArray);
      TomlKey.ParseDottedKey(TomlKey.TrimHeaderKey(text, isArray)) == Some(path)
  {
    hide TomlKey.JoinKeys, TomlKey.ParseDottedKey, TomlKey.TrimSpace;
    var key := TomlKey.JoinKeys(path);
    var text := Open(isArray) + key + Close(isArray);
    TomlKey.DottedKeyRoundTrip(path);
    TomlKey.JoinRoundTrip(path);
    TomlKey.TrimTight(text);
    TomlKey.TrimTight(key);
    assert key == if isArray then text[2..|text| - 2] else text[1..|text| - 1];
  }

  // ---------------------------------------------------------------- printed keys and values as tokens

  /** Where a key may stand. */
  predicate AtKey(src: Source, s: State) {
    && InBounds(src, s) && !s.failed && !s.needLineEnd && !s.expectingValue
    && (s.needSeparator ==> s.stack == [])
  }

  lemma KeyDispatched(src: Source, s: State)
    requires AtKey(src, s) && s.off < |src.buf| && (src.buf[s.off] == '"' || IsBareKeyChar(src.buf[s.off]))
    ensures Loop(src, s) == ReadKey(src, s)
  {
    hide ReadKey, SkipSpaces;
    NoSpaceAt(src, s);
  }

  lemma KeyScanned(src: Source, start: nat, path: seq<Bytes>, rest: Bytes)
    requires PrintablePath(path) && start < |src.buf| && src.buf[start..] == TomlKey.JoinKeys(path) + (" = " + rest)
    ensures var n := |TomlKey.JoinKeys(path)|;
      start + n + 2 <= |src.buf|
      && ScanKey(src, start) == if n > src.maxKeyLength then BadKey(true) else KeyAt(start + n, start + n + 2)
  {
    hide TomlKey.JoinKeys, PrintablePath, HeaderEnd, KeyEnd, ScanKey;
    var b, key := src.buf, TomlKey.JoinKeys(path);
    TomlString.SplitAt(b, start, key, " = " + rest);
    var i := start + |key|;
    assert b[i] == b[i..][0] == ' ' && b[i + 1] == b[i..][1] == '=';
    PathEnds(b, start, path, false, " = " + rest);
    SpaceThenEquals(b, i);
    assert key != [] && TomlKey.Tight(key) && ValidKey(key) by { PrintedKey(path); }
    KeyRead(src, start, key);
  }

  lemma PrintedKey(path: seq<Bytes>)
    requires PrintablePath(path)
    ensures var key := TomlKey.JoinKeys(path); key != [] && TomlKey.Tight(key) && ValidKey(key)
  {
    hide TomlKey.JoinKeys, TomlKey.ParseDottedKey, TomlKey.IsSimpleBareKey;
    TomlKey.DottedKeyRoundTrip(path);
    TomlKey.JoinRoundTrip(path);
  }

  lemma KeyRead(src: Source, start: nat, key: Bytes)
    requires start + |key| + 1 < |src.buf| && src.buf[start..start + |key|] == key
    requires src.buf[start + |key|] == ' ' && src.buf[start + |key| + 1] == '='
    requires KeyEnd(src.buf, start) == End(start + |key| + 1) && TomlKey.Tight(key) && ValidKey(key)
    ensures ScanKey(src, start) ==
            if |key| > src.maxKeyLength then BadKey(true) else KeyAt(start + |key|, start + |key| + 2)
  {
    hide KeyEnd, ValidKey, TrimRightBlanks;
    var b, i := src.buf, start + |key|;
    assert b[start..i + 1] == key + " ";
    TrimOne(key);
    assert BlankEnd(b, i + 1) == i + 1;
  }

  lemma SpaceThenEquals(b: Bytes, i: nat)
    requires i + 1 < |b| && b[i] == ' ' && b[i + 1] == '='
    ensures KeyEnd(b, i) == End(i + 1)
  {}

  lemma TrimOne(key: Bytes)
    requires TomlKey.Tight(key)
    ensures TrimRightBlanks(key + " ") == key
  {
    assert (key + " ")[..|key|] == key;
  }

  /** The token `r` read at `s` has this kind and text. */
  predicate IsToken(src: Source, s: State, r: Read, kind: Kind, text: Bytes) {
    && r.out.Got? && r.out.token.kind == kind
    && s.off <= r.out.token.start <= r.out.token.end <= |src.buf|
    && src.buf[r.out.token.start..r.out.token.end] == text
  }

  /** A printed key is read back as a key token, whose text parses to the path, unless it is longer than
      the cap. */
  lemma KeyToken(src: Source, s: State, path: seq<Bytes>, rest: Bytes)
    requires AtKey(src, s) && PrintablePath(path) && src.buf[s.off..] == TomlKey.JoinKeys(path) + (" = " + rest)
    ensures var r := ReadToken(src, s);
      if |TomlKey.JoinKeys(path)| > src.maxKeyLength then r.out == Error && r.st.failed
      else
        && IsToken(src, s, r, Key, TomlKey.JoinKeys(path))
        && TomlKey.ParseDottedKey(TomlKey.JoinKeys(path)) == Some(path)
        && r.st.off == s.off + |TomlKey.JoinKeys(path)| + 2 && AtValue(src, r.st) && r.st.valueNoNewline
        && r.st.stack == s.stack
  {
    hide TomlKey.JoinKeys, TomlKey.ParseDottedKey, ScanKey, Loop, AdvancePosition;
    var key := TomlKey.JoinKeys(path);
    KeyStart(path);
    assert src.buf[s.off] == src.buf[s.off..][0] == key[0];
    KeyDispatched(src, s);
    KeyScanned(src, s.off, path, rest);
    TomlString.SplitAt(src.buf, s.off, key, " = " + rest);
    TomlKey.DottedKeyRoundTrip(path);
  }

  /** Where a value may stand. */
  predicate AtValue(src: Source, s: State) {
    && InBounds(src, s) && !s.failed && !s.needLineEnd && s.expectingValue
    && (s.needSeparator ==> !InnermostIsArray(s))
  }

  // ---------------------------------------------------------------- where bare values end

  /** Space, tab, newlines, comma, closing brackets, comment sign and equals sign, by their codes. */
  predicate Delimits(c: char) { c as int in {0x20, 0x09, 0x0D, 0x0A, 0x2C, 0x5D, 0x7D, 0x23, 0x3D} }

  predicate Unbroken(text: Bytes) { forall i | 0 <= i < |text| :: !Delimits(text[i]) }

  predicate Stops(rest: Bytes) { rest == [] || Delimits(rest[0]) }

  /** A date, one space and a time. */
  predicate SpacedDateTime(text: Bytes) {
    && |text| > 10 && text[10] == ' ' && Unbroken(text[..10]) && Unbroken(text[11..])
    && TomlDateTime.ParseDateTime(text).Some?
  }

  /** The text goes on as a date and time over the space behind it. */
  ghost predicate GoesOn(text: Bytes, rest: Bytes) {
    exists w, after :: rest == " " + (w + after) && Unbroken(w) && Stops(after) && SpacedDateTime(text + (" " + w))
  }

  /** A bare value before `rest`: up to the first delimiter, or a date and time with a space in it. */
  ghost predicate BareText(text: Bytes, rest: Bytes) {
    && text != [] && Stops(rest)
    && ((Unbroken(text) && !GoesOn(text, rest)) || SpacedDateTime(text))
  }

  lemma {:induction false} BareRun(b: Bytes, i: nat, text: Bytes, rest: Bytes)
    requires i <= |b| && b[i..] == text + rest && Unbroken(text) && Stops(rest)
    ensures BareDelimiter(b, i) == i + |text|
    decreases |text|
  {
    if text == [] {
      if i < |b| { assert b[i] == b[i..][0]; }
    } else {
      assert b[i] == b[i..][0] == text[0];
      assert b[i + 1..] == b[i..][1..] == text[1..] + rest;
      BareRun(b, i + 1, text[1..], rest);
    }
  }

  lemma {:induction false} SplitWord(text: Bytes) returns (w: Bytes, after: Bytes)
    ensures text == w + after && Unbroken(w) && Stops(after)
  {
    if Stops(text) {
      w, after := [], text;
    } else {
      w, after := SplitWord(text[1..]);
      w := [text[0]] + w;
    }
  }

  lemma SpacedScanned(b: Bytes, i: nat, text: Bytes, rest: Bytes)
    requires i < |b| && b[i..] == text + rest && SpacedDateTime(text) && Stops(rest)
    ensures ScanBareValue(b, i) == i + |text|
  {
    hide TomlDateTime.ParseDateTime, BareDelimiter;
    var date, time := text[..10], text[11..];
    assert text == date + (" " + time);
    assert b[i..] == date + (" " + (time + rest));
    TomlString.SplitAt(b, i, date, " " + (time + rest));
    BareRun(b, i, date, " " + (time + rest));
    TomlString.SplitAt(b, i + 10, " ", time + rest);
    assert b[i + 10] == b[i + 10..i + 11][0];
    BareRun(b, i + 11, time, rest);
    TomlString.SplitAt(b, i, text, rest);
  }

  lemma WordScanned(b: Bytes, i: nat, text: Bytes, rest: Bytes)
    requires i < |b| && b[i..] == text + rest && text != [] && Unbroken(text) && Stops(rest) && !GoesOn(text, rest)
    ensures ScanBareValue(b, i) == i + |text|
  {
    hide TomlDateTime.ParseDateTime, BareDelimiter, GoesOn;
    BareRun(b, i, text, rest);
    TomlString.SplitAt(b, i, text, rest);
    var e := i + |text|;
    if |text| == 10 && e < |b| && b[e] == ' ' {
      assert rest[0] == b[e..][0] == ' ';
      var w, after := SplitWord(rest[1..]);
      assert rest == " " + (w + after);
      TomlString.SplitAt(b, e, " ", w + after);
      BareRun(b, e + 1, w, after);
      TomlString.SplitAt(b, e + 1, w, after);
      assert b[i..e + 1 + |w|] == text + (" " + w) by { JoinThree(b, i, e, e + 1 + |w|); }
      NotADateTime(text, w, after, rest);
    }
  }

  lemma JoinThree(b: Bytes, i: nat, e: nat, k: nat)
    requires i <= e < k <= |b|
    ensures b[i..k] == b[i..e] + ([b[e]] + b[e + 1..k])
  {}

  lemma NotADateTime(text: Bytes, w: Bytes, after: Bytes, rest: Bytes)
    requires |text| == 10 && Unbroken(text) && Unbroken(w) && Stops(after) && rest == " " + (w + after)
    requires !GoesOn(text, rest)
    ensures TomlDateTime.ParseDateTime(text + (" " + w)).None?
  {
    hide TomlDateTime.ParseDateTime;
    var all := text + (" " + w);
    assert all[10] == ' ' && all[..10] == text && all[11..] == w;
  }

  // ---------------------------------------------------------------- where strings end

  lemma {:induction false} LiteralEnds(b: Bytes, i: nat, v: Bytes, rest: Bytes)
    requires i <= |b| && b[i..] == v + ("'" + rest) && forall k | 0 <= k < |v| :: v[k] != '\'' && !IsNewline(v[k])
    ensures LiteralEnd(b, i) == Some(i + |v| + 1)
    decreases |v|
  {
    assert b[i] == b[i..][0];
    if v != [] {
      assert b[i + 1..] == b[i..][1..] == v[1..] + ("'" + rest);
      LiteralEnds(b, i + 1, v[1..], rest);
    }
  }

  /** A piece of a multi-line string: a byte, an escaped byte, or one or two quotes. */
  datatype Chunk = Other(c: char) | Escaped(c: char) | Quotes(n: nat)

  predicate ChunkOk(u: Chunk, quote: char) {
    match u
    case Other(c) => c != quote && (quote == '"' ==> c != '\\')
    case Escaped(_) => quote == '"'
    case Quotes(n) => n in {1, 2}
  }

  /** Quotes do not run together with more quotes, nor with those at the end. */
  predicate ChunksOk(us: seq<Chunk>, quote: char) {
    && (forall i | 0 <= i < |us| :: ChunkOk(us[i], quote))
    && (forall i | 0 <= i < |us| && us[i].Quotes? :: i + 1 < |us| && !us[i + 1].Quotes?)
  }

  function Run(quote: char, n: nat): Bytes { seq(n, _ => quote) }

  function ChunkText(u: Chunk, quote: char): Bytes {
    match u
    case Other(c) => [c]
    case Escaped(c) => ['\\', c]
    case Quotes(n) => Run(quote, n)
  }

  function ChunksText(us: seq<Chunk>, quote: char): Bytes {
    if us == [] then "" else ChunkText(us[0], quote) + ChunksText(us[1..], quote)
  }

  lemma {:induction false} RunEnds(b: Bytes, i: nat, quote: char, n: nat, rest: Bytes)
    requires i <= |b| && b[i..] == Run(quote, n) + rest && (rest == [] || rest[0] != quote)
    ensures RunEnd(b, i, quote) == i + n
    decreases n
  {
    if n == 0 {
      if i < |b| { assert b[i] == b[i..][0]; }
    } else {
      assert b[i] == b[i..][0];
      assert b[i + 1..] == b[i..][1..] == Run(quote, n - 1) + rest;
      RunEnds(b, i + 1, quote, n - 1, rest);
    }
  }

  /** What follows a short run of quotes is not one. */
  lemma AfterQuotes(us: seq<Chunk>, quote: char, tail: Bytes)
    requires us != [] && !us[0].Quotes? && ChunkOk(us[0], quote) && quote in {'"', '\''}
    ensures var t := ChunksText(us, quote) + tail; t != [] && t[0] != quote
  {
    assert ChunksText(us, quote) == ChunkText(us[0], quote) + ChunksText(us[1..], quote);
  }

  lemma {:induction false} ChunksEnd(b: Bytes, i: nat, us: seq<Chunk>, quote: char, n: nat, rest: Bytes)
    requires quote in {'"', '\''} && ChunksOk(us, quote) && n >= 3 && (rest == [] || rest[0] != quote)
    requires i <= |b| && b[i..] == ChunksText(us, quote) + (Run(quote, n) + rest)
    ensures MultilineEnd(b, i, quote) == Some(i + |ChunksText(us, quote)| + if n < 5 then n else 5)
    decreases |us|
  {
    hide MultilineEnd;
    var tail := Run(quote, n) + rest;
    if us == [] {
      assert b[i..] == tail;
      RunEnds(b, i, quote, n, rest);
      assert b[i] == b[i..][0];
      ClosingRun(b, i, quote, n);
    } else {
      var u, more := ChunkText(us[0], quote), ChunksText(us[1..], quote);
      assert b[i..] == u + (more + tail);
      TomlString.SplitAt(b, i, u, more + tail);
      if us[0].Quotes? {
        AfterQuotes(us[1..], quote, tail);
        RunEnds(b, i, quote, us[0].n, more + tail);
      }
      ChunkStep(b, i, us[0], quote);
      ChunksEnd(b, i + |u|, us[1..], quote, n, rest);
    }
  }

  lemma ClosingRun(b: Bytes, i: nat, quote: char, n: nat)
    requires i < |b| && b[i] == quote && quote in {'"', '\''} && n >= 3 && RunEnd(b, i, quote) == i + n
    ensures MultilineEnd(b, i, quote) == Some(i + if n < 5 then n else 5)
  {}

  lemma ChunkStep(b: Bytes, i: nat, u: Chunk, quote: char)
    requires quote in {'"', '\''} && ChunkOk(u, quote)
    requires var t := ChunkText(u, quote); i + |t| <= |b| && b[i..i + |t|] == t
    requires u.Quotes? ==> RunEnd(b, i, quote) == i + u.n
    ensures MultilineEnd(b, i, quote) == MultilineEnd(b, i + |ChunkText(u, quote)|, quote)
  {
    var t := ChunkText(u, quote);
    assert b[i] == b[i..i + |t|][0] == t[0];
  }

  /** A string in triple quotes, which may have one or two more before the closing ones. */
  predicate IsMultiline(text: Bytes, quote: char, us: seq<Chunk>, n: nat) {
    && quote in {'"', '\''} && ChunksOk(us, quote) && 3 <= n <= 5
    && text == Run(quote, 3) + (ChunksText(us, quote) + Run(quote, n))
  }

  lemma MultilineScanned(b: Bytes, i: nat, text: Bytes, quote: char, us: seq<Chunk>, n: nat, rest: Bytes)
    requires IsMultiline(text, quote, us, n) && (rest == [] || rest[0] != quote)
    requires i < |b| && b[i..] == text + rest && TomlString.ValidString(text)
    ensures b[i] == quote && ScanString(b, i) == End(i + |text|)
  {
    hide TomlString.ValidString, MultilineEnd;
    var open, body, close := Run(quote, 3), ChunksText(us, quote), Run(quote, n);
    assert b[i..] == open + (body + (close + rest));
    TomlString.SplitAt(b, i, open, body + (close + rest));
    assert b[i] == b[i..i + 3][0] && b[i + 1] == b[i..i + 3][1] && b[i + 2] == b[i..i + 3][2];
    ChunksEnd(b, i + 3, us, quote, n, rest);
    TomlString.SplitAt(b, i, text, rest);
  }

  lemma LiteralScanned(b: Bytes, i: nat, v: Bytes, rest: Bytes)
    requires i < |b| && b[i..] == "'" + (v + ("'" + rest)) && (rest == [] || rest[0] != '\'')
    requires TomlEscapes.LiteralText(v, false) && forall k | 0 <= k < |v| :: v[k] != '\''
    ensures b[i] == '\'' && ScanString(b, i) == End(i + |v| + 2)
  {
    hide TomlString.ParseString;
    TomlString.SplitAt(b, i, "'", v + ("'" + rest));
    assert b[i] == b[i..i + 1][0];
    forall k | 0 <= k < |v| ensures !IsNewline(v[k]) { assert TomlEscapes.LiteralByte(v[k], false); }
    LiteralEnds(b, i + 1, v, rest);
    if i + 2 < |b| && v == [] {
      assert b[i + 1..] == "'" + rest;
      assert b[i + 2] == b[i + 1..][1] == rest[0];
    }
    if v != [] { assert b[i + 1] == b[i + 1..][0] == v[0]; }
    var text := "'" + v + "'";
    assert b[i..] == text + rest;
    TomlString.SplitAt(b, i, text, rest);
    assert ['\''] + v + ['\''] == text;
    TomlEscapes.OneLineString(v, '\'');
  }

  // ---------------------------------------------------------------- scalars

  /** The text is a scalar when `rest` follows: a printed string, a literal string, a valid string in
      triple quotes, or a bare value that classifies. */
  ghost predicate ScalarText(src: Source, text: Bytes, rest: Bytes) {
    || (exists v :: TomlString.Printable(v) && text == TomlString.Quoted(v) && (rest == [] || rest[0] != '"'))
    || (exists v :: IsLiteralString(v, text, rest))
    || (exists quote, us, n ::
          IsMultiline(text, quote, us, n) && TomlString.ValidString(text) && (rest == [] || rest[0] != quote))
    || (BareText(text, rest) && src.classify(text) && !IsQuote(text[0]) && text[0] !in {'[', '{'})
  }

  predicate IsLiteralString(v: Bytes, text: Bytes, rest: Bytes) {
    && TomlEscapes.LiteralText(v, false) && (forall k | 0 <= k < |v| :: v[k] != '\'')
    && text == "'" + v + "'" && (rest == [] || rest[0] != '\'')
  }

  lemma StringScanned(src: Source, i: nat, text: Bytes, rest: Bytes)
    requires i < |src.buf| && src.buf[i..] == text + rest && text != [] && ScalarText(src, text, rest)
    requires !BareText(text, rest) || IsQuote(text[0])
    ensures IsQuote(src.buf[i]) && ScanString(src.buf, i) == End(i + |text|)
  {
    hide ScanString, ScanQuoted, TomlString.Quoted, TomlString.ValidString, TomlEscapes.LiteralText;
    if v :| TomlString.Printable(v) && text == TomlString.Quoted(v) && (rest == [] || rest[0] != '"') {
      QuotedScanned(src.buf, i, v, rest);
    } else if v :| IsLiteralString(v, text, rest) {
      assert src.buf[i..] == "'" + (v + ("'" + rest));
      LiteralScanned(src.buf, i, v, rest);
    } else {
      var quote, us, n :|
        IsMultiline(text, quote, us, n) && TomlString.ValidString(text) && (rest == [] || rest[0] != quote);
      MultilineScanned(src.buf, i, text, quote, us, n, rest);
    }
  }

  lemma SomeText(src: Source, text: Bytes, rest: Bytes)
    requires ScalarText(src, text, rest)
    ensures text != []
  {
    if quote, us, n :| IsMultiline(text, quote, us, n) { assert |text| >= 3; }
  }

  lemma ScalarScanned(src: Source, i: nat, text: Bytes, rest: Bytes)
    requires i < |src.buf| && src.buf[i..] == text + rest && ScalarText(src, text, rest)
    ensures i + |text| <= |src.buf| && src.buf[i..i + |text|] == text && text != []
    ensures Ordinary(src.buf[i])
    ensures ScalarEnd(src, i) ==
            if IsQuote(src.buf[i]) && |text| > src.maxStringLength then Reject(true) else End(i + |text|)
  {
    hide ScanString, BareText, ScalarText, ScanBareValue;
    var b := src.buf;
    SomeText(src, text, rest);
    TomlString.SplitAt(b, i, text, rest);
    assert b[i] == b[i..i + |text|][0] == text[0];
    if !BareText(text, rest) || IsQuote(text[0]) {
      StringScanned(src, i, text, rest);
    } else {
      BareScanned(src, i, text, rest);
    }
  }

  lemma BareScanned(src: Source, i: nat, text: Bytes, rest: Bytes)
    requires i < |src.buf| && src.buf[i..] == text + rest && ScalarText(src, text, rest)
    requires BareText(text, rest) && !IsQuote(text[0])
    ensures src.classify(text) && Ordinary(text[0]) && ScanBareValue(src.buf, i) == i + |text|
  {
    hide ScanBareValue, TomlDateTime.ParseDateTime, GoesOn, TomlString.ValidString, TomlEscapes.LiteralText;
    assert src.classify(text) && text[0] !in {'[', '{'} by { NotAString(src, text, rest); }
    if Unbroken(text) && !GoesOn(text, rest) {
      WordScanned(src.buf, i, text, rest);
    } else {
      assert text[0] == text[..10][0];
      SpacedScanned(src.buf, i, text, rest);
    }
  }

  lemma NotAString(src: Source, text: Bytes, rest: Bytes)
    requires ScalarText(src, text, rest) && text != [] && !IsQuote(text[0])
    ensures src.classify(text) && text[0] !in {'[', '{'}
  {
    hide TomlString.ValidString, TomlEscapes.LiteralText, BareText;
    if quote, us, n :| IsMultiline(text, quote, us, n) {
      FirstQuote(text, quote, us, n);
      assert false;
    }
  }

  lemma FirstQuote(text: Bytes, quote: char, us: seq<Chunk>, n: nat)
    requires IsMultiline(text, quote, us, n)
    ensures text != [] && text[0] == quote
  {}

  lemma ScalarDispatched(src: Source, s: State)
    requires AtValue(src, s) && s.off < |src.buf| && Ordinary(src.buf[s.off])
    ensures Loop(src, s) == ReadScalar(src, s)
  {
    hide ReadScalar, SkipSpaces;
    NoSpaceAt(src, s);
  }

  /** A scalar is read back as a value token with exactly its text, unless it is a string
      longer than the cap. */
  lemma ScalarToken(src: Source, s: State, text: Bytes, rest: Bytes)
    requires AtValue(src, s) && src.buf[s.off..] == text + rest && ScalarText(src, text, rest) && s.off < |src.buf|
    ensures var r := ReadToken(src, s);
      if IsQuote(text[0]) && |text| > src.maxStringLength then r.out == Error && r.st.failed
      else IsToken(src, s, r, Value, text) && r.st.off == s.off + |text| && r.st.needLineEnd == (s.stack == [])
  {
    hide ScalarEnd, Loop, AdvancePosition, ScalarText;
    ScalarScanned(src, s.off, text, rest);
    assert src.buf[s.off] == src.buf[s.off..s.off + |text|][0];
    ScalarDispatched(src, s);
  }

  lemma LoopSkips(src: Source, s: State)
    requires InBounds(src, s)
    ensures Loop(src, s) == Loop(src, SkipSpaces(src, s))
  {
    hide SkipSpaces, Iterate;
    SkipSpacesTwice(src, s);
  }

  lemma OneBlank(src: Source, s: State)
    requires s.off + 1 < |src.buf| && src.buf[s.off] == ' ' && Ordinary(src.buf[s.off + 1])
    ensures SkipSpaces(src, s) == Advance(src, s, s.off + 1).(atLineStart := s.atLineStart)
  {
    hide AdvancePosition;
    assert BlankEnd(src.buf, s.off) == s.off + 1;
    NoSpaceAt(src, Advance(src, s, s.off + 1).(atLineStart := s.atLineStart));
  }

  lemma BlankScalar(src: Source, s: State, text: Bytes, rest: Bytes)
    requires AtValue(src, s) && s.off + 1 < |src.buf| && src.buf[s.off..] == " " + (text + rest)
    requires ScalarText(src, text, rest) && (IsQuote(text[0]) ==> |text| <= src.maxStringLength)
    ensures IsToken(src, s, ReadToken(src, s), Value, text)
  {
    hide ScalarText, Loop, AdvancePosition, SkipSpaces, AtValue;
    assert src.buf[s.off] == src.buf[s.off..][0];
    TomlString.SplitAt(src.buf, s.off, " ", text + rest);
    ScalarScanned(src, s.off + 1, text, rest);
    OneBlank(src, s);
    var t := SkipSpaces(src, s);
    assert AtValue(src, t) by { StillValue(src, s, t); }
    LoopSkips(src, s);
    NotFailed(src, s);
    NotFailed(src, t);
    ScalarToken(src, t, text, rest);
  }

  lemma StillValue(src: Source, s: State, t: State)
    requires AtValue(src, s) && s.off + 1 <= |src.buf| && t == Advance(src, s, s.off + 1).(atLineStart := s.atLineStart)
    ensures AtValue(src, t)
  {
    hide AdvancePosition;
  }

  lemma NotFailed(src: Source, s: State)
    requires AtValue(src, s)
    ensures InBounds(src, s) && ReadToken(src, s) == Loop(src, s)
  {
    hide Loop;
  }

  /** The line that the printer writes for a key and a scalar is read back as a key token whose text
      parses to the path, and a value token with the text of the scalar. */
  lemma LineTokens(src: Source, s: State, path: seq<Bytes>, text: Bytes, rest: Bytes)
    requires AtKey(src, s) && PrintablePath(path) && |TomlKey.JoinKeys(path)| <= src.maxKeyLength
    requires src.buf[s.off..] == TomlKey.JoinKeys(path) + (" = " + (text + ("\n" + rest)))
    requires ScalarText(src, text, "\n" + rest) && (IsQuote(text[0]) ==> |text| <= src.maxStringLength)
    ensures var r := ReadToken(src, s);
      && IsToken(src, s, r, Key, TomlKey.JoinKeys(path)) && TomlKey.ParseDottedKey(TomlKey.JoinKeys(path)) == Some(path)
      && InBounds(src, r.st) && IsToken(src, r.st, ReadToken(src, r.st), Value, text)
  {
    hide TomlKey.JoinKeys, TomlKey.ParseDottedKey, ScalarText, Loop, PrintablePath, IsToken;
    var key, tail := TomlKey.JoinKeys(path), text + ("\n" + rest);
    KeyToken(src, s, path, tail);
    var t := ReadToken(src, s).st;
    assert " = " + tail == " =" + (" " + tail);
    ThreeParts(src.buf, s.off, key, " =", " " + tail);
    BlankScalar(src, t, text, "\n" + rest);
  }
}
