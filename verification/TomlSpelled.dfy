/** Headers and keys of any spelling as tokens (pkg/toml/decoder.go): bare and quoted segments with blanks
    around them are found whole, and parse to their parts. */
module TomlSpelled {
  import opened Text
  import opened TomlLexer
  import opened TomlDecoder
  import opened TomlDecoderRuns
  import opened TomlKeyText
  import TomlTokens
  import TomlParse
  import TomlString
  import TomlEscapes
  import TomlKey

  // ---------------------------------------------------------------- quoted segments under the scanners

  lemma BodyOneLine(body: Bytes, quote: char)
    requires TomlEscapes.Body(body, quote, false).Some? && quote in {'"', '\''}
    ensures forall k | 0 <= k < |body| :: !IsNewline(body[k])
  {
    hide TomlString.DecodeBody;
    if quote == '"' {
      TomlParse.DecodedOneLine(body, 0);
    } else {
      forall k | 0 <= k < |body| ensures !IsNewline(body[k]) { assert TomlEscapes.LiteralByte(body[k], false); }
    }
  }

  lemma {:induction false} BodyEnds(b: Bytes, i: nat, body: Bytes, quote: char, rest: Bytes)
    requires i <= |b| && b[i..] == body + ([quote] + rest) && quote in {'"', '\''} && Closed(body, quote)
    requires forall k | 0 <= k < |body| :: !IsNewline(body[k])
    ensures QuotedBodyEnd(b, quote, i) == Some(i + |body| + 1)
    decreases |body|
  {
    assert b[i] == b[i..][0];
    if body != "" {
      var n := if quote == '"' && body[0] == '\\' then 2 else 1;
      assert b[i + n..] == b[i..][n..] == body[n..] + ([quote] + rest);
      BodyEnds(b, i + n, body[n..], quote, rest);
    }
  }

  lemma QuotedFound(b: Bytes, i: nat, text: Bytes, part: Bytes, quote: char, body: Bytes, rest: Bytes)
    requires QuotedAs(text, part, quote, body) && i <= |b| && b[i..] == text + rest && (rest == [] || rest[0] != quote)
    ensures i < |b| && b[i] == quote && ScanQuoted(b, i) == End(i + |text|)
  {
    hide TomlString.ParseString, TomlEscapes.Body, QuotedBodyEnd, Closed;
    assert text + rest == [quote] + (body + ([quote] + rest));
    TomlString.SplitAt(b, i, [quote], body + ([quote] + rest));
    assert b[i] == b[i..i + 1][0];
    BodyOneLine(body, quote);
    BodyEnds(b, i + 1, body, quote, rest);
    ClosedStart(body, quote);
    TomlEscapes.OneLineString(body, quote);
    TomlString.SplitAt(b, i, text, rest);
    if i + 2 < |b| {
      assert b[i + 1] == b[i + 1..][0] && b[i + 2] == b[i + 1..][1];
    }
  }

  /** What does not continue a segment. */
  predicate Ends(rest: Bytes) { rest == [] || !(IsQuote(rest[0]) || IsBareKeyChar(rest[0])) }

  lemma BareChars(text: Bytes)
    requires BareText(text)
    ensures forall k | 0 <= k < |text| :: IsBareKeyChar(text[k])
  {
    forall k | 0 <= k < |text| ensures IsBareKeyChar(text[k]) { assert BareCode(text[k] as int); }
  }

  /** Every scanner of keys passes over a segment. */
  lemma TextSkipped(b: Bytes, i: nat, text: Bytes, part: Bytes, rest: Bytes, isArray: bool)
    requires i <= |b| && b[i..] == text + rest && Names(text, part) && Ends(rest)
    ensures HeaderEnd(b, i, isArray) == HeaderEnd(b, i + |text|, isArray) && KeyEnd(b, i) == KeyEnd(b, i + |text|)
  {
    hide HeaderEnd, KeyEnd, ScanQuoted, QuotedAs;
    if BareText(text) && part == text {
      BareChars(text);
      TomlTokens.BareSkipped(b, i, text, rest, isArray);
    } else {
      var quote, body :| QuotedAs(text, part, quote, body);
      assert IsQuote(quote) by { QuoteKinds(text, part, quote, body); }
      QuotedFound(b, i, text, part, quote, body, rest);
      QuoteSkipped(b, i, isArray);
    }
  }

  lemma QuoteKinds(text: Bytes, part: Bytes, quote: char, body: Bytes)
    requires QuotedAs(text, part, quote, body)
    ensures IsQuote(quote)
  {}

  lemma QuoteSkipped(b: Bytes, i: nat, isArray: bool)
    requires i < |b| && IsQuote(b[i]) && ScanQuoted(b, i).End?
    ensures var j := ScanQuoted(b, i).end;
      HeaderEnd(b, i, isArray) == HeaderEnd(b, j, isArray) && KeyEnd(b, i) == KeyEnd(b, j)
  {
    hide ScanQuoted;
  }

  lemma TextAccepted(b: Bytes, i: nat, end: nat, text: Bytes, part: Bytes, rest: Bytes)
    requires i <= |b| && b[i..] == text + rest && Names(text, part) && Ends(rest) && i + |text| <= end <= |b|
    ensures HeaderKey(b, i, end, true) == HeaderKey(b, i + |text|, end, false)
  {
    hide HeaderKey, ScanQuoted, QuotedAs, BareKeyEnd;
    TomlString.SplitAt(b, i, text, rest);
    if i + |text| < |b| { assert b[i + |text|] == rest[0]; }
    if BareText(text) && part == text {
      BareChars(text);
      assert b[i] == b[i..i + |text|][0] == text[0];
      TomlTokens.BareFound(b, i, end, text);
      TomlTokens.BareAccepted(b, i, end);
    } else {
      var quote, body :| QuotedAs(text, part, quote, body);
      assert IsQuote(quote) by { QuoteKinds(text, part, quote, body); }
      QuotedFound(b, i, text, part, quote, body, rest);
      QuoteAccepted(b, i, end);
    }
  }

  lemma QuoteAccepted(b: Bytes, i: nat, end: nat)
    requires i < end <= |b| && IsQuote(b[i]) && ScanQuoted(b, i).End? && ScanQuoted(b, i).end <= end
    ensures HeaderKey(b, i, end, true) == HeaderKey(b, ScanQuoted(b, i).end, end, false)
  {
    hide ScanQuoted;
    assert BlankEnd(b[..end], i) == i;
  }

  // ---------------------------------------------------------------- blanks under the scanners

  lemma {:induction false} BlanksSkipped(b: Bytes, i: nat, blanks: Bytes, rest: Bytes, isArray: bool)
    requires i <= |b| && b[i..] == blanks + rest && Blanks(blanks)
    ensures var j := i + |blanks|; HeaderEnd(b, i, isArray) == HeaderEnd(b, j, isArray) && KeyEnd(b, i) == KeyEnd(b, j)
    decreases |blanks|
  {
    hide HeaderEnd, KeyEnd;
    if blanks != "" {
      assert b[i] == b[i..][0] == blanks[0];
      assert b[i + 1..] == b[i..][1..] == blanks[1..] + rest;
      BlankSkipped(b, i, isArray);
      BlanksSkipped(b, i + 1, blanks[1..], rest, isArray);
    }
  }

  lemma BlankSkipped(b: Bytes, i: nat, isArray: bool)
    requires i < |b| && IsBlank(b[i])
    ensures HeaderEnd(b, i, isArray) == HeaderEnd(b, i + 1, isArray) && KeyEnd(b, i) == KeyEnd(b, i + 1)
  {}

  lemma {:induction false} BlanksAccepted(b: Bytes, i: nat, end: nat, blanks: Bytes, rest: Bytes, needSegment: bool)
    requires i <= |b| && b[i..] == blanks + rest && Blanks(blanks) && i + |blanks| <= end <= |b|
    ensures HeaderKey(b, i, end, needSegment) == HeaderKey(b, i + |blanks|, end, needSegment)
    decreases |blanks|
  {
    hide HeaderKey;
    if blanks != "" {
      assert b[i] == b[i..][0] == blanks[0];
      assert b[i + 1..] == b[i..][1..] == blanks[1..] + rest;
      BlankAccepted(b, i, end, needSegment);
      BlanksAccepted(b, i + 1, end, blanks[1..], rest, needSegment);
    }
  }

  lemma BlankAccepted(b: Bytes, i: nat, end: nat, needSegment: bool)
    requires i < end <= |b| && IsBlank(b[i])
    ensures HeaderKey(b, i, end, needSegment) == HeaderKey(b, i + 1, end, needSegment)
  {
    hide ScanQuoted, BareKeyEnd;
    assert BlankEnd(b[..end], i) == BlankEnd(b[..end], i + 1);
  }

  // ---------------------------------------------------------------- whole keys under the scanners

  /** The four parts of a key text, in place. */
  lemma InPlace(b: Bytes, i: nat, s: Seg, tail: Bytes)
    requires i <= |b| && b[i..] == s.before + (s.text + (s.after + tail))
    ensures var j, k, l := i + |s.before|, i + |s.before| + |s.text|, i + |s.before| + |s.text| + |s.after|;
      l <= |b| && b[j..] == s.text + (s.after + tail) && b[k..] == s.after + tail && b[l..] == tail
  {
    TomlString.SplitAt(b, i, s.before, s.text + (s.after + tail));
    TomlString.SplitAt(b, i + |s.before|, s.text, s.after + tail);
    TomlString.SplitAt(b, i + |s.before| + |s.text|, s.after, tail);
  }

  lemma EndsAfter(after: Bytes, tail: Bytes)
    requires Blanks(after) && Ends(tail)
    ensures Ends(after + tail)
  {}

  lemma SegSkipped(b: Bytes, i: nat, s: Seg, tail: Bytes, isArray: bool)
    requires SegOk(s) && i <= |b| && b[i..] == s.before + (s.text + (s.after + tail)) && Ends(tail)
    ensures var l := i + |s.before| + |s.text| + |s.after|;
      HeaderEnd(b, i, isArray) == HeaderEnd(b, l, isArray) && KeyEnd(b, i) == KeyEnd(b, l)
  {
    hide HeaderEnd, KeyEnd, Names, Ends;
    InPlace(b, i, s, tail);
    EndsAfter(s.after, tail);
    BlanksSkipped(b, i, s.before, s.text + (s.after + tail), isArray);
    TextSkipped(b, i + |s.before|, s.text, s.part, s.after + tail, isArray);
    BlanksSkipped(b, i + |s.before| + |s.text|, s.after, tail, isArray);
  }

  lemma SegAccepted(b: Bytes, i: nat, end: nat, s: Seg, tail: Bytes)
    requires SegOk(s) && i <= |b| && b[i..] == s.before + (s.text + (s.after + tail)) && Ends(tail)
    requires i + |s.before| + |s.text| + |s.after| <= end <= |b|
    ensures HeaderKey(b, i, end, true) == HeaderKey(b, i + |s.before| + |s.text| + |s.after|, end, false)
  {
    hide HeaderKey, Names, Ends;
    InPlace(b, i, s, tail);
    EndsAfter(s.after, tail);
    BlanksAccepted(b, i, end, s.before, s.text + (s.after + tail), true);
    TextAccepted(b, i + |s.before|, end, s.text, s.part, s.after + tail);
    BlanksAccepted(b, i + |s.before| + |s.text|, end, s.after, tail, false);
  }

  lemma KeyParts(ss: seq<Seg>, rest: Bytes)
    requires ss != []
    ensures var s := ss[0]; var tail := if |ss| == 1 then rest else "." + (KeyText(ss[1..]) + rest);
      && KeyText(ss) + rest == s.before + (s.text + (s.after + tail))
      && |KeyText(ss)| == |s.before| + |s.text| + |s.after| + (if |ss| == 1 then 0 else 1 + |KeyText(ss[1..])|)
  {
    var s := ss[0];
    var more := if |ss| == 1 then "" else "." + KeyText(ss[1..]);
    Regroup(s.before, s.text + (s.after + more), rest);
    Regroup(s.text, s.after + more, rest);
    Regroup(s.after, more, rest);
    if |ss| > 1 { Regroup(".", KeyText(ss[1..]), rest); } else { assert more + rest == rest; }
  }

  lemma DotSkipped(b: Bytes, i: nat, s: Seg, more: Bytes, isArray: bool)
    requires SegOk(s) && i <= |b| && b[i..] == s.before + (s.text + (s.after + ("." + more)))
    ensures var l := i + |s.before| + |s.text| + |s.after| + 1;
      l <= |b| && b[l..] == more && HeaderEnd(b, i, isArray) == HeaderEnd(b, l, isArray) && KeyEnd(b, i) == KeyEnd(b, l)
  {
    hide HeaderEnd, KeyEnd, SegOk;
    SegSkipped(b, i, s, "." + more, isArray);
    InPlace(b, i, s, "." + more);
    var l := i + |s.before| + |s.text| + |s.after|;
    TomlString.SplitAt(b, l, ".", more);
    assert b[l] == b[l..l + 1][0];
    TomlTokens.DotSkipped(b, l, isArray);
  }

  lemma DotAccepted(b: Bytes, i: nat, end: nat, s: Seg, more: Bytes)
    requires SegOk(s) && i <= |b| && b[i..] == s.before + (s.text + (s.after + ("." + more)))
    requires i + |s.before| + |s.text| + |s.after| < end <= |b|
    ensures var l := i + |s.before| + |s.text| + |s.after| + 1;
      b[l..] == more && HeaderKey(b, i, end, true) == HeaderKey(b, l, end, true)
  {
    hide HeaderKey, SegOk;
    SegAccepted(b, i, end, s, "." + more);
    InPlace(b, i, s, "." + more);
    var l := i + |s.before| + |s.text| + |s.after|;
    TomlString.SplitAt(b, l, ".", more);
    assert b[l] == b[l..l + 1][0];
    TomlTokens.DotAccepted(b, l, end);
  }

  /** The scanners reach what follows a key, whatever its spelling. */
  lemma {:induction false} KeySkipped(b: Bytes, i: nat, ss: seq<Seg>, rest: Bytes, isArray: bool)
    requires SegsOk(ss) && i <= |b| && b[i..] == KeyText(ss) + rest && Ends(rest)
    ensures var l := i + |KeyText(ss)|;
      HeaderEnd(b, i, isArray) == HeaderEnd(b, l, isArray) && KeyEnd(b, i) == KeyEnd(b, l)
    decreases |ss|
  {
    hide HeaderEnd, KeyEnd, KeyText, SegOk, Ends;
    KeyParts(ss, rest);
    if |ss| == 1 {
      SegSkipped(b, i, ss[0], rest, isArray);
    } else {
      DotSkipped(b, i, ss[0], KeyText(ss[1..]) + rest, isArray);
      assert SegsOk(ss[1..]);
      KeySkipped(b, i + |ss[0].before| + |ss[0].text| + |ss[0].after| + 1, ss[1..], rest, isArray);
    }
  }

  /** `validateHeaderKey` accepts a key of any spelling. */
  lemma {:induction false} KeyAccepted(b: Bytes, i: nat, end: nat, ss: seq<Seg>, rest: Bytes)
    requires SegsOk(ss) && i <= |b| && b[i..] == KeyText(ss) + rest && Ends(rest)
    requires end == i + |KeyText(ss)| <= |b|
    ensures HeaderKey(b, i, end, true) == End(end)
    decreases |ss|
  {
    hide HeaderKey, KeyText, SegOk, Ends;
    KeyParts(ss, rest);
    if |ss| == 1 {
      SegAccepted(b, i, end, ss[0], rest);
      TomlTokens.KeyOver(b, end);
    } else {
      DotAccepted(b, i, end, ss[0], KeyText(ss[1..]) + rest);
      assert SegsOk(ss[1..]);
      KeyAccepted(b, i + |ss[0].before| + |ss[0].text| + |ss[0].after| + 1, end, ss[1..], rest);
    }
  }

  // ---------------------------------------------------------------- headers and keys as tokens

  /** The state behind a header that ends at `end`. */
  function AfterHeader(src: Source, s: State, end: nat): State
    requires s.off < end <= |src.buf|
  {
    Advance(src, s, end).(expectingValue := false, atLineStart := false, needLineEnd := true)
  }

  function HeaderText(ss: seq<Seg>, isArray: bool): Bytes
    requires ss != []
  {
    TomlTokens.Open(isArray) + (KeyText(ss) + TomlTokens.Close(isArray))
  }

  lemma HeaderRead(src: Source, s: State, isArray: bool, j: nat)
    requires var i := s.off + |TomlTokens.Open(isArray)|;
      && i <= j && j + |TomlTokens.Open(isArray)| <= |src.buf| && j - i <= src.maxKeyLength
      && HeaderEnd(src.buf, i, isArray) == End(j) && HeaderKey(src.buf, i, j, true) == End(j)
    ensures var end := j + |TomlTokens.Close(isArray)|;
      && s.off < end <= |src.buf|
      && ReadHeader(src, s, isArray)
         == Read(MakeToken(s, if isArray then ArrayTableHeader else TableHeader, end), AfterHeader(src, s, end))
  {
    hide HeaderEnd, HeaderKey, AdvancePosition;
  }

  lemma HeaderBegins(b: Bytes, off: nat, ss: seq<Seg>, isArray: bool, rest: Bytes)
    requires SegsOk(ss) && off <= |b| && b[off..] == TomlTokens.Open(isArray) + (KeyText(ss) + rest)
    ensures off < |b| && b[off] == '[' && (off + 1 < |b| && b[off + 1] == '[' <==> isArray)
  {
    hide KeyText, SegOk;
    var i := off + |TomlTokens.Open(isArray)|;
    TomlString.SplitAt(b, off, TomlTokens.Open(isArray), KeyText(ss) + rest);
    assert b[off] == b[off..i][0];
    if isArray {
      assert b[off + 1] == b[off..i][1];
    } else {
      KeyBegins(ss);
      assert b[i] == b[i..][0] == KeyText(ss)[0];
    }
  }

  lemma KeyBegins(ss: seq<Seg>)
    requires SegsOk(ss)
    ensures var t := KeyText(ss); t != "" && t[0] != '['
    ensures ss[0].before == "" ==> IsQuote(KeyText(ss)[0]) || IsBareKeyChar(KeyText(ss)[0])
  {
    var s := ss[0];
    TextBegins(s.text, s.part);
    if s.before != "" { assert KeyText(ss)[0] == s.before[0]; } else { assert KeyText(ss)[0] == s.text[0]; }
  }

  lemma TextBegins(text: Bytes, part: Bytes)
    requires Names(text, part)
    ensures text != "" && (IsQuote(text[0]) || IsBareKeyChar(text[0]))
  {
    hide TomlEscapes.Body, Closed;
    if BareText(text) && part == text { BareChars(text); }
  }

  /** A header of any spelling is one token of its kind, whatever follows, if its key is within the cap. */
  lemma SpelledHeader(src: Source, s: State, ss: seq<Seg>, isArray: bool, rest: Bytes)
    requires TomlTokens.AtHeader(src, s) && SegsOk(ss) && |KeyText(ss)| <= src.maxKeyLength
    requires src.buf[s.off..] == HeaderText(ss, isArray) + rest
    ensures var end := s.off + |HeaderText(ss, isArray)|;
      && s.off < end <= |src.buf| && src.buf[s.off..end] == HeaderText(ss, isArray)
      && ReadToken(src, s)
         == Read(MakeToken(s, if isArray then ArrayTableHeader else TableHeader, end), AfterHeader(src, s, end))
  {
    hide KeyText, SegOk, Loop, TomlTokens.Open, TomlTokens.Close, AfterHeader;
    var open, key, close := TomlTokens.Open(isArray), KeyText(ss), TomlTokens.Close(isArray);
    HeaderSplit(open, key, close, rest);
    TomlString.SplitAt(src.buf, s.off, HeaderText(ss, isArray), rest);
    HeaderLoop(src, s, ss, isArray, rest);
  }

  lemma HeaderSplit(open: Bytes, key: Bytes, close: Bytes, rest: Bytes)
    ensures open + (key + close) + rest == open + (key + (close + rest))
    ensures |open + (key + close)| == |open| + |key| + |close|
  {
    Regroup(open, key + close, rest);
    Regroup(key, close, rest);
  }

  lemma ScannedFrom(b: Bytes, i: nat, ss: seq<Seg>, isArray: bool, rest: Bytes)
    requires SegsOk(ss) && i + |KeyText(ss)| <= |b|
    requires b[i..] == KeyText(ss) + (TomlTokens.Close(isArray) + rest)
    requires b[i + |KeyText(ss)|..] == TomlTokens.Close(isArray) + rest
    ensures var j := i + |KeyText(ss)|;
      j + |TomlTokens.Open(isArray)| <= |b| && HeaderEnd(b, i, isArray) == End(j) && HeaderKey(b, i, j, true) == End(j)
  {
    hide KeyText, SegOk, HeaderEnd, HeaderKey, TomlTokens.Open, TomlTokens.Close, Ends;
    var j := i + |KeyText(ss)|;
    TomlTokens.CloseFound(b, j, isArray, rest);
    CloseEnds(isArray, rest);
    KeySkipped(b, i, ss, TomlTokens.Close(isArray) + rest, isArray);
    KeyAccepted(b, i, j, ss, TomlTokens.Close(isArray) + rest);
  }

  lemma HeaderLoop(src: Source, s: State, ss: seq<Seg>, isArray: bool, rest: Bytes)
    requires TomlTokens.AtHeader(src, s) && SegsOk(ss) && |KeyText(ss)| <= src.maxKeyLength
    requires src.buf[s.off..] == TomlTokens.Open(isArray) + (KeyText(ss) + (TomlTokens.Close(isArray) + rest))
    ensures var end := s.off + |TomlTokens.Open(isArray)| + |KeyText(ss)| + |TomlTokens.Close(isArray)|;
      && s.off < end <= |src.buf|
      && Loop(src, s)
         == Read(MakeToken(s, if isArray then ArrayTableHeader else TableHeader, end), AfterHeader(src, s, end))
  {
    hide KeyText, SegOk, HeaderEnd, HeaderKey, Loop, ReadHeader, TomlTokens.Open, TomlTokens.Close, AfterHeader;
    TomlTokens.ThreeParts(src.buf, s.off, TomlTokens.Open(isArray), KeyText(ss), TomlTokens.Close(isArray) + rest);
    ScannedFrom(src.buf, s.off + |TomlTokens.Open(isArray)|, ss, isArray, rest);
    HeaderBegins(src.buf, s.off, ss, isArray, TomlTokens.Close(isArray) + rest);
    TomlTokens.HeaderDispatched(src, s, isArray);
    HeaderRead(src, s, isArray, s.off + |TomlTokens.Open(isArray)| + |KeyText(ss)|);
  }

  lemma CloseEnds(isArray: bool, rest: Bytes)
    ensures Ends(TomlTokens.Close(isArray) + rest)
  {}

  /** Its key parses to the parts. */
  lemma HeaderParses(ss: seq<Seg>, isArray: bool)
    requires SegsOk(ss)
    ensures TomlKey.ParseDottedKey(TomlKey.TrimHeaderKey(HeaderText(ss, isArray), isArray)) == Some(Parts(ss))
  {
    hide KeyText, SegOk, TomlKey.ParseDottedKey, TomlKey.TrimSpace;
    var text, key := HeaderText(ss, isArray), KeyText(ss);
    TomlKey.TrimTight(text);
    assert key == if isArray then text[2..|text| - 2] else text[1..|text| - 1];
    TrimmedParses(ss);
  }

  /** The text of a key token: the blanks before the equals sign do not belong to it. */
  function TokenText(ss: seq<Seg>): Bytes
    requires ss != []
  {
    KeyText(CutAfter(ss))
  }

  function AfterKey(src: Source, s: State, next: nat): State
    requires s.off < next <= |src.buf|
  {
    Advance(src, s, next).(expectingValue := true, valueNoNewline := true, needLineEnd := false)
  }

  lemma {:induction false} TrimAll(key: Bytes, blanks: Bytes)
    requires Blanks(blanks) && key != "" && !IsBlank(key[|key| - 1])
    ensures TrimRightBlanks(key + blanks) == key
    decreases |blanks|
  {
    if blanks == "" {
      assert key + blanks == key;
    } else {
      var all := key + blanks;
      assert all[..|all| - 1] == key + blanks[..|blanks| - 1];
      TrimAll(key, blanks[..|blanks| - 1]);
    }
  }

  lemma TokenTrimmed(ss: seq<Seg>)
    requires SegsOk(ss)
    ensures var key := TokenText(ss);
      && TrimRightBlanks(KeyText(ss)) == key && key != "" && |key| <= |KeyText(ss)|
      && TomlKey.ParseDottedKey(key) == Some(Parts(ss))
  {
    hide KeyText, SegOk, TomlKey.ParseDottedKey, TrimRightBlanks, CutAfter, Parts;
    CutRight(ss);
    CutKeeps(ss);
    TrimmedParses(CutAfter(ss));
    assert Blanks(ss[|ss| - 1].after) by { LastBlanks(ss); }
    TrimAll(TokenText(ss), ss[|ss| - 1].after);
  }

  lemma LastBlanks(ss: seq<Seg>)
    requires SegsOk(ss)
    ensures Blanks(ss[|ss| - 1].after)
  {
    hide Names;
    assert SegOk(ss[|ss| - 1]);
  }

  lemma KeyFound(src: Source, start: nat, ss: seq<Seg>, rest: Bytes)
    requires SegsOk(ss) && start < |src.buf| && src.buf[start..] == KeyText(ss) + ("=" + rest)
    requires |TokenText(ss)| <= src.maxKeyLength
    ensures var i := start + |KeyText(ss)|;
      i + 1 <= |src.buf| && ScanKey(src, start) == KeyAt(start + |TokenText(ss)|, i + 1)
  {
    hide KeyText, SegOk, KeyEnd, HeaderEnd, TomlKey.ParseDottedKey, TomlKey.IsSimpleBareKey, TokenText, TrimRightBlanks;
    var b, i := src.buf, start + |KeyText(ss)|;
    TomlString.SplitAt(b, start, KeyText(ss), "=" + rest);
    assert b[i] == b[i..][0] == '=';
    KeySkipped(b, start, ss, "=" + rest, false);
    EqualsEnds(b, i);
    TokenTrimmed(ss);
    assert BlankEnd(b, i) == i;
  }

  lemma EqualsEnds(b: Bytes, i: nat)
    requires i < |b| && b[i] == '='
    ensures KeyEnd(b, i) == End(i)
  {}

  /** A key of any spelling is one key token that parses to the parts, if it is within the cap. */
  lemma SpelledKey(src: Source, s: State, ss: seq<Seg>, rest: Bytes)
    requires TomlTokens.AtKey(src, s) && SegsOk(ss) && ss[0].before == "" && |TokenText(ss)| <= src.maxKeyLength
    requires src.buf[s.off..] == KeyText(ss) + ("=" + rest)
    ensures var end, next := s.off + |TokenText(ss)|, s.off + |KeyText(ss)| + 1;
      && s.off < end < next <= |src.buf| && src.buf[s.off..end] == TokenText(ss)
      && TomlKey.ParseDottedKey(TokenText(ss)) == Some(Parts(ss))
      && ReadToken(src, s) == Read(MakeToken(s, Key, end), AfterKey(src, s, next))
  {
    hide KeyText, SegOk, TomlKey.ParseDottedKey, Loop, CutAfter, AfterKey;
    TokenTrimmed(ss);
    CutRight(ss);
    TomlString.SplitAt(src.buf, s.off, KeyText(ss), "=" + rest);
    Front(src.buf, s.off, KeyText(ss), TokenText(ss), ss[|ss| - 1].after);
    KeyLoop(src, s, ss, rest);
  }

  lemma KeyLoop(src: Source, s: State, ss: seq<Seg>, rest: Bytes)
    requires TomlTokens.AtKey(src, s) && SegsOk(ss) && ss[0].before == "" && |TokenText(ss)| <= src.maxKeyLength
    requires src.buf[s.off..] == KeyText(ss) + ("=" + rest) && TokenText(ss) != ""
    ensures var end, next := s.off + |TokenText(ss)|, s.off + |KeyText(ss)| + 1;
      s.off < next <= |src.buf| && ReadToken(src, s) == Read(MakeToken(s, Key, end), AfterKey(src, s, next))
  {
    hide KeyText, SegOk, ScanKey, Loop, AdvancePosition, TokenText;
    assert s.off < |src.buf| && (IsQuote(src.buf[s.off]) || IsBareKeyChar(src.buf[s.off])) by {
      KeyBegins(ss);
      assert src.buf[s.off] == src.buf[s.off..][0] == KeyText(ss)[0];
    }
    KeyFound(src, s.off, ss, rest);
    KeyReadAt(src, s);
  }

  lemma Front(b: Bytes, i: nat, whole: Bytes, key: Bytes, after: Bytes)
    requires i + |whole| <= |b| && b[i..i + |whole|] == whole && whole == key + after
    ensures b[i..i + |key|] == key
  {
    assert b[i..i + |whole|][..|key|] == b[i..i + |key|];
  }

  lemma KeyReadAt(src: Source, s: State)
    requires TomlTokens.AtKey(src, s) && s.off < |src.buf|
    requires IsQuote(src.buf[s.off]) || IsBareKeyChar(src.buf[s.off])
    ensures ReadToken(src, s) == ReadKey(src, s)
  {
    hide ReadKey, SkipSpaces;
    TomlTokens.NoSpaceAt(src, s);
  }
}
