/** Exactly when the structural scanner of pkg/toml/value.go skips what the token loop skips: the token
    loop counts brackets, the scanner also wants every token to fit the frame it stands in. */
module TomlSkipExact {
  import opened Text
  import opened TomlLexer
  import opened TomlDecoder
  import opened TomlDecoderRuns
  import opened TomlSkip
  import TomlString
  import TomlKey

  // ---------------------------------------------------------------- keys

  predicate PlainByte(c: char) { IsBlank(c) || IsBareKeyChar(c) || c == '.' }

  /** Neither key scanner stops inside bare segments, blanks and dots. */
  lemma {:induction false} PlainBoth(b: Bytes, p: nat, q: nat)
    requires p <= q <= |b| && forall k | p <= k < q :: PlainByte(b[k])
    ensures KeyEnd(b, p) == KeyEnd(b, q) && SkippedKeyEnd(b, p) == SkippedKeyEnd(b, q)
    decreases q - p
  {
    if p < q {
      assert PlainByte(b[p]);
      PlainBoth(b, p + 1, q);
    }
  }

  lemma {:induction false} SpacesToEquals(b: Bytes, p: nat, i: nat)
    requires p <= i < |b| && b[i] == '=' && KeyEnd(b, p) == End(i)
    requires forall k | p <= k < i :: TomlKey.IsSpace(b[k])
    ensures SkippedKeyEnd(b, p) == End(i)
    decreases i - p
  {
    if p < i {
      assert TomlKey.IsSpace(b[p]);
      SpacesToEquals(b, p + 1, i);
    }
  }

  lemma {:induction false} SameQuoteEnd(b: Bytes, q: char, lo: nat, hi: nat, k: nat)
    requires lo <= hi <= |b| && IsQuote(q)
    requires TomlKey.QuoteEnd(b[lo..hi], q, k) < hi - lo && QuotedBodyEnd(b, q, lo + k).Some?
    ensures QuotedBodyEnd(b, q, lo + k).value == lo + TomlKey.QuoteEnd(b[lo..hi], q, k) + 1
    decreases hi - lo - k
  {
    assert b[lo..hi][k] == b[lo + k];
    if b[lo + k] != q {
      SameQuoteEnd(b, q, lo, hi, if b[lo + k] == '\\' && q == '"' then k + 2 else k + 1);
    }
  }

  lemma QuotedSegment(b: Bytes, lo: nat, hi: nat)
    requires lo < hi <= |b| && KeyEnd(b, lo).End? && IsQuote(b[lo]) && TomlKey.QuoteEnd(b[lo..hi], b[lo], 1) < hi - lo
    ensures var n := lo + TomlKey.QuoteEnd(b[lo..hi], b[lo], 1) + 1;
      KeyEnd(b, lo) == KeyEnd(b, n) && SkippedKeyEnd(b, lo) == SkippedKeyEnd(b, n)
  {
    hide QuotedBodyEnd, TomlKey.QuoteEnd, TomlString.ValidString;
    assert ScanQuoted(b, lo).End?;
    SameQuoteEnd(b, b[lo], lo, hi, 1);
  }

  lemma BareSegment(b: Bytes, lo: nat, hi: nat, end: nat)
    requires lo <= lo + end <= hi <= |b| && TomlKey.IsSimpleBareKey(b[lo..hi][..end])
    ensures KeyEnd(b, lo) == KeyEnd(b, lo + end) && SkippedKeyEnd(b, lo) == SkippedKeyEnd(b, lo + end)
  {
    hide KeyEnd, SkippedKeyEnd;
    forall k | lo <= k < lo + end ensures PlainByte(b[k]) {
      assert b[k] == b[lo..hi][..end][k - lo];
    }
    PlainBoth(b, lo, lo + end);
  }

  /** Both key scanners step over one segment of a well-formed key. */
  lemma {:induction false} SegmentBoth(b: Bytes, lo: nat, hi: nat, n: nat)
    requires lo < hi <= |b| && KeyEnd(b, lo).End? && !IsBlank(b[lo])
    requires TomlKey.ParseSegment(b[lo..hi]).Some? && n == hi - |TomlKey.ParseSegment(b[lo..hi]).value.1|
    ensures lo < n <= hi && TomlKey.ParseSegment(b[lo..hi]).value.1 == b[n..hi]
    ensures KeyEnd(b, lo) == KeyEnd(b, n) && SkippedKeyEnd(b, lo) == SkippedKeyEnd(b, n)
  {
    hide KeyEnd, SkippedKeyEnd, TomlString.ParseString, TomlKey.QuoteEnd, TomlKey.BareEnd;
    var raw := b[lo..hi];
    assert raw[0] == b[lo];
    if IsQuote(b[lo]) {
      var end := TomlKey.QuoteEnd(raw, b[lo], 1);
      assert raw[end + 1..] == b[lo + end + 1..hi];
      QuotedSegment(b, lo, hi);
    } else {
      var end := TomlKey.BareEnd(raw, 0);
      assert raw[end..] == b[lo + end..hi];
      BareSegment(b, lo, hi, end);
    }
  }

  lemma BlanksBoth(b: Bytes, lo: nat, hi: nat) returns (n: nat)
    requires lo <= hi <= |b|
    ensures lo <= n <= hi && TrimLeftBlanks(b[lo..hi]) == b[n..hi]
    ensures n < hi ==> !IsBlank(b[n])
    ensures KeyEnd(b, lo) == KeyEnd(b, n) && SkippedKeyEnd(b, lo) == SkippedKeyEnd(b, n)
  {
    var k := BlankEnd(b[lo..hi], 0);
    n := lo + k;
    assert b[lo..hi][k..] == b[n..hi];
    forall j | lo <= j < n ensures PlainByte(b[j]) { assert IsBlank(b[lo..hi][j - lo]); }
    PlainBoth(b, lo, n);
  }

  /** A well-formed key with spaces behind it ends at its equals sign for both scanners. */
  lemma {:induction false} SegmentsBoth(b: Bytes, lo: nat, hi: nat, i: nat)
    requires lo <= hi <= i < |b| && b[i] == '=' && KeyEnd(b, lo) == End(i)
    requires forall k | hi <= k < i :: TomlKey.IsSpace(b[k])
    requires TomlKey.ParseSegments(b[lo..hi]).Some?
    ensures SkippedKeyEnd(b, lo) == End(i)
    decreases hi - lo
  {
    hide KeyEnd, SkippedKeyEnd, TomlKey.ParseSegment, TrimLeftBlanks;
    var p := BlanksBoth(b, lo, hi);
    if p == hi {
      SpacesToEquals(b, p, i);
    } else {
      assert b[p..hi] != [];
      var n := hi - |TomlKey.ParseSegment(b[p..hi]).value.1|;
      SegmentBoth(b, p, hi, n);
      var q := BlanksBoth(b, n, hi);
      if q == hi {
        SpacesToEquals(b, q, i);
      } else {
        assert b[q..hi] != [] && b[q..hi][0] == b[q] && b[q..hi][1..] == b[q + 1..hi];
        PlainBoth(b, q, q + 1);
        SegmentsBoth(b, q + 1, hi, i);
      }
    }
  }

  lemma {:induction false} TrimShape(key: Bytes) returns (m: nat)
    requires key != [] && !TomlKey.IsSpace(key[0])
    ensures 0 < m <= |key| && TomlKey.TrimSpace(key) == key[..m]
    ensures forall k | m <= k < |key| :: TomlKey.IsSpace(key[k])
    decreases |key|
  {
    var last := |key| - 1;
    if TomlKey.IsSpace(key[last]) {
      m := TrimShape(key[..last]);
      assert key[..last][..m] == key[..m];
      forall k | m <= k < |key| ensures TomlKey.IsSpace(key[k]) {
        if k < last { assert key[k] == key[..last][k]; }
      }
    } else {
      m := |key|;
      assert key[..m] == key;
    }
  }

  lemma {:induction false} TrimmedBlanks(raw: Bytes, k: nat)
    requires |TrimRightBlanks(raw)| <= k < |raw|
    ensures IsBlank(raw[k])
    decreases |raw|
  {
    if k < |raw| - 1 { TrimmedBlanks(raw[..|raw| - 1], k); }
  }

  lemma SimpleBack(b: Bytes, start: nat, n: nat, i: nat)
    requires start <= n <= i < |b| && b[i] == '=' && KeyEnd(b, start) == End(i)
    requires TomlKey.IsSimpleBareKey(b[start..n]) && forall k | n <= k < i :: TomlKey.IsSpace(b[k])
    ensures SkippedKeyEnd(b, start) == End(i)
  {
    hide KeyEnd, SkippedKeyEnd;
    forall k | start <= k < n ensures PlainByte(b[k]) { assert IsBareKeyChar(b[start..n][k - start]); }
    PlainBoth(b, start, n);
    SpacesToEquals(b, n, i);
  }

  lemma DottedBack(b: Bytes, start: nat, n: nat, i: nat)
    requires start < n <= i < |b| && b[i] == '=' && KeyEnd(b, start) == End(i) && !TomlKey.IsSpace(b[start])
    requires TomlKey.ParseDottedKey(b[start..n]).Some? && forall k | n <= k < i :: TomlKey.IsSpace(b[k])
    ensures SkippedKeyEnd(b, start) == End(i)
  {
    hide KeyEnd, SkippedKeyEnd, TomlKey.ParseSegments, TomlKey.TrimSpace, TomlKey.IsSpace;
    var key := b[start..n];
    assert key[0] == b[start];
    var m := TrimShape(key);
    assert key[..m] == b[start..start + m];
    forall k | start + m <= k < i ensures TomlKey.IsSpace(b[k]) {
      if k < n { assert b[k] == key[k - start]; }
    }
    SegmentsBoth(b, start, start + m, i);
  }

  lemma KeySpaces(b: Bytes, start: nat, i: nat) returns (n: nat)
    requires start < i <= |b| && !IsBlank(b[start])
    ensures start < n <= i && TrimRightBlanks(b[start..i]) == b[start..n]
    ensures forall k | n <= k < i :: TomlKey.IsSpace(b[k])
  {
    hide TrimRightBlanks;
    var raw := b[start..i];
    var key := TrimRightBlanks(raw);
    assert raw[0] == b[start];
    n := start + |key|;
    assert key == raw[..|key|] == b[start..n];
    forall k | n <= k < i ensures TomlKey.IsSpace(b[k]) {
      TrimmedBlanks(raw, k - start);
      assert raw[k - start] == b[k];
    }
  }

  /** `scanSkippedInlineKey` accepts every key that `scanKeyToken` accepts. */
  lemma KeyBack(src: Source, start: nat)
    requires start < |src.buf| && !IsBlank(src.buf[start]) && ScanKey(src, start).KeyAt?
    ensures SkippedKey(src, start).End?
  {
    hide KeyEnd, SkippedKeyEnd, TomlKey.ParseDottedKey, TomlKey.IsSimpleBareKey, TrimRightBlanks;
    var b := src.buf;
    var i := KeyEnd(b, start).end;
    EqualsAt(b, start);
    NotNewline(b, start);
    var n := KeySpaces(b, start, i);
    if TomlKey.IsSimpleBareKey(b[start..n]) { SimpleBack(b, start, n, i); } else { DottedBack(b, start, n, i); }
  }

  /** A key token's scan stops on its equals sign. */
  lemma {:induction false} EqualsAt(b: Bytes, i: nat)
    requires i <= |b| && KeyEnd(b, i).End?
    ensures var e := KeyEnd(b, i).end; e < |b| ==> b[e] == '=' || b[e] == '#' || IsNewline(b[e])
    decreases |b| - i
  {
    if i < |b| && b[i] != '=' && b[i] != '#' && !IsNewline(b[i]) {
      EqualsAt(b, if IsQuote(b[i]) then ScanQuoted(b, i).end else i + 1);
    }
  }

  lemma NotNewline(b: Bytes, i: nat)
    requires i < |b| && KeyEnd(b, i).End? && KeyEnd(b, i).end != i
    ensures !IsNewline(b[i])
  {}

  // ---------------------------------------------------------------- space

  /** A lone CR where a value, key or separator is due. */
  lemma CrFails(src: Source, t: State)
    requires Ready(src, t) && t.off < |src.buf| && src.buf[t.off] == '\r'
    ensures !ReadToken(src, t).out.Got?
  {
    hide AdvancePosition, SkipSpaces, ScanString;
    assert KeyEnd(src.buf, t.off) == End(t.off);
    assert ScanBareValue(src.buf, t.off) == t.off;
    ReadAtByte(src, t);
  }

  lemma SpaceStops(src: Source, i: nat)
    requires i < |src.buf| && !IsBlank(src.buf[i]) && src.buf[i] != '\n' && !TomlString.IsCrLf(src.buf, i)
    requires StructuralSpace(src.buf, i).Reject?
    ensures src.buf[i] == '\r' || src.buf[i] == '#'
  {}

  /** Where the scanner finds bad space, no token fits. */
  lemma {:induction false} SpaceBack(src: Source, outer: int, d: State, frames: seq<Frame>)
    requires InBounds(src, d) && FlagInv(d) && !d.failed && !d.needLineEnd && !d.valueNoNewline
    requires frames != [] && frames[|frames| - 1] != InlineValue
    requires StructuralSpace(src.buf, d.off).Reject?
    ensures !Conforms(src, outer, d, frames)
    decreases |src.buf| - d.off
  {
    hide Conforms, AdvancePosition, SkipSpaces, SlowSkip;
    var t := SkipSpaces(src, d);
    SkipSpacesFlags(src, d);
    SkipSpacesStop(src, d);
    SkipSpacesTwice(src, d);
    SpaceOverSkipped(src, d);
    ConformAfterSpaces(src, outer, d, frames);
    if t.off < |src.buf| {
      SpaceStops(src, t.off);
      if src.buf[t.off] == '#' && ScanComment(src.buf, t.off).End? {
        var u := CommentStep(src, outer, t, frames);
        SpaceBack(src, outer, u, frames);
      } else if src.buf[t.off] == '#' {
        CommentRead(src, t);
        NoToken(src, outer, t, frames);
      } else {
        CrFails(src, t);
        NoToken(src, outer, t, frames);
      }
    }
  }

  lemma NoToken(src: Source, outer: int, t: State, frames: seq<Frame>)
    requires InBounds(src, t) && FlagInv(t) && frames != [] && !ReadToken(src, t).out.Got?
    ensures !Conforms(src, outer, t, frames)
  {}

  // ---------------------------------------------------------------- one token

  /** Reading at `t` gives no token, or one that fits nowhere in `frames`. */
  lemma Misfit(src: Source, outer: int, t: State, frames: seq<Frame>)
    requires Ready(src, t) && t.off < |src.buf| && frames != []
    requires !(t.atLineStart && !t.expectingValue && src.buf[t.off] == '[')
    requires var d := DispatchToken(src, t);
      d.Done? && (d.read.out.Got? ==> Fit(src, outer, frames, Mark(d.read.out.token.kind, false)).None?)
    ensures !Conforms(src, outer, t, frames)
  {
    hide Conforms, AdvancePosition, SkipSpaces, Fit, CountKind;
    if DispatchToken(src, t).read.out.Got? {
      ConformStep(src, outer, t, frames);
    } else {
      ReadAtByte(src, t);
      NoToken(src, outer, t, frames);
    }
  }

  /** No header fits inside a value. */
  lemma HeaderMisfit(src: Source, outer: int, t: State, frames: seq<Frame>)
    requires Ready(src, t) && t.off < |src.buf| && frames != []
    requires t.atLineStart && !t.expectingValue && src.buf[t.off] == '['
    ensures !Conforms(src, outer, t, frames)
  {
    hide AdvancePosition, SkipSpaces, CountKind, HeaderEnd, HeaderKey, AtComma, FlagInv;
    var isArray := t.off + 1 < |src.buf| && src.buf[t.off + 1] == '[';
    assert Iterate(src, t) == Done(ReadHeader(src, t, isArray));
    assert ReadToken(src, t) == ReadHeader(src, t, isArray);
  }

  /** A token that does not fit, by the frame and the byte it starts with. */
  lemma WrongBracket(src: Source, base: State, f: Fast, t: State)
    requires f.frames != [] && Sim(src, base, f, t) && Ready(src, t) && t.off < |src.buf|
    requires var c := src.buf[t.off];
      || (c == ']' && (KindOf(Top(f)) == InlineContainer || Top(f) == InlineValue))
      || (c == '}' && (KindOf(Top(f)) == ArrayContainer || Top(f) == InlineValue))
      || ((c == '[' || c == '{') && Top(f) != ArrayValue && Top(f) != InlineValue)
    ensures !Conforms(src, base.inlineDepth, t, f.frames)
  {
    hide Conforms, AdvancePosition, SkipSpaces, CountKind, Kinds, ReadScalar, ReadKey, ReadComment, Iterate, AfterValue;
    if t.atLineStart && !t.expectingValue && src.buf[t.off] == '[' {
      HeaderMisfit(src, base.inlineDepth, t, f.frames);
    } else {
      Misfit(src, base.inlineDepth, t, f.frames);
    }
  }

  lemma WrongByte(src: Source, base: State, f: Fast, t: State)
    requires f.frames != [] && Sim(src, base, f, t) && Ready(src, t) && t.off < |src.buf|
    requires var c := src.buf[t.off];
      || c == '=' || (c == ',' && !t.needSeparator)
      || (t.needSeparator && c != '[' && c != '{' && c != ']' && c != '}' && c != '#' && c != ',')
    ensures !Conforms(src, base.inlineDepth, t, f.frames)
  {
    hide Conforms, AdvancePosition, SkipSpaces, CountKind, Kinds, ReadScalar, ReadKey, ReadComment, ReadArrayStart,
      ReadInlineStart, ReadArrayEnd, ReadInlineEnd, Iterate;
    SimFlagInv(src, base, f, t);
    Misfit(src, base.inlineDepth, t, f.frames);
  }

  /** Too many arrays: the token loop notices at the next token. */
  lemma ArrayBack(src: Source, base: State, f: Fast, t: State)
    requires f.frames != [] && Sim(src, base, f, t) && Ready(src, t) && t.off < |src.buf|
    requires src.buf[t.off] == '[' && (Top(f) == ArrayValue || Top(f) == InlineValue)
    requires Conforms(src, base.inlineDepth, t, f.frames)
    ensures !TooDeep(src, f.arrayDepth + 1)
  {
    hide AdvancePosition, SkipSpaces, CountKind, Kinds, ReadScalar, ReadKey, ReadComment, Iterate, Conforms, TooDeep;
    ConformStep(src, base.inlineDepth, t, f.frames);
    var r := ReadArrayStart(src, t);
    if TooDeep(src, f.arrayDepth + 1) {
      var g := Fit(src, base.inlineDepth, f.frames, Mark(ArrayStart, false)).value;
      NoToken(src, base.inlineDepth, r.st, g);
    }
  }

  lemma InlineBack(src: Source, base: State, f: Fast, t: State)
    requires f.frames != [] && Sim(src, base, f, t) && Ready(src, t) && t.off < |src.buf|
    requires src.buf[t.off] == '{' && (Top(f) == ArrayValue || Top(f) == InlineValue)
    requires Conforms(src, base.inlineDepth, t, f.frames)
    ensures !TooDeep(src, f.inlineDepth + 1)
  {
    hide AdvancePosition, SkipSpaces, CountKind, Kinds, ReadScalar, ReadKey, ReadComment, Iterate, Conforms, TooDeep;
    ConformStep(src, base.inlineDepth, t, f.frames);
  }

  lemma ScalarBack(src: Source, base: State, f: Fast, t: State)
    requires f.frames != [] && Sim(src, base, f, t) && Ready(src, t) && t.off < |src.buf|
    requires var c := src.buf[t.off]; c != '[' && c != '{' && c != ']' && c != '}' && c != '#' && c != '=' && c != ','
    requires Top(f) == ArrayValue || Top(f) == InlineValue
    requires Conforms(src, base.inlineDepth, t, f.frames)
    ensures ScalarEnd(src, t.off).End?
  {
    hide AdvancePosition, SkipSpaces, CountKind, Kinds, ScalarEnd, ReadKey, ReadComment, Iterate, Conforms, Fit;
    if ScalarEnd(src, t.off).Reject? { Misfit(src, base.inlineDepth, t, f.frames); }
  }

  lemma CommentBack(src: Source, base: State, f: Fast, t: State)
    requires f.frames != [] && Sim(src, base, f, t) && Ready(src, t) && t.off < |src.buf|
    requires src.buf[t.off] == '#' && Top(f) == InlineValue
    ensures !Conforms(src, base.inlineDepth, t, f.frames)
  {
    hide AdvancePosition, SkipSpaces, CountKind, Kinds, ReadScalar, ReadKey, Iterate, Conforms, ScanComment;
    Misfit(src, base.inlineDepth, t, f.frames);
  }

  /** Where a value is due, a fitting token is one the scanner takes. */
  lemma ValueBack(src: Source, base: State, f: Fast, t: State)
    requires f.frames != [] && Sim(src, base, f, t) && Ready(src, t) && t.off < |src.buf|
    requires Top(f) == InlineValue || (Top(f) == ArrayValue && src.buf[t.off] != ']' && src.buf[t.off] != '#')
    requires Conforms(src, base.inlineDepth, t, f.frames)
    ensures SkippedValue(src, WithTop(f, Separated(Top(f)))).Next?
  {
    hide AdvancePosition, SkipSpaces, CountKind, Kinds, ScalarEnd, Conforms, TooDeep, Ready;
    var c := src.buf[t.off];
    if c == ']' || c == '}' { WrongBracket(src, base, f, t); }
    else if c == '[' { ArrayBack(src, base, f, t); }
    else if c == '{' { InlineBack(src, base, f, t); }
    else if c == '=' || c == ',' { WrongByte(src, base, f, t); }
    else if c == '#' { CommentBack(src, base, f, t); }
    else { ScalarBack(src, base, f, t); }
  }

  lemma SeparatorBack(src: Source, base: State, f: Fast, t: State)
    requires f.frames != [] && Sim(src, base, f, t) && Ready(src, t) && t.off < |src.buf| && src.buf[t.off] != '#'
    requires Top(f) == ArraySeparator || Top(f) == InlineSeparator
    requires Conforms(src, base.inlineDepth, t, f.frames)
    ensures src.buf[t.off] == ',' || src.buf[t.off] == if Top(f) == ArraySeparator then ']' else '}'
  {
    hide AdvancePosition, SkipSpaces, CountKind, Kinds, Conforms, Ready;
    var c := src.buf[t.off];
    if c == '[' || c == '{' || (c == ']' && Top(f) == InlineSeparator) || (c == '}' && Top(f) == ArraySeparator) {
      WrongBracket(src, base, f, t);
    } else if c != ']' && c != '}' && c != ',' {
      WrongByte(src, base, f, t);
    }
  }

  lemma KeyPlace(src: Source, base: State, f: Fast, t: State)
    requires f.frames != [] && Sim(src, base, f, t) && Ready(src, t) && t.off < |src.buf|
    requires Top(f) == InlineKey && src.buf[t.off] != '#' && src.buf[t.off] != '}'
    requires Conforms(src, base.inlineDepth, t, f.frames)
    ensures SkippedKey(src, t.off).End?
  {
    hide AdvancePosition, SkipSpaces, CountKind, Kinds, Conforms, Iterate, ReadScalar, ReadComment, ReadArrayStart,
      ReadInlineStart, ReadArrayEnd, ReadInlineEnd, ScanKey, SkippedKey, Fit;
    var c := src.buf[t.off];
    if c == '[' || c == '{' || c == ']' { WrongBracket(src, base, f, t); }
    else if c == '=' || c == ',' { WrongByte(src, base, f, t); }
    else if ScanKey(src, t.off).BadKey? { Misfit(src, base.inlineDepth, t, f.frames); }
    else {
      SkipSpacesStop(src, t);
      KeyBack(src, t.off);
    }
  }

  lemma {:induction false} DispatchBack(src: Source, base: State, f: Fast, t: State)
    requires f.frames != [] && Sim(src, base, f, t) && Ready(src, t) && t.off < |src.buf|
    requires Top(f) == InlineValue || src.buf[t.off] != '#'
    requires Conforms(src, base.inlineDepth, t, f.frames)
    ensures FastDispatch(src, f).Next?
  {
    hide AdvancePosition, SkipSpaces, CountKind, Kinds, Conforms, Ready, ScalarEnd, SkippedKey, SkippedValue;
    match Top(f) {
      case ArrayValue => if src.buf[t.off] != ']' { ValueBack(src, base, f, t); }
      case ArraySeparator => SeparatorBack(src, base, f, t);
      case InlineKey => if src.buf[t.off] != '}' { KeyPlace(src, base, f, t); }
      case InlineValue => ValueBack(src, base, f, t);
      case InlineSeparator => SeparatorBack(src, base, f, t);
    }
  }

  // ---------------------------------------------------------------- whole values

  lemma {:induction false} SpaceEnds(b: Bytes, i: nat)
    requires i <= |b| && StructuralSpace(b, i).End? && StructuralSpace(b, i).end < |b|
    ensures b[StructuralSpace(b, i).end] != '#'
    decreases |b| - i
  {
    hide ScanComment;
    if IsBlank(b[i]) || b[i] == '\n' { SpaceEnds(b, i + 1); }
    else if b[i] == '\r' { SpaceEnds(b, i + 2); }
    else if b[i] == '#' { SpaceEnds(b, ScanComment(b, i).end); }
  }

  /** Before the scanner's next byte: good space, and a byte that is there. */
  lemma FrameSpaceBack(src: Source, base: State, f: Fast, d: State)
    requires f.frames != [] && Sim(src, base, f, d) && FlagInv(d) && Conforms(src, base.inlineDepth, d, f.frames)
    ensures FrameSpace(src.buf, f).End?
  {
    hide AdvancePosition, SkipSpaces, Conforms, CountKind, Kinds;
    if Top(f) != InlineValue && StructuralSpace(src.buf, f.i).Reject? {
      SpaceBack(src, base.inlineDepth, d, f.frames);
    }
  }

  /** If the tokens close the frames, each one fitting, the scanner gets to the end. */
  lemma {:induction false} RunBack(src: Source, base: State, f: Fast, d: State)
    requires Sim(src, base, f, d) && FlagInv(d) && Conforms(src, base.inlineDepth, d, f.frames)
    ensures FastRun(src, f).End?
    decreases |src.buf| - f.i
  {
    hide AdvancePosition, SkipSpaces, Conforms, CountKind, Kinds, FastDispatch, StructuralSpace, SlowSkip;
    if f.frames != [] {
      FrameSpaceBack(src, base, f, d);
      var t := SpaceSim(src, base, f, d);
      var h := f.(i := FrameSpace(src.buf, f).end);
      if t.off >= |src.buf| {
        NothingLeft(src, t);
        NoToken(src, base.inlineDepth, t, f.frames);
      } else {
        if Top(f) != InlineValue { SpaceEnds(src.buf, f.i); }
        DispatchBack(src, base, h, t);
        var u := DispatchSim(src, base, h, t);
        RunBack(src, base, FastDispatch(src, h).f, u);
      }
    }
  }

  lemma NothingLeft(src: Source, t: State)
    requires InBounds(src, t) && SkipSpaces(src, t) == t && t.off >= |src.buf|
    ensures !ReadToken(src, t).out.Got?
  {}

  // ---------------------------------------------------------------- the tokens of the skip loop

  /** What the token loop reads until it stops. */
  function SkipMarks(src: Source, s: State, depth: nat): seq<Mark>
    requires InBounds(src, s) && FlagInv(s)
    decreases |src.buf| - s.off
  {
    if depth == 0 then [] else
      var r := ReadToken(src, s);
      if !r.out.Got? then [] else
        LoopOk(src, s);
        [Mark(r.out.token.kind, AtComma(src, s))] + SkipMarks(src, r.st, DepthAfter(depth, r.out.token.kind))
  }

  /** The marks close the frames, each one fitting: a property of the tokens alone. */
  predicate Grammatical(src: Source, outer: int, frames: seq<Frame>, marks: seq<Mark>)
    decreases |marks|
  {
    if marks == [] then frames == []
    else
      frames != [] && Fit(src, outer, frames, marks[0]).Some?
      && Grammatical(src, outer, Fit(src, outer, frames, marks[0]).value, marks[1..])
  }

  lemma {:induction false} ConformsMeans(src: Source, outer: int, s: State, frames: seq<Frame>)
    requires InBounds(src, s) && FlagInv(s)
    ensures Conforms(src, outer, s, frames)
            <==> SlowSkip(src, s, |frames|).Some? && Grammatical(src, outer, frames, SkipMarks(src, s, |frames|))
    decreases |src.buf| - s.off
  {
    hide AdvancePosition, SkipSpaces, Fit, AtComma, Loop;
    if frames != [] {
      var r := ReadToken(src, s);
      if r.out.Got? {
        LoopOk(src, s);
        var m := Mark(r.out.token.kind, AtComma(src, s));
        var rest := SkipMarks(src, r.st, DepthAfter(|frames|, m.kind));
        assert SkipMarks(src, s, |frames|)[1..] == rest;
        var g := Fit(src, outer, frames, m);
        if g.Some? { ConformsMeans(src, outer, r.st, g.value); }
      }
    }
  }

  // ---------------------------------------------------------------- the theorem

  function Bracket(c: char): Container { if c == '[' then ArrayContainer else InlineContainer }

  function FirstFrame(c: Container): Frame { if c == ArrayContainer then ArrayValue else InlineKey }

  /** The value ahead starts with a bracket, and the tokens the skip loop reads fit the frames it opens. */
  predicate Structured(src: Source, s: State)
    requires InBounds(src, s) && FlagInv(s) && s.expectingValue
  {
    var t := SkipSpaces(src, s);
    t.off < |src.buf| && (src.buf[t.off] == '[' || src.buf[t.off] == '{') &&
      (SkipSpacesFlags(src, s);
       var c := Bracket(src.buf[t.off]);
       && (c == InlineContainer ==> !TooDeep(src, t.inlineDepth + 1))
       && Grammatical(src, t.inlineDepth, [FirstFrame(c)], SkipMarks(src, OpenRead(src, t, c).st, 1)))
  }

  /** From the opening bracket on. */
  lemma BracketExactly(src: Source, t: State, c: Container)
    requires InBounds(src, t) && FlagInv(t) && t.expectingValue && !t.failed && t.off < |src.buf|
    ensures FlagInv(OpenRead(src, t, c).st)
    ensures var p := Push(src, Fast(t.off, [], t.arrayDepth, t.inlineDepth), c);
      && (p.Next? && FastRun(src, p.f).End?
         <==> (c == InlineContainer ==> !TooDeep(src, t.inlineDepth + 1))
              && SlowSkip(src, OpenRead(src, t, c).st, 1).Some?
              && Grammatical(src, t.inlineDepth, [FirstFrame(c)], SkipMarks(src, OpenRead(src, t, c).st, 1)))
  {
    hide AdvancePosition, SkipSpaces, Conforms, FastRun, Grammatical, SkipMarks;
    var d := OpenRead(src, t, c).st;
    var p := Push(src, Fast(t.off, [], t.arrayDepth, t.inlineDepth), c);
    if p.Next? {
      var f := p.f;
      assert f.frames == [FirstFrame(c)];
      EnterSim(src, t, c);
      ConformsMeans(src, t.inlineDepth, d, f.frames);
      if FastRun(src, f).End? { var final := RunSim(src, t, f, d); }
      if Conforms(src, t.inlineDepth, d, f.frames) { RunBack(src, t, f, d); }
    } else if c == ArrayContainer {
      assert d.failed;
      assert SlowSkip(src, d, 1).None?;
    }
  }

  /** From any decoder about to read a value, the fast structural skip succeeds if and only if the
      token-by-token skip does and its tokens fit the frames: closing brackets match, every key has its
      value, containers stand only where a value is due, with a comma between elements, and inline
      tables respect the nesting cap. The states then agree by `FastSkipIsTokenSkip`. */
  lemma {:induction false} FastSkipExactly(src: Source, s: State)
    requires InBounds(src, s) && FlagInv(s) && s.expectingValue
    ensures SkipFast(src, s).Skipped? <==> SlowSkipNext(src, s).Some? && Structured(src, s)
  {
    hide AdvancePosition, SkipSpaces, Grammatical, SkipMarks, FastRun, SlowSkip, Loop;
    var t := SkipSpaces(src, s);
    SkipSpacesFlags(src, s);
    if !s.failed && t.off < |src.buf| && (src.buf[t.off] == '[' || src.buf[t.off] == '{') {
      var c := Bracket(src.buf[t.off]);
      EnterSlow(src, s, c);
      BracketExactly(src, t, c);
    }
  }

  // ---------------------------------------------------------------- where they differ

  predicate ValueAhead(s: State) {
    s.off == 0 && FlagInv(s) && s.expectingValue && !s.failed && s.arrayDepth == 0 && s.inlineDepth == 0
  }

  lemma AtToken(src: Source, t: State)
    requires t.off < |src.buf| && FlagInv(t) && !t.failed && !t.needLineEnd
    requires !IsBlank(src.buf[t.off]) && !IsNewline(src.buf[t.off])
    ensures Ready(src, t)
  {}

  /** The token loop takes a bracket and goes on behind it. */
  lemma TakesBracket(src: Source, t: State, depth: nat, r: Read)
    requires t.off < |src.buf| && FlagInv(t) && !t.failed && !t.needLineEnd && !t.atLineStart && depth > 0
    requires match src.buf[t.off]
      case '[' => r == ReadArrayStart(src, t) && (InnermostIsArray(t) ==> t.expectingValue)
      case '{' => r == ReadInlineStart(src, t) && (InnermostIsArray(t) ==> t.expectingValue)
      case ']' => r == ReadArrayEnd(src, t)
      case '}' => r == ReadInlineEnd(src, t)
      case _ => false
    ensures FlagInv(r.st) && SlowSkip(src, t, depth) == SlowSkip(src, r.st, DepthAfter(depth, r.out.token.kind))
  {
    hide AdvancePosition, SkipSpaces, SlowSkip, ReadScalar, ReadKey, ReadComment;
    AtToken(src, t);
    SlowStep(src, t, depth);
  }

  lemma SkipDone(src: Source, s: State)
    requires InBounds(src, s) && FlagInv(s)
    ensures SlowSkip(src, s, 0) == Some(s)
  {}

  lemma PopPushed(stack: seq<Container>, c: Container)
    ensures Popped(stack + [c], c) == stack
  {}

  lemma CloseFacts(src: Source, t: State, r: Read)
    requires t.off < |src.buf| && r == (if src.buf[t.off] == ']' then ReadArrayEnd(src, t) else ReadInlineEnd(src, t))
    ensures r.out.Got? && r.out.token.kind == if src.buf[t.off] == ']' then ArrayEnd else InlineEnd
    ensures r.st.off == t.off + 1 && r.st.failed == t.failed && !r.st.atLineStart
    ensures r.st.stack == Popped(t.stack, if src.buf[t.off] == ']' then ArrayContainer else InlineContainer)
    ensures r.st.needLineEnd == (r.st.stack == []) && r.st.expectingValue == InnermostIsArray(r.st)
  {
    hide AdvancePosition, Popped;
  }

  /** The token loop over a closing bracket. */
  lemma Closes(src: Source, t: State, depth: nat) returns (d: State)
    requires t.off < |src.buf| && FlagInv(t) && !t.failed && !t.needLineEnd && !t.atLineStart && depth > 0
    requires src.buf[t.off] == ']' || src.buf[t.off] == '}'
    ensures FlagInv(d) && d.off == t.off + 1 && !d.failed && !d.atLineStart
    ensures d.stack == Popped(t.stack, if src.buf[t.off] == ']' then ArrayContainer else InlineContainer)
    ensures d.needLineEnd == (d.stack == []) && d.expectingValue == InnermostIsArray(d)
    ensures SlowSkip(src, t, depth) == SlowSkip(src, d, depth - 1)
  {
    hide AdvancePosition, SkipSpaces, SlowSkip, Popped, InnermostIsArray, ReadArrayEnd, ReadInlineEnd;
    var r := if src.buf[t.off] == ']' then ReadArrayEnd(src, t) else ReadInlineEnd(src, t);
    TakesBracket(src, t, depth, r);
    CloseFacts(src, t, r);
    d := r.st;
  }

  /** The token loop over an empty container: back in the same container, behind a value. */
  lemma Empty(src: Source, t: State, depth: nat) returns (d: State)
    requires t.off + 1 < |src.buf| && FlagInv(t) && !t.failed && !t.needLineEnd && !t.atLineStart && depth > 0
    requires src.buf[t.off..t.off + 2] == "[]" || src.buf[t.off..t.off + 2] == "{}"
    requires t.stack != [] && (InnermostIsArray(t) ==> t.expectingValue) && !TooDeep(src, t.arrayDepth + 1)
    ensures FlagInv(d) && d.off == t.off + 2 && !d.failed && !d.atLineStart && !d.needLineEnd
    ensures d.stack == t.stack && d.expectingValue == InnermostIsArray(t)
    ensures SlowSkip(src, t, depth) == SlowSkip(src, d, depth)
  {
    hide AdvancePosition, SkipSpaces, SlowSkip, Popped;
    assert src.buf[t.off] == src.buf[t.off..t.off + 2][0] && src.buf[t.off + 1] == src.buf[t.off..t.off + 2][1];
    var c := Bracket(src.buf[t.off]);
    TakesBracket(src, t, depth, OpenRead(src, t, c));
    PopPushed(t.stack, c);
    d := Closes(src, OpenRead(src, t, c).st, depth + 1);
  }

  /** Elements that are containers need no comma between them for the token loop. */
  lemma MissingCommaAccepted(src: Source, s: State)
    requires src.buf == "[[][]]" && ValueAhead(s) && src.maxNestedDepth <= 0
    ensures SlowSkipNext(src, s).Some? && SkipFast(src, s).Failed?
  {
    hide AdvancePosition, SkipSpaces, SlowSkip, SlowSkipNext, SkipFast, Popped;
    Unmoved(src, s);
    EnterSlow(src, s, ArrayContainer);
    assert src.buf[1..3] == "[]" && src.buf[3..5] == "[]";
    var d := Empty(src, ReadArrayStart(src, s).st, 1);
    d := Empty(src, d, 1);
    d := Closes(src, d, 1);
    SkipDone(src, d);
    CommaRefused(src, s);
  }

  lemma Unmoved(src: Source, s: State)
    requires s.off < |src.buf| && !IsBlank(src.buf[s.off]) && !IsNewline(src.buf[s.off])
    ensures SkipSpaces(src, s) == s
  {}

  lemma NoSpace(b: Bytes, i: nat)
    requires i < |b| && !IsBlank(b[i]) && !IsNewline(b[i]) && b[i] != '#'
    ensures StructuralSpace(b, i) == End(i) && BlankEnd(b, i) == i
  {}

  lemma CommaRefused(src: Source, s: State)
    requires src.buf == "[[][]]" && ValueAhead(s) && src.maxNestedDepth <= 0
    ensures SkipFast(src, s).Failed?
  {
    hide AdvancePosition, SkipSpaces, StructuralSpace, FastRun, FastStep;
    Unmoved(src, s);
    var f1 := Fast(1, [ArrayValue], 1, 0);
    var f2 := Fast(2, [ArraySeparator, ArrayValue], 2, 0);
    var f3 := Fast(3, [ArraySeparator], 1, 0);
    assert SkippedValue(src, Fast(0, [], 0, 0)) == Next(f1);
    assert FastStep(src, f1) == Next(f2) by { StepAt(src, f1); }
    assert FastStep(src, f2) == Next(f3) by { StepAt(src, f2); }
    assert FastStep(src, f3).Bad? by { StepAt(src, f3); }
    RunStep(src, f3);
    RunStep(src, f2);
    RunStep(src, f1);
  }

  lemma StepAt(src: Source, f: Fast)
    requires f.frames != [] && f.i < |src.buf|
    requires !IsBlank(src.buf[f.i]) && !IsNewline(src.buf[f.i]) && src.buf[f.i] != '#'
    ensures FastStep(src, f) == FastDispatch(src, f)
  {
    hide FastDispatch;
    NoSpace(src.buf, f.i);
  }

  lemma RunStep(src: Source, f: Fast)
    requires f.frames != [] && f.i <= |src.buf|
    ensures FastRun(src, f).Reject? <==> FastStep(src, f).Bad? || FastRun(src, FastStep(src, f).f).Reject?
  {}

  /** An inline table nested one deeper than the cap: well-formed TOML that only the scanner refuses,
      because the token loop does not count inline tables against the cap. */
  lemma InlineCapMissed(src: Source, s: State)
    requires src.buf == "{a={}}" && ValueAhead(s) && src.maxNestedDepth == 1 && src.maxKeyLength > 0
    ensures SlowSkipNext(src, s).Some? && SkipFast(src, s).Failed?
  {
    hide AdvancePosition, SkipSpaces, SlowSkip, SlowSkipNext, SkipFast, ReadKey, Popped;
    Unmoved(src, s);
    EnterSlow(src, s, InlineContainer);
    var d1 := ReadInlineStart(src, s).st;
    OneKey(src, d1, 1);
    assert src.buf[3..5] == "{}";
    var d := Empty(src, ReadKey(src, d1).st, 1);
    d := Closes(src, d, 1);
    SkipDone(src, d);
    CapRefused(src, s);
  }

  lemma OneLetterKey(src: Source, k: nat)
    requires k + 1 < |src.buf| && IsBareKeyChar(src.buf[k]) && src.buf[k + 1] == '=' && src.maxKeyLength > 0
    ensures ScanKey(src, k) == KeyAt(k + 1, k + 2) && SkippedKey(src, k) == End(k + 2)
  {
    assert KeyEnd(src.buf, k + 1) == End(k + 1) && SkippedKeyEnd(src.buf, k + 1) == End(k + 1);
    assert KeyEnd(src.buf, k) == End(k + 1) && SkippedKeyEnd(src.buf, k) == End(k + 1);
    var key := src.buf[k..k + 1];
    assert key[0] == src.buf[k] && TrimRightBlanks(key) == key;
    assert TomlKey.IsSimpleBareKey(key);
    assert BlankEnd(src.buf, k + 1) == k + 1;
  }

  lemma OneKey(src: Source, t: State, depth: nat)
    requires |src.buf| > 3 && src.buf[1] == 'a' && src.buf[2] == '=' && src.maxKeyLength > 0
    requires t.off == 1 && FlagInv(t) && !t.failed && !t.needLineEnd && !t.expectingValue && !t.needSeparator
    requires depth > 0
    ensures var d := ReadKey(src, t).st;
      && FlagInv(d) && d == Advance(src, t, 3).(expectingValue := true, valueNoNewline := true, needLineEnd := false)
      && SlowSkip(src, t, depth) == SlowSkip(src, d, depth)
  {
    hide AdvancePosition, SkipSpaces, SlowSkip, ScanKey, SkippedKey;
    OneLetterKey(src, 1);
    AtToken(src, t);
    SlowStep(src, t, depth);
  }

  lemma CapRefused(src: Source, s: State)
    requires src.buf == "{a={}}" && ValueAhead(s) && src.maxNestedDepth == 1 && src.maxKeyLength > 0
    ensures SkipFast(src, s).Failed?
  {
    hide AdvancePosition, SkipSpaces, StructuralSpace, FastRun, FastStep, SkippedKey, BlankEnd;
    Unmoved(src, s);
    OneLetterKey(src, 1);
    var f1 := Fast(1, [InlineKey], 0, 1);
    var f2 := Fast(3, [InlineValue], 0, 1);
    assert SkippedValue(src, Fast(0, [], 0, 0)) == Next(f1);
    assert FastStep(src, f1) == Next(f2) by { StepAt(src, f1); }
    assert FastStep(src, f2).Bad? by { StepAt(src, f2); }
    RunStep(src, f2);
    RunStep(src, f1);
  }

  /** A key without a value. */
  lemma MissingValueAccepted(src: Source, s: State)
    requires src.buf == "{a=}" && ValueAhead(s) && src.maxNestedDepth <= 0 && src.maxKeyLength > 0
    ensures SlowSkipNext(src, s).Some? && SkipFast(src, s).Failed?
  {
    hide AdvancePosition, SkipSpaces, SlowSkip, SlowSkipNext, SkipFast, ReadKey, Popped;
    Unmoved(src, s);
    EnterSlow(src, s, InlineContainer);
    var d1 := ReadInlineStart(src, s).st;
    OneKey(src, d1, 1);
    var d := Closes(src, ReadKey(src, d1).st, 1);
    SkipDone(src, d);
    ValueRefused(src, s);
  }

  /** A container in key position. */
  lemma ContainerKeyAccepted(src: Source, s: State)
    requires src.buf == "{[]}" && ValueAhead(s) && src.maxNestedDepth <= 0
    ensures SlowSkipNext(src, s).Some? && SkipFast(src, s).Failed?
  {
    hide AdvancePosition, SkipSpaces, SlowSkip, SlowSkipNext, SkipFast, ReadKey, Popped;
    Unmoved(src, s);
    EnterSlow(src, s, InlineContainer);
    assert src.buf[1..3] == "[]";
    var d := Empty(src, ReadInlineStart(src, s).st, 1);
    d := Closes(src, d, 1);
    SkipDone(src, d);
    ContainerRefused(src, s);
  }

  lemma ValueRefused(src: Source, s: State)
    requires src.buf == "{a=}" && ValueAhead(s) && src.maxNestedDepth <= 0 && src.maxKeyLength > 0
    ensures SkipFast(src, s).Failed?
  {
    hide AdvancePosition, SkipSpaces, StructuralSpace, FastRun, FastStep, SkippedKey, BlankEnd, ScalarEnd;
    Unmoved(src, s);
    OneLetterKey(src, 1);
    var f1 := Fast(1, [InlineKey], 0, 1);
    var f2 := Fast(3, [InlineValue], 0, 1);
    assert SkippedValue(src, Fast(0, [], 0, 0)) == Next(f1);
    assert FastStep(src, f1) == Next(f2) by { StepAt(src, f1); }
    assert ScalarEnd(src, 3).Reject?;
    assert FastStep(src, f2).Bad? by { StepAt(src, f2); }
    RunStep(src, f2);
    RunStep(src, f1);
  }

  lemma ContainerRefused(src: Source, s: State)
    requires src.buf == "{[]}" && ValueAhead(s) && src.maxNestedDepth <= 0
    ensures SkipFast(src, s).Failed?
  {
    hide AdvancePosition, SkipSpaces, StructuralSpace, FastRun, FastStep, BlankEnd;
    Unmoved(src, s);
    var f1 := Fast(1, [InlineKey], 0, 1);
    assert SkippedValue(src, Fast(0, [], 0, 0)) == Next(f1);
    assert SkippedKeyEnd(src.buf, 3).Reject?;
    assert SkippedKeyEnd(src.buf, 2).Reject?;
    assert SkippedKeyEnd(src.buf, 1).Reject?;
    assert FastStep(src, f1).Bad? by { StepAt(src, f1); }
    RunStep(src, f1);
  }
}
