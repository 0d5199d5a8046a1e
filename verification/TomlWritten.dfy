/** Documents written line by line, and what `ParseDocument` (pkg/toml/document.go) makes of them: every
    key is filed under the path of its table and its own, with the span of its value and of its line. */
module TomlWritten {
  import opened Text
  import opened TomlDecoder
  import opened TomlDecoderRuns
  import opened TomlKeyText
  import opened TomlSpelled
  import TomlDocument
  import TomlEditor
  import TomlKey
  import TomlLexer
  import TomlParse
  import TomlString
  import TomlTables
  import TomlTokens

  /** A header, or a key with a scalar value. */
  datatype Line = Head(ss: seq<Seg>, isArray: bool) | Pair(ss: seq<Seg>, text: Bytes)

  function LineText(line: Line): Bytes
    requires line.ss != []
  {
    match line
    case Head(ss, isArray) => HeaderText(ss, isArray) + "\n"
    case Pair(ss, text) => KeyText(ss) + ("=" + (" " + (text + "\n")))
  }

  predicate Lines(lines: seq<Line>) { forall i | 0 <= i < |lines| :: lines[i].ss != [] }

  function DocText(lines: seq<Line>): Bytes
    requires Lines(lines)
  {
    if lines == [] then "" else LineText(lines[0]) + DocText(lines[1..])
  }

  /** A line that `rest` follows: keys are spelled and start with a non-empty segment, values are
      scalars, and both are within the caps. */
  ghost predicate LineOk(src: Source, line: Line, rest: Bytes) {
    && SegsOk(line.ss) && Parts(line.ss)[0] != ""
    && match line
       case Head(ss, _) => |KeyText(ss)| <= src.maxKeyLength
       case Pair(ss, text) =>
         && ss[0].before == "" && |TokenText(ss)| <= src.maxKeyLength
         && TomlTokens.ScalarText(src, text, "\n" + rest)
         && (text != [] && TomlLexer.IsQuote(text[0]) ==> |text| <= src.maxStringLength)
  }

  ghost predicate Written(src: Source, lines: seq<Line>)
    decreases |lines|
  {
    && Lines(lines)
    && (lines != [] ==> LineOk(src, lines[0], DocText(lines[1..])) && Written(src, lines[1..]))
  }

  // ---------------------------------------------------------------- path keys

  /** The key of the current table. */
  function TableKey(current: seq<Bytes>): Bytes { if current == [] then "" else TomlEditor.Key(current) }

  lemma KeyNotEmpty(path: seq<Bytes>)
    requires path != [] && path[0] != ""
    ensures TomlEditor.Key(path) != ""
  {}

  lemma {:induction false} KeyJoins(p: seq<Bytes>, q: seq<Bytes>)
    requires p != [] && q != []
    ensures TomlEditor.Key(p + q) == TomlEditor.Key(p) + "\0" + TomlEditor.Key(q)
    decreases |p|
  {
    if |p| == 1 {
      assert (p + q)[1..] == q;
    } else {
      assert (p + q)[1..] == p[1..] + q;
      KeyJoins(p[1..], q);
      var a, b, c := p[0] + "\0", TomlEditor.Key(p[1..]), "\0" + TomlEditor.Key(q);
      Regroup(a, b, c);
    }
  }

  /** An entry is filed under its table's path followed by its own. */
  lemma FiledUnder(current: seq<Bytes>, parts: seq<Bytes>)
    requires parts != [] && parts[0] != "" && (current != [] ==> current[0] != "")
    ensures TomlParse.JoinPathKeys(TableKey(current), TomlEditor.Key(parts)) == TomlEditor.Key(current + parts)
  {
    hide TomlEditor.Key;
    KeyNotEmpty(parts);
    if current == [] {
      assert current + parts == parts;
    } else {
      KeyNotEmpty(current);
      KeyJoins(current, parts);
    }
  }

  // ---------------------------------------------------------------- between the lines

  /** At the start of a line outside every container. */
  predicate AtLine(src: Source, s: State) {
    && InBounds(src, s) && !s.failed && !s.expectingValue && !s.valueNoNewline && !s.needSeparator && !s.needLineEnd
    && s.atLineStart && s.stack == []
    && (s.off == 0 || src.buf[s.off - 1] == '\n')
  }

  /** Behind a header or a value, before the newline. */
  predicate AtBreak(src: Source, s: State) {
    && s.off < |src.buf| && src.buf[s.off] == '\n'
    && !s.failed && !s.expectingValue && !s.valueNoNewline && !s.needSeparator && s.needLineEnd && s.stack == []
  }

  predicate StartsLine(b: Bytes, i: nat) { i <= |b| && (i < |b| ==> !IsBlank(b[i]) && !IsNewline(b[i])) }

  function Past(src: Source, s: State): State
    requires AtBreak(src, s)
  {
    NewLine(src, s, s.off + 1)
  }

  lemma BreakCrossed(src: Source, s: State)
    requires AtBreak(src, s) && StartsLine(src.buf, s.off + 1)
    ensures AtLine(src, Past(src, s)) && ReadToken(src, s) == ReadToken(src, Past(src, s))
  {
    hide Loop, AdvancePosition;
    var t := Past(src, s);
    assert SkipSpaces(src, s) == t by { NewLineSkipped(src, s); }
    TomlTokens.LoopSkips(src, s);
  }

  lemma NewLineSkipped(src: Source, s: State)
    requires AtBreak(src, s) && StartsLine(src.buf, s.off + 1)
    ensures SkipSpaces(src, s) == Past(src, s)
  {
    hide AdvancePosition;
    var t := Past(src, s);
    assert BlankEnd(src.buf, s.off) == s.off;
    if t.off < |src.buf| { TomlTokens.NoSpaceAt(src, t); }
  }

  lemma LineBeginsWell(src: Source, lines: seq<Line>, rest: Bytes)
    requires Written(src, lines)
    ensures DocText(lines) != "" ==> !IsBlank(DocText(lines)[0]) && !IsNewline(DocText(lines)[0])
  {
    hide SegOk, KeyText, TomlTokens.ScalarText;
    if lines != [] {
      var line := lines[0];
      KeyBegins(line.ss);
      match line {
        case Head(ss, isArray) => assert DocText(lines)[0] == '[';
        case Pair(ss, _) => assert DocText(lines)[0] == KeyText(ss)[0];
      }
    }
  }

  // ---------------------------------------------------------------- steps of the parser

  lemma ParseSame(src: Source, s: State, t: State, current: Bytes)
    requires InBounds(src, s) && FlagInv(s) && InBounds(src, t) && FlagInv(t) && ReadToken(src, s) == ReadToken(src, t)
    ensures TomlParse.Parse(src, s, current) == TomlParse.Parse(src, t, current)
  {
    hide ReadToken, TomlParse.ReadValue, TomlParse.PathKey;
  }

  lemma ParseEnd(src: Source, s: State, current: Bytes)
    requires AtLine(src, s) && s.off == |src.buf|
    ensures TomlParse.Parse(src, s, current) == TomlParse.Items([])
  {
    assert SkipSpaces(src, s) == s;
  }

  lemma ParseHead(src: Source, s: State, current: Bytes, tok: Token, st: State, isArray: bool, key: Bytes)
    requires InBounds(src, s) && FlagInv(s) && ReadToken(src, s) == Read(Got(tok), st)
    requires tok.start <= tok.end <= |src.buf| && tok.kind == (if isArray then ArrayTableHeader else TableHeader)
    requires TomlParse.PathKey(TomlKey.TrimHeaderKey(src.buf[tok.start..tok.end], isArray)) == Some(key)
    requires InBounds(src, st) && FlagInv(st)
    ensures TomlParse.Parse(src, s, current) == TomlParse.Parse(src, st, key)
  {
    hide ReadToken, TomlParse.ReadValue, TomlParse.PathKey, TomlKey.TrimHeaderKey;
  }

  lemma ParsePair(src: Source, s: State, current: Bytes, tok: Token, u: State, span: TomlDocument.Span, st: State,
      key: Bytes)
    requires InBounds(src, s) && FlagInv(s) && ReadToken(src, s) == Read(Got(tok), u) && tok.kind == Key
    requires tok.start <= tok.end <= |src.buf| && TomlParse.PathKey(src.buf[tok.start..tok.end]) == Some(key)
    requires InBounds(src, u) && FlagInv(u) && TomlParse.ReadValue(src, u) == TomlParse.ValueAt(span, st)
    requires span.end <= |src.buf| && InBounds(src, st) && FlagInv(st)
    ensures var item := TomlParse.ItemAt(src, tok, TomlParse.JoinPathKeys(current, key), span, u);
      TomlParse.Parse(src, s, current) == TomlParse.Prepend([item], TomlParse.Parse(src, st, current))
  {
    hide ReadToken, TomlParse.ReadValue, TomlParse.PathKey, TomlParse.JoinPathKeys, TomlParse.ItemAt;
  }

  lemma ValueOfToken(src: Source, u: State, tok: Token, st: State)
    requires InBounds(src, u) && FlagInv(u) && ReadToken(src, u) == Read(Got(tok), st) && tok.kind == Value
    ensures TomlParse.ReadValue(src, u) == TomlParse.ValueAt(TomlDocument.Span(tok.start, tok.end), st)
  {
    hide ReadToken;
  }

  // ---------------------------------------------------------------- one line

  lemma HeadLine(src: Source, s: State, ss: seq<Seg>, isArray: bool, rest: Bytes, current: Bytes) returns (t: State)
    requires AtLine(src, s) && FlagInv(s) && LineOk(src, Head(ss, isArray), rest) && StartsLineText(rest)
    requires src.buf[s.off..] == LineText(Head(ss, isArray)) + rest
    ensures AtLine(src, t) && FlagInv(t) && t.off == s.off + |LineText(Head(ss, isArray))|
    ensures InBounds(src, t) && src.buf[t.off..] == rest
    ensures TomlParse.Parse(src, s, current) == TomlParse.Parse(src, t, TomlEditor.Key(Parts(ss)))
  {
    hide KeyText, SegOk, Loop, TomlParse.Parse, AdvancePosition, TomlEditor.Key, HeaderText, ReadToken, AfterHeader,
      StartsLine;
    var text := HeaderText(ss, isArray);
    Regroup(text, "\n", rest);
    HeadParsed(src, s, ss, isArray, rest, current);
    var u := AfterHeader(src, s, s.off + |text|);
    BreakCrossed(src, u);
    t := Past(src, u);
    ParseSame(src, u, t, TomlEditor.Key(Parts(ss)));
  }

  lemma HeadParsed(src: Source, s: State, ss: seq<Seg>, isArray: bool, rest: Bytes, current: Bytes)
    requires AtLine(src, s) && FlagInv(s) && LineOk(src, Head(ss, isArray), rest) && StartsLineText(rest)
    requires src.buf[s.off..] == HeaderText(ss, isArray) + ("\n" + rest)
    ensures var end := s.off + |HeaderText(ss, isArray)|;
      && s.off < end < |src.buf|
      && var u := AfterHeader(src, s, end);
      && AtBreak(src, u) && FlagInv(u) && InBounds(src, u) && u.off == end
      && StartsLine(src.buf, end + 1) && src.buf[end + 1..] == rest
      && TomlParse.Parse(src, s, current) == TomlParse.Parse(src, u, TomlEditor.Key(Parts(ss)))
  {
    hide KeyText, SegOk, Loop, TomlParse.Parse, TomlParse.PathKey, TomlKey.TrimHeaderKey, AdvancePosition,
      TomlEditor.Key, TomlKey.ParseDottedKey, HeaderText, ReadToken, AfterHeader, AtBreak, StartsLine;
    var text := HeaderText(ss, isArray);
    SpelledHeader(src, s, ss, isArray, "\n" + rest);
    var end := s.off + |text|;
    Behind(src.buf, s.off, text, rest);
    BehindHeader(src, s, end, rest);
    HeaderFiled(ss, isArray);
    TokenStart(src, s, if isArray then ArrayTableHeader else TableHeader, end);
    ParseHead(src, s, current, ReadToken(src, s).out.token, AfterHeader(src, s, end), isArray,
      TomlEditor.Key(Parts(ss)));
  }

  lemma HeaderFiled(ss: seq<Seg>, isArray: bool)
    requires SegsOk(ss) && Parts(ss) != [] && Parts(ss)[0] != ""
    ensures TomlParse.PathKey(TomlKey.TrimHeaderKey(HeaderText(ss, isArray), isArray))
            == Some(TomlEditor.Key(Parts(ss)))
  {
    hide SegOk, TomlParse.PathKey, TomlEditor.Key, TomlKey.ParseDottedKey, HeaderText, TomlKey.TrimHeaderKey;
    HeaderParses(ss, isArray);
    TomlParse.PathKeyExactly(TomlKey.TrimHeaderKey(HeaderText(ss, isArray), isArray), Parts(ss));
  }

  predicate StartsLineText(rest: Bytes) { rest == "" || (!IsBlank(rest[0]) && !IsNewline(rest[0])) }

  lemma Behind(b: Bytes, i: nat, text: Bytes, rest: Bytes)
    requires i <= |b| && b[i..] == text + ("\n" + rest)
    ensures var e := i + |text|; e < |b| && b[e] == '\n' && b[e + 1..] == rest
  {
    TomlString.SplitAt(b, i, text, "\n" + rest);
    var e := i + |text|;
    TomlString.SplitAt(b, e, "\n", rest);
    assert b[e] == b[e..e + 1][0];
  }

  lemma BehindHeader(src: Source, s: State, end: nat, rest: Bytes)
    requires AtLine(src, s) && s.off < end < |src.buf| && src.buf[end] == '\n' && src.buf[end + 1..] == rest
    requires StartsLineText(rest)
    ensures var u := AfterHeader(src, s, end);
      AtBreak(src, u) && FlagInv(u) && InBounds(src, u) && u.off == end && StartsLine(src.buf, end + 1)
  {
    hide AdvancePosition;
    if end + 1 < |src.buf| { assert src.buf[end + 1] == rest[0]; }
  }

  /** The state after the blank behind the equals sign. */
  function PastBlank(src: Source, u: State): State
    requires u.off + 1 <= |src.buf|
  {
    Advance(src, u, u.off + 1).(atLineStart := u.atLineStart)
  }

  lemma ScalarRead(src: Source, u: State, text: Bytes, rest: Bytes)
    requires TomlTokens.AtValue(src, u) && u.off + 1 < |src.buf| && src.buf[u.off..] == " " + (text + rest)
    requires TomlTokens.ScalarText(src, text, rest)
    requires text != [] && TomlLexer.IsQuote(text[0]) ==> |text| <= src.maxStringLength
    ensures var v, e := PastBlank(src, u), u.off + 1 + |text|;
      && v.off < e <= |src.buf|
      && ReadToken(src, u) == Read(MakeToken(v, Value, e), AfterValue(Advance(src, v, e)))
  {
    hide TomlTokens.ScalarText, Loop, AdvancePosition, SkipSpaces, TomlTokens.AtValue, ScalarEnd, AfterValue;
    assert src.buf[u.off] == src.buf[u.off..][0];
    TomlString.SplitAt(src.buf, u.off, " ", text + rest);
    TomlTokens.ScalarScanned(src, u.off + 1, text, rest);
    assert src.buf[u.off + 1] == src.buf[u.off + 1..u.off + 1 + |text|][0] == text[0];
    TomlTokens.OneBlank(src, u);
    var v := PastBlank(src, u);
    TomlTokens.StillValue(src, u, v);
    TomlTokens.NotFailed(src, u);
    TomlTokens.LoopSkips(src, u);
    TomlTokens.ScalarDispatched(src, v);
  }

  lemma LineSpans(b: Bytes, off: nat, e: nat)
    requires off <= e < |b| && b[e] == '\n' && (off == 0 || b[off - 1] == '\n')
    ensures TomlDocument.LineBegin(b, off) == off && TomlDocument.LineEnd(b, e) == e + 1
  {}

  /** The item of a line that starts at `off`. */
  function LineItem(line: Line, off: nat, current: seq<Bytes>): TomlParse.Item
    requires line.Pair? && line.ss != []
  {
    var v := off + |KeyText(line.ss)| + 2;
    TomlParse.Item(
      TomlDocument.Entry(TomlEditor.Key(current + Parts(line.ss)), TomlDocument.Span(v, v + |line.text|),
        TomlDocument.Span(off, off + |LineText(line)|)),
      off, false)
  }

  lemma PairSplit(key: Bytes, text: Bytes, rest: Bytes)
    ensures key + ("=" + (" " + (text + "\n"))) + rest == key + ("=" + (" " + (text + ("\n" + rest))))
    ensures |key + ("=" + (" " + (text + "\n")))| == |key| + 2 + |text| + 1
  {
    Regroup(key, "=" + (" " + (text + "\n")), rest);
    Regroup("=", " " + (text + "\n"), rest);
    Regroup(" ", text + "\n", rest);
    Regroup(text, "\n", rest);
  }

  /** Key and value are read, and a line end is due. */
  lemma PairTokens(src: Source, s: State, ss: seq<Seg>, text: Bytes, rest: Bytes)
    requires AtLine(src, s) && LineOk(src, Pair(ss, text), rest)
    requires src.buf[s.off..] == KeyText(ss) + ("=" + (" " + (text + ("\n" + rest))))
    ensures var next, v := s.off + |KeyText(ss)| + 1, s.off + |KeyText(ss)| + 2;
      && s.off < next < v < v + |text| < |src.buf| && src.buf[v + |text|] == '\n' && src.buf[v + |text| + 1..] == rest
      && var u := AfterKey(src, s, next);
      && ReadToken(src, s) == Read(MakeToken(s, Key, s.off + |TokenText(ss)|), u)
      && s.off + |TokenText(ss)| <= |src.buf| && src.buf[s.off..s.off + |TokenText(ss)|] == TokenText(ss)
      && ReadToken(src, u)
         == Read(MakeToken(PastBlank(src, u), Value, v + |text|),
              AfterValue(Advance(src, PastBlank(src, u), v + |text|)))
  {
    hide KeyText, SegOk, Loop, AdvancePosition, TomlTokens.ScalarText, TomlKey.ParseDottedKey, AfterValue, TokenText;
    var tail := " " + (text + ("\n" + rest));
    SpelledKey(src, s, ss, tail);
    var next := s.off + |KeyText(ss)| + 1;
    var u := AfterKey(src, s, next);
    KeyTail(src.buf, s.off, KeyText(ss), text, rest);
    TomlTokens.SomeText(src, text, "\n" + rest);
    ScalarRead(src, u, text, "\n" + rest);
  }

  lemma KeyTail(b: Bytes, i: nat, key: Bytes, text: Bytes, rest: Bytes)
    requires i <= |b| && b[i..] == key + ("=" + (" " + (text + ("\n" + rest))))
    ensures var next, v := i + |key| + 1, i + |key| + 2;
      v + |text| < |b| && b[next..] == " " + (text + ("\n" + rest)) && b[v..] == text + ("\n" + rest)
      && b[v + |text|] == '\n' && b[v + |text| + 1..] == rest
  {
    var tail := text + ("\n" + rest);
    TomlString.SplitAt(b, i, key, "=" + (" " + tail));
    TomlString.SplitAt(b, i + |key|, "=", " " + tail);
    TomlString.SplitAt(b, i + |key| + 1, " ", tail);
    Behind(b, i + |key| + 2, text, rest);
  }

  lemma BehindValue(src: Source, s: State, next: nat, e: nat, rest: Bytes)
    requires AtLine(src, s) && s.off < next && next + 1 < e < |src.buf| && src.buf[e] == '\n'
    requires src.buf[e + 1..] == rest && StartsLineText(rest)
    ensures var u := AfterKey(src, s, next);
      && FlagInv(s) && FlagInv(u) && u.stack == []
      && var st := AfterValue(Advance(src, PastBlank(src, u), e));
      AtBreak(src, st) && FlagInv(st) && InBounds(src, st) && st.off == e && StartsLine(src.buf, e + 1)
  {
    hide AdvancePosition;
    if e + 1 < |src.buf| { assert src.buf[e + 1] == rest[0]; }
  }

  /** The state behind the value of a line. */
  function BehindPair(src: Source, s: State, ss: seq<Seg>, text: Bytes): State
    requires ss != [] && s.off + |KeyText(ss)| + 2 + |text| <= |src.buf| && text != []
  {
    var u := AfterKey(src, s, s.off + |KeyText(ss)| + 1);
    AfterValue(Advance(src, PastBlank(src, u), s.off + |KeyText(ss)| + 2 + |text|))
  }

  lemma PairItem(src: Source, s: State, ss: seq<Seg>, text: Bytes, current: seq<Bytes>, u: State)
    requires AtLine(src, s) && ss != [] && u.stack == []
    requires Parts(ss) != [] && Parts(ss)[0] != "" && (current != [] ==> current[0] != "")
    requires var e := s.off + |KeyText(ss)| + 2 + |text|; e < |src.buf| && src.buf[e] == '\n'
    ensures var v := s.off + |KeyText(ss)| + 2;
      var key := TomlParse.JoinPathKeys(TableKey(current), TomlEditor.Key(Parts(ss)));
      forall tok: Token | tok.start == s.off ::
        TomlParse.ItemAt(src, tok, key, TomlDocument.Span(v, v + |text|), u) == LineItem(Pair(ss, text), s.off, current)
  {
    hide KeyText, TomlEditor.Key, TableKey, TomlParse.JoinPathKeys;
    FiledUnder(current, Parts(ss));
    LineSpans(src.buf, s.off, s.off + |KeyText(ss)| + 2 + |text|);
    PairSplit(KeyText(ss), text, "");
  }

  lemma PairParsed(src: Source, s: State, ss: seq<Seg>, text: Bytes, rest: Bytes, current: seq<Bytes>)
    requires AtLine(src, s) && FlagInv(s) && LineOk(src, Pair(ss, text), rest) && StartsLineText(rest) && text != []
    requires current != [] ==> current[0] != ""
    requires src.buf[s.off..] == KeyText(ss) + ("=" + (" " + (text + ("\n" + rest))))
    ensures s.off + |KeyText(ss)| + 2 + |text| < |src.buf|
    ensures var st := BehindPair(src, s, ss, text);
      && AtBreak(src, st) && FlagInv(st) && st.off == s.off + |KeyText(ss)| + 2 + |text| && InBounds(src, st)
      && StartsLine(src.buf, st.off + 1) && src.buf[st.off + 1..] == rest
      && TomlParse.Parse(src, s, TableKey(current))
         == TomlParse.Prepend([LineItem(Pair(ss, text), s.off, current)], TomlParse.Parse(src, st, TableKey(current)))
  {
    hide KeyText, SegOk, Loop, TomlParse.Parse, TomlParse.PathKey, AdvancePosition, TomlEditor.Key, TomlParse.ItemAt,
      TomlKey.ParseDottedKey, TokenText, TableKey, TomlParse.JoinPathKeys, TomlTokens.ScalarText, AfterValue, LineItem,
      ReadToken, AfterKey, PastBlank, AtBreak, StartsLine;
    PairTokens(src, s, ss, text, rest);
    var next, v := s.off + |KeyText(ss)| + 1, s.off + |KeyText(ss)| + 2;
    var e, u := v + |text|, AfterKey(src, s, next);
    var st := BehindPair(src, s, ss, text);
    BehindValue(src, s, next, e, rest);
    TokenStart(src, s, Key, s.off + |TokenText(ss)|);
    KeyBound(src, s, next);
    assert TomlParse.ReadValue(src, u) == TomlParse.ValueAt(TomlDocument.Span(v, e), st) by {
      TokenStart(src, PastBlank(src, u), Value, e);
      BlankStart(src, u);
      ValueOfToken(src, u, ReadToken(src, u).out.token, st);
    }
    SomeParts(ss);
    TokenFiled(ss);
    ParsePair(src, s, TableKey(current), ReadToken(src, s).out.token, u, TomlDocument.Span(v, e), st,
      TomlEditor.Key(Parts(ss)));
    PairItem(src, s, ss, text, current, u);
  }

  lemma TokenFiled(ss: seq<Seg>)
    requires SegsOk(ss) && Parts(ss) != [] && Parts(ss)[0] != ""
    ensures TomlParse.PathKey(TokenText(ss)) == Some(TomlEditor.Key(Parts(ss)))
  {
    hide SegOk, TomlParse.PathKey, TomlEditor.Key, TomlKey.ParseDottedKey, TokenText;
    TokenTrimmed(ss);
    TomlParse.PathKeyExactly(TokenText(ss), Parts(ss));
  }

  lemma TokenStart(src: Source, s: State, kind: Kind, end: nat)
    ensures MakeToken(s, kind, end).token.start == s.off && MakeToken(s, kind, end).token.end == end
  {}

  lemma KeyBound(src: Source, s: State, next: nat)
    requires s.off < next <= |src.buf|
    ensures InBounds(src, AfterKey(src, s, next)) && AfterKey(src, s, next).off == next
  {
    hide AdvancePosition;
  }

  lemma BlankStart(src: Source, u: State)
    requires u.off + 1 <= |src.buf|
    ensures PastBlank(src, u).off == u.off + 1
  {
    hide AdvancePosition;
  }

  lemma PairLine(src: Source, s: State, ss: seq<Seg>, text: Bytes, rest: Bytes, current: seq<Bytes>) returns (t: State)
    requires AtLine(src, s) && FlagInv(s) && LineOk(src, Pair(ss, text), rest) && StartsLineText(rest)
    requires current != [] ==> current[0] != ""
    requires src.buf[s.off..] == LineText(Pair(ss, text)) + rest
    ensures AtLine(src, t) && FlagInv(t) && t.off == s.off + |LineText(Pair(ss, text))|
    ensures InBounds(src, t) && src.buf[t.off..] == rest
    ensures TomlParse.Parse(src, s, TableKey(current))
            == TomlParse.Prepend([LineItem(Pair(ss, text), s.off, current)], TomlParse.Parse(src, t, TableKey(current)))
  {
    hide KeyText, SegOk, Loop, TomlParse.Parse, AdvancePosition, TableKey, TomlTokens.ScalarText, LineItem, BehindPair,
      ReadToken, StartsLine, TokenText;
    PairSplit(KeyText(ss), text, rest);
    TomlTokens.SomeText(src, text, "\n" + rest);
    PairParsed(src, s, ss, text, rest, current);
    var st := BehindPair(src, s, ss, text);
    BreakCrossed(src, st);
    t := Past(src, st);
    ParseSame(src, st, t, TableKey(current));
  }

  // ---------------------------------------------------------------- whole documents

  /** What a document written line by line is to be indexed as, from position `off` and table `current`. */
  function Index(lines: seq<Line>, off: nat, current: seq<Bytes>): seq<TomlParse.Item>
    requires Lines(lines)
    decreases |lines|
  {
    if lines == [] then [] else
      var line, next := lines[0], off + |LineText(lines[0])|;
      if line.Head? then Index(lines[1..], next, Parts(line.ss))
      else [LineItem(line, off, current)] + Index(lines[1..], next, current)
  }

  /** A written document is indexed exactly: one entry per key, filed under the path of the last header
      and its own, with the span of its value and of its whole line. */
  lemma {:induction false} WrittenIsIndexed(src: Source, s: State, lines: seq<Line>, current: seq<Bytes>)
    requires AtLine(src, s) && FlagInv(s) && Written(src, lines) && src.buf[s.off..] == DocText(lines)
    requires current != [] ==> current[0] != ""
    ensures TomlParse.Parse(src, s, TableKey(current)) == TomlParse.Items(Index(lines, s.off, current))
    decreases |lines|
  {
    hide LineOk, LineText, TomlParse.Parse, FlagInv, LineItem, TomlEditor.Key;
    if lines == [] {
      assert s.off == |src.buf| by { assert |src.buf[s.off..]| == 0; }
      ParseEnd(src, s, TableKey(current));
    } else {
      var line, rest := lines[0], DocText(lines[1..]);
      assert StartsLineText(rest) by { LineBeginsWell(src, lines[1..], rest); }
      match line {
        case Head(ss, isArray) =>
          var t := HeadLine(src, s, ss, isArray, rest, TableKey(current));
          assert Parts(ss) != [] && Parts(ss)[0] != "" by { FirstPart(src, line, rest); }
          WrittenIsIndexed(src, t, lines[1..], Parts(ss));
        case Pair(ss, text) =>
          var t := PairLine(src, s, ss, text, rest, current);
          WrittenIsIndexed(src, t, lines[1..], current);
      }
    }
  }

  lemma FirstPart(src: Source, line: Line, rest: Bytes)
    requires LineOk(src, line, rest)
    ensures Parts(line.ss) != [] && Parts(line.ss)[0] != ""
  {
    SomeParts(line.ss);
  }

  lemma NoMark(src: Source, lines: seq<Line>)
    requires Written(src, lines)
    ensures !(BOM <= DocText(lines))
  {
    hide SegOk, KeyText, TomlTokens.ScalarText, HeaderText;
    if lines != [] {
      var line := lines[0];
      KeyBegins(line.ss);
      match line {
        case Head(ss, isArray) =>
          assert HeaderText(ss, isArray) != "" && HeaderText(ss, isArray)[0] == '[' by { HeaderOpens(ss, isArray); }
          assert DocText(lines)[0] == '[';
        case Pair(ss, _) => assert DocText(lines)[0] == KeyText(ss)[0];
      }
    }
  }

  lemma HeaderOpens(ss: seq<Seg>, isArray: bool)
    requires ss != []
    ensures HeaderText(ss, isArray) != "" && HeaderText(ss, isArray)[0] == '['
  {}

  /** From a fresh decoder. */
  lemma DocumentIndexed(src: Source, lines: seq<Line>)
    requires Written(src, lines) && src.buf == DocText(lines)
    ensures TomlParse.Parse(src, Start(src), "") == TomlParse.Items(Index(lines, 0, []))
  {
    hide Written, DocText, TomlParse.Parse, Index;
    NoMark(src, lines);
    assert src.buf[0..] == src.buf;
    WrittenIsIndexed(src, Start(src), lines, []);
  }
}
