/** The TOML token stream of pkg/toml/decoder.go as a state machine over decoder snapshots:
    `readToken`, the token scanners, and the line/column cache. */
module TomlDecoder {
  import opened Text
  import opened TomlLexer
  import TomlString

  datatype Container = ArrayContainer | InlineContainer

  datatype Kind =
    | Comment | Key | Value | ArrayStart | ArrayEnd | InlineStart | InlineEnd | TableHeader | ArrayTableHeader

  /** A token, the slice of the input it names, and the line and column reported for it. */
  datatype Token = Token(kind: Kind, start: nat, end: nat, line: int, col: int)

  /** What a decoder never changes: the input, its caps, and `classifyBareValue`
      (`classify(raw)` says whether a bare value is well formed). */
  datatype Source = Source(buf: Bytes, maxNestedDepth: int, maxKeyLength: nat, maxStringLength: nat,
      classify: Bytes -> bool)

  datatype State = State(
    off: nat, line: int, col: int,
    failed: bool,
    expectingValue: bool, valueNoNewline: bool, needSeparator: bool, needLineEnd: bool, atLineStart: bool,
    arrayDepth: nat, inlineDepth: nat, stack: seq<Container>)

  /** `Spin`: the source's loop repeats in the same state for ever. */
  datatype Outcome = Got(token: Token) | Eof | Error | Spin

  datatype Read = Read(out: Outcome, st: State)

  // ---------------------------------------------------------------- line and column

  function CountLf(b: Bytes): nat {
    if b == [] then 0 else CountLf(b[..|b| - 1]) + if b[|b| - 1] == '\n' then 1 else 0
  }

  /** Bytes other than CR. */
  function Columns(b: Bytes): nat {
    if b == [] then 0 else Columns(b[..|b| - 1]) + if b[|b| - 1] == '\r' then 0 else 1
  }

  /** Index just past the last LF. */
  function LineStart(b: Bytes): (i: nat)
    ensures i <= |b|
  {
    if b == [] then 0 else if b[|b| - 1] == '\n' then |b| else LineStart(b[..|b| - 1])
  }

  /** `lineColForOffset`: the position reached after the prefix `b`, from scratch. */
  function LineCol(b: Bytes): (int, int) {
    (1 + CountLf(b), 1 + Columns(b[LineStart(b)..]))
  }

  /** `advancePosition`: the position moved over a chunk. */
  function AdvancePosition(line: int, col: int, raw: Bytes): (int, int) {
    if |raw| == 1 then
      if raw[0] == '\n' then (line + 1, 1) else if raw[0] == '\r' then (line, col) else (line, col + 1)
    else if LineStart(raw) == 0 then (line, col + Columns(raw))
    else (line + CountLf(raw), 1 + Columns(raw[LineStart(raw)..]))
  }

  lemma {:induction false} PositionAppend(p: Bytes, q: Bytes)
    ensures CountLf(p + q) == CountLf(p) + CountLf(q)
    ensures Columns(p + q) == Columns(p) + Columns(q)
    ensures LineStart(p + q) == if LineStart(q) == 0 then LineStart(p) else |p| + LineStart(q)
    decreases |q|
  {
    if q == [] {
      assert p + q == p;
    } else {
      PositionAppend(p, q[..|q| - 1]);
      assert (p + q)[..|p + q| - 1] == p + q[..|q| - 1];
    }
  }

  lemma {:induction false} NoLf(q: Bytes)
    requires LineStart(q) == 0
    ensures CountLf(q) == 0
  {
    if q != [] { NoLf(q[..|q| - 1]); }
  }

  /** Moving the cached position over a chunk agrees with recomputing it. */
  lemma AdvanceAgrees(p: Bytes, q: Bytes)
    ensures AdvancePosition(LineCol(p).0, LineCol(p).1, q) == LineCol(p + q)
  {
    PositionAppend(p, q);
    var ls := LineStart(p + q);
    if LineStart(q) == 0 {
      NoLf(q);
      PositionAppend(p[LineStart(p)..], q);
      assert (p + q)[ls..] == p[LineStart(p)..] + q;
    } else {
      assert (p + q)[ls..] == q[LineStart(q)..];
    }
    if |q| == 1 { OneByte(q); }
  }

  lemma OneByte(q: Bytes)
    requires |q| == 1
    ensures CountLf(q) == if q[0] == '\n' then 1 else 0
    ensures Columns(q) == if q[0] == '\r' then 0 else 1
    ensures LineStart(q) == if q[0] == '\n' then 1 else 0
  {
    assert q[..0] == [];
    assert CountLf(q[..0]) == 0 && Columns(q[..0]) == 0 && LineStart(q[..0]) == 0;
  }

  // ---------------------------------------------------------------- moving

  predicate InBounds(src: Source, s: State) { s.off <= |src.buf| }

  /** `advanceBytes` up to offset `to`. */
  function Advance(src: Source, s: State, to: nat): (t: State)
    requires s.off < to <= |src.buf|
    ensures t.off == to
  {
    var p := AdvancePosition(s.line, s.col, src.buf[s.off..to]);
    s.(off := to, line := p.0, col := p.1, atLineStart := false)
  }

  /** `skipSpaces`: blanks always, newlines unless a value must follow on this line. */
  function SkipSpaces(src: Source, s: State): (t: State)
    requires InBounds(src, s)
    ensures InBounds(src, t) && s.off <= t.off
    decreases |src.buf| - s.off
  {
    if s.off >= |src.buf| then s else
      var n := BlankEnd(src.buf, s.off);
      if n > s.off then SkipSpaces(src, Advance(src, s, n).(atLineStart := s.atLineStart))
      else if s.valueNoNewline then s
      else if TomlString.IsCrLf(src.buf, s.off) then SkipSpaces(src, NewLine(src, s, s.off + 2))
      else if src.buf[s.off] == '\n' then SkipSpaces(src, NewLine(src, s, s.off + 1))
      else s
  }

  function NewLine(src: Source, s: State, to: nat): (t: State)
    requires s.off < to <= |src.buf|
    ensures t.off == to
  {
    Advance(src, s, to).(atLineStart := true, needLineEnd := false)
  }

  // ---------------------------------------------------------------- token scanners

  /** `makeToken`: a token that starts at the current offset. */
  function MakeToken(s: State, kind: Kind, end: nat): Outcome {
    Got(Token(kind, s.off, end, s.line, s.col))
  }

  function Fail(s: State, sticky: bool): Read {
    Read(Error, s.(failed := s.failed || sticky))
  }

  function InnermostIsArray(s: State): bool {
    s.stack != [] && s.stack[|s.stack| - 1] == ArrayContainer
  }

  function ReadComment(src: Source, s: State): Read
    requires s.off < |src.buf|
  {
    match ScanComment(src.buf, s.off)
    case Reject(sticky) => Fail(s, sticky)
    case End(e) => Read(MakeToken(s, Comment, e), Advance(src, s, e))
  }

  /** Where a key's text ends and where the byte after its equals sign is. */
  datatype KeyScan = KeyAt(keyEnd: nat, next: nat) | BadKey(sticky: bool)

  function ScanKey(src: Source, start: nat): (r: KeyScan)
    requires start < |src.buf|
    ensures r.KeyAt? ==> start < r.keyEnd < r.next <= |src.buf|
  {
    match KeyEnd(src.buf, start)
    case Reject(sticky) => BadKey(sticky)
    case End(i) =>
      var key := TrimRightBlanks(src.buf[start..i]);
      if i == start || !ValidKey(key) || |key| > src.maxKeyLength then BadKey(true)
      else
        var eq := BlankEnd(src.buf, i);
        if eq >= |src.buf| || src.buf[eq] != '=' then BadKey(true) else KeyAt(start + |key|, eq + 1)
  }

  /** `scanKeyToken`: key, blanks and the equals sign. */
  function ReadKey(src: Source, s: State): Read
    requires s.off < |src.buf|
  {
    match ScanKey(src, s.off)
    case BadKey(sticky) => Fail(s, sticky)
    case KeyAt(keyEnd, next) =>
      Read(MakeToken(s, Key, keyEnd),
           Advance(src, s, next).(expectingValue := true, valueNoNewline := true, needLineEnd := false))
  }

  /** Flags after a complete value: what the innermost container wants next. */
  function AfterValue(s: State): State {
    s.(expectingValue := InnermostIsArray(s), valueNoNewline := false,
       needSeparator := s.stack != [], needLineEnd := s.stack == [])
  }

  /** `scanValueToken` on a scalar. */
  function ReadScalar(src: Source, s: State): Read
    requires s.off < |src.buf|
  {
    match ScalarEnd(src, s.off)
    case Reject(sticky) => Fail(s, sticky)
    case End(e) => Read(MakeToken(s, Value, e), AfterValue(Advance(src, s, e)))
  }

  function ScalarEnd(src: Source, start: nat): (r: Scan)
    requires start < |src.buf|
    ensures r.End? ==> start < r.end <= |src.buf|
    ensures r.End? ==> !IsBareDelimiter(src.buf[start])
  {
    if IsQuote(src.buf[start]) then
      match ScanString(src.buf, start)
      case Reject(sticky) => Reject(sticky)
      case End(e) => if e - start > src.maxStringLength then Reject(true) else End(e)
    else
      var e := ScanBareValue(src.buf, start);
      if e == start || !src.classify(src.buf[start..e]) then Reject(true) else End(e)
  }

  predicate TooDeep(src: Source, depth: int) { src.maxNestedDepth > 0 && depth > src.maxNestedDepth }

  function ReadArrayStart(src: Source, s: State): Read
    requires s.off < |src.buf|
  {
    Read(MakeToken(s, ArrayStart, s.off + 1),
         Advance(src, s, s.off + 1).(
           failed := s.failed || TooDeep(src, s.arrayDepth + 1), arrayDepth := s.arrayDepth + 1,
           stack := s.stack + [ArrayContainer],
           expectingValue := true, valueNoNewline := false, needSeparator := false))
  }

  function ReadInlineStart(src: Source, s: State): Read
    requires s.off < |src.buf|
  {
    Read(MakeToken(s, InlineStart, s.off + 1),
         Advance(src, s, s.off + 1).(
           inlineDepth := s.inlineDepth + 1, stack := s.stack + [InlineContainer],
           expectingValue := false, valueNoNewline := false, needSeparator := false))
  }

  function Popped(stack: seq<Container>, c: Container): seq<Container> {
    if stack != [] && stack[|stack| - 1] == c then stack[..|stack| - 1] else stack
  }

  function ReadArrayEnd(src: Source, s: State): Read
    requires s.off < |src.buf|
  {
    Read(MakeToken(s, ArrayEnd, s.off + 1),
         AfterValue(Advance(src, s, s.off + 1).(
           arrayDepth := if s.arrayDepth > 0 then s.arrayDepth - 1 else 0, stack := Popped(s.stack, ArrayContainer))))
  }

  function ReadInlineEnd(src: Source, s: State): Read
    requires s.off < |src.buf|
  {
    Read(MakeToken(s, InlineEnd, s.off + 1),
         AfterValue(Advance(src, s, s.off + 1).(
           inlineDepth := if s.inlineDepth > 0 then s.inlineDepth - 1 else 0,
           stack := Popped(s.stack, InlineContainer))))
  }

  /** `scanTableHeader` and `scanArrayTableHeader`. */
  function ReadHeader(src: Source, s: State, isArray: bool): Read
    requires s.off + (if isArray then 2 else 1) <= |src.buf|
  {
    var w := if isArray then 2 else 1;
    match HeaderEnd(src.buf, s.off + w, isArray)
    case Reject(sticky) => Fail(s, sticky)
    case End(i) =>
      match HeaderKey(src.buf, s.off + w, i, true)
      case Reject(sticky) => Fail(s, sticky)
      case End(_) =>
        var t := Advance(src, s, i + w);
        if i - (s.off + w) > src.maxKeyLength then Fail(t, true)
        else Read(MakeToken(s, if isArray then ArrayTableHeader else TableHeader, i + w),
                  t.(expectingValue := false, atLineStart := false, needLineEnd := true))
  }

  // ---------------------------------------------------------------- readToken

  function AtEnd(s: State): Read {
    if s.expectingValue then Fail(s, true) else Read(Eof, s)
  }

  /** One pass of the dispatch switch; a separator sends the loop round again. */
  datatype Dispatch = Done(read: Read) | Again(st: State)

  function DispatchToken(src: Source, s: State): (d: Dispatch)
    requires s.off < |src.buf|
    ensures d.Again? ==> s.off < d.st.off <= |src.buf|
  {
    match src.buf[s.off]
    case '[' => Done(if InnermostIsArray(s) && !s.expectingValue then Fail(s, true) else ReadArrayStart(src, s))
    case '{' => Done(if InnermostIsArray(s) && !s.expectingValue then Fail(s, true) else ReadInlineStart(src, s))
    case ']' => Done(ReadArrayEnd(src, s))
    case '}' => Done(ReadInlineEnd(src, s))
    case '#' => Done(ReadComment(src, s))
    case '=' => Done(Fail(s, true))
    case ',' =>
      if !s.needSeparator then Done(Fail(s, true))
      else Again(Advance(src, s, s.off + 1).(needSeparator := false, expectingValue := InnermostIsArray(s)))
    case _ =>
      if s.expectingValue then
        Done(if s.needSeparator && InnermostIsArray(s) then Fail(s, true) else ReadScalar(src, s))
      else
        Done(if s.needSeparator && s.stack != [] then Fail(s, true) else ReadKey(src, s))
  }

  /** One iteration of the `readToken` loop after `skipSpaces` has reached a byte. */
  function Iterate(src: Source, s: State): (d: Dispatch)
    requires s.off < |src.buf|
    ensures d.Again? ==> s.off < d.st.off <= |src.buf|
  {
    var c := src.buf[s.off];
    if s.needLineEnd then
      if c == '#' then Done(ReadComment(src, s))
      else if IsNewline(c) then Done(Read(Spin, s))
      else Done(Fail(s, true))
    else if s.atLineStart && !s.expectingValue && c == '[' then
      Done(ReadHeader(src, s, s.off + 1 < |src.buf| && src.buf[s.off + 1] == '['))
    else DispatchToken(src, s)
  }

  function Loop(src: Source, s: State): Read
    requires InBounds(src, s)
    decreases |src.buf| - s.off
  {
    var t := SkipSpaces(src, s);
    if t.off >= |src.buf| then AtEnd(t) else
      match Iterate(src, t)
      case Done(read) => read
      case Again(u) => Loop(src, u)
  }

  function ReadToken(src: Source, s: State): Read
    requires InBounds(src, s)
  {
    if s.failed then Read(Error, s) else Loop(src, s)
  }
}
