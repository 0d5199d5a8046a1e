/** Skipping a value two ways (pkg/toml/value.go): token by token, and with the hand-written
    structural scanner `scanSkippedStructuralValue`. Whenever the fast one succeeds, the token
    stream reaches the very same decoder state. */
module TomlSkip {
  import opened Text
  import opened TomlLexer
  import opened TomlDecoder
  import opened TomlDecoderRuns
  import TomlString
  import TomlKey

  // ---------------------------------------------------------------- token by token

  function DepthAfter(depth: nat, kind: Kind): int {
    if kind == ArrayStart || kind == InlineStart then depth + 1
    else if kind == ArrayEnd || kind == InlineEnd then depth - 1
    else depth
  }

  /** The loop of `skipRawValueToken`: read until the opened containers are closed. */
  function SlowSkip(src: Source, s: State, depth: nat): Option<State>
    requires InBounds(src, s) && FlagInv(s)
    decreases |src.buf| - s.off
  {
    if depth == 0 then Some(s) else
      var r := ReadToken(src, s);
      if !r.out.Got? then None else
        LoopOk(src, s);
        SlowSkip(src, r.st, DepthAfter(depth, r.out.token.kind))
  }

  /** The token loop of `skipNextValue`: comments, then one value. */
  function SlowSkipNext(src: Source, s: State): Option<State>
    requires InBounds(src, s) && FlagInv(s)
    decreases |src.buf| - s.off
  {
    var r := ReadToken(src, s);
    if !r.out.Got? then None else
      LoopOk(src, s);
      match r.out.token.kind
      case Comment => SlowSkipNext(src, r.st)
      case ArrayStart => SlowSkip(src, r.st, 1)
      case InlineStart => SlowSkip(src, r.st, 1)
      case Value => Some(r.st)
      case _ => None
  }

  // ---------------------------------------------------------------- the structural scanner

  /** Blanks, newlines and comments; a lone CR is an error. */
  function StructuralSpace(b: Bytes, i: nat): (r: Scan)
    requires i <= |b|
    ensures r.End? ==> i <= r.end <= |b|
    decreases |b| - i
  {
    if i >= |b| then End(i)
    else if IsBlank(b[i]) || b[i] == '\n' then StructuralSpace(b, i + 1)
    else if b[i] == '\r' then (if TomlString.IsCrLf(b, i) then StructuralSpace(b, i + 2) else Reject(true))
    else if b[i] == '#' then
      match ScanComment(b, i)
      case Reject(sticky) => Reject(sticky)
      case End(e) => StructuralSpace(b, e)
    else End(i)
  }

  /** The equals sign that ends an inline-table key. */
  function SkippedKeyEnd(b: Bytes, i: nat): (r: Scan)
    requires i <= |b|
    ensures r.End? ==> i <= r.end < |b| && b[r.end] == '='
    decreases |b| - i
  {
    if i >= |b| then Reject(true)
    else if b[i] == '=' then End(i)
    else if IsQuote(b[i]) then
      match ScanQuoted(b, i)
      case Reject(sticky) => Reject(sticky)
      case End(j) => SkippedKeyEnd(b, j)
    else if b[i] == ',' || b[i] == '}' || b[i] == '#' || IsNewline(b[i]) then Reject(true)
    else SkippedKeyEnd(b, i + 1)
  }

  /** `scanSkippedInlineKey`. */
  function SkippedKey(src: Source, start: nat): (r: Scan)
    requires start <= |src.buf|
    ensures r.End? ==> start < r.end <= |src.buf|
  {
    match SkippedKeyEnd(src.buf, start)
    case Reject(sticky) => Reject(sticky)
    case End(i) =>
      var key := TrimRightBlanks(src.buf[start..i]);
      if key == [] || !ValidKey(key) || |key| > src.maxKeyLength then Reject(true) else End(i + 1)
  }

  datatype Frame = ArrayValue | ArraySeparator | InlineKey | InlineValue | InlineSeparator

  /** The scanner's variables between iterations. */
  datatype Fast = Fast(i: nat, frames: seq<Frame>, arrayDepth: int, inlineDepth: int)

  datatype Step = Next(f: Fast) | Bad(sticky: bool)

  function Push(src: Source, f: Fast, c: Container): Step {
    if c == ArrayContainer then
      if TooDeep(src, f.arrayDepth + 1) then Bad(true)
      else Next(f.(i := f.i + 1, frames := f.frames + [ArrayValue], arrayDepth := f.arrayDepth + 1))
    else
      if TooDeep(src, f.inlineDepth + 1) then Bad(true)
      else Next(f.(i := f.i + 1, frames := f.frames + [InlineKey], inlineDepth := f.inlineDepth + 1))
  }

  function Pop(f: Fast, c: Container): Step
    requires f.frames != []
  {
    var g := f.(i := f.i + 1, frames := f.frames[..|f.frames| - 1]);
    Next(if c == ArrayContainer then g.(arrayDepth := f.arrayDepth - 1) else g.(inlineDepth := f.inlineDepth - 1))
  }

  function Top(f: Fast): Frame
    requires f.frames != []
  {
    f.frames[|f.frames| - 1]
  }

  function WithTop(f: Fast, top: Frame): Fast
    requires f.frames != []
  {
    f.(frames := f.frames[|f.frames| - 1 := top])
  }

  /** `scanSkippedValue`. */
  function SkippedValue(src: Source, f: Fast): (r: Step)
    requires f.i < |src.buf|
    ensures r.Next? ==> f.i < r.f.i <= |src.buf|
  {
    if src.buf[f.i] == '[' then Push(src, f, ArrayContainer)
    else if src.buf[f.i] == '{' then Push(src, f, InlineContainer)
    else match ScalarEnd(src, f.i)
      case Reject(sticky) => Bad(sticky)
      case End(e) => Next(f.(i := e))
  }

  /** One switch of the scanner with the position on a significant byte. */
  function FastDispatch(src: Source, f: Fast): (r: Step)
    requires f.frames != [] && f.i < |src.buf|
    ensures r.Next? ==> f.i < r.f.i <= |src.buf|
  {
    var c := src.buf[f.i];
    match Top(f)
    case ArrayValue =>
      if c == ']' then Pop(f, ArrayContainer) else SkippedValue(src, WithTop(f, ArraySeparator))
    case ArraySeparator =>
      if c == ',' then Next(WithTop(f, ArrayValue).(i := f.i + 1))
      else if c == ']' then Pop(f, ArrayContainer)
      else Bad(true)
    case InlineKey =>
      if c == '}' then Pop(f, InlineContainer) else
        (match SkippedKey(src, f.i)
         case Reject(sticky) => Bad(sticky)
         case End(e) => Next(WithTop(f, InlineValue).(i := e)))
    case InlineValue => SkippedValue(src, WithTop(f, InlineSeparator))
    case InlineSeparator =>
      if c == ',' then Next(WithTop(f, InlineKey).(i := f.i + 1))
      else if c == '}' then Pop(f, InlineContainer)
      else Bad(true)
  }

  function FrameSpace(b: Bytes, f: Fast): (r: Scan)
    requires f.frames != [] && f.i <= |b|
    ensures r.End? ==> f.i <= r.end <= |b|
  {
    if Top(f) == InlineValue then End(BlankEnd(b, f.i)) else StructuralSpace(b, f.i)
  }

  function FastStep(src: Source, f: Fast): (r: Step)
    requires f.frames != [] && f.i <= |src.buf|
    ensures r.Next? ==> f.i < r.f.i <= |src.buf|
  {
    match FrameSpace(src.buf, f)
    case Reject(sticky) => Bad(sticky)
    case End(j) => if j >= |src.buf| then Bad(true) else FastDispatch(src, f.(i := j))
  }

  /** The scanner's main loop. */
  function FastRun(src: Source, f: Fast): (r: Scan)
    requires f.i <= |src.buf|
    ensures r.End? ==> f.i <= r.end <= |src.buf|
    decreases |src.buf| - f.i
  {
    if f.frames == [] then End(f.i) else
      match FastStep(src, f)
      case Bad(sticky) => Reject(sticky)
      case Next(g) => FastRun(src, g)
  }

  datatype FastSkip = NotStructural(st: State) | Skipped(st: State) | Failed(st: State)

  /** `skipStructuralValueFast`. */
  function SkipFast(src: Source, s: State): FastSkip
    requires InBounds(src, s)
  {
    var t := SkipSpaces(src, s);
    if t.failed then Failed(t)
    else if t.off >= |src.buf| || (src.buf[t.off] != '[' && src.buf[t.off] != '{') then NotStructural(t)
    else match SkippedValue(src, Fast(t.off, [], t.arrayDepth, t.inlineDepth))
      case Bad(sticky) => Failed(t.(failed := sticky))
      case Next(f) =>
        match FastRun(src, f)
        case Reject(sticky) => Failed(t.(failed := sticky))
        case End(e) => Skipped(AfterValue(Advance(src, t, e)))
  }

  // ---------------------------------------------------------------- the grammar of skipped tokens

  /** A token of the skip loop, and whether a comma stood before it. */
  datatype Mark = Mark(kind: Kind, comma: bool)

  function Passed(top: Frame): Frame {
    if top == ArraySeparator then ArrayValue else if top == InlineSeparator then InlineKey else top
  }

  function Separated(top: Frame): Frame {
    if top == ArrayValue then ArraySeparator else InlineSeparator
  }

  function Retop(frames: seq<Frame>, top: Frame): (g: seq<Frame>)
    requires frames != []
    ensures |g| == |frames|
  {
    frames[|frames| - 1 := top]
  }

  /** The frames after a token that may stand there. A value stands where one is due, a key in key
      position, a closing bracket closes its own kind and not right behind a key, and a value that
      opens an inline table respects the nesting cap; `outer` is the inline depth around the value. */
  function Fit(src: Source, outer: int, frames: seq<Frame>, m: Mark): (g: Option<seq<Frame>>)
    requires frames != []
    ensures g.Some? ==> |g.value| == DepthAfter(|frames|, m.kind)
  {
    var top := frames[|frames| - 1];
    var at := if m.comma then Passed(top) else top;
    var due := at == ArrayValue || at == InlineValue;
    match m.kind
    case Comment => if at == InlineValue then None else Some(Retop(frames, at))
    case Key => if at == InlineKey then Some(Retop(frames, InlineValue)) else None
    case Value => if due then Some(Retop(frames, Separated(at))) else None
    case ArrayStart => if due then Some(Retop(frames, Separated(at)) + [ArrayValue]) else None
    case InlineStart =>
      if due && !TooDeep(src, outer + CountKind(frames, InlineContainer) + 1)
      then Some(Retop(frames, Separated(at)) + [InlineKey]) else None
    case ArrayEnd => if at == ArrayValue || at == ArraySeparator then Some(frames[..|frames| - 1]) else None
    case InlineEnd => if at == InlineKey || at == InlineSeparator then Some(frames[..|frames| - 1]) else None
    case _ => None
  }

  /** The next token is preceded by a comma. */
  predicate AtComma(src: Source, s: State)
    requires InBounds(src, s)
  {
    var i := SkipSpaces(src, s).off; i < |src.buf| && src.buf[i] == ','
  }

  /** The tokens from `s` on close the open `frames`, each one fitting. */
  predicate Conforms(src: Source, outer: int, s: State, frames: seq<Frame>)
    requires InBounds(src, s) && FlagInv(s)
    decreases |src.buf| - s.off
  {
    frames == [] ||
    var r := ReadToken(src, s);
    r.out.Got? &&
      (LoopOk(src, s);
       var g := Fit(src, outer, frames, Mark(r.out.token.kind, AtComma(src, s)));
       g.Some? && Conforms(src, outer, r.st, g.value))
  }

  // ---------------------------------------------------------------- the simulation relation

  function KindOf(f: Frame): Container {
    if f == ArrayValue || f == ArraySeparator then ArrayContainer else InlineContainer
  }

  function Kinds(frames: seq<Frame>): (k: seq<Container>)
    ensures |k| == |frames|
  {
    seq(|frames|, i requires 0 <= i < |frames| => KindOf(frames[i]))
  }

  function CountKind(frames: seq<Frame>, c: Container): nat {
    if frames == [] then 0 else
      CountKind(frames[..|frames| - 1], c) + if KindOf(frames[|frames| - 1]) == c then 1 else 0
  }

  /** The decoder flags that correspond to the innermost frame. */
  predicate TopFlags(d: State, top: Frame) {
    && d.expectingValue == (top == ArrayValue || top == ArraySeparator || top == InlineValue)
    && d.valueNoNewline == (top == InlineValue)
    && d.needSeparator == (top == ArraySeparator || top == InlineSeparator)
  }

  /** The token decoder `d` is where the scanner `f` is, having entered the skipped value from `base`. */
  predicate Sim(src: Source, base: State, f: Fast, d: State) {
    && f.i == d.off <= |src.buf|
    && d.stack == base.stack + Kinds(f.frames)
    && f.arrayDepth == d.arrayDepth == base.arrayDepth + CountKind(f.frames, ArrayContainer)
    && f.inlineDepth == d.inlineDepth == base.inlineDepth + CountKind(f.frames, InlineContainer)
    && !d.failed
    && (forall k | 0 <= k < |f.frames| - 1 :: f.frames[k] == ArraySeparator || f.frames[k] == InlineSeparator)
    && (f.frames != [] ==> !d.needLineEnd && TopFlags(d, Top(f)))
    && (f.frames == [] ==> !d.atLineStart && d == AfterValue(d))
  }

  lemma SimFlagInv(src: Source, base: State, f: Fast, d: State)
    requires Sim(src, base, f, d)
    ensures FlagInv(d) && InBounds(src, d)
    ensures f.frames != [] ==> (InnermostIsArray(d) <==> KindOf(Top(f)) == ArrayContainer)
  {}

  /** What the two scanners share at a significant byte: same offset and flags, spaces exhausted. */
  predicate Ready(src: Source, d: State) {
    InBounds(src, d) && FlagInv(d) && !d.failed && !d.needLineEnd && SkipSpaces(src, d) == d
  }

  lemma {:induction false} ReadAfterSpaces(src: Source, d: State, depth: nat)
    requires InBounds(src, d) && FlagInv(d) && !d.failed && depth > 0
    ensures InBounds(src, SkipSpaces(src, d)) && FlagInv(SkipSpaces(src, d))
    ensures SlowSkip(src, d, depth) == SlowSkip(src, SkipSpaces(src, d), depth)
  {
    SkipSpacesFlags(src, d);
    SkipSpacesTwice(src, d);
  }

  lemma {:induction false} ConformAfterSpaces(src: Source, outer: int, d: State, frames: seq<Frame>)
    requires InBounds(src, d) && FlagInv(d) && !d.failed
    ensures InBounds(src, SkipSpaces(src, d)) && FlagInv(SkipSpaces(src, d))
    ensures frames != [] ==> Conforms(src, outer, d, frames) == Conforms(src, outer, SkipSpaces(src, d), frames)
  {
    hide Fit, CountKind, AdvancePosition, Iterate;
    SkipSpacesFlags(src, d);
    SkipSpacesTwice(src, d);
  }

  lemma {:induction false} SpaceOverBlanks(b: Bytes, i: nat, n: nat)
    requires i <= n <= |b| && forall k | i <= k < n :: IsBlank(b[k])
    ensures StructuralSpace(b, i) == StructuralSpace(b, n)
    decreases n - i
  {
    if i < n { SpaceOverBlanks(b, i + 1, n); }
  }

  lemma SpaceOverRound(src: Source, d: State)
    requires InBounds(src, d) && !d.valueNoNewline
    ensures StructuralSpace(src.buf, d.off) == StructuralSpace(src.buf, SpaceRound(src, d).off)
  {
    hide AdvancePosition, ScanComment, BlankEnd;
    if d.off < |src.buf| { SpaceOverBlanks(src.buf, d.off, BlankEnd(src.buf, d.off)); }
  }

  lemma {:induction false} SpaceOverSkipped(src: Source, d: State)
    requires InBounds(src, d) && !d.valueNoNewline
    ensures StructuralSpace(src.buf, d.off) == StructuralSpace(src.buf, SkipSpaces(src, d).off)
    decreases |src.buf| - d.off
  {
    hide SpaceRound, SkipSpaces, StructuralSpace;
    SkipSpacesRound(src, d);
    SpaceOverRound(src, d);
    if SpaceRound(src, d) != d { SpaceOverSkipped(src, SpaceRound(src, d)); }
  }

  /** Comments between values are tokens for one and space for the other. */
  lemma {:induction false} CrossSpace(src: Source, outer: int, d: State, frames: seq<Frame>) returns (t: State)
    requires InBounds(src, d) && FlagInv(d) && !d.failed && !d.needLineEnd && !d.valueNoNewline
    requires frames != [] && frames[|frames| - 1] != InlineValue
    requires StructuralSpace(src.buf, d.off).End?
    ensures Ready(src, t) && SameFlags(d, t) && t.off == StructuralSpace(src.buf, d.off).end
    ensures t.off < |src.buf| ==> src.buf[t.off] != '#'
    ensures SlowSkip(src, d, |frames|) == SlowSkip(src, t, |frames|)
    ensures Conforms(src, outer, d, frames) == Conforms(src, outer, t, frames)
    decreases |src.buf| - d.off
  {
    hide SlowSkip, Conforms, AdvancePosition, SkipSpaces;
    t := SkipSpaces(src, d);
    SkipSpacesFlags(src, d);
    SkipSpacesStop(src, d);
    SkipSpacesTwice(src, d);
    SpaceOverSkipped(src, d);
    ReadAfterSpaces(src, d, |frames|);
    ConformAfterSpaces(src, outer, d, frames);
    if t.off < |src.buf| && src.buf[t.off] == '#' {
      var u := CommentStep(src, outer, t, frames);
      t := CrossSpace(src, outer, u, frames);
    }
  }

  lemma CommentRead(src: Source, t: State)
    requires Ready(src, t) && t.off < |src.buf| && src.buf[t.off] == '#'
    ensures ReadToken(src, t) == ReadComment(src, t) && !AtComma(src, t)
  {
    hide AdvancePosition, ScanComment;
    assert Iterate(src, t) == Done(ReadComment(src, t));
  }

  lemma {:induction false} CommentStep(src: Source, outer: int, t: State, frames: seq<Frame>) returns (u: State)
    requires Ready(src, t) && t.off < |src.buf| && src.buf[t.off] == '#'
    requires frames != [] && frames[|frames| - 1] != InlineValue
    requires ScanComment(src.buf, t.off).End?
    ensures InBounds(src, u) && FlagInv(u) && SameFlags(t, u) && !u.needLineEnd
    ensures t.off < u.off == ScanComment(src.buf, t.off).end
    ensures SlowSkip(src, t, |frames|) == SlowSkip(src, u, |frames|)
    ensures Conforms(src, outer, t, frames) == Conforms(src, outer, u, frames)
  {
    hide AdvancePosition, SkipSpaces, ScanComment, Iterate, CountKind, ReadToken, AtComma;
    u := Advance(src, t, ScanComment(src.buf, t.off).end);
    CommentRead(src, t);
    assert Retop(frames, frames[|frames| - 1]) == frames;
    assert Fit(src, outer, frames, Mark(Comment, false)) == Some(frames);
  }

  /** `ReadToken` at a significant byte is one dispatch. */
  lemma ReadAtByte(src: Source, t: State)
    requires Ready(src, t) && t.off < |src.buf|
    requires !(t.atLineStart && !t.expectingValue && src.buf[t.off] == '[')
    ensures DispatchToken(src, t).Done? ==> ReadToken(src, t) == DispatchToken(src, t).read
    ensures DispatchToken(src, t).Again? ==> ReadToken(src, t) == Loop(src, DispatchToken(src, t).st)
  {}

  /** A token read at a significant byte, as a step of the skip loop. */
  lemma SlowStep(src: Source, t: State, depth: nat)
    requires Ready(src, t) && t.off < |src.buf| && depth > 0
    requires !(t.atLineStart && !t.expectingValue && src.buf[t.off] == '[')
    requires DispatchToken(src, t).Done? && DispatchToken(src, t).read.out.Got?
    ensures var r := DispatchToken(src, t).read;
            && InBounds(src, r.st) && FlagInv(r.st)
            && SlowSkip(src, t, depth) == SlowSkip(src, r.st, DepthAfter(depth, r.out.token.kind))
  {
    ReadAtByte(src, t);
    LoopOk(src, t);
  }

  lemma SlowSeparator(src: Source, t: State, depth: nat)
    requires Ready(src, t) && t.off < |src.buf| && depth > 0
    requires src.buf[t.off] == ',' && t.needSeparator
    ensures var u := DispatchToken(src, t).st;
            && InBounds(src, u) && FlagInv(u) && !u.failed
            && SlowSkip(src, t, depth) == SlowSkip(src, u, depth)
  {
    ReadAtByte(src, t);
    DispatchKeepsFlags(src, t);
  }

  lemma DoneNoComma(src: Source, t: State)
    requires Ready(src, t) && t.off < |src.buf|
    ensures AtComma(src, t) <==> src.buf[t.off] == ','
  {}

  lemma ConformStep(src: Source, outer: int, t: State, frames: seq<Frame>)
    requires Ready(src, t) && t.off < |src.buf| && frames != []
    requires !(t.atLineStart && !t.expectingValue && src.buf[t.off] == '[')
    requires DispatchToken(src, t).Done? && DispatchToken(src, t).read.out.Got?
    ensures var r := DispatchToken(src, t).read;
            && InBounds(src, r.st) && FlagInv(r.st)
            && var g := Fit(src, outer, frames, Mark(r.out.token.kind, false));
            Conforms(src, outer, t, frames) == (g.Some? && Conforms(src, outer, r.st, g.value))
  {
    hide AdvancePosition, SkipSpaces, Fit, ReadToken, AtComma;
    ReadAtByte(src, t);
    DoneNoComma(src, t);
    LoopOk(src, t);
    assert src.buf[t.off] != ',';
  }

  /** No read passes two commas. */
  lemma {:induction false} OneComma(src: Source, u: State)
    requires InBounds(src, u) && FlagInv(u) && !u.failed && !u.needLineEnd && !u.needSeparator && AtComma(src, u)
    ensures !ReadToken(src, u).out.Got?
  {
    hide AdvancePosition, SkipSpaces;
    SkipSpacesFlags(src, u);
    var t := SkipSpaces(src, u);
    assert Iterate(src, t) == Done(Fail(t, true));
  }

  lemma FitPassed(src: Source, outer: int, frames: seq<Frame>, kind: Kind)
    requires frames != []
    ensures Fit(src, outer, frames, Mark(kind, true))
            == Fit(src, outer, Retop(frames, Passed(frames[|frames| - 1])), Mark(kind, false))
  {
    var top := frames[|frames| - 1];
    RetopFrame(frames, Passed(top), InlineContainer);
    assert forall x :: Retop(Retop(frames, Passed(top)), x) == Retop(frames, x);
  }

  lemma ConformSeparator(src: Source, outer: int, t: State, frames: seq<Frame>)
    requires Ready(src, t) && t.off < |src.buf| && frames != []
    requires src.buf[t.off] == ',' && t.needSeparator
    ensures var u := DispatchToken(src, t).st;
            && InBounds(src, u) && FlagInv(u)
            && Conforms(src, outer, t, frames) == Conforms(src, outer, u, Retop(frames, Passed(frames[|frames| - 1])))
  {
    hide AdvancePosition, SkipSpaces, Fit, AtComma, Iterate, CountKind;
    ReadAtByte(src, t);
    DispatchKeepsFlags(src, t);
    DoneNoComma(src, t);
    var u := DispatchToken(src, t).st;
    if AtComma(src, u) { OneComma(src, u); }
    var r := ReadToken(src, t);
    assert r == ReadToken(src, u);
    if r.out.Got? { FitPassed(src, outer, frames, r.out.token.kind); }
  }

  // ---------------------------------------------------------------- frames

  lemma PushFrame(frames: seq<Frame>, x: Frame, c: Container)
    ensures Kinds(frames + [x]) == Kinds(frames) + [KindOf(x)]
    ensures CountKind(frames + [x], c) == CountKind(frames, c) + if KindOf(x) == c then 1 else 0
  {
    assert (frames + [x])[..|frames|] == frames;
  }

  lemma PopFrame(frames: seq<Frame>, c: Container)
    requires frames != []
    ensures var rest := frames[..|frames| - 1];
            && Kinds(frames) == Kinds(rest) + [KindOf(frames[|frames| - 1])]
            && CountKind(frames, c) == CountKind(rest, c) + if KindOf(frames[|frames| - 1]) == c then 1 else 0
  {}

  lemma RetopFrame(frames: seq<Frame>, x: Frame, c: Container)
    requires frames != [] && KindOf(x) == KindOf(frames[|frames| - 1])
    ensures var g := frames[|frames| - 1 := x];
            Kinds(g) == Kinds(frames) && CountKind(g, c) == CountKind(frames, c)
  {
    var g := frames[|frames| - 1 := x];
    assert g[..|g| - 1] == frames[..|frames| - 1];
  }

  // ---------------------------------------------------------------- one dispatch

  /** The scanner moved from `f` to `g`; the token decoder moved from `t` to `d` alongside. */
  predicate Stepped(src: Source, base: State, f: Fast, t: State, g: Fast, d: State) {
    && InBounds(src, t) && FlagInv(t) && InBounds(src, d) && FlagInv(d)
    && Sim(src, base, g, d)
    && SlowSkip(src, t, |f.frames|) == SlowSkip(src, d, |g.frames|)
    && Conforms(src, base.inlineDepth, t, f.frames) == Conforms(src, base.inlineDepth, d, g.frames)
  }

  function CloseRead(src: Source, t: State, c: Container): Read
    requires t.off < |src.buf|
  {
    if c == ArrayContainer then ReadArrayEnd(src, t) else ReadInlineEnd(src, t)
  }

  lemma ClosedStack(base: State, f: Fast, t: State, c: Container)
    requires f.frames != [] && c == KindOf(Top(f)) && t.stack == base.stack + Kinds(f.frames)
    ensures var rest := f.frames[..|f.frames| - 1];
            && Popped(t.stack, c) == base.stack + Kinds(rest)
            && forall k :: CountKind(f.frames, k) == CountKind(rest, k) + if k == c then 1 else 0
  {
    var rest := f.frames[..|f.frames| - 1];
    PopFrame(f.frames, c);
    assert t.stack == base.stack + Kinds(rest) + [c];
  }

  lemma OuterFrame(frames: seq<Frame>)
    requires forall k | 0 <= k < |frames| :: frames[k] == ArraySeparator || frames[k] == InlineSeparator
    requires frames != []
    ensures var top := frames[|frames| - 1];
      (top == ArraySeparator || top == InlineSeparator) && Kinds(frames)[|frames| - 1] == KindOf(top)
  {}

  lemma CloseReadFacts(src: Source, t: State, c: Container)
    requires t.off < |src.buf|
    ensures var d := CloseRead(src, t, c).st;
      && d.off == t.off + 1 && d.failed == t.failed && !d.atLineStart && d == AfterValue(d)
      && d.stack == Popped(t.stack, c)
      && d.arrayDepth == (if c == ArrayContainer && t.arrayDepth > 0 then t.arrayDepth - 1 else t.arrayDepth)
      && d.inlineDepth == (if c == InlineContainer && t.inlineDepth > 0 then t.inlineDepth - 1 else t.inlineDepth)
  {
    hide AdvancePosition, Popped, AfterValue;
    var u := Advance(src, t, t.off + 1);
    AfterValueKeeps(u.(stack := Popped(t.stack, c), arrayDepth := if t.arrayDepth > 0 then t.arrayDepth - 1 else 0));
    AfterValueKeeps(u.(stack := Popped(t.stack, c), inlineDepth := if t.inlineDepth > 0 then t.inlineDepth - 1 else 0));
  }

  lemma AfterValueKeeps(s: State)
    ensures var d := AfterValue(s);
      && d == AfterValue(d) && d.off == s.off && d.failed == s.failed && d.atLineStart == s.atLineStart
      && d.stack == s.stack && d.arrayDepth == s.arrayDepth && d.inlineDepth == s.inlineDepth
  {}

  /** Behind a complete value the flags are those of a frame that waits for a separator. */
  lemma SeparatorFlags(d: State, top: Frame)
    requires d == AfterValue(d) && d.stack != [] && d.stack[|d.stack| - 1] == KindOf(top)
    requires top == ArraySeparator || top == InlineSeparator
    ensures TopFlags(d, top) && !d.needLineEnd
  {}

  lemma ClosedSim(src: Source, base: State, f: Fast, t: State, c: Container)
    requires f.frames != [] && Sim(src, base, f, t) && t.off < |src.buf| && c == KindOf(Top(f))
    ensures Sim(src, base, Pop(f, c).f, CloseRead(src, t, c).st)
  {
    hide CloseRead, AfterValue, TopFlags, Kinds, CountKind, Popped;
    ClosedStack(base, f, t, c);
    CloseReadFacts(src, t, c);
    var rest := f.frames[..|f.frames| - 1];
    var d := CloseRead(src, t, c).st;
    if rest != [] {
      OuterFrame(rest);
      assert d.stack[|d.stack| - 1] == Kinds(rest)[|rest| - 1];
      SeparatorFlags(d, rest[|rest| - 1]);
    }
  }

  lemma CloseSim(src: Source, base: State, f: Fast, t: State, c: Container) returns (d: State)
    requires f.frames != [] && Sim(src, base, f, t) && Ready(src, t) && t.off < |src.buf|
    requires c == KindOf(Top(f)) && Top(f) != InlineValue
    requires src.buf[t.off] == if c == ArrayContainer then ']' else '}'
    ensures Stepped(src, base, f, t, Pop(f, c).f, d)
  {
    hide AdvancePosition, SlowSkip, Sim, SkipSpaces, Conforms, CountKind;
    ClosedSim(src, base, f, t, c);
    d := CloseRead(src, t, c).st;
    SlowStep(src, t, |f.frames|);
    ConformStep(src, base.inlineDepth, t, f.frames);
  }

  function OpenRead(src: Source, t: State, c: Container): Read
    requires t.off < |src.buf|
  {
    if c == ArrayContainer then ReadArrayStart(src, t) else ReadInlineStart(src, t)
  }

  lemma OpenedSim(src: Source, base: State, f: Fast, t: State, top: Frame, c: Container)
    requires f.frames != [] && Sim(src, base, f, t) && t.off < |src.buf|
    requires (Top(f), top) == (ArrayValue, ArraySeparator) || (Top(f), top) == (InlineValue, InlineSeparator)
    requires Push(src, WithTop(f, top), c).Next?
    ensures Sim(src, base, Push(src, WithTop(f, top), c).f, OpenRead(src, t, c).st)
  {
    hide AdvancePosition, Kinds, CountKind;
    var h := WithTop(f, top);
    var x := if c == ArrayContainer then ArrayValue else InlineKey;
    RetopFrame(f.frames, top, ArrayContainer);
    RetopFrame(f.frames, top, InlineContainer);
    PushFrame(h.frames, x, ArrayContainer);
    PushFrame(h.frames, x, InlineContainer);
    assert t.stack + [c] == base.stack + Kinds(h.frames + [x]);
  }

  lemma OpenSim(src: Source, base: State, f: Fast, t: State, top: Frame, c: Container) returns (d: State)
    requires f.frames != [] && Sim(src, base, f, t) && Ready(src, t) && t.off < |src.buf|
    requires (Top(f), top) == (ArrayValue, ArraySeparator) || (Top(f), top) == (InlineValue, InlineSeparator)
    requires src.buf[t.off] == if c == ArrayContainer then '[' else '{'
    requires Push(src, WithTop(f, top), c).Next?
    ensures Stepped(src, base, f, t, Push(src, WithTop(f, top), c).f, d)
  {
    hide SlowSkip, AdvancePosition, ReadScalar, ReadKey, ReadComment, ReadArrayEnd, ReadInlineEnd, Kinds, CountKind,
      SkipSpaces, Conforms;
    OpenedSim(src, base, f, t, top, c);
    d := OpenRead(src, t, c).st;
    assert DispatchToken(src, t) == Done(OpenRead(src, t, c));
    SlowStep(src, t, |f.frames|);
    ConformStep(src, base.inlineDepth, t, f.frames);
  }

  /** Same frames but for the innermost one, same containers, new flags. */
  lemma RetopSim(src: Source, base: State, f: Fast, t: State, top: Frame, d: State)
    requires f.frames != [] && Sim(src, base, f, t) && KindOf(top) == KindOf(Top(f))
    requires t.off <= d.off <= |src.buf| && d.stack == t.stack && d.arrayDepth == t.arrayDepth
    requires d.inlineDepth == t.inlineDepth
    requires !d.failed && !d.needLineEnd && TopFlags(d, top)
    ensures Sim(src, base, WithTop(f, top).(i := d.off), d)
  {
    RetopFrame(f.frames, top, ArrayContainer);
    RetopFrame(f.frames, top, InlineContainer);
  }

  lemma ScalarSim(src: Source, base: State, f: Fast, t: State, top: Frame) returns (d: State)
    requires f.frames != [] && Sim(src, base, f, t) && Ready(src, t) && t.off < |src.buf|
    requires (Top(f), top) == (ArrayValue, ArraySeparator) || (Top(f), top) == (InlineValue, InlineSeparator)
    requires src.buf[t.off] != '[' && src.buf[t.off] != '{' && ScalarEnd(src, t.off).End?
    ensures Stepped(src, base, f, t, WithTop(f, top).(i := ScalarEnd(src, t.off).end), d)
  {
    hide AdvancePosition, Kinds, CountKind, SlowSkip, SkipSpaces, ScalarEnd, ReadKey, ReadComment, Conforms;
    SimFlagInv(src, base, f, t);
    assert DispatchToken(src, t) == Done(ReadScalar(src, t));
    d := ReadScalar(src, t).st;
    SlowStep(src, t, |f.frames|);
    ConformStep(src, base.inlineDepth, t, f.frames);
    RetopSim(src, base, f, t, top, d);
  }

  lemma SeparatorSim(src: Source, base: State, f: Fast, t: State, top: Frame) returns (d: State)
    requires f.frames != [] && Sim(src, base, f, t) && Ready(src, t) && t.off < |src.buf|
    requires (Top(f), top) == (ArraySeparator, ArrayValue) || (Top(f), top) == (InlineSeparator, InlineKey)
    requires src.buf[t.off] == ','
    ensures Stepped(src, base, f, t, WithTop(f, top).(i := f.i + 1), d)
  {
    hide AdvancePosition, Kinds, CountKind, SlowSkip, SkipSpaces, Conforms;
    SimFlagInv(src, base, f, t);
    SlowSeparator(src, t, |f.frames|);
    ConformSeparator(src, base.inlineDepth, t, f.frames);
    d := DispatchToken(src, t).st;
    RetopSim(src, base, f, t, top, d);
  }

  // ---------------------------------------------------------------- keys

  lemma {:induction false} SameKeyEnd(b: Bytes, i: nat)
    requires i <= |b| && SkippedKeyEnd(b, i).End?
    ensures KeyEnd(b, i) == SkippedKeyEnd(b, i)
    decreases |b| - i
  {
    if b[i] != '=' {
      if IsQuote(b[i]) {
        SameKeyEnd(b, ScanQuoted(b, i).end);
      } else {
        SameKeyEnd(b, i + 1);
      }
    }
  }

  lemma KeyFirstByte(key: Bytes)
    requires ValidKey(key) && key != [] && !TomlKey.IsSpace(key[0])
    ensures IsBareKeyChar(key[0]) || IsQuote(key[0])
  {
    if !TomlKey.IsSimpleBareKey(key) {
      TrimKeepsFirst(key);
      var r := TomlKey.TrimSpace(key);
      TomlKey.NoTrim(r);
      assert TomlKey.ParseRound(r) != TomlKey.Malformed;
      assert TomlKey.ParseSegment(r).Some?;
      if !IsQuote(r[0]) {
        var end := TomlKey.BareEnd(r, 0);
        assert r[..end][0] == r[0];
      }
    }
  }

  lemma {:induction false} TrimKeepsFirst(key: Bytes)
    requires key != [] && !TomlKey.IsSpace(key[0])
    ensures TomlKey.TrimSpace(key) != [] && TomlKey.TrimSpace(key)[0] == key[0]
    decreases |key|
  {
    if TomlKey.IsSpace(key[|key| - 1]) { TrimKeepsFirst(key[..|key| - 1]); }
  }

  lemma SameKey(src: Source, start: nat)
    requires start < |src.buf| && !IsBlank(src.buf[start]) && SkippedKey(src, start).End?
    ensures ScanKey(src, start).KeyAt? && ScanKey(src, start).next == SkippedKey(src, start).end
    ensures IsBareKeyChar(src.buf[start]) || IsQuote(src.buf[start])
  {
    SameKeyEnd(src.buf, start);
    var i := SkippedKeyEnd(src.buf, start).end;
    var key := TrimRightBlanks(src.buf[start..i]);
    assert key[0] == src.buf[start..i][0] == src.buf[start];
    KeyFirstByte(key);
  }

  lemma KeyDispatch(src: Source, t: State)
    requires Ready(src, t) && t.off < |src.buf| && !t.expectingValue && !t.needSeparator
    requires SkippedKey(src, t.off).End?
    ensures DispatchToken(src, t) == Done(ReadKey(src, t))
    ensures ScanKey(src, t.off).KeyAt? && ScanKey(src, t.off).next == SkippedKey(src, t.off).end
    ensures src.buf[t.off] != '['
  {
    hide ReadKey, ReadScalar, ReadArrayStart, ReadInlineStart, ReadArrayEnd, ReadInlineEnd, ReadComment, SkipSpaces,
      ScanKey, SkippedKey, FlagInv;
    SkipSpacesStop(src, t);
    SameKey(src, t.off);
  }

  lemma {:induction false} KeySim(src: Source, base: State, f: Fast, t: State) returns (d: State)
    requires f.frames != [] && Sim(src, base, f, t) && Ready(src, t) && t.off < |src.buf|
    requires Top(f) == InlineKey && SkippedKey(src, t.off).End?
    ensures Stepped(src, base, f, t, WithTop(f, InlineValue).(i := SkippedKey(src, t.off).end), d)
  {
    hide AdvancePosition, ScanKey, SkippedKey, SkipSpaces, DispatchToken, SlowSkip, Conforms, CountKind;
    KeyDispatch(src, t);
    d := ReadKey(src, t).st;
    SlowStep(src, t, |f.frames|);
    ConformStep(src, base.inlineDepth, t, f.frames);
    RetopSim(src, base, f, t, InlineValue, d);
  }

  // ---------------------------------------------------------------- the main loop

  lemma {:induction false} DispatchSim(src: Source, base: State, f: Fast, t: State) returns (d: State)
    requires f.frames != [] && Sim(src, base, f, t) && Ready(src, t) && t.off < |src.buf|
    requires FastDispatch(src, f).Next?
    ensures Stepped(src, base, f, t, FastDispatch(src, f).f, d)
  {
    var c := src.buf[t.off];
    match Top(f) {
      case ArrayValue =>
        if c == ']' { d := CloseSim(src, base, f, t, ArrayContainer); }
        else if c == '[' { d := OpenSim(src, base, f, t, ArraySeparator, ArrayContainer); }
        else if c == '{' { d := OpenSim(src, base, f, t, ArraySeparator, InlineContainer); }
        else { d := ScalarSim(src, base, f, t, ArraySeparator); }
      case ArraySeparator =>
        if c == ',' { d := SeparatorSim(src, base, f, t, ArrayValue); }
        else { d := CloseSim(src, base, f, t, ArrayContainer); }
      case InlineKey =>
        if c == '}' { d := CloseSim(src, base, f, t, InlineContainer); }
        else { d := KeySim(src, base, f, t); }
      case InlineValue =>
        if c == '[' { d := OpenSim(src, base, f, t, InlineSeparator, ArrayContainer); }
        else if c == '{' { d := OpenSim(src, base, f, t, InlineSeparator, InlineContainer); }
        else { d := ScalarSim(src, base, f, t, InlineSeparator); }
      case InlineSeparator =>
        if c == ',' { d := SeparatorSim(src, base, f, t, InlineKey); }
        else { d := CloseSim(src, base, f, t, InlineContainer); }
    }
  }

  lemma {:induction false} BlanksOnly(src: Source, d: State)
    requires InBounds(src, d) && d.valueNoNewline
    ensures SkipSpaces(src, d).off == BlankEnd(src.buf, d.off)
    decreases |src.buf| - d.off
  {
    if d.off < |src.buf| {
      var n := BlankEnd(src.buf, d.off);
      if n > d.off {
        BlankEndFrom(src.buf, d.off, n);
        BlanksOnly(src, Advance(src, d, n).(atLineStart := d.atLineStart));
      }
    }
  }

  /** Up to the next significant byte the two agree on the offset and change no flag. */
  lemma SpaceSim(src: Source, base: State, f: Fast, d: State) returns (t: State)
    requires f.frames != [] && Sim(src, base, f, d) && FrameSpace(src.buf, f).End?
    ensures Ready(src, t) && FlagInv(d) && Sim(src, base, f.(i := FrameSpace(src.buf, f).end), t)
    ensures SlowSkip(src, d, |f.frames|) == SlowSkip(src, t, |f.frames|)
    ensures Conforms(src, base.inlineDepth, d, f.frames) == Conforms(src, base.inlineDepth, t, f.frames)
  {
    hide SlowSkip, Conforms, AdvancePosition, SkipSpaces;
    SimFlagInv(src, base, f, d);
    if Top(f) == InlineValue {
      t := SkipSpaces(src, d);
      BlanksOnly(src, d);
      SkipSpacesFlags(src, d);
      SkipSpacesTwice(src, d);
      ReadAfterSpaces(src, d, |f.frames|);
      ConformAfterSpaces(src, base.inlineDepth, d, f.frames);
    } else {
      t := CrossSpace(src, base.inlineDepth, d, f.frames);
    }
  }

  /** Every run of the scanner that succeeds is matched token by token. */
  lemma {:induction false} RunSim(src: Source, base: State, f: Fast, d: State) returns (final: State)
    requires Sim(src, base, f, d) && FastRun(src, f).End?
    ensures FlagInv(d) && SlowSkip(src, d, |f.frames|) == Some(final) && Conforms(src, base.inlineDepth, d, f.frames)
    ensures Sim(src, base, Fast(FastRun(src, f).end, [], base.arrayDepth, base.inlineDepth), final)
    decreases |src.buf| - f.i
  {
    hide AdvancePosition, SkipSpaces, FastDispatch, FrameSpace;
    SimFlagInv(src, base, f, d);
    if f.frames == [] {
      final := d;
    } else {
      var t := SpaceSim(src, base, f, d);
      var h := f.(i := FrameSpace(src.buf, f).end);
      var g := FastStep(src, f).f;
      assert g == FastDispatch(src, h).f;
      var u := DispatchSim(src, base, h, t);
      final := RunSim(src, base, g, u);
    }
  }

  /** Two states at the same offset with exact positions and the same flags are the same state. */
  lemma SameState(src: Source, base: State, e: nat, final: State, fast: State)
    requires Sim(src, base, Fast(e, [], base.arrayDepth, base.inlineDepth), final)
    requires PosInv(src, final) && PosInv(src, fast) && base.off < e <= |src.buf| && !base.failed
    requires fast == AfterValue(Advance(src, base, e))
    ensures final == fast
  {
    assert base.stack + Kinds([]) == base.stack;
  }

  lemma {:induction false} SlowSkipPos(src: Source, s: State, depth: nat)
    requires PosInv(src, s) && FlagInv(s) && SlowSkip(src, s, depth).Some?
    ensures PosInv(src, SlowSkip(src, s, depth).value)
    decreases |src.buf| - s.off
  {
    hide AdvancePosition, SkipSpaces, Loop;
    if depth > 0 {
      var r := ReadToken(src, s);
      LoopOk(src, s);
      LoopPos(src, s);
      SlowSkipPos(src, r.st, DepthAfter(depth, r.out.token.kind));
    }
  }

  lemma EnterSim(src: Source, t: State, c: Container)
    requires t.off < |src.buf| && !t.failed && !t.needLineEnd && t.expectingValue
    requires Push(src, Fast(t.off, [], t.arrayDepth, t.inlineDepth), c).Next?
    ensures Sim(src, t, Push(src, Fast(t.off, [], t.arrayDepth, t.inlineDepth), c).f, OpenRead(src, t, c).st)
  {
    var x := if c == ArrayContainer then ArrayValue else InlineKey;
    PushFrame([], x, ArrayContainer);
    PushFrame([], x, InlineContainer);
  }

  lemma OpenDispatch(src: Source, t: State, c: Container)
    requires t.off < |src.buf| && !t.needLineEnd && t.expectingValue
    requires src.buf[t.off] == if c == ArrayContainer then '[' else '{'
    ensures Iterate(src, t) == Done(OpenRead(src, t, c))
    ensures OpenRead(src, t, c).out.Got?
    ensures OpenRead(src, t, c).out.token.kind == if c == ArrayContainer then ArrayStart else InlineStart
  {}

  lemma {:induction false} EnterSlow(src: Source, s: State, c: Container)
    requires InBounds(src, s) && !s.failed && FlagInv(s) && s.expectingValue && SkipSpaces(src, s).off < |src.buf|
    requires src.buf[SkipSpaces(src, s).off] == if c == ArrayContainer then '[' else '{'
    ensures FlagInv(OpenRead(src, SkipSpaces(src, s), c).st)
    ensures SlowSkipNext(src, s) == SlowSkip(src, OpenRead(src, SkipSpaces(src, s), c).st, 1)
  {
    hide AdvancePosition, SkipSpaces, ReadScalar, ReadKey, ReadComment;
    SkipSpacesFlags(src, s);
    OpenDispatch(src, SkipSpaces(src, s), c);
    assert ReadToken(src, s) == OpenRead(src, SkipSpaces(src, s), c);
    LoopOk(src, s);
  }

  /** The body of the theorem, from the opening bracket on. */
  lemma SkipFromBracket(src: Source, t: State, c: Container)
    requires PosInv(src, t) && FlagInv(t) && t.expectingValue && !t.failed && t.off < |src.buf|
    requires var p := Push(src, Fast(t.off, [], t.arrayDepth, t.inlineDepth), c); p.Next? && FastRun(src, p.f).End?
    ensures var e := FastRun(src, Push(src, Fast(t.off, [], t.arrayDepth, t.inlineDepth), c).f).end;
            && FlagInv(OpenRead(src, t, c).st) && t.off < e <= |src.buf|
            && SlowSkip(src, OpenRead(src, t, c).st, 1) == Some(AfterValue(Advance(src, t, e)))
  {
    hide AdvancePosition, SkipSpaces, Kinds, CountKind;
    var f := Push(src, Fast(t.off, [], t.arrayDepth, t.inlineDepth), c).f;
    var d := OpenRead(src, t, c).st;
    EnterSim(src, t, c);
    var final := RunSim(src, t, f, d);
    AdvancePos(src, t, t.off + 1);
    SlowSkipPos(src, d, 1);
    AdvancePos(src, t, FastRun(src, f).end);
    SameState(src, t, FastRun(src, f).end, final, AfterValue(Advance(src, t, FastRun(src, f).end)));
  }

  /** From any decoder about to read a value: if the fast structural skip succeeds, so does the
      token-by-token skip, and it ends in the same state: offset, line and column, every flag, both
      depths and the container stack. */
  lemma {:induction false} FastSkipIsTokenSkip(src: Source, s: State)
    requires PosInv(src, s) && FlagInv(s) && s.expectingValue
    requires SkipFast(src, s).Skipped?
    ensures SlowSkipNext(src, s) == Some(SkipFast(src, s).st)
  {
    hide AdvancePosition;
    var t := SkipSpaces(src, s);
    SkipSpacesFlags(src, s);
    SkipSpacesPos(src, s);
    var c := if src.buf[t.off] == '[' then ArrayContainer else InlineContainer;
    SkipFromBracket(src, t, c);
    EnterSlow(src, s, c);
  }

  /** The converse fails: the token loop only counts brackets, so it also skips a value whose
      brackets do not match, which the structural scanner rejects. */
  lemma TokenSkipAcceptsMore(src: Source, s: State)
    requires src.buf == "[}" && s.off == 0 && FlagInv(s) && s.expectingValue && !s.failed && s.arrayDepth == 0
    ensures SlowSkipNext(src, s).Some? && SkipFast(src, s).Failed?
  {
    hide SlowSkipNext, SkipFast;
    TokensAccept(src, s);
    ScannerRejects(src, s);
  }

  lemma ScannerRejects(src: Source, s: State)
    requires src.buf == "[}" && s.off == 0 && FlagInv(s) && s.expectingValue && !s.failed && s.arrayDepth == 0
    ensures SkipFast(src, s).Failed?
  {
    hide AdvancePosition, ScanComment, ReadScalar, ReadKey, DispatchToken;
    assert SkipSpaces(src, s) == s;
  }

  lemma TokensAccept(src: Source, s: State)
    requires src.buf == "[}" && s.off == 0 && FlagInv(s) && s.expectingValue && !s.failed && s.arrayDepth == 0
    ensures SlowSkipNext(src, s).Some?
  {
    hide AdvancePosition, ScanComment, ReadScalar, ReadKey, FastRun;
    assert SkipSpaces(src, s) == s;
    var d := OpenRead(src, s, ArrayContainer).st;
    EnterSlow(src, s, ArrayContainer);
    if !d.failed {
      assert SkipSpaces(src, d) == d;
      assert Ready(src, d);
      SlowStep(src, d, 1);
    }
  }
}
