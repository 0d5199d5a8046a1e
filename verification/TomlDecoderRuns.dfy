/** What every run of the TOML token stream keeps: flags, token order, positions, sticky errors,
    and exactly when a call never returns. */
module TomlDecoderRuns {
  import opened Text
  import opened TomlLexer
  import opened TomlDecoder
  import TomlString

  /** The flag discipline between calls. */
  predicate FlagInv(s: State) {
    && (s.needSeparator ==> s.stack != [])
    && (s.valueNoNewline ==> s.expectingValue && !s.needSeparator)
    && (s.needLineEnd ==> !s.expectingValue)
  }

  /** The cached position is the position recomputed from the consumed prefix. */
  predicate PosInv(src: Source, s: State) {
    InBounds(src, s) && (s.line, s.col) == LineCol(src.buf[..s.off])
  }

  predicate LoneCr(b: Bytes, i: nat) {
    i < |b| && b[i] == '\r' && !TomlString.IsCrLf(b, i)
  }

  predicate NoLoneCr(b: Bytes) { forall i: nat | i < |b| :: !LoneCr(b, i) }

  predicate HasLf(b: Bytes, from: nat, to: nat) {
    exists q: nat | from <= q < to && q < |b| :: b[q] == '\n'
  }

  // ---------------------------------------------------------------- single steps

  lemma AdvancePos(src: Source, s: State, to: nat)
    requires PosInv(src, s) && s.off < to <= |src.buf|
    ensures PosInv(src, Advance(src, s, to))
  {
    AdvanceAgrees(src.buf[..s.off], src.buf[s.off..to]);
    assert src.buf[..to] == src.buf[..s.off] + src.buf[s.off..to];
  }

  lemma {:induction false} SkipSpacesPos(src: Source, s: State)
    requires PosInv(src, s)
    ensures PosInv(src, SkipSpaces(src, s))
    decreases |src.buf| - s.off
  {
    if s.off < |src.buf| {
      var n := BlankEnd(src.buf, s.off);
      if n > s.off {
        AdvancePos(src, s, n);
        SkipSpacesPos(src, Advance(src, s, n).(atLineStart := s.atLineStart));
      } else if !s.valueNoNewline {
        if TomlString.IsCrLf(src.buf, s.off) {
          AdvancePos(src, s, s.off + 2);
          SkipSpacesPos(src, NewLine(src, s, s.off + 2));
        } else if src.buf[s.off] == '\n' {
          AdvancePos(src, s, s.off + 1);
          SkipSpacesPos(src, NewLine(src, s, s.off + 1));
        }
      }
    }
  }

  /** `t` differs from `s` only in where it is. */
  predicate SameFlags(s: State, t: State) {
    && t.failed == s.failed && t.expectingValue == s.expectingValue && t.valueNoNewline == s.valueNoNewline
    && t.needSeparator == s.needSeparator && t.arrayDepth == s.arrayDepth && t.inlineDepth == s.inlineDepth
    && t.stack == s.stack
  }

  lemma {:induction false} SkipSpacesFlags(src: Source, s: State)
    requires InBounds(src, s)
    ensures SameFlags(s, SkipSpaces(src, s))
    ensures SkipSpaces(src, s).needLineEnd ==> s.needLineEnd
    decreases |src.buf| - s.off
  {
    if s.off < |src.buf| {
      var n := BlankEnd(src.buf, s.off);
      if n > s.off {
        SkipSpacesFlags(src, Advance(src, s, n).(atLineStart := s.atLineStart));
      } else if !s.valueNoNewline {
        if TomlString.IsCrLf(src.buf, s.off) {
          SkipSpacesFlags(src, NewLine(src, s, s.off + 2));
        } else if src.buf[s.off] == '\n' {
          SkipSpacesFlags(src, NewLine(src, s, s.off + 1));
        }
      }
    }
  }

  /** One round of `skipSpaces`: what it crosses, or nothing. */
  function SpaceRound(src: Source, s: State): (t: State)
    requires InBounds(src, s)
    ensures InBounds(src, t) && (t == s || s.off < t.off) && t.valueNoNewline == s.valueNoNewline
  {
    if s.off >= |src.buf| then s else
      var n := BlankEnd(src.buf, s.off);
      if n > s.off then Advance(src, s, n).(atLineStart := s.atLineStart)
      else if s.valueNoNewline then s
      else if TomlString.IsCrLf(src.buf, s.off) then NewLine(src, s, s.off + 2)
      else if src.buf[s.off] == '\n' then NewLine(src, s, s.off + 1)
      else s
  }

  lemma SkipSpacesRound(src: Source, s: State)
    requires InBounds(src, s)
    ensures SkipSpaces(src, s) == if SpaceRound(src, s) == s then s else SkipSpaces(src, SpaceRound(src, s))
  {
    hide AdvancePosition;
  }

  /** Where `skipSpaces` stops: never at a blank, nor at a newline it may cross. */
  lemma {:induction false} SkipSpacesStop(src: Source, s: State)
    requires InBounds(src, s)
    ensures var t := SkipSpaces(src, s);
            t.off < |src.buf| ==>
              && !IsBlank(src.buf[t.off])
              && (s.valueNoNewline || (src.buf[t.off] != '\n' && !TomlString.IsCrLf(src.buf, t.off)))
    decreases |src.buf| - s.off
  {
    hide AdvancePosition, SkipSpaces;
    SkipSpacesRound(src, s);
    var u := SpaceRound(src, s);
    if u != s { SkipSpacesStop(src, u); }
  }

  /** The line-end demand is dropped exactly by crossing a newline. */
  lemma {:induction false} SkipSpacesLineEnd(src: Source, s: State)
    requires InBounds(src, s) && s.needLineEnd
    ensures var t := SkipSpaces(src, s);
            if t.needLineEnd then t.off == BlankEnd(src.buf, s.off) else HasLf(src.buf, s.off, t.off)
    decreases |src.buf| - s.off
  {
    if s.off < |src.buf| {
      var n := BlankEnd(src.buf, s.off);
      if n > s.off {
        BlankEndFrom(src.buf, s.off, n);
        SkipSpacesLineEnd(src, Advance(src, s, n).(atLineStart := s.atLineStart));
      } else if !s.valueNoNewline {
        if TomlString.IsCrLf(src.buf, s.off) {
          SkipSpacesFlags(src, NewLine(src, s, s.off + 2));
          assert src.buf[s.off + 1] == '\n';
        } else if src.buf[s.off] == '\n' {
          SkipSpacesFlags(src, NewLine(src, s, s.off + 1));
        }
      }
    }
  }

  lemma BlankEndFrom(b: Bytes, i: nat, n: nat)
    requires i <= |b| && n == BlankEnd(b, i)
    ensures BlankEnd(b, n) == n
  {}

  lemma SkipSpacesTwice(src: Source, s: State)
    requires InBounds(src, s)
    ensures SkipSpaces(src, SkipSpaces(src, s)) == SkipSpaces(src, s)
  {
    SkipSpacesStop(src, s);
    SkipSpacesFlags(src, s);
  }

  /** A read from `s` keeps the flags, and a token is a non-empty slice of what it consumed. */
  predicate ReadOk(src: Source, s: State, r: Read) {
    && FlagInv(r.st)
    && s.off <= r.st.off <= |src.buf|
    && (r.out.Got? ==> s.off <= r.out.token.start < r.out.token.end <= r.st.off)
  }

  lemma ReadKeyOk(src: Source, s: State)
    requires s.off < |src.buf| && FlagInv(s) && !s.needSeparator
    ensures ReadOk(src, s, ReadKey(src, s))
  {}

  lemma ReadScalarOk(src: Source, s: State)
    requires s.off < |src.buf| && FlagInv(s)
    ensures ReadOk(src, s, ReadScalar(src, s))
  {}

  lemma ReadBracketsOk(src: Source, s: State)
    requires s.off < |src.buf| && FlagInv(s) && !s.needLineEnd
    ensures ReadOk(src, s, ReadArrayStart(src, s)) && ReadOk(src, s, ReadInlineStart(src, s))
    ensures ReadOk(src, s, ReadArrayEnd(src, s)) && ReadOk(src, s, ReadInlineEnd(src, s))
  {}

  lemma ReadCommentOk(src: Source, s: State)
    requires s.off < |src.buf| && FlagInv(s)
    ensures ReadOk(src, s, ReadComment(src, s))
  {}

  lemma ReadHeaderOk(src: Source, s: State, isArray: bool)
    requires s.off + (if isArray then 2 else 1) <= |src.buf| && FlagInv(s) && !s.expectingValue
    ensures ReadOk(src, s, ReadHeader(src, s, isArray))
  {
    hide AdvancePosition, HeaderEnd, HeaderKey;
  }

  /** An iteration either yields a good read or consumes a separator. */
  predicate DispatchOk(src: Source, s: State, d: Dispatch) {
    match d
    case Again(u) => FlagInv(u) && !u.needLineEnd && u.failed == s.failed
    case Done(r) => ReadOk(src, s, r)
  }

  lemma DispatchKeepsFlags(src: Source, s: State)
    requires s.off < |src.buf| && FlagInv(s) && !s.needLineEnd
    ensures DispatchOk(src, s, DispatchToken(src, s))
  {
    var c := src.buf[s.off];
    if c == '[' || c == '{' || c == ']' || c == '}' {
      ReadBracketsOk(src, s);
    } else if c == '#' {
      ReadCommentOk(src, s);
    } else if c != '=' && c != ',' {
      if s.expectingValue { ReadScalarOk(src, s); }
      else if !s.needSeparator { ReadKeyOk(src, s); }
    }
  }

  lemma {:induction false} IterateOk(src: Source, s: State)
    requires s.off < |src.buf| && FlagInv(s)
    ensures DispatchOk(src, s, Iterate(src, s))
  {
    hide DispatchToken, ReadHeader, ReadComment, AdvancePosition;
    if s.needLineEnd {
      ReadCommentOk(src, s);
    } else if s.atLineStart && !s.expectingValue && src.buf[s.off] == '[' {
      ReadHeaderOk(src, s, s.off + 1 < |src.buf| && src.buf[s.off + 1] == '[');
    } else {
      DispatchKeepsFlags(src, s);
    }
  }

  /** Every call keeps the flag discipline, stays in bounds and moves forward. */
  lemma {:induction false} LoopOk(src: Source, s: State)
    requires InBounds(src, s) && FlagInv(s)
    ensures ReadOk(src, s, Loop(src, s))
    decreases |src.buf| - s.off
  {
    var t := SkipSpaces(src, s);
    SkipSpacesFlags(src, s);
    if t.off < |src.buf| {
      IterateOk(src, t);
      match Iterate(src, t) {
        case Done(_) =>
        case Again(u) => LoopOk(src, u);
      }
    }
  }

  /** After a complete top-level value or header, the next token is a comment on the same line, with
      the line end still due, or stands behind a newline. */
  lemma {:induction false} LineEndBeforeToken(src: Source, s: State)
    requires InBounds(src, s) && FlagInv(s) && s.needLineEnd && Loop(src, s).out.Got?
    ensures var r := Loop(src, s);
      (r.out.token.kind == Comment && r.st.needLineEnd) || HasLf(src.buf, s.off, r.out.token.start)
  {
    hide AdvancePosition, DispatchToken, ReadHeader, ScanComment;
    var t := SkipSpaces(src, s);
    SkipSpacesFlags(src, s);
    SkipSpacesLineEnd(src, s);
    if !t.needLineEnd {
      SkipSpacesTwice(src, s);
      LoopOk(src, t);
    }
  }

  // ---------------------------------------------------------------- positions

  /** `t` sits where `s` sits, or where one `advanceBytes` from `s` leads. */
  predicate Moved(src: Source, s: State, t: State) {
    || (t.off == s.off && t.line == s.line && t.col == s.col)
    || (s.off < t.off <= |src.buf| && t.line == Advance(src, s, t.off).line && t.col == Advance(src, s, t.off).col)
  }

  /** A read moves at most once, and its token starts, and reports, where it began. */
  predicate ReadMoved(src: Source, s: State, r: Read) {
    Moved(src, s, r.st) && (r.out.Got? ==> r.out == MakeToken(s, r.out.token.kind, r.out.token.end))
  }

  lemma MovedPos(src: Source, s: State, t: State)
    requires PosInv(src, s) && Moved(src, s, t)
    ensures PosInv(src, t)
  {
    if t.off > s.off { AdvancePos(src, s, t.off); }
  }

  lemma {:induction false} ReadHeaderMoved(src: Source, s: State, isArray: bool)
    requires s.off + (if isArray then 2 else 1) <= |src.buf|
    ensures ReadMoved(src, s, ReadHeader(src, s, isArray))
  {
    hide HeaderEnd, HeaderKey, AdvancePosition;
  }

  lemma ReadKeyMoved(src: Source, s: State)
    requires s.off < |src.buf|
    ensures ReadMoved(src, s, ReadKey(src, s))
  {}

  lemma ReadScalarMoved(src: Source, s: State)
    requires s.off < |src.buf|
    ensures ReadMoved(src, s, ReadScalar(src, s))
  {}

  lemma ReadBracketsMoved(src: Source, s: State)
    requires s.off < |src.buf|
    ensures ReadMoved(src, s, ReadArrayStart(src, s)) && ReadMoved(src, s, ReadInlineStart(src, s))
    ensures ReadMoved(src, s, ReadArrayEnd(src, s)) && ReadMoved(src, s, ReadInlineEnd(src, s))
  {}

  lemma {:induction false} DispatchMoved(src: Source, s: State)
    requires s.off < |src.buf|
    ensures var d := DispatchToken(src, s); if d.Again? then Moved(src, s, d.st) else ReadMoved(src, s, d.read)
  {
    hide ReadArrayStart, ReadInlineStart, ReadArrayEnd, ReadInlineEnd, ReadScalar, ReadKey, ScanComment,
        AdvancePosition;
    var c := src.buf[s.off];
    if c == '[' || c == '{' || c == ']' || c == '}' {
      ReadBracketsMoved(src, s);
    } else if c != '#' && c != '=' && c != ',' {
      if s.expectingValue { ReadScalarMoved(src, s); } else { ReadKeyMoved(src, s); }
    }
  }

  lemma {:induction false} IterateMoved(src: Source, s: State)
    requires s.off < |src.buf|
    ensures var d := Iterate(src, s); if d.Again? then Moved(src, s, d.st) else ReadMoved(src, s, d.read)
  {
    hide ReadHeader, DispatchToken, AdvancePosition;
    if !s.needLineEnd {
      if s.atLineStart && !s.expectingValue && src.buf[s.off] == '[' {
        ReadHeaderMoved(src, s, s.off + 1 < |src.buf| && src.buf[s.off + 1] == '[');
      } else {
        DispatchMoved(src, s);
      }
    }
  }

  predicate TokenPos(src: Source, tok: Token) {
    tok.start <= |src.buf| && (tok.line, tok.col) == LineCol(src.buf[..tok.start])
  }

  /** Every call leaves the cached line and column equal to `lineColForOffset` from scratch. */
  lemma {:induction false} LoopPos(src: Source, s: State)
    requires PosInv(src, s)
    ensures PosInv(src, Loop(src, s).st)
    ensures Loop(src, s).out.Got? ==> TokenPos(src, Loop(src, s).out.token)
    decreases |src.buf| - s.off
  {
    var t := SkipSpaces(src, s);
    SkipSpacesPos(src, s);
    if t.off < |src.buf| {
      IterateMoved(src, t);
      match Iterate(src, t) {
        case Done(r) => MovedPos(src, t, r.st);
        case Again(u) =>
          MovedPos(src, t, u);
          LoopPos(src, u);
      }
    }
  }

  // ---------------------------------------------------------------- calls that never return

  /** The condition a caller can check on the bytes ahead: a line end is due, and after blanks
      comes a CR that no LF follows. */
  predicate StuckAtCr(src: Source, s: State)
    requires InBounds(src, s)
  {
    !s.failed && s.needLineEnd && LoneCr(src.buf, BlankEnd(src.buf, s.off))
  }

  lemma IterateSpin(src: Source, s: State)
    requires s.off < |src.buf|
    ensures Iterate(src, s) == Done(Read(Spin, s)) <==> s.needLineEnd && IsNewline(src.buf[s.off])
    ensures Iterate(src, s).Done? && Iterate(src, s).read.out == Spin ==> s.needLineEnd
  {}

  lemma {:induction false} NoSpinWithoutLineEnd(src: Source, s: State)
    requires InBounds(src, s) && FlagInv(s) && !s.needLineEnd
    ensures Loop(src, s).out != Spin
    decreases |src.buf| - s.off
  {
    var t := SkipSpaces(src, s);
    SkipSpacesFlags(src, s);
    if t.off < |src.buf| {
      IterateSpin(src, t);
      IterateOk(src, t);
      match Iterate(src, t) {
        case Done(_) =>
        case Again(u) => NoSpinWithoutLineEnd(src, u);
      }
    }
  }

  /** `readToken` fails to return exactly when a line end is due at a lone CR. */
  lemma SpinExactly(src: Source, s: State)
    requires InBounds(src, s) && FlagInv(s)
    ensures ReadToken(src, s).out == Spin <==> StuckAtCr(src, s)
  {
    if !s.failed {
      if !s.needLineEnd {
        NoSpinWithoutLineEnd(src, s);
      } else {
        var t := SkipSpaces(src, s);
        SkipSpacesFlags(src, s);
        SkipSpacesStop(src, s);
        SkipSpacesLineEnd(src, s);
        if t.off < |src.buf| {
          IterateSpin(src, t);
          if t.needLineEnd {
            assert t.off == BlankEnd(src.buf, s.off);
          } else {
            NotStuckAfterNewline(src, s);
            IterateOk(src, t);
            match Iterate(src, t) {
              case Done(_) =>
              case Again(u) => NoSpinWithoutLineEnd(src, u);
            }
          }
        } else if BlankEnd(src.buf, s.off) < |src.buf| {
          NotStuckAfterNewline(src, s);
        }
      }
    }
  }

  lemma {:induction false} NotStuckAfterNewline(src: Source, s: State)
    requires InBounds(src, s) && s.needLineEnd && !s.valueNoNewline
    ensures LoneCr(src.buf, BlankEnd(src.buf, s.off)) ==>
              SkipSpaces(src, s).off == BlankEnd(src.buf, s.off) && SkipSpaces(src, s).needLineEnd
    decreases |src.buf| - s.off
  {
    if s.off < |src.buf| {
      var n := BlankEnd(src.buf, s.off);
      if n > s.off {
        BlankEndFrom(src.buf, s.off, n);
        NotStuckAfterNewline(src, Advance(src, s, n).(atLineStart := s.atLineStart));
      }
    }
  }

  /** Input where every CR is part of a CRLF: every call returns. */
  lemma AlwaysReturns(src: Source, s: State)
    requires InBounds(src, s) && FlagInv(s) && NoLoneCr(src.buf)
    ensures ReadToken(src, s).out != Spin
  {
    SpinExactly(src, s);
  }

  // ---------------------------------------------------------------- sticky errors

  /** An error either is stored or left the state as it was. */
  predicate StoredOrUnmoved(s: State, r: Read) { r.out == Error ==> r.st.failed || r.st == s }

  lemma HeaderError(src: Source, s: State, isArray: bool)
    requires s.off + (if isArray then 2 else 1) <= |src.buf|
    ensures StoredOrUnmoved(s, ReadHeader(src, s, isArray))
  {
    hide HeaderEnd, HeaderKey, Advance;
  }

  lemma KeyError(src: Source, s: State)
    requires s.off < |src.buf|
    ensures StoredOrUnmoved(s, ReadKey(src, s))
  {}

  lemma ScalarError(src: Source, s: State)
    requires s.off < |src.buf|
    ensures StoredOrUnmoved(s, ReadScalar(src, s))
  {}

  lemma CommentError(src: Source, s: State)
    requires s.off < |src.buf|
    ensures StoredOrUnmoved(s, ReadComment(src, s))
  {}

  lemma DispatchError(src: Source, s: State)
    requires s.off < |src.buf|
    ensures var d := DispatchToken(src, s); d.Done? ==> StoredOrUnmoved(s, d.read)
  {
    var c := src.buf[s.off];
    if c == '[' || c == '{' || c == ']' || c == '}' || c == '=' || c == ',' {
    } else if c == '#' {
      CommentError(src, s);
    } else if s.expectingValue {
      ScalarError(src, s);
    } else {
      KeyError(src, s);
    }
  }

  lemma IterateError(src: Source, s: State)
    requires s.off < |src.buf|
    ensures var d := Iterate(src, s); d.Done? ==> StoredOrUnmoved(s, d.read)
  {
    if !s.needLineEnd {
      if s.atLineStart && !s.expectingValue && src.buf[s.off] == '[' {
        HeaderError(src, s, s.off + 1 < |src.buf| && src.buf[s.off + 1] == '[');
      } else {
        DispatchError(src, s);
      }
    }
  }

  lemma {:induction false} LoopError(src: Source, s: State)
    requires InBounds(src, s) && Loop(src, s).out == Error
    ensures InBounds(src, Loop(src, s).st) ==> ReadToken(src, Loop(src, s).st).out == Error
    decreases |src.buf| - s.off
  {
    var t := SkipSpaces(src, s);
    if t.off < |src.buf| {
      IterateError(src, t);
      SkipSpacesTwice(src, s);
      match Iterate(src, t) {
        case Done(_) =>
        case Again(u) => LoopError(src, u);
      }
    }
  }

  lemma ErrorRepeats(src: Source, s: State)
    requires InBounds(src, s) && FlagInv(s) && ReadToken(src, s).out == Error
    ensures InBounds(src, ReadToken(src, s).st) && FlagInv(ReadToken(src, s).st)
    ensures ReadToken(src, ReadToken(src, s).st).out == Error
  {
    if !s.failed {
      LoopOk(src, s);
      LoopError(src, s);
    }
  }

  /** The state after `k` calls. */
  function AfterCalls(src: Source, s: State, k: nat): (t: State)
    requires InBounds(src, s) && FlagInv(s)
    ensures InBounds(src, t) && FlagInv(t)
    decreases k
  {
    if k == 0 then s else
      LoopOk(src, s);
      AfterCalls(src, ReadToken(src, s).st, k - 1)
  }

  /** Fail-fast contract: after an error every later call fails, stored or not. */
  lemma {:induction false} ErrorsAreSticky(src: Source, s: State, k: nat)
    requires InBounds(src, s) && FlagInv(s) && ReadToken(src, s).out == Error
    ensures ReadToken(src, AfterCalls(src, s, k)).out == Error
    decreases k
  {
    hide ReadToken;
    if k > 0 {
      ErrorRepeats(src, s);
      ErrorsAreSticky(src, ReadToken(src, s).st, k - 1);
    }
  }

  // ---------------------------------------------------------------- whole runs

  const BOM: Bytes := "\U{ef}\U{bb}\U{bf}"

  /** A fresh decoder: `skipBOM` steps over a byte order mark like over any other bytes. */
  function Start(src: Source): (s: State)
    ensures InBounds(src, s) && FlagInv(s)
  {
    var s := State(0, 1, 1, false, false, false, false, false, true, 0, 0, []);
    if BOM <= src.buf then Advance(src, s, 3) else s
  }

  lemma StartPos(src: Source)
    ensures PosInv(src, Start(src))
  {
    var s := State(0, 1, 1, false, false, false, false, false, true, 0, 0, []);
    assert src.buf[..0] == [];
    if BOM <= src.buf { AdvancePos(src, s, 3); }
  }

  /** All tokens from `s` on, and how the stream ends. */
  function Stream(src: Source, s: State): (r: (seq<Token>, Outcome))
    requires InBounds(src, s) && FlagInv(s)
    decreases |src.buf| - s.off
  {
    var r := ReadToken(src, s);
    if !r.out.Got? then ([], r.out) else
      LoopOk(src, s);
      var rest := Stream(src, r.st);
      ([r.out.token] + rest.0, rest.1)
  }

  predicate TokenIn(src: Source, from: nat, tok: Token) {
    from <= tok.start < tok.end <= |src.buf|
  }

  predicate OrderedFrom(src: Source, from: nat, toks: seq<Token>) {
    && (forall i | 0 <= i < |toks| :: TokenIn(src, from, toks[i]))
    && (forall i, j | 0 <= i < j < |toks| :: toks[i].end <= toks[j].start)
  }

  lemma OrderedCons(src: Source, from: nat, tok: Token, mid: nat, rest: seq<Token>)
    requires TokenIn(src, from, tok) && tok.end <= mid && OrderedFrom(src, mid, rest)
    ensures OrderedFrom(src, from, [tok] + rest)
  {
    var toks := [tok] + rest;
    forall i | 0 <= i < |toks| ensures TokenIn(src, from, toks[i]) {
      if i > 0 { assert TokenIn(src, mid, rest[i - 1]); }
    }
    forall i, j | 0 <= i < j < |toks| ensures toks[i].end <= toks[j].start {
      assert TokenIn(src, mid, rest[j - 1]);
      if i > 0 { assert rest[i - 1].end <= rest[j - 1].start; }
    }
  }

  /** Every run yields ordered, disjoint, non-empty slices of the input. */
  lemma {:induction false} StreamOrdered(src: Source, s: State)
    requires InBounds(src, s) && FlagInv(s)
    ensures OrderedFrom(src, s.off, Stream(src, s).0)
    decreases |src.buf| - s.off
  {
    var r := ReadToken(src, s);
    if r.out.Got? {
      LoopOk(src, s);
      StreamOrdered(src, r.st);
      OrderedCons(src, s.off, r.out.token, r.st.off, Stream(src, r.st).0);
    }
  }

  /** Every reported line and column is the one recomputed from the start of the input. */
  lemma {:induction false} StreamPositions(src: Source, s: State)
    requires PosInv(src, s) && FlagInv(s)
    ensures forall i | 0 <= i < |Stream(src, s).0| :: TokenPos(src, Stream(src, s).0[i])
    decreases |src.buf| - s.off
  {
    var r := ReadToken(src, s);
    if r.out.Got? {
      LoopOk(src, s);
      LoopPos(src, s);
      StreamPositions(src, r.st);
    }
  }

  /** Without lone CRs every document's stream ends, in end of input or an error. */
  lemma {:induction false} StreamEnds(src: Source, s: State)
    requires InBounds(src, s) && FlagInv(s) && NoLoneCr(src.buf)
    ensures Stream(src, s).1 == Eof || Stream(src, s).1 == Error
    decreases |src.buf| - s.off
  {
    AlwaysReturns(src, s);
    var r := ReadToken(src, s);
    if r.out.Got? {
      LoopOk(src, s);
      StreamEnds(src, r.st);
    }
  }

  /** From a fresh decoder: every document's tokens are ordered, disjoint, non-empty slices with exact
      positions, and without lone CRs their stream ends. */
  lemma DocumentTokens(src: Source)
    ensures OrderedFrom(src, Start(src).off, Stream(src, Start(src)).0)
    ensures forall i | 0 <= i < |Stream(src, Start(src)).0| :: TokenPos(src, Stream(src, Start(src)).0[i])
    ensures NoLoneCr(src.buf) ==> Stream(src, Start(src)).1 == Eof || Stream(src, Start(src)).1 == Error
  {
    hide Stream;
    StartPos(src);
    StreamOrdered(src, Start(src));
    StreamPositions(src, Start(src));
    if NoLoneCr(src.buf) { StreamEnds(src, Start(src)); }
  }

  /** With one, it need not: after the header of this document the next call spins. */
  lemma LoneCrSpins(src: Source)
    requires src.buf == "[a]\r" && src.maxKeyLength > 0
    ensures ReadToken(src, Start(src)).out.Got?
    ensures ReadToken(src, ReadToken(src, Start(src)).st).out == Spin
  {
    var s := Start(src);
    var t := ReadToken(src, s).st;
    assert SkipSpaces(src, s) == s;
    assert HeaderEnd(src.buf, 1, false) == End(2) by {
      assert HeaderEnd(src.buf, 2, false) == End(2);
    }
    var h := src.buf[..2];
    assert BlankEnd(h, 1) == 1 && BareKeyEnd(h, 2) == 2 && BareKeyEnd(h, 1) == 2 && BlankEnd(h, 2) == 2;
    assert HeaderKey(src.buf, 2, 2, false) == End(2);
    assert HeaderKey(src.buf, 1, 2, true) == End(2);
    LoopOk(src, s);
    SpinExactly(src, t);
  }

  /** A byte order mark clears the line-start flag, so a header on the first line is read as the
      start of an array; the same bytes without the mark are read as a header. */
  lemma BomHidesHeader(src: Source, i: nat)
    requires i == BlankEnd(src.buf, Start(src).off) < |src.buf| && src.buf[i] == '['
    ensures BOM <= src.buf ==>
      ReadToken(src, Start(src)).out.Got? && ReadToken(src, Start(src)).out.token.kind == ArrayStart
    ensures !(BOM <= src.buf) && ReadToken(src, Start(src)).out.Got? ==>
              ReadToken(src, Start(src)).out.token.kind
              == if i + 1 < |src.buf| && src.buf[i + 1] == '[' then ArrayTableHeader else TableHeader
  {
    FirstByte(src, Start(src), i);
    SkipSpacesFlags(src, Start(src));
  }

  lemma FirstByte(src: Source, s: State, i: nat)
    requires InBounds(src, s) && i == BlankEnd(src.buf, s.off) < |src.buf| && src.buf[i] == '['
    ensures SkipSpaces(src, s).off == i && SkipSpaces(src, s).atLineStart == s.atLineStart
  {
    if i > s.off {
      BlankEndFrom(src.buf, s.off, i);
      var t := Advance(src, s, i).(atLineStart := s.atLineStart);
      assert SkipSpaces(src, t) == t;
    }
  }
}
