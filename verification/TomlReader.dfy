/** The `Decoder` object itself: fields updated in place by the methods of pkg/toml/decoder.go and
    the skip routines of pkg/toml/value.go. Each method is proved to move the fields exactly as the
    state machine of `TomlDecoder` and `TomlSkip` moves its snapshots. */
module TomlReader {
  import opened Text
  import opened TomlLexer
  import opened TomlDecoder
  import opened TomlDecoderRuns
  import opened TomlSkip
  import TomlString

  class Decoder {
    const src: Source
    var off: nat
    var line: int
    var col: int
    var failed: bool
    var expectingValue: bool
    var valueNoNewline: bool
    var needSeparator: bool
    var needLineEnd: bool
    var atLineStart: bool
    var arrayDepth: nat
    var inlineDepth: nat
    var stack: seq<Container>

    function Snapshot(): State
      reads this
    {
      State(off, line, col, failed, expectingValue, valueNoNewline, needSeparator, needLineEnd, atLineStart,
            arrayDepth, inlineDepth, stack)
    }

    /** What holds between calls. */
    predicate Valid()
      reads this
    {
      InBounds(src, Snapshot()) && FlagInv(Snapshot())
    }

    constructor (src: Source)
      ensures this.src == src && Snapshot() == Start(src) && Valid()
    {
      this.src := src;
      off, line, col := 0, 1, 1;
      failed, expectingValue, valueNoNewline, needSeparator, needLineEnd, atLineStart := false, false, false, false,
          false, true;
      arrayDepth, inlineDepth, stack := 0, 0, [];
      new;
      if BOM <= src.buf { AdvanceBytes(3); }
    }

    /** `advanceBytes`: position first, then offset and line-start flag. */
    method AdvanceBytes(to: nat)
      requires off < to <= |src.buf|
      modifies this
      ensures Snapshot() == Advance(src, old(Snapshot()), to)
    {
      var p := AdvancePosition(line, col, src.buf[off..to]);
      line, col := p.0, p.1;
      off := to;
      atLineStart := false;
    }

    /** One round of the loop of `skipSpaces`; false when it stops. */
    method CrossSpace() returns (moved: bool)
      requires off < |src.buf|
      modifies this
      ensures Snapshot() == SpaceRound(src, old(Snapshot())) && moved == (Snapshot() != old(Snapshot()))
    {
      hide AdvancePosition;
      var n := BlankEnd(src.buf, off);
      if n > off {
        var wasAtLineStart := atLineStart;
        AdvanceBytes(n);
        atLineStart := wasAtLineStart;
        return true;
      }
      if valueNoNewline || (!TomlString.IsCrLf(src.buf, off) && src.buf[off] != '\n') { return false; }
      AdvanceBytes(if TomlString.IsCrLf(src.buf, off) then off + 2 else off + 1);
      atLineStart, needLineEnd := true, false;
      return true;
    }

    method SkipSpaces()
      requires off <= |src.buf|
      modifies this
      ensures Snapshot() == TomlDecoder.SkipSpaces(src, old(Snapshot()))
    {
      hide TomlDecoder.SkipSpaces, AdvancePosition;
      ghost var goal := TomlDecoder.SkipSpaces(src, Snapshot());
      while off < |src.buf|
        invariant off <= |src.buf|
        invariant TomlDecoder.SkipSpaces(src, Snapshot()) == goal
        decreases |src.buf| - off
      {
        SkipSpacesRound(src, Snapshot());
        var moved := CrossSpace();
        if !moved { return; }
      }
      SkipSpacesRound(src, Snapshot());
    }

    method Fails(sticky: bool) returns (out: Outcome)
      modifies this
      ensures Read(out, Snapshot()) == Fail(old(Snapshot()), sticky)
    {
      if sticky { failed := true; }
      return Error;
    }

    method ReadComment() returns (out: Outcome)
      requires off < |src.buf|
      modifies this
      ensures Read(out, Snapshot()) == TomlDecoder.ReadComment(src, old(Snapshot()))
    {
      var end := ScanComment(src.buf, off);
      if end.Reject? { out := Fails(end.sticky); return; }
      out := MakeToken(Snapshot(), Comment, end.end);
      AdvanceBytes(end.end);
    }

    method ReadKey() returns (out: Outcome)
      requires off < |src.buf|
      modifies this
      ensures Read(out, Snapshot()) == TomlDecoder.ReadKey(src, old(Snapshot()))
    {
      var key := ScanKey(src, off);
      if key.BadKey? { out := Fails(key.sticky); return; }
      out := MakeToken(Snapshot(), Key, key.keyEnd);
      AdvanceBytes(key.next);
      expectingValue, valueNoNewline, needLineEnd := true, true, false;
    }

    /** The flag updates every complete value ends with. */
    method FinishValue()
      modifies this
      ensures Snapshot() == AfterValue(old(Snapshot()))
    {
      expectingValue := stack != [] && stack[|stack| - 1] == ArrayContainer;
      valueNoNewline := false;
      needSeparator := |stack| > 0;
      needLineEnd := |stack| == 0;
    }

    method ReadScalar() returns (out: Outcome)
      requires off < |src.buf|
      modifies this
      ensures Read(out, Snapshot()) == TomlDecoder.ReadScalar(src, old(Snapshot()))
    {
      var end := ScalarEnd(src, off);
      if end.Reject? { out := Fails(end.sticky); return; }
      out := MakeToken(Snapshot(), Value, end.end);
      AdvanceBytes(end.end);
      FinishValue();
    }

    method ReadArrayStart() returns (out: Outcome)
      requires off < |src.buf|
      modifies this
      ensures Read(out, Snapshot()) == TomlDecoder.ReadArrayStart(src, old(Snapshot()))
    {
      hide AdvancePosition, MakeToken;
      out := MakeToken(Snapshot(), ArrayStart, off + 1);
      AdvanceBytes(off + 1);
      arrayDepth := arrayDepth + 1;
      if TooDeep(src, arrayDepth) { failed := true; }
      stack := stack + [ArrayContainer];
      expectingValue, valueNoNewline, needSeparator := true, false, false;
    }

    method ReadInlineStart() returns (out: Outcome)
      requires off < |src.buf|
      modifies this
      ensures Read(out, Snapshot()) == TomlDecoder.ReadInlineStart(src, old(Snapshot()))
    {
      hide AdvancePosition, MakeToken;
      out := MakeToken(Snapshot(), InlineStart, off + 1);
      AdvanceBytes(off + 1);
      inlineDepth := inlineDepth + 1;
      stack := stack + [InlineContainer];
      expectingValue, valueNoNewline, needSeparator := false, false, false;
    }

    method ReadArrayEnd() returns (out: Outcome)
      requires off < |src.buf|
      modifies this
      ensures Read(out, Snapshot()) == TomlDecoder.ReadArrayEnd(src, old(Snapshot()))
    {
      hide AdvancePosition, MakeToken, Popped, AfterValue;
      out := MakeToken(Snapshot(), ArrayEnd, off + 1);
      AdvanceBytes(off + 1);
      PopArray();
      FinishValue();
    }

    method PopArray()
      modifies this`arrayDepth, this`stack
      ensures var s := old(Snapshot());
        Snapshot() == s.(arrayDepth := if s.arrayDepth > 0 then s.arrayDepth - 1 else 0,
                         stack := Popped(s.stack, ArrayContainer))
    {
      hide Popped;
      if arrayDepth > 0 { arrayDepth := arrayDepth - 1; }
      stack := Popped(stack, ArrayContainer);
    }

    method ReadInlineEnd() returns (out: Outcome)
      requires off < |src.buf|
      modifies this
      ensures Read(out, Snapshot()) == TomlDecoder.ReadInlineEnd(src, old(Snapshot()))
    {
      hide AdvancePosition, MakeToken, Popped, AfterValue;
      out := MakeToken(Snapshot(), InlineEnd, off + 1);
      AdvanceBytes(off + 1);
      PopInline();
      FinishValue();
    }

    method PopInline()
      modifies this`inlineDepth, this`stack
      ensures var s := old(Snapshot());
        Snapshot() == s.(inlineDepth := if s.inlineDepth > 0 then s.inlineDepth - 1 else 0,
                         stack := Popped(s.stack, InlineContainer))
    {
      hide Popped;
      if inlineDepth > 0 { inlineDepth := inlineDepth - 1; }
      stack := Popped(stack, InlineContainer);
    }

    method ReadHeader(isArray: bool) returns (out: Outcome)
      requires off + (if isArray then 2 else 1) <= |src.buf|
      modifies this
      ensures Read(out, Snapshot()) == TomlDecoder.ReadHeader(src, old(Snapshot()), isArray)
    {
      hide HeaderEnd, HeaderKey, AdvancePosition, MakeToken;
      var start, w := off, if isArray then 2 else 1;
      var end := HeaderEnd(src.buf, start + w, isArray);
      if end.Reject? { out := Fails(end.sticky); return; }
      var key := HeaderKey(src.buf, start + w, end.end, true);
      if key.Reject? { out := Fails(key.sticky); return; }
      out := MakeToken(Snapshot(), if isArray then ArrayTableHeader else TableHeader, end.end + w);
      AdvanceBytes(end.end + w);
      if end.end - (start + w) > src.maxKeyLength { out := Fails(true); return; }
      expectingValue, atLineStart, needLineEnd := false, false, true;
    }

    /** The dispatch switch; `again` sends the caller round its loop. */
    method DispatchByte() returns (out: Outcome, again: bool)
      requires off < |src.buf|
      modifies this
      ensures DispatchToken(src, old(Snapshot())) == if again then Again(Snapshot()) else Done(Read(out, Snapshot()))
    {
      hide TomlDecoder.ReadArrayStart, TomlDecoder.ReadInlineStart, TomlDecoder.ReadArrayEnd,
        TomlDecoder.ReadInlineEnd, TomlDecoder.ReadScalar, TomlDecoder.ReadKey, TomlDecoder.ReadComment,
            AdvancePosition;
      again := false;
      out := Error;
      var arrayWithoutComma := InnermostIsArray(Snapshot()) && !expectingValue;
      match src.buf[off] {
        case '[' => if arrayWithoutComma { out := Fails(true); } else { out := ReadArrayStart(); }
        case '{' => if arrayWithoutComma { out := Fails(true); } else { out := ReadInlineStart(); }
        case ']' => out := ReadArrayEnd();
        case '}' => out := ReadInlineEnd();
        case '#' => out := ReadComment();
        case '=' => out := Fails(true);
        case ',' =>
          if !needSeparator {
            out := Fails(true);
          } else {
            AdvanceBytes(off + 1);
            needSeparator := false;
            expectingValue := InnermostIsArray(Snapshot());
            again := true;
          }
        case _ =>
          if expectingValue {
            if needSeparator && InnermostIsArray(Snapshot()) { out := Fails(true); } else { out := ReadScalar(); }
          } else {
            if needSeparator && |stack| > 0 { out := Fails(true); } else { out := ReadKey(); }
          }
      }
    }

    /** `readToken`. Where the source's loop would repeat without progress, `Spin` is reported. */
    method ReadToken() returns (out: Outcome)
      requires Valid()
      modifies this
      ensures Read(out, Snapshot()) == TomlDecoder.ReadToken(src, old(Snapshot()))
      ensures Valid()
    {
      if failed { return Error; }
      ghost var goal := Loop(src, Snapshot());
      LoopOk(src, Snapshot());
      while true
        invariant off <= |src.buf| && Loop(src, Snapshot()) == goal
        decreases |src.buf| - off
      {
        SkipSpaces();
        if off >= |src.buf| {
          if expectingValue { out := Fails(true); return; }
          return Eof;
        }
        if needLineEnd {
          if src.buf[off] == '#' { out := ReadComment(); return; }
          if IsNewline(src.buf[off]) { return Spin; }
          out := Fails(true);
          return;
        }
        if atLineStart && !expectingValue && src.buf[off] == '[' {
          out := ReadHeader(off + 1 < |src.buf| && src.buf[off + 1] == '[');
          return;
        }
        var again;
        out, again := DispatchByte();
        if !again { return; }
      }
    }

    /** The token loop of `skipRawValueToken` after an opening bracket. */
    method SkipTokens() returns (ok: bool)
      requires Valid()
      modifies this
      ensures ok <==> SlowSkip(src, old(Snapshot()), 1).Some?
      ensures ok ==> Snapshot() == SlowSkip(src, old(Snapshot()), 1).value
    {
      var depth := 1;
      ghost var goal := SlowSkip(src, Snapshot(), 1);
      while depth > 0
        invariant Valid() && depth >= 0
        invariant SlowSkip(src, Snapshot(), depth) == goal
        decreases depth > 0, |src.buf| - off
      {
        LoopOk(src, Snapshot());
        var out := ReadToken();
        if !out.Got? { return false; }
        depth := DepthAfter(depth, out.token.kind);
      }
      return true;
    }

    /** `scanSkippedStructuralValue`: the frame-stack loop. It reads the input only. */
    method ScanStructural(start: Fast) returns (r: Scan)
      requires start.i <= |src.buf|
      ensures r == FastRun(src, start)
    {
      var f := start;
      while |f.frames| > 0
        invariant f.i <= |src.buf| && FastRun(src, f) == FastRun(src, start)
        decreases |src.buf| - f.i
      {
        var space := FrameSpace(src.buf, f);
        if space.Reject? { return space; }
        f := f.(i := space.end);
        if f.i >= |src.buf| { return Reject(true); }
        var step := FastDispatch(src, f);
        if step.Bad? { return Reject(step.sticky); }
        f := step.f;
      }
      return End(f.i);
    }

    /** `skipStructuralValueFast`: `None` when the value is not structural. On success the decoder is
        exactly where skipping the value token by token would have left it. */
    method SkipStructuralValue() returns (done: Option<bool>)
      requires Valid() && PosInv(src, Snapshot()) && expectingValue
      modifies this
      ensures match SkipFast(src, old(Snapshot()))
              case NotStructural(st) => done == None && Snapshot() == st
              case Failed(_) => done == Some(false)
              case Skipped(st) => done == Some(true) && Snapshot() == st
      ensures done == Some(true) ==> SlowSkipNext(src, old(Snapshot())) == Some(Snapshot())
    {
      ghost var before := Snapshot();
      if SkipFast(src, before).Skipped? { FastSkipIsTokenSkip(src, before); }
      SkipSpaces();
      if failed { return Some(false); }
      if off >= |src.buf| || (src.buf[off] != '[' && src.buf[off] != '{') { return None; }
      var first := SkippedValue(src, Fast(off, [], arrayDepth, inlineDepth));
      if first.Bad? { failed := first.sticky; return Some(false); }
      var end := ScanStructural(first.f);
      if end.Reject? { failed := end.sticky; return Some(false); }
      AdvanceBytes(end.end);
      FinishValue();
      return Some(true);
    }
  }
}
