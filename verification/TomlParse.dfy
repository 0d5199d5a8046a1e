/** `ParseDocument` of pkg/toml/document.go: the entries of a document, collected from its token
    stream, and exactly when every set of edits to them can be written in full. */
module TomlParse {
  import opened Text
  import opened TomlLexer
  import opened TomlDecoder
  import opened TomlDecoderRuns
  import TomlDocument
  import TomlEditor
  import TomlEdits
  import TomlKey
  import TomlReader
  import TomlSkip
  import TomlSkipExact
  import TomlString
  import TomlTables

  // ---------------------------------------------------------------- path keys

  /** The segments as `parseDottedPathKey` joins them: no separator before anything is written. */
  function JoinParts(parts: seq<Bytes>): Bytes {
    if parts == [] then "" else
      var b := JoinParts(parts[..|parts| - 1]);
      (if b != "" then b + "\0" else "") + parts[|parts| - 1]
  }

  /** `parseDottedPathKey`. */
  function PathKey(raw: Bytes): Option<Bytes> {
    var parts :- TomlKey.ParseSegments(TomlKey.TrimSpace(raw));
    if JoinParts(parts) == "" then None else Some(JoinParts(parts))
  }

  function JoinPathKeys(parent: Bytes, child: Bytes): Bytes {
    if parent == "" then child else if child == "" then parent else parent + "\0" + child
  }

  lemma {:induction false} EncodeLast(parts: seq<Bytes>, x: Bytes)
    requires parts != []
    ensures TomlTables.Encode(parts + [x]) == TomlTables.Encode(parts) + "\0" + x
  {
    var all := parts + [x];
    if |parts| == 1 {
      assert all[1..] == [x];
    } else {
      assert all[1..] == parts[1..] + [x];
      EncodeLast(parts[1..], x);
      var a, b := parts[0] + "\0", TomlTables.Encode(parts[1..]);
      Regroup(a, b, "\0" + x);
      Regroup(b, "\0", x);
      Regroup(a + b, "\0", x);
    }
  }

  /** Leading empty segments lose their separators, and nothing else differs. */
  lemma {:induction false} JoinPartsExactly(parts: seq<Bytes>)
    requires parts != []
    ensures parts[0] != "" ==> JoinParts(parts) == TomlTables.Encode(parts) && JoinParts(parts) != ""
    ensures parts[0] == "" && |parts| > 1 ==> |JoinParts(parts)| < |TomlTables.Encode(parts)|
    ensures parts[0] == "" && |parts| == 1 ==> JoinParts(parts) == ""
  {
    var rest, last := parts[..|parts| - 1], parts[|parts| - 1];
    if rest == [] {
      assert JoinParts(rest) == "" && "" + last == last;
    } else {
      JoinPartsExactly(rest);
      EncodeLast(rest, last);
      assert parts == rest + [last];
      if |rest| == 1 && rest[0] == "" { assert JoinParts(parts) == "" + last; }
    }
  }

  /** The key an entry is filed under is the key `Get`, `Set` and `Delete` look for exactly when its
      first segment is not empty: `"".a` is filed under `a`. */
  lemma PathKeyExactly(raw: Bytes, parts: seq<Bytes>)
    requires TomlKey.ParseDottedKey(raw) == Some(parts)
    ensures PathKey(raw) == Some(TomlEditor.Key(parts)) <==> parts[0] != ""
  {
    hide TomlKey.ParseSegments, TomlKey.TrimSpace, JoinParts;
    JoinPartsExactly(parts);
  }

  // ---------------------------------------------------------------- values

  datatype ValueRead = ValueAt(span: TomlDocument.Span, st: State) | NoValue(out: Outcome)

  /** The loop over a container: both bracket counts must come back to zero. */
  function ReadContainer(src: Source, s: State, start: nat, end: nat, arrays: int, inlines: int): ValueRead
    requires InBounds(src, s) && FlagInv(s)
    decreases |src.buf| - s.off
  {
    if arrays <= 0 && inlines <= 0 then ValueAt(TomlDocument.Span(start, end), s) else
      var r := ReadToken(src, s);
      if !r.out.Got? then NoValue(r.out) else
        LoopOk(src, s);
        var k := r.out.token.kind;
        ReadContainer(src, r.st, start, r.out.token.end,
          arrays + (if k == ArrayStart then 1 else if k == ArrayEnd then -1 else 0),
          inlines + (if k == InlineStart then 1 else if k == InlineEnd then -1 else 0))
  }

  /** `readValue`: comments, then whatever token comes, with its container. */
  function ReadValue(src: Source, s: State): ValueRead
    requires InBounds(src, s) && FlagInv(s)
    decreases |src.buf| - s.off
  {
    var r := ReadToken(src, s);
    if !r.out.Got? then NoValue(r.out) else
      LoopOk(src, s);
      var t := r.out.token;
      match t.kind
      case Comment => ReadValue(src, r.st)
      case ArrayStart => ReadContainer(src, r.st, t.start, t.end, 1, 0)
      case InlineStart => ReadContainer(src, r.st, t.start, t.end, 0, 1)
      case _ => ValueAt(TomlDocument.Span(t.start, t.end), r.st)
  }

  // ---------------------------------------------------------------- documents

  /** An entry, where its key starts, and whether a container was open there. */
  datatype Item = Item(entry: TomlDocument.Entry, keyStart: nat, nested: bool)

  datatype Parsed = Items(items: seq<Item>) | Rejected | Hangs

  function Stopped(out: Outcome): Parsed { if out == Spin then Hangs else Rejected }

  function Prepend(items: seq<Item>, p: Parsed): Parsed {
    if p.Items? then Items(items + p.items) else p
  }

  function ItemAt(src: Source, tok: Token, key: Bytes, span: TomlDocument.Span, st: State): Item
    requires tok.start <= |src.buf| && span.end <= |src.buf|
  {
    var line := TomlDocument.Span(TomlDocument.LineBegin(src.buf, tok.start), TomlDocument.LineEnd(src.buf, span.end));
    Item(TomlDocument.Entry(key, span, line), tok.start, st.stack != [])
  }

  lemma {:induction false} ContainerOk(src: Source, s: State, start: nat, end: nat, arrays: int, inlines: int)
    requires InBounds(src, s) && FlagInv(s) && start < end <= s.off
    ensures var v := ReadContainer(src, s, start, end, arrays, inlines);
      v.ValueAt? ==> v.span.start == start < v.span.end <= v.st.off <= |src.buf| && FlagInv(v.st) && s.off <= v.st.off
    decreases |src.buf| - s.off
  {
    hide Loop, ReadToken;
    if arrays > 0 || inlines > 0 {
      var r := ReadToken(src, s);
      if r.out.Got? {
        ReadOkAt(src, s);
        var k := r.out.token.kind;
        ContainerOk(src, r.st, start, r.out.token.end,
          arrays + (if k == ArrayStart then 1 else if k == ArrayEnd then -1 else 0),
          inlines + (if k == InlineStart then 1 else if k == InlineEnd then -1 else 0));
      }
    }
  }

  lemma ReadOkAt(src: Source, s: State)
    requires InBounds(src, s) && FlagInv(s)
    ensures ReadOk(src, s, ReadToken(src, s))
  {
    LoopOk(src, s);
  }

  lemma {:induction false} ValueOk(src: Source, s: State)
    requires InBounds(src, s) && FlagInv(s)
    ensures var v := ReadValue(src, s);
      v.ValueAt? ==> s.off <= v.span.start < v.span.end <= v.st.off <= |src.buf| && FlagInv(v.st)
    decreases |src.buf| - s.off
  {
    hide Loop, ReadToken;
    var r := ReadToken(src, s);
    if r.out.Got? {
      ReadOkAt(src, s);
      var t := r.out.token;
      match t.kind {
        case Comment => ValueOk(src, r.st);
        case ArrayStart => ContainerOk(src, r.st, t.start, t.end, 1, 0);
        case InlineStart => ContainerOk(src, r.st, t.start, t.end, 0, 1);
        case _ =>
      }
    }
  }

  /** The loop of `ParseDocument` from state `s` with the current table's key. */
  function Parse(src: Source, s: State, current: Bytes): Parsed
    requires InBounds(src, s) && FlagInv(s)
    decreases |src.buf| - s.off, 0
  {
    var r := ReadToken(src, s);
    match r.out
    case Eof => Items([])
    case Error => Rejected
    case Spin => Hangs
    case Got(tok) =>
      LoopOk(src, s);
      var raw := src.buf[tok.start..tok.end];
      match tok.kind
      case Comment => Parse(src, r.st, current)
      case TableHeader => ParseTable(src, r.st, PathKey(TomlKey.TrimHeaderKey(raw, false)))
      case ArrayTableHeader => ParseTable(src, r.st, PathKey(TomlKey.TrimHeaderKey(raw, true)))
      case Key =>
        (match PathKey(raw)
         case None => Rejected
         case Some(key) =>
           ValueOk(src, r.st);
           match ReadValue(src, r.st)
           case NoValue(out) => Stopped(out)
           case ValueAt(span, st) =>
             Prepend([ItemAt(src, tok, JoinPathKeys(current, key), span, r.st)], Parse(src, st, current)))
      case _ => if current == "" then Rejected else Parse(src, r.st, current)
  }

  function ParseTable(src: Source, s: State, key: Option<Bytes>): Parsed
    requires InBounds(src, s) && FlagInv(s)
    decreases |src.buf| - s.off, 1
  {
    if key.None? then Rejected else Parse(src, s, key.value)
  }

  // ---------------------------------------------------------------- what a token leaves behind

  predicate Closer(k: Kind) { k == Value || k == ArrayEnd || k == InlineEnd }

  predicate OneLine(b: Bytes, from: nat, to: nat) { forall q | from <= q < to && q < |b| :: !IsNewline(b[q]) }

  /** A token that completes a value leaves a line end due if it left no container open, a key changes
      no container and stands on one line with its equals sign, and only such a token empties the
      container stack. */
  predicate Shape(src: Source, s: State, r: Read) {
    r.out.Got? ==>
      var tok := r.out.token;
      && (Closer(tok.kind) ==> r.st.needLineEnd == (r.st.stack == []) && r.st.off == tok.end)
      && (s.stack != [] && r.st.stack == [] ==> r.st.needLineEnd)
      && (tok.kind == Key ==>
            && r.st.stack == s.stack && r.st.valueNoNewline
            && tok.start < r.st.off <= |src.buf| && OneLine(src.buf, tok.start, r.st.off))
  }

  lemma {:induction false} HexDigits(raw: Bytes, k: nat)
    requires TomlString.HexNumber(raw).Some? && k < |raw|
    ensures !IsNewline(raw[k])
    decreases |raw|
  {
    if k < |raw| - 1 { HexDigits(raw[..|raw| - 1], k); }
  }

  lemma UnicodeOneLine(raw: Bytes, start: nat, digits: nat)
    requires TomlString.UnicodeEscape(raw, start, digits).Some?
    ensures OneLine(raw, start, start + digits)
  {
    var hex := raw[start..start + digits];
    forall q | start <= q < start + digits ensures !IsNewline(raw[q]) {
      HexDigits(hex, q - start);
      assert hex[q - start] == raw[q];
    }
  }

  lemma EscapeOneLine(raw: Bytes, i: nat)
    requires i < |raw| && raw[i] == '\\' && TomlString.Escape(raw, i).Some?
    ensures OneLine(raw, i, i + TomlString.Escape(raw, i).value.1)
  {
    hide TomlString.UnicodeEscape;
    match raw[i + 1] {
      case 'x' => UnicodeOneLine(raw, i + 2, 2);
      case 'u' => UnicodeOneLine(raw, i + 2, 4);
      case 'U' => UnicodeOneLine(raw, i + 2, 8);
      case _ =>
    }
  }

  lemma {:induction false} DecodedOneLine(raw: Bytes, i: nat)
    requires i <= |raw| && TomlString.DecodeBody(raw, i, false).Some?
    ensures OneLine(raw, i, |raw|)
    decreases |raw| - i
  {
    hide TomlString.Escape, TomlString.UnicodeEscape, TomlString.LineContinuation;
    if i < |raw| {
      var next := TomlString.BodyStep(raw, i, false).value.1;
      if raw[i] == '\\' { EscapeOneLine(raw, i); }
      DecodedOneLine(raw, next);
    }
  }

  lemma {:induction false} LiteralOneLine(raw: Bytes, i: nat)
    requires i <= |raw| && TomlString.ControlFree(raw, i, false)
    ensures OneLine(raw, i, |raw|)
    decreases |raw| - i
  {
    if i < |raw| { LiteralOneLine(raw, i + 1); }
  }

  lemma ValidOneLine(raw: Bytes)
    requires TomlString.ValidString(raw)
    requires !TomlString.HasTripleDelimiter(raw, '\'') && !TomlString.HasTripleDelimiter(raw, '"')
    ensures OneLine(raw, 0, |raw|)
  {
    hide TomlString.DecodeBody, TomlString.ControlFree, TomlString.HasTripleDelimiter;
    var body := raw[1..|raw| - 1];
    if TomlString.HasPairDelimiter(raw, '\'') { LiteralOneLine(body, 0); } else { DecodedOneLine(body, 0); }
    forall q | 0 < q < |raw| - 1 ensures !IsNewline(raw[q]) { assert body[q - 1] == raw[q]; }
  }

  lemma NotTriple(b: Bytes, off: nat, e: nat, q: char)
    requires off < e <= |b| && !(off + 2 < |b| && b[off + 1] == b[off] && b[off + 2] == b[off])
    ensures !TomlString.HasTripleDelimiter(b[off..e], q)
  {
    var raw := b[off..e];
    if |raw| >= 6 {
      assert raw[..3][0] == b[off] && raw[..3][1] == b[off + 1] && raw[..3][2] == b[off + 2];
    }
  }

  /** A quoted key has no newline, escaped or not. */
  lemma QuotedOneLine(b: Bytes, off: nat)
    requires off < |b| && IsQuote(b[off]) && ScanQuoted(b, off).End?
    ensures OneLine(b, off, ScanQuoted(b, off).end)
  {
    hide QuotedBodyEnd, TomlString.ValidString, TomlString.HasTripleDelimiter;
    var e := ScanQuoted(b, off).end;
    NotTriple(b, off, e, '\'');
    NotTriple(b, off, e, '"');
    ValidOneLine(b[off..e]);
    forall q | off <= q < e ensures !IsNewline(b[q]) { assert b[off..e][q - off] == b[q]; }
  }

  lemma {:induction false} KeyOneLine(b: Bytes, i: nat)
    requires i <= |b| && KeyEnd(b, i).End?
    ensures OneLine(b, i, KeyEnd(b, i).end)
    decreases |b| - i
  {
    hide ScanQuoted;
    if i < |b| && b[i] != '=' && b[i] != '#' && !IsNewline(b[i]) {
      if IsQuote(b[i]) {
        QuotedOneLine(b, i);
        KeyOneLine(b, ScanQuoted(b, i).end);
      } else {
        KeyOneLine(b, i + 1);
      }
    }
  }

  lemma KeyShape(src: Source, s: State)
    requires s.off < |src.buf|
    ensures Shape(src, s, ReadKey(src, s))
  {
    hide AdvancePosition, TrimRightBlanks, ValidKey, KeyEnd;
    if ScanKey(src, s.off).KeyAt? { KeyOneLine(src.buf, s.off); }
  }

  lemma ScalarShape(src: Source, s: State)
    requires s.off < |src.buf|
    ensures Shape(src, s, ReadScalar(src, s))
  {
    hide AdvancePosition, ScalarEnd;
  }

  lemma BracketShape(src: Source, s: State)
    requires s.off < |src.buf|
    ensures Shape(src, s, ReadArrayStart(src, s)) && Shape(src, s, ReadInlineStart(src, s))
    ensures Shape(src, s, ReadArrayEnd(src, s)) && Shape(src, s, ReadInlineEnd(src, s))
  {
    hide AdvancePosition;
  }

  lemma CommentShape(src: Source, s: State)
    requires s.off < |src.buf|
    ensures Shape(src, s, ReadComment(src, s))
  {
    hide AdvancePosition, ScanComment;
  }

  lemma HeaderShape(src: Source, s: State, isArray: bool)
    requires s.off + (if isArray then 2 else 1) <= |src.buf|
    ensures Shape(src, s, ReadHeader(src, s, isArray))
  {
    hide AdvancePosition, HeaderEnd, HeaderKey;
  }

  lemma {:induction false} DispatchShape(src: Source, s: State)
    requires s.off < |src.buf|
    ensures var d := DispatchToken(src, s); if d.Done? then Shape(src, s, d.read) else d.st.stack == s.stack
  {
    hide AdvancePosition, ReadArrayStart, ReadInlineStart, ReadArrayEnd, ReadInlineEnd, ReadScalar, ReadKey,
        ReadComment;
    BracketShape(src, s);
    CommentShape(src, s);
    ScalarShape(src, s);
    KeyShape(src, s);
  }

  lemma IterateShape(src: Source, s: State)
    requires s.off < |src.buf|
    ensures var d := Iterate(src, s); if d.Done? then Shape(src, s, d.read) else d.st.stack == s.stack
  {
    hide AdvancePosition, ReadHeader, ReadComment, DispatchToken;
    if s.needLineEnd {
      CommentShape(src, s);
    } else if s.atLineStart && !s.expectingValue && src.buf[s.off] == '[' {
      HeaderShape(src, s, s.off + 1 < |src.buf| && src.buf[s.off + 1] == '[');
    } else {
      DispatchShape(src, s);
    }
  }

  lemma {:induction false} LoopShape(src: Source, s: State)
    requires InBounds(src, s)
    ensures Shape(src, s, ReadToken(src, s))
    decreases |src.buf| - s.off
  {
    hide AdvancePosition, SkipSpaces, Iterate;
    if !s.failed {
      var t := SkipSpaces(src, s);
      SkipSpacesFlags(src, s);
      if t.off < |src.buf| {
        IterateShape(src, t);
        match Iterate(src, t) {
          case Done(_) =>
          case Again(u) => AgainShape(src, s, u);
        }
      }
    }
  }

  lemma {:induction false} AgainShape(src: Source, s: State, u: State)
    requires InBounds(src, u) && u.stack == s.stack
    ensures Shape(src, s, Loop(src, u))
    decreases |src.buf| - u.off
  {
    hide AdvancePosition, SkipSpaces, Iterate;
    var t := SkipSpaces(src, u);
    SkipSpacesFlags(src, u);
    if t.off < |src.buf| {
      IterateShape(src, t);
      match Iterate(src, t) {
        case Done(_) =>
        case Again(w) => AgainShape(src, s, w);
      }
    }
  }

  // ---------------------------------------------------------------- line breaks between entries

  /** Outside containers, a line end is due since position `v`, or an LF was passed. */
  predicate Due(src: Source, v: nat, s: State) {
    v <= s.off && (s.stack == [] ==> s.needLineEnd || HasLf(src.buf, v, s.off))
  }

  lemma MoreLf(b: Bytes, from: nat, lo: nat, hi: nat, to: nat)
    requires from <= lo <= hi <= to && HasLf(b, lo, hi)
    ensures HasLf(b, from, to)
  {
    var q: nat :| lo <= q < hi && q < |b| && b[q] == '\n';
  }

  lemma TokenDue(src: Source, v: nat, s: State)
    requires InBounds(src, s) && FlagInv(s) && Due(src, v, s) && ReadToken(src, s).out.Got?
    ensures Due(src, v, ReadToken(src, s).st)
    ensures var r := ReadToken(src, s);
      r.out.token.kind == Key ==>
        v <= r.out.token.start && (r.st.stack == [] ==> HasLf(src.buf, v, r.out.token.start))
  {
    hide Loop, HasLf;
    var r := ReadToken(src, s);
    ReadOkAt(src, s);
    LoopShape(src, s);
    if s.stack == [] {
      if s.needLineEnd {
        LineEndBeforeToken(src, s);
        if HasLf(src.buf, s.off, r.out.token.start) {
          MoreLf(src.buf, v, s.off, r.out.token.start, r.out.token.start);
          MoreLf(src.buf, v, s.off, r.out.token.start, r.st.off);
        }
      } else {
        MoreLf(src.buf, v, v, s.off, r.out.token.start);
        MoreLf(src.buf, v, v, s.off, r.st.off);
      }
    }
  }

  lemma {:induction false} ContainerDue(src: Source, s: State, start: nat, end: nat, arrays: int, inlines: int)
    requires InBounds(src, s) && FlagInv(s) && (arrays > 0 || inlines > 0)
    ensures var v := ReadContainer(src, s, start, end, arrays, inlines); v.ValueAt? ==> Due(src, v.span.end, v.st)
    decreases |src.buf| - s.off
  {
    hide Loop, ReadToken;
    var r := ReadToken(src, s);
    if r.out.Got? {
      ReadOkAt(src, s);
      LoopShape(src, s);
      var k := r.out.token.kind;
      var a := arrays + (if k == ArrayStart then 1 else if k == ArrayEnd then -1 else 0);
      var i := inlines + (if k == InlineStart then 1 else if k == InlineEnd then -1 else 0);
      if a > 0 || i > 0 { ContainerDue(src, r.st, start, r.out.token.end, a, i); }
    }
  }

  /** Right behind a key there is a comment, or a token that starts or is a value. */
  lemma {:induction false} ValueKinds(src: Source, s: State)
    requires InBounds(src, s) && FlagInv(s) && s.valueNoNewline && ReadToken(src, s).out.Got?
    ensures var r := ReadToken(src, s);
      && r.out.token.kind !in {Key, TableHeader, ArrayTableHeader}
      && (r.out.token.kind == Comment ==> r.st.valueNoNewline)
  {
    hide AdvancePosition, SkipSpaces, ScalarEnd, ScanComment;
    SkipSpacesFlags(src, s);
  }

  lemma {:induction false} ValueDue(src: Source, s: State)
    requires InBounds(src, s) && FlagInv(s) && s.valueNoNewline
    ensures var v := ReadValue(src, s); v.ValueAt? ==> Due(src, v.span.end, v.st)
    decreases |src.buf| - s.off
  {
    hide Loop, ReadToken;
    var r := ReadToken(src, s);
    if r.out.Got? {
      ReadOkAt(src, s);
      LoopShape(src, s);
      ValueKinds(src, s);
      var t := r.out.token;
      match t.kind {
        case Comment => ValueDue(src, r.st);
        case ArrayStart => ContainerDue(src, r.st, t.start, t.end, 1, 0);
        case InlineStart => ContainerDue(src, r.st, t.start, t.end, 0, 1);
        case _ =>
      }
    }
  }

  // ---------------------------------------------------------------- the entries of a document

  function Entries(items: seq<Item>): seq<TomlDocument.Entry> {
    seq(|items|, i requires 0 <= i < |items| => items[i].entry)
  }

  /** The spans of one entry: key before value, the value's start on the key's line, and the line around
      both. */
  predicate ItemOk(b: Bytes, x: Item) {
    && x.keyStart < x.entry.value.start < x.entry.value.end <= |b|
    && OneLine(b, x.keyStart, x.entry.value.start)
    && x.entry.line.start == TomlDocument.LineBegin(b, x.keyStart)
    && x.entry.line.end == TomlDocument.LineEnd(b, x.entry.value.end)
  }

  /** An entry behind position `v`: with no container open, on a later line. */
  predicate Behind(b: Bytes, v: nat, x: Item) {
    v <= x.keyStart && (!x.nested ==> HasLf(b, v, x.keyStart))
  }

  predicate ItemsOk(b: Bytes, items: seq<Item>) {
    && (forall i | 0 <= i < |items| :: ItemOk(b, items[i]))
    && (forall i | 0 < i < |items| :: Behind(b, items[i - 1].entry.value.end, items[i]))
  }

  lemma ItemsCons(b: Bytes, x: Item, items: seq<Item>)
    requires ItemOk(b, x) && ItemsOk(b, items) && (items != [] ==> Behind(b, x.entry.value.end, items[0]))
    ensures ItemsOk(b, [x] + items)
  {
    hide ItemOk, Behind;
    var all := [x] + items;
    forall i | 0 < i < |all| ensures Behind(b, all[i - 1].entry.value.end, all[i]) {
      if i > 1 { assert Behind(b, items[i - 2].entry.value.end, items[i - 1]); }
    }
  }

  lemma FirstStart(src: Source, s: State)
    requires InBounds(src, s) && FlagInv(s) && s.valueNoNewline && ReadToken(src, s).out.Got?
    ensures ReadToken(src, s).out.token.start == BlankEnd(src.buf, s.off)
  {
    hide AdvancePosition, SkipSpaces, DispatchToken, BlankEnd;
    var t := SkipSpaces(src, s);
    TomlSkip.BlanksOnly(src, s);
    SkipSpacesFlags(src, s);
    IterateMoved(src, t);
    NoSeparator(src, t);
  }

  lemma NoSeparator(src: Source, t: State)
    requires t.off < |src.buf| && FlagInv(t) && t.valueNoNewline
    ensures Iterate(src, t).Done?
  {
    hide AdvancePosition;
  }

  /** A comment right behind a key leaves no value on the line, and none is read. */
  lemma CommentNoValue(src: Source, s: State)
    requires InBounds(src, s) && FlagInv(s) && s.valueNoNewline
    requires s.off < |src.buf| ==> IsNewline(src.buf[s.off])
    ensures !ReadToken(src, s).out.Got?
  {
    hide AdvancePosition, ScanString;
    TomlSkip.BlanksOnly(src, s);
    SkipSpacesFlags(src, s);
    var t := SkipSpaces(src, s);
    if t.off < |src.buf| {
      assert ScanBareValue(src.buf, t.off) == t.off;
      assert ScalarEnd(src, t.off).Reject?;
    }
  }

  lemma CommentStops(src: Source, s: State)
    requires InBounds(src, s) && FlagInv(s) && s.valueNoNewline
    requires ReadToken(src, s).out.Got? && ReadToken(src, s).out.token.kind == Comment
    ensures var st := ReadToken(src, s).st; st.off < |src.buf| ==> IsNewline(src.buf[st.off])
  {
    hide AdvancePosition, SkipSpaces, ScalarEnd;
    SkipSpacesFlags(src, s);
  }

  /** Between a key's equals sign and its value stand only blanks. */
  lemma ValueFollows(src: Source, s: State)
    requires InBounds(src, s) && FlagInv(s) && s.valueNoNewline && ReadValue(src, s).ValueAt?
    ensures OneLine(src.buf, s.off, ReadValue(src, s).span.start)
  {
    hide ReadToken, Loop, BlankEnd;
    var r := ReadToken(src, s);
    ReadOkAt(src, s);
    FirstStart(src, s);
    ValueKinds(src, s);
    var t := r.out.token;
    match t.kind {
      case Comment =>
        CommentStops(src, s);
        CommentNoValue(src, r.st);
      case ArrayStart => ContainerOk(src, r.st, t.start, t.end, 1, 0);
      case InlineStart => ContainerOk(src, r.st, t.start, t.end, 0, 1);
      case _ =>
    }
  }

  /** The entry read at a key token. */
  lemma ItemRead(src: Source, s: State, key: Bytes)
    requires InBounds(src, s) && FlagInv(s) && ReadToken(src, s).out.Got? && ReadToken(src, s).out.token.kind == Key
    requires FlagInv(ReadToken(src, s).st) && InBounds(src, ReadToken(src, s).st)
    requires ReadValue(src, ReadToken(src, s).st).ValueAt?
    ensures var r := ReadToken(src, s);
      var v := ReadValue(src, r.st);
      && s.off <= r.out.token.start <= |src.buf| && v.span.end <= |src.buf| && InBounds(src, v.st) && FlagInv(v.st)
      && s.off < v.st.off && ItemOk(src.buf, ItemAt(src, r.out.token, key, v.span, r.st)) && Due(src, v.span.end, v.st)
  {
    hide Loop, ReadToken, ReadValue, HasLf, TomlDocument.LineBegin, TomlDocument.LineEnd;
    var r := ReadToken(src, s);
    ReadOkAt(src, s);
    LoopShape(src, s);
    ValueOk(src, r.st);
    ValueDue(src, r.st);
    ValueFollows(src, r.st);
  }

  /** Behind position `v`, where a line end is due outside containers. */
  lemma {:induction false} ParseItems(src: Source, s: State, current: Bytes, v: Option<nat>)
    requires InBounds(src, s) && FlagInv(s) && (v.Some? ==> Due(src, v.value, s))
    ensures var p := Parse(src, s, current);
      p.Items? ==> ItemsOk(src.buf, p.items) && (v.Some? && p.items != [] ==> Behind(src.buf, v.value, p.items[0]))
    decreases |src.buf| - s.off
  {
    hide Loop, ReadToken, ReadValue, ItemOk, Behind, Due, PathKey, JoinPathKeys, ItemAt, TomlKey.TrimHeaderKey;
    var r := ReadToken(src, s);
    if r.out.Got? {
      ReadOkAt(src, s);
      if v.Some? { TokenDue(src, v.value, s); }
      var tok := r.out.token;
      var raw := src.buf[tok.start..tok.end];
      match tok.kind {
        case TableHeader =>
          var k := PathKey(TomlKey.TrimHeaderKey(raw, false));
          if k.Some? { ParseItems(src, r.st, k.value, v); }
        case ArrayTableHeader =>
          var k := PathKey(TomlKey.TrimHeaderKey(raw, true));
          if k.Some? { ParseItems(src, r.st, k.value, v); }
        case Key => if PathKey(raw).Some? { ParseEntry(src, s, current, v); }
        case _ => ParseItems(src, r.st, current, v);
      }
    }
  }

  lemma {:induction false} ParseEntry(src: Source, s: State, current: Bytes, v: Option<nat>)
    requires InBounds(src, s) && FlagInv(s) && (v.Some? ==> Due(src, v.value, s))
    requires var r := ReadToken(src, s); r.out.Got? && r.out.token.kind == Key
    requires ReadOk(src, s, ReadToken(src, s))
    requires var tok := ReadToken(src, s).out.token; PathKey(src.buf[tok.start..tok.end]).Some?
    ensures var p := Parse(src, s, current);
      p.Items? ==> ItemsOk(src.buf, p.items) && (v.Some? && p.items != [] ==> Behind(src.buf, v.value, p.items[0]))
    decreases |src.buf| - s.off, 0
  {
    hide Loop, ReadToken, ReadValue, ItemOk, Due, PathKey, JoinPathKeys, HasLf;
    var r := ReadToken(src, s);
    if v.Some? { TokenDue(src, v.value, s); }
    var tok := r.out.token;
    var key := PathKey(src.buf[tok.start..tok.end]).value;
    var value := ReadValue(src, r.st);
    if value.ValueAt? {
      ItemRead(src, s, JoinPathKeys(current, key));
      ParseItems(src, value.st, current, Some(value.span.end));
      var rest := Parse(src, value.st, current);
      if rest.Items? {
        ItemsCons(src.buf, ItemAt(src, tok, JoinPathKeys(current, key), value.span, r.st), rest.items);
      }
    }
  }

  // ---------------------------------------------------------------- when lines are disjoint

  lemma {:induction false} ItemsOrdered(b: Bytes, items: seq<Item>, i: nat, j: nat)
    requires ItemsOk(b, items) && i < j < |items|
    ensures items[i].entry.value.end <= items[j].keyStart
    decreases j
  {
    assert Behind(b, items[j - 1].entry.value.end, items[j]) && ItemOk(b, items[j - 1]);
    if i < j - 1 { ItemsOrdered(b, items, i, j - 1); }
  }

  lemma ItemSpans(b: Bytes, items: seq<Item>)
    requires ItemsOk(b, items)
    ensures TomlEditor.SpansIn(b, Entries(items)) && TomlEditor.ValuesOrdered(Entries(items))
  {
    var es := Entries(items);
    forall i | 0 <= i < |es|
      ensures var e := es[i]; e.line.start <= e.value.start < e.value.end <= e.line.end <= |b|
    {
      assert ItemOk(b, items[i]);
    }
    forall i, j | 0 <= i < j < |es| ensures es[i].value.end <= es[j].value.start {
      ItemsOrdered(b, items, i, j);
      assert ItemOk(b, items[j]);
    }
  }

  /** Neighbours on different lines are enough. */
  lemma {:induction false} NeighboursDecide(entries: seq<TomlDocument.Entry>, i: nat, j: nat)
    requires i < j < |entries| && forall k | 0 <= k < |entries| :: entries[k].line.start <= entries[k].line.end
    requires forall k | 0 < k < |entries| :: entries[k - 1].line.end <= entries[k].line.start
    ensures entries[i].line.end <= entries[j].line.start
    decreases j
  {
    if i < j - 1 { NeighboursDecide(entries, i, j - 1); }
  }

  /** Where a container is open, the key stands on a later line than the entry before it. */
  predicate NestedKeysBreak(b: Bytes, items: seq<Item>) {
    forall i | 0 < i < |items| && items[i].nested ::
      TomlDocument.HasBreak(b, items[i - 1].entry.value.end, items[i].keyStart)
  }

  lemma NeighbourLines(b: Bytes, items: seq<Item>, i: nat)
    requires ItemsOk(b, items) && 0 < i < |items|
    ensures items[i - 1].entry.line.end <= items[i].entry.line.start
            <==> (items[i].nested ==> TomlDocument.HasBreak(b, items[i - 1].entry.value.end, items[i].keyStart))
  {
    hide TomlDocument.LineBegin, TomlDocument.LineEnd;
    var v, k := items[i - 1].entry.value.end, items[i].keyStart;
    assert ItemOk(b, items[i - 1]) && ItemOk(b, items[i]) && Behind(b, v, items[i]);
    TomlDocument.LineBreakExactly(b, v, k);
    if !items[i].nested {
      var q: nat :| v <= q < k && q < |b| && b[q] == '\n';
      assert IsNewline(b[q]);
    }
  }

  /** The entries of a parsed document have ordered values inside their lines, and no two of them share
      a line if and only if every key read inside an open container (which only stray brackets leave
      open) has a newline between it and the entry before it. Keys outside containers always have. */
  lemma DocumentLines(src: Source)
    requires Parse(src, Start(src), "").Items?
    ensures var items := Parse(src, Start(src), "").items;
      && TomlEditor.SpansIn(src.buf, Entries(items)) && TomlEditor.ValuesOrdered(Entries(items))
      && (TomlEditor.LinesDisjoint(Entries(items)) <==> NestedKeysBreak(src.buf, items))
  {
    hide Parse, ItemsOk, TomlDocument.HasBreak;
    var items := Parse(src, Start(src), "").items;
    ParseItems(src, Start(src), "", None);
    ItemSpans(src.buf, items);
    var es := Entries(items);
    forall i | 0 < i < |items|
      ensures es[i - 1].line.end <= es[i].line.start
              <==> (items[i].nested ==> TomlDocument.HasBreak(src.buf, items[i - 1].entry.value.end, items[i].keyStart))
    {
      NeighbourLines(src.buf, items, i);
    }
    if NestedKeysBreak(src.buf, items) {
      forall i, j | 0 <= i < j < |es| ensures es[i].line.end <= es[j].line.start { NeighboursDecide(es, i, j); }
    }
  }

  lemma ItemsInOrder(b: Bytes, items: seq<Item>, i: nat, j: nat)
    requires ItemsOk(b, items) && i < j < |items|
    ensures TomlEdits.InOrder(items[i].entry, items[j].entry)
  {
    hide TomlDocument.LineBegin, TomlDocument.LineEnd, Behind;
    var x, y := items[i], items[j];
    assert ItemOk(b, x) && ItemOk(b, y);
    ItemsOrdered(b, items, i, j);
    TomlDocument.LineBeginGrows(b, x.keyStart, y.keyStart);
    TomlDocument.LineEndGrows(b, x.entry.value.end, y.entry.value.end);
    if y.entry.line.start < x.entry.line.end {
      TomlDocument.LineBreakExactly(b, x.entry.value.end, y.keyStart);
      assert forall q | x.entry.value.end <= q < y.entry.value.start :: !IsNewline(b[q]);
      TomlDocument.LineEndBehind(b, x.entry.value.end, y.entry.value.start - 1);
      LineEndElsewhere(b, x, y);
    }
  }

  /** No line ends where a value starts. */
  lemma LineEndElsewhere(b: Bytes, x: Item, y: Item)
    requires ItemOk(b, x) && ItemOk(b, y)
    ensures x.entry.line.end != y.entry.value.start
  {
    hide TomlDocument.LineBegin, TomlDocument.LineEnd;
    TomlDocument.LineEndStops(b, x.entry.value.end);
    assert !IsNewline(b[y.entry.value.start - 1]);
  }

  lemma ItemsLayout(b: Bytes, items: seq<Item>)
    requires ItemsOk(b, items)
    ensures TomlEdits.Layout(b, Entries(items))
  {
    hide ItemOk, Behind, TomlEdits.InOrder;
    ItemSpans(b, items);
    var es := Entries(items);
    forall i, j | 0 <= i < j < |es| ensures TomlEdits.InOrder(es[i], es[j]) { ItemsInOrder(b, items, i, j); }
    forall i, j | 0 <= i < |es| && 0 <= j < |es| ensures es[i].line.end != es[j].value.start {
      LineEndElsewhere(b, items[i], items[j]);
    }
  }

  /** Every set of replacements and deletions of a parsed document comes out as the original text with
      exactly those edits if and only if entries of different paths never share a line and no skipped line
      of a path leaves a tail. No entries sharing a line at all is enough. */
  lemma DocumentEdits(src: Source)
    requires Parse(src, Start(src), "").Items?
    ensures var items := Parse(src, Start(src), "").items;
      && (TomlEdits.EveryEditWritten(src.buf, Entries(items)) <==> TomlEdits.Separate(Entries(items)))
      && (NestedKeysBreak(src.buf, items) ==> TomlEdits.Separate(Entries(items)))
  {
    hide Parse, NestedKeysBreak, ItemsOk, TomlEdits.EveryEditWritten, TomlEdits.Separate, TomlEdits.Layout,
      TomlEditor.LinesDisjoint;
    var items := Parse(src, Start(src), "").items;
    ParseItems(src, Start(src), "", None);
    ItemsLayout(src.buf, items);
    TomlEdits.EditsDecide(src.buf, Entries(items));
    DocumentLines(src);
    if NestedKeysBreak(src.buf, items) { TomlEdits.DisjointIsSeparate(src.buf, Entries(items)); }
  }

  // ---------------------------------------------------------------- a document that loses an edit

  lemma KeyToken(src: Source, t: State)
    requires t.off + 1 < |src.buf| && IsBareKeyChar(src.buf[t.off]) && src.buf[t.off + 1] == '=' && src.maxKeyLength > 0
    requires FlagInv(t) && !t.failed && !t.needLineEnd && !t.expectingValue && !t.needSeparator
    ensures ReadToken(src, t) == Read(MakeToken(t, Key, t.off + 1),
      Advance(src, t, t.off + 2).(expectingValue := true, valueNoNewline := true, needLineEnd := false))
  {
    hide AdvancePosition, SkipSpaces, ScanKey, TomlSkip.SkippedKey;
    TomlSkipExact.OneLetterKey(src, t.off);
    TomlSkipExact.AtToken(src, t);
    TomlSkip.ReadAtByte(src, t);
  }

  lemma DigitToken(src: Source, t: State)
    requires t.off + 1 < |src.buf| && IsDigit(src.buf[t.off]) && IsBareDelimiter(src.buf[t.off + 1])
    requires src.classify(src.buf[t.off..t.off + 1])
    requires FlagInv(t) && !t.failed && t.expectingValue && !t.needSeparator
    ensures ReadToken(src, t) == Read(MakeToken(t, Value, t.off + 1), AfterValue(Advance(src, t, t.off + 1)))
  {
    hide AdvancePosition, SkipSpaces;
    assert BareDelimiter(src.buf, t.off + 1) == t.off + 1;
    assert BareDelimiter(src.buf, t.off) == t.off + 1;
    assert ScanBareValue(src.buf, t.off) == t.off + 1;
    assert ScalarEnd(src, t.off) == End(t.off + 1);
    TomlSkipExact.AtToken(src, t);
    TomlSkip.ReadAtByte(src, t);
  }

  predicate TwoOnALine(src: Source) {
    src.buf == "[t]\n{a=1,b=2}" && src.maxKeyLength > 0 && src.classify("1") && src.classify("2")
  }

  /** Inside the stray braces. */
  ghost predicate Inside(t: State, off: nat, comma: bool) {
    && t.off == off && !t.failed && !t.expectingValue && !t.valueNoNewline && !t.needLineEnd
    && t.needSeparator == comma && t.stack == [InlineContainer]
  }

  lemma FirstHeader(src: Source) returns (t: State)
    requires TwoOnALine(src)
    ensures ReadToken(src, Start(src)) == Read(MakeToken(Start(src), TableHeader, 3), t)
    ensures Start(src).off == 0 && t.off == 3 && !t.failed && !t.expectingValue && !t.valueNoNewline && !t.needSeparator
    ensures t.needLineEnd && t.stack == []
  {
    hide AdvancePosition;
    var s := Start(src);
    assert BOM[0] != src.buf[0] && !(BOM <= src.buf);
    TomlSkipExact.Unmoved(src, s);
    assert HeaderEnd(src.buf, 1, false) == End(2) by { assert HeaderEnd(src.buf, 2, false) == End(2); }
    var h := src.buf[..2];
    assert BlankEnd(h, 1) == 1 && BareKeyEnd(h, 2) == 2 && BareKeyEnd(h, 1) == 2 && BlankEnd(h, 2) == 2;
    assert HeaderKey(src.buf, 2, 2, false) == End(2);
    assert HeaderKey(src.buf, 1, 2, true) == End(2);
    t := ReadToken(src, s).st;
  }

  lemma OpenBrace(src: Source, t: State) returns (u: State)
    requires TwoOnALine(src) && t.off == 3 && !t.failed && !t.expectingValue && !t.valueNoNewline && !t.needSeparator
    requires t.needLineEnd && t.stack == []
    ensures ReadToken(src, t).out.Got? && ReadToken(src, t).out.token.kind == InlineStart && ReadToken(src, t).st == u
    ensures Inside(u, 5, false)
  {
    hide AdvancePosition, SkipSpaces;
    var n := NewLine(src, t, 4);
    SkipSpacesRound(src, t);
    assert src.buf[3] == '\n' && BlankEnd(src.buf, 3) == 3;
    assert SpaceRound(src, t) == n;
    TomlSkipExact.Unmoved(src, n);
    assert SkipSpaces(src, t) == n;
    u := ReadInlineStart(src, n).st;
  }

  /** One `x=1` inside the braces: the key, then its value. */
  lemma Member(src: Source, t: State, off: nat) returns (u: State, v: State)
    requires TwoOnALine(src) && Inside(t, off, false) && (off == 5 || off == 9)
    ensures ReadToken(src, t) == Read(MakeToken(t, Key, off + 1), u) && FlagInv(u) && InBounds(src, u)
    ensures u.stack != [] && ReadValue(src, u) == ValueAt(TomlDocument.Span(off + 2, off + 3), v)
    ensures Inside(v, off + 3, true)
  {
    hide AdvancePosition, SkipSpaces, ReadToken;
    KeyToken(src, t);
    u := ReadToken(src, t).st;
    assert src.buf[off + 2..off + 3] == if off == 5 then "1" else "2";
    DigitToken(src, u);
    v := ReadToken(src, u).st;
  }

  lemma Comma(src: Source, t: State) returns (u: State)
    requires TwoOnALine(src) && Inside(t, 8, true)
    ensures Inside(u, 9, false) && ReadToken(src, t) == ReadToken(src, u)
  {
    hide AdvancePosition, SkipSpaces, Loop;
    TomlSkipExact.AtToken(src, t);
    TomlSkip.ReadAtByte(src, t);
    u := DispatchToken(src, t).st;
  }

  lemma CloseBrace(src: Source, t: State) returns (u: State)
    requires TwoOnALine(src) && Inside(t, 12, true)
    ensures ReadToken(src, t).out.Got? && ReadToken(src, t).out.token.kind == InlineEnd && ReadToken(src, t).st == u
    ensures InBounds(src, u) && FlagInv(u) && ReadToken(src, u).out == Eof
  {
    hide AdvancePosition, SkipSpaces;
    TomlSkipExact.AtToken(src, t);
    TomlSkip.ReadAtByte(src, t);
    u := ReadInlineEnd(src, t).st;
    assert u.off == 13 && !u.expectingValue && !u.failed;
    SkipSpacesRound(src, u);
    assert SpaceRound(src, u) == u;
  }

  lemma ParseToken(src: Source, s: State, current: Bytes)
    requires InBounds(src, s) && FlagInv(s) && ReadToken(src, s).out.Got? && current != ""
    requires ReadToken(src, s).out.token.kind == InlineStart || ReadToken(src, s).out.token.kind == InlineEnd
    ensures InBounds(src, ReadToken(src, s).st) && FlagInv(ReadToken(src, s).st)
    ensures Parse(src, s, current) == Parse(src, ReadToken(src, s).st, current)
  {
    hide ReadToken, ReadValue, PathKey;
    ReadOkAt(src, s);
  }

  lemma ParseMember(src: Source, t: State, off: nat, u: State, v: State)
    requires TwoOnALine(src) && (off == 5 || off == 9) && InBounds(src, t) && FlagInv(t) && InBounds(src, u)
        && FlagInv(u)
    requires t.off == off && ReadToken(src, t) == Read(MakeToken(t, Key, off + 1), u)
    requires u.stack != [] && ReadValue(src, u) == ValueAt(TomlDocument.Span(off + 2, off + 3), v)
    requires InBounds(src, v) && FlagInv(v)
    ensures Parse(src, t, "t") == Prepend([LineItem(off)], Parse(src, v, "t"))
  {
    hide ReadToken, ReadValue, PathKey, Loop;
    OneLetter(src.buf, off);
    SameLine(src.buf, off);
    assert "t" + "\0" == "t\0";
  }

  function LineItem(off: nat): Item {
    var key := "t\0" + (if off == 5 then "a" else "b");
    Item(TomlDocument.Entry(key, TomlDocument.Span(off + 2, off + 3), TomlDocument.Span(4, 13)), off, true)
  }

  lemma OneLetter(b: Bytes, off: nat)
    requires b == "[t]\n{a=1,b=2}" && (off == 5 || off == 9)
    ensures PathKey(b[off..off + 1]) == Some(if off == 5 then "a" else "b")
  {
    var key := b[off..off + 1];
    assert key == if off == 5 then "a" else "b";
    LetterKey(key);
  }

  lemma LetterKey(key: Bytes)
    requires |key| == 1 && IsBareKeyChar(key[0])
    ensures PathKey(key) == Some(key)
  {
    hide TomlKey.ParseSegments, TomlKey.TrimSpace;
    assert TomlKey.TrimSpace(key) == key by { LetterTrim(key); }
    LetterSegments(key);
    assert [key][..0] == [] && JoinParts([key]) == key by { assert "" + key == key; }
  }

  lemma LetterTrim(key: Bytes)
    requires |key| == 1 && IsBareKeyChar(key[0])
    ensures TomlKey.TrimSpace(key) == key && TrimLeftBlanks(key) == key
  {}

  lemma LetterSegments(key: Bytes)
    requires |key| == 1 && IsBareKeyChar(key[0])
    ensures TomlKey.ParseSegments(key) == Some([key])
  {
    hide TrimLeftBlanks, TomlKey.ParseSegment;
    LetterTrim(key);
    assert TomlKey.ParseSegment(key) == Some((key, [])) by { LetterSegment(key); }
    assert TrimLeftBlanks([]) == [];
    assert TomlKey.ParseRound(key) == TomlKey.Last(key);
  }

  lemma LetterSegment(key: Bytes)
    requires |key| == 1 && IsBareKeyChar(key[0])
    ensures TomlKey.ParseSegment(key) == Some((key, []))
  {
    hide TomlString.ParseString, TomlKey.QuoteEnd;
    assert TomlKey.BareEnd(key, 1) == 1 && TomlKey.BareEnd(key, 0) == 1;
    assert key[..1] == key && key[1..] == [] && TomlKey.IsSimpleBareKey(key);
  }

  lemma SameLine(b: Bytes, off: nat)
    requires b == "[t]\n{a=1,b=2}" && (off == 5 || off == 9)
    ensures TomlDocument.LineBegin(b, off) == 4 && TomlDocument.LineEnd(b, off + 3) == 13
  {
    TomlDocument.LineBeginBefore(b, 4, off);
    assert b[3] == '\n';
    TomlDocument.LineEndBehind(b, off + 3, 12);
  }

  lemma HeaderName(b: Bytes)
    requires b == "[t]\n{a=1,b=2}"
    ensures PathKey(TomlKey.TrimHeaderKey(b[0..3], false)) == Some("t")
  {
    hide PathKey;
    var h := b[0..3];
    assert h == "[t]";
    assert TomlKey.TrimSpace(h) == h && h[1..2] == "t";
    LetterTrim("t");
    LetterKey("t");
  }

  /** Two keys on one line of stray braces under a header: `ParseDocument` takes them for entries, and
      deleting one drops the replacement of the other. */
  lemma StrayBracesLoseEdit(src: Source)
    requires TwoOnALine(src)
    ensures Parse(src, Start(src), "") == Items([LineItem(5), LineItem(9)])
    ensures !NestedKeysBreak(src.buf, [LineItem(5), LineItem(9)])
    ensures var ops := TomlEditor.EntryOps(Entries([LineItem(5), LineItem(9)]), map["t\0b" := "9"], {"t\0a"});
      TomlDocument.Splice(src.buf, TomlDocument.StableSort(ops), 0) == "[t]\n"
  {
    hide Parse, TomlEditor.EntryOps, TomlDocument.Splice, TomlDocument.StableSort, NestedKeysBreak;
    StrayParse(src);
    NoBreak(src.buf);
    var x, y := LineItem(5).entry, LineItem(9).entry;
    assert Entries([LineItem(5), LineItem(9)]) == [x, y];
    assert x.key == "t\0a" && y.key == "t\0b" && x.key[2] != y.key[2];
    TomlEditor.ReplacementLost(src.buf, x, y, "9");
    assert src.buf[..4] + src.buf[13..] == "[t]\n";
  }

  lemma NoBreak(b: Bytes)
    requires b == "[t]\n{a=1,b=2}"
    ensures !NestedKeysBreak(b, [LineItem(5), LineItem(9)])
  {
    var items := [LineItem(5), LineItem(9)];
    assert items[1].nested && !TomlDocument.HasBreak(b, items[0].entry.value.end, items[1].keyStart);
  }

  lemma StrayParse(src: Source)
    requires TwoOnALine(src)
    ensures Parse(src, Start(src), "") == Items([LineItem(5), LineItem(9)])
  {
    hide Parse, ReadToken, ReadValue, LineItem, NestedKeysBreak;
    var t1 := FirstHeader(src);
    var t2 := OpenBrace(src, t1);
    var u3, t3 := Member(src, t2, 5);
    var t4 := Comma(src, t3);
    var u5, t5 := Member(src, t4, 9);
    var t6 := CloseBrace(src, t5);
    ParseFirst(src, t1);
    ParseToken(src, t1, "t");
    ParseMember(src, t2, 5, u3, t3);
    ParseSame(src, t3, t4);
    ParseMember(src, t4, 9, u5, t5);
    ParseToken(src, t5, "t");
    ParseEnd(src, t6);
    assert [LineItem(9)] + [] == [LineItem(9)] && [LineItem(5)] + [LineItem(9)] == [LineItem(5), LineItem(9)];
  }

  lemma ParseFirst(src: Source, t: State)
    requires TwoOnALine(src) && InBounds(src, t) && FlagInv(t) && Start(src).off == 0
    requires ReadToken(src, Start(src)) == Read(MakeToken(Start(src), TableHeader, 3), t)
    ensures Parse(src, Start(src), "") == Parse(src, t, "t")
  {
    hide ReadToken, ReadValue, PathKey, TomlKey.TrimHeaderKey, Start;
    HeaderName(src.buf);
  }

  lemma ParseSame(src: Source, t: State, u: State)
    requires InBounds(src, t) && FlagInv(t) && InBounds(src, u) && FlagInv(u) && ReadToken(src, t) == ReadToken(src, u)
    ensures Parse(src, t, "t") == Parse(src, u, "t")
  {
    hide ReadToken, ReadValue, PathKey;
  }

  lemma ParseEnd(src: Source, t: State)
    requires InBounds(src, t) && FlagInv(t) && ReadToken(src, t).out == Eof
    ensures Parse(src, t, "t") == Items([])
  {
    hide ReadToken, ReadValue, PathKey;
  }

  // ---------------------------------------------------------------- the parser's loops

  /** `readValue` on the decoder object. */
  method ReadValueFrom(dec: TomlReader.Decoder) returns (span: Option<TomlDocument.Span>, out: Outcome)
    requires dec.Valid()
    modifies dec
    ensures dec.Valid()
    ensures match ReadValue(dec.src, old(dec.Snapshot()))
      case ValueAt(value, st) => span == Some(value) && dec.Snapshot() == st
      case NoValue(o) => span == None && out == o
  {
    hide Loop, ReadToken, FlagInv;
    ghost var goal := ReadValue(dec.src, dec.Snapshot());
    while true
      invariant dec.Valid() && ReadValue(dec.src, dec.Snapshot()) == goal
      decreases |dec.src.buf| - dec.off
    {
      ReadOkAt(dec.src, dec.Snapshot());
      out := dec.ReadToken();
      if !out.Got? { return None, out; }
      var tok := out.token;
      if tok.kind == Comment { continue; }
      if tok.kind != ArrayStart && tok.kind != InlineStart { return Some(TomlDocument.Span(tok.start, tok.end)), out; }
      var end;
      end, out := ReadContainerFrom(dec, tok);
      return if end.None? then None else Some(TomlDocument.Span(tok.start, end.value)), out;
    }
  }

  method ReadContainerFrom(dec: TomlReader.Decoder, tok: Token) returns (end: Option<nat>, out: Outcome)
    requires dec.Valid() && (tok.kind == ArrayStart || tok.kind == InlineStart)
    modifies dec
    ensures dec.Valid()
    ensures var a, i := if tok.kind == ArrayStart then 1 else 0, if tok.kind == InlineStart then 1 else 0;
      match ReadContainer(dec.src, old(dec.Snapshot()), tok.start, tok.end, a, i)
      case ValueAt(value, st) => end == Some(value.end) && value.start == tok.start && dec.Snapshot() == st
      case NoValue(o) => end == None && out == o
  {
    hide Loop, ReadToken, FlagInv;
    var last := tok.end;
    var arrays, inlines := if tok.kind == ArrayStart then 1 else 0, if tok.kind == InlineStart then 1 else 0;
    ghost var goal := ReadContainer(dec.src, dec.Snapshot(), tok.start, last, arrays, inlines);
    out := Eof;
    while arrays > 0 || inlines > 0
      invariant dec.Valid() && ReadContainer(dec.src, dec.Snapshot(), tok.start, last, arrays, inlines) == goal
      decreases |dec.src.buf| - dec.off
    {
      ReadOkAt(dec.src, dec.Snapshot());
      out := dec.ReadToken();
      if !out.Got? { return None, out; }
      last := out.token.end;
      match out.token.kind {
        case ArrayStart => arrays := arrays + 1;
        case ArrayEnd => arrays := arrays - 1;
        case InlineStart => inlines := inlines + 1;
        case InlineEnd => inlines := inlines - 1;
        case _ =>
      }
    }
    return Some(last), out;
  }

  datatype Opened<!V> = Opened(doc: TomlEditor.Document<V>) | Refused | NeverReturns

  lemma PrependTwice(a: seq<Item>, b: seq<Item>, p: Parsed)
    ensures Prepend(a, Prepend(b, p)) == Prepend(a + b, p) && Prepend([], p) == p
  {
    if p.Items? {
      Regroup(a, b, p.items);
      assert [] + p.items == p.items;
    }
  }

  /** `ParseDocument`: the document holds the specified entries, or the call fails, or never returns. */
  method ParseDocument<V>(src: Source, codec: TomlEditor.Codec<V>) returns (r: Opened<V>)
    ensures match Parse(src, Start(src), "")
      case Items(items) =>
        && r.Opened? && fresh(r.doc) && r.doc.Valid() && r.doc.raw == src.buf && r.doc.codec == codec
        && r.doc.entries == Entries(items) && r.doc.Ops() == []
      case Rejected => r.Refused?
      case Hangs => r.NeverReturns?
  {
    hide Loop, ReadToken, ReadValue, PathKey, JoinPathKeys, TomlKey.TrimHeaderKey, FlagInv, TomlEditor.EntryOps,
      TomlEditor.Indexed;
    var dec := new TomlReader.Decoder(src);
    var items: seq<Item> := [];
    var current: Bytes := "";
    ghost var goal := Parse(src, Start(src), "");
    PrependTwice([], [], goal);
    while true
      invariant dec.src == src && dec.Valid() && fresh(dec)
      invariant goal == Prepend(items, Parse(src, dec.Snapshot(), current))
      decreases |src.buf| - dec.off
    {
      ghost var s := dec.Snapshot();
      ReadOkAt(src, s);
      var out := dec.ReadToken();
      if out == Eof { break; }
      if !out.Got? { return if out == Spin then NeverReturns else Refused; }
      var tok := out.token;
      var raw := src.buf[tok.start..tok.end];
      match tok.kind {
        case Comment =>
        case TableHeader =>
          var key := PathKey(TomlKey.TrimHeaderKey(raw, false));
          if key.None? { return Refused; }
          current := key.value;
        case ArrayTableHeader =>
          var key := PathKey(TomlKey.TrimHeaderKey(raw, true));
          if key.None? { return Refused; }
          current := key.value;
        case Key =>
          var key := PathKey(raw);
          if key.None? { return Refused; }
          var container := dec.stack != [];
          ghost var t := dec.Snapshot();
          ValueOk(src, t);
          var span, stop := ReadValueFrom(dec);
          if span.None? { return if stop == Spin then NeverReturns else Refused; }
          var line := TomlDocument.LineSpan(src.buf, tok.start, span.value.end);
          var item := Item(TomlDocument.Entry(JoinPathKeys(current, key.value), span.value, line), tok.start,
              container);
          PrependTwice(items, [item], Parse(src, dec.Snapshot(), current));
          items := items + [item];
        case _ => if current == "" { return Refused; }
      }
    }
    assert goal == Items(items) by { assert items + [] == items; }
    ParseItems(src, Start(src), "", None);
    ItemSpans(src.buf, items);
    var doc := new TomlEditor.Document(src.buf, Entries(items), codec);
    return Opened(doc);
  }
}
