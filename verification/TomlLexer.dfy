/** The scanning routines under the TOML token stream (pkg/toml/decoder.go). Each finds where a
    piece of syntax ends; the `internal/scan` kernels appear as the byte class they search for. */
module TomlLexer {
  import opened Text
  import TomlString
  import TomlKey
  import TomlDateTime

  /** `End(i)`: the piece ends before `i`. `Reject`: an error, which the decoder remembers when
      `sticky` (validation errors inside a quoted piece are returned without being stored). */
  datatype Scan = End(end: nat) | Reject(sticky: bool)

  // ---------------------------------------------------------------- quoted keys

  function QuotedBodyEnd(b: Bytes, quote: char, i: nat): (e: Option<nat>)
    ensures e.Some? ==> i < e.value <= |b|
    decreases |b| - i
  {
    if i >= |b| || IsNewline(b[i]) then None
    else if b[i] == quote then Some(i + 1)
    else if quote == '"' && b[i] == '\\' then QuotedBodyEnd(b, quote, i + 2)
    else QuotedBodyEnd(b, quote, i + 1)
  }

  function Validated(b: Bytes, off: nat, e: Option<nat>): (r: Scan)
    requires e.Some? ==> off < e.value <= |b|
    ensures r.End? ==> off < r.end <= |b|
  {
    if e.None? then Reject(true)
    else if TomlString.ValidString(b[off..e.value]) then End(e.value)
    else Reject(false)
  }

  /** `scanQuoted`. */
  function ScanQuoted(b: Bytes, off: nat): (r: Scan)
    requires off < |b|
    ensures r.End? ==> off < r.end <= |b|
  {
    var quote := b[off];
    if off + 2 < |b| && b[off + 1] == quote && b[off + 2] == quote then Reject(true)
    else Validated(b, off, QuotedBodyEnd(b, quote, off + 1))
  }

  // ---------------------------------------------------------------- string values

  function RunEnd(b: Bytes, i: nat, c: char): (e: nat)
    requires i <= |b|
    ensures i <= e <= |b|
    ensures i < |b| && b[i] == c ==> i < e
    decreases |b| - i
  {
    if i < |b| && b[i] == c then RunEnd(b, i + 1, c) else i
  }

  /** End of a multi-line string: a run of three quotes or more, of which up to five belong to it. */
  function MultilineEnd(b: Bytes, i: nat, quote: char): (e: Option<nat>)
    ensures e.Some? ==> i < e.value <= |b|
    decreases |b| - i
  {
    if i >= |b| then None
    else if b[i] == '\\' && quote == '"' then MultilineEnd(b, i + 2, quote)
    else if b[i] == quote then
      var run := RunEnd(b, i, quote) - i;
      if run >= 3 then Some(i + if run < 5 then run else 5)
      else MultilineEnd(b, i + run, quote)
    else MultilineEnd(b, i + 1, quote)
  }

  function BasicEnd(b: Bytes, i: nat): (r: Scan)
    ensures r.End? ==> i < r.end <= |b|
    decreases |b| - i
  {
    if i >= |b| || IsNewline(b[i]) then Reject(true)
    else if b[i] == '\\' then BasicEnd(b, i + 2)
    else if b[i] == '"' then End(i + 1)
    else if TomlString.StrictStop(b[i]) then Reject(false)
    else BasicEnd(b, i + 1)
  }

  function LiteralEnd(b: Bytes, i: nat): (e: Option<nat>)
    ensures e.Some? ==> i < e.value <= |b|
    decreases |b| - i
  {
    if i >= |b| || IsNewline(b[i]) then None
    else if b[i] == '\'' then Some(i + 1)
    else LiteralEnd(b, i + 1)
  }

  predicate IsQuote(c: char) { c == '"' || c == '\'' }

  /** `scanString`: the four string forms. */
  function ScanString(b: Bytes, off: nat): (r: Scan)
    requires off < |b| && IsQuote(b[off])
    ensures r.End? ==> off < r.end <= |b|
  {
    var quote := b[off];
    if off + 2 < |b| && b[off + 1] == quote && b[off + 2] == quote then
      Validated(b, off, MultilineEnd(b, off + 3, quote))
    else if quote == '"' then
      match BasicEnd(b, off + 1)
      case Reject(sticky) => Reject(sticky)
      case End(e) => Validated(b, off, Some(e))
    else Validated(b, off, LiteralEnd(b, off + 1))
  }

  // ---------------------------------------------------------------- bare values and comments

  predicate IsBareDelimiter(c: char) {
    c == ' ' || c == '\t' || c == '\r' || c == '\n' || c == ',' || c == ']' || c == '}' || c == '#' || c == '='
  }

  function BareDelimiter(b: Bytes, i: nat): (e: nat)
    requires i <= |b|
    ensures i <= e <= |b|
    ensures i < |b| && !IsBareDelimiter(b[i]) <==> i < e
    decreases |b| - i
  {
    if i < |b| && !IsBareDelimiter(b[i]) then BareDelimiter(b, i + 1) else i
  }

  /** `scanBareValueEnd`: a date may be followed by a space and a time. */
  function ScanBareValue(b: Bytes, start: nat): (e: nat)
    requires start < |b|
    ensures start <= e <= |b|
    ensures start < e <==> !IsBareDelimiter(b[start])
  {
    var e := BareDelimiter(b, start);
    if e - start != 10 || e >= |b| || b[e] != ' ' then e else
      var tail := BareDelimiter(b, e + 1);
      if TomlDateTime.ParseDateTime(b[start..tail]).Some? then tail else e
  }

  function CommentBodyEnd(b: Bytes, i: nat): (e: nat)
    requires i <= |b|
    ensures i <= e <= |b|
    decreases |b| - i
  {
    if i < |b| && b[i] != '\U{7f}' && (b[i] >= ' ' || b[i] == '\t') then CommentBodyEnd(b, i + 1) else i
  }

  /** `scanCommentEnd`: up to LF, CRLF or the end of input; any other control byte is an error. */
  function ScanComment(b: Bytes, start: nat): (r: Scan)
    requires start < |b|
    ensures r.End? ==> start < r.end <= |b|
    ensures r.End? && r.end < |b| ==> b[r.end] == '\n' || TomlString.IsCrLf(b, r.end)
  {
    var e := CommentBodyEnd(b, start + 1);
    if e >= |b| || b[e] == '\n' || TomlString.IsCrLf(b, e) then End(e) else Reject(true)
  }

  // ---------------------------------------------------------------- keys

  /** First byte that ends a key in `scanKeyToken`. */
  function KeyEnd(b: Bytes, i: nat): (r: Scan)
    requires i <= |b|
    ensures r.End? ==> i <= r.end <= |b|
    decreases |b| - i
  {
    if i >= |b| || b[i] == '=' || b[i] == '#' || IsNewline(b[i]) then End(i)
    else if IsQuote(b[i]) then
      match ScanQuoted(b, i)
      case Reject(sticky) => Reject(sticky)
      case End(j) => KeyEnd(b, j)
    else KeyEnd(b, i + 1)
  }

  /** Key text that names at least one segment. */
  predicate ValidKey(key: Bytes) {
    TomlKey.IsSimpleBareKey(key) || TomlKey.ParseDottedKey(key).Some?
  }

  // ---------------------------------------------------------------- headers

  /** `scanHeaderEnd`: the closing bracket of a header. */
  function HeaderEnd(b: Bytes, i: nat, isArray: bool): (r: Scan)
    ensures r.End? ==> i <= r.end && r.end + (if isArray then 2 else 1) <= |b|
    decreases |b| - i
  {
    if i >= |b| || IsNewline(b[i]) then Reject(true)
    else if IsQuote(b[i]) then
      match ScanQuoted(b, i)
      case Reject(sticky) => Reject(sticky)
      case End(j) => HeaderEnd(b, j, isArray)
    else if b[i] == ']' && (!isArray || (i + 1 < |b| && b[i + 1] == ']')) then End(i)
    else HeaderEnd(b, i + 1, isArray)
  }

  function BareKeyEnd(b: Bytes, i: nat): (e: nat)
    requires i <= |b|
    ensures i <= e <= |b|
    decreases |b| - i
  {
    if i < |b| && IsBareKeyChar(b[i]) then BareKeyEnd(b, i + 1) else i
  }

  /** `validateHeaderKey` from position `i`; `End` means accepted. */
  function HeaderKey(b: Bytes, i: nat, end: nat, needSegment: bool): Scan
    requires i <= end <= |b|
    decreases end - i
  {
    var k := BlankEnd(b[..end], i);
    if k >= end then (if needSegment then Reject(true) else End(end))
    else if !needSegment then (if b[k] != '.' then Reject(true) else HeaderKey(b, k + 1, end, true))
    else if IsQuote(b[k]) then
      match ScanQuoted(b, k)
      case Reject(sticky) => Reject(sticky)
      case End(j) => if j > end then Reject(true) else HeaderKey(b, j, end, false)
    else
      var j := BareKeyEnd(b[..end], k);
      if j == k then Reject(true) else HeaderKey(b, j, end, false)
  }
}
