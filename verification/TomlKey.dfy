/** Dotted keys: the parser of pkg/toml/value.go and the printer of pkg/toml/marshal.go. */
module TomlKey {
  import opened Text
  import TomlString

  predicate IsSimpleBareKey(raw: Bytes) {
    raw != [] && forall i | 0 <= i < |raw| :: IsBareKeyChar(raw[i])
  }

  predicate IsSpace(c: char) { c == ' ' || c == '\t' || c == '\n' || c == '\r' }

  function TrimSpace(raw: Bytes): Bytes {
    if raw != [] && IsSpace(raw[0]) then TrimSpace(raw[1..])
    else if raw != [] && IsSpace(raw[|raw| - 1]) then TrimSpace(raw[..|raw| - 1])
    else raw
  }

  /** Index of the closing quote, stepping over escaped bytes in basic strings;
      past the end when there is none. */
  function QuoteEnd(raw: Bytes, q: char, end: nat): (e: nat)
    ensures e >= end
    ensures e < |raw| ==> raw[e] == q
    decreases |raw| - end
  {
    if end >= |raw| then end
    else if raw[end] == '\\' && q == '"' then QuoteEnd(raw, q, end + 2)
    else if raw[end] == q then end
    else QuoteEnd(raw, q, end + 1)
  }

  /** `bytes.IndexAny(raw, ". \t")`, or the length. */
  function BareEnd(raw: Bytes, i: nat): (e: nat)
    requires i <= |raw|
    ensures i <= e <= |raw|
    decreases |raw| - i
  {
    if i < |raw| && raw[i] != '.' && !IsBlank(raw[i]) then BareEnd(raw, i + 1) else i
  }

  /** One quoted or bare segment at the front of `raw`, and what follows it. */
  function ParseSegment(raw: Bytes): (r: Option<(Bytes, Bytes)>)
    requires raw != []
    ensures r.Some? ==> |r.value.1| < |raw|
  {
    if raw[0] == '\'' || raw[0] == '"' then
      var end := QuoteEnd(raw, raw[0], 1);
      if end >= |raw| then None else
        var part :- TomlString.ParseString(raw[..end + 1]);
        Some((part, raw[end + 1..]))
    else
      var end := BareEnd(raw, 0);
      if IsSimpleBareKey(raw[..end]) then Some((raw[..end], raw[end..])) else None
  }

  /** One round of the parser: a last segment, a segment with more to come, or an error. */
  datatype Round = Empty | Last(part: Bytes) | More(part: Bytes, rest: Bytes) | Malformed

  function ParseRound(raw: Bytes): (r: Round)
    ensures r.More? ==> |r.rest| < |raw|
  {
    var r := TrimLeftBlanks(raw);
    if r == [] then Empty
    else match ParseSegment(r)
      case None => Malformed
      case Some((part, after)) =>
        var rest := TrimLeftBlanks(after);
        if rest == [] then Last(part)
        else if rest[0] != '.' || TrimLeftBlanks(rest[1..]) == [] then Malformed
        else More(part, rest[1..])
  }

  function ParseSegments(raw: Bytes): Option<seq<Bytes>>
    decreases |raw|
  {
    match ParseRound(raw)
    case Empty => Some([])
    case Last(part) => Some([part])
    case Malformed => None
    case More(part, rest) =>
      var tail :- ParseSegments(rest);
      Some([part] + tail)
  }

  /** The segments of a dotted key, or `None` for every syntax error. */
  function ParseDottedKey(raw: Bytes): (r: Option<seq<Bytes>>)
    ensures r.Some? ==> r.value != []
  {
    var parts :- ParseSegments(TrimSpace(raw));
    if parts == [] then None else Some(parts)
  }

  /** `parseDottedKey` as the loop that consumes `raw` from the front. */
  method ScanDottedKey(key: Bytes) returns (r: Option<seq<Bytes>>)
    ensures r == ParseDottedKey(key)
  {
    hide ParseRound, TrimSpace;
    var raw := TrimSpace(key);
    var parts: seq<Bytes> := [];
    ghost var whole := ParseSegments(raw);
    assert whole.Some? ==> [] + whole.value == whole.value;
    while true
      invariant whole.Some? <==> ParseSegments(raw).Some?
      invariant whole.Some? ==> whole.value == parts + ParseSegments(raw).value
      decreases |raw|
    {
      var round := ParseRound(raw);
      match round {
        case Empty => break;
        case Malformed => return None;
        case Last(part) => parts := parts + [part]; break;
        case More(part, rest) =>
          if ParseSegments(rest).Some? {
            assert parts + ([part] + ParseSegments(rest).value) == parts + [part] + ParseSegments(rest).value;
          }
          parts, raw := parts + [part], rest;
      }
    }
    assert parts + [] == parts;
    return if parts == [] then None else Some(parts);
  }

  // ---------------------------------------------------------------- printing

  /** `formatKey`: bare when possible, quoted otherwise. */
  function FormatKey(key: Bytes): Bytes {
    if IsSimpleBareKey(key) then key else TomlString.Quoted(key)
  }

  function JoinKeys(path: seq<Bytes>): Bytes {
    if path == [] then "" else if |path| == 1 then FormatKey(path[0])
    else FormatKey(path[0]) + "." + JoinKeys(path[1..])
  }

  /** `writeHeader`: the line of a `[table]` or `[[array table]]` header. */
  function Header(path: seq<Bytes>, isArray: bool): Bytes {
    if isArray then "[[" + JoinKeys(path) + "]]\n" else "[" + JoinKeys(path) + "]\n"
  }

  lemma {:induction false} JoinKeysLast(path: seq<Bytes>, key: Bytes)
    requires path != []
    ensures JoinKeys(path + [key]) == JoinKeys(path) + ("." + FormatKey(key))
  {
    hide FormatKey;
    if |path| == 1 {
      assert (path + [key])[1..] == [key];
    } else {
      assert (path + [key])[1..] == path[1..] + [key];
      JoinKeysLast(path[1..], key);
      Regroup(FormatKey(path[0]) + ".", JoinKeys(path[1..]), "." + FormatKey(key));
    }
  }

  /** `writeHeader` appends one line to the buffer. */
  method WriteHeader(buf: Bytes, path: seq<Bytes>, isArray: bool) returns (out: Bytes)
    ensures out == buf + Header(path, isArray)
  {
    hide FormatKey;
    var text := if isArray then "[[" else "[";
    ghost var open := text;
    for i := 0 to |path|
      invariant text == open + JoinKeys(path[..i])
    {
      assert path[..i + 1] == path[..i] + [path[i]];
      if i > 0 {
        JoinKeysLast(path[..i], path[i]);
        Regroup(open, JoinKeys(path[..i]), "." + FormatKey(path[i]));
        text := text + ("." + FormatKey(path[i]));
      } else {
        text := text + FormatKey(path[i]);
      }
    }
    assert path[..|path|] == path;
    out := buf + (text + if isArray then "]]\n" else "]\n");
  }

  /** `trimHeaderKey`: the key between the brackets of a header token. */
  function TrimHeaderKey(raw: Bytes, isArray: bool): Bytes {
    var t := TrimSpace(raw);
    if isArray then (if |t| >= 4 then TrimSpace(t[2..|t| - 2]) else [])
    else if |t| >= 2 then TrimSpace(t[1..|t| - 1]) else []
  }

  // ---------------------------------------------------------------- round trip

  /** What may follow a printed segment: nothing, or the next dot. */
  predicate Follows(rest: Bytes) { rest == [] || rest[0] == '.' }

  lemma {:induction false} BareEndStops(k: Bytes, rest: Bytes, i: nat)
    requires i <= |k| && Follows(rest)
    requires forall j | 0 <= j < |k| :: IsBareKeyChar(k[j])
    ensures BareEnd(k + rest, i) == |k|
    decreases |k| - i
  {
    if i < |k| {
      assert (k + rest)[i] == k[i];
      BareEndStops(k, rest, i + 1);
    }
  }

  lemma {:induction false} QuoteEndAfterEscaped(pre: Bytes, s: Bytes, post: Bytes)
    ensures QuoteEnd(pre + TomlString.Escaped(s) + "\"" + post, '"', |pre|) == |pre + TomlString.Escaped(s)|
    decreases |s|
  {
    var raw := pre + TomlString.Escaped(s) + "\"" + post;
    if s == [] {
      assert raw[|pre|] == '"';
    } else {
      var head := if TomlString.NeedsEscape(s[0]) then ['\\', s[0]] else [s[0]];
      assert pre + TomlString.Escaped(s) == pre + head + TomlString.Escaped(s[1..]);
      QuoteEndAfterEscaped(pre + head, s[1..], post);
      assert raw[|pre|] == head[0];
    }
  }

  lemma SegmentRoundTrip(k: Bytes, rest: Bytes)
    requires TomlString.Printable(k) && Follows(rest)
    ensures Tight(FormatKey(k))
    ensures ParseSegment(FormatKey(k) + rest) == Some((k, rest))
  {
    var raw := FormatKey(k) + rest;
    if IsSimpleBareKey(k) {
      BareEndStops(k, rest, 0);
      assert raw[..|k|] == k && raw[|k|..] == rest;
    } else {
      QuoteEndAfterEscaped("\"", k, rest);
      var q := TomlString.Quoted(k);
      assert raw == "\"" + TomlString.Escaped(k) + "\"" + rest;
      assert raw[..|q|] == q && raw[|q|..] == rest;
      TomlString.QuotedRoundTrip(k);
    }
  }

  lemma NoTrim(b: Bytes)
    requires b != [] && !IsBlank(b[0])
    ensures TrimLeftBlanks(b) == b
  {}

  /** A text that starts and ends with a non-space byte. */
  predicate Tight(b: Bytes) { b != [] && !IsSpace(b[0]) && !IsSpace(b[|b| - 1]) }

  lemma RoundOfPrinted(k: Bytes, tail: Bytes)
    requires TomlString.Printable(k)
    requires tail == [] || Tight(tail)
    ensures Tight(FormatKey(k))
    ensures tail == [] ==> ParseRound(FormatKey(k)) == Last(k)
    ensures tail != [] ==> ParseRound(FormatKey(k) + ("." + tail)) == More(k, tail)
  {
    if tail == [] {
      SegmentRoundTrip(k, []);
      assert FormatKey(k) + [] == FormatKey(k);
      NoTrim(FormatKey(k));
    } else {
      SegmentRoundTrip(k, "." + tail);
      NoTrim(FormatKey(k) + ("." + tail));
      NoTrim("." + tail);
      NoTrim(tail);
      assert ("." + tail)[1..] == tail;
    }
  }

  lemma SegmentsOfRound(raw: Bytes, k: Bytes, tail: Bytes, parts: seq<Bytes>)
    requires raw != [] && ParseRound(raw) == More(k, tail) && ParseSegments(tail) == Some(parts)
    ensures ParseSegments(raw) == Some([k] + parts)
  {}

  lemma {:induction false} JoinRoundTrip(path: seq<Bytes>)
    requires path != []
    requires forall i | 0 <= i < |path| :: TomlString.Printable(path[i])
    ensures Tight(JoinKeys(path))
    ensures ParseSegments(JoinKeys(path)) == Some(path)
  {
    hide ParseRound, FormatKey, IsSpace;
    if |path| == 1 {
      RoundOfPrinted(path[0], []);
      assert path == [path[0]];
    } else {
      var tail := JoinKeys(path[1..]);
      JoinRoundTrip(path[1..]);
      RoundOfPrinted(path[0], tail);
      assert JoinKeys(path) == FormatKey(path[0]) + ("." + tail);
      SegmentsOfRound(JoinKeys(path), path[0], tail, path[1..]);
      assert [path[0]] + path[1..] == path;
    }
  }

  /** Every non-empty path of printable segments survives printing and parsing, whatever mix of
      empty, dotted, spaced or quoted segments it has. */
  lemma {:induction false} DottedKeyRoundTrip(path: seq<Bytes>)
    requires path != []
    requires forall i | 0 <= i < |path| :: TomlString.Printable(path[i])
    ensures ParseDottedKey(JoinKeys(path)) == Some(path)
  {
    hide JoinKeys, ParseSegments, TrimSpace;
    JoinRoundTrip(path);
    TrimTight(JoinKeys(path));
  }

  lemma TrimTight(b: Bytes)
    requires Tight(b)
    ensures TrimSpace(b) == b && TrimSpace(b + "\n") == b
  {
    assert (b + "\n")[..|b + "\n"| - 1] == b;
  }

  lemma TrimPrintedHeader(key: Bytes, isArray: bool)
    requires Tight(key)
    ensures TrimHeaderKey(if isArray then "[[" + key + "]]\n" else "[" + key + "]\n", isArray) == key
  {
    var body := if isArray then "[[" + key + "]]" else "[" + key + "]";
    TrimTight(body);
    TrimTight(key);
    assert key == if isArray then body[2..|body| - 2] else body[1..|body| - 1];
    assert body + "\n" == if isArray then "[[" + key + "]]\n" else "[" + key + "]\n";
  }

  /** The key of a printed header parses back to the header's path. */
  lemma HeaderRoundTrip(path: seq<Bytes>, isArray: bool)
    requires path != []
    requires forall i | 0 <= i < |path| :: TomlString.Printable(path[i])
    ensures ParseDottedKey(TrimHeaderKey(Header(path, isArray), isArray)) == Some(path)
  {
    JoinRoundTrip(path);
    TrimTight(JoinKeys(path));
    TrimPrintedHeader(JoinKeys(path), isArray);
  }
}
