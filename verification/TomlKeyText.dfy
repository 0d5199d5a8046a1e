/** The exact language of dotted keys (`parseDottedKey` in pkg/toml/value.go), by a grammar of its own:
    bare and quoted segments, dots, and white space around them. */
module TomlKeyText {
  import opened Text
  import opened TomlKey
  import TomlString
  import TomlEscapes

  // ---------------------------------------------------------------- segments

  /** Letters, digits, underscore and hyphen, by their codes. */
  predicate BareCode(c: nat) { 0x41 <= c <= 0x5A || 0x61 <= c <= 0x7A || 0x30 <= c <= 0x39 || c == 0x5F || c == 0x2D }

  predicate BareText(text: Bytes) { text != "" && forall i | 0 <= i < |text| :: BareCode(text[i] as int) }

  /** No quote ends the body early: in double quotes an escaped byte is passed over. */
  predicate Closed(body: Bytes, quote: char)
    decreases |body|
  {
    if body == "" then true
    else if quote == '"' && body[0] == '\\' then |body| >= 2 && Closed(body[2..], quote)
    else body[0] != quote && Closed(body[1..], quote)
  }

  predicate QuotedAs(text: Bytes, part: Bytes, quote: char, body: Bytes) {
    && quote in {'"', '\''} && text == [quote] + body + [quote] && Closed(body, quote)
    && TomlEscapes.Body(body, quote, false) == Some(part)
  }

  /** The text of a segment names `part`. */
  ghost predicate Names(text: Bytes, part: Bytes) {
    (BareText(text) && part == text) || exists quote, body :: QuotedAs(text, part, quote, body)
  }

  lemma {:induction false} QuoteFound(raw: Bytes, i: nat, quote: char, body: Bytes, rest: Bytes)
    requires i <= |raw| && raw[i..] == body + ([quote] + rest) && Closed(body, quote) && quote in {'"', '\''}
    ensures QuoteEnd(raw, quote, i) == i + |body|
    decreases |body|
  {
    var tail := [quote] + rest;
    assert raw[i] == raw[i..][0];
    if body != "" {
      var n := if quote == '"' && body[0] == '\\' then 2 else 1;
      assert raw[i + n..] == raw[i..][n..] == body[n..] + tail;
      QuoteFound(raw, i + n, quote, body[n..], rest);
    }
  }

  lemma {:induction false} QuoteCloses(raw: Bytes, i: nat, quote: char)
    requires quote in {'"', '\''} && i <= |raw| && QuoteEnd(raw, quote, i) < |raw|
    ensures Closed(raw[i..QuoteEnd(raw, quote, i)], quote)
    decreases |raw| - i
  {
    var e := QuoteEnd(raw, quote, i);
    if raw[i] == '\\' && quote == '"' {
      QuoteCloses(raw, i + 2, quote);
      assert raw[i..e][2..] == raw[i + 2..e];
    } else if raw[i] != quote {
      QuoteCloses(raw, i + 1, quote);
      assert raw[i..e][1..] == raw[i + 1..e];
    }
  }

  predicate Separates(rest: Bytes) { rest == "" || rest[0] as int in {0x2E, 0x20, 0x09} }

  lemma {:induction false} BareFound(raw: Bytes, i: nat, text: Bytes, rest: Bytes)
    requires i <= |raw| && raw[i..] == text + rest && Separates(rest)
    requires forall k | 0 <= k < |text| :: BareCode(text[k] as int)
    ensures BareEnd(raw, i) == i + |text|
    decreases |text|
  {
    if text == "" {
      if i < |raw| { assert raw[i] == raw[i..][0]; }
    } else {
      assert raw[i] == raw[i..][0] == text[0];
      assert raw[i + 1..] == raw[i..][1..] == text[1..] + rest;
      BareFound(raw, i + 1, text[1..], rest);
    }
  }

  lemma SegmentRead(text: Bytes, part: Bytes, rest: Bytes)
    requires Names(text, part) && Separates(rest)
    ensures text != "" && ParseSegment(text + rest) == Some((part, rest))
    ensures !IsBlank(text[0]) && !IsSpace(text[0]) && !IsSpace(text[|text| - 1])
  {
    hide TomlString.ParseString, TomlEscapes.Body, QuoteEnd, BareEnd;
    var raw := text + rest;
    if BareText(text) && part == text {
      BareFound(raw, 0, text, rest);
      assert raw[0..] == raw && raw[..|text|] == text && raw[|text|..] == rest;
      assert BareCode(text[0] as int) && BareCode(text[|text| - 1] as int);
    } else {
      var quote, body :| QuotedAs(text, part, quote, body);
      assert raw[1..] == body + ([quote] + rest);
      QuoteFound(raw, 1, quote, body, rest);
      assert raw[..|body| + 2] == text && raw[|body| + 2..] == rest;
      assert body == "" || body[0] != quote by { ClosedStart(body, quote); }
      TomlEscapes.OneLineString(body, quote);
    }
  }

  lemma ClosedStart(body: Bytes, quote: char)
    requires Closed(body, quote) && quote in {'"', '\''}
    ensures body == "" || body[0] != quote
  {}

  lemma SegmentOf(raw: Bytes) returns (text: Bytes)
    requires raw != [] && ParseSegment(raw).Some?
    ensures var (part, rest) := ParseSegment(raw).value; raw == text + rest && Names(text, part)
  {
    hide TomlString.ParseString, TomlEscapes.Body, QuoteEnd, BareEnd;
    var (part, rest) := ParseSegment(raw).value;
    if raw[0] == '\'' || raw[0] == '"' {
      var quote, end := raw[0], QuoteEnd(raw, raw[0], 1);
      var body := raw[1..end];
      text := raw[..end + 1];
      QuoteCloses(raw, 1, quote);
      assert text == [quote] + body + [quote];
      assert body == "" || body[0] != quote by { ClosedStart(body, quote); }
      TomlEscapes.OneLineString(body, quote);
      assert QuotedAs(text, part, quote, body);
    } else {
      text := raw[..BareEnd(raw, 0)];
      forall i | 0 <= i < |text| ensures BareCode(text[i] as int) { assert IsBareKeyChar(text[i]); }
    }
  }

  // ---------------------------------------------------------------- keys

  /** A segment with the blanks around it. */
  datatype Seg = Seg(before: Bytes, text: Bytes, part: Bytes, after: Bytes)

  predicate Blanks(b: Bytes) { forall i | 0 <= i < |b| :: b[i] as int in {0x20, 0x09} }

  predicate Spaces(b: Bytes) { forall i | 0 <= i < |b| :: b[i] as int in {0x20, 0x09, 0x0A, 0x0D} }

  ghost predicate SegOk(s: Seg) { Blanks(s.before) && Names(s.text, s.part) && Blanks(s.after) }

  ghost predicate SegsOk(ss: seq<Seg>) { ss != [] && forall i | 0 <= i < |ss| :: SegOk(ss[i]) }

  function KeyText(ss: seq<Seg>): Bytes
    requires ss != []
  {
    var s := ss[0];
    s.before + (s.text + (s.after + if |ss| == 1 then "" else "." + KeyText(ss[1..])))
  }

  function Parts(ss: seq<Seg>): seq<Bytes> { seq(|ss|, i requires 0 <= i < |ss| => ss[i].part) }

  lemma {:induction false} BlanksPassed(b: Bytes, rest: Bytes)
    requires Blanks(b) && (rest == "" || !IsBlank(rest[0]))
    ensures TrimLeftBlanks(b + rest) == rest
    decreases |b|
  {
    BlanksOver(b, rest, 0);
    assert (b + rest)[|b|..] == rest;
  }

  lemma {:induction false} BlanksOver(b: Bytes, rest: Bytes, i: nat)
    requires Blanks(b) && (rest == "" || !IsBlank(rest[0])) && i <= |b|
    ensures BlankEnd(b + rest, i) == |b|
    decreases |b| - i
  {
    if i < |b| { assert (b + rest)[i] == b[i]; BlanksOver(b, rest, i + 1); }
  }

  lemma TrimmedBlanks(b: Bytes) returns (lead: Bytes)
    ensures Blanks(lead) && b == lead + TrimLeftBlanks(b)
  {
    lead := b[..BlankEnd(b, 0)];
    assert forall i | 0 <= i < |lead| :: IsBlank(lead[i]);
  }

  lemma KeyStarts(ss: seq<Seg>)
    requires SegsOk(ss)
    ensures var t := KeyText(ss); t != "" && TrimLeftBlanks(t) != "" && !IsBlank(TrimLeftBlanks(t)[0])
  {
    hide Names, BlankEnd;
    var s := ss[0];
    var rest := s.text + (s.after + if |ss| == 1 then "" else "." + KeyText(ss[1..]));
    SegmentRead(s.text, s.part, "");
    BlanksPassed(s.before, rest);
  }

  lemma RoundRead(ss: seq<Seg>)
    requires SegsOk(ss)
    ensures ParseRound(KeyText(ss)) == if |ss| == 1 then Last(ss[0].part) else More(ss[0].part, KeyText(ss[1..]))
  {
    hide Names, TrimLeftBlanks, ParseSegment, BlankEnd;
    var s := ss[0];
    var tail := if |ss| == 1 then "" else "." + KeyText(ss[1..]);
    assert s.after + tail == "" || Separates(s.after + tail) by { SeparatedBy(s.after, tail); }
    SegmentRead(s.text, s.part, s.after + tail);
    BlanksPassed(s.before, s.text + (s.after + tail));
    BlanksPassed(s.after, tail);
    if |ss| > 1 {
      assert SegsOk(ss[1..]);
      KeyStarts(ss[1..]);
      assert tail[1..] == KeyText(ss[1..]);
    }
  }

  lemma SeparatedBy(after: Bytes, tail: Bytes)
    requires Blanks(after) && (tail == "" || tail[0] == '.')
    ensures Separates(after + tail)
  {}

  lemma {:induction false} SegmentsRead(ss: seq<Seg>)
    requires SegsOk(ss)
    ensures ParseSegments(KeyText(ss)) == Some(Parts(ss))
    decreases |ss|
  {
    hide Names, ParseRound, KeyText;
    RoundRead(ss);
    if |ss| > 1 {
      assert SegsOk(ss[1..]);
      SegmentsRead(ss[1..]);
      assert Parts(ss) == [ss[0].part] + Parts(ss[1..]);
    } else {
      assert Parts(ss) == [ss[0].part];
    }
  }

  lemma {:induction false} SegmentsOf(raw: Bytes) returns (ss: seq<Seg>)
    requires ParseSegments(raw).Some? && ParseSegments(raw).value != []
    ensures SegsOk(ss) && raw == KeyText(ss) && Parts(ss) == ParseSegments(raw).value
    decreases |raw|
  {
    hide Names, TrimLeftBlanks, ParseSegment, BlankEnd;
    var before := TrimmedBlanks(raw);
    var r := TrimLeftBlanks(raw);
    var (part, rest) := ParseSegment(r).value;
    var text := SegmentOf(r);
    var after := TrimmedBlanks(rest);
    var s := Seg(before, text, part, after);
    var tail := TrimLeftBlanks(rest);
    if tail == [] {
      ss := [s];
      assert rest == after + "" && raw == before + (text + (after + ""));
    } else {
      NotEmpty(tail[1..]);
      var more := SegmentsOf(tail[1..]);
      ss := [s] + more;
      assert ss[1..] == more && tail == "." + tail[1..];
      assert Parts(ss) == [part] + Parts(more);
    }
  }

  lemma NotEmpty(raw: Bytes)
    requires TrimLeftBlanks(raw) != [] && ParseSegments(raw).Some?
    ensures ParseSegments(raw).value != []
  {}

  // ---------------------------------------------------------------- trimmed keys

  lemma {:induction false} PadTrimmed(lead: Bytes, key: Bytes, trail: Bytes)
    requires Spaces(lead) && Spaces(trail) && Tight(key)
    ensures TrimSpace(lead + key + trail) == key
    decreases |lead| + |trail|
  {
    var raw := lead + key + trail;
    if lead != "" {
      assert raw[1..] == lead[1..] + key + trail;
      PadTrimmed(lead[1..], key, trail);
    } else if trail != "" {
      assert raw[..|raw| - 1] == lead + key + trail[..|trail| - 1];
      assert raw[0] == key[0];
      PadTrimmed(lead, key, trail[..|trail| - 1]);
    } else {
      assert raw == key;
    }
  }

  lemma {:induction false} PadOf(raw: Bytes) returns (lead: Bytes, trail: Bytes)
    ensures Spaces(lead) && Spaces(trail) && raw == lead + TrimSpace(raw) + trail
    ensures TrimSpace(raw) == "" || Tight(TrimSpace(raw))
    decreases |raw|
  {
    if raw != [] && IsSpace(raw[0]) {
      lead, trail := PadOf(raw[1..]);
      lead := [raw[0]] + lead;
      assert raw == [raw[0]] + raw[1..];
    } else if raw != [] && IsSpace(raw[|raw| - 1]) {
      lead, trail := PadOf(raw[..|raw| - 1]);
      trail := trail + [raw[|raw| - 1]];
      assert raw == raw[..|raw| - 1] + [raw[|raw| - 1]];
    } else {
      lead, trail := "", "";
      assert raw == "" + raw + "";
    }
  }

  /** `raw` is the segments `ss`, with any white space around the whole. */
  ghost predicate SpelledBy(raw: Bytes, lead: Bytes, ss: seq<Seg>, trail: Bytes) {
    Spaces(lead) && Spaces(trail) && SegsOk(ss) && Tight(KeyText(ss)) && raw == lead + KeyText(ss) + trail
  }

  ghost predicate Spelled(raw: Bytes, parts: seq<Bytes>) {
    exists lead, ss, trail :: SpelledBy(raw, lead, ss, trail) && parts == Parts(ss)
  }

  /** A key parses to the parts exactly if its segments spell them. */
  lemma DottedKeyExactly(raw: Bytes, parts: seq<Bytes>)
    ensures ParseDottedKey(raw) == Some(parts) <==> Spelled(raw, parts)
  {
    hide ParseSegments, TrimSpace, KeyText, SegOk, Spaces;
    if ParseDottedKey(raw) == Some(parts) {
      var lead, trail := PadOf(raw);
      assert TrimSpace(raw) != "" by { NoSegments(TrimSpace(raw)); }
      var ss := SegmentsOf(TrimSpace(raw));
      assert SpelledBy(raw, lead, ss, trail) && parts == Parts(ss);
    }
    if Spelled(raw, parts) {
      var lead, ss, trail :| SpelledBy(raw, lead, ss, trail) && parts == Parts(ss);
      PadTrimmed(lead, KeyText(ss), trail);
      SegmentsRead(ss);
      assert parts != [] by { SomeParts(ss); }
    }
  }

  lemma NoSegments(raw: Bytes)
    ensures raw == "" ==> ParseSegments(raw) == Some([])
  {}

  lemma SomeParts(ss: seq<Seg>)
    requires SegsOk(ss)
    ensures Parts(ss) != []
  {
    assert |Parts(ss)| == |ss|;
  }

  // ---------------------------------------------------------------- blanks around a key

  function CutBefore(ss: seq<Seg>): (t: seq<Seg>)
    requires ss != []
    ensures |t| == |ss|
  {
    ss[0 := ss[0].(before := "")]
  }

  function CutAfter(ss: seq<Seg>): (t: seq<Seg>)
    requires ss != []
    ensures |t| == |ss|
  {
    ss[|ss| - 1 := ss[|ss| - 1].(after := "")]
  }

  /** The segments without the blanks at either end. */
  function Cut(ss: seq<Seg>): (t: seq<Seg>)
    requires ss != []
    ensures |t| == |ss|
  {
    CutAfter(CutBefore(ss))
  }

  lemma CutKeeps(ss: seq<Seg>)
    requires SegsOk(ss)
    ensures SegsOk(CutBefore(ss)) && Parts(CutBefore(ss)) == Parts(ss)
    ensures SegsOk(CutAfter(ss)) && Parts(CutAfter(ss)) == Parts(ss)
    ensures CutBefore(ss)[|ss| - 1].after == ss[|ss| - 1].after
  {
    hide Names;
    var b, a := CutBefore(ss), CutAfter(ss);
    assert forall i | 0 <= i < |b| :: SegOk(b[i]);
    assert forall i | 0 <= i < |a| :: SegOk(a[i]);
    assert Parts(b) == Parts(ss) && Parts(a) == Parts(ss);
  }

  lemma {:induction false} CutRight(ss: seq<Seg>)
    requires SegsOk(ss)
    ensures var t := KeyText(CutAfter(ss));
      KeyText(ss) == t + ss[|ss| - 1].after && t != "" && !IsSpace(t[|t| - 1])
    decreases |ss|
  {
    hide Names, KeyText, CutAfter, IsSpace;
    if |ss| == 1 {
      SegmentRead(ss[0].text, ss[0].part, "");
      OneSegment(ss[0]);
      assert ss == [ss[0]];
    } else {
      assert SegsOk(ss[1..]);
      CutRight(ss[1..]);
      CutMore(ss, KeyText(CutAfter(ss[1..])));
    }
  }

  lemma CutMore(ss: seq<Seg>, tail: Bytes)
    requires |ss| > 1 && tail == KeyText(CutAfter(ss[1..])) && tail != ""
    requires KeyText(ss[1..]) == tail + ss[|ss| - 1].after
    ensures var t := KeyText(CutAfter(ss));
      KeyText(ss) == t + ss[|ss| - 1].after && t != "" && t[|t| - 1] == tail[|tail| - 1]
  {
    hide KeyText;
    var c := CutAfter(ss);
    assert c[1..] == CutAfter(ss[1..]) && c[0] == ss[0];
    KeyCons(ss);
    KeyCons(c);
    KeyMore(ss[0], tail, ss[|ss| - 1].after);
  }

  lemma KeyCons(ss: seq<Seg>)
    requires |ss| > 1
    ensures KeyText(ss) == ss[0].before + (ss[0].text + (ss[0].after + ("." + KeyText(ss[1..]))))
  {}

  lemma OneSegment(s: Seg)
    requires s.text != "" && !IsSpace(s.text[|s.text| - 1])
    ensures var t := KeyText(CutAfter([s]));
      KeyText([s]) == t + s.after && t != "" && !IsSpace(t[|t| - 1])
  {
    assert CutAfter([s]) == [s.(after := "")];
    assert s.text + ("" + "") == s.text && s.after + "" == s.after;
    assert KeyText([s.(after := "")]) == s.before + s.text;
  }

  lemma KeyMore(s: Seg, tail: Bytes, after: Bytes)
    ensures s.before + (s.text + (s.after + ("." + (tail + after))))
            == s.before + (s.text + (s.after + ("." + tail))) + after
  {}

  lemma CutText(ss: seq<Seg>)
    requires SegsOk(ss)
    ensures var t := Cut(ss);
      && SegsOk(t) && Parts(t) == Parts(ss) && Tight(KeyText(t))
      && KeyText(ss) == ss[0].before + KeyText(t) + ss[|ss| - 1].after
  {
    hide SegsOk, KeyText, CutBefore, CutAfter, Cut, Parts, Tight;
    CutStays(ss);
    CutGlued(ss);
  }

  lemma CutStays(ss: seq<Seg>)
    requires SegsOk(ss)
    ensures SegsOk(Cut(ss)) && Parts(Cut(ss)) == Parts(ss)
  {
    hide SegOk, CutBefore, CutAfter, Parts;
    CutKeeps(ss);
    CutKeeps(CutBefore(ss));
  }

  lemma CutGlued(ss: seq<Seg>)
    requires SegsOk(ss)
    ensures Tight(KeyText(Cut(ss))) && KeyText(ss) == ss[0].before + KeyText(Cut(ss)) + ss[|ss| - 1].after
  {
    hide SegOk, KeyText, CutBefore, CutAfter, IsSpace, Tight;
    var f := CutBefore(ss);
    var after := f[|ss| - 1].after;
    assert SegsOk(f) && after == ss[|ss| - 1].after by { CutKeeps(ss); }
    var whole, rest, key := KeyText(ss), KeyText(f), KeyText(CutAfter(f));
    assert whole == ss[0].before + rest && !IsSpace(rest[0]) by { FirstBlanks(ss); }
    assert rest == key + after && key != "" && !IsSpace(key[|key| - 1]) by { CutRight(f); }
    Glued(whole, ss[0].before, rest, key, after);
  }

  lemma Glued(whole: Bytes, before: Bytes, rest: Bytes, key: Bytes, after: Bytes)
    requires whole == before + rest && rest == key + after && key != ""
    requires !IsSpace(rest[0]) && !IsSpace(key[|key| - 1])
    ensures Tight(key) && whole == before + key + after
  {
    Regroup(before, key, after);
  }

  lemma FirstBlanks(ss: seq<Seg>)
    requires SegsOk(ss)
    ensures var f := KeyText(CutBefore(ss)); KeyText(ss) == ss[0].before + f && f != "" && !IsSpace(f[0])
  {
    hide Names;
    var f := CutBefore(ss);
    assert f[1..] == ss[1..];
    SegmentRead(ss[0].text, ss[0].part, "");
  }

  /** Trimmed of white space, the key still parses to its parts. */
  lemma TrimmedParses(ss: seq<Seg>)
    requires SegsOk(ss)
    ensures ParseDottedKey(KeyText(ss)) == Some(Parts(ss)) && ParseDottedKey(TrimSpace(KeyText(ss))) == Some(Parts(ss))
  {
    hide ParseDottedKey, TrimSpace, KeyText, SegOk, Tight;
    var t := Cut(ss);
    CutText(ss);
    var lead, trail := ss[0].before, ss[|ss| - 1].after;
    assert Spaces(lead) && Spaces(trail) by { BlanksAreSpaces(ss[0]); BlanksAreSpaces(ss[|ss| - 1]); }
    PadTrimmed(lead, KeyText(t), trail);
    assert SpelledBy(KeyText(ss), lead, t, trail);
    DottedKeyExactly(KeyText(ss), Parts(ss));
    assert KeyText(t) == "" + KeyText(t) + "";
    assert SpelledBy(KeyText(t), "", t, "");
    DottedKeyExactly(KeyText(t), Parts(ss));
  }

  lemma BlanksAreSpaces(s: Seg)
    requires SegOk(s)
    ensures Spaces(s.before) && Spaces(s.after)
  {}

  /** The printer leaves a key bare exactly if its bytes allow it. */
  lemma BareWhenPossible(k: Bytes)
    ensures FormatKey(k) == k <==> BareText(k)
    ensures TomlString.Printable(k) ==> Names(FormatKey(k), k)
  {
    assert IsSimpleBareKey(k) <==> BareText(k) by { SameBare(k); }
    if !IsSimpleBareKey(k) {
      LongerQuoted(k);
      if TomlString.Printable(k) { PrintedIsQuoted(k); }
    }
  }

  lemma SameBare(k: Bytes)
    ensures IsSimpleBareKey(k) <==> BareText(k)
  {
    assert forall c: char :: IsBareKeyChar(c) <==> BareCode(c as int);
  }

  lemma LongerQuoted(k: Bytes)
    ensures |TomlString.Quoted(k)| > |k|
  {
    EscapedLonger(k);
  }

  lemma {:induction false} EscapedLonger(k: Bytes)
    ensures |TomlString.Escaped(k)| >= |k|
  {
    if k != [] { EscapedLonger(k[1..]); }
  }

  lemma {:induction false} EscapedCloses(k: Bytes)
    ensures Closed(TomlString.Escaped(k), '"')
  {
    if k != [] {
      var head, tail := TomlString.EscapedByte(k[0]), TomlString.Escaped(k[1..]);
      EscapedCloses(k[1..]);
      assert TomlString.Escaped(k)[|head|..] == tail;
    }
  }

  lemma PrintedIsQuoted(k: Bytes)
    requires TomlString.Printable(k)
    ensures QuotedAs(TomlString.Quoted(k), k, '"', TomlString.Escaped(k))
  {
    hide TomlString.DecodeBody;
    EscapedCloses(k);
    assert TomlString.Escaped(k)[0..] == TomlString.Escaped(k);
    TomlString.DecodeEscaped(TomlString.Escaped(k), 0, k);
    assert "\"" + TomlString.Escaped(k) + "\"" == ['"'] + TomlString.Escaped(k) + ['"'];
  }
}
