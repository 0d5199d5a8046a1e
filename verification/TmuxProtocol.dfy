/** The control-mode line parser of pkg/tmux/protocol.go: guarded response blocks and notifications. */
module TmuxProtocol {
  import opened Text
  import Decimal

  datatype Marker = Marker(time: int, command: int, flags: int)

  datatype Response = Response(begin: Marker, end: Marker, lines: seq<Bytes>, isError: bool)

  datatype Message = Nothing | Answer(response: Response) | Notification(raw: Bytes) | ProtocolError(line: Bytes)

  // ---------------------------------------------------------------- fields and numbers

  predicate IsSpace(c: char) { c == ' ' || '\t' <= c <= '\r' }

  /** `strings.Fields` on ASCII text; `word` is the field being read. */
  function Words(s: Bytes, word: Bytes): seq<Bytes>
    decreases |s|
  {
    if s == "" then (if word == "" then [] else [word])
    else if !IsSpace(s[0]) then Words(s[1..], word + [s[0]])
    else if word == "" then Words(s[1..], "")
    else [word] + Words(s[1..], "")
  }

  function Fields(s: Bytes): seq<Bytes> { Words(s, "") }

  predicate IsWord(w: Bytes) { forall i | 0 <= i < |w| :: !IsSpace(w[i]) }

  lemma {:induction false} WordsRead(word: Bytes, w: Bytes, rest: Bytes)
    requires IsWord(w) && word + w != ""
    ensures Words(w + (" " + rest), word) == [word + w] + Words(rest, "")
    ensures Words(w, word) == [word + w]
    decreases |w|
  {
    if w == "" {
      assert w + (" " + rest) == " " + rest;
      assert (" " + rest)[1..] == rest;
      assert word + w == word;
    } else {
      assert (w + (" " + rest))[1..] == w[1..] + (" " + rest);
      assert (word + [w[0]]) + w[1..] == word + w;
      WordsRead(word + [w[0]], w[1..], rest);
    }
  }

  const INT64_MAX := 0x7fff_ffff_ffff_ffff

  /** `strconv.ParseInt(s, 10, 64)`. */
  function ParseInt(s: Bytes): Option<int> {
    var negative := s != "" && s[0] == '-';
    var digits := if negative || (s != "" && s[0] == '+') then s[1..] else s;
    if digits == "" || !Decimal.AllDigits(digits) then None
    else
      var n: int := Decimal.Value(digits);
      if negative then (if n > INT64_MAX + 1 then None else Some(-n))
      else (if n > INT64_MAX then None else Some(n))
  }

  /** The text denotes the number: an optional sign, digits, and a value of 64 bits. */
  ghost predicate Denotes(s: Bytes, n: int) {
    && -0x8000_0000_0000_0000 <= n < 0x8000_0000_0000_0000
    && exists sign, digits :: s == sign + digits && Signed(sign, digits, n)
  }

  predicate Signed(sign: Bytes, digits: Bytes, n: int) {
    && sign in {"", "+", "-"} && digits != "" && Decimal.AllDigits(digits)
    && n == (if sign == "-" then 0 - Decimal.Value(digits) else Decimal.Value(digits))
  }

  /** A number is read exactly from the texts that denote it. */
  lemma ParseIntExactly(s: Bytes, n: int)
    ensures ParseInt(s) == Some(n) <==> Denotes(s, n)
  {
    hide Decimal.Value;
    if ParseInt(s) == Some(n) {
      var sign := if s[0] == '-' then "-" else if s[0] == '+' then "+" else "";
      var digits := s[|sign|..];
      assert s == sign + digits && Signed(sign, digits, n);
    }
    if Denotes(s, n) {
      var sign, digits :| s == sign + digits && Signed(sign, digits, n);
      assert IsDigit(digits[0]);
      assert s[|sign|..] == digits;
    }
  }

  // White space of ASCII, by its codes.
  predicate Blanks(gap: Bytes) { forall i | 0 <= i < |gap| :: gap[i] as int in {9, 10, 11, 12, 13, 32} }

  predicate Solid(w: Bytes) { w != "" && forall i | 0 <= i < |w| :: w[i] as int !in {9, 10, 11, 12, 13, 32} }

  /** Words with white space around them; `gaps[i]` stands before word `i`. */
  function Woven(gaps: seq<Bytes>, words: seq<Bytes>, end: Bytes): Bytes
    requires |gaps| == |words|
  {
    if words == [] then end else gaps[0] + (words[0] + Woven(gaps[1..], words[1..], end))
  }

  predicate Weave(gaps: seq<Bytes>, words: seq<Bytes>, end: Bytes) {
    && |gaps| == |words| && Blanks(end)
    && (forall i | 0 <= i < |words| :: Solid(words[i]) && Blanks(gaps[i]))
    && (forall i | 0 < i < |words| :: gaps[i] != "")
  }

  lemma {:induction false} GapSkipped(gap: Bytes, rest: Bytes)
    requires Blanks(gap)
    ensures Words(gap + rest, "") == Words(rest, "")
    decreases |gap|
  {
    if gap == "" {
      assert gap + rest == rest;
    } else {
      assert (gap + rest)[1..] == gap[1..] + rest;
      GapSkipped(gap[1..], rest);
    }
  }

  lemma {:induction false} WordTaken(word: Bytes, w: Bytes, rest: Bytes)
    requires word + w != "" && (forall i | 0 <= i < |w| :: w[i] as int !in {9, 10, 11, 12, 13, 32})
    requires rest == "" || rest[0] as int in {9, 10, 11, 12, 13, 32}
    ensures Words(w + rest, word) == [word + w] + Words(rest, "")
    decreases |w|
  {
    if w == "" {
      assert w + rest == rest && word + w == word;
      if rest != "" { assert [rest[0]] + rest[1..] == rest; }
    } else {
      assert (w + rest)[1..] == w[1..] + rest;
      assert (word + [w[0]]) + w[1..] == word + w;
      WordTaken(word + [w[0]], w[1..], rest);
    }
  }

  /** Whatever white space is around and between words, the fields are the words. */
  lemma {:induction false} FieldsOfWoven(gaps: seq<Bytes>, words: seq<Bytes>, end: Bytes)
    requires Weave(gaps, words, end)
    ensures Fields(Woven(gaps, words, end)) == words
    decreases |words|
  {
    hide Words;
    if words == [] {
      GapSkipped(end, "");
      assert end + "" == end && Words("", "") == [] by { NoWords(); }
    } else {
      var rest := Woven(gaps[1..], words[1..], end);
      assert Weave(gaps[1..], words[1..], end);
      FieldsOfWoven(gaps[1..], words[1..], end);
      GapSkipped(gaps[0], words[0] + rest);
      WovenStart(gaps[1..], words[1..], end, if |words| > 1 then gaps[1] else "");
      assert "" + words[0] == words[0];
      WordTaken("", words[0], rest);
      assert words == [words[0]] + words[1..];
    }
  }

  lemma NoWords()
    ensures Words("", "") == []
  {}

  lemma WovenStart(gaps: seq<Bytes>, words: seq<Bytes>, end: Bytes, gap: Bytes)
    requires Weave(gaps, words, end) && (words != [] ==> gap == gaps[0] != "")
    ensures var t := Woven(gaps, words, end); t == "" || t[0] as int in {9, 10, 11, 12, 13, 32}
  {}

  lemma ParsePrinted(n: nat)
    requires n <= INT64_MAX
    ensures ParseInt(Decimal.Itoa(n)) == Some(n) && IsWord(Decimal.Itoa(n)) && Decimal.Itoa(n) != ""
  {
    hide Decimal.Itoa, Decimal.Value;
    Decimal.ValueOfItoa(n);
    var s := Decimal.Itoa(n);
    assert IsDigit(s[0]);
  }

  // ---------------------------------------------------------------- markers

  function ParseMarker(fields: seq<Bytes>, prefix: Bytes): Option<Marker> {
    if |fields| != 4 || fields[0] != prefix then None else
      var time :- ParseInt(fields[1]);
      var command :- ParseInt(fields[2]);
      var flags :- ParseInt(fields[3]);
      Some(Marker(time, command, flags))
  }

  datatype Opening = Opens(begin: Marker) | Malformed | NotABegin

  function ParseBegin(line: Bytes): Opening {
    var fields := Fields(line);
    if fields == [] || fields[0] != "%begin" then NotABegin
    else
      var m := ParseMarker(fields, "%begin");
      if m.None? then Malformed else Opens(m.value)
  }

  /** Whether the line ends a block, with an error or not. */
  function ParseTerminator(line: Bytes): Option<(bool, Marker)> {
    var fields := Fields(line);
    if fields == [] then None
    else if fields[0] == "%end" then (var m :- ParseMarker(fields, "%end"); Some((false, m)))
    else if fields[0] == "%error" then (var m :- ParseMarker(fields, "%error"); Some((true, m)))
    else None
  }

  predicate SameIdentity(a: Marker, b: Marker) { a.command == b.command && a.time == b.time }

  /** The line closes the block opened by `begin`. */
  predicate Closes(line: Bytes, begin: Marker) {
    var t := ParseTerminator(line);
    t.Some? && SameIdentity(begin, t.value.1)
  }

  /** The line is a terminator that names the block: the word, and three numbers of which the first two
      are the block's. */
  ghost predicate Terminates(line: Bytes, time: int, command: int) {
    var f := Fields(line);
    && |f| == 4 && f[0] in {"%end", "%error"}
    && Denotes(f[1], time) && Denotes(f[2], command) && exists flags :: Denotes(f[3], flags)
  }

  lemma ClosesExactly(line: Bytes, begin: Marker)
    ensures Closes(line, begin) <==> Terminates(line, begin.time, begin.command)
  {
    hide Denotes, ParseInt, Fields;
    var f := Fields(line);
    if |f| == 4 {
      ParseIntExactly(f[1], begin.time);
      ParseIntExactly(f[2], begin.command);
      if flags :| Denotes(f[3], flags) { ParseIntExactly(f[3], flags); }
      if ParseInt(f[3]).Some? { ParseIntExactly(f[3], ParseInt(f[3]).value); }
      assert ParseInt(f[3]).Some? <==> exists flags :: Denotes(f[3], flags);
    }
  }

  // ---------------------------------------------------------------- the parser

  datatype Builder = Builder(begin: Marker, lines: seq<Bytes>)

  type Active = Option<Builder>

  predicate IsNotification(line: Bytes) { line != "" && line[0] == '%' && line != "%" && line[1] != ' ' }

  function FeedIdle(line: Bytes): (Message, Active) {
    match ParseBegin(line)
    case Opens(m) => (Nothing, Some(Builder(m, [])))
    case Malformed => (ProtocolError(line), None)
    case NotABegin => (if IsNotification(line) then Notification(line) else ProtocolError(line), None)
  }

  function FeedActive(b: Builder, line: Bytes): (Message, Active) {
    if Closes(line, b.begin) then
      var t := ParseTerminator(line).value;
      (Answer(Response(b.begin, t.1, b.lines, t.0)), None)
    else (Nothing, Some(b.(lines := b.lines + [line])))
  }

  function Feed(active: Active, line: Bytes): (Message, Active) {
    if line == "" then (Nothing, active)
    else if active.Some? then FeedActive(active.value, line)
    else FeedIdle(line)
  }

  /** The line opens the block of `m`: the word and three numbers. */
  ghost predicate Begins(line: Bytes, m: Marker) {
    var f := Fields(line);
    |f| == 4 && f[0] == "%begin" && Denotes(f[1], m.time) && Denotes(f[2], m.command) && Denotes(f[3], m.flags)
  }

  predicate BeginWord(line: Bytes) { Fields(line) != [] && Fields(line)[0] == "%begin" }

  lemma BeginExactly(line: Bytes, m: Marker)
    ensures ParseBegin(line) == Opens(m) <==> Begins(line, m)
  {
    hide Denotes, ParseInt, Fields;
    var f := Fields(line);
    if |f| == 4 {
      ParseIntExactly(f[1], m.time);
      ParseIntExactly(f[2], m.command);
      ParseIntExactly(f[3], m.flags);
    }
  }

  /** Outside a block a line opens one, is a notification (a percent sign and a name), or is an error; a
      line that starts like an opening and is none is an error too. */
  lemma IdleExactly(line: Bytes)
    requires line != ""
    ensures forall m :: Begins(line, m) ==> Feed(None, line) == (Nothing, Some(Builder(m, [])))
    ensures BeginWord(line) && (forall m :: !Begins(line, m)) ==> Feed(None, line) == (ProtocolError(line), None)
    ensures !BeginWord(line) ==>
      Feed(None, line)
      == (if |line| >= 2 && line[0] == '%' && line[1] != ' ' then Notification(line) else ProtocolError(line), None)
  {
    hide Begins, Fields, ParseMarker;
    forall m ensures ParseBegin(line) == Opens(m) <==> Begins(line, m) { BeginExactly(line, m); }
    if ParseBegin(line).Opens? { assert Begins(line, ParseBegin(line).begin); }
  }

  class Parser {
    var active: Active

    constructor ()
      ensures active == None
    { active := None; }

    method FeedLine(line: Bytes) returns (message: Message)
      modifies this
      ensures (message, active) == Feed(old(active), line)
    {
      hide ParseTerminator, ParseBegin;
      if line == "" { return Nothing; }
      if active.Some? {
        var b := active.value;
        var t := ParseTerminator(line);
        if t.Some? && SameIdentity(b.begin, t.value.1) {
          active := None;
          return Answer(Response(b.begin, t.value.1, b.lines, t.value.0));
        }
        active := Some(b.(lines := b.lines + [line]));
        return Nothing;
      }
      match ParseBegin(line)
      case Opens(m) =>
        active := Some(Builder(m, []));
        return Nothing;
      case Malformed => return ProtocolError(line);
      case NotABegin =>
        if IsNotification(line) { return Notification(line); }
        return ProtocolError(line);
    }

    /** The input ended: an error exactly inside a block. */
    method Eof() returns (ok: bool)
      ensures ok == active.None?
    {
      return active.None?;
    }
  }

  function Report(m: Message): seq<Message> { if m.Nothing? then [] else [m] }

  /** What the parser reports for a list of lines, and its state after them. */
  function Messages(active: Active, lines: seq<Bytes>): seq<Message>
    decreases |lines|
  {
    if lines == [] then [] else
      var (m, next) := Feed(active, lines[0]);
      Report(m) + Messages(next, lines[1..])
  }

  function Ends(active: Active, lines: seq<Bytes>): Active
    decreases |lines|
  {
    if lines == [] then active else Ends(Feed(active, lines[0]).1, lines[1..])
  }

  lemma {:induction false} FeedAppend(active: Active, a: seq<Bytes>, b: seq<Bytes>)
    ensures Ends(active, a + b) == Ends(Ends(active, a), b)
    ensures Messages(active, a + b) == Messages(active, a) + Messages(Ends(active, a), b)
    decreases |a|
  {
    hide Feed;
    if a == [] {
      assert a + b == b;
    } else {
      assert (a + b)[1..] == a[1..] + b;
      var (m, next) := Feed(active, a[0]);
      FeedAppend(next, a[1..], b);
      Regroup(Report(m), Messages(next, a[1..]), Messages(Ends(active, a), b));
    }
  }

  // ---------------------------------------------------------------- rendering

  function MarkerLine(prefix: Bytes, time: nat, command: nat, flags: nat): Bytes {
    prefix + (" " + (Decimal.Itoa(time) + (" " + (Decimal.Itoa(command) + (" " + Decimal.Itoa(flags))))))
  }

  /** A guarded response as tmux sends it, or a notification line. */
  datatype Item =
    | Block(time: nat, command: nat, beginFlags: nat, endFlags: nat, lines: seq<Bytes>, isError: bool)
    | Note(line: Bytes)

  function BeginOf(x: Item): Marker
    requires x.Block?
  { Marker(x.time, x.command, x.beginFlags) }

  /** Numbers fit 64 bits; no payload line closes the block; a notification is one. */
  ghost predicate ItemOk(x: Item) {
    match x
    case Block(time, command, bf, ef, lines, _) =>
      && time <= INT64_MAX && command <= INT64_MAX && bf <= INT64_MAX && ef <= INT64_MAX
      && forall i | 0 <= i < |lines| :: !Terminates(lines[i], time, command)
    case Note(line) => IsNotification(line) && ParseBegin(line).NotABegin?
  }

  function Render(x: Item): seq<Bytes> {
    match x
    case Block(time, command, bf, ef, lines, isError) =>
      [MarkerLine("%begin", time, command, bf)]
      + (lines + [MarkerLine(if isError then "%error" else "%end", time, command, ef)])
    case Note(line) => [line]
  }

  function NonEmpty(lines: seq<Bytes>): seq<Bytes> {
    if lines == [] then [] else
      NonEmpty(lines[..|lines| - 1]) + if lines[|lines| - 1] == "" then [] else [lines[|lines| - 1]]
  }

  function Meaning(x: Item): Message {
    match x
    case Block(time, command, bf, ef, lines, isError) =>
      Answer(Response(Marker(time, command, bf), Marker(time, command, ef), NonEmpty(lines), isError))
    case Note(line) => Notification(line)
  }

  // ---------------------------------------------------------------- round trip

  lemma MarkerFields(prefix: Bytes, time: nat, command: nat, flags: nat)
    requires IsWord(prefix) && prefix != "" && time <= INT64_MAX && command <= INT64_MAX && flags <= INT64_MAX
    ensures Fields(MarkerLine(prefix, time, command, flags))
            == [prefix, Decimal.Itoa(time), Decimal.Itoa(command), Decimal.Itoa(flags)]
  {
    hide Words, Decimal.Itoa, ParseInt, IsWord;
    var t, c, f := Decimal.Itoa(time), Decimal.Itoa(command), Decimal.Itoa(flags);
    ParsePrinted(time); ParsePrinted(command); ParsePrinted(flags);
    FirstField(f, "");
    FirstField(c, f);
    FirstField(t, c + (" " + f));
    FirstField(prefix, t + (" " + (c + (" " + f))));
  }

  lemma FirstField(w: Bytes, rest: Bytes)
    requires IsWord(w) && w != ""
    ensures Fields(w + (" " + rest)) == [w] + Fields(rest) && Fields(w) == [w]
  {
    assert "" + w == w;
    WordsRead("", w, rest);
  }

  lemma MarkerParses(prefix: Bytes, time: nat, command: nat, flags: nat)
    requires IsWord(prefix) && prefix != "" && time <= INT64_MAX && command <= INT64_MAX && flags <= INT64_MAX
    ensures var fields := Fields(MarkerLine(prefix, time, command, flags));
            fields != [] && fields[0] == prefix && ParseMarker(fields, prefix) == Some(Marker(time, command, flags))
    ensures MarkerLine(prefix, time, command, flags) != ""
  {
    hide Fields, Decimal.Itoa, ParseInt;
    MarkerFields(prefix, time, command, flags);
    ParsePrinted(time); ParsePrinted(command); ParsePrinted(flags);
  }

  lemma BeginFed(x: Item)
    requires x.Block? && ItemOk(x)
    ensures Feed(None, MarkerLine("%begin", x.time, x.command, x.beginFlags))
        == (Nothing, Some(Builder(BeginOf(x), [])))
  {
    hide Fields, MarkerLine, ParseMarker;
    MarkerParses("%begin", x.time, x.command, x.beginFlags);
  }

  lemma EndFed(x: Item, lines: seq<Bytes>)
    requires x.Block? && ItemOk(x)
    ensures Feed(Some(Builder(BeginOf(x), lines)),
                 MarkerLine(if x.isError then "%error" else "%end", x.time, x.command, x.endFlags))
            == (Answer(Response(BeginOf(x), Marker(x.time, x.command, x.endFlags), lines, x.isError)), None)
  {
    hide Fields, MarkerLine, ParseMarker;
    MarkerParses(if x.isError then "%error" else "%end", x.time, x.command, x.endFlags);
  }

  lemma FeedOne(active: Active, line: Bytes)
    ensures Messages(active, [line]) == Report(Feed(active, line).0) && Ends(active, [line]) == Feed(active, line).1
  {
    hide Feed;
    assert [line][1..] == [];
    assert Report(Feed(active, line).0) + [] == Report(Feed(active, line).0);
  }

  lemma {:induction false} PayloadFed(begin: Marker, lines: seq<Bytes>)
    requires forall i | 0 <= i < |lines| :: !Closes(lines[i], begin)
    ensures var active := Some(Builder(begin, []));
      Messages(active, lines) == [] && Ends(active, lines) == Some(Builder(begin, NonEmpty(lines)))
    decreases |lines|
  {
    hide Closes;
    if lines != [] {
      var head, last := lines[..|lines| - 1], lines[|lines| - 1];
      PayloadFed(begin, head);
      FeedAppend(Some(Builder(begin, [])), head, [last]);
      FeedOne(Some(Builder(begin, NonEmpty(head))), last);
      assert lines == head + [last];
      assert NonEmpty(head) + [] == NonEmpty(head);
    }
  }

  lemma ItemFed(x: Item)
    requires ItemOk(x)
    ensures Messages(None, Render(x)) == [Meaning(x)] && Ends(None, Render(x)) == None
  {
    hide Feed, Messages, Ends, Closes, MarkerLine, NonEmpty, ParseBegin;
    match x {
      case Block(time, command, bf, ef, lines, isError) =>
        var begin := MarkerLine("%begin", time, command, bf);
        var end := MarkerLine(if isError then "%error" else "%end", time, command, ef);
        var open, full := Builder(BeginOf(x), []), Builder(BeginOf(x), NonEmpty(lines));
        BeginFed(x);
        FeedOne(None, begin);
        forall i | 0 <= i < |lines| ensures !Closes(lines[i], BeginOf(x)) { ClosesExactly(lines[i], BeginOf(x)); }
        PayloadFed(BeginOf(x), lines);
        EndFed(x, NonEmpty(lines));
        FeedOne(Some(full), end);
        FeedAppend(Some(open), lines, [end]);
        FeedAppend(None, [begin], lines + [end]);
        assert [] + [Meaning(x)] == [Meaning(x)];
      case Note(line) =>
        NoteFed(line);
    }
  }

  lemma NoteFed(line: Bytes)
    requires IsNotification(line) && ParseBegin(line).NotABegin?
    ensures Messages(None, [line]) == [Notification(line)] && Ends(None, [line]) == None
  {
    hide ParseBegin, Messages, Ends;
    FeedOne(None, line);
  }

  function RenderAll(xs: seq<Item>): seq<Bytes>
    decreases |xs|
  { if xs == [] then [] else Render(xs[0]) + RenderAll(xs[1..]) }

  function MeaningAll(xs: seq<Item>): seq<Message>
    decreases |xs|
  { if xs == [] then [] else [Meaning(xs[0])] + MeaningAll(xs[1..]) }

  /** Every transcript of blocks and notifications is read back as exactly one message per item, in
      order, with the parser idle at the end; empty payload lines are lost. */
  lemma {:induction false} TranscriptRoundTrip(xs: seq<Item>)
    requires forall i | 0 <= i < |xs| :: ItemOk(xs[i])
    ensures Messages(None, RenderAll(xs)) == MeaningAll(xs) && Ends(None, RenderAll(xs)) == None
    decreases |xs|
  {
    hide ItemOk, Render, Meaning, Feed;
    if xs != [] {
      ItemFed(xs[0]);
      TranscriptRoundTrip(xs[1..]);
      FeedAppend(None, Render(xs[0]), RenderAll(xs[1..]));
    }
  }

  /** The payload comes back unchanged exactly when it has no empty line. */
  lemma {:induction false} PayloadKept(lines: seq<Bytes>)
    ensures |NonEmpty(lines)| <= |lines|
    ensures NonEmpty(lines) == lines <==> forall i | 0 <= i < |lines| :: lines[i] != ""
  {
    if lines != [] {
      var head, last := lines[..|lines| - 1], lines[|lines| - 1];
      PayloadKept(head);
      assert lines == head + [last];
      if last == "" {
        assert |NonEmpty(lines)| < |lines|;
      } else if NonEmpty(head) != head {
        assert NonEmpty(lines)[..|NonEmpty(lines)| - 1] == NonEmpty(head);
        assert lines[..|lines| - 1] == head;
      }
    }
  }
}
