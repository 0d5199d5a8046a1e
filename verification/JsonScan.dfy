/** The single-pass JSON skipper of pkg/llm/codex/notification_scan.go as functions of the data and
    a position. `None` is a failed scan. */
module JsonScan {
  import opened Text

  predicate IsWs(c: char) { c == ' ' || c == '\n' || c == '\r' || c == '\t' }

  predicate IsHex(c: char) { IsDigit(c) || 'a' <= c <= 'f' || 'A' <= c <= 'F' }

  predicate IsEscape(c: char) {
    c == '"' || c == '\\' || c == '/' || c == 'b' || c == 'f' || c == 'n' || c == 'r' || c == 't'
  }

  function SkipSpace(d: Bytes, p: nat): (q: nat)
    requires p <= |d|
    ensures p <= q <= |d|
    ensures q < |d| ==> !IsWs(d[q])
    decreases |d| - p
  {
    if p < |d| && IsWs(d[p]) then SkipSpace(d, p + 1) else p
  }

  predicate Sees(d: Bytes, p: nat, c: char) { p < |d| && d[p] == c }

  function Literal(d: Bytes, p: nat, text: Bytes): (q: Option<nat>)
    requires p <= |d|
    ensures q.Some? ==> p + |text| == q.value <= |d|
  {
    if p + |text| <= |d| && d[p..p + |text|] == text then Some(p + |text|) else None
  }

  // ---------------------------------------------------------------- strings

  /** Width of the string unit at `p`; a closing quote is not a unit. */
  function UnitEnd(d: Bytes, p: nat): (q: Option<nat>)
    requires p < |d|
    ensures q.Some? ==> p < q.value <= |d|
  {
    if d[p] == '\\' then
      if p + 1 == |d| then None
      else if IsEscape(d[p + 1]) then Some(p + 2)
      else if d[p + 1] == 'u' && p + 6 <= |d| && (forall k | p + 2 <= k < p + 6 :: IsHex(d[k])) then Some(p + 6)
      else None
    else if d[p] < ' ' || d[p] == '"' then None
    else Some(p + 1)
  }

  /** Position of the closing quote of the body that starts at `p`. */
  function BodyEnd(d: Bytes, p: nat): (q: Option<nat>)
    requires p <= |d|
    ensures q.Some? ==> p <= q.value < |d| && d[q.value] == '"'
    decreases |d| - p
  {
    if p == |d| then None
    else if d[p] == '"' then Some(p)
    else
      var q :- UnitEnd(d, p);
      BodyEnd(d, q)
  }

  datatype Token = Token(raw: Bytes, escaped: bool, next: nat)

  /** `readString`. */
  function ReadString(d: Bytes, p: nat): (r: Option<Token>)
    requires p <= |d|
    ensures r.Some? ==> p < r.value.next <= |d|
  {
    if !Sees(d, p, '"') then None else
      var e :- BodyEnd(d, p + 1);
      Some(Token(d[p + 1..e], '\\' in d[p + 1..e], e + 1))
  }

  // ---------------------------------------------------------------- numbers

  function DigitsEnd(d: Bytes, p: nat): (q: nat)
    requires p <= |d|
    ensures p <= q <= |d|
    ensures forall k | p <= k < q :: IsDigit(d[k])
    ensures q < |d| ==> !IsDigit(d[q])
    decreases |d| - p
  {
    if p < |d| && IsDigit(d[p]) then DigitsEnd(d, p + 1) else p
  }

  /** One or more digits. */
  function Digits(d: Bytes, p: nat): (q: Option<nat>)
    requires p <= |d|
    ensures q.Some? ==> p < q.value <= |d|
  {
    if p < |d| && IsDigit(d[p]) then Some(DigitsEnd(d, p)) else None
  }

  function Integer(d: Bytes, p: nat): (q: Option<nat>)
    requires p <= |d|
    ensures q.Some? ==> p < q.value <= |d|
  {
    if Sees(d, p, '0') then Some(p + 1) else Digits(d, p)
  }

  function Fraction(d: Bytes, p: nat): (q: Option<nat>)
    requires p <= |d|
    ensures q.Some? ==> p <= q.value <= |d|
  {
    if Sees(d, p, '.') then Digits(d, p + 1) else Some(p)
  }

  function Exponent(d: Bytes, p: nat): (q: Option<nat>)
    requires p <= |d|
    ensures q.Some? ==> p <= q.value <= |d|
  {
    if Sees(d, p, 'e') || Sees(d, p, 'E') then
      Digits(d, if Sees(d, p + 1, '+') || Sees(d, p + 1, '-') then p + 2 else p + 1)
    else Some(p)
  }

  function SkipNumber(d: Bytes, p: nat): (q: Option<nat>)
    requires p <= |d|
    ensures q.Some? ==> p < q.value <= |d|
  {
    var i :- Integer(d, if Sees(d, p, '-') then p + 1 else p);
    var f :- Fraction(d, i);
    Exponent(d, f)
  }

  // ---------------------------------------------------------------- values

  function SkipValue(d: Bytes, p: nat): (q: Option<nat>)
    requires p <= |d|
    ensures q.Some? ==> p < q.value <= |d|
    decreases |d| - p, 1
  {
    var s := SkipSpace(d, p);
    if s == |d| then None
    else if d[s] == '"' then (var t :- ReadString(d, s); Some(t.next))
    else if d[s] == '{' then SkipMembers(d, s + 1)
    else if d[s] == '[' then SkipElements(d, s + 1)
    else if d[s] == 't' then Literal(d, s, "true")
    else if d[s] == 'f' then Literal(d, s, "false")
    else if d[s] == 'n' then Literal(d, s, "null")
    else SkipNumber(d, s)
  }

  /** The rounds of `skipArray` after its opening bracket. */
  function SkipElements(d: Bytes, p: nat): (q: Option<nat>)
    requires p <= |d|
    ensures q.Some? ==> p < q.value <= |d|
    decreases |d| - p, 2
  {
    var s := SkipSpace(d, p);
    if Sees(d, s, ']') then Some(s + 1) else
      var v :- SkipValue(d, s);
      var t := SkipSpace(d, v);
      if Sees(d, t, ']') then Some(t + 1)
      else if Sees(d, t, ',') then SkipElements(d, t + 1)
      else None
  }

  /** A key, its colon and the position after it. */
  function ReadKey(d: Bytes, p: nat): (r: Option<Token>)
    requires p <= |d|
    ensures r.Some? ==> p < r.value.next <= |d|
  {
    var t :- ReadString(d, p);
    var s := SkipSpace(d, t.next);
    if Sees(d, s, ':') then Some(t.(next := s + 1)) else None
  }

  /** The rounds of `skipObject` after its opening brace. */
  function SkipMembers(d: Bytes, p: nat): (q: Option<nat>)
    requires p <= |d|
    ensures q.Some? ==> p < q.value <= |d|
    decreases |d| - p, 2
  {
    var s := SkipSpace(d, p);
    if Sees(d, s, '}') then Some(s + 1) else
      var k :- ReadKey(d, s);
      var v :- SkipValue(d, k.next);
      var t := SkipSpace(d, v);
      if Sees(d, t, '}') then Some(t + 1)
      else if Sees(d, t, ',') then SkipMembers(d, t + 1)
      else None
  }

  // ---------------------------------------------------------------- turn identifiers

  /** `readSimpleString`: no leading space, no escape. */
  function SimpleString(d: Bytes, p: nat): (r: Option<Token>)
    requires p <= |d|
    ensures r.Some? ==> p < r.value.next <= |d|
  {
    var t :- ReadString(d, p);
    if t.escaped then None else Some(t)
  }

  datatype Turn = Turn(id: Bytes, turnId: Bytes, turnId2: Bytes)

  const NoTurn := Turn("", "", "")

  /** The branch of `readTurnObject` on a key. */
  function TurnField(d: Bytes, p: nat, turn: Turn, key: Bytes): (r: Option<(Turn, nat)>)
    requires p <= |d|
    ensures r.Some? ==> p < r.value.1 <= |d|
  {
    if key == "id" then (var t :- SimpleString(d, p); Some((turn.(id := t.raw), t.next)))
    else if key == "turnId" then (var t :- SimpleString(d, p); Some((turn.(turnId := t.raw), t.next)))
    else if key == "turn_id" then (var t :- SimpleString(d, p); Some((turn.(turnId2 := t.raw), t.next)))
    else (var q :- SkipValue(d, p); Some((turn, q)))
  }

  function TurnRounds(d: Bytes, p: nat, turn: Turn): (r: Option<(Turn, nat)>)
    requires p <= |d|
    ensures r.Some? ==> p < r.value.1 <= |d|
    decreases |d| - p
  {
    var s := SkipSpace(d, p);
    if Sees(d, s, '}') then Some((turn, s + 1)) else
      var k :- ReadKey(d, s);
      if k.escaped then None else
      var v :- TurnField(d, k.next, turn, k.raw);
      var t := SkipSpace(d, v.1);
      if Sees(d, t, '}') then Some((v.0, t + 1))
      else if Sees(d, t, ',') then TurnRounds(d, t + 1, v.0)
      else None
  }

  /** `readTurnObject`. */
  function ReadTurn(d: Bytes, p: nat): (r: Option<(Turn, nat)>)
    requires p <= |d|
    ensures r.Some? ==> p < r.value.1 <= |d|
  {
    var s := SkipSpace(d, p);
    if Literal(d, s, "null").Some? then Some((NoTurn, s + 4))
    else if Sees(d, s, '{') then TurnRounds(d, s + 1, NoTurn)
    else None
  }

  datatype Envelope = Envelope(turnId: Bytes, turnId2: Bytes, turn: Turn)

  const NoEnvelope := Envelope("", "", NoTurn)

  function EnvelopeField(d: Bytes, p: nat, e: Envelope, key: Bytes): (r: Option<(Envelope, nat)>)
    requires p <= |d|
    ensures r.Some? ==> p < r.value.1 <= |d|
  {
    if key == "turnId" then (var t :- SimpleString(d, p); Some((e.(turnId := t.raw), t.next)))
    else if key == "turn_id" then (var t :- SimpleString(d, p); Some((e.(turnId2 := t.raw), t.next)))
    else if key == "turn" then (var t :- ReadTurn(d, p); Some((e.(turn := t.0), t.1)))
    else (var q :- SkipValue(d, p); Some((e, q)))
  }

  function EnvelopeRounds(d: Bytes, p: nat, e: Envelope): (r: Option<(Envelope, nat)>)
    requires p <= |d|
    ensures r.Some? ==> p < r.value.1 <= |d|
    decreases |d| - p
  {
    var s := SkipSpace(d, p);
    if Sees(d, s, '}') then Some((e, s + 1)) else
      var k :- ReadKey(d, s);
      if k.escaped then None else
      var v :- EnvelopeField(d, k.next, e, k.raw);
      var t := SkipSpace(d, v.1);
      if Sees(d, t, '}') then Some((v.0, t + 1))
      else if Sees(d, t, ',') then EnvelopeRounds(d, t + 1, v.0)
      else None
  }

  /** The order of preference among the identifiers found. */
  function Prefer(e: Envelope): Bytes {
    if e.turnId != "" then e.turnId
    else if e.turnId2 != "" then e.turnId2
    else if e.turn.turnId != "" then e.turn.turnId
    else if e.turn.turnId2 != "" then e.turn.turnId2
    else e.turn.id
  }

  /** `scanNotificationTurnID`. */
  function ScanTurnId(d: Bytes): Option<Bytes> {
    var s := SkipSpace(d, 0);
    if Literal(d, s, "null").Some? then (if SkipSpace(d, s + 4) == |d| then Some("") else None)
    else if !Sees(d, s, '{') then None
    else
      var r :- EnvelopeRounds(d, s + 1, NoEnvelope);
      if SkipSpace(d, r.1) == |d| then Some(Prefer(r.0)) else None
  }
}
