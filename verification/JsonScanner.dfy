/** The scanner object of pkg/llm/codex/notification_scan.go: methods that advance `pos`. Each is
    tied to the function of the data and the old position in module JsonScan. */
module JsonScanner {
  import opened Text
  import opened JsonScan

  lemma SliceNext(b: Bytes, i: nat, j: nat)
    requires i <= j < |b|
    ensures b[i..j + 1] == b[i..j] + [b[j]]
  {}

  lemma PlainUnit(b: Bytes, i: nat)
    requires i < |b| && b[i] != '\\' && b[i] != '"'
    ensures UnitEnd(b, i) == if b[i] < ' ' then None else Some(i + 1)
  {}

  lemma SliceDiffers(b: Bytes, p: nat, t: Bytes, i: nat)
    requires i < |t| && p + |t| <= |b| && b[p + i] != t[i]
    ensures b[p..p + |t|] != t
  {
    assert b[p..p + |t|][i] == b[p + i];
  }

  class Scanner {
    const data: Bytes
    var pos: nat

    ghost predicate Valid()
      reads this
    { pos <= |data| }

    constructor (data: Bytes)
      ensures Valid() && this.data == data && pos == 0
    {
      this.data, pos := data, 0;
    }

    method SkipBlanks()
      requires Valid()
      modifies this
      ensures Valid() && pos == SkipSpace(data, old(pos))
    {
      while pos < |data| && IsWs(data[pos])
        invariant Valid() && SkipSpace(data, pos) == SkipSpace(data, old(pos))
      {
        pos := pos + 1;
      }
    }

    method ConsumeByte(c: char) returns (ok: bool)
      requires Valid()
      modifies this
      ensures Valid() && ok == Sees(data, old(pos), c)
      ensures pos == if ok then old(pos) + 1 else old(pos)
    {
      if pos >= |data| || data[pos] != c { return false; }
      pos := pos + 1;
      return true;
    }

    method ConsumeLiteral(text: Bytes) returns (ok: bool)
      requires Valid()
      modifies this
      ensures Valid()
      ensures ok == Literal(data, old(pos), text).Some?
      ensures pos == if ok then old(pos) + |text| else old(pos)
    {
      if |data| - pos < |text| { return false; }
      for i := 0 to |text|
        invariant pos == old(pos) && data[pos..pos + i] == text[..i]
      {
        if data[pos + i] != text[i] {
          SliceDiffers(data, pos, text, i);
          return false;
        }
        SliceNext(data, pos, pos + i);
        SliceNext(text, 0, i);
      }
      assert text[..|text|] == text;
      pos := pos + |text|;
      return true;
    }

    /** The escape after a backslash at `pos`. */
    method ConsumeEscape() returns (ok: bool)
      requires Valid() && pos < |data| && data[pos] == '\\'
      modifies this
      ensures Valid()
      ensures ok == UnitEnd(data, old(pos)).Some?
      ensures ok ==> UnitEnd(data, old(pos)) == Some(pos)
    {
      ghost var start := pos;
      pos := pos + 1;
      if pos >= |data| { return false; }
      if IsEscape(data[pos]) { pos := pos + 1; return true; }
      if data[pos] != 'u' { return false; }
      pos := pos + 1;
      for i := 0 to 4
        invariant Valid() && pos == start + 2 + i
        invariant forall k | start + 2 <= k < pos :: IsHex(data[k])
      {
        if pos >= |data| || !IsHex(data[pos]) { return false; }
        pos := pos + 1;
      }
      return true;
    }

    method ReadText() returns (r: Option<Token>)
      requires Valid()
      modifies this
      ensures Valid() && r == ReadString(data, old(pos))
      ensures r.Some? ==> pos == r.value.next
    {
      hide UnitEnd;
      var ok := ConsumeByte('"');
      if !ok { return None; }
      var start := pos;
      var escaped := false;
      while pos < |data|
        invariant start <= pos <= |data| && Sees(data, old(pos), '"') && start == old(pos) + 1
        invariant BodyEnd(data, pos) == BodyEnd(data, start)
        invariant escaped == ('\\' in data[start..pos])
        decreases |data| - pos
      {
        var c := data[pos];
        ghost var was := pos;
        if c == '"' {
          pos := pos + 1;
          return Some(Token(data[start..pos - 1], escaped, pos));
        }
        if c == '\\' {
          escaped := true;
          ok := ConsumeEscape();
          if !ok { return None; }
          assert data[start..pos][was - start] == '\\';
        } else {
          assert UnitEnd(data, was) == (if c < ' ' then None else Some(was + 1)) by { PlainUnit(data, was); }
          if c < ' ' { return None; }
          pos := pos + 1;
          SliceNext(data, start, was);
        }
      }
      return None;
    }

    method ConsumeDigits() returns (ok: bool)
      requires Valid()
      modifies this
      ensures Valid()
      ensures Digits(data, old(pos)) == if ok then Some(pos) else None
    {
      if pos >= |data| || !IsDigit(data[pos]) { return false; }
      while pos < |data| && IsDigit(data[pos])
        invariant Valid() && DigitsEnd(data, pos) == DigitsEnd(data, old(pos))
      {
        pos := pos + 1;
      }
      return true;
    }

    method ConsumeFraction() returns (ok: bool)
      requires Valid()
      modifies this
      ensures Valid()
      ensures Fraction(data, old(pos)) == if ok then Some(pos) else None
    {
      hide Digits;
      if pos >= |data| || data[pos] != '.' { return true; }
      pos := pos + 1;
      ok := ConsumeDigits();
    }

    method ConsumeExponent() returns (ok: bool)
      requires Valid()
      modifies this
      ensures Valid()
      ensures Exponent(data, old(pos)) == if ok then Some(pos) else None
    {
      hide Digits;
      if pos >= |data| || (data[pos] != 'e' && data[pos] != 'E') { return true; }
      pos := pos + 1;
      if pos < |data| && (data[pos] == '+' || data[pos] == '-') { pos := pos + 1; }
      ok := ConsumeDigits();
    }

    method ConsumeNumber() returns (ok: bool)
      requires Valid()
      modifies this
      ensures Valid()
      ensures SkipNumber(data, old(pos)) == if ok then Some(pos) else None
    {
      hide DigitsEnd, Fraction, Exponent;
      var start := pos;
      if pos < |data| && data[pos] == '-' { pos := pos + 1; }
      if pos >= |data| { return false; }
      if data[pos] == '0' {
        pos := pos + 1;
      } else {
        ok := ConsumeDigits();
        if !ok { return false; }
      }
      ok := ConsumeFraction();
      if !ok { return false; }
      ok := ConsumeExponent();
      if !ok { return false; }
      return pos > start;
    }

    method ConsumeValue() returns (ok: bool)
      requires Valid()
      modifies this
      ensures Valid()
      ensures SkipValue(data, old(pos)) == if ok then Some(pos) else None
      decreases |data| - pos, 1
    {
      hide SkipSpace, SkipElements, SkipMembers, SkipNumber, ReadString, Literal;
      SkipBlanks();
      if pos == |data| { return false; }
      match data[pos]
      case '"' =>
        var t := ReadText();
        return t.Some?;
      case '{' =>
        ok := ConsumeObject();
      case '[' =>
        ok := ConsumeArray();
      case 't' =>
        ok := ConsumeLiteral("true");
      case 'f' =>
        ok := ConsumeLiteral("false");
      case 'n' =>
        ok := ConsumeLiteral("null");
      case _ =>
        ok := ConsumeNumber();
    }

    method ConsumeArray() returns (ok: bool)
      requires Valid()
      modifies this
      ensures Valid()
      ensures ok ==> Sees(data, old(pos), '[') && SkipElements(data, old(pos) + 1) == Some(pos)
      ensures !ok ==> !Sees(data, old(pos), '[') || SkipElements(data, old(pos) + 1) == None
      decreases |data| - pos, 0
    {
      hide SkipSpace, SkipValue;
      ok := ConsumeByte('[');
      if !ok { return false; }
      while true
        invariant Valid() && pos > old(pos)
        invariant SkipElements(data, pos) == SkipElements(data, old(pos) + 1)
        decreases |data| - pos
      {
        SkipBlanks();
        ok := ConsumeByte(']');
        if ok { return true; }
        ok := ConsumeValue();
        if !ok { return false; }
        SkipBlanks();
        ok := ConsumeByte(']');
        if ok { return true; }
        ok := ConsumeByte(',');
        if !ok { return false; }
      }
    }

    method ConsumeKey() returns (r: Option<Token>)
      requires Valid()
      modifies this
      ensures Valid() && r == ReadKey(data, old(pos))
      ensures r.Some? ==> pos == r.value.next
    {
      hide SkipSpace, ReadString;
      r := ReadText();
      if r.None? { return; }
      SkipBlanks();
      var ok := ConsumeByte(':');
      if !ok { return None; }
      return Some(r.value.(next := pos));
    }

    method ConsumeObject() returns (ok: bool)
      requires Valid()
      modifies this
      ensures Valid()
      ensures ok ==> Sees(data, old(pos), '{') && SkipMembers(data, old(pos) + 1) == Some(pos)
      ensures !ok ==> !Sees(data, old(pos), '{') || SkipMembers(data, old(pos) + 1) == None
      decreases |data| - pos, 0
    {
      hide SkipSpace, SkipValue, ReadKey;
      ok := ConsumeByte('{');
      if !ok { return false; }
      while true
        invariant Valid() && pos > old(pos)
        invariant SkipMembers(data, pos) == SkipMembers(data, old(pos) + 1)
        decreases |data| - pos
      {
        SkipBlanks();
        ok := ConsumeByte('}');
        if ok { return true; }
        var key := ConsumeKey();
        if key.None? { return false; }
        ok := ConsumeValue();
        if !ok { return false; }
        SkipBlanks();
        ok := ConsumeByte('}');
        if ok { return true; }
        ok := ConsumeByte(',');
        if !ok { return false; }
      }
    }

    method ReadId() returns (r: Option<Token>)
      requires Valid()
      modifies this
      ensures Valid() && r == SimpleString(data, old(pos))
      ensures r.Some? ==> pos == r.value.next
    {
      hide ReadString;
      r := ReadText();
      if r.Some? && r.value.escaped { return None; }
    }

    method ReadTurnField(turn: Turn, key: Bytes) returns (r: Option<Turn>)
      requires Valid()
      modifies this
      ensures Valid()
      ensures TurnField(data, old(pos), turn, key) == if r.Some? then Some((r.value, pos)) else None
    {
      hide SimpleString, SkipValue;
      if key == "id" {
        var t := ReadId();
        return if t.Some? then Some(turn.(id := t.value.raw)) else None;
      } else if key == "turnId" {
        var t := ReadId();
        return if t.Some? then Some(turn.(turnId := t.value.raw)) else None;
      } else if key == "turn_id" {
        var t := ReadId();
        return if t.Some? then Some(turn.(turnId2 := t.value.raw)) else None;
      }
      var ok := ConsumeValue();
      return if ok then Some(turn) else None;
    }

    method ReadTurnObject() returns (r: Option<Turn>)
      requires Valid()
      modifies this
      ensures Valid()
      ensures ReadTurn(data, old(pos)) == if r.Some? then Some((r.value, pos)) else None
    {
      hide SkipSpace, ReadKey, TurnField, Literal;
      SkipBlanks();
      var ok := ConsumeLiteral("null");
      if ok { return Some(NoTurn); }
      ok := ConsumeByte('{');
      if !ok { return None; }
      ghost var first := pos;
      var turn := NoTurn;
      while true
        invariant Valid() && pos >= first
        invariant TurnRounds(data, pos, turn) == TurnRounds(data, first, NoTurn)
        decreases |data| - pos
      {
        SkipBlanks();
        ok := ConsumeByte('}');
        if ok { return Some(turn); }
        var key := ConsumeKey();
        if key.None? || key.value.escaped { return None; }
        var field := ReadTurnField(turn, key.value.raw);
        if field.None? { return None; }
        turn := field.value;
        SkipBlanks();
        ok := ConsumeByte('}');
        if ok { return Some(turn); }
        ok := ConsumeByte(',');
        if !ok { return None; }
      }
    }

    method ReadEnvelopeField(e: Envelope, key: Bytes) returns (r: Option<Envelope>)
      requires Valid()
      modifies this
      ensures Valid()
      ensures EnvelopeField(data, old(pos), e, key) == if r.Some? then Some((r.value, pos)) else None
    {
      hide SimpleString, SkipValue, ReadTurn;
      if key == "turnId" {
        var t := ReadId();
        return if t.Some? then Some(e.(turnId := t.value.raw)) else None;
      } else if key == "turn_id" {
        var t := ReadId();
        return if t.Some? then Some(e.(turnId2 := t.value.raw)) else None;
      } else if key == "turn" {
        var t := ReadTurnObject();
        return if t.Some? then Some(e.(turn := t.value)) else None;
      }
      var ok := ConsumeValue();
      return if ok then Some(e) else None;
    }

    /** The members of the outer object, after its opening brace. */
    method ReadEnvelope() returns (r: Option<Envelope>)
      requires Valid()
      modifies this
      ensures Valid()
      ensures EnvelopeRounds(data, old(pos), NoEnvelope) == if r.Some? then Some((r.value, pos)) else None
    {
      hide SkipSpace, ReadKey, EnvelopeField;
      var e := NoEnvelope;
      while true
        invariant Valid()
        invariant EnvelopeRounds(data, pos, e) == EnvelopeRounds(data, old(pos), NoEnvelope)
        decreases |data| - pos
      {
        SkipBlanks();
        var ok := ConsumeByte('}');
        if ok { return Some(e); }
        var key := ConsumeKey();
        if key.None? || key.value.escaped { return None; }
        var field := ReadEnvelopeField(e, key.value.raw);
        if field.None? { return None; }
        e := field.value;
        SkipBlanks();
        ok := ConsumeByte('}');
        if ok { return Some(e); }
        ok := ConsumeByte(',');
        if !ok { return None; }
      }
    }
  }

  /** `scanNotificationTurnID`. */
  method ScanNotificationTurnId(params: Bytes) returns (r: Option<Bytes>)
    ensures r == ScanTurnId(params)
  {
    hide SkipSpace, EnvelopeRounds, Prefer, Literal;
    var scanner := new Scanner(params);
    scanner.SkipBlanks();
    var ok := scanner.ConsumeLiteral("null");
    if ok {
      scanner.SkipBlanks();
      return if scanner.pos == |params| then Some("") else None;
    }
    ok := scanner.ConsumeByte('{');
    if !ok { return None; }
    var e := scanner.ReadEnvelope();
    if e.None? { return None; }
    scanner.SkipBlanks();
    if scanner.pos != |params| { return None; }
    return Some(Prefer(e.value));
  }
}
