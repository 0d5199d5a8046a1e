/** What `scanNotificationTurnID` finds in a JSON text (pkg/llm/codex/notification_scan.go): exactly
    when the fast scan answers, and that its answer is the reference lookup. */
module JsonTurn {
  import opened Text
  import opened JsonScan
  import opened JsonText
  import JsonSound

  function KeyOf(m: Member): Bytes { UnitsText(m.key) }

  function TextOf(v: Json): Bytes { if v.Str? then UnitsText(v.units) else "" }

  // ---------------------------------------------------------------- reference lookup

  /** The text of the last member named `key`, or nothing. */
  function Latest(ms: seq<Member>, key: Bytes): Bytes {
    if ms == [] then "" else
      var m := ms[|ms| - 1];
      if KeyOf(m) == key then TextOf(m.value) else Latest(ms[..|ms| - 1], key)
  }

  function LatestTurn(ms: seq<Member>): seq<Member> {
    if ms == [] then [] else
      var m := ms[|ms| - 1];
      if KeyOf(m) == "turn" then (if m.value.Obj? then m.value.members else [])
      else LatestTurn(ms[..|ms| - 1])
  }

  function FirstNonEmpty(a: Bytes, b: Bytes): Bytes { if a != "" then a else b }

  /** The first non-empty of `turnId`, `turn_id`, `turn.turnId`, `turn.turn_id` and `turn.id`. */
  function Reference(ms: seq<Member>): Bytes {
    var turn := LatestTurn(ms);
    FirstNonEmpty(Latest(ms, "turnId"), FirstNonEmpty(Latest(ms, "turn_id"),
      FirstNonEmpty(Latest(turn, "turnId"), FirstNonEmpty(Latest(turn, "turn_id"), Latest(turn, "id")))))
  }

  predicate NamesDistinct(ms: seq<Member>) {
    forall i, j | 0 <= i < j < |ms| :: KeyOf(ms[i]) != KeyOf(ms[j])
  }

  /** With distinct names the lookup is the field a decoder into a struct fills: the text of the one
      member with that name, or nothing when there is none. */
  lemma {:induction false} LatestIsField(ms: seq<Member>, key: Bytes)
    requires NamesDistinct(ms)
    ensures forall i | 0 <= i < |ms| && KeyOf(ms[i]) == key :: Latest(ms, key) == TextOf(ms[i].value)
    ensures (forall i | 0 <= i < |ms| :: KeyOf(ms[i]) != key) ==> Latest(ms, key) == ""
  {
    hide KeyOf, TextOf;
    if ms != [] { LatestIsField(ms[..|ms| - 1], key); }
  }

  // ---------------------------------------------------------------- what the fast scan can read

  /** An identifier right after its colon, as a string without escapes. */
  predicate Simple(m: Member) { m.beforeValue == "" && m.value.Str? && !Escaped(m.value.units) }

  predicate TurnMemberReadable(m: Member) {
    && !Escaped(m.key)
    && (KeyOf(m) == "id" || KeyOf(m) == "turnId" || KeyOf(m) == "turn_id" ==> Simple(m))
  }

  predicate TurnReadable(v: Json) {
    v.Null? || (v.Obj? && forall i | 0 <= i < |v.members| :: TurnMemberReadable(v.members[i]))
  }

  predicate MemberReadable(m: Member) {
    && !Escaped(m.key)
    && (KeyOf(m) == "turnId" || KeyOf(m) == "turn_id" ==> Simple(m))
    && (KeyOf(m) == "turn" ==> TurnReadable(m.value))
  }

  // ---------------------------------------------------------------- identifiers

  /** The pieces of a member in place, as the object loops meet them. */
  predicate Placed(d: Bytes, b: nat, m: Member) {
    MemberOk(m) && At(d, b, m.beforeValue) && At(d, b + |m.beforeValue|, Print(m.value))
  }

  function ValueEnd(b: nat, m: Member): nat { b + |m.beforeValue| + |Print(m.value)| }

  lemma SimpleRead(d: Bytes, b: nat, m: Member)
    requires Placed(d, b, m)
    ensures b <= |d|
    ensures SimpleString(d, b) ==
            if Simple(m) then Some(Token(TextOf(m.value), false, ValueEnd(b, m))) else None
  {
    FirstByte(m.value);
    if m.beforeValue == "" {
      if m.value.Str? { StringRead(d, b, m.value.units); }
    }
  }

  function AssignTurn(turn: Turn, m: Member): Turn {
    if KeyOf(m) == "id" then turn.(id := TextOf(m.value))
    else if KeyOf(m) == "turnId" then turn.(turnId := TextOf(m.value))
    else if KeyOf(m) == "turn_id" then turn.(turnId2 := TextOf(m.value))
    else turn
  }

  lemma TurnFieldRead(d: Bytes, b: nat, turn: Turn, m: Member)
    requires Placed(d, b, m) && !Escaped(m.key)
    requires b <= |d| && SkipValue(d, b) == Some(ValueEnd(b, m))
    ensures TurnField(d, b, turn, KeyOf(m)) ==
            if TurnMemberReadable(m) then Some((AssignTurn(turn, m), ValueEnd(b, m))) else None
  {
    hide SimpleString, SkipValue, Escaped, UnitsText, Print;
    SimpleRead(d, b, m);
  }

  // ---------------------------------------------------------------- the turn object

  predicate AllTurnReadable(ms: seq<Member>) { forall i | 0 <= i < |ms| :: TurnMemberReadable(ms[i]) }

  function FoldTurn(turn: Turn, ms: seq<Member>): Turn
    decreases |ms|
  {
    if ms == [] then turn else FoldTurn(AssignTurn(turn, ms[0]), ms[1..])
  }

  lemma TurnStep(d: Bytes, p: nat, turn: Turn, s: nat, k: Token)
    requires p <= |d| && s == SkipSpace(d, p) && !Sees(d, s, '}') && ReadKey(d, s) == Some(k)
    ensures TurnRounds(d, p, turn) ==
      if k.escaped then None else
      var v := TurnField(d, k.next, turn, k.raw);
      if v.None? then None else
      var t := SkipSpace(d, v.value.1);
      if Sees(d, t, '}') then Some((v.value.0, t + 1))
      else if Sees(d, t, ',') then TurnRounds(d, t + 1, v.value.0) else None
  {
    hide TurnField, ReadKey, SkipSpace;
  }

  /** What the object loops need to know about the member they stand before. */
  predicate MemberAt(d: Bytes, p: nat, m: Member, end: Bytes) {
    && MemberOk(m) && Ws(end)
    && At(d, p, m.before) && At(d, p + |m.before|, KeyText(m))
    && Slot(d, ValuePos(p, m), m.beforeValue, Print(m.value), m.after, m.comma)
    && (!m.comma ==> At(d, PastMember(p, m), end) && Sees(d, PastMember(p, m) + |end|, '}'))
  }

  lemma {:induction false} TurnRound(d: Bytes, p: nat, m: Member, end: Bytes, turn: Turn)
    requires MemberAt(d, p, m, end)
    ensures p <= |d|
    ensures !TurnMemberReadable(m) ==> TurnRounds(d, p, turn) == None
    ensures TurnMemberReadable(m) && m.comma ==>
      && PastMember(p, m) <= |d|
      && TurnRounds(d, p, turn) == TurnRounds(d, PastMember(p, m), AssignTurn(turn, m))
    ensures TurnMemberReadable(m) && !m.comma ==>
      TurnRounds(d, p, turn) == Some((AssignTurn(turn, m), PastMember(p, m) + |end| + 1))
  {
    hide TurnField, TurnRounds, ReadKey, SkipSpace, SkipValue, At, Print, KeyText, UnitsText, Escaped, AssignTurn;
    var b := ValuePos(p, m);
    RoundKey(d, p, m);
    TurnStep(d, p, turn, p + |m.before|, Token(KeyOf(m), Escaped(m.key), b));
    if !Escaped(m.key) {
      MemberValueRead(d, p, m, end);
      TurnFieldRead(d, b, turn, m);
      RoundEnd(d, p, m, end);
    }
  }

  lemma NoTurnMembers(d: Bytes, p: nat, end: Bytes, turn: Turn)
    requires MembersAt(d, p, [], end)
    ensures p <= |d| && TurnRounds(d, p, turn) == Some((FoldTurn(turn, []), p + |MembersText([])| + |end| + 1))
  {
    ClosingRead(d, p, end, '}');
  }

  /** The members of an object in place. */
  predicate MembersAt(d: Bytes, p: nat, ms: seq<Member>, end: Bytes) {
    && MembersOk(ms) && Ws(end) && At(d, p, MembersText(ms))
    && At(d, p + |MembersText(ms)|, end) && Sees(d, p + |MembersText(ms)| + |end|, '}')
  }

  lemma {:induction false} MembersAtFirst(d: Bytes, p: nat, ms: seq<Member>, end: Bytes)
    requires MembersAt(d, p, ms, end) && ms != []
    ensures MemberAt(d, p, ms[0], end)
    ensures PastMember(p, ms[0]) + |MembersText(ms[1..])| == p + |MembersText(ms)|
    ensures ms[0].comma ==> MembersAt(d, PastMember(p, ms[0]), ms[1..], end)
    ensures !ms[0].comma ==> ms[1..] == [] && MembersText(ms[1..]) == ""
  {
    hide At, Print, KeyText, MemberOk, MembersOk, MembersText, Ws, PastItem;
    MemberSlot(d, p, ms);
    MembersTail(ms);
  }

  lemma AllTurnReadableTail(ms: seq<Member>)
    requires ms != []
    ensures AllTurnReadable(ms) <==> TurnMemberReadable(ms[0]) && AllTurnReadable(ms[1..])
  {
    hide TurnMemberReadable;
    assert ms == [ms[0]] + ms[1..];
  }

  lemma {:induction false} TurnRoundsRead(d: Bytes, p: nat, ms: seq<Member>, end: Bytes, turn: Turn)
    requires MembersAt(d, p, ms, end)
    ensures p <= |d|
    ensures TurnRounds(d, p, turn) ==
      if AllTurnReadable(ms) then Some((FoldTurn(turn, ms), p + |MembersText(ms)| + |end| + 1)) else None
    decreases |ms|
  {
    hide TurnRounds, At, Print, KeyText, MemberOk, MembersOk, Ok, AssignTurn, TurnMemberReadable, MembersText;
    if ms == [] {
      NoTurnMembers(d, p, end, turn);
    } else {
      MembersAtFirst(d, p, ms, end);
      AllTurnReadableTail(ms);
      TurnRound(d, p, ms[0], end, turn);
      if TurnMemberReadable(ms[0]) && ms[0].comma {
        TurnRoundsRead(d, PastMember(p, ms[0]), ms[1..], end, AssignTurn(turn, ms[0]));
      }
    }
  }

  function TurnOf(v: Json): Turn { if v.Obj? then FoldTurn(NoTurn, v.members) else NoTurn }

  lemma ObjectAt(d: Bytes, p: nat, ms: seq<Member>, end: Bytes)
    requires MembersOk(ms) && Ws(end) && At(d, p, Print(Obj(ms, end)))
    ensures Sees(d, p, '{') && MembersAt(d, p + 1, ms, end)
    ensures |Print(Obj(ms, end))| == |MembersText(ms)| + |end| + 2
  {
    ObjectParts(d, p, ms, end);
  }

  lemma NotNull(d: Bytes, p: nat)
    requires p <= |d| && !Sees(d, p, 'n')
    ensures Literal(d, p, "null") == None
  {
    if p + 4 <= |d| { assert d[p..p + 4][0] == d[p]; }
  }

  lemma TurnObjectRead(d: Bytes, s: nat, v: Json)
    requires v.Obj? && Ok(v) && At(d, s, Print(v))
    ensures s <= |d| && Sees(d, s, '{')
    ensures TurnRounds(d, s + 1, NoTurn) ==
            if TurnReadable(v) then Some((TurnOf(v), s + |Print(v)|)) else None
  {
    hide TurnRounds, TurnMemberReadable, FoldTurn, At, MembersOk, MembersText, Print, MembersAt;
    ObjectAt(d, s, v.members, v.end);
    TurnRoundsRead(d, s + 1, v.members, v.end, NoTurn);
  }

  lemma TurnRead(d: Bytes, b: nat, m: Member)
    requires Placed(d, b, m)
    ensures b <= |d|
    ensures ReadTurn(d, b) == if TurnReadable(m.value) then Some((TurnOf(m.value), ValueEnd(b, m))) else None
  {
    hide TurnRounds, TurnMemberReadable, FoldTurn, At, MembersOk, ItemsOk, MembersText, Literal, SkipSpace;
    var s := b + |m.beforeValue|;
    SpaceThrough(d, b, m.beforeValue);
    ValueStart(d, s, m.value);
    FirstByte(m.value);
    if m.value.Null? {
      LiteralRead(d, s, "null");
    } else {
      NotNull(d, s);
      if m.value.Obj? { TurnObjectRead(d, s, m.value); }
    }
  }

  // ---------------------------------------------------------------- the envelope

  function AssignEnvelope(e: Envelope, m: Member): Envelope {
    if KeyOf(m) == "turnId" then e.(turnId := TextOf(m.value))
    else if KeyOf(m) == "turn_id" then e.(turnId2 := TextOf(m.value))
    else if KeyOf(m) == "turn" then e.(turn := TurnOf(m.value))
    else e
  }

  lemma {:induction false} EnvelopeFieldRead(d: Bytes, b: nat, e: Envelope, m: Member)
    requires Placed(d, b, m) && !Escaped(m.key)
    requires b <= |d| && SkipValue(d, b) == Some(ValueEnd(b, m))
    ensures EnvelopeField(d, b, e, KeyOf(m)) ==
            if MemberReadable(m) then Some((AssignEnvelope(e, m), ValueEnd(b, m))) else None
  {
    hide SimpleString, SkipValue, ReadTurn, Escaped, UnitsText, Print, TurnReadable, TurnOf, Placed;
    SimpleRead(d, b, m);
    TurnRead(d, b, m);
  }

  predicate AllReadable(ms: seq<Member>) { forall i | 0 <= i < |ms| :: MemberReadable(ms[i]) }

  function FoldEnvelope(e: Envelope, ms: seq<Member>): Envelope
    decreases |ms|
  {
    if ms == [] then e else FoldEnvelope(AssignEnvelope(e, ms[0]), ms[1..])
  }

  lemma EnvelopeStep(d: Bytes, p: nat, e: Envelope, s: nat, k: Token)
    requires p <= |d| && s == SkipSpace(d, p) && !Sees(d, s, '}') && ReadKey(d, s) == Some(k)
    ensures EnvelopeRounds(d, p, e) ==
      if k.escaped then None else
      var v := EnvelopeField(d, k.next, e, k.raw);
      if v.None? then None else
      var t := SkipSpace(d, v.value.1);
      if Sees(d, t, '}') then Some((v.value.0, t + 1))
      else if Sees(d, t, ',') then EnvelopeRounds(d, t + 1, v.value.0) else None
  {
    hide EnvelopeField, ReadKey, SkipSpace;
  }

  lemma EnvelopeRound(d: Bytes, p: nat, m: Member, end: Bytes, e: Envelope)
    requires MemberAt(d, p, m, end)
    ensures p <= |d|
    ensures !MemberReadable(m) ==> EnvelopeRounds(d, p, e) == None
    ensures MemberReadable(m) && m.comma ==>
      && PastMember(p, m) <= |d|
      && EnvelopeRounds(d, p, e) == EnvelopeRounds(d, PastMember(p, m), AssignEnvelope(e, m))
    ensures MemberReadable(m) && !m.comma ==>
      EnvelopeRounds(d, p, e) == Some((AssignEnvelope(e, m), PastMember(p, m) + |end| + 1))
  {
    hide EnvelopeField, EnvelopeRounds, ReadKey, SkipSpace, SkipValue, At, Print, KeyText, UnitsText, Escaped,
      AssignEnvelope, TurnReadable;
    var b := ValuePos(p, m);
    RoundKey(d, p, m);
    EnvelopeStep(d, p, e, p + |m.before|, Token(KeyOf(m), Escaped(m.key), b));
    if !Escaped(m.key) {
      MemberValueRead(d, p, m, end);
      EnvelopeFieldRead(d, b, e, m);
      RoundEnd(d, p, m, end);
    }
  }

  lemma NoEnvelopeMembers(d: Bytes, p: nat, end: Bytes, e: Envelope)
    requires MembersAt(d, p, [], end)
    ensures p <= |d|
    ensures EnvelopeRounds(d, p, e) == Some((FoldEnvelope(e, []), p + |MembersText([])| + |end| + 1))
  {
    ClosingRead(d, p, end, '}');
  }

  lemma AllReadableTail(ms: seq<Member>)
    requires ms != []
    ensures AllReadable(ms) <==> MemberReadable(ms[0]) && AllReadable(ms[1..])
  {
    hide MemberReadable;
    assert ms == [ms[0]] + ms[1..];
  }

  lemma {:induction false} EnvelopeRoundsRead(d: Bytes, p: nat, ms: seq<Member>, end: Bytes, e: Envelope)
    requires MembersAt(d, p, ms, end)
    ensures p <= |d|
    ensures EnvelopeRounds(d, p, e) ==
      if AllReadable(ms) then Some((FoldEnvelope(e, ms), p + |MembersText(ms)| + |end| + 1)) else None
    decreases |ms|
  {
    hide EnvelopeRounds, At, Print, KeyText, MemberOk, MembersOk, Ok, AssignEnvelope, MemberReadable, MembersText;
    if ms == [] {
      NoEnvelopeMembers(d, p, end, e);
    } else {
      MembersAtFirst(d, p, ms, end);
      AllReadableTail(ms);
      EnvelopeRound(d, p, ms[0], end, e);
      if MemberReadable(ms[0]) && ms[0].comma {
        EnvelopeRoundsRead(d, PastMember(p, ms[0]), ms[1..], end, AssignEnvelope(e, ms[0]));
      }
    }
  }

  // ---------------------------------------------------------------- folds are lookups

  lemma {:induction false} FoldTurnLast(turn: Turn, ms: seq<Member>)
    requires ms != []
    ensures FoldTurn(turn, ms) == AssignTurn(FoldTurn(turn, ms[..|ms| - 1]), ms[|ms| - 1])
    decreases |ms|
  {
    hide AssignTurn;
    if |ms| > 1 {
      FoldTurnLast(AssignTurn(turn, ms[0]), ms[1..]);
      assert ms[..|ms| - 1][1..] == ms[1..][..|ms| - 2];
    }
  }

  lemma {:induction false} FoldTurnIsLatest(ms: seq<Member>)
    ensures FoldTurn(NoTurn, ms) == Turn(Latest(ms, "id"), Latest(ms, "turnId"), Latest(ms, "turn_id"))
  {
    if ms != [] {
      FoldTurnLast(NoTurn, ms);
      FoldTurnIsLatest(ms[..|ms| - 1]);
    }
  }

  lemma {:induction false} FoldEnvelopeLast(e: Envelope, ms: seq<Member>)
    requires ms != []
    ensures FoldEnvelope(e, ms) == AssignEnvelope(FoldEnvelope(e, ms[..|ms| - 1]), ms[|ms| - 1])
    decreases |ms|
  {
    hide AssignEnvelope;
    if |ms| > 1 {
      FoldEnvelopeLast(AssignEnvelope(e, ms[0]), ms[1..]);
      assert ms[..|ms| - 1][1..] == ms[1..][..|ms| - 2];
    }
  }

  lemma {:induction false} FoldEnvelopeIsLatest(ms: seq<Member>)
    ensures FoldEnvelope(NoEnvelope, ms)
            == Envelope(Latest(ms, "turnId"), Latest(ms, "turn_id"), FoldTurn(NoTurn, LatestTurn(ms)))
  {
    if ms != [] {
      FoldEnvelopeLast(NoEnvelope, ms);
      FoldEnvelopeIsLatest(ms[..|ms| - 1]);
    }
  }

  lemma PreferIsReference(ms: seq<Member>)
    ensures Prefer(FoldEnvelope(NoEnvelope, ms)) == Reference(ms)
  {
    hide FoldEnvelope, FoldTurn, Latest;
    FoldEnvelopeIsLatest(ms);
    FoldTurnIsLatest(LatestTurn(ms));
  }

  // ---------------------------------------------------------------- whole texts

  /** `d` is white space, the text of `v`, white space. */
  predicate Document(d: Bytes, lead: Bytes, v: Json, trail: Bytes) {
    && Ws(lead) && Ws(trail) && Ok(v)
    && d == lead + (Print(v) + trail)
  }

  lemma {:induction false} AtWhole(d: Bytes, p: nat)
    requires p <= |d|
    ensures At(d, p, d[p..])
    decreases |d| - p
  {
    if p < |d| {
      AtWhole(d, p + 1);
      assert d[p..][1..] == d[p + 1..];
    }
  }

  lemma ThreeParts(d: Bytes, a: Bytes, b: Bytes, c: Bytes)
    requires d == a + (b + c)
    ensures At(d, 0, a) && At(d, |a|, b) && At(d, |a| + |b|, c)
  {
    hide At;
    AtWhole(d, 0);
    assert d[0..] == d;
    AtSplit(d, 0, a, b + c);
    AtSplit(d, |a|, b, c);
  }

  lemma {:induction false} DocumentParts(d: Bytes, lead: Bytes, v: Json, trail: Bytes)
    requires Document(d, lead, v, trail)
    ensures SkipSpace(d, 0) == |lead| && At(d, |lead|, Print(v))
    ensures |lead| + |Print(v)| <= |d| && SkipSpace(d, |lead| + |Print(v)|) == |d|
  {
    hide Print, Ok, At;
    var t := Print(v);
    ThreeParts(d, lead, t, trail);
    SpaceThrough(d, 0, lead);
    ValueStart(d, |lead|, v);
    SpaceThrough(d, |lead| + |t|, trail);
    assert |d| == |lead| + |t| + |trail|;
  }

  /** On every JSON text the fast scan answers exactly when the text is `null`, or an object whose
      keys have no escapes and whose identifiers are plain strings right after their colon; its
      answer is then the reference lookup. */
  lemma TurnIdFound(d: Bytes, lead: Bytes, v: Json, trail: Bytes)
    requires Document(d, lead, v, trail)
    ensures v.Null? ==> ScanTurnId(d) == Some("")
    ensures v.Obj? ==> ScanTurnId(d) == if AllReadable(v.members) then Some(Reference(v.members)) else None
    ensures !v.Null? && !v.Obj? ==> ScanTurnId(d) == None
  {
    hide EnvelopeRounds, SkipSpace, At, Literal, MembersText, MemberReadable, Reference, Prefer, FoldEnvelope,
      MembersOk, ItemsOk;
    DocumentParts(d, lead, v, trail);
    ValueStart(d, |lead|, v);
    FirstByte(v);
    if v.Null? {
      LiteralRead(d, |lead|, "null");
    } else {
      NotNull(d, |lead|);
      if v.Obj? {
        ObjectAt(d, |lead|, v.members, v.end);
        EnvelopeRoundsRead(d, |lead| + 1, v.members, v.end, NoEnvelope);
        PreferIsReference(v.members);
      }
    }
  }

  // ---------------------------------------------------------------- only JSON texts are answered

  lemma SimpleSkips(d: Bytes, p: nat)
    requires p <= |d| && SimpleString(d, p).Some?
    ensures SkipValue(d, p) == Some(SimpleString(d, p).value.next)
  {
    hide SkipMembers, SkipElements;
    assert SkipSpace(d, p) == p;
  }

  lemma {:induction false} TurnRoundsSkip(d: Bytes, p: nat, turn: Turn)
    requires p <= |d| && TurnRounds(d, p, turn).Some?
    ensures SkipMembers(d, p) == Some(TurnRounds(d, p, turn).value.1)
    decreases |d| - p
  {
    hide ReadKey, SkipValue, SimpleString, SkipSpace;
    var s := SkipSpace(d, p);
    if !Sees(d, s, '}') {
      var k := ReadKey(d, s).value;
      if k.raw in {"id", "turnId", "turn_id"} { SimpleSkips(d, k.next); }
      var v := TurnField(d, k.next, turn, k.raw).value;
      assert SkipValue(d, k.next) == Some(v.1);
      var t := SkipSpace(d, v.1);
      if !Sees(d, t, '}') { TurnRoundsSkip(d, t + 1, v.0); }
    }
  }

  lemma NullSkips(d: Bytes, s: nat)
    requires s <= |d| && Literal(d, s, "null").Some?
    ensures Sees(d, s, 'n') && SkipSpace(d, s) == s && SkipValue(d, s) == Some(s + 4)
  {
    hide SkipMembers, SkipElements;
    assert d[s..s + 4][0] == 'n';
  }

  lemma ObjectSkips(d: Bytes, s: nat)
    requires s < |d| && d[s] == '{'
    ensures SkipSpace(d, s) == s && SkipValue(d, s) == SkipMembers(d, s + 1)
  {
    hide SkipMembers, SkipElements;
  }

  lemma SpaceSkips(d: Bytes, p: nat)
    requires p <= |d|
    ensures SkipSpace(d, SkipSpace(d, p)) == SkipSpace(d, p) && SkipValue(d, p) == SkipValue(d, SkipSpace(d, p))
  {
    hide SkipMembers, SkipElements;
    var w := JsonSound.Spaces(d, p);
  }

  lemma TurnSkips(d: Bytes, p: nat)
    requires p <= |d| && ReadTurn(d, p).Some?
    ensures SkipValue(d, p) == Some(ReadTurn(d, p).value.1)
  {
    hide SkipValue, SkipSpace, SkipMembers, TurnRounds, Literal;
    var s := SkipSpace(d, p);
    SpaceSkips(d, p);
    if Literal(d, s, "null").Some? {
      NullSkips(d, s);
    } else {
      ObjectSkips(d, s);
      TurnRoundsSkip(d, s + 1, NoTurn);
    }
  }

  lemma {:induction false} EnvelopeRoundsSkip(d: Bytes, p: nat, e: Envelope)
    requires p <= |d| && EnvelopeRounds(d, p, e).Some?
    ensures SkipMembers(d, p) == Some(EnvelopeRounds(d, p, e).value.1)
    decreases |d| - p
  {
    hide ReadKey, SkipValue, SimpleString, SkipSpace, ReadTurn;
    var s := SkipSpace(d, p);
    if !Sees(d, s, '}') {
      var k := ReadKey(d, s).value;
      if k.raw in {"turnId", "turn_id"} { SimpleSkips(d, k.next); }
      if k.raw == "turn" { TurnSkips(d, k.next); }
      var v := EnvelopeField(d, k.next, e, k.raw).value;
      assert SkipValue(d, k.next) == Some(v.1);
      var t := SkipSpace(d, v.1);
      if !Sees(d, t, '}') { EnvelopeRoundsSkip(d, t + 1, v.0); }
    }
  }

  lemma ScanSkips(d: Bytes)
    requires ScanTurnId(d).Some?
    ensures var s := SkipSpace(d, 0);
      SkipSpace(d, s) == s && SkipValue(d, s).Some? && SkipSpace(d, SkipValue(d, s).value) == |d|
  {
    hide SkipValue, SkipSpace, SkipMembers, EnvelopeRounds, Literal;
    var s := SkipSpace(d, 0);
    if Literal(d, s, "null").Some? {
      NullSkips(d, s);
    } else {
      ObjectSkips(d, s);
      EnvelopeRoundsSkip(d, s + 1, NoEnvelope);
    }
  }

  /** Whatever the scan answers on is a JSON text, commas before a closing bracket allowed. */
  lemma AnswersOnlyJson(d: Bytes) returns (lead: Bytes, v: Json, trail: Bytes)
    requires ScanTurnId(d).Some?
    ensures Document(d, lead, v, trail)
  {
    hide SkipValue, SkipSpace, Print, Ok, At, ScanTurnId;
    ScanSkips(d);
    lead := JsonSound.Spaces(d, 0);
    v := JsonSound.ValueFrom(d, |lead|);
    var q := |lead| + |Print(v)|;
    trail := JsonSound.Spaces(d, q);
    AtSlice(d, 0, lead);
    AtSlice(d, |lead|, Print(v));
    AtSlice(d, q, trail);
    assert d[..|lead|] == lead && d[|lead|..q] == Print(v) && d[q..] == trail;
    assert d == d[..|lead|] + (d[|lead|..q] + d[q..]);
  }

  /** The whole language of the scan: it answers exactly on `null` and on readable objects. */
  lemma TurnIdExactly(d: Bytes)
    ensures ScanTurnId(d).Some? <==>
      exists lead, v, trail :: Document(d, lead, v, trail) && (v.Null? || (v.Obj? && AllReadable(v.members)))
  {
    hide ScanTurnId, Document, AllReadable;
    if ScanTurnId(d).Some? {
      var lead, v, trail := AnswersOnlyJson(d);
      TurnIdFound(d, lead, v, trail);
      assert Document(d, lead, v, trail) && (v.Null? || (v.Obj? && AllReadable(v.members)));
    }
    if lead, v, trail :| Document(d, lead, v, trail) && (v.Null? || (v.Obj? && AllReadable(v.members))) {
      TurnIdFound(d, lead, v, trail);
    }
  }

  // ---------------------------------------------------------------- against a strict decoder

  /** RFC 8259 text with distinct names: no comma before a closing bracket, in any array or object. */
  predicate Strict(v: Json) {
    match v
    case Arr(items, _) =>
      (items != [] ==> !items[|items| - 1].comma) && forall i | 0 <= i < |items| :: Strict(items[i].value)
    case Obj(ms, _) =>
      && (ms != [] ==> !ms[|ms| - 1].comma) && NamesDistinct(ms)
      && forall i | 0 <= i < |ms| :: Strict(ms[i].value)
    case _ => true
  }

  /** The value inside `v` at an address: element or member numbers, from the outside in. */
  function Inside(v: Json, loc: seq<nat>): Option<Json>
    decreases |loc|
  {
    if loc == [] then Some(v) else
      match v
      case Arr(items, _) => if loc[0] < |items| then Inside(items[loc[0]].value, loc[1..]) else None
      case Obj(ms, _) => if loc[0] < |ms| then Inside(ms[loc[0]].value, loc[1..]) else None
      case _ => None
  }

  /** No comma before its closing bracket, and no name twice. */
  predicate Neat(v: Json) {
    match v
    case Arr(items, _) => items == [] || !items[|items| - 1].comma
    case Obj(ms, _) => (ms == [] || !ms[|ms| - 1].comma) && NamesDistinct(ms)
    case _ => true
  }

  ghost predicate AllNeat(v: Json) { forall loc | Inside(v, loc).Some? :: Neat(Inside(v, loc).value) }

  /** A text is strict exactly if every array and object inside it is neat. */
  lemma StrictEverywhere(v: Json)
    ensures Strict(v) <==> AllNeat(v)
  {
    hide NamesDistinct, Strict, Neat;
    if Strict(v) {
      forall loc | Inside(v, loc).Some? ensures Neat(Inside(v, loc).value) { StrictInside(v, loc); }
    }
    if AllNeat(v) { NeatIsStrict(v); }
  }

  lemma NeatItem(v: Json, i: nat)
    requires AllNeat(v) && ((v.Arr? && i < |v.items|) || (v.Obj? && i < |v.members|))
    ensures AllNeat(if v.Arr? then v.items[i].value else v.members[i].value)
  {
    hide NamesDistinct, Neat;
    var w := if v.Arr? then v.items[i].value else v.members[i].value;
    forall loc | Inside(w, loc).Some? ensures Neat(Inside(w, loc).value) {
      assert ([i] + loc)[1..] == loc && Inside(v, [i] + loc) == Inside(w, loc);
    }
  }

  lemma {:induction false} NeatIsStrict(v: Json)
    requires AllNeat(v)
    ensures Strict(v)
    decreases v
  {
    hide NamesDistinct, AllNeat;
    assert Neat(v) by { NeatHere(v); }
    match v {
      case Arr(items, _) =>
        forall i | 0 <= i < |items| ensures Strict(items[i].value) {
          NeatItem(v, i);
          NeatIsStrict(items[i].value);
        }
      case Obj(ms, _) =>
        forall i | 0 <= i < |ms| ensures Strict(ms[i].value) {
          NeatItem(v, i);
          NeatIsStrict(ms[i].value);
        }
      case _ =>
    }
  }

  lemma NeatHere(v: Json)
    requires AllNeat(v)
    ensures Neat(v)
  {
    hide Neat;
    assert Inside(v, []) == Some(v);
  }

  lemma {:induction false} StrictInside(v: Json, loc: seq<nat>)
    requires Strict(v) && Inside(v, loc).Some?
    ensures Neat(Inside(v, loc).value)
    decreases |loc|
  {
    hide NamesDistinct;
    if loc != [] {
      match v {
        case Arr(items, _) => StrictInside(items[loc[0]].value, loc[1..]);
        case Obj(ms, _) => StrictInside(ms[loc[0]].value, loc[1..]);
      }
    }
  }

  /** The first member of that name: with distinct names, the field a decoder fills. */
  function Field(ms: seq<Member>, key: Bytes): Option<Json> {
    if ms == [] then None else if KeyOf(ms[0]) == key then Some(ms[0].value) else Field(ms[1..], key)
  }

  function FieldText(ms: seq<Member>, key: Bytes): Bytes {
    if Field(ms, key).Some? then TextOf(Field(ms, key).value) else ""
  }

  function FieldMembers(ms: seq<Member>, key: Bytes): seq<Member> {
    match Field(ms, key)
    case Some(Obj(members, _)) => members
    case _ => []
  }

  /** `decodeNotificationTurnID`: nothing if the text is not strict, else the first non-empty field. */
  function Decoded(v: Json): Bytes {
    if !Strict(v) || !v.Obj? then "" else
      var ms, turn := v.members, FieldMembers(v.members, "turn");
      FirstNonEmpty(FieldText(ms, "turnId"), FirstNonEmpty(FieldText(ms, "turn_id"),
        FirstNonEmpty(FieldText(turn, "turnId"), FirstNonEmpty(FieldText(turn, "turn_id"), FieldText(turn, "id")))))
  }

  lemma {:induction false} FieldAt(ms: seq<Member>, key: Bytes, i: nat)
    requires NamesDistinct(ms) && i < |ms| && KeyOf(ms[i]) == key
    ensures Field(ms, key) == Some(ms[i].value)
    decreases |ms|
  {
    hide KeyOf;
    if i > 0 {
      assert KeyOf(ms[0]) != key;
      FieldAt(ms[1..], key, i - 1);
    }
  }

  lemma {:induction false} NoField(ms: seq<Member>, key: Bytes)
    requires forall i | 0 <= i < |ms| :: KeyOf(ms[i]) != key
    ensures Field(ms, key) == None
    decreases |ms|
  {
    hide KeyOf;
    if ms != [] { NoField(ms[1..], key); }
  }

  lemma LatestIsFieldText(ms: seq<Member>, key: Bytes)
    requires NamesDistinct(ms)
    ensures Latest(ms, key) == FieldText(ms, key)
  {
    hide KeyOf, TextOf, Latest, Field;
    LatestIsField(ms, key);
    if i :| 0 <= i < |ms| && KeyOf(ms[i]) == key { FieldAt(ms, key, i); } else { NoField(ms, key); }
  }

  lemma {:induction false} TurnAt(ms: seq<Member>, i: nat)
    requires NamesDistinct(ms) && i < |ms| && KeyOf(ms[i]) == "turn"
    ensures LatestTurn(ms) == if ms[i].value.Obj? then ms[i].value.members else []
  {
    hide KeyOf;
    if i < |ms| - 1 { TurnAt(ms[..|ms| - 1], i); }
  }

  lemma {:induction false} NoTurnField(ms: seq<Member>)
    requires forall i | 0 <= i < |ms| :: KeyOf(ms[i]) != "turn"
    ensures LatestTurn(ms) == []
  {
    hide KeyOf;
    if ms != [] { NoTurnField(ms[..|ms| - 1]); }
  }

  lemma TurnIsField(v: Json)
    requires v.Obj? && Strict(v)
    ensures LatestTurn(v.members) == FieldMembers(v.members, "turn") && NamesDistinct(LatestTurn(v.members))
  {
    hide KeyOf, LatestTurn, Field, NamesDistinct;
    var ms := v.members;
    if i :| 0 <= i < |ms| && KeyOf(ms[i]) == "turn" {
      FieldAt(ms, "turn", i);
      TurnAt(ms, i);
      assert Strict(ms[i].value);
      if !ms[i].value.Obj? { NoneDistinct(); }
    } else {
      NoField(ms, "turn");
      NoTurnField(ms);
      NoneDistinct();
    }
  }

  lemma NoneDistinct()
    ensures NamesDistinct([])
  {}

  /** On strict texts the lookup of the scan is the decoded field. */
  lemma ReferenceIsDecoded(v: Json)
    requires v.Obj? && Strict(v)
    ensures Reference(v.members) == Decoded(v)
  {
    hide Latest, LatestTurn, FieldText, FieldMembers, NamesDistinct;
    TurnIsField(v);
    var ms, turn := v.members, LatestTurn(v.members);
    LatestIsFieldText(ms, "turnId");
    LatestIsFieldText(ms, "turn_id");
    LatestIsFieldText(turn, "turnId");
    LatestIsFieldText(turn, "turn_id");
    LatestIsFieldText(turn, "id");
  }

  /** Where the scan answers, its answer is what the strict decoder returns if and only if the text is
      strict or the answer is empty. */
  lemma AnswerIsDecoded(d: Bytes, lead: Bytes, v: Json, trail: Bytes)
    requires Document(d, lead, v, trail) && ScanTurnId(d).Some?
    ensures ScanTurnId(d).value == Decoded(v) <==> Strict(v) || ScanTurnId(d).value == ""
  {
    hide ScanTurnId, Document, Reference, AllReadable, Strict;
    TurnIdFound(d, lead, v, trail);
    if v.Obj? && Strict(v) { ReferenceIsDecoded(v); }
  }

  function PlainUnits(text: Bytes): seq<Unit> {
    seq(|text|, i requires 0 <= i < |text| => Plain(text[i]))
  }

  lemma {:induction false} PlainText(text: Bytes)
    ensures UnitsText(PlainUnits(text)) == text
    decreases |text|
  {
    if text != "" {
      PlainText(text[1..]);
      assert PlainUnits(text)[1..] == PlainUnits(text[1..]);
      assert text == [text[0]] + text[1..];
    }
  }

  /** A comma before the closing brace, which strict JSON forbids, does not stop the scan. */
  lemma TrailingCommaAnswered(d: Bytes)
    requires d == "{\"turnId\":\"x\",}"
    ensures ScanTurnId(d) == Some("x")
  {
    hide ScanTurnId;
    var m := Member("", PlainUnits("turnId"), "", "", Str(PlainUnits("x")), "", true);
    PlainText("turnId");
    PlainText("x");
    var v := Obj([m], "");
    assert Print(v) == d by { CommaText(m, d); }
    assert d == "" + (d + "");
    assert Ok(v) by { assert MemberOk(m) && [m][0] == m; }
    TurnIdFound(d, "", v, "");
    assert Latest([m], "turnId") == "x";
  }

  lemma CommaText(m: Member, d: Bytes)
    requires m == Member("", PlainUnits("turnId"), "", "", Str(PlainUnits("x")), "", true)
    requires d == "{\"turnId\":\"x\",}"
    ensures Print(Obj([m], "")) == d
  {
    hide UnitsText;
    PlainText("turnId");
    PlainText("x");
    assert KeyText(m) == "\"turnId\":" by {
      assert "\"" + ("turnId" + "\"") == "\"turnId\"" && "\"turnId\"" + ("" + ":") == "\"turnId\":";
    }
    assert m.value.units == PlainUnits("x");
    assert Print(m.value) == "\"x\"" by { assert "\"" + ("x" + "\"") == "\"x\""; }
    assert MembersText([m]) == "\"turnId\":\"x\"," by {
      assert [m][1..] == [] && MembersText([]) == "";
      assert "" + ("\"turnId\":" + ("" + ("\"x\"" + ("" + ("," + ""))))) == "\"turnId\":\"x\",";
    }
    assert "{" + ("\"turnId\":\"x\"," + ("" + "}")) == d;
  }
}
