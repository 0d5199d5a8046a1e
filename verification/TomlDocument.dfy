/** The format-preserving editor of pkg/toml/document.go: edits are collected as span operations,
    sorted, and spliced into the original bytes. */
module TomlDocument {
  import opened Text

  datatype Span = Span(start: nat, end: nat)

  /** A key/value line: its path key, the span of the value and the span of the whole line. */
  datatype Entry = Entry(key: Bytes, value: Span, line: Span)

  // ---------------------------------------------------------------- line spans

  function LineBegin(data: Bytes, i: nat): (s: nat)
    requires i <= |data|
    ensures s <= i
    ensures forall q | s <= q < i :: !IsNewline(data[q])
  {
    if i > 0 && !IsNewline(data[i - 1]) then LineBegin(data, i - 1) else i
  }

  function LineEnd(data: Bytes, i: nat): (e: nat)
    requires i <= |data|
    ensures i <= e <= |data|
    decreases |data| - i
  {
    if i == |data| then i
    else if data[i] == '\n' then i + 1
    else if data[i] == '\r' then (if i + 1 < |data| && data[i + 1] == '\n' then i + 2 else i + 1)
    else LineEnd(data, i + 1)
  }

  /** `lineSpan` with its two loops. */
  method LineSpan(data: Bytes, start: nat, end: nat) returns (span: Span)
    requires start <= end <= |data|
    ensures span == Span(LineBegin(data, start), LineEnd(data, end))
    ensures span.start <= start && end <= span.end
  {
    var s := start;
    while s > 0 && !IsNewline(data[s - 1])
      invariant 0 <= s <= start && LineBegin(data, s) == LineBegin(data, start)
    {
      s := s - 1;
    }
    var e := end;
    while e < |data|
      invariant end <= e <= |data| && LineEnd(data, e) == LineEnd(data, end)
    {
      if data[e] == '\n' { return Span(s, e + 1); }
      if data[e] == '\r' {
        e := e + 1;
        if e < |data| && data[e] == '\n' { e := e + 1; }
        return Span(s, e);
      }
      e := e + 1;
    }
    return Span(s, e);
  }

  predicate HasBreak(data: Bytes, from: nat, to: nat) {
    exists q | from <= q < to && q < |data| :: IsNewline(data[q])
  }

  lemma {:induction false} LineEndBehind(data: Bytes, v: nat, k: nat)
    requires v <= k < |data| && forall q | v <= q <= k :: !IsNewline(data[q])
    ensures k < LineEnd(data, v)
    decreases k - v
  {
    if v < k { LineEndBehind(data, v + 1, k); }
  }

  lemma {:induction false} LineBeginBefore(data: Bytes, v: nat, k: nat)
    requires v <= k <= |data| && forall q | v <= q < k :: !IsNewline(data[q])
    ensures LineBegin(data, k) <= v
    decreases k
  {
    if v < k { LineBeginBefore(data, v, k - 1); }
  }

  lemma {:induction false} BreakOrders(data: Bytes, v: nat, q: nat, k: nat)
    requires v <= q < k < |data| && IsNewline(data[q]) && !IsNewline(data[k])
    ensures LineEnd(data, v) <= LineBegin(data, k)
    decreases q - v
  {
    if IsNewline(data[v]) {
      assert LineBegin(data, k) > v;
      if v + 1 < |data| && IsNewline(data[v + 1]) { assert LineBegin(data, k) > v + 1; }
    } else {
      BreakOrders(data, v + 1, q, k);
    }
  }

  /** The line that ends a value at `v` and the line of a key at `k` are ordered and disjoint if and
      only if a newline stands between the two. */
  lemma LineBreakExactly(data: Bytes, v: nat, k: nat)
    requires v <= k < |data| && !IsNewline(data[k])
    ensures LineEnd(data, v) <= LineBegin(data, k) <==> HasBreak(data, v, k)
  {
    if q :| v <= q < k && IsNewline(data[q]) {
      BreakOrders(data, v, q, k);
    } else {
      LineEndBehind(data, v, k);
      LineBeginBefore(data, v, k);
    }
  }

  lemma {:induction false} LineBeginGrows(data: Bytes, i: nat, k: nat)
    requires i <= k <= |data|
    ensures LineBegin(data, i) <= LineBegin(data, k)
    decreases k
  {
    if i < k && !IsNewline(data[k - 1]) { LineBeginGrows(data, i, k - 1); }
  }

  lemma {:induction false} LineEndGrows(data: Bytes, i: nat, k: nat)
    requires i <= k <= |data|
    ensures LineEnd(data, i) <= LineEnd(data, k)
    decreases k - i
  {
    if i < k && !IsNewline(data[i]) { LineEndGrows(data, i + 1, k); }
  }

  /** A line ends with the text or behind a newline. */
  lemma {:induction false} LineEndStops(data: Bytes, i: nat)
    requires i <= |data|
    ensures LineEnd(data, i) == |data| || (i < LineEnd(data, i) && IsNewline(data[LineEnd(data, i) - 1]))
    decreases |data| - i
  {
    if i < |data| && !IsNewline(data[i]) { LineEndStops(data, i + 1); }
  }

  /** Text inserted after a line starts a line of its own exactly when that line is terminated:
      on an unterminated last line it is glued to the value. */
  lemma {:induction false} EndsAtNewline(data: Bytes, i: nat)
    requires 0 < i <= |data| && !IsNewline(data[i - 1])
    ensures IsNewline(data[LineEnd(data, i) - 1]) <==> HasBreak(data, i, |data|)
    decreases |data| - i
  {
    if i < |data| && !IsNewline(data[i]) { EndsAtNewline(data, i + 1); }
  }

  // ---------------------------------------------------------------- span operations

  /** Replace `raw[start..end]` by `text`; an insertion when the span is empty. */
  datatype Op = Op(start: nat, end: nat, text: Bytes)

  predicate OpIn(raw: Bytes, op: Op) { op.start <= op.end <= |raw| }

  predicate IsInsertion(op: Op) { op.start == op.end }

  /** The two do not touch the same byte, and neither inserts strictly inside the other. */
  predicate Compatible(a: Op, b: Op) {
    || a.end <= b.start
    || b.end <= a.start
  }

  predicate AllIn(raw: Bytes, ops: seq<Op>) { forall i | 0 <= i < |ops| :: OpIn(raw, ops[i]) }

  predicate AllCompatible(ops: seq<Op>) {
    forall i, j | 0 <= i < j < |ops| :: Compatible(ops[i], ops[j])
  }

  // What the edits mean, position by position.

  /** Texts inserted at `p`, in the order the edits were made. */
  function InsertedAt(ops: seq<Op>, p: nat): Bytes {
    if ops == [] then [] else
      var x := ops[|ops| - 1];
      InsertedAt(ops[..|ops| - 1], p) + InsertText(x, p)
  }

  function InsertText(x: Op, p: nat): Bytes { if x.start == p == x.end then x.text else [] }

  function ReplaceText(x: Op, p: nat): Bytes { if x.start == p < x.end then x.text else [] }

  /** Text that replaces the span starting at `p`. */
  function ReplacedAt(ops: seq<Op>, p: nat): Bytes {
    if ops == [] then [] else
      var x := ops[|ops| - 1];
      ReplacedAt(ops[..|ops| - 1], p) + ReplaceText(x, p)
  }

  predicate Covered(ops: seq<Op>, p: nat) { exists x | x in ops :: x.start <= p < x.end }

  /** What stands at position `p`: the insertions, then the replacement that starts there, then the
      original byte unless an edit covers it. */
  function Piece(raw: Bytes, ops: seq<Op>, p: nat): Bytes
    requires p <= |raw|
  {
    InsertedAt(ops, p) + ReplacedAt(ops, p) + if p == |raw| || Covered(ops, p) then [] else [raw[p]]
  }

  /** The edited text from position `p` on. */
  function Render(raw: Bytes, ops: seq<Op>, p: nat): Bytes
    requires p <= |raw|
    decreases |raw| - p
  {
    if p == |raw| then Piece(raw, ops, p) else Piece(raw, ops, p) + Render(raw, ops, p + 1)
  }

  // ---------------------------------------------------------------- sorting

  /** `a` sorts after `b`: later start, or same start and later end. Equal keys keep their order. */
  predicate After(a: Op, b: Op) { b.start < a.start || (b.start == a.start && b.end < a.end) }

  predicate Sorted(ops: seq<Op>) { forall i, j | 0 <= i < j < |ops| :: !After(ops[i], ops[j]) }

  /** Insert from the right, past everything that sorts after `x`. */
  function InsertSorted(ops: seq<Op>, x: Op): seq<Op> {
    if ops != [] && After(ops[|ops| - 1], x) then InsertSorted(ops[..|ops| - 1], x) + [ops[|ops| - 1]]
    else ops + [x]
  }

  function StableSort(ops: seq<Op>): seq<Op> {
    if ops == [] then [] else InsertSorted(StableSort(ops[..|ops| - 1]), ops[|ops| - 1])
  }

  lemma {:induction false} InsertSortedMembers(ops: seq<Op>, x: Op)
    ensures forall y :: y in InsertSorted(ops, x) <==> y in ops || y == x
    ensures |InsertSorted(ops, x)| == |ops| + 1
  {
    if ops != [] {
      var last := ops[|ops| - 1];
      assert ops == ops[..|ops| - 1] + [last];
      if After(last, x) { InsertSortedMembers(ops[..|ops| - 1], x); }
    }
  }

  lemma {:induction false} InsertSortedSorted(ops: seq<Op>, x: Op)
    requires Sorted(ops)
    ensures Sorted(InsertSorted(ops, x))
  {
    if ops != [] {
      var rest, last := ops[..|ops| - 1], ops[|ops| - 1];
      if After(last, x) {
        InsertSortedSorted(rest, x);
        InsertSortedMembers(rest, x);
        var s := InsertSorted(rest, x);
        forall i | 0 <= i < |s| ensures !After(s[i], last) {
          assert s[i] in s;
          if s[i] in rest { var k :| 0 <= k < |rest| && rest[k] == s[i]; assert ops[k] == rest[k]; }
        }
      } else {
        forall i | 0 <= i < |ops| ensures !After(ops[i], x) {
          if i < |ops| - 1 { assert !After(ops[i], last); }
        }
      }
    }
  }

  lemma {:induction false} SortedStays(ops: seq<Op>)
    requires Sorted(ops)
    ensures StableSort(ops) == ops
  {
    if ops != [] {
      var rest, last := ops[..|ops| - 1], ops[|ops| - 1];
      SortedStays(rest);
      if rest != [] { assert !After(ops[|rest| - 1], last); }
      assert ops == rest + [last];
    }
  }

  lemma TextsOfLast(ops: seq<Op>, x: Op, p: nat)
    ensures InsertedAt(ops + [x], p) == InsertedAt(ops, p) + InsertText(x, p)
    ensures ReplacedAt(ops + [x], p) == ReplacedAt(ops, p) + ReplaceText(x, p)
  {
    assert (ops + [x])[..|ops|] == ops;
  }

  lemma Padding(b: Bytes)
    ensures [] + b == b + [] == b
  {}

  lemma Swap(a: Bytes, b: Bytes, c: Bytes)
    requires b == [] || c == []
    ensures a + b + c == a + c + b
  {}

  /** Passing over what sorts later changes no text: two insertions at one place have equal keys, and
      at most one replacement starts at a position. */
  lemma {:induction false} InsertKeepsTexts(ops: seq<Op>, x: Op, p: nat)
    requires forall y | y in ops :: Compatible(y, x)
    ensures InsertedAt(InsertSorted(ops, x), p) == InsertedAt(ops + [x], p)
    ensures ReplacedAt(InsertSorted(ops, x), p) == ReplacedAt(ops + [x], p)
  {
    hide InsertedAt, ReplacedAt;
    if ops != [] && After(ops[|ops| - 1], x) {
      var rest, last := ops[..|ops| - 1], ops[|ops| - 1];
      assert last in ops && ops == rest + [last];
      InsertKeepsTexts(rest, x, p);
      TextsOfLast(InsertSorted(rest, x), last, p);
      TextsOfLast(rest, x, p);
      TextsOfLast(rest, last, p);
      TextsOfLast(ops, x, p);
      Swap(InsertedAt(rest, p), InsertText(x, p), InsertText(last, p));
      Swap(ReplacedAt(rest, p), ReplaceText(x, p), ReplaceText(last, p));
    }
  }

  lemma {:induction false} StableSortFacts(ops: seq<Op>)
    ensures Sorted(StableSort(ops)) && |StableSort(ops)| == |ops|
    ensures forall y :: y in StableSort(ops) <==> y in ops
  {
    if ops != [] {
      var rest, last := ops[..|ops| - 1], ops[|ops| - 1];
      assert ops == rest + [last];
      StableSortFacts(rest);
      InsertSortedSorted(StableSort(rest), last);
      InsertSortedMembers(StableSort(rest), last);
    }
  }

  lemma {:induction false} SortKeepsTexts(ops: seq<Op>, p: nat)
    requires AllCompatible(ops)
    ensures InsertedAt(StableSort(ops), p) == InsertedAt(ops, p)
    ensures ReplacedAt(StableSort(ops), p) == ReplacedAt(ops, p)
  {
    if ops != [] {
      var rest, last := ops[..|ops| - 1], ops[|ops| - 1];
      SortKeepsTexts(rest, p);
      StableSortFacts(rest);
      forall y | y in StableSort(rest) ensures Compatible(y, last) {
        var k :| 0 <= k < |rest| && rest[k] == y;
        assert ops[k] == y;
      }
      InsertKeepsTexts(StableSort(rest), last, p);
      TextsOfLast(StableSort(rest), last, p);
    }
  }

  /** Sorting does not change what the edits mean. */
  lemma {:induction false} SortKeepsMeaning(raw: Bytes, ops: seq<Op>, p: nat)
    requires p <= |raw| && AllCompatible(ops)
    ensures Render(raw, StableSort(ops), p) == Render(raw, ops, p)
    decreases |raw| - p
  {
    hide InsertedAt, ReplacedAt, StableSort;
    SortKeepsTexts(ops, p);
    StableSortFacts(ops);
    if p < |raw| { SortKeepsMeaning(raw, ops, p + 1); }
  }

  // ---------------------------------------------------------------- splicing

  /** The guard of the cursor loop: the operation starts before the cursor or leaves the text. */
  predicate Skips(raw: Bytes, cursor: nat, op: Op) { op.start < cursor || !OpIn(raw, op) }

  /** The cursor loop of `Bytes`. */
  function Splice(raw: Bytes, ops: seq<Op>, cursor: nat): Bytes
    requires cursor <= |raw|
  {
    if ops == [] then raw[cursor..]
    else if Skips(raw, cursor, ops[0]) then Splice(raw, ops[1..], cursor)
    else raw[cursor..ops[0].start] + ops[0].text + Splice(raw, ops[1..], ops[0].end)
  }

  /** The operations that the cursor loop does not skip. */
  function Written(raw: Bytes, ops: seq<Op>, cursor: nat): seq<Op> {
    if ops == [] then []
    else if Skips(raw, cursor, ops[0]) then Written(raw, ops[1..], cursor)
    else [ops[0]] + Written(raw, ops[1..], ops[0].end)
  }

  /** Each operation starts where the one before it ended, or later. */
  predicate Chained(raw: Bytes, ops: seq<Op>, cursor: nat) {
    && AllIn(raw, ops)
    && (forall i | 0 <= i < |ops| :: cursor <= ops[i].start)
    && (forall i, j | 0 <= i < j < |ops| :: ops[i].end <= ops[j].start)
  }

  predicate AllFrom(ops: seq<Op>, p: nat) { forall i | 0 <= i < |ops| :: p <= ops[i].start }

  lemma {:induction false} NothingBefore(ops: seq<Op>, p: nat)
    requires AllFrom(ops, p + 1)
    ensures InsertedAt(ops, p) == [] && ReplacedAt(ops, p) == [] && !Covered(ops, p)
  {
    if ops != [] { NothingBefore(ops[..|ops| - 1], p); }
  }

  lemma {:induction false} FrontTexts(ops: seq<Op>, p: nat)
    requires ops != []
    ensures InsertedAt(ops, p) == InsertText(ops[0], p) + InsertedAt(ops[1..], p)
    ensures ReplacedAt(ops, p) == ReplaceText(ops[0], p) + ReplacedAt(ops[1..], p)
  {
    hide InsertText, ReplaceText;
    var first, last := ops[0], ops[|ops| - 1];
    if |ops| == 1 {
      assert ops[..0] == [] && ops[1..] == [];
      Padding(InsertText(first, p));
      Padding(ReplaceText(first, p));
    } else {
      var head, rest := ops[..|ops| - 1], ops[1..];
      FrontTexts(head, p);
      assert head[1..] == rest[..|rest| - 1] && rest[|rest| - 1] == last;
      Regroup(InsertText(first, p), InsertedAt(head[1..], p), InsertText(last, p));
      Regroup(ReplaceText(first, p), ReplacedAt(head[1..], p), ReplaceText(last, p));
    }
  }

  lemma FrontCovers(ops: seq<Op>, p: nat)
    requires ops != []
    ensures Covered(ops, p) == (ops[0].start <= p < ops[0].end || Covered(ops[1..], p))
  {
    assert ops == [ops[0]] + ops[1..];
  }

  /** Away from its own start and span an operation adds nothing. */
  lemma FrontElsewhere(raw: Bytes, ops: seq<Op>, p: nat)
    requires ops != [] && ops[0].start < p <= |raw| && ops[0].end <= p
    ensures Piece(raw, ops, p) == Piece(raw, ops[1..], p)
  {
    hide InsertedAt, ReplacedAt, Covered;
    FrontTexts(ops, p);
    FrontCovers(ops, p);
    Padding(InsertedAt(ops[1..], p));
    Padding(ReplacedAt(ops[1..], p));
  }

  /** Inside the first operation's span nothing stands. */
  lemma FrontInside(raw: Bytes, ops: seq<Op>, p: nat)
    requires ops != [] && ops[0].start < p < ops[0].end && AllFrom(ops[1..], ops[0].end) && p <= |raw|
    ensures Piece(raw, ops, p) == []
  {
    hide InsertedAt, ReplacedAt, Covered;
    FrontTexts(ops, p);
    FrontCovers(ops, p);
    NothingBefore(ops[1..], p);
  }

  /** Where the first operation starts, its text stands first. */
  lemma FrontStart(raw: Bytes, ops: seq<Op>)
    requires ops != [] && OpIn(raw, ops[0]) && AllFrom(ops[1..], ops[0].end)
    ensures var x, q := ops[0], ops[0].start;
            Piece(raw, ops, q) == if q == x.end then x.text + Piece(raw, ops[1..], q) else x.text
  {
    hide InsertedAt, ReplacedAt, Covered;
    var x, q, rest := ops[0], ops[0].start, ops[1..];
    FrontTexts(ops, q);
    FrontCovers(ops, q);
    Padding(x.text);
    Padding(ReplacedAt(rest, q));
    if q < x.end {
      NothingBefore(rest, q);
    } else {
      Regroup(x.text, InsertedAt(rest, q), ReplacedAt(rest, q));
      Regroup(x.text, InsertedAt(rest, q) + ReplacedAt(rest, q),
        if q == |raw| || Covered(rest, q) then [] else [raw[q]]);
    }
  }

  lemma UntouchedPiece(raw: Bytes, ops: seq<Op>, p: nat)
    requires p < |raw| && AllFrom(ops, p + 1)
    ensures Piece(raw, ops, p) == [raw[p]]
  {
    NothingBefore(ops, p);
  }

  lemma {:induction false} CopyRun(raw: Bytes, ops: seq<Op>, p: nat, q: nat)
    requires p <= q <= |raw| && AllFrom(ops, q)
    ensures Render(raw, ops, p) == raw[p..q] + Render(raw, ops, q)
    decreases q - p
  {
    hide Piece;
    if p < q {
      var a, b, c := [raw[p]], raw[p + 1..q], Render(raw, ops, q);
      assert raw[p..q] == a + b;
      calc {
        Render(raw, ops, p);
        { UntouchedPiece(raw, ops, p); }
        a + Render(raw, ops, p + 1);
        { CopyRun(raw, ops, p + 1, q); }
        a + (b + c);
        { Regroup(a, b, c); }
        raw[p..q] + c;
      }
    } else {
      assert raw[p..q] == [];
    }
  }

  lemma {:induction false} CoverRun(raw: Bytes, ops: seq<Op>, p: nat)
    requires ops != [] && OpIn(raw, ops[0]) && ops[0].start < p <= ops[0].end && AllFrom(ops[1..], ops[0].end)
    ensures Render(raw, ops, p) == Render(raw, ops, ops[0].end)
    decreases ops[0].end - p
  {
    hide Piece;
    if p < ops[0].end {
      FrontInside(raw, ops, p);
      CoverRun(raw, ops, p + 1);
    }
  }

  /** Past its own span an operation no longer matters. */
  lemma {:induction false} DropFront(raw: Bytes, ops: seq<Op>, p: nat)
    requires ops != [] && ops[0].start < p <= |raw| && ops[0].end <= p
    ensures Render(raw, ops, p) == Render(raw, ops[1..], p)
    decreases |raw| - p
  {
    hide Piece;
    FrontElsewhere(raw, ops, p);
    if p < |raw| { DropFront(raw, ops, p + 1); }
  }

  lemma RenderFrontInsertion(raw: Bytes, ops: seq<Op>)
    requires ops != [] && OpIn(raw, ops[0]) && IsInsertion(ops[0]) && AllFrom(ops[1..], ops[0].end)
    ensures Render(raw, ops, ops[0].start) == ops[0].text + Render(raw, ops[1..], ops[0].end)
  {
    hide Piece;
    var q, text, rest := ops[0].start, ops[0].text, ops[1..];
    FrontStart(raw, ops);
    if q < |raw| {
      calc {
        Render(raw, ops, q);
        Piece(raw, ops, q) + Render(raw, ops, q + 1);
        { DropFront(raw, ops, q + 1); }
        text + Piece(raw, rest, q) + Render(raw, rest, q + 1);
        { Regroup(text, Piece(raw, rest, q), Render(raw, rest, q + 1)); }
        text + Render(raw, rest, q);
      }
    }
  }

  lemma RenderFrontSpan(raw: Bytes, ops: seq<Op>)
    requires ops != [] && OpIn(raw, ops[0]) && !IsInsertion(ops[0]) && AllFrom(ops[1..], ops[0].end)
    ensures Render(raw, ops, ops[0].start) == ops[0].text + Render(raw, ops[1..], ops[0].end)
  {
    hide Piece;
    var q, e, text := ops[0].start, ops[0].end, ops[0].text;
    calc {
      Render(raw, ops, q);
      Piece(raw, ops, q) + Render(raw, ops, q + 1);
      { FrontStart(raw, ops); }
      text + Render(raw, ops, q + 1);
      { CoverRun(raw, ops, q + 1); }
      text + Render(raw, ops, e);
      { DropFront(raw, ops, e); }
      text + Render(raw, ops[1..], e);
    }
  }

  lemma RenderFront(raw: Bytes, ops: seq<Op>)
    requires ops != [] && OpIn(raw, ops[0]) && AllFrom(ops[1..], ops[0].end)
    ensures Render(raw, ops, ops[0].start) == ops[0].text + Render(raw, ops[1..], ops[0].end)
  {
    hide Render;
    if IsInsertion(ops[0]) { RenderFrontInsertion(raw, ops); } else { RenderFrontSpan(raw, ops); }
  }

  lemma ChainedTail(raw: Bytes, ops: seq<Op>, cursor: nat)
    requires ops != [] && Chained(raw, ops, cursor)
    ensures OpIn(raw, ops[0]) && cursor <= ops[0].start && Chained(raw, ops[1..], ops[0].end)
    ensures AllFrom(ops[1..], ops[0].end) && AllFrom(ops, ops[0].start)
  {}

  /** On chained operations the cursor loop skips nothing and produces the edited text. */
  lemma {:induction false} SpliceIsRender(raw: Bytes, ops: seq<Op>, cursor: nat)
    requires cursor <= |raw| && Chained(raw, ops, cursor)
    ensures Splice(raw, ops, cursor) == Render(raw, ops, cursor)
    decreases |ops|
  {
    hide Render, Chained, AllFrom;
    if ops == [] {
      assert AllFrom(ops, |raw|) by { NoneBefore(|raw|); }
      CopyRun(raw, ops, cursor, |raw|);
      assert Render(raw, [], |raw|) == [] by { NothingLeft(raw); }
    } else {
      var x, rest := ops[0], ops[1..];
      ChainedTail(raw, ops, cursor);
      SpliceIsRender(raw, rest, x.end);
      RenderFront(raw, ops);
      Regroup(raw[cursor..x.start], x.text, Render(raw, rest, x.end));
      CopyRun(raw, ops, cursor, x.start);
    }
  }

  lemma NoneBefore(p: nat)
    ensures AllFrom([], p)
  {}

  lemma NothingLeft(raw: Bytes)
    ensures Render(raw, [], |raw|) == []
  {}

  lemma {:induction false} StableSortKeepsPairs(ops: seq<Op>)
    requires AllCompatible(ops)
    ensures AllCompatible(StableSort(ops))
  {
    if ops != [] {
      var rest, last := ops[..|ops| - 1], ops[|ops| - 1];
      StableSortKeepsPairs(rest);
      StableSortFacts(rest);
      forall y | y in StableSort(rest) ensures Compatible(y, last) {
        var k :| 0 <= k < |rest| && rest[k] == y;
        assert ops[k] == y;
      }
      InsertSortedKeepsPairs(StableSort(rest), last);
    }
  }

  lemma {:induction false} InsertSortedKeepsPairs(ops: seq<Op>, x: Op)
    requires AllCompatible(ops) && forall y | y in ops :: Compatible(y, x)
    ensures AllCompatible(InsertSorted(ops, x))
  {
    if ops != [] && After(ops[|ops| - 1], x) {
      var rest, last := ops[..|ops| - 1], ops[|ops| - 1];
      InsertSortedKeepsPairs(rest, x);
      InsertSortedMembers(rest, x);
      var s := InsertSorted(rest, x);
      forall i | 0 <= i < |s| ensures Compatible(s[i], last) {
        assert s[i] in s && last in ops;
        if s[i] in rest { var k :| 0 <= k < |rest| && rest[k] == s[i]; assert ops[k] == rest[k]; }
      }
    }
  }

  lemma AppendCompatible(ops: seq<Op>, x: Op)
    ensures AllCompatible(ops + [x]) <==> AllCompatible(ops) && forall y | y in ops :: Compatible(y, x)
  {
    var all := ops + [x];
    if AllCompatible(all) {
      assert forall i | 0 <= i < |ops| :: all[i] == ops[i];
      forall y | y in ops ensures Compatible(y, x) {
        var k :| 0 <= k < |ops| && ops[k] == y;
        assert Compatible(all[k], all[|ops|]);
      }
    }
  }

  lemma {:induction false} InsertSortedPairs(ops: seq<Op>, x: Op)
    requires AllCompatible(InsertSorted(ops, x))
    ensures AllCompatible(ops + [x])
  {
    hide AllCompatible;
    if ops != [] && After(ops[|ops| - 1], x) {
      var rest, last := ops[..|ops| - 1], ops[|ops| - 1];
      AppendCompatible(InsertSorted(rest, x), last);
      InsertSortedPairs(rest, x);
      InsertSortedMembers(rest, x);
      assert ops == rest + [last];
      AppendCompatible(rest, x);
      AppendCompatible(rest, last);
      assert x in InsertSorted(rest, x);
      assert forall y | y in ops :: y in rest || y == last;
      AppendCompatible(ops, x);
    }
  }

  lemma {:induction false} StableSortPairs(ops: seq<Op>)
    requires AllCompatible(StableSort(ops))
    ensures AllCompatible(ops)
  {
    hide AllCompatible, InsertSorted;
    if ops == [] {
      assert AllCompatible(ops) by { NoneCompatible(); }
    } else {
      var rest, last := ops[..|ops| - 1], ops[|ops| - 1];
      InsertSortedPairs(StableSort(rest), last);
      AppendCompatible(StableSort(rest), last);
      StableSortPairs(rest);
      StableSortFacts(rest);
      AppendCompatible(rest, last);
      assert ops == rest + [last];
    }
  }

  lemma NoneCompatible()
    ensures AllCompatible([])
  {}

  /** Sorted and compatible operations are chained. */
  lemma SortedIsChained(raw: Bytes, ops: seq<Op>)
    requires Sorted(ops) && AllCompatible(ops) && AllIn(raw, ops)
    ensures Chained(raw, ops, 0)
  {
    forall i, j | 0 <= i < j < |ops| ensures ops[i].end <= ops[j].start {
      assert !After(ops[i], ops[j]) && Compatible(ops[i], ops[j]);
    }
  }

  /** The bytes written are exactly what the edits mean. */
  lemma SpliceMeaning(raw: Bytes, ops: seq<Op>)
    requires AllIn(raw, ops) && AllCompatible(ops)
    ensures Chained(raw, StableSort(ops), 0)
    ensures Splice(raw, StableSort(ops), 0) == Render(raw, ops, 0)
  {
    var sorted := StableSort(ops);
    StableSortFacts(ops);
    StableSortKeepsPairs(ops);
    forall i | 0 <= i < |sorted| ensures OpIn(raw, sorted[i]) {
      assert sorted[i] in sorted;
    }
    SortedIsChained(raw, sorted);
    SpliceIsRender(raw, sorted, 0);
    SortKeepsMeaning(raw, ops, 0);
  }

  // ---------------------------------------------------------------- skipped operations

  lemma ChainCons(raw: Bytes, x: Op, ops: seq<Op>, cursor: nat)
    requires OpIn(raw, x) && cursor <= x.start && Chained(raw, ops, x.end)
    ensures Chained(raw, [x] + ops, cursor)
  {
    var all := [x] + ops;
    forall i, j | 0 <= i < j < |all| ensures all[i].end <= all[j].start {
      if i > 0 { assert ops[i - 1].end <= ops[j - 1].start; }
    }
  }

  /** What is not skipped is chained, whatever the operations were. */
  lemma {:induction false} WrittenChained(raw: Bytes, ops: seq<Op>, cursor: nat)
    ensures Chained(raw, Written(raw, ops, cursor), cursor)
    decreases |ops|
  {
    hide Chained;
    if ops == [] {
      assert Chained(raw, [], cursor) by { EmptyChain(raw, cursor); }
    } else if Skips(raw, cursor, ops[0]) {
      WrittenChained(raw, ops[1..], cursor);
    } else {
      WrittenChained(raw, ops[1..], ops[0].end);
      ChainCons(raw, ops[0], Written(raw, ops[1..], ops[0].end), cursor);
    }
  }

  lemma EmptyChain(raw: Bytes, cursor: nat)
    ensures Chained(raw, [], cursor)
  {}

  lemma {:induction false} SpliceSkips(raw: Bytes, ops: seq<Op>, cursor: nat)
    requires cursor <= |raw|
    ensures Splice(raw, ops, cursor) == Splice(raw, Written(raw, ops, cursor), cursor)
    decreases |ops|
  {
    if ops != [] {
      var x, rest := ops[0], ops[1..];
      if Skips(raw, cursor, x) {
        SpliceSkips(raw, rest, cursor);
      } else {
        SpliceSkips(raw, rest, x.end);
        assert ([x] + Written(raw, rest, x.end))[1..] == Written(raw, rest, x.end);
      }
    }
  }

  /** For every list of operations, what the cursor loop writes is the edited text of those it does not
      skip. */
  lemma SpliceIsWritten(raw: Bytes, ops: seq<Op>)
    ensures Splice(raw, ops, 0) == Render(raw, Written(raw, ops, 0), 0)
  {
    hide Splice, Written, Render, Chained;
    SpliceSkips(raw, ops, 0);
    WrittenChained(raw, ops, 0);
    SpliceIsRender(raw, Written(raw, ops, 0), 0);
  }

  lemma {:induction false} ChainedIsWritten(raw: Bytes, ops: seq<Op>, cursor: nat)
    requires Chained(raw, ops, cursor)
    ensures Written(raw, ops, cursor) == ops
    decreases |ops|
  {
    hide Chained;
    if ops != [] {
      ChainedTail(raw, ops, cursor);
      ChainedIsWritten(raw, ops[1..], ops[0].end);
    }
  }

  lemma ChainedCompatible(raw: Bytes, ops: seq<Op>, cursor: nat)
    requires Chained(raw, ops, cursor)
    ensures AllCompatible(ops)
  {}

  /** The cursor loop skips none of the sorted operations if and only if no two of them overlap. */
  lemma NothingSkipped(raw: Bytes, ops: seq<Op>)
    requires AllIn(raw, ops)
    ensures Written(raw, StableSort(ops), 0) == StableSort(ops) <==> AllCompatible(ops)
  {
    hide Written, Chained, AllCompatible;
    var sorted := StableSort(ops);
    if AllCompatible(ops) {
      SpliceMeaning(raw, ops);
      ChainedIsWritten(raw, sorted, 0);
    }
    if Written(raw, sorted, 0) == sorted {
      WrittenChained(raw, sorted, 0);
      ChainedCompatible(raw, sorted, 0);
      StableSortPairs(ops);
    }
  }

  /** Where the cursor is after the operations. */
  function CursorAfter(raw: Bytes, ops: seq<Op>, cursor: nat): nat {
    if ops == [] then cursor
    else CursorAfter(raw, ops[1..], if Skips(raw, cursor, ops[0]) then cursor else ops[0].end)
  }

  lemma {:induction false} WrittenLast(raw: Bytes, ops: seq<Op>, x: Op, cursor: nat)
    ensures var c := CursorAfter(raw, ops, cursor);
      && Written(raw, ops + [x], cursor) == Written(raw, ops, cursor) + (if Skips(raw, c, x) then [] else [x])
      && CursorAfter(raw, ops + [x], cursor) == (if Skips(raw, c, x) then c else x.end)
    decreases |ops|
  {
    if ops == [] {
      assert ops + [x] == [x] && [x][1..] == [];
    } else {
      assert (ops + [x])[0] == ops[0] && (ops + [x])[1..] == ops[1..] + [x];
      var next := if Skips(raw, cursor, ops[0]) then cursor else ops[0].end;
      WrittenLast(raw, ops[1..], x, next);
      if !Skips(raw, cursor, ops[0]) {
        var more := if Skips(raw, CursorAfter(raw, ops, cursor), x) then [] else [x];
        Regroup([ops[0]], Written(raw, ops[1..], next), more);
      }
    }
  }

  /** A replacement puts its own text, and nothing else, where its span starts. */
  lemma {:induction false} ReplacementLands(ops: seq<Op>, k: nat)
    requires AllCompatible(ops) && k < |ops| && ops[k].start < ops[k].end
    ensures ReplacedAt(ops, ops[k].start) == ops[k].text
  {
    var p, rest, last := ops[k].start, ops[..|ops| - 1], ops[|ops| - 1];
    if k < |rest| {
      assert Compatible(ops[k], last);
      ReplacementLands(rest, k);
    } else {
      NoReplacement(rest, last);
    }
  }

  lemma {:induction false} NoReplacement(ops: seq<Op>, x: Op)
    requires x.start < x.end && forall i | 0 <= i < |ops| :: Compatible(ops[i], x)
    ensures ReplacedAt(ops, x.start) == []
  {
    if ops != [] {
      assert Compatible(ops[|ops| - 1], x);
      NoReplacement(ops[..|ops| - 1], x);
    }
  }
}
