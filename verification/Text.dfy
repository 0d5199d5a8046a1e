/** Byte strings and the character classes shared by the TOML and JSON modules.
    A Go byte is modelled as a `char` whose code is the byte's value. */
module Text {

  type Bytes = string

  datatype Option<+T> = None | Some(value: T) {
    predicate IsFailure() { None? }

    function PropagateFailure<U>(): Option<U>
      requires None?
    { None }

    function Extract(): T
      requires Some?
    { value }
  }

  predicate IsDigit(c: char) { '0' <= c <= '9' }

  predicate IsBlank(c: char) { c == ' ' || c == '\t' }

  predicate IsNewline(c: char) { c == '\n' || c == '\r' }

  predicate IsBareKeyChar(c: char) {
    'A' <= c <= 'Z' || 'a' <= c <= 'z' || IsDigit(c) || c == '_' || c == '-'
  }

  predicate IsPrintable(c: char) { ' ' <= c < '\U{7f}' }

  lemma Regroup<T>(a: seq<T>, b: seq<T>, c: seq<T>)
    ensures a + (b + c) == a + b + c
  {}

  /** End of the longest space/tab run that starts at `i` (the kernel `scan.SkipWhitespace`). */
  function BlankEnd(b: Bytes, i: nat): (j: nat)
    requires i <= |b|
    ensures i <= j <= |b|
    ensures forall k | i <= k < j :: IsBlank(b[k])
    ensures j < |b| ==> !IsBlank(b[j])
    decreases |b| - i
  {
    if i < |b| && IsBlank(b[i]) then BlankEnd(b, i + 1) else i
  }

  function TrimLeftBlanks(b: Bytes): (r: Bytes)
    ensures |r| <= |b|
    ensures r != [] ==> !IsBlank(r[0])
  {
    b[BlankEnd(b, 0)..]
  }

  function TrimRightBlanks(b: Bytes): (r: Bytes)
    ensures r <= b
    ensures r != [] ==> !IsBlank(r[|r| - 1])
    ensures b != [] && !IsBlank(b[0]) ==> r != []
  {
    if b != [] && IsBlank(b[|b| - 1]) then TrimRightBlanks(b[..|b| - 1]) else b
  }
}
