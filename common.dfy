/** Option and Result wrappers used across the model. */
module Std {

  datatype Option<+T> = None | Some(value: T)

  /** The outcome of a step of the source that can throw: `Crash` stands for a
      JavaScript exception (a TypeError on `undefined`, or an explicit `throw`). */
  datatype Result<+T> = Ok(value: T) | Crash(reason: string)
}

/** Character and string helpers with JavaScript's meaning. */
module Text {

  /** `'0' <= c && c <= '9'` on a one-character string. */
  predicate IsDigit(c: char) {
    '0' <= c <= '9'
  }

  predicate AllDigits(s: string) {
    forall k :: 0 <= k < |s| ==> IsDigit(s[k])
  }

  function DigitValue(c: char): nat {
    if IsDigit(c) then c as int - '0' as int else 0
  }

  /** `parseInt(s, 10)` on a non-empty run of decimal digits (the only strings
      the tokenizer hands it). */
  function DecimalValue(s: string): nat {
    if s == [] then 0 else 10 * DecimalValue(s[..|s| - 1]) + DigitValue(s[|s| - 1])
  }

  /** Decimal rendering of a natural number, as `${n}` gives it. */
  function NatToString(n: nat): (s: string)
    ensures |s| > 0 && AllDigits(s)
  {
    if n < 10 then [('0' as int + n) as char]
    else NatToString(n / 10) + [('0' as int + n % 10) as char]
  }

  /** Reading a rendered number back gives the number: the rendering loses nothing. */
  lemma {:induction false} DecimalOfNatToString(n: nat)
    ensures DecimalValue(NatToString(n)) == n
  {
    if n >= 10 {
      var s := NatToString(n);
      assert s[..|s| - 1] == NatToString(n / 10);
      DecimalOfNatToString(n / 10);
    }
  }

  lemma NatToStringInjective(a: nat, b: nat)
    requires NatToString(a) == NatToString(b)
    ensures a == b
  {
    DecimalOfNatToString(a);
    DecimalOfNatToString(b);
  }

  /** The characters `String.prototype.trim` removes: WhiteSpace and LineTerminator. */
  predicate IsJsWhitespace(c: char) {
    c == '\t' || c == '\n' || c == '\U{B}' || c == '\U{C}' || c == '\r' || c == ' '
    || c == '\U{A0}' || c == '\U{1680}' || ('\U{2000}' <= c <= '\U{200A}')
    || c == '\U{2028}' || c == '\U{2029}' || c == '\U{202F}' || c == '\U{205F}'
    || c == '\U{3000}' || c == '\U{FEFF}'
  }

  /** `s.trim()` is the empty (falsy) string. */
  predicate IsBlank(s: string) {
    s == [] || (IsJsWhitespace(s[0]) && IsBlank(s[1..]))
  }

  predicate IsAsciiLetter(c: char) {
    'a' <= c <= 'z' || 'A' <= c <= 'Z'
  }

  // The key test of the string-table branch, the regular expression [A-Z]\w* with
  // the i flag: it is unanchored and \w* may match nothing, so it holds exactly
  // when `s` contains an ASCII letter.
  predicate HasAsciiLetter(s: string) {
    exists k :: 0 <= k < |s| && IsAsciiLetter(s[k])
  }

  function UpperAscii(c: char): char {
    if 'a' <= c <= 'z' then (c as int - 32) as char else c
  }

  /** `s.toUpperCase()` restricted to ASCII letters. */
  function ToUpperAscii(s: string): (r: string)
    ensures |r| == |s|
    ensures forall k :: 0 <= k < |s| ==> r[k] == UpperAscii(s[k])
  {
    if s == [] then [] else [UpperAscii(s[0])] + ToUpperAscii(s[1..])
  }

  /** `parts.join(sep)`. */
  function Join(parts: seq<string>, sep: string): string {
    if |parts| == 0 then ""
    else if |parts| == 1 then parts[0]
    else parts[0] + sep + Join(parts[1..], sep)
  }

  /** The `uid()` supply: the n-th id handed out. Distinct counters give distinct ids. */
  function Uid(n: nat): string {
    "g" + NatToString(n)
  }

  lemma UidInjective(a: nat, b: nat)
    ensures Uid(a) == Uid(b) ==> a == b
  {
    if Uid(a) == Uid(b) {
      assert Uid(a)[1..] == NatToString(a) && Uid(b)[1..] == NatToString(b);
      NatToStringInjective(a, b);
    }
  }
}

/** A rendered input of a block: a value input, a statement input or a dummy input
    (named by its label), and whether it is shown. */
module Inputs {
  datatype InputKind = ValueInput | StatementInput | DummyInput

  datatype View = View(kind: InputKind, name: string, visible: bool)

  /** The host's emptiness checks: an input is empty unless a non-shadow block is
      connected to it, and `connected` names the inputs that have one. */
  predicate InputEmpty(connected: set<string>, name: string) {
    name !in connected
  }
}
