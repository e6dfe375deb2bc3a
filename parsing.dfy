/** The message-template tokenizer: a four-state character scanner that splits a
    template into literal text, argument numbers (`%1`, `%2`, ...), newline tokens
    and the group markers `[`, `]` and `]*`. */
module Parsing {
  import opened Text

  /** A token is a string or a number, as in the source's `(string | number)[]`. */
  datatype Token = Str(s: string) | Num(n: nat)

  const GroupStart: string := "["
  const GroupEnd: char := ']'

  /** One entry of the character array: the template's characters followed by the
      empty-string end marker that `chars.push('')` appends. */
  datatype Sym = Chr(c: char) | EndMarker

  function SymAt(m: string, i: nat): Sym
    requires i <= |m|
  {
    if i < |m| then Chr(m[i]) else EndMarker
  }

  /** The text a symbol contributes when pushed into the buffer (the end marker is ''). */
  function SymText(c: Sym): string {
    if c.Chr? then [c.c] else ""
  }

  /** 0 - base, 1 - `%` found, 2 - digit found, 3 - string-table reference found. */
  datatype ScanState = Base | Percent | Digits | MsgRef

  /** The scanner's variables: loop index, state, text buffer (joined), the digit run
      and the tokens emitted so far. */
  datatype Scan = Scan(i: nat, state: ScanState, buffer: string, number: string, tokens: seq<Token>)

  /** The string table, abstracted: for an upper-case key (after its `BKY_` prefix) the
      tokens its entry contributes (the recursive tokenization of a string entry, or the
      entry's text for any other value). */
  type StringTable = map<string, seq<Token>>

  /** `flushBuffer()`: the joined buffer becomes a token unless `trim()` leaves nothing. */
  function Flush(buffer: string, tokens: seq<Token>): seq<Token> {
    if IsBlank(buffer) then tokens else tokens + [Str(buffer)]
  }

  /** What a completed `%{key}` reference appends to the tokens. */
  function ResolveReference(rawKey: string, table: StringTable): seq<Token> {
    if HasAsciiLetter(rawKey) then
      var keyUpper := ToUpperAscii(rawKey);
      if |keyUpper| > 4 && keyUpper[..4] == "BKY_" && keyUpper[4..] in table then table[keyUpper[4..]]
      else [Str("%{" + rawKey + "}")]
    else [Str("%{" + rawKey + "}")]
  }

  /** A value that decreases with every loop iteration, rewinds included. */
  function Measure(m: string, s: Scan): nat
    requires s.i <= |m| + 1
  {
    2 * (|m| + 1 - s.i) + (if s.state == Digits || s.state == MsgRef then 1 else 0)
  }

  /** One iteration of the scanner loop, including its `i++`; a rewind (`i--`) leaves
      the index where it was. */
  function Step(m: string, table: StringTable, s: Scan): (r: Scan)
    requires s.i <= |m|
    ensures r.i <= |m| + 1 && Measure(m, r) < Measure(m, s)
    ensures r.i == |m| + 1 ==> r.state == Base
  {
    var c := SymAt(m, s.i);
    match s.state
    case Base =>
      if c == Chr('%') then Scan(s.i + 1, Percent, "", s.number, Flush(s.buffer, s.tokens))
      else if c == Chr('\n') then Scan(s.i + 1, Base, "", s.number, Flush(s.buffer, s.tokens) + [Str("\n")])
      else if c == Chr('[') then Scan(s.i + 1, Base, "", s.number, Flush(s.buffer, s.tokens) + [Str("[")])
      else if c == Chr(']') then
        if SymAt(m, s.i + 1) == Chr('*') then Scan(s.i + 2, Base, "", s.number, Flush(s.buffer, s.tokens) + [Str("]*")])
        else Scan(s.i + 1, Base, "", s.number, Flush(s.buffer, s.tokens) + [Str("]")])
      else Scan(s.i + 1, Base, s.buffer + SymText(c), s.number, s.tokens)
    case Percent =>
      if c == Chr('%') then Scan(s.i + 1, Base, s.buffer + "%", s.number, s.tokens)
      else if c.Chr? && IsDigit(c.c) then Scan(s.i + 1, Digits, "", [c.c], Flush(s.buffer, s.tokens))
      else if c == Chr('{') then Scan(s.i + 1, MsgRef, s.buffer, s.number, s.tokens)
      else Scan(s.i + 1, Base, s.buffer + "%" + SymText(c), s.number, s.tokens)
    case Digits =>
      if c.Chr? && IsDigit(c.c) then Scan(s.i + 1, Digits, s.buffer, s.number + [c.c], s.tokens)
      else Scan(s.i, Base, s.buffer, s.number, s.tokens + [Num(DecimalValue(s.number))])
    case MsgRef =>
      if c == EndMarker then Scan(s.i, Base, "%{" + s.buffer, s.number, s.tokens)
      else if c != Chr('}') then Scan(s.i + 1, MsgRef, s.buffer + [c.c], s.number, s.tokens)
      else Scan(s.i + 1, Base, "", s.number, s.tokens + ResolveReference(s.buffer, table))
  }

  /** The scanner loop run to completion from a given point. */
  function Run(m: string, table: StringTable, s: Scan): (r: Scan)
    requires s.i <= |m| + 1
    ensures r.i == |m| + 1
    ensures (s.i <= |m| || s.state == Base) ==> r.state == Base
    decreases Measure(m, s)
  {
    if s.i > |m| then s else Run(m, table, Step(m, table, s))
  }

  const Start: Scan := Scan(0, Base, "", "", [])

  /** `tokenizeInterpolationWithGroups(message)`: the loop, then the final flush. The
      merge pass's output is discarded by the source, so the unmerged tokens are the
      result. */
  function Tokenize(m: string, table: StringTable): seq<Token> {
    var e := Run(m, table, Start);
    Flush(e.buffer, e.tokens)
  }

  /** The scanner as the source writes it: one loop over the characters plus the end
      marker, with `i--` rewinds. The merge loop the source runs afterwards builds a
      list it never returns, so it is not repeated here (see `Merged`). */
  method TokenizeInterpolationWithGroups(message: string, table: StringTable) returns (tokens: seq<Token>)
    ensures tokens == Tokenize(message, table)
  {
    var state := Base;
    var buffer := "";
    var number := "";
    tokens := [];
    var i: int := 0;
    while i < |message| + 1
      invariant 0 <= i <= |message| + 1
      invariant (state == Digits || state == MsgRef) ==> i >= 1
      invariant Run(message, table, Scan(i, state, buffer, number, tokens)) == Run(message, table, Start)
      decreases Measure(message, Scan(i, state, buffer, number, tokens))
    {
      ghost var before := Scan(i, state, buffer, number, tokens);
      var c := SymAt(message, i);
      if state == Base {
        if c == Chr('%') {
          tokens, buffer := Flush(buffer, tokens), "";
          state := Percent;
        } else if c == Chr('\n') {
          tokens, buffer := Flush(buffer, tokens), "";
          tokens := tokens + [Str("\n")];
        } else if c == Chr('[') || c == Chr(']') {
          tokens, buffer := Flush(buffer, tokens), "";
          var t := [c.c];
          if c == Chr(']') && SymAt(message, i + 1) == Chr('*') {
            t := t + [SymAt(message, i + 1).c];
            i := i + 1;
            assert t == "]*";
          }
          tokens := tokens + [Str(t)];
        } else {
          buffer := buffer + SymText(c);
        }
      } else if state == Percent {
        if c == Chr('%') {
          buffer := buffer + "%";
          state := Base;
        } else if c.Chr? && IsDigit(c.c) {
          state := Digits;
          number := [c.c];
          tokens, buffer := Flush(buffer, tokens), "";
        } else if c == Chr('{') {
          state := MsgRef;
        } else {
          buffer := buffer + "%" + SymText(c);
          state := Base;
        }
      } else if state == Digits {
        if c.Chr? && IsDigit(c.c) {
          number := number + [c.c];
        } else {
          tokens := tokens + [Num(DecimalValue(number))];
          i := i - 1;
          state := Base;
        }
      } else {
        if c == EndMarker {
          buffer := "%{" + buffer;
          i := i - 1;
          state := Base;
        } else if c != Chr('}') {
          buffer := buffer + [c.c];
        } else {
          tokens := tokens + ResolveReference(buffer, table);
          buffer := "";
          state := Base;
        }
      }
      i := i + 1;
      assert Scan(i, state, buffer, number, tokens) == Step(message, table, before);
    }
    tokens := Flush(buffer, tokens);
  }

  // ---------------------------------------------------------------------------
  // What the scanner emits

  /** Literal text as the scanner emits it: not blank (so `trim()` keeps it) and not
      starting with a bracket, so the interpolator never reads it as a group marker. */
  predicate PlainText(s: string) {
    !IsBlank(s) && |s| > 0 && s[0] != '[' && s[0] != ']'
  }

  /** A number, one of the four structural strings, or plain text. */
  predicate TokenOk(t: Token) {
    t.Num? || t.s == "\n" || t.s == "[" || t.s == "]" || t.s == "]*" || PlainText(t.s)
  }

  predicate TableOk(table: StringTable) {
    forall key, t :: key in table && t in table[key] ==> TokenOk(t)
  }

  predicate BufferOk(b: string) {
    |b| == 0 || (b[0] != '[' && b[0] != ']')
  }

  /** What holds of the scanner's variables between iterations. */
  predicate ScanOk(s: Scan) {
    && (forall t :: t in s.tokens ==> TokenOk(t))
    && (s.state == Percent || s.state == Digits ==> s.buffer == "")
    && (s.state == Base ==> BufferOk(s.buffer))
  }

  lemma FlushOk(buffer: string, tokens: seq<Token>)
    requires BufferOk(buffer) && forall t :: t in tokens ==> TokenOk(t)
    ensures forall t :: t in Flush(buffer, tokens) ==> TokenOk(t)
  {
  }

  lemma StepOk(m: string, table: StringTable, s: Scan)
    requires s.i <= |m| && ScanOk(s) && TableOk(table)
    ensures ScanOk(Step(m, table, s))
  {
    var c := SymAt(m, s.i);
    if s.state == Base {
      FlushOk(s.buffer, s.tokens);
    } else if s.state == MsgRef && c == Chr('}') {
      var lit := "%{" + s.buffer + "}";
      assert lit[0] == '%' && !IsJsWhitespace(lit[0]);
      assert PlainText(lit);
    }
  }

  lemma {:induction false} RunOk(m: string, table: StringTable, s: Scan)
    requires s.i <= |m| + 1 && ScanOk(s) && TableOk(table)
    ensures ScanOk(Run(m, table, s))
    decreases Measure(m, s)
  {
    if s.i <= |m| {
      StepOk(m, table, s);
      RunOk(m, table, Step(m, table, s));
    }
  }

  /** Every token is a number, a structural string or plain text: a flush never emits an
      empty or whitespace-only string, and literal text never starts with a bracket
      (given string-table entries of the same kind). */
  lemma TokensOk(m: string, table: StringTable)
    requires TableOk(table)
    ensures forall t :: t in Tokenize(m, table) ==> TokenOk(t)
  {
    RunOk(m, table, Start);
    var e := Run(m, table, Start);
    FlushOk(e.buffer, e.tokens);
  }

  // ---------------------------------------------------------------------------
  // How each construct of the template is scanned, from the base state

  predicate AllDigitsFrom(m: string, lo: int, hi: int)
    requires 0 <= lo <= hi <= |m|
  {
    forall k :: lo <= k < hi ==> IsDigit(m[k])
  }

  lemma {:induction false} DigitRun(m: string, table: StringTable, k: nat, p: nat, j: nat, buffer: string, tokens: seq<Token>)
    requires k + 1 < p <= j <= |m| && AllDigitsFrom(m, k + 1, j)
    requires j == |m| || !IsDigit(m[j])
    ensures Run(m, table, Scan(p, Digits, buffer, m[k + 1..p], tokens))
         == Run(m, table, Scan(j, Base, buffer, m[k + 1..j], tokens + [Num(DecimalValue(m[k + 1..j]))]))
    decreases j - p
  {
    if p < j {
      assert m[k + 1..p] + [m[p]] == m[k + 1..p + 1];
      DigitRun(m, table, k, p + 1, j, buffer, tokens);
    }
  }

  /** `%` followed by a run of digits yields exactly one number token, the run read in
      base 10, after the pending text has been flushed; scanning resumes in the base state
      at the first character after the run. */
  lemma ArgumentReference(m: string, table: StringTable, s: Scan, j: nat)
    requires s.state == Base && s.i + 1 < j <= |m|
    requires m[s.i] == '%' && AllDigitsFrom(m, s.i + 1, j)
    requires j == |m| || !IsDigit(m[j])
    ensures Run(m, table, s)
         == Run(m, table, Scan(j, Base, "", m[s.i + 1..j], Flush(s.buffer, s.tokens) + [Num(DecimalValue(m[s.i + 1..j]))]))
  {
    var k := s.i;
    var s1 := Step(m, table, s);
    assert s1 == Scan(k + 1, Percent, "", s.number, Flush(s.buffer, s.tokens));
    var s2 := Step(m, table, s1);
    assert s2 == Scan(k + 2, Digits, "", m[k + 1..k + 2], Flush(s.buffer, s.tokens));
    DigitRun(m, table, k, k + 2, j, "", Flush(s.buffer, s.tokens));
  }

  /** `%%` puts a single `%` into the text buffer and emits no token of its own. */
  lemma EscapedPercent(m: string, table: StringTable, s: Scan)
    requires s.state == Base && s.i + 1 < |m| && m[s.i] == '%' && m[s.i + 1] == '%'
    ensures Run(m, table, s) == Run(m, table, Scan(s.i + 2, Base, "%", s.number, Flush(s.buffer, s.tokens)))
  {
    var s1 := Step(m, table, s);
    assert Step(m, table, s1) == Scan(s.i + 2, Base, "%", s.number, Flush(s.buffer, s.tokens));
  }

  /** `%` followed by anything but `%`, a digit or `{` (the end of the template included)
      is kept as literal text, the `%` and that character. */
  lemma LiteralPercent(m: string, table: StringTable, s: Scan)
    requires s.state == Base && s.i < |m| && m[s.i] == '%'
    requires var c := SymAt(m, s.i + 1); c != Chr('%') && c != Chr('{') && !(c.Chr? && IsDigit(c.c))
    ensures Run(m, table, s)
         == Run(m, table, Scan(s.i + 2, Base, "%" + SymText(SymAt(m, s.i + 1)), s.number, Flush(s.buffer, s.tokens)))
  {
    var s1 := Step(m, table, s);
    assert Step(m, table, s1) == Scan(s.i + 2, Base, "%" + SymText(SymAt(m, s.i + 1)), s.number, Flush(s.buffer, s.tokens));
  }

  /** In the base state `[` and `]` are tokens of their own (pending text flushed first),
      and a `]` immediately followed by `*` is the single token `]*`, the `*` consumed. */
  lemma GroupMarkers(m: string, table: StringTable, s: Scan)
    requires s.state == Base && s.i < |m| && (m[s.i] == '[' || m[s.i] == ']')
    ensures m[s.i] == '[' ==>
      Run(m, table, s) == Run(m, table, Scan(s.i + 1, Base, "", s.number, Flush(s.buffer, s.tokens) + [Str("[")]))
    ensures m[s.i] == ']' && s.i + 1 < |m| && m[s.i + 1] == '*' ==>
      Run(m, table, s) == Run(m, table, Scan(s.i + 2, Base, "", s.number, Flush(s.buffer, s.tokens) + [Str("]*")]))
    ensures m[s.i] == ']' && !(s.i + 1 < |m| && m[s.i + 1] == '*') ==>
      Run(m, table, s) == Run(m, table, Scan(s.i + 1, Base, "", s.number, Flush(s.buffer, s.tokens) + [Str("]")]))
  {
  }

  /** A newline in the base state is a standalone `"\n"` token. */
  lemma NewlineToken(m: string, table: StringTable, s: Scan)
    requires s.state == Base && s.i < |m| && m[s.i] == '\n'
    ensures Run(m, table, s) == Run(m, table, Scan(s.i + 1, Base, "", s.number, Flush(s.buffer, s.tokens) + [Str("\n")]))
  {
  }

  lemma {:induction false} ReferenceToEnd(m: string, table: StringTable, k: nat, p: nat, number: string, tokens: seq<Token>)
    requires k + 2 <= p <= |m|
    requires forall q :: k + 2 <= q < |m| ==> m[q] != '}'
    ensures Run(m, table, Scan(p, MsgRef, m[k + 2..p], number, tokens))
         == Scan(|m| + 1, Base, "%{" + m[k + 2..], number, tokens)
    decreases |m| - p
  {
    if p < |m| {
      assert m[k + 2..p] + [m[p]] == m[k + 2..p + 1];
      ReferenceToEnd(m, table, k, p + 1, number, tokens);
    } else {
      assert m[k + 2..p] == m[k + 2..];
      var s1 := Step(m, table, Scan(p, MsgRef, m[k + 2..p], number, tokens));
      assert s1 == Scan(|m|, Base, "%{" + m[k + 2..], number, tokens);
      var s2 := Step(m, table, s1);
      assert s2 == Scan(|m| + 1, Base, "%{" + m[k + 2..], number, tokens);
      assert Run(m, table, s1) == Run(m, table, s2) == s2;
    }
  }

  /** A `%{` that is never closed is literal text: the scan ends with the buffer holding
      `%{` and the rest of the template, which the final flush emits. */
  lemma UnterminatedReference(m: string, table: StringTable, s: Scan)
    requires s.state == Base && s.i + 1 < |m| && m[s.i] == '%' && m[s.i + 1] == '{'
    requires forall q :: s.i + 2 <= q < |m| ==> m[q] != '}'
    ensures Run(m, table, s) == Scan(|m| + 1, Base, "%{" + m[s.i + 2..], s.number, Flush(s.buffer, s.tokens))
  {
    var s1 := Step(m, table, s);
    var s2 := Step(m, table, s1);
    assert s2 == Scan(s.i + 2, MsgRef, m[s.i + 2..s.i + 2], s.number, Flush(s.buffer, s.tokens));
    ReferenceToEnd(m, table, s.i, s.i + 2, s.number, Flush(s.buffer, s.tokens));
  }

  predicate Ordinary(c: char) {
    c != '%' && c != '\n' && c != '[' && c != ']'
  }

  /** In the base state, a stretch of characters other than `%`, newline and brackets is
      appended to the text buffer as it stands and emits nothing. */
  lemma {:induction false} OrdinaryText(m: string, table: StringTable, p: nat, q: nat, buffer: string, number: string, tokens: seq<Token>)
    requires p <= q <= |m| && forall k :: p <= k < q ==> Ordinary(m[k])
    ensures Run(m, table, Scan(p, Base, buffer, number, tokens)) == Run(m, table, Scan(q, Base, buffer + m[p..q], number, tokens))
    decreases q - p
  {
    if p < q {
      assert Step(m, table, Scan(p, Base, buffer, number, tokens)) == Scan(p + 1, Base, buffer + [m[p]], number, tokens);
      OrdinaryText(m, table, p + 1, q, buffer + [m[p]], number, tokens);
      assert buffer + [m[p]] + m[p + 1..q] == buffer + m[p..q];
    } else {
      assert buffer + m[p..q] == buffer;
    }
  }

  // ---------------------------------------------------------------------------
  // The discarded merge pass, and examples

  /** Text the merge pass would join with its neighbours: any string but a newline or a
      group marker. */
  predicate Mergeable(t: Token) {
    t.Str? && t.s != "\n" && t.s != "[" && (|t.s| == 0 || t.s[0] != ']')
  }

  function MergeFrom(tokens: seq<Token>, text: string, merged: seq<Token>): seq<Token> {
    var pending := if text != "" then [Str(text)] else [];
    if tokens == [] then merged + pending
    else if Mergeable(tokens[0]) then MergeFrom(tokens[1..], text + tokens[0].s, merged)
    else MergeFrom(tokens[1..], "", merged + pending + [tokens[0]])
  }

  /** The list the source's merge loop builds and then drops. */
  function Merged(tokens: seq<Token>): seq<Token> {
    MergeFrom(tokens, "", [])
  }

  /** `"a%%b"` is two tokens: the flush at `%` splits the text, and the merge that
      would rejoin it is discarded. */
  lemma EscapeSplitsText(m: string)
    requires m == "a%%b"
    ensures Tokenize(m, map[]) == [Str("a"), Str("%b")]
    ensures Merged(Tokenize(m, map[])) == [Str("a%b")]
  {
    var t: StringTable := map[];
    var s1 := Scan(1, Base, "a", "", []);
    assert Step(m, t, Start) == s1;
    EscapedPercent(m, t, s1);
    assert Flush("a", []) == [Str("a")];
    var s2 := Scan(3, Base, "%", "", [Str("a")]);
    var s3 := Scan(4, Base, "%b", "", [Str("a")]);
    var e := Scan(5, Base, "%b", "", [Str("a")]);
    assert Step(m, t, s2) == s3;
    assert Step(m, t, s3) == e;
    assert Run(m, t, Start) == Run(m, t, s1) == Run(m, t, s2) == Run(m, t, s3) == e;
    assert !IsBlank("%b");
    assert Tokenize(m, t) == [Str("a"), Str("%b")];
    assert MergeFrom([Str("a"), Str("%b")], "", []) == MergeFrom([Str("%b")], "a", []);
    assert "a" + "%b" == "a%b";
    assert MergeFrom([Str("%b")], "a", []) == MergeFrom([], "a%b", []);
  }

  /** `"100%% done"` is `["100", "% done"]`, not one merged literal. */
  lemma EscapedPercentExample(m: string)
    requires m == "100%% done"
    ensures Tokenize(m, map[]) == [Str("100"), Str("% done")]
  {
    var t: StringTable := map[];
    OrdinaryText(m, t, 0, 3, "", "", []);
    assert "" + m[0..3] == "100";
    EscapedPercent(m, t, Scan(3, Base, "100", "", []));
    assert Flush("100", []) == [Str("100")];
    OrdinaryText(m, t, 5, 10, "%", "", [Str("100")]);
    assert "%" + m[5..10] == "% done";
    var e := Scan(11, Base, "% done", "", [Str("100")]);
    assert Step(m, t, Scan(10, Base, "% done", "", [Str("100")])) == e;
    assert Run(m, t, Start) == e;
    assert !IsBlank("% done");
  }

  /** `"[%1]*"`: a group start, the argument and a `*` group end. */
  lemma RepeatedGroupExample(m: string)
    requires m == "[%1]*"
    ensures Tokenize(m, map[]) == [Str("["), Num(1), Str("]*")]
  {
    var t: StringTable := map[];
    assert Flush("", []) == [];
    GroupMarkers(m, t, Start);
    assert Start.i == 0 && Start.state == Base && m[0] == '[';
    assert Flush(Start.buffer, Start.tokens) + [Str("[")] == [Str("[")];
    assert Run(m, t, Start) == Run(m, t, Scan(1, Base, "", "", [Str("[")]));
    assert m[2..3] == "1" && DecimalValue("1") == 1;
    assert Flush("", [Str("[")]) + [Num(1)] == [Str("["), Num(1)];
    ArgumentReference(m, t, Scan(1, Base, "", "", [Str("[")]), 3);
    assert Run(m, t, Start) == Run(m, t, Scan(3, Base, "", "1", [Str("["), Num(1)]));
    GroupMarkers(m, t, Scan(3, Base, "", "1", [Str("["), Num(1)]));
    assert Flush("", []) == [] && Flush("", [Str("["), Num(1)]) == [Str("["), Num(1)];
    assert Run(m, t, Start) == Run(m, t, Scan(5, Base, "", "1", [Str("["), Num(1), Str("]*")]));
  }

  /** `"[%1]"`: a group start, the argument and a plain group end. */
  lemma OptionalGroupExample(m: string)
    requires m == "[%1]"
    ensures Tokenize(m, map[]) == [Str("["), Num(1), Str("]")]
  {
    var t: StringTable := map[];
    assert Flush("", []) == [];
    GroupMarkers(m, t, Start);
    assert Start.i == 0 && Start.state == Base && m[0] == '[';
    assert Flush(Start.buffer, Start.tokens) + [Str("[")] == [Str("[")];
    assert Run(m, t, Start) == Run(m, t, Scan(1, Base, "", "", [Str("[")]));
    assert m[2..3] == "1" && DecimalValue("1") == 1;
    assert Flush("", [Str("[")]) + [Num(1)] == [Str("["), Num(1)];
    ArgumentReference(m, t, Scan(1, Base, "", "", [Str("[")]), 3);
    assert Run(m, t, Start) == Run(m, t, Scan(3, Base, "", "1", [Str("["), Num(1)]));
    GroupMarkers(m, t, Scan(3, Base, "", "1", [Str("["), Num(1)]));
    assert Flush("", []) == [] && Flush("", [Str("["), Num(1)]) == [Str("["), Num(1)];
    var e := Scan(4, Base, "", "1", [Str("["), Num(1), Str("]")]);
    assert Step(m, t, e) == Scan(5, Base, "", "1", [Str("["), Num(1), Str("]")]);
    assert Run(m, t, Start) == Run(m, t, e);
  }
}
