/**
 JSON texts as sequences of UTF-16 code units, and the string quoting of `JSON.stringify`
 (section 7 of RFC 8259, with lone surrogates written as escapes).
 */
module JsonText {

  type CodeUnit = c: int | 0 <= c < 0x1_0000

  type Text = seq<CodeUnit>

  const QUOTE: CodeUnit := 34
  const COMMA: CodeUnit := 44
  const COLON: CodeUnit := 58
  const OPEN_BRACKET: CodeUnit := 91
  const BACKSLASH: CodeUnit := 92
  const CLOSE_BRACKET: CodeUnit := 93
  const OPEN_BRACE: CodeUnit := 123
  const CLOSE_BRACE: CodeUnit := 125
  const NEWLINE: CodeUnit := 10

  const NULL_TEXT: Text := [110, 117, 108, 108]
  const TRUE_TEXT: Text := [116, 114, 117, 101]
  const FALSE_TEXT: Text := [102, 97, 108, 115, 101]

  /** The units of a text in ASCII. */
  function Ascii(s: string): Text
    requires forall i | 0 <= i < |s| :: s[i] < 128 as char
  {
    seq(|s|, i requires 0 <= i < |s| => s[i] as int)
  }

  /** The constants above are the units of these texts. */
  lemma Spelling()
    ensures NULL_TEXT == Ascii("null") && TRUE_TEXT == Ascii("true") && FALSE_TEXT == Ascii("false")
    ensures [QUOTE] == Ascii("\"") && [BACKSLASH] == Ascii("\\") && [COMMA] == Ascii(",") && [COLON] == Ascii(":")
    ensures [OPEN_BRACKET] == Ascii("[") && [CLOSE_BRACKET] == Ascii("]") && [OPEN_BRACE] == Ascii("{")
            && [CLOSE_BRACE] == Ascii("}") && [NEWLINE] == Ascii("\n")
  {
  }

  predicate IsHigh(c: CodeUnit) { 0xD800 <= c <= 0xDBFF }

  predicate IsLow(c: CodeUnit) { 0xDC00 <= c <= 0xDFFF }

  function HexDigit(n: int): CodeUnit
    requires 0 <= n < 16
  {
    if n < 10 then 48 + n else 87 + n
  }

  function UnicodeEscape(c: CodeUnit): Text {
    var q := c / 16;
    var p := q / 16;
    [BACKSLASH, 117, HexDigit(p / 16), HexDigit(p % 16), HexDigit(q % 16), HexDigit(c % 16)]
  }

  /** The letter of a two-unit escape, if `c` has one. */
  function ShortEscape(c: CodeUnit): int {
    if c == QUOTE then QUOTE else if c == BACKSLASH then BACKSLASH
    else if c == 8 then 98 else if c == 12 then 102 else if c == 10 then 110
    else if c == 13 then 114 else if c == 9 then 116 else -1
  }

  function EscapeUnit(c: CodeUnit, lone: bool): (r: Text)
    ensures r != [] && r[0] != QUOTE
  {
    if ShortEscape(c) >= 0 then [BACKSLASH, ShortEscape(c)]
    else if c < 32 || lone then UnicodeEscape(c)
    else [c]
  }

  /** A surrogate is lone unless a high one stands directly before a low one. */
  predicate Lone(afterHigh: bool, s: Text)
    requires s != []
  {
    (IsHigh(s[0]) && !(|s| > 1 && IsLow(s[1]))) || (IsLow(s[0]) && !afterHigh)
  }

  function Escape(afterHigh: bool, s: Text): Text
    decreases |s|
  {
    if s == [] then [] else EscapeUnit(s[0], Lone(afterHigh, s)) + Escape(IsHigh(s[0]), s[1..])
  }

  function Quote(s: Text): Text {
    [QUOTE] + Escape(false, s) + [QUOTE]
  }

  lemma Associate(a: Text, b: Text, c: Text)
    ensures (a + b) + c == a + (b + c)
  {
  }

  lemma Regroup(a: Text, b: Text, c: Text, d: Text, e: Text)
    ensures a + b + c + d + e == a + (b + (c + (d + e)))
  {
  }

  lemma UnicodeEscapeInjective(c: CodeUnit, d: CodeUnit)
    requires UnicodeEscape(c) == UnicodeEscape(d)
    ensures c == d
  {
  }

  lemma EscapeUnitDecodes(c: CodeUnit, l: bool, x: Text, d: CodeUnit, m: bool, y: Text)
    requires EscapeUnit(c, l) + x == EscapeUnit(d, m) + y
    ensures c == d && x == y
  {
    var e, f := EscapeUnit(c, l), EscapeUnit(d, m);
    assert (e + x)[0] == e[0] && (f + y)[0] == f[0];
    if e[0] == BACKSLASH {
      assert (e + x)[1] == e[1] && (f + y)[1] == f[1];
      if e[1] == 117 {
        assert e == (e + x)[..6] && f == (f + y)[..6];
        UnicodeEscapeInjective(c, d);
      }
    }
    assert |e| == |f|;
    assert x == (e + x)[|e|..] && y == (f + y)[|f|..];
  }

  lemma EscapeStep(h: bool, s: Text, x: Text)
    requires s != []
    ensures Escape(h, s) + x == EscapeUnit(s[0], Lone(h, s)) + (Escape(IsHigh(s[0]), s[1..]) + x)
    ensures (Escape(h, s) + x)[0] != QUOTE
  {
  }

  lemma {:induction false} EscapeDecodes(h: bool, a: Text, x: Text, b: Text, y: Text)
    requires x != [] && x[0] == QUOTE && y != [] && y[0] == QUOTE
    requires Escape(h, a) + x == Escape(h, b) + y
    ensures a == b && x == y
    decreases |a| + |b|
  {
    if a != [] { EscapeStep(h, a, x); } else { assert Escape(h, a) + x == x; }
    if b != [] { EscapeStep(h, b, y); } else { assert Escape(h, b) + y == y; }
    if a != [] && b != [] {
      EscapeUnitDecodes(a[0], Lone(h, a), Escape(IsHigh(a[0]), a[1..]) + x, b[0], Lone(h, b),
                        Escape(IsHigh(b[0]), b[1..]) + y);
      EscapeDecodes(IsHigh(a[0]), a[1..], x, b[1..], y);
      assert a == [a[0]] + a[1..] && b == [b[0]] + b[1..];
    }
  }

  /** Quoting is a prefix code: whatever follows, a quoted string determines the string. */
  lemma QuoteDecodes(a: Text, x: Text, b: Text, y: Text)
    requires Quote(a) + x == Quote(b) + y
    ensures a == b && x == y
  {
    assert (Quote(a) + x)[1..] == Escape(false, a) + ([QUOTE] + x);
    assert (Quote(b) + y)[1..] == Escape(false, b) + ([QUOTE] + y);
    EscapeDecodes(false, a, [QUOTE] + x, b, [QUOTE] + y);
    assert x == ([QUOTE] + x)[1..] && y == ([QUOTE] + y)[1..];
  }
}
