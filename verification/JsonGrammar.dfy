/**
 The grammar of JSON texts (RFC 8259, sections 2 to 7) as syntax trees: white space wherever it may stand,
 members in any order, any legal escape, any legal number.  A tree may also have gaps, elements of an
 array that are not there; the canonical printer leaves them, and a text with a gap is not JSON.
 */
module JsonGrammar {
  import opened JsonText

  datatype Syntax =
    | Token(text: Text)                             // null, true, false or a number
    | Quoted(chars: seq<Char>)
    | Array(space: Text, elements: seq<Element>)
    | Object(space: Text, members: seq<Entry>)
    | Gap

  datatype Element = Element(before: Text, value: Syntax, after: Text)

  datatype Entry = Entry(before: Text, key: seq<Char>, afterKey: Text, beforeValue: Text, value: Syntax, after: Text)

  datatype Char = Unescaped(c: CodeUnit) | Short(c: CodeUnit) | Hex(digits: Text)

  // ---------------------------------------------------------------- the text of a tree

  function WriteChar(c: Char): Text {
    match c
    case Unescaped(u) => [u]
    case Short(u) => [BACKSLASH, u]
    case Hex(digits) => [BACKSLASH, 117] + digits
  }

  function WriteChars(chars: seq<Char>): Text {
    if chars == [] then [] else WriteChar(chars[0]) + WriteChars(chars[1..])
  }

  function WriteString(chars: seq<Char>): Text {
    [QUOTE] + (WriteChars(chars) + [QUOTE])
  }

  function Write(v: Syntax): Text {
    match v
    case Token(text) => text
    case Quoted(chars) => WriteString(chars)
    case Array(space, elements) => [OPEN_BRACKET] + (space + WriteElements(elements) + [CLOSE_BRACKET])
    case Object(space, members) => [OPEN_BRACE] + (space + WriteMembers(members) + [CLOSE_BRACE])
    case Gap => []
  }

  function WriteElement(e: Element): Text {
    e.before + Write(e.value) + e.after
  }

  function WriteElements(elements: seq<Element>): Text {
    if elements == [] then []
    else WriteElement(elements[0]) + (if |elements| == 1 then [] else [COMMA] + WriteElements(elements[1..]))
  }

  function WriteMember(m: Entry): Text {
    m.before + WriteString(m.key) + m.afterKey + [COLON] + m.beforeValue + Write(m.value) + m.after
  }

  function WriteMembers(members: seq<Entry>): Text {
    if members == [] then []
    else WriteMember(members[0]) + (if |members| == 1 then [] else [COMMA] + WriteMembers(members[1..]))
  }

  // ---------------------------------------------------------------- which trees are JSON

  predicate IsSpace(t: Text) {
    forall i | 0 <= i < |t| :: t[i] == 32 || t[i] == 9 || t[i] == 10 || t[i] == 13
  }

  predicate IsDigits(t: Text) {
    t != [] && forall i | 0 <= i < |t| :: 48 <= t[i] <= 57
  }

  predicate IsMinus(t: Text) { t == [] || t == [45] }

  predicate IsWhole(t: Text) {
    IsDigits(t) && (t[0] == 48 ==> |t| == 1)
  }

  predicate IsFraction(t: Text) {
    t == [] || (t[0] == 46 && IsDigits(t[1..]))
  }

  predicate IsExponent(t: Text) {
    t == [] || ((t[0] == 69 || t[0] == 101)
                && (IsDigits(t[1..]) || (|t| > 2 && (t[1] == 43 || t[1] == 45) && IsDigits(t[2..]))))
  }

  ghost predicate IsNumber(t: Text) {
    exists minus, whole, fraction, exponent ::
      IsMinus(minus) && IsWhole(whole) && IsFraction(fraction) && IsExponent(exponent)
      && t == minus + whole + fraction + exponent
  }

  ghost predicate IsToken(t: Text) {
    t == NULL_TEXT || t == TRUE_TEXT || t == FALSE_TEXT || IsNumber(t)
  }

  predicate IsHexDigit(c: CodeUnit) {
    48 <= c <= 57 || 65 <= c <= 70 || 97 <= c <= 102
  }

  predicate CharOk(c: Char) {
    match c
    case Unescaped(u) => u >= 32 && u != QUOTE && u != BACKSLASH
    case Short(u) => u in [QUOTE, BACKSLASH, 47, 98, 102, 110, 114, 116]
    case Hex(digits) => |digits| == 4 && forall i | 0 <= i < 4 :: IsHexDigit(digits[i])
  }

  predicate CharsOk(chars: seq<Char>) {
    forall i | 0 <= i < |chars| :: CharOk(chars[i])
  }

  /** Every piece of text is what the grammar allows in its place. */
  ghost predicate Formed(v: Syntax) {
    match v
    case Token(text) => IsToken(text)
    case Quoted(chars) => CharsOk(chars)
    case Array(space, elements) => IsSpace(space) && forall i | 0 <= i < |elements| :: ElementFormed(elements[i])
    case Object(space, members) => IsSpace(space) && forall i | 0 <= i < |members| :: MemberFormed(members[i])
    case Gap => true
  }

  ghost predicate ElementFormed(e: Element) {
    IsSpace(e.before) && Formed(e.value) && IsSpace(e.after)
  }

  ghost predicate MemberFormed(m: Entry) {
    && IsSpace(m.before) && CharsOk(m.key) && IsSpace(m.afterKey)
    && IsSpace(m.beforeValue) && Formed(m.value) && IsSpace(m.after)
  }

  /** No gap anywhere. */
  predicate Complete(v: Syntax) {
    match v
    case Array(_, elements) => forall i | 0 <= i < |elements| :: Complete(elements[i].value)
    case Object(_, members) => forall i | 0 <= i < |members| :: Complete(members[i].value)
    case Gap => false
    case _ => true
  }

  ghost predicate Legal(v: Syntax) {
    Formed(v) && Complete(v)
  }

  /** `t` is the text of a JSON value. */
  ghost predicate IsJson(t: Text) {
    exists v :: Legal(v) && t == Write(v)
  }

  // ---------------------------------------------------------------- what strings mean

  function HexValue(c: CodeUnit): nat {
    if 48 <= c <= 57 then c - 48 else if 65 <= c <= 70 then c - 55 else if 97 <= c <= 102 then c - 87 else 0
  }

  /** The unit that a character of a string stands for (section 7 of RFC 8259). */
  function ReadChar(c: Char): CodeUnit
    requires CharOk(c)
  {
    match c
    case Unescaped(u) => u
    case Short(u) =>
      if u == 98 then 8           // \b
      else if u == 102 then 12    // \f
      else if u == 110 then 10    // \n
      else if u == 114 then 13    // \r
      else if u == 116 then 9     // \t
      else u                      // a quotation mark, a backslash or a slash
    case Hex(d) =>
      ((HexValue(d[0]) * 16 + HexValue(d[1])) * 16 + HexValue(d[2])) * 16 + HexValue(d[3])
  }

  function ReadString(chars: seq<Char>): Text
    requires CharsOk(chars)
  {
    if chars == [] then [] else [ReadChar(chars[0])] + ReadString(chars[1..])
  }

  // ---------------------------------------------------------------- numbers

  // What a number is made of: digits, signs, a point, e or E.
  predicate IsNumeralUnit(c: CodeUnit) {
    48 <= c <= 57 || c == 43 || c == 45 || c == 46 || c == 69 || c == 101
  }

  predicate NumeralUnits(t: Text) {
    t != [] && forall i | 0 <= i < |t| :: IsNumeralUnit(t[i])
  }

  lemma NumberUnits(t: Text)
    requires IsNumber(t)
    ensures NumeralUnits(t)
  {
    var minus, whole, fraction, exponent :|
      IsMinus(minus) && IsWhole(whole) && IsFraction(fraction) && IsExponent(exponent)
      && t == minus + whole + fraction + exponent;
    TailUnits(fraction);
    TailUnits(exponent);
  }

  lemma TailUnits(t: Text)
    requires IsFraction(t) || IsExponent(t)
    ensures forall i | 0 <= i < |t| :: IsNumeralUnit(t[i])
  {
    forall i | 0 <= i < |t| ensures IsNumeralUnit(t[i]) {
      if i > 0 { assert t[i] == t[1..][i - 1]; }
      if i > 1 { assert t[i] == t[2..][i - 2]; }
    }
  }

  lemma TokenUnits(t: Text)
    requires IsToken(t)
    ensures forall i | 0 <= i < |t| :: t[i] != QUOTE && t[i] != OPEN_BRACE && t[i] != CLOSE_BRACE
  {
    if IsNumber(t) { NumberUnits(t); }
  }
}
