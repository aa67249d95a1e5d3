/**
 `extractJsonObject`: fences are taken off a model response, and the first complete object is cut out of it.
 A balanced text is a brace pair around string literals, further balanced texts and any other units.
 `ObjectIsBalanced` below: the text of every JSON object is one, with whatever white space and escapes.
 */
module JsonScanner {
  import opened JsonGrammar
  import opened JsonText
  import opened Options

  import CanonicalJson
  import CanonicalSyntax

  // Inside a string literal: a plain unit, or a backslash and the unit after it.
  datatype Piece = Raw(c: CodeUnit) | Escaped(c: CodeUnit)

  datatype Part = Plain(c: CodeUnit) | Literal(pieces: seq<Piece>) | Braces(parts: seq<Part>)

  predicate PieceOk(p: Piece) {
    p.Raw? ==> p.c != QUOTE && p.c != BACKSLASH
  }

  predicate PiecesOk(pieces: seq<Piece>) {
    forall i | 0 <= i < |pieces| :: PieceOk(pieces[i])
  }

  predicate PartOk(p: Part) {
    match p
    case Plain(c) => c != QUOTE && c != OPEN_BRACE && c != CLOSE_BRACE
    case Literal(pieces) => PiecesOk(pieces)
    case Braces(parts) => PartsOk(parts)
  }

  predicate PartsOk(parts: seq<Part>) {
    forall i | 0 <= i < |parts| :: PartOk(parts[i])
  }

  function RenderPiece(p: Piece): Text {
    match p
    case Raw(c) => [c]
    case Escaped(c) => [BACKSLASH, c]
  }

  function RenderPieces(pieces: seq<Piece>): Text {
    if pieces == [] then []
    else RenderPiece(pieces[0]) + RenderPieces(pieces[1..])
  }

  function RenderPart(p: Part): Text {
    match p
    case Plain(c) => [c]
    case Literal(pieces) => [QUOTE] + (RenderPieces(pieces) + [QUOTE])
    case Braces(parts) => [OPEN_BRACE] + (Render(parts) + [CLOSE_BRACE])
  }

  function Render(parts: seq<Part>): Text {
    if parts == [] then [] else RenderPart(parts[0]) + Render(parts[1..])
  }

  ghost predicate Balanced(text: Text) {
    exists parts :: PartsOk(parts) && text == RenderPart(Braces(parts))
  }

  // ---------------------------------------------------------------- the scanner

  // Outside strings braces count; `depth` is the number of open braces.
  datatype Mode = Mode(depth: int, inString: bool, escape: bool)

  function Later(n: int): int {
    if n < 0 then n else n + 1
  }

  /** The number of units read up to the brace that takes the depth from one to zero, or -1. */
  function Scan(text: Text, m: Mode): (n: int)
    ensures -1 <= n <= |text| && n != 0
  {
    if text == [] then -1
    else
      var c, rest := text[0], text[1..];
      if m.escape then Later(Scan(rest, m.(escape := false)))
      else if c == BACKSLASH && m.inString then Later(Scan(rest, m.(escape := true)))
      else if c == QUOTE then Later(Scan(rest, m.(inString := !m.inString)))
      else if m.inString then Later(Scan(rest, m))
      else if c == OPEN_BRACE then Later(Scan(rest, m.(depth := m.depth + 1)))
      else if c == CLOSE_BRACE && m.depth == 1 then 1
      else if c == CLOSE_BRACE then Later(Scan(rest, m.(depth := m.depth - 1)))
      else Later(Scan(rest, m))
  }

  const OUTSIDE := Mode(0, false, false)

  datatype Selection = Absent | Incomplete | Selected(start: nat, end: nat)

  /** The slice `text[start..end]` is balanced and no brace opens before it. */
  ghost predicate FirstObject(text: Text, start: nat, end: nat) {
    start <= end <= |text| && OPEN_BRACE !in text[..start] && Balanced(text[start..end])
  }

  /** Nothing is selected for want of a brace, or exactly the one first object, or there is none. */
  ghost predicate SelectedExactly(text: Text, s: Selection) {
    && (s.Absent? <==> OPEN_BRACE !in text)
    && forall start: nat, end: nat :: s == Selected(start, end) <==> FirstObject(text, start, end)
  }

  /** The scan finds exactly the one balanced slice that begins at the first opening brace. */
  method SelectObject(text: Text) returns (r: Selection)
    ensures SelectedExactly(text, r)
  {
    var start := 0;
    while start < |text| && text[start] != OPEN_BRACE
      invariant start <= |text| && OPEN_BRACE !in text[..start]
    {
      start := start + 1;
    }
    if start == |text| {
      NoBraceNoObject(text);
      return Absent;
    }
    var depth, inString, escape := 0, false, false;
    var index := start;
    while index < |text|
      invariant start <= index <= |text|
      invariant Scan(text[start..], OUTSIDE) == Ahead(index - start, Scan(text[index..], Mode(depth, inString, escape)))
    {
      var c := text[index];
      assert text[index..][0] == c && text[index..][1..] == text[index + 1..];
      index := index + 1;
      if escape { escape := false; continue; }
      if c == BACKSLASH && inString { escape := true; continue; }
      if c == QUOTE { inString := !inString; continue; }
      if inString { continue; }
      if c == OPEN_BRACE {
        depth := depth + 1;
      } else if c == CLOSE_BRACE {
        depth := depth - 1;
        if depth == 0 {
          ScanDecides(text, start);
          return Selected(start, index);
        }
      }
    }
    ScanDecides(text, start);
    r := Incomplete;
  }

  // ---------------------------------------------------------------- a balanced text is scanned whole

  function Ahead(k: int, n: int): int {
    if n < 0 then -1 else k + n
  }

  lemma {:induction false} ScanPieces(pieces: seq<Piece>, x: Text, depth: int)
    requires PiecesOk(pieces)
    ensures Scan(RenderPieces(pieces) + x, Mode(depth, true, false))
         == Ahead(|RenderPieces(pieces)|, Scan(x, Mode(depth, true, false)))
  {
    if pieces == [] {
      assert RenderPieces(pieces) + x == x;
    } else {
      ScanPieces(pieces[1..], x, depth);
      Associate(RenderPiece(pieces[0]), RenderPieces(pieces[1..]), x);
    }
  }

  lemma {:induction false} ScanPart(p: Part, x: Text, depth: int)
    requires PartOk(p) && depth >= 1
    ensures Scan(RenderPart(p) + x, Mode(depth, false, false))
            == Ahead(|RenderPart(p)|, Scan(x, Mode(depth, false, false)))
    decreases p
  {
    match p
    case Plain(c) =>
    case Literal(pieces) =>
      var inner := RenderPieces(pieces) + ([QUOTE] + x);
      Regroup3(QUOTE, RenderPieces(pieces), QUOTE, x);
      assert ([QUOTE] + inner)[1..] == inner;
      ScanPieces(pieces, [QUOTE] + x, depth);
      assert ([QUOTE] + x)[1..] == x;
    case Braces(parts) =>
      var inner := Render(parts) + ([CLOSE_BRACE] + x);
      Regroup3(OPEN_BRACE, Render(parts), CLOSE_BRACE, x);
      assert ([OPEN_BRACE] + inner)[1..] == inner;
      ScanParts(parts, [CLOSE_BRACE] + x, depth + 1);
      assert ([CLOSE_BRACE] + x)[1..] == x;
  }

  lemma Regroup3(a: CodeUnit, s: Text, b: CodeUnit, x: Text)
    ensures [a] + (s + [b]) + x == [a] + (s + ([b] + x))
  {
  }

  lemma {:induction false} ScanParts(parts: seq<Part>, x: Text, depth: int)
    requires PartsOk(parts) && depth >= 1
    ensures Scan(Render(parts) + x, Mode(depth, false, false))
            == Ahead(|Render(parts)|, Scan(x, Mode(depth, false, false)))
    decreases parts
  {
    if parts == [] {
      assert Render(parts) + x == x;
    } else {
      Associate(RenderPart(parts[0]), Render(parts[1..]), x);
      ScanPart(parts[0], Render(parts[1..]) + x, depth);
      ScanParts(parts[1..], x, depth);
    }
  }

  lemma BalancedScans(parts: seq<Part>, x: Text)
    requires PartsOk(parts)
    ensures Scan(RenderPart(Braces(parts)) + x, OUTSIDE) == |RenderPart(Braces(parts))|
  {
    var inner := Render(parts) + ([CLOSE_BRACE] + x);
    Regroup3(OPEN_BRACE, Render(parts), CLOSE_BRACE, x);
    assert ([OPEN_BRACE] + inner)[1..] == inner;
    ScanParts(parts, [CLOSE_BRACE] + x, 1);
  }

  // ---------------------------------------------------------------- what is scanned is balanced

  // The texts that close the open levels one after the other, innermost first.
  function Closing(levels: seq<seq<Part>>): Text {
    if levels == [] then [] else Render(levels[0]) + ([CLOSE_BRACE] + Closing(levels[1..]))
  }

  predicate LevelsOk(levels: seq<seq<Part>>) {
    forall i | 0 <= i < |levels| :: PartsOk(levels[i])
  }

  /** Prepending a part to the innermost level prepends its text. */
  lemma ClosingPrepend(p: Part, levels: seq<seq<Part>>)
    requires levels != [] && PartOk(p) && LevelsOk(levels)
    ensures var grown := [[p] + levels[0]] + levels[1..];
            LevelsOk(grown) && Closing(grown) == RenderPart(p) + Closing(levels)
  {
    var first, later := Render(levels[0]), [CLOSE_BRACE] + Closing(levels[1..]);
    var grown := [[p] + levels[0]] + levels[1..];
    assert grown[0][1..] == levels[0] && grown[1..] == levels[1..];
    assert Render(grown[0]) == RenderPart(p) + first;
    Associate(RenderPart(p), first, later);
  }

  lemma {:induction false} ScannedCloses(text: Text, depth: int) returns (levels: seq<seq<Part>>)
    requires depth >= 1 && Scan(text, Mode(depth, false, false)) > 0
    ensures |levels| == depth && LevelsOk(levels) && text[..Scan(text, Mode(depth, false, false))] == Closing(levels)
    decreases |text|, 1
  {
    var c, rest := text[0], text[1..];
    var n := Scan(text, Mode(depth, false, false));
    assert text[..n] == [c] + rest[..n - 1];
    if c == QUOTE {
      var pieces;
      pieces, levels := ScannedString(rest, depth);
      ClosingPrepend(Literal(pieces), levels);
      Associate([QUOTE], RenderPieces(pieces) + [QUOTE], Closing(levels));
      levels := [[Literal(pieces)] + levels[0]] + levels[1..];
    } else if c == OPEN_BRACE {
      var deeper := ScannedCloses(rest, depth + 1);
      levels := deeper[1..];
      ClosingPrepend(Braces(deeper[0]), levels);
      Regroup3(OPEN_BRACE, Render(deeper[0]), CLOSE_BRACE, Closing(levels));
      levels := [[Braces(deeper[0])] + levels[0]] + levels[1..];
    } else if c == CLOSE_BRACE {
      if depth == 1 {
        levels := [[]];
        assert levels[1..] == [];
        assert text[..1] == [CLOSE_BRACE];
      } else {
        var outer := ScannedCloses(rest, depth - 1);
        levels := [[]] + outer;
        assert levels[1..] == outer;
      }
    } else {
      levels := ScannedCloses(rest, depth);
      ClosingPrepend(Plain(c), levels);
      levels := [[Plain(c)] + levels[0]] + levels[1..];
    }
  }

  /** Prepending a piece to a string literal prepends its text. */
  lemma PiecePrepend(p: Piece, pieces: seq<Piece>, rest: Text)
    requires PieceOk(p) && PiecesOk(pieces)
    ensures PiecesOk([p] + pieces)
    ensures (RenderPieces([p] + pieces) + [QUOTE]) + rest == RenderPiece(p) + ((RenderPieces(pieces) + [QUOTE]) + rest)
  {
    assert ([p] + pieces)[1..] == pieces;
  }

  lemma {:induction false} ScannedString(text: Text, depth: int) returns (pieces: seq<Piece>, levels: seq<seq<Part>>)
    requires depth >= 1 && Scan(text, Mode(depth, true, false)) > 0
    ensures |levels| == depth && LevelsOk(levels) && PiecesOk(pieces)
    ensures text[..Scan(text, Mode(depth, true, false))] == (RenderPieces(pieces) + [QUOTE]) + Closing(levels)
    decreases |text|, 0
  {
    var c, rest := text[0], text[1..];
    var n := Scan(text, Mode(depth, true, false));
    assert text[..n] == [c] + rest[..n - 1];
    if c == BACKSLASH {
      var d := rest[0];
      assert rest[..n - 1] == [d] + rest[1..][..n - 2];
      pieces, levels := ScannedString(rest[1..], depth);
      assert [c] + ([d] + rest[1..][..n - 2]) == [BACKSLASH, d] + rest[1..][..n - 2];
      PiecePrepend(Escaped(d), pieces, Closing(levels));
      pieces := [Escaped(d)] + pieces;
    } else if c == QUOTE {
      pieces := [];
      levels := ScannedCloses(rest, depth);
    } else {
      pieces, levels := ScannedString(rest, depth);
      PiecePrepend(Raw(c), pieces, Closing(levels));
      pieces := [Raw(c)] + pieces;
    }
  }

  lemma ScannedIsBalanced(text: Text)
    requires text != [] && text[0] == OPEN_BRACE && Scan(text, OUTSIDE) > 0
    ensures Balanced(text[..Scan(text, OUTSIDE)])
  {
    var n := Scan(text, OUTSIDE);
    var levels := ScannedCloses(text[1..], 1);
    assert levels[1..] == [] && Closing([]) == [];
    assert text[..n] == [OPEN_BRACE] + text[1..][..n - 1];
    assert [CLOSE_BRACE] + Closing(levels[1..]) == [CLOSE_BRACE];
    assert text[..n] == RenderPart(Braces(levels[0]));
  }

  lemma BalancedStarts(text: Text)
    requires Balanced(text)
    ensures text != [] && text[0] == OPEN_BRACE
  {
  }

  lemma NoBraceNoObject(text: Text)
    requires OPEN_BRACE !in text
    ensures forall start: nat, end: nat :: !FirstObject(text, start, end)
  {
    forall start: nat, end: nat ensures !FirstObject(text, start, end) {
      if FirstObject(text, start, end) { BalancedStarts(text[start..end]); }
    }
  }

  /** From the first opening brace, the scan succeeds exactly on a balanced slice. */
  lemma ScanDecides(text: Text, start: nat)
    requires start < |text| && text[start] == OPEN_BRACE && OPEN_BRACE !in text[..start]
    ensures forall s: nat, e: nat ::
              FirstObject(text, s, e) <==> s == start < e && e - start == Scan(text[start..], OUTSIDE)
  {
    var tail := text[start..];
    var n := Scan(tail, OUTSIDE);
    if n > 0 {
      ScannedIsBalanced(tail);
      assert tail[..n] == text[start..start + n];
      assert FirstObject(text, start, start + n);
    }
    forall s: nat, e: nat | FirstObject(text, s, e) ensures s == start < e && e - start == n {
      BalancedStarts(text[s..e]);
      assert text[s] == OPEN_BRACE;
      var parts :| PartsOk(parts) && text[s..e] == RenderPart(Braces(parts));
      assert tail == text[s..e] + text[e..];
      BalancedScans(parts, text[e..]);
    }
  }

  // ---------------------------------------------------------------- every object text is balanced

  // Parts one after the other.
  ghost predicate Sequential(t: Text) {
    exists parts :: PartsOk(parts) && Render(parts) == t
  }

  lemma {:induction false} RenderConcat(a: seq<Part>, b: seq<Part>)
    ensures Render(a + b) == Render(a) + Render(b)
  {
    if a == [] {
      assert a + b == b;
    } else {
      assert (a + b)[1..] == a[1..] + b;
      RenderConcat(a[1..], b);
      Associate(RenderPart(a[0]), Render(a[1..]), Render(b));
    }
  }

  lemma Joins(a: Text, b: Text)
    requires Sequential(a) && Sequential(b)
    ensures Sequential(a + b)
  {
    var xs :| PartsOk(xs) && Render(xs) == a;
    var ys :| PartsOk(ys) && Render(ys) == b;
    RenderConcat(xs, ys);
    assert PartsOk(xs + ys);
  }

  lemma OnePart(p: Part)
    requires PartOk(p)
    ensures Sequential(RenderPart(p))
  {
    assert [p][1..] == [] && PartsOk([p]);
    assert Render([p]) == RenderPart(p) + [];
  }

  predicate PlainUnits(t: Text) {
    forall i | 0 <= i < |t| :: PartOk(Plain(t[i]))
  }

  lemma {:induction false} PlainText(t: Text)
    requires PlainUnits(t)
    ensures Sequential(t)
  {
    if t == [] {
      assert PartsOk([]) && Render([]) == t;
    } else {
      PlainText(t[1..]);
      OnePart(Plain(t[0]));
      Joins([t[0]], t[1..]);
      assert t == [t[0]] + t[1..];
    }
  }

  lemma {:induction false} RawPieces(t: Text) returns (pieces: seq<Piece>)
    requires forall i | 0 <= i < |t| :: PieceOk(Raw(t[i]))
    ensures PiecesOk(pieces) && RenderPieces(pieces) == t
  {
    if t == [] {
      pieces := [];
    } else {
      var rest := RawPieces(t[1..]);
      pieces := [Raw(t[0])] + rest;
      assert pieces[1..] == rest;
      assert t == [t[0]] + t[1..];
    }
  }

  lemma {:induction false} PiecesConcat(a: seq<Piece>, b: seq<Piece>)
    ensures RenderPieces(a + b) == RenderPieces(a) + RenderPieces(b)
  {
    if a == [] {
      assert a + b == b;
    } else {
      assert (a + b)[1..] == a[1..] + b;
      PiecesConcat(a[1..], b);
      Associate(RenderPiece(a[0]), RenderPieces(a[1..]), RenderPieces(b));
    }
  }

  lemma CharPieces(c: Char) returns (pieces: seq<Piece>)
    requires CharOk(c)
    ensures PiecesOk(pieces) && RenderPieces(pieces) == WriteChar(c)
  {
    match c
    case Unescaped(u) => pieces := RawPieces([u]);
    case Short(u) =>
      pieces := [Escaped(u)];
      assert pieces[1..] == [];
    case Hex(digits) =>
      var rest := RawPieces(digits);
      pieces := [Escaped(117)] + rest;
      assert pieces[1..] == rest;
  }

  lemma {:induction false} CharsPieces(chars: seq<Char>) returns (pieces: seq<Piece>)
    requires CharsOk(chars)
    ensures PiecesOk(pieces) && RenderPieces(pieces) == WriteChars(chars)
  {
    if chars == [] {
      pieces := [];
    } else {
      var first := CharPieces(chars[0]);
      var rest := CharsPieces(chars[1..]);
      PiecesConcat(first, rest);
      pieces := first + rest;
    }
  }

  lemma StringText(chars: seq<Char>)
    requires CharsOk(chars)
    ensures Sequential(WriteString(chars))
  {
    var pieces := CharsPieces(chars);
    OnePart(Literal(pieces));
  }

  lemma BracesText(t: Text)
    requires Sequential(t)
    ensures Balanced([OPEN_BRACE] + (t + [CLOSE_BRACE])) && Sequential([OPEN_BRACE] + (t + [CLOSE_BRACE]))
  {
    var parts :| PartsOk(parts) && Render(parts) == t;
    OnePart(Braces(parts));
  }

  lemma BracketsText(t: Text)
    requires Sequential(t)
    ensures Sequential([OPEN_BRACKET] + (t + [CLOSE_BRACKET]))
  {
    PlainText([OPEN_BRACKET]);
    PlainText([CLOSE_BRACKET]);
    Joins(t, [CLOSE_BRACKET]);
    Joins([OPEN_BRACKET], t + [CLOSE_BRACKET]);
  }

  lemma {:induction false} SyntaxIsSequential(v: Syntax)
    requires Formed(v)
    ensures Sequential(Write(v)) && (v.Object? ==> Balanced(Write(v)))
    decreases v
  {
    match v
    case Token(text) =>
      TokenUnits(text);
      PlainText(text);
    case Quoted(chars) => StringText(chars);
    case Array(space, elements) =>
      PlainText(space);
      ElementsAreSequential(elements);
      Joins(space, WriteElements(elements));
      BracketsText(space + WriteElements(elements));
    case Object(space, members) =>
      PlainText(space);
      MembersAreSequential(members);
      Joins(space, WriteMembers(members));
      BracesText(space + WriteMembers(members));
    case Gap => PlainText([]);
  }

  lemma {:induction false} ElementsAreSequential(elements: seq<Element>)
    requires forall i | 0 <= i < |elements| :: ElementFormed(elements[i])
    ensures Sequential(WriteElements(elements))
    decreases elements
  {
    if elements == [] {
      PlainText([]);
    } else {
      var e := elements[0];
      SyntaxIsSequential(e.value);
      PlainText(e.before);
      PlainText(e.after);
      Joins(e.before, Write(e.value));
      Joins(e.before + Write(e.value), e.after);
      ElementsAreSequential(elements[1..]);
      CommaThen(|elements| == 1, WriteElements(elements[1..]));
      Joins(WriteElement(e), if |elements| == 1 then [] else [COMMA] + WriteElements(elements[1..]));
    }
  }

  lemma CommaThen(last: bool, rest: Text)
    requires Sequential(rest)
    ensures Sequential(if last then [] else [COMMA] + rest)
  {
    PlainText([]);
    PlainText([COMMA]);
    Joins([COMMA], rest);
  }

  lemma {:induction false} MembersAreSequential(members: seq<Entry>)
    requires forall i | 0 <= i < |members| :: MemberFormed(members[i])
    ensures Sequential(WriteMembers(members))
    decreases members
  {
    if members == [] {
      PlainText([]);
    } else {
      SyntaxIsSequential(members[0].value);
      MemberIsSequential(members[0]);
      MembersAreSequential(members[1..]);
      CommaThen(|members| == 1, WriteMembers(members[1..]));
      Joins(WriteMember(members[0]), if |members| == 1 then [] else [COMMA] + WriteMembers(members[1..]));
    }
  }

  lemma MemberIsSequential(m: Entry)
    requires MemberFormed(m) && Sequential(Write(m.value))
    ensures Sequential(WriteMember(m))
  {
    var key := m.before + WriteString(m.key) + m.afterKey;
    PlainText(m.before);
    StringText(m.key);
    PlainText(m.afterKey);
    Joins(m.before, WriteString(m.key));
    Joins(m.before + WriteString(m.key), m.afterKey);
    PlainText([COLON]);
    Joins(key, [COLON]);
    PlainText(m.beforeValue);
    Joins(key + [COLON], m.beforeValue);
    Joins(key + [COLON] + m.beforeValue, Write(m.value));
    PlainText(m.after);
    Joins(key + [COLON] + m.beforeValue + Write(m.value), m.after);
  }

  /** The text of every JSON object, however it is spaced, ordered and escaped, is balanced. */
  lemma ObjectIsBalanced(v: Syntax)
    requires Legal(v) && v.Object?
    ensures Balanced(Write(v))
  {
    SyntaxIsSequential(v);
  }

  lemma BalancedIsSelected(prose: Text, t: Text, suffix: Text)
    requires OPEN_BRACE !in prose && Balanced(t)
    ensures FirstObject(prose + t + suffix, |prose|, |prose| + |t|)
  {
    var text := prose + t + suffix;
    assert text[|prose|..|prose| + |t|] == t;
    assert text[..|prose|] == prose;
  }

  /** Prose without an opening brace, a JSON object, anything: the object is what the scan selects, whatever
      braces, quotes and backslashes its strings contain. */
  lemma ObjectIsSelected(prose: Text, v: Syntax, suffix: Text)
    requires OPEN_BRACE !in prose && Legal(v) && v.Object?
    ensures FirstObject(prose + Write(v) + suffix, |prose|, |prose| + |Write(v)|)
  {
    ObjectIsBalanced(v);
    BalancedIsSelected(prose, Write(v), suffix);
  }

  /** The same for what the canonical printer makes of an object, gaps for holes included. */
  lemma PrintedObjectIsSelected(prose: Text, v: CanonicalJson.Json, suffix: Text)
    requires OPEN_BRACE !in prose && v.Obj? && CanonicalJson.Accepted(v)
    ensures FirstObject(prose + CanonicalJson.Print(v) + suffix, |prose|, |prose| + |CanonicalJson.Print(v)|)
  {
    var t := CanonicalSyntax.PrintedSyntax(v);
    SyntaxIsSequential(t);
    BalancedIsSelected(prose, CanonicalJson.Print(v), suffix);
  }

  // ---------------------------------------------------------------- trimming and fences

  // What `trim` and `\s` take for white space.
  predicate IsBlank(c: CodeUnit) {
    9 <= c <= 13 || c == 32 || c == 160 || c == 0x1680 || 0x2000 <= c <= 0x200A || c == 0x2028 || c == 0x2029
    || c == 0x202F || c == 0x205F || c == 0x3000 || c == 0xFEFF
  }

  predicate Blank(t: Text) {
    forall i | 0 <= i < |t| :: IsBlank(t[i])
  }

  const FENCE: Text := [96, 96, 96]

  function TrimStart(t: Text): Text {
    if t != [] && IsBlank(t[0]) then TrimStart(t[1..]) else t
  }

  function TrimEnd(t: Text): Text {
    if t != [] && IsBlank(t[|t| - 1]) then TrimEnd(t[..|t| - 1]) else t
  }

  function Trim(t: Text): Text {
    TrimEnd(TrimStart(t))
  }

  // `json` in any mixture of cases.
  predicate IsTag(t: Text) {
    |t| == 4 && t[0] in [74, 106] && t[1] in [83, 115] && t[2] in [79, 111] && t[3] in [78, 110]
  }

  function Folded(t: Text): Text {
    seq(|t|, i requires 0 <= i < |t| => if 65 <= t[i] <= 90 then t[i] + 32 else t[i])
  }

  lemma FenceSpelling(t: Text)
    ensures FENCE == Ascii("```")
    ensures IsTag(t) <==> Folded(t) == Ascii("json")
  {
    if Folded(t) == Ascii("json") {
      assert |t| == |Folded(t)| == 4;
      assert Folded(t)[0] == 106 && Folded(t)[1] == 115 && Folded(t)[2] == 111 && Folded(t)[3] == 110;
    }
  }

  /** White space and line terminators of the language, the byte order mark among them. */
  lemma BlankExactly(c: CodeUnit)
    ensures IsBlank(c) <==>
              || c in Ascii("\t\n\r ") || c == 0x0B || c == 0x0C || c == 0xA0 || c == 0xFEFF
              || c in [0x1680, 0x2000, 0x2001, 0x2002, 0x2003, 0x2004, 0x2005, 0x2006, 0x2007, 0x2008, 0x2009, 0x200A]
              || c in [0x2028, 0x2029, 0x202F, 0x205F, 0x3000]
  {
    assert Ascii("\t\n\r ") == [9, 10, 13, 32];
  }

  function DropTag(t: Text): Text {
    if |t| >= 4 && IsTag(t[..4]) then t[4..] else t
  }

  function DropOpeningFence(t: Text): Text {
    if FENCE <= t then TrimStart(DropTag(t[3..])) else t
  }

  function DropClosingFence(t: Text): Text {
    if |t| >= 3 && t[|t| - 3..] == FENCE then t[..|t| - 3] else t
  }

  function Unfence(t: Text): Text {
    Trim(DropClosingFence(DropOpeningFence(Trim(t))))
  }

  predicate BraceFree(t: Text) {
    OPEN_BRACE !in t && CLOSE_BRACE !in t
  }

  /** `inner` is what is left of `t` without `front` and `back`, in which there are no braces. */
  predicate Cut(t: Text, front: Text, inner: Text, back: Text) {
    t == front + inner + back && BraceFree(front) && BraceFree(back)
  }

  lemma CutsCompose(t: Text, f: Text, inner: Text, b: Text, g: Text, core: Text, c: Text)
    requires Cut(t, f, inner, b) && Cut(inner, g, core, c)
    ensures Cut(t, f + g, core, c + b)
  {
  }

  lemma {:induction false} TrimStartCuts(t: Text) returns (front: Text)
    ensures Cut(t, front, TrimStart(t), [])
  {
    front := [];
    if t != [] && IsBlank(t[0]) {
      var more := TrimStartCuts(t[1..]);
      front := [t[0]] + more;
    }
  }

  lemma {:induction false} TrimEndCuts(t: Text) returns (back: Text)
    ensures Cut(t, [], TrimEnd(t), back)
  {
    back := [];
    if t != [] && IsBlank(t[|t| - 1]) {
      var more := TrimEndCuts(t[..|t| - 1]);
      back := more + [t[|t| - 1]];
    }
  }

  lemma TrimCuts(t: Text) returns (front: Text, back: Text)
    ensures Cut(t, front, Trim(t), back)
  {
    front := TrimStartCuts(t);
    back := TrimEndCuts(TrimStart(t));
    CutsCompose(t, front, TrimStart(t), [], [], Trim(t), back);
    assert front + [] == front && back + [] == back;
  }

  lemma OpeningFenceCuts(t: Text) returns (front: Text)
    ensures Cut(t, front, DropOpeningFence(t), [])
  {
    front := [];
    if FENCE <= t {
      var rest := t[3..];
      var tag := if |rest| >= 4 && IsTag(rest[..4]) then rest[..4] else [];
      var gap := TrimStartCuts(DropTag(rest));
      front := FENCE + tag + gap;
    }
  }

  lemma ClosingFenceCuts(t: Text) returns (back: Text)
    ensures Cut(t, [], DropClosingFence(t), back)
  {
    back := if |t| >= 3 && t[|t| - 3..] == FENCE then FENCE else [];
  }

  lemma UnfenceCuts(t: Text) returns (front: Text, back: Text)
    ensures Cut(t, front, Unfence(t), back)
  {
    var trimmed := Trim(t);
    var bare := DropOpeningFence(trimmed);
    var f, b := TrimCuts(t);
    var g := OpeningFenceCuts(trimmed);
    CutsCompose(t, f, trimmed, b, g, bare, []);
    var c := ClosingFenceCuts(bare);
    CutsCompose(t, f + g, bare, [] + b, [], DropClosingFence(bare), c);
    var h, d := TrimCuts(DropClosingFence(bare));
    front, back := f + g + [] + h, d + (c + ([] + b));
    CutsCompose(t, f + g + [], DropClosingFence(bare), c + ([] + b), h, Unfence(t), d);
  }

  lemma BalancedEnds(text: Text)
    requires Balanced(text)
    ensures |text| >= 2 && text[0] == OPEN_BRACE && text[|text| - 1] == CLOSE_BRACE
  {
  }

  lemma FirstObjectIsInside(t: Text, front: Text, inner: Text, back: Text, start: nat, end: nat)
    requires Cut(t, front, inner, back) && FirstObject(t, start, end)
    ensures |front| <= start && end <= |front + inner|
  {
    BalancedEnds(t[start..end]);
    assert t[start] == OPEN_BRACE && t[end - 1] == CLOSE_BRACE;
    assert t[..|front|] == front && t[|front + inner|..] == back;
  }

  lemma SliceInside(front: Text, inner: Text, back: Text, start: nat, end: nat)
    requires |front| <= start <= end <= |front + inner|
    ensures (front + inner + back)[start..end] == inner[start - |front|..end - |front|]
    ensures (front + inner + back)[..start] == front + inner[..start - |front|]
  {
  }

  /** Cutting off such ends neither gains nor loses the first object. */
  lemma CutKeepsFirstObject(t: Text, front: Text, inner: Text, back: Text, start: nat, end: nat)
    requires Cut(t, front, inner, back)
    ensures FirstObject(t, start, end)
            <==> |front| <= start && |front| <= end && FirstObject(inner, start - |front|, end - |front|)
  {
    if FirstObject(t, start, end) { FirstObjectIsInside(t, front, inner, back, start, end); }
    if |front| <= start <= end <= |front + inner| { SliceInside(front, inner, back, start, end); }
  }

  function Moved(s: Selection, offset: nat): Selection {
    match s
    case Selected(start, end) => Selected(start + offset, end + offset)
    case _ => s
  }

  /** What is selected from the response without its ends is what would be selected from the whole. */
  lemma SelectionOfResponse(t: Text, front: Text, inner: Text, back: Text, s: Selection)
    requires Cut(t, front, inner, back) && SelectedExactly(inner, s)
    ensures SelectedExactly(t, Moved(s, |front|))
    ensures s.Selected? ==> s.start <= s.end <= |inner|
                            && t[|front| + s.start..|front| + s.end] == inner[s.start..s.end]
  {
    forall start: nat, end: nat
      ensures Moved(s, |front|) == Selected(start, end) <==> FirstObject(t, start, end)
    {
      CutKeepsFirstObject(t, front, inner, back, start, end);
    }
    if s.Selected? {
      assert FirstObject(inner, s.start, s.end);
      SliceInside(front, inner, back, |front| + s.start, |front| + s.end);
    }
  }

  // Neither end is white space.
  predicate Tight(t: Text) {
    t == [] || (!IsBlank(t[0]) && !IsBlank(t[|t| - 1]))
  }

  lemma {:induction false} TrimStartPadded(before: Text, t: Text)
    requires Blank(before) && (t == [] || !IsBlank(t[0]))
    ensures TrimStart(before + t) == t
  {
    if before == [] {
      assert before + t == t;
    } else {
      assert (before + t)[1..] == before[1..] + t;
      TrimStartPadded(before[1..], t);
    }
  }

  lemma {:induction false} TrimEndPadded(t: Text, after: Text)
    requires Blank(after) && (t == [] || !IsBlank(t[|t| - 1]))
    ensures TrimEnd(t + after) == t
  {
    if after == [] {
      assert t + after == t;
    } else {
      assert (t + after)[..|t + after| - 1] == t + after[..|after| - 1];
      TrimEndPadded(t, after[..|after| - 1]);
    }
  }

  lemma TrimPadded(before: Text, t: Text, after: Text)
    requires Blank(before) && Tight(t) && t != [] && Blank(after)
    ensures Trim(before + t + after) == t
  {
    Associate(before, t, after);
    TrimStartPadded(before, t + after);
    TrimEndPadded(t, after);
  }

  /** What is neither padded nor fenced stays as it is. */
  lemma UnfenceKeeps(t: Text)
    requires t != [] && Tight(t) && t[0] != FENCE[0] && t[|t| - 1] != FENCE[0]
    ensures Unfence(t) == t
  {
    TrimPadded([], t, []);
    assert [] + t + [] == t;
    assert |t| >= 3 ==> t[|t| - 3..][2] == t[|t| - 1];
  }

  /** An object text padded with white space, in a fence or not, is what remains of the response. */
  lemma UnfencePadded(before: Text, t: Text, after: Text)
    requires Balanced(t) && Blank(before) && Blank(after)
    ensures Unfence(before + t + after) == t
  {
    BalancedEnds(t);
    TrimPadded(before, t, after);
    TrimPadded([], t, []);
    assert [] + t + [] == t;
    UnfenceKeeps(t);
  }

  lemma OpeningFenceDropped(tag: Text, gap: Text, body: Text)
    requires (tag == [] || IsTag(tag)) && Blank(gap) && body != [] && body[0] == OPEN_BRACE
    ensures DropOpeningFence(FENCE + (tag + (gap + body))) == body
  {
    var fenced := FENCE + (tag + (gap + body));
    assert fenced[..3] == FENCE && fenced[3..] == tag + (gap + body);
    TagDropped(tag, gap + body);
    TrimStartPadded(gap, body);
  }

  lemma ClosingFenceDropped(t: Text)
    ensures DropClosingFence(t + FENCE) == t
  {
    assert (t + FENCE)[|t|..] == FENCE;
  }

  lemma FencedIsTight(tag: Text, gap: Text, rest: Text)
    ensures Tight(FENCE + (tag + (gap + (rest + FENCE))))
  {
    assert FENCE + (tag + (gap + (rest + FENCE))) == FENCE + (tag + (gap + rest)) + FENCE;
  }

  lemma FencedBody(t: Text, last: Text)
    requires Balanced(t) && Blank(last)
    ensures t + last + FENCE != [] && (t + last + FENCE)[0] == OPEN_BRACE
    ensures DropClosingFence(t + last + FENCE) == t + last && Trim(t + last) == t
  {
    BalancedEnds(t);
    ClosingFenceDropped(t + last);
    TrimPadded([], t, last);
    assert [] + t + last == t + last;
  }

  lemma UnfenceInSteps(text: Text, fenced: Text, body: Text, inner: Text)
    requires Trim(text) == fenced && DropOpeningFence(fenced) == body && DropClosingFence(body) == inner
    ensures Unfence(text) == Trim(inner)
  {
  }

  /** The same in a fence, tagged `json` or not. */
  lemma UnfenceFenced(before: Text, tag: Text, gap: Text, t: Text, last: Text, after: Text)
    requires Balanced(t) && Blank(before) && Blank(gap) && Blank(last) && Blank(after) && (tag == [] || IsTag(tag))
    ensures Unfence(before + (FENCE + (tag + (gap + (t + last + FENCE)))) + after) == t
  {
    var body := t + last + FENCE;
    var fenced := FENCE + (tag + (gap + body));
    FencedBody(t, last);
    FencedIsTight(tag, gap, t + last);
    TrimPadded(before, fenced, after);
    OpeningFenceDropped(tag, gap, body);
    UnfenceInSteps(before + fenced + after, fenced, body, t + last);
  }

  lemma TagDropped(tag: Text, rest: Text)
    requires rest != [] && (rest[0] == OPEN_BRACE || IsBlank(rest[0])) && (tag == [] || IsTag(tag))
    ensures DropTag(tag + rest) == rest
  {
    if tag == [] {
      assert tag + rest == rest;
    } else {
      assert (tag + rest)[..4] == tag;
    }
  }

  // ---------------------------------------------------------------- the whole function

  /** What `extractJsonObject` returns or throws, `parse` being `JSON.parse`. */
  datatype Extraction<V> = Parsed(value: V) | NoJson | CutOff | Malformed

  function Outcome<V>(parse: Text -> Option<V>, text: Text, s: Selection): Extraction<V>
    requires s.Selected? ==> s.start <= s.end <= |text|
  {
    match s
    case Absent => NoJson
    case Incomplete => CutOff
    case Selected(start, end) =>
      if parse(text[start..end]).Some? then Parsed(parse(text[start..end]).value) else Malformed
  }

  lemma OutcomeMeans<V>(parse: Text -> Option<V>, text: Text, s: Selection)
    requires SelectedExactly(text, s)
    ensures s.Selected? ==> FirstObject(text, s.start, s.end)
    ensures Outcome(parse, text, s).NoJson? <==> OPEN_BRACE !in text
    ensures Outcome(parse, text, s).CutOff?
            <==> OPEN_BRACE in text && forall start: nat, end: nat :: !FirstObject(text, start, end)
    ensures forall start: nat, end: nat | FirstObject(text, start, end) :: s == Selected(start, end)
  {
    if s.Selected? { assert FirstObject(text, s.start, s.end); }
  }

  lemma OutcomeOfResponse<V>(parse: Text -> Option<V>, text: Text, front: Text, inner: Text, back: Text, s: Selection)
    requires Cut(text, front, inner, back) && SelectedExactly(inner, s)
    ensures s.Selected? ==> s.start <= s.end <= |inner|
    ensures Outcome(parse, inner, s).NoJson? <==> OPEN_BRACE !in text
    ensures Outcome(parse, inner, s).CutOff?
            <==> OPEN_BRACE in text && forall start: nat, end: nat :: !FirstObject(text, start, end)
    ensures forall start: nat, end: nat | FirstObject(text, start, end) ::
              Outcome(parse, inner, s) == Outcome(parse, text, Selected(start, end))
  {
    SelectionOfResponse(text, front, inner, back, s);
    OutcomeMeans(parse, text, Moved(s, |front|));
    assert Outcome(parse, inner, s) == Outcome(parse, text, Moved(s, |front|));
  }

  /** The whole response counts if it parses once the fences are off; otherwise the first object of the response
      does, fences or not. */
  method ExtractJsonObject<V>(text: Text, parse: Text -> Option<V>) returns (r: Extraction<V>)
    ensures parse(Unfence(text)).Some? ==> r == Parsed(parse(Unfence(text)).value)
    ensures parse(Unfence(text)).None? ==>
              && (r.NoJson? <==> OPEN_BRACE !in text)
              && (r.CutOff? <==> OPEN_BRACE in text && forall start: nat, end: nat :: !FirstObject(text, start, end))
              && forall start: nat, end: nat | FirstObject(text, start, end) ::
                   r == Outcome(parse, text, Selected(start, end))
  {
    var trimmed := Unfence(text);
    var whole := parse(trimmed);
    if whole.Some? { return Parsed(whole.value); }
    var s := SelectObject(trimmed);
    ghost var front, back := UnfenceCuts(text);
    OutcomeOfResponse(parse, text, front, trimmed, back, s);
    match s
    case Absent => r := NoJson;
    case Incomplete => r := CutOff;
    case Selected(start, end) =>
      var part := parse(trimmed[start..end]);
      r := if part.Some? then Parsed(part.value) else Malformed;
  }
}
