/**
 What `canonicalJson` prints, read as JSON: the syntax tree of the text means the value that was printed, its keys
 ascend by UTF-16 code unit, and its strings escape no more than `JSON.stringify` does.
 */
module CanonicalSyntax {
  import opened CanonicalJson
  import opened JsonGrammar
  import opened JsonText

  predicate NoHoles(v: Json) {
    match v
    case Arr(items) => forall x | x in items :: NoHoles(x)
    case Obj(members) => forall m | m in members :: NoHoles(m.value)
    case Hole => false
    case _ => true
  }

  // ----- what the text says -----

  /** A surrogate that is not one half of a pair. */
  predicate Unpaired(s: Text, i: nat)
    requires i < |s|
  {
    || (IsHigh(s[i]) && !(i + 1 < |s| && IsLow(s[i + 1])))
    || (IsLow(s[i]) && !(i > 0 && IsHigh(s[i - 1])))
  }

  /** How a unit of a string is written: with a letter where there is one, in lower-case hexadecimal where it must not
      stand for itself, and otherwise as it is. */
  predicate Spelled(c: Char, s: Text, i: nat)
    requires i < |s|
  {
    CharOk(c) && ReadChar(c) == s[i] &&
    match c
    case Short(u) => u != 47
    case Hex(digits) =>
      && (s[i] < 32 || Unpaired(s, i)) && s[i] !in [8, 9, 10, 12, 13]
      && forall d | d in digits :: d < 65 || d > 70
    case Unescaped(_) => !Unpaired(s, i)
  }

  predicate Spells(chars: seq<Char>, s: Text) {
    |chars| == |s| && forall i | 0 <= i < |s| :: Spelled(chars[i], s, i)
  }

  /** The tree means the value: the same tokens and strings, the same elements in order, and the same members. */
  ghost predicate Denotes(t: Syntax, v: Json) {
    match (t, v)
    case (Token(text), Null) => text == NULL_TEXT
    case (Token(text), Bool(b)) => text == if b then TRUE_TEXT else FALSE_TEXT
    case (Token(text), Num(number)) => text == if number.NegativeZero? then [48] else number.numeral
    case (Quoted(chars), Str(text)) => Spells(chars, text)
    case (Array(_, elements), Arr(items)) =>
      |elements| == |items| && forall i | 0 <= i < |items| :: Denotes(elements[i].value, items[i])
    case (Object(_, entries), Obj(members)) =>
      exists listed: seq<Member> :: multiset(listed) == multiset(members) && |listed| == |entries|
                       && forall i | 0 <= i < |entries| :: DenotesMember(entries[i], listed[i])
    case (Gap, Hole) => true
    case _ => false
  }

  ghost predicate DenotesMember(e: Entry, m: Member) {
    Spells(e.key, m.key) && Denotes(e.value, m.value)
  }

  /** `a` is a proper prefix of `b`, or has the smaller unit where they first differ, at `k`. */
  predicate PrecedesAt(a: Text, b: Text, k: nat) {
    k <= |a| && k < |b| && a[..k] == b[..k] && (k == |a| || a[k] < b[k])
  }

  ghost predicate Precedes(a: Text, b: Text) {
    exists k: nat :: PrecedesAt(a, b, k)
  }

  function KeyOf(e: Entry): Text {
    if CharsOk(e.key) then ReadString(e.key) else []
  }

  /** In every object the keys ascend by code unit. */
  ghost predicate KeysAscend(t: Syntax) {
    match t
    case Array(_, elements) => forall e | e in elements :: KeysAscend(e.value)
    case Object(_, entries) =>
      && (forall i | 0 <= i < |entries| - 1 :: Precedes(KeyOf(entries[i]), KeyOf(entries[i + 1])))
      && (forall e | e in entries :: KeysAscend(e.value))
    case _ => true
  }

  // ----- strings -----

  lemma PrecedesHead(a: Text, b: Text, k: nat)
    requires PrecedesAt(a, b, k)
    ensures b != [] && (a == [] || a[0] < b[0] || (a[0] == b[0] && k > 0))
  {
    if k > 0 { assert a[..k][0] == b[..k][0]; }
  }

  lemma {:induction false} BeforeExactly(a: Text, b: Text)
    ensures Before(a, b) <==> Precedes(a, b)
    decreases |a|
  {
    if b != [] && a != [] && a[0] == b[0] {
      BeforeExactly(a[1..], b[1..]);
      if Precedes(a[1..], b[1..]) {
        var k: nat :| PrecedesAt(a[1..], b[1..], k);
        assert a[..k + 1] == [a[0]] + a[1..][..k] && b[..k + 1] == [b[0]] + b[1..][..k];
        assert PrecedesAt(a, b, k + 1);
      }
      if Precedes(a, b) {
        var k: nat :| PrecedesAt(a, b, k);
        assert k > 0;
        assert a[1..][..k - 1] == a[..k][1..] && b[1..][..k - 1] == b[..k][1..];
        assert PrecedesAt(a[1..], b[1..], k - 1);
      }
    } else if Before(a, b) {
      assert PrecedesAt(a, b, 0);
    } else if Precedes(a, b) {
      var k: nat :| PrecedesAt(a, b, k);
      PrecedesHead(a, b, k);
    }
  }

  lemma HexReads(c: CodeUnit)
    ensures var digits := UnicodeEscape(c)[2..];
            && CharOk(Hex(digits)) && ReadChar(Hex(digits)) == c && WriteChar(Hex(digits)) == UnicodeEscape(c)
            && forall d | d in digits :: d < 65 || d > 70
  {
  }

  lemma UnitChar(s: Text, i: nat, lone: bool) returns (c: Char)
    requires i < |s| && lone == Unpaired(s, i)
    ensures WriteChar(c) == EscapeUnit(s[i], lone) && Spelled(c, s, i)
  {
    if ShortEscape(s[i]) >= 0 {
      c := Short(ShortEscape(s[i]));
    } else if s[i] < 32 || lone {
      HexReads(s[i]);
      c := Hex(UnicodeEscape(s[i])[2..]);
    } else {
      c := Unescaped(s[i]);
    }
  }

  /** From position `i` on. */
  lemma {:induction false} EscapeChars(s: Text, i: nat) returns (chars: seq<Char>)
    requires i <= |s|
    ensures |chars| == |s| - i && forall k | 0 <= k < |chars| :: Spelled(chars[k], s, i + k)
    ensures WriteChars(chars) == Escape(i > 0 && IsHigh(s[i - 1]), s[i..])
    decreases |s| - i
  {
    if i == |s| {
      chars := [];
    } else {
      var afterHigh := i > 0 && IsHigh(s[i - 1]);
      assert Lone(afterHigh, s[i..]) == Unpaired(s, i);
      var first := UnitChar(s, i, Lone(afterHigh, s[i..]));
      var rest := EscapeChars(s, i + 1);
      assert s[i..][1..] == s[i + 1..];
      chars := [first] + rest;
      assert chars[1..] == rest;
    }
  }

  lemma QuoteChars(s: Text) returns (chars: seq<Char>)
    ensures CharsOk(chars) && WriteString(chars) == Quote(s) && Spells(chars, s)
  {
    chars := EscapeChars(s, 0);
    assert s[0..] == s;
    Associate([QUOTE], Escape(false, s), [QUOTE]);
  }

  /** Spelling determines what is read. */
  lemma {:induction false} SpellsReads(chars: seq<Char>, s: Text)
    requires CharsOk(chars) && |chars| == |s| && forall i | 0 <= i < |s| :: ReadChar(chars[i]) == s[i]
    ensures ReadString(chars) == s
  {
    if chars != [] {
      SpellsReads(chars[1..], s[1..]);
      assert s == [s[0]] + s[1..];
    }
  }

  // ----- the tree -----

  lemma ArrayText(v: Json, elements: seq<Element>)
    requires v.Arr? && WriteElements(elements) == PrintItems(v, v.items)
    ensures Write(Array([], elements)) == Print(v)
  {
    var body := WriteElements(elements);
    assert [] + body == body;
    Associate([OPEN_BRACKET], body, [CLOSE_BRACKET]);
  }

  lemma ObjectText(v: Json, entries: seq<Entry>)
    requires v.Obj?
    requires (SortKeepsMembers(v.members); WriteMembers(entries) == PrintMembers(v, Sort(v.members)))
    ensures Write(Object([], entries)) == Print(v)
  {
    var body := WriteMembers(entries);
    assert [] + body == body;
    Associate([OPEN_BRACE], body, [CLOSE_BRACE]);
  }

  // Where a printed value without holes gave a tree without gaps, and one without repeated keys a tree in key order.
  ghost predicate Matches(v: Json, t: Syntax) {
    Denotes(t, v) && (NoHoles(v) ==> Complete(t)) && (KeysDistinct(v) ==> KeysAscend(t))
  }

  lemma ArrayMatches(v: Json, elements: seq<Element>)
    requires v.Arr? && |elements| == |v.items|
    requires forall i | 0 <= i < |elements| :: Matches(v.items[i], elements[i].value)
    ensures Matches(v, Array([], elements))
  {
    assert forall i | 0 <= i < |elements| :: v.items[i] in v.items;
  }

  ghost predicate MatchesMember(m: Member, e: Entry) {
    Spells(e.key, m.key) && CharsOk(e.key) && Matches(m.value, e.value)
  }

  lemma ObjectDenotes(v: Json, sorted: seq<Member>, entries: seq<Entry>)
    requires v.Obj? && |entries| == |sorted| && multiset(sorted) == multiset(v.members)
    requires forall i | 0 <= i < |entries| :: MatchesMember(sorted[i], entries[i])
    ensures Denotes(Object([], entries), v)
  {
    forall i | 0 <= i < |entries| ensures DenotesMember(entries[i], sorted[i]) {
      assert MatchesMember(sorted[i], entries[i]);
    }
  }

  lemma ObjectComplete(v: Json, sorted: seq<Member>, entries: seq<Entry>)
    requires v.Obj? && NoHoles(v) && |entries| == |sorted| && forall m | m in sorted :: m in v.members
    requires forall i | 0 <= i < |entries| :: MatchesMember(sorted[i], entries[i])
    ensures Complete(Object([], entries))
  {
    forall i | 0 <= i < |entries| ensures Complete(entries[i].value) {
      assert sorted[i] in sorted && MatchesMember(sorted[i], entries[i]);
    }
  }

  lemma ObjectAscends(v: Json, sorted: seq<Member>, entries: seq<Entry>)
    requires v.Obj? && KeysDistinct(v) && sorted == Sort(v.members) && |entries| == |sorted|
    requires forall i | 0 <= i < |entries| :: MatchesMember(sorted[i], entries[i])
    ensures KeysAscend(Object([], entries))
  {
    SortAscending(v.members);
    SortKeepsMembers(v.members);
    forall i | 0 <= i < |entries| - 1 ensures Precedes(KeyOf(entries[i]), KeyOf(entries[i + 1])) {
      assert MatchesMember(sorted[i], entries[i]) && MatchesMember(sorted[i + 1], entries[i + 1]);
      SpellsReads(entries[i].key, sorted[i].key);
      SpellsReads(entries[i + 1].key, sorted[i + 1].key);
      BeforeExactly(sorted[i].key, sorted[i + 1].key);
    }
    forall e | e in entries ensures KeysAscend(e.value) {
      var i :| 0 <= i < |entries| && entries[i] == e;
      assert sorted[i] in sorted && MatchesMember(sorted[i], entries[i]);
    }
  }

  lemma ObjectMatches(v: Json, sorted: seq<Member>, entries: seq<Entry>)
    requires v.Obj? && sorted == Sort(v.members) && |entries| == |sorted|
    requires forall i | 0 <= i < |entries| :: MatchesMember(sorted[i], entries[i])
    ensures Matches(v, Object([], entries))
  {
    SortKeepsMembers(v.members);
    ObjectDenotes(v, sorted, entries);
    if NoHoles(v) { ObjectComplete(v, sorted, entries); }
    if KeysDistinct(v) { ObjectAscends(v, sorted, entries); }
  }

  /** The syntax tree of a printed value, with a gap for each hole. */
  lemma {:induction false} PrintedSyntax(v: Json) returns (t: Syntax)
    requires v.Hole? || Accepted(v)
    ensures Formed(t) && Write(t) == Print(v) && Matches(v, t)
    decreases v, 1, 0
  {
    match v
    case Str(text) =>
      var chars := QuoteChars(text);
      t := Quoted(chars);
    case Arr(items) =>
      var elements := PrintedElements(v, items);
      t := Array([], elements);
      ArrayText(v, elements);
      ArrayMatches(v, elements);
    case Obj(members) =>
      SortKeepsMembers(members);
      var entries := PrintedEntries(v, Sort(members));
      t := Object([], entries);
      ObjectText(v, entries);
      ObjectMatches(v, Sort(members), entries);
    case Hole => t := Gap;
    case _ =>
      if v.Num? { NumberPrints(v); }
      t := Token(Print(v));
  }

  lemma {:induction false} PrintedElements(owner: Json, items: seq<Json>) returns (elements: seq<Element>)
    requires owner.Arr? && Accepted(owner) && forall v | v in items :: v in owner.items
    ensures |elements| == |items| && WriteElements(elements) == PrintItems(owner, items)
    ensures forall i | 0 <= i < |elements| :: ElementFormed(elements[i]) && Matches(items[i], elements[i].value)
    decreases owner, 0, |items|
  {
    if items == [] {
      elements := [];
    } else {
      assert items[0] in items;
      assert exists i :: 0 <= i < |owner.items| && owner.items[i] == items[0];
      var first := PrintedSyntax(items[0]);
      var rest := PrintedElements(owner, items[1..]);
      ElementText(first);
      elements := [Element([], first, [])] + rest;
      assert elements[1..] == rest;
    }
  }

  lemma {:induction false} PrintedEntries(owner: Json, members: seq<Member>) returns (entries: seq<Entry>)
    requires owner.Obj? && Accepted(owner) && forall m | m in members :: m in owner.members
    ensures |entries| == |members| && WriteMembers(entries) == PrintMembers(owner, members)
    ensures forall i | 0 <= i < |entries| ::
              MemberFormed(entries[i]) && MatchesMember(members[i], entries[i])
    decreases owner, 0, |members|
  {
    if members == [] {
      entries := [];
    } else {
      assert members[0] in members;
      assert exists i :: 0 <= i < |owner.members| && owner.members[i] == members[0];
      var key := QuoteChars(members[0].key);
      var value := PrintedSyntax(members[0].value);
      var rest := PrintedEntries(owner, members[1..]);
      var entry := MemberEntry(members[0], key, value);
      EntryPrepends(owner, members, entry, rest);
      entries := [entry] + rest;
    }
  }

  lemma ElementText(t: Syntax)
    ensures WriteElement(Element([], t, [])) == Write(t)
  {
  }

  lemma EntryPrepends(owner: Json, members: seq<Member>, entry: Entry, rest: seq<Entry>)
    requires owner.Obj? && members != [] && forall m | m in members :: m in owner.members
    requires WriteMember(entry) == Quote(members[0].key) + [COLON] + Print(members[0].value)
    requires |rest| == |members| - 1 && WriteMembers(rest) == PrintMembers(owner, members[1..])
    ensures WriteMembers([entry] + rest) == PrintMembers(owner, members)
  {
    assert ([entry] + rest)[1..] == rest;
  }

  lemma MemberEntry(m: Member, key: seq<Char>, value: Syntax) returns (entry: Entry)
    requires CharsOk(key) && WriteString(key) == Quote(m.key) && Spells(key, m.key)
    requires Formed(value) && Write(value) == Print(m.value) && Matches(m.value, value)
    ensures MemberFormed(entry) && MatchesMember(m, entry)
    ensures WriteMember(entry) == Quote(m.key) + [COLON] + Print(m.value)
  {
    entry := Entry([], key, [], [], value, []);
    assert [] + WriteString(key) + [] + [COLON] + [] + Write(value) + [] == WriteString(key) + [COLON] + Write(value);
  }

  /** The canonical text of a value without holes is a JSON text that means the value, its keys ascending. */
  lemma PrintsJson(v: Json)
    requires Accepted(v) && NoHoles(v) && KeysDistinct(v)
    ensures exists t :: Legal(t) && Write(t) == Print(v) && Denotes(t, v) && KeysAscend(t)
  {
    var t := PrintedSyntax(v);
  }
}
