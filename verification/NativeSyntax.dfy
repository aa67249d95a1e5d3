/**
 What `publishNative` writes, read as JSON: the text of a finite unfolding is the text of a syntax tree without
 white space, with the same words, the same strings and the same children in order.
 */
module NativeSyntax {
  import opened CanonicalSyntax
  import opened JsonText
  import opened NativeWriter
  import G = JsonGrammar

  ghost predicate Mirrors(s: G.Syntax, t: Json) {
    match t
    case Word(text) => s == G.Token(text)
    case Chars(text) => s.Quoted? && Spells(s.chars, text)
    case Items(items) =>
      && s.Array? && s.space == [] && |s.elements| == |items|
      && forall i | 0 <= i < |items| :: MirrorsElement(s.elements[i], items[i])
    case Fields(fields) =>
      && s.Object? && s.space == [] && |s.members| == |fields|
      && forall i | 0 <= i < |fields| :: MirrorsField(s.members[i], fields[i])
  }

  ghost predicate MirrorsElement(e: G.Element, t: Json) {
    e.before == [] && Mirrors(e.value, t) && e.after == []
  }

  ghost predicate MirrorsField(e: G.Entry, f: Field) {
    && e.before == [] && Spells(e.key, f.name) && e.afterKey == []
    && e.beforeValue == [] && Mirrors(e.value, f.value) && e.after == []
  }

  // A legal element or member that mirrors its part of the unfolding, and has its text.
  ghost predicate Element(e: G.Element, t: Json) {
    G.Legal(e.value) && MirrorsElement(e, t) && G.WriteElement(e) == PrintJson(t)
  }

  ghost predicate Entry(e: G.Entry, f: Field) {
    && G.CharsOk(e.key) && G.Legal(e.value) && MirrorsField(e, f)
    && G.WriteMember(e) == Quote(f.name) + [COLON] + PrintJson(f.value)
  }

  // Every word is null, true, false or a number.
  ghost predicate WellWorded(t: Json) {
    match t
    case Word(text) => G.IsToken(text)
    case Chars(_) => true
    case Items(items) => forall i | 0 <= i < |items| :: WellWorded(items[i])
    case Fields(fields) => forall i | 0 <= i < |fields| :: WellWorded(fields[i].value)
  }

  lemma {:induction false} UnfoldingWords(h: Heap, v: Value, t: Json)
    requires Unfolds(h, v, t)
    ensures WellWorded(t)
    decreases t
  {
    Spelling();
    if v.Object? {
      match h[v.ref]
      case Array(slots, _) =>
        forall i | 0 <= i < |slots| ensures WellWorded(t.items[i]) {
          UnfoldingWords(h, if slots[i].Hole? || slots[i].value.Undefined? then Null else slots[i].value, t.items[i]);
        }
      case Record(members, _) =>
        KeptData(members);
        forall i | 0 <= i < |Kept(members)| ensures WellWorded(t.fields[i].value) {
          UnfoldingWords(h, Kept(members)[i].slot.value, t.fields[i].value);
        }
    }
  }

  lemma {:induction false} Tree(t: Json) returns (s: G.Syntax)
    requires WellWorded(t)
    ensures G.Legal(s) && Mirrors(s, t) && G.Write(s) == PrintJson(t)
    decreases t, 1, 0
  {
    match t
    case Word(text) => s := G.Token(text);
    case Chars(text) =>
      var chars := QuoteChars(text);
      s := G.Quoted(chars);
    case Items(items) =>
      var elements := Elements(items, |items|);
      ItemsText(items, elements, 0);
      s := ArrayTree(items, elements);
    case Fields(fields) =>
      var entries := Entries(fields, |fields|);
      FieldsText(fields, entries, 0);
      s := ObjectTree(fields, entries);
  }

  lemma {:induction false} Elements(items: seq<Json>, n: nat) returns (elements: seq<G.Element>)
    requires n <= |items| && forall k | 0 <= k < |items| :: WellWorded(items[k])
    ensures |elements| == n && forall k | 0 <= k < n :: Element(elements[k], items[k])
    decreases items, 0, n
  {
    if n == 0 {
      elements := [];
    } else {
      var front := Elements(items, n - 1);
      var last := Tree(items[n - 1]);
      assert Element(G.Element([], last, []), items[n - 1]);
      elements := front + [G.Element([], last, [])];
    }
  }

  lemma {:induction false} Entries(fields: seq<Field>, n: nat) returns (entries: seq<G.Entry>)
    requires n <= |fields| && forall k | 0 <= k < |fields| :: WellWorded(fields[k].value)
    ensures |entries| == n && forall k | 0 <= k < n :: Entry(entries[k], fields[k])
    decreases fields, 0, n
  {
    if n == 0 {
      entries := [];
    } else {
      var front := Entries(fields, n - 1);
      var key := QuoteChars(fields[n - 1].name);
      var value := Tree(fields[n - 1].value);
      var last := G.Entry([], key, [], [], value, []);
      FieldText(last, fields[n - 1]);
      entries := front + [last];
    }
  }

  lemma FieldText(e: G.Entry, f: Field)
    requires G.CharsOk(e.key) && G.Legal(e.value) && MirrorsField(e, f)
    requires G.WriteString(e.key) == Quote(f.name) && G.Write(e.value) == PrintJson(f.value)
    ensures Entry(e, f)
  {
    var key, value := G.WriteString(e.key), G.Write(e.value);
    assert [] + key + [] + [COLON] + [] + value + [] == key + [COLON] + value;
  }

  /** What stands before the rest of a list from position `i` on. */
  function Before(i: nat, length: nat): Text { if i == 0 || i == length then [] else [COMMA] }

  lemma {:induction false} ItemsText(items: seq<Json>, elements: seq<G.Element>, i: nat)
    requires i <= |items| == |elements| && forall k | 0 <= k < |items| :: Element(elements[k], items[k])
    ensures PrintItems(items, i) == Before(i, |items|) + G.WriteElements(elements[i..])
    decreases |items| - i
  {
    if i < |items| {
      ItemsText(items, elements, i + 1);
      var text, later := PrintJson(items[i]), PrintItems(items, i + 1);
      assert Element(elements[i], items[i]);
      assert elements[i..][1..] == elements[i + 1..];
      assert G.WriteElements(elements[i..]) == text + later;
      Associate(Before(i, |items|), text, later);
    }
  }

  lemma {:induction false} FieldsText(fields: seq<Field>, entries: seq<G.Entry>, i: nat)
    requires i <= |fields| == |entries| && forall k | 0 <= k < |fields| :: Entry(entries[k], fields[k])
    ensures PrintFields(fields, i) == Before(i, |fields|) + G.WriteMembers(entries[i..])
    decreases |fields| - i
  {
    if i < |fields| {
      FieldsText(fields, entries, i + 1);
      assert Entry(entries[i], fields[i]);
      assert entries[i..] == [entries[i]] + entries[i + 1..];
      Prepended(entries[i], entries[i + 1..], G.WriteMember(entries[i]), PrintFields(fields, i + 1));
      FieldGroups(Before(i, |fields|), Quote(fields[i].name), PrintJson(fields[i].value), PrintFields(fields, i + 1));
    }
  }

  lemma Prepended(entry: G.Entry, rest: seq<G.Entry>, text: Text, later: Text)
    requires G.WriteMember(entry) == text && later == (if rest == [] then [] else [COMMA]) + G.WriteMembers(rest)
    ensures G.WriteMembers([entry] + rest) == text + later
  {
    assert ([entry] + rest)[1..] == rest;
    assert rest == [] ==> later == [];
  }

  lemma FieldGroups(before: Text, name: Text, value: Text, later: Text)
    ensures before + name + [COLON] + value + later == before + (name + [COLON] + value + later)
  {
  }

  lemma ArrayTree(items: seq<Json>, elements: seq<G.Element>) returns (s: G.Syntax)
    requires |items| == |elements| && forall k | 0 <= k < |items| :: Element(elements[k], items[k])
    requires PrintItems(items, 0) == G.WriteElements(elements)
    ensures G.Legal(s) && Mirrors(s, Items(items)) && G.Write(s) == PrintJson(Items(items))
  {
    s := G.Array([], elements);
    var body := G.WriteElements(elements);
    assert [] + body == body;
    Associate([OPEN_BRACKET], body, [CLOSE_BRACKET]);
    forall k | 0 <= k < |elements| ensures G.ElementFormed(elements[k]) && G.Complete(elements[k].value) {
      assert Element(elements[k], items[k]);
    }
  }

  lemma ObjectTree(fields: seq<Field>, entries: seq<G.Entry>) returns (s: G.Syntax)
    requires |fields| == |entries| && forall k | 0 <= k < |fields| :: Entry(entries[k], fields[k])
    requires PrintFields(fields, 0) == G.WriteMembers(entries)
    ensures G.Legal(s) && Mirrors(s, Fields(fields)) && G.Write(s) == PrintJson(Fields(fields))
  {
    s := G.Object([], entries);
    var body := G.WriteMembers(entries);
    assert [] + body == body;
    Associate([OPEN_BRACE], body, [CLOSE_BRACE]);
    forall k | 0 <= k < |entries| ensures G.MemberFormed(entries[k]) && G.Complete(entries[k].value) {
      assert Entry(entries[k], fields[k]);
    }
  }

  /** What is written for an unfolding is JSON, and reads as the unfolding. */
  lemma UnfoldingIsJson(h: Heap, v: Value, t: Json)
    requires Unfolds(h, v, t)
    ensures exists s :: G.Legal(s) && Mirrors(s, t) && G.Write(s) == PrintJson(t)
  {
    UnfoldingWords(h, v, t);
    var s := Tree(t);
  }
}
