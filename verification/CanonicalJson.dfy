/**
 `canonicalJson`: the printer behind every command digest.  Two values must get one digest exactly
 when they are the same JSON value up to the order of object keys.
 */
module CanonicalJson {
  import opened JsonGrammar
  import opened JsonText

  // `JSON.stringify` gives distinct finite numbers distinct numerals, except that -0 prints as 0.
  datatype Number = NegativeZero | Finite(numeral: Numeral)

  lemma ZeroIsNumber()
    ensures IsNumber([48])
  {
    assert IsMinus([]) && IsWhole([48]) && IsFraction([]) && IsExponent([]);
    assert [48] == [] + [48] + [] + [];
  }

  type Numeral = n: Text | IsNumber(n) witness (ZeroIsNumber(); [48])

  datatype Json =
    | Null
    | Bool(b: bool)
    | Num(number: Number)
    | Str(text: Text)
    | Arr(items: seq<Json>)
    | Obj(members: seq<Member>)   // own enumerable members in insertion order
    | Hole                        // a missing array element, which `map` skips and `join` prints as nothing
    | Alien                       // undefined, NaN, a function, an instance of a class, ...

  datatype Member = Member(key: Text, value: Json)

  /** UTF-16 code unit order, the default order of `sort`. */
  predicate Before(a: Text, b: Text) {
    b != [] && (a == [] || a[0] < b[0] || (a[0] == b[0] && Before(a[1..], b[1..])))
  }

  function Insert(m: Member, sorted: seq<Member>): (r: seq<Member>)
    ensures multiset(r) == multiset{m} + multiset(sorted)
  {
    if sorted == [] || Before(m.key, sorted[0].key) then [m] + sorted
    else
      assert sorted == [sorted[0]] + sorted[1..];
      [sorted[0]] + Insert(m, sorted[1..])
  }

  function Sort(members: seq<Member>): (r: seq<Member>)
    ensures multiset(r) == multiset(members)
  {
    if members == [] then []
    else
      assert members == [members[0]] + members[1..];
      Insert(members[0], Sort(members[1..]))
  }

  lemma SortKeepsMembers(members: seq<Member>)
    ensures forall m :: m in Sort(members) <==> m in members
    ensures |Sort(members)| == |members|
  {
    assert forall m :: m in Sort(members) <==> m in multiset(Sort(members));
    assert forall m :: m in members <==> m in multiset(members);
    assert |multiset(Sort(members))| == |Sort(members)| && |multiset(members)| == |members|;
  }

  function Print(v: Json): Text
    decreases v, 1, 0
  {
    match v
    case Null => NULL_TEXT
    case Bool(b) => if b then TRUE_TEXT else FALSE_TEXT
    case Num(NegativeZero) => [48]
    case Num(Finite(numeral)) => numeral
    case Str(text) => Quote(text)
    case Arr(items) => [OPEN_BRACKET] + PrintItems(v, items) + [CLOSE_BRACKET]
    case Obj(members) =>
      SortKeepsMembers(members);
      [OPEN_BRACE] + PrintMembers(v, Sort(members)) + [CLOSE_BRACE]
    case Hole => []
    case Alien => []
  }

  function PrintItems(owner: Json, items: seq<Json>): Text
    requires owner.Arr? && forall v | v in items :: v in owner.items
    decreases owner, 0, |items|
  {
    if items == [] then []
    else
      assert items[0] in items;
      assert exists i :: 0 <= i < |owner.items| && owner.items[i] == items[0];
      Print(items[0]) + (if |items| == 1 then [] else [COMMA] + PrintItems(owner, items[1..]))
  }

  function PrintMembers(owner: Json, members: seq<Member>): Text
    requires owner.Obj? && forall m | m in members :: m in owner.members
    decreases owner, 0, |members|
  {
    if members == [] then []
    else
      assert members[0] in members;
      assert exists i :: 0 <= i < |owner.members| && owner.members[i] == members[0];
      Quote(members[0].key) + [COLON] + Print(members[0].value)
      + (if |members| == 1 then [] else [COMMA] + PrintMembers(owner, members[1..]))
  }

  /** Whether printing returns at all: an alien anywhere makes it throw, and holes are only skipped in arrays. */
  predicate Accepted(v: Json) {
    match v
    case Arr(items) => forall x | x in items :: x.Hole? || Accepted(x)
    case Obj(members) => forall m | m in members :: Accepted(m.value)
    case Hole => false
    case Alien => false
    case _ => true
  }

  datatype Result = Printed(text: Text) | Rejected

  function CanonicalJson(v: Json): Result {
    if Accepted(v) then Printed(Print(v)) else Rejected
  }

  predicate DistinctKeys(ms: seq<Member>) {
    forall i, j | 0 <= i < j < |ms| :: ms[i].key != ms[j].key
  }

  /** What every object of the language guarantees: no key occurs twice, at any depth. */
  predicate KeysDistinct(v: Json) {
    match v
    case Arr(items) => forall x | x in items :: KeysDistinct(x)
    case Obj(members) => DistinctKeys(members) && forall m | m in members :: KeysDistinct(m.value)
    case _ => true
  }

  predicate SameNumber(a: Number, b: Number) {
    (if a.NegativeZero? then [48] else a.numeral) == (if b.NegativeZero? then [48] else b.numeral)
  }

  /** An array of exactly one hole joins to the empty text, like an empty array. */
  function Effective(items: seq<Json>): seq<Json> {
    if items == [Hole] then [] else items
  }

  /** One JSON value up to key order, -0 being 0. */
  ghost predicate Same(a: Json, b: Json) {
    match (a, b)
    case (Num(x), Num(y)) => SameNumber(x, y)
    case (Arr(xs), Arr(ys)) =>
      && |Effective(xs)| == |Effective(ys)|
      && forall i | 0 <= i < |Effective(xs)| :: Same(Effective(xs)[i], Effective(ys)[i])
    case (Obj(ms), Obj(ns)) =>
      && |ms| == |ns|
      && forall m | m in ms :: exists n :: n in ns && n.key == m.key && Same(m.value, n.value)
    case (_, _) => a == b
  }

  // ---------------------------------------------------------------- equal texts, same value

  // What may follow a printed value inside a larger text.
  predicate Ends(x: Text) {
    x == [] || x[0] == COMMA || x[0] == CLOSE_BRACKET || x[0] == CLOSE_BRACE
  }

  predicate StartsAs(v: Json, c: CodeUnit) {
    match v
    case Null => c == 110
    case Bool(b) => c == if b then 116 else 102
    case Num(_) => IsNumeralUnit(c)
    case Str(_) => c == QUOTE
    case Arr(_) => c == OPEN_BRACKET
    case Obj(_) => c == OPEN_BRACE
    case _ => false
  }

  lemma FirstUnit(v: Json, x: Text)
    requires Accepted(v)
    ensures Print(v) != [] && (Print(v) + x)[0] == Print(v)[0] && StartsAs(v, Print(v)[0])
  {
    if v.Num? { NumberPrints(v); }
  }

  lemma NumberPrints(v: Json)
    requires v.Num?
    ensures IsNumber(Print(v)) && NumeralUnits(Print(v))
  {
    ZeroIsNumber();
    NumberUnits(Print(v));
  }

  lemma {:induction false} NumeralDecodes(a: Text, x: Text, b: Text, y: Text)
    requires (forall i | 0 <= i < |a| :: IsNumeralUnit(a[i])) && forall i | 0 <= i < |b| :: IsNumeralUnit(b[i])
    requires Ends(x) && Ends(y) && a + x == b + y
    ensures a == b && x == y
    decreases |a|
  {
    if a != [] && b != [] {
      assert (a + x)[0] == a[0] && (b + y)[0] == b[0];
      assert (a + x)[1..] == a[1..] + x && (b + y)[1..] == b[1..] + y;
      NumeralDecodes(a[1..], x, b[1..], y);
      assert a == [a[0]] + a[1..] && b == [b[0]] + b[1..];
    } else {
      assert a == [] ==> a + x == x;
      assert b == [] ==> b + y == y;
    }
  }

  function ItemsTail(owner: Json, items: seq<Json>, x: Text): Text
    requires owner.Arr? && items != [] && forall v | v in items :: v in owner.items
  {
    if |items| == 1 then [CLOSE_BRACKET] + x else [COMMA] + (PrintItems(owner, items[1..]) + ([CLOSE_BRACKET] + x))
  }

  function MembersTail(owner: Json, members: seq<Member>, x: Text): Text
    requires owner.Obj? && members != [] && forall m | m in members :: m in owner.members
  {
    if |members| == 1 then [CLOSE_BRACE] + x else [COMMA] + (PrintMembers(owner, members[1..]) + ([CLOSE_BRACE] + x))
  }

  lemma ItemsTailStarts(owner: Json, items: seq<Json>, x: Text)
    requires owner.Arr? && items != [] && forall v | v in items :: v in owner.items
    ensures var t := ItemsTail(owner, items, x);
            if |items| == 1 then t[0] == CLOSE_BRACKET && t[1..] == x
            else t[0] == COMMA && t[1..] == PrintItems(owner, items[1..]) + ([CLOSE_BRACKET] + x)
  {
  }

  lemma MembersTailStarts(owner: Json, members: seq<Member>, x: Text)
    requires owner.Obj? && members != [] && forall m | m in members :: m in owner.members
    ensures var t := MembersTail(owner, members, x);
            if |members| == 1 then t[0] == CLOSE_BRACE && t[1..] == x
            else t[0] == COMMA && t[1..] == PrintMembers(owner, members[1..]) + ([CLOSE_BRACE] + x)
  {
  }

  lemma ItemsSplit(owner: Json, items: seq<Json>, x: Text)
    requires owner.Arr? && items != [] && forall v | v in items :: v in owner.items
    ensures PrintItems(owner, items) + ([CLOSE_BRACKET] + x) == Print(items[0]) + ItemsTail(owner, items, x)
  {
  }

  lemma MembersSplit(owner: Json, members: seq<Member>, x: Text)
    requires owner.Obj? && members != [] && forall m | m in members :: m in owner.members
    ensures PrintMembers(owner, members) + ([CLOSE_BRACE] + x)
         == Quote(members[0].key) + ([COLON] + (Print(members[0].value) + MembersTail(owner, members, x)))
  {
    var rest := if |members| == 1 then [] else [COMMA] + PrintMembers(owner, members[1..]);
    TailSplit(owner, members, x);
    Regroup(Quote(members[0].key), [COLON], Print(members[0].value), rest, [CLOSE_BRACE] + x);
  }

  lemma TailSplit(owner: Json, members: seq<Member>, x: Text)
    requires owner.Obj? && members != [] && forall m | m in members :: m in owner.members
    ensures (if |members| == 1 then [] else [COMMA] + PrintMembers(owner, members[1..])) + ([CLOSE_BRACE] + x)
         == MembersTail(owner, members, x)
  {
  }

  lemma {:induction false} Decode(a: Json, x: Text, b: Json, y: Text)
    requires Accepted(a) && Accepted(b) && Ends(x) && Ends(y)
    requires Print(a) + x == Print(b) + y
    ensures Same(a, b) && x == y
    decreases a, 3, 0
  {
    FirstUnit(a, x);
    FirstUnit(b, y);
    match a
    case Null => assert x == (Print(a) + x)[4..] && y == (Print(b) + y)[4..];
    case Bool(_) => assert x == (Print(a) + x)[|Print(a)|..] && y == (Print(b) + y)[|Print(b)|..];
    case Num(_) =>
      NumberPrints(a);
      NumberPrints(b);
      NumeralDecodes(Print(a), x, Print(b), y);
    case Str(text) => QuoteDecodes(text, x, b.text, y);
    case Arr(items) => DecodeArray(a, x, b, y);
    case Obj(members) => DecodeObject(a, x, b, y);
  }

  lemma BracketsSplit(v: Json, x: Text)
    ensures v.Arr? ==> Print(v) + x == [OPEN_BRACKET] + (PrintItems(v, v.items) + ([CLOSE_BRACKET] + x))
  {
  }

  lemma BracesSplit(v: Json, x: Text)
    requires v.Obj?
    ensures (SortKeepsMembers(v.members);
             Print(v) + x == [OPEN_BRACE] + (PrintMembers(v, Sort(v.members)) + ([CLOSE_BRACE] + x)))
  {
  }

  lemma {:induction false} DecodeArray(a: Json, x: Text, b: Json, y: Text)
    requires a.Arr? && b.Arr? && Accepted(a) && Accepted(b) && Ends(x) && Ends(y)
    requires Print(a) + x == Print(b) + y
    ensures Same(a, b) && x == y
    decreases a, 2, 0
  {
    var left, right := PrintItems(a, a.items) + ([CLOSE_BRACKET] + x), PrintItems(b, b.items) + ([CLOSE_BRACKET] + y);
    BracketsSplit(a, x); BracketsSplit(b, y);
    assert left == ([OPEN_BRACKET] + left)[1..] && right == ([OPEN_BRACKET] + right)[1..];
    if a.items != [] && b.items != [] {
      DecodeItems(a, a.items, x, b, b.items, y);
      PointwiseSame(a.items, b.items);
    } else {
      DecodeEmptyArray(a, x, b, y);
    }
  }

  lemma DecodeEmptyArray(a: Json, x: Text, b: Json, y: Text)
    requires a.Arr? && b.Arr? && Accepted(a) && Accepted(b) && (a.items == [] || b.items == [])
    requires PrintItems(a, a.items) + ([CLOSE_BRACKET] + x) == PrintItems(b, b.items) + ([CLOSE_BRACKET] + y)
    ensures Same(a, b) && x == y
  {
    if a.items != [] { ItemsSplit(a, a.items, x); ItemHead(a, a.items, x); }
    if b.items != [] { ItemsSplit(b, b.items, y); ItemHead(b, b.items, y); }
    assert a.items == [] ==> PrintItems(a, a.items) + ([CLOSE_BRACKET] + x) == [CLOSE_BRACKET] + x;
    assert b.items == [] ==> PrintItems(b, b.items) + ([CLOSE_BRACKET] + y) == [CLOSE_BRACKET] + y;
    assert Effective(a.items) == [] && Effective(b.items) == [];
    assert x == ([CLOSE_BRACKET] + x)[1..] && y == ([CLOSE_BRACKET] + y)[1..];
  }

  lemma PointwiseSame(xs: seq<Json>, ys: seq<Json>)
    requires |xs| == |ys| && forall i | 0 <= i < |xs| :: Same(xs[i], ys[i])
    ensures Same(Arr(xs), Arr(ys))
  {
  }

  /** The first unit of a non-empty item list: a closing bracket only after a lone hole. */
  lemma ItemHead(owner: Json, items: seq<Json>, x: Text)
    requires owner.Arr? && items != [] && Accepted(owner) && forall v | v in items :: v in owner.items
    ensures var t := Print(items[0]) + ItemsTail(owner, items, x);
            && (items[0].Hole? ==> t == ItemsTail(owner, items, x) && (t[0] == CLOSE_BRACKET <==> |items| == 1)
                                   && (t[0] == COMMA <==> |items| > 1)
                                   && Effective(items) == if |items| == 1 then [] else items)
            && (!items[0].Hole? ==> t[0] != CLOSE_BRACKET && t[0] != COMMA && Effective(items) == items)
  {
    if items[0].Hole? {
      ItemsTailStarts(owner, items, x);
    } else {
      assert items[0] in items;
      FirstUnit(items[0], ItemsTail(owner, items, x));
    }
  }

  lemma {:induction false} DecodeItem(a: Json, xs: seq<Json>, x: Text, b: Json, ys: seq<Json>, y: Text)
    requires a.Arr? && Accepted(a) && xs != [] && forall v | v in xs :: v in a.items
    requires b.Arr? && Accepted(b) && ys != [] && forall v | v in ys :: v in b.items
    requires Ends(x) && Ends(y)
    requires PrintItems(a, xs) + ([CLOSE_BRACKET] + x) == PrintItems(b, ys) + ([CLOSE_BRACKET] + y)
    ensures Same(xs[0], ys[0]) && ItemsTail(a, xs, x) == ItemsTail(b, ys, y)
    decreases a, 0, 0
  {
    ItemsSplit(a, xs, x); ItemsSplit(b, ys, y);
    ItemHead(a, xs, x); ItemHead(b, ys, y);
    assert xs[0] in xs && ys[0] in ys;
    if !xs[0].Hole? && !ys[0].Hole? {
      assert exists i :: 0 <= i < |a.items| && a.items[i] == xs[0];
      Decode(xs[0], ItemsTail(a, xs, x), ys[0], ItemsTail(b, ys, y));
    }
  }

  lemma {:induction false} DecodeItems(a: Json, xs: seq<Json>, x: Text, b: Json, ys: seq<Json>, y: Text)
    requires a.Arr? && Accepted(a) && xs != [] && forall v | v in xs :: v in a.items
    requires b.Arr? && Accepted(b) && ys != [] && forall v | v in ys :: v in b.items
    requires Ends(x) && Ends(y)
    requires PrintItems(a, xs) + ([CLOSE_BRACKET] + x) == PrintItems(b, ys) + ([CLOSE_BRACKET] + y)
    ensures |xs| == |ys| && (forall i | 0 <= i < |xs| :: Same(xs[i], ys[i])) && x == y
    decreases a, 1, |xs|
  {
    var tx, ty := ItemsTail(a, xs, x), ItemsTail(b, ys, y);
    DecodeItem(a, xs, x, b, ys, y);
    ItemsTailStarts(a, xs, x); ItemsTailStarts(b, ys, y);
    if |xs| > 1 {
      DecodeItems(a, xs[1..], x, b, ys[1..], y);
      forall i | 0 <= i < |xs| ensures Same(xs[i], ys[i]) {
        if i > 0 { assert xs[i] == xs[1..][i - 1] && ys[i] == ys[1..][i - 1]; }
      }
    }
  }

  lemma {:induction false} DecodeObject(a: Json, x: Text, b: Json, y: Text)
    requires a.Obj? && b.Obj? && Accepted(a) && Accepted(b) && Ends(x) && Ends(y)
    requires Print(a) + x == Print(b) + y
    ensures Same(a, b) && x == y
    decreases a, 2, 0
  {
    var ms, ns := Sort(a.members), Sort(b.members);
    SortKeepsMembers(a.members);
    SortKeepsMembers(b.members);
    BracesSplit(a, x); BracesSplit(b, y);
    var left, right := PrintMembers(a, ms) + ([CLOSE_BRACE] + x), PrintMembers(b, ns) + ([CLOSE_BRACE] + y);
    assert left == ([OPEN_BRACE] + left)[1..] && right == ([OPEN_BRACE] + right)[1..];
    if ms != [] && ns != [] {
      DecodeMembers(a, ms, x, b, ns, y);
      MatchedMembersSame(a, ms, b, ns);
    } else {
      DecodeEmptyObject(a, ms, x, b, ns, y);
    }
  }

  lemma MembersHead(owner: Json, members: seq<Member>, x: Text)
    requires owner.Obj? && forall m | m in members :: m in owner.members
    ensures var t := PrintMembers(owner, members) + ([CLOSE_BRACE] + x);
            t[0] == if members == [] then CLOSE_BRACE else QUOTE
  {
  }

  lemma DecodeEmptyObject(a: Json, ms: seq<Member>, x: Text, b: Json, ns: seq<Member>, y: Text)
    requires a.Obj? && b.Obj? && (ms == [] || ns == []) && |ms| == |a.members| && |ns| == |b.members|
    requires (forall m | m in ms :: m in a.members) && (forall n | n in ns :: n in b.members)
    requires PrintMembers(a, ms) + ([CLOSE_BRACE] + x) == PrintMembers(b, ns) + ([CLOSE_BRACE] + y)
    ensures Same(a, b) && x == y
  {
    MembersHead(a, ms, x);
    MembersHead(b, ns, y);
    assert [] + ([CLOSE_BRACE] + x) == [CLOSE_BRACE] + x && [] + ([CLOSE_BRACE] + y) == [CLOSE_BRACE] + y;
    assert x == ([CLOSE_BRACE] + x)[1..] && y == ([CLOSE_BRACE] + y)[1..];
  }

  lemma MatchedMembersSame(a: Json, ms: seq<Member>, b: Json, ns: seq<Member>)
    requires a.Obj? && b.Obj? && |ms| == |a.members| && |ns| == |b.members| && |ms| == |ns|
    requires forall m | m in a.members :: m in ms
    requires forall n | n in ns :: n in b.members
    requires forall i | 0 <= i < |ms| :: ms[i].key == ns[i].key && Same(ms[i].value, ns[i].value)
    ensures Same(a, b)
  {
  }

  lemma {:induction false} DecodeMember(a: Json, ms: seq<Member>, x: Text, b: Json, ns: seq<Member>, y: Text)
    requires a.Obj? && Accepted(a) && ms != [] && forall m | m in ms :: m in a.members
    requires b.Obj? && Accepted(b) && ns != [] && forall m | m in ns :: m in b.members
    requires Ends(x) && Ends(y)
    requires PrintMembers(a, ms) + ([CLOSE_BRACE] + x) == PrintMembers(b, ns) + ([CLOSE_BRACE] + y)
    ensures ms[0].key == ns[0].key && Same(ms[0].value, ns[0].value) && MembersTail(a, ms, x) == MembersTail(b, ns, y)
    decreases a, 0, 0
  {
    MembersSplit(a, ms, x); MembersSplit(b, ns, y);
    assert ms[0] in ms && ns[0] in ns;
    assert exists i :: 0 <= i < |a.members| && a.members[i] == ms[0];
    var tx, ty := MembersTail(a, ms, x), MembersTail(b, ns, y);
    var vx, vy := Print(ms[0].value) + tx, Print(ns[0].value) + ty;
    QuoteDecodes(ms[0].key, [COLON] + vx, ns[0].key, [COLON] + vy);
    assert vx == ([COLON] + vx)[1..] && vy == ([COLON] + vy)[1..];
    Decode(ms[0].value, tx, ns[0].value, ty);
  }

  lemma {:induction false} DecodeMembers(a: Json, ms: seq<Member>, x: Text, b: Json, ns: seq<Member>, y: Text)
    requires a.Obj? && Accepted(a) && ms != [] && forall m | m in ms :: m in a.members
    requires b.Obj? && Accepted(b) && ns != [] && forall m | m in ns :: m in b.members
    requires Ends(x) && Ends(y)
    requires PrintMembers(a, ms) + ([CLOSE_BRACE] + x) == PrintMembers(b, ns) + ([CLOSE_BRACE] + y)
    ensures |ms| == |ns| && (forall i | 0 <= i < |ms| :: ms[i].key == ns[i].key && Same(ms[i].value, ns[i].value))
            && x == y
    decreases a, 1, |ms|
  {
    var tx, ty := MembersTail(a, ms, x), MembersTail(b, ns, y);
    DecodeMember(a, ms, x, b, ns, y);
    MembersTailStarts(a, ms, x); MembersTailStarts(b, ns, y);
    if |ms| > 1 {
      DecodeMembers(a, ms[1..], x, b, ns[1..], y);
      forall i | 0 <= i < |ms| ensures ms[i].key == ns[i].key && Same(ms[i].value, ns[i].value) {
        if i > 0 { assert ms[i] == ms[1..][i - 1] && ns[i] == ns[1..][i - 1]; }
      }
    }
  }

  // ---------------------------------------------------------------- same value, equal texts

  lemma {:induction false} BeforeTrichotomy(a: Text, b: Text)
    ensures !Before(a, a)
    ensures Before(a, b) || Before(b, a) || a == b
    ensures !(Before(a, b) && Before(b, a))
    decreases |a|
  {
    if a != [] {
      BeforeTrichotomy(a[1..], if b == [] then [] else b[1..]);
      if b != [] && a[0] == b[0] {
        assert a == [a[0]] + a[1..] && b == [b[0]] + b[1..];
      }
    }
  }

  lemma {:induction false} BeforeTransitive(a: Text, b: Text, c: Text)
    requires Before(a, b) && Before(b, c)
    ensures Before(a, c)
    decreases |a|
  {
    if a != [] && a[0] == b[0] && b[0] == c[0] { BeforeTransitive(a[1..], b[1..], c[1..]); }
  }

  predicate Ascending(ms: seq<Member>) {
    forall i, j | 0 <= i < j < |ms| :: Before(ms[i].key, ms[j].key)
  }

  function Keys(ms: seq<Member>): set<Text> {
    set i | 0 <= i < |ms| :: ms[i].key
  }

  lemma {:induction false} InsertAscending(m: Member, sorted: seq<Member>)
    requires Ascending(sorted) && m.key !in Keys(sorted)
    ensures Ascending(Insert(m, sorted)) && Keys(Insert(m, sorted)) == Keys(sorted) + {m.key}
  {
    if sorted != [] {
      var first, rest := sorted[0], sorted[1..];
      BeforeTrichotomy(m.key, first.key);
      if Before(m.key, first.key) {
        forall j | 0 <= j < |sorted| ensures Before(m.key, sorted[j].key) {
          if j > 0 { BeforeTransitive(m.key, first.key, sorted[j].key); }
        }
        KeysOfPrepend(m, sorted);
      } else {
        assert sorted == [first] + rest;
        KeysOfPrepend(first, rest);
        InsertAscending(m, rest);
        KeysOfPrepend(first, Insert(m, rest));
        var t := Insert(m, rest);
        forall j | 0 <= j < |t| ensures Before(first.key, t[j].key) {
          assert t[j].key in Keys(t);
          if t[j].key != m.key {
            var k :| 0 <= k < |rest| && rest[k].key == t[j].key;
            assert sorted[k + 1] == rest[k];
          }
        }
      }
    } else {
      KeysOfPrepend(m, sorted);
    }
  }

  lemma KeysOfPrepend(m: Member, ms: seq<Member>)
    ensures Keys([m] + ms) == {m.key} + Keys(ms)
  {
    var all := [m] + ms;
    forall k | k in {m.key} + Keys(ms) ensures k in Keys(all) {
      if k == m.key { assert all[0].key == k; }
      else { var i :| 0 <= i < |ms| && ms[i].key == k; assert all[i + 1].key == k; }
    }
    forall i | 0 <= i < |all| ensures all[i].key in {m.key} + Keys(ms) {
      if i > 0 { assert all[i] == ms[i - 1]; }
    }
  }

  lemma {:induction false} SortAscending(ms: seq<Member>)
    requires DistinctKeys(ms)
    ensures Ascending(Sort(ms)) && Keys(Sort(ms)) == Keys(ms)
  {
    if ms != [] {
      var rest := ms[1..];
      assert ms == [ms[0]] + rest;
      SortAscending(rest);
      forall k | k in Keys(rest) ensures k != ms[0].key {
        var i :| 0 <= i < |rest| && rest[i].key == k;
        assert ms[i + 1].key == k;
      }
      InsertAscending(ms[0], Sort(rest));
      KeysOfPrepend(ms[0], rest);
    }
  }

  lemma {:induction false} KeysCount(ms: seq<Member>)
    requires DistinctKeys(ms)
    ensures |Keys(ms)| == |ms|
  {
    if ms != [] {
      var rest := ms[1..];
      assert ms == [ms[0]] + rest;
      KeysOfPrepend(ms[0], rest);
      KeysCount(rest);
      forall k | k in Keys(rest) ensures k != ms[0].key {
        var i :| 0 <= i < |rest| && rest[i].key == k;
        assert ms[i + 1].key == k;
      }
    }
  }

  lemma AscendingDistinct(ms: seq<Member>)
    requires Ascending(ms)
    ensures DistinctKeys(ms)
  {
    forall i, j | 0 <= i < j < |ms| ensures ms[i].key != ms[j].key { BeforeTrichotomy(ms[i].key, ms[j].key); }
  }

  /** An ascending list is determined by its key set. */
  lemma {:induction false} AscendingAligned(ms: seq<Member>, ns: seq<Member>)
    requires Ascending(ms) && Ascending(ns) && Keys(ms) == Keys(ns)
    ensures |ms| == |ns| && forall i | 0 <= i < |ms| :: ms[i].key == ns[i].key
  {
    AscendingDistinct(ms); AscendingDistinct(ns);
    KeysCount(ms); KeysCount(ns);
    if ms == [] || ns == [] {
    } else {
      FirstIsLeast(ms, ns[0].key);
      FirstIsLeast(ns, ms[0].key);
      BeforeTrichotomy(ms[0].key, ns[0].key);
      KeysOfRest(ms);
      KeysOfRest(ns);
      AscendingAligned(ms[1..], ns[1..]);
      forall i | 0 <= i < |ms| ensures ms[i].key == ns[i].key {
        if i > 0 { assert ms[i] == ms[1..][i - 1] && ns[i] == ns[1..][i - 1]; }
      }
    }
  }

  lemma FirstIsLeast(ms: seq<Member>, k: Text)
    requires Ascending(ms) && ms != []
    ensures ms[0].key in Keys(ms)
    ensures k in Keys(ms) ==> k == ms[0].key || Before(ms[0].key, k)
  {
  }

  lemma KeysOfRest(ms: seq<Member>)
    requires Ascending(ms) && ms != []
    ensures Keys(ms[1..]) == Keys(ms) - {ms[0].key}
  {
    assert ms == [ms[0]] + ms[1..];
    KeysOfPrepend(ms[0], ms[1..]);
    forall i | 0 <= i < |ms[1..]| ensures ms[1..][i].key != ms[0].key {
      assert ms[1..][i] == ms[i + 1];
      BeforeTrichotomy(ms[0].key, ms[i + 1].key);
    }
  }

  lemma SameKeys(a: Json, b: Json)
    requires a.Obj? && b.Obj? && Same(a, b) && KeysDistinct(a) && KeysDistinct(b)
    ensures Keys(a.members) == Keys(b.members)
  {
    forall k | k in Keys(a.members) ensures k in Keys(b.members) {
      var i :| 0 <= i < |a.members| && a.members[i].key == k;
      assert a.members[i] in a.members;
      var n :| n in b.members && n.key == k;
    }
    KeysCount(a.members);
    KeysCount(b.members);
    SubsetOfEqualSize(Keys(a.members), Keys(b.members));
  }

  lemma SubsetOfEqualSize(s: set<Text>, t: set<Text>)
    requires s <= t && |s| == |t|
    ensures s == t
  {
    assert t == s + (t - s);
  }

  /** In sorted order, the members of two like objects agree one by one. */
  lemma SortedMembersSame(a: Json, b: Json)
    requires a.Obj? && b.Obj? && Same(a, b) && KeysDistinct(a) && KeysDistinct(b)
    ensures var ms, ns := Sort(a.members), Sort(b.members);
            && |ms| == |ns|
            && (forall i | 0 <= i < |ms| :: ms[i] in a.members && ns[i] in b.members
                                        && ms[i].key == ns[i].key && Same(ms[i].value, ns[i].value))
  {
    var ms, ns := Sort(a.members), Sort(b.members);
    SameKeys(a, b);
    SortAscending(a.members);
    SortAscending(b.members);
    AscendingAligned(ms, ns);
    SortKeepsMembers(a.members);
    SortKeepsMembers(b.members);
    forall i | 0 <= i < |ms|
      ensures ms[i] in a.members && ns[i] in b.members && ms[i].key == ns[i].key && Same(ms[i].value, ns[i].value)
    {
      assert ms[i] in ms && ns[i] in ns;
      var n :| n in b.members && n.key == ms[i].key && Same(ms[i].value, n.value);
      var j :| 0 <= j < |b.members| && b.members[j] == n;
      var k :| 0 <= k < |b.members| && b.members[k] == ns[i];
      assert j == k;
    }
  }

  lemma {:induction false} SamePrints(a: Json, b: Json)
    requires Same(a, b) && KeysDistinct(a) && KeysDistinct(b)
    ensures Print(a) == Print(b)
    decreases a, 2, 0
  {
    match a
    case Arr(items) =>
      LoneHolePrints(a);
      LoneHolePrints(b);
      SameItemsPrint(a, Effective(items), b, Effective(b.items));
    case Obj(members) =>
      SortKeepsMembers(members);
      SortKeepsMembers(b.members);
      SortedMembersSame(a, b);
      SameMembersPrint(a, Sort(members), b, Sort(b.members));
    case _ =>
  }

  lemma LoneHolePrints(v: Json)
    requires v.Arr?
    ensures PrintItems(v, v.items) == PrintItems(v, Effective(v.items))
  {
  }

  lemma {:induction false} SameItemsPrint(a: Json, xs: seq<Json>, b: Json, ys: seq<Json>)
    requires a.Arr? && KeysDistinct(a) && forall v | v in xs :: v in a.items
    requires b.Arr? && KeysDistinct(b) && forall v | v in ys :: v in b.items
    requires |xs| == |ys| && forall i | 0 <= i < |xs| :: Same(xs[i], ys[i])
    ensures PrintItems(a, xs) == PrintItems(b, ys)
    decreases a, 0, |xs|
  {
    if xs != [] {
      assert xs[0] in xs && ys[0] in ys;
      assert exists i :: 0 <= i < |a.items| && a.items[i] == xs[0];
      SamePrints(xs[0], ys[0]);
      SameItemsPrint(a, xs[1..], b, ys[1..]);
    }
  }

  lemma {:induction false} SameMembersPrint(a: Json, ms: seq<Member>, b: Json, ns: seq<Member>)
    requires a.Obj? && KeysDistinct(a) && forall m | m in ms :: m in a.members
    requires b.Obj? && KeysDistinct(b) && forall m | m in ns :: m in b.members
    requires |ms| == |ns| && forall i | 0 <= i < |ms| :: ms[i].key == ns[i].key && Same(ms[i].value, ns[i].value)
    ensures PrintMembers(a, ms) == PrintMembers(b, ns)
    decreases a, 0, |ms|
  {
    if ms != [] {
      assert ms[0] in ms && ns[0] in ns;
      assert exists i :: 0 <= i < |a.members| && a.members[i] == ms[0];
      SamePrints(ms[0].value, ns[0].value);
      SameMembersPrint(a, ms[1..], b, ns[1..]);
    }
  }

  // ---------------------------------------------------------------- the contract

  /** The text is a canonical form: two values that print at all print alike exactly when they are
      the same JSON value up to key order. */
  lemma CanonicalForm(a: Json, b: Json)
    requires KeysDistinct(a) && KeysDistinct(b) && CanonicalJson(a).Printed? && CanonicalJson(b).Printed?
    ensures CanonicalJson(a) == CanonicalJson(b) <==> Same(a, b)
  {
    if Print(a) == Print(b) {
      assert Print(a) + [] == Print(b) + [];
      Decode(a, [], b, []);
    } else if Same(a, b) {
      SamePrints(a, b);
    }
  }
}
