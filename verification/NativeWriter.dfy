/**
 `publishNative`: a JSON writer with an explicit stack, over an arbitrary finite object graph.
 The loop is proved against a recursive printer, and the recursive printer against the finite
 unfoldings of the graph.
 */
module NativeWriter {
  import opened Options
  import opened JsonText
  import opened Sequences
  import JsonGrammar

  type Ref = nat

  // JSON.stringify of a number: "null" when it is not finite.
  type Numeral = t: Text | t == NULL_TEXT || JsonGrammar.IsNumber(t) witness NULL_TEXT

  datatype Value =
    | Null
    | Bool(b: bool)
    | Number(printed: Numeral)
    | Str(text: Text)
    | Undefined
    | Foreign                    // a function, a symbol, a bigint
    | Object(ref: Ref)

  // An own property as its descriptor shows it.  Hole: an array index without a property.
  datatype Slot = Hole | Accessor | Data(value: Value)

  datatype Member = Member(name: Text, slot: Slot)

  // `customJson`: an own `toJSON`, enumerable or not.
  datatype Node =
    | Array(slots: seq<Slot>, customJson: bool)
    | Record(members: seq<Member>, customJson: bool)

  type Heap = map<Ref, Node>

  // What the loop writes for one key: the prefix, then the value.  An absent value makes it throw.
  datatype Kid = Kid(prefix: Text, value: Option<Value>)

  function SlotRef(slot: Slot): Option<Ref> {
    if slot.Data? && slot.value.Object? then Some(slot.value.ref) else None
  }

  ghost predicate Closed(h: Heap) {
    forall r | r in h ::
      match h[r]
      case Array(slots, _) => forall i | 0 <= i < |slots| :: SlotRef(slots[i]).Some? ==> SlotRef(slots[i]).value in h
      case Record(members, _) =>
        forall i | 0 <= i < |members| :: SlotRef(members[i].slot).Some? ==> SlotRef(members[i].slot).value in h
  }

  ghost predicate InHeap(h: Heap, v: Value) {
    v.Object? ==> v.ref in h
  }

  /** Opening the node throws: a custom printer, or a record key that is not a data property. */
  predicate Refuses(node: Node) {
    node.customJson || (node.Record? && exists i | 0 <= i < |node.members| :: !node.members[i].slot.Data?)
  }

  function ArrayKids(slots: seq<Slot>): (r: seq<Kid>)
    ensures |r| == |slots|
  {
    seq(|slots|, i requires 0 <= i < |slots| =>
      match slots[i]
      case Hole => Kid([], Some(Null))
      case Accessor => Kid([], None)
      case Data(v) => Kid([], Some(if v.Undefined? then Null else v)))
  }

  /** The members whose value is not undefined. */
  function Kept(members: seq<Member>): seq<Member>
    requires forall i | 0 <= i < |members| :: members[i].slot.Data?
  {
    if members == [] then []
    else (if members[0].slot.value.Undefined? then [] else [members[0]]) + Kept(members[1..])
  }

  function RecordKids(members: seq<Member>): (r: seq<Kid>)
    requires forall i | 0 <= i < |members| :: members[i].slot.Data?
    ensures |r| == |members|
  {
    seq(|members|, i requires 0 <= i < |members| => Kid(Quote(members[i].name) + [COLON], Some(members[i].slot.value)))
  }

  lemma {:induction false} KeptData(members: seq<Member>)
    requires forall i | 0 <= i < |members| :: members[i].slot.Data?
    ensures forall m :: m in Kept(members) <==> m in members && !m.slot.value.Undefined?
    ensures forall i | 0 <= i < |Kept(members)| :: Kept(members)[i].slot.Data?
    ensures IsSubsequence(Kept(members), members)
  {
    if members != [] {
      assert members == [members[0]] + members[1..];
      KeptData(members[1..]);
      Selects(members[0], Kept(members[1..]), members);
    }
  }

  function Kids(node: Node): seq<Kid>
    requires !Refuses(node)
  {
    match node
    case Array(slots, _) => ArrayKids(slots)
    case Record(members, _) => KeptData(members); RecordKids(Kept(members))
  }

  lemma KidsInHeap(h: Heap, r: Ref)
    requires Closed(h) && r in h && !Refuses(h[r])
    ensures forall i | 0 <= i < |Kids(h[r])| :: Kids(h[r])[i].value.Some? ==> InHeap(h, Kids(h[r])[i].value.value)
  {
    match h[r]
    case Array(slots, _) =>
      forall i | 0 <= i < |slots| && Kids(h[r])[i].value.Some? ensures InHeap(h, Kids(h[r])[i].value.value) {
        assert SlotRef(slots[i]).Some? ==> SlotRef(slots[i]).value in h;
      }
    case Record(members, _) =>
      KeptData(members);
      forall i | 0 <= i < |Kids(h[r])| ensures InHeap(h, Kids(h[r])[i].value.value) {
        assert Kept(members)[i] in members;
        var j :| 0 <= j < |members| && members[j] == Kept(members)[i];
        assert SlotRef(members[j].slot).Some? ==> SlotRef(members[j].slot).value in h;
      }
  }

  // ---------------------------------------------------------------- the recursive printer

  function Join(a: Option<Text>, b: Option<Text>): Option<Text> {
    if a.Some? && b.Some? then Some(a.value + b.value) else None
  }

  function LeafText(v: Value): Option<Text> {
    match v
    case Null => Some(NULL_TEXT)
    case Bool(b) => Some(if b then TRUE_TEXT else FALSE_TEXT)
    case Number(printed) => Some(printed)
    case Str(text) => Some(Quote(text))
    case _ => None
  }

  function Opener(node: Node): Text { [if node.Array? then OPEN_BRACKET else OPEN_BRACE] }

  function Closer(node: Node): Text { [if node.Array? then CLOSE_BRACKET else CLOSE_BRACE] }

  function Separator(i: nat): Text { if i == 0 then [] else [COMMA] }

  /** Prints a value below the objects of `path`; none when printing throws. */
  ghost function Print(h: Heap, v: Value, path: set<Ref>): Option<Text>
    requires Closed(h) && InHeap(h, v)
    decreases |h.Keys - path|, 0, 0
  {
    if !v.Object? then LeafText(v)
    else if v.ref in path || Refuses(h[v.ref]) then None
    else
      KidsInHeap(h, v.ref);
      FewerUnseen(h.Keys, path, v.ref);
      Join(Some(Opener(h[v.ref])),
           Join(PrintKids(h, Kids(h[v.ref]), 0, path + {v.ref}), Some(Closer(h[v.ref]))))
  }

  ghost function PrintKids(h: Heap, kids: seq<Kid>, i: nat, path: set<Ref>): Option<Text>
    requires Closed(h) && i <= |kids|
    requires forall k | 0 <= k < |kids| :: kids[k].value.Some? ==> InHeap(h, kids[k].value.value)
    decreases |h.Keys - path|, 1, |kids| - i
  {
    if i == |kids| then Some([])
    else if kids[i].value.None? then None
    else Join(Some(Separator(i) + kids[i].prefix),
              Join(Print(h, kids[i].value.value, path), PrintKids(h, kids, i + 1, path)))
  }

  // ---------------------------------------------------------------- the loop

  // What is left in the file when it throws is not modelled.
  datatype Outcome = Wrote(text: Text) | Threw

  // `kids` is absent until the frame's object is opened.
  datatype Frame = Frame(value: Value, kids: Option<seq<Kid>>, index: nat)

  // The array `frames`, of which the loop only reads, replaces, pushes and pops the last element.
  datatype Stack = Empty | Push(top: Frame, below: Stack)

  /** The objects of the opened frames: the current path. */
  ghost function Path(frames: Stack): set<Ref> {
    if frames.Empty? then {}
    else Path(frames.below) + (if frames.top.kids.Some? && frames.top.value.Object? then {frames.top.value.ref} else {})
  }

  ghost predicate AllOpened(frames: Stack) {
    frames.Push? ==> frames.top.kids.Some? && AllOpened(frames.below)
  }

  ghost predicate FrameOk(h: Heap, f: Frame) {
    && InHeap(h, f.value)
    && (f.kids.None? ==> f.index == 0)
    && (f.kids.Some? ==>
          && f.value.Object? && f.value.ref in h && !Refuses(h[f.value.ref])
          && f.kids.value == Kids(h[f.value.ref]) && f.index <= |f.kids.value|)
  }

  /** Every frame below the top is opened, and the opened objects are pairwise different. */
  ghost predicate StackOk(h: Heap, frames: Stack) {
    frames.Push? ==>
      && FrameOk(h, frames.top) && AllOpened(frames.below) && StackOk(h, frames.below)
      && (frames.top.kids.Some? ==> frames.top.value.ref !in Path(frames.below))
  }

  /** What is still to be written for one frame. */
  ghost function FrameRest(h: Heap, f: Frame, below: set<Ref>): Option<Text>
    requires Closed(h) && FrameOk(h, f)
  {
    if f.kids.None? then Print(h, f.value, below)
    else
      KidsInHeap(h, f.value.ref);
      Join(PrintKids(h, f.kids.value, f.index, below + {f.value.ref}), Some(Closer(h[f.value.ref])))
  }

  ghost function Rest(h: Heap, frames: Stack): Option<Text>
    requires Closed(h) && StackOk(h, frames)
  {
    if frames.Empty? then Some([]) else Join(FrameRest(h, frames.top, Path(frames.below)), Rest(h, frames.below))
  }

  /** How many rounds of the loop a value takes at most. */
  ghost function Rounds(h: Heap, v: Value, path: set<Ref>): nat
    requires Closed(h) && InHeap(h, v)
    decreases |h.Keys - path|, 0, 0
  {
    if !v.Object? || v.ref in path || Refuses(h[v.ref]) then 1
    else
      KidsInHeap(h, v.ref);
      FewerUnseen(h.Keys, path, v.ref);
      2 + KidRounds(h, Kids(h[v.ref]), 0, path + {v.ref})
  }

  ghost function KidRounds(h: Heap, kids: seq<Kid>, i: nat, path: set<Ref>): nat
    requires Closed(h) && i <= |kids|
    requires forall k | 0 <= k < |kids| :: kids[k].value.Some? ==> InHeap(h, kids[k].value.value)
    decreases |h.Keys - path|, 1, |kids| - i
  {
    if i == |kids| then 0
    else (if kids[i].value.None? then 1 else 1 + Rounds(h, kids[i].value.value, path)) + KidRounds(h, kids, i + 1, path)
  }

  ghost function FrameRounds(h: Heap, f: Frame, below: set<Ref>): nat
    requires Closed(h) && FrameOk(h, f)
  {
    if f.kids.None? then Rounds(h, f.value, below)
    else
      KidsInHeap(h, f.value.ref);
      1 + KidRounds(h, f.kids.value, f.index, below + {f.value.ref})
  }

  ghost function StackRounds(h: Heap, frames: Stack): nat
    requires Closed(h) && StackOk(h, frames)
  {
    if frames.Empty? then 0 else FrameRounds(h, frames.top, Path(frames.below)) + StackRounds(h, frames.below)
  }

  /** What one round does to the stack, the path, the remaining text and the round count. */
  ghost predicate Progress(h: Heap, frames: Stack, out: Text, frames': Stack, out': Text)
    requires Closed(h) && StackOk(h, frames)
  {
    && StackOk(h, frames')
    && Join(Some(out'), Rest(h, frames')) == Join(Some(out), Rest(h, frames))
    && StackRounds(h, frames') < StackRounds(h, frames)
  }

  lemma JoinMore(out: Text, now: Text, later: Option<Text>)
    ensures Join(Some(out + now), later) == Join(Some(out), Join(Some(now), later))
  {
    if later.Some? { Associate(out, now, later.value); }
  }

  lemma JoinAssociates(a: Option<Text>, b: Option<Text>, c: Option<Text>)
    ensures Join(Join(a, b), c) == Join(a, Join(b, c))
  {
    if a.Some? && b.Some? && c.Some? { Associate(a.value, b.value, c.value); }
  }

  lemma RegroupJoin(out: Text, now: Text, a: Option<Text>, b: Option<Text>, c: Option<Text>)
    ensures Join(Some(out), Join(Join(Some(now), Join(a, b)), c)) == Join(Some(out + now), Join(a, Join(b, c)))
  {
    JoinAssociates(Some(now), Join(a, b), c);
    JoinAssociates(a, b, c);
    JoinMore(out, now, Join(a, Join(b, c)));
  }

  lemma LeafRound(h: Heap, frames: Stack, out: Text)
    requires Closed(h) && StackOk(h, frames) && frames.Push?
    requires !frames.top.value.Object? && LeafText(frames.top.value).Some?
    ensures Progress(h, frames, out, frames.below, out + LeafText(frames.top.value).value)
    ensures Path(frames.below) == Path(frames)
  {
    JoinMore(out, LeafText(frames.top.value).value, Rest(h, frames.below));
  }

  lemma OpenRound(h: Heap, frames: Stack, out: Text)
    requires Closed(h) && StackOk(h, frames) && frames.Push? && frames.top.kids.None?
    requires var v := frames.top.value; v.Object? && v.ref !in Path(frames) && !Refuses(h[v.ref])
    ensures var v := frames.top.value;
            var after := Push(frames.top.(kids := Some(Kids(h[v.ref]))), frames.below);
            Progress(h, frames, out, after, out + Opener(h[v.ref])) && Path(after) == Path(frames) + {v.ref}
  {
    var f, below := frames.top, frames.below;
    var g := f.(kids := Some(Kids(h[f.value.ref])));
    KidsInHeap(h, f.value.ref);
    FewerUnseen(h.Keys, Path(below), f.value.ref);
    JoinAssociates(Some(Opener(h[f.value.ref])), FrameRest(h, g, Path(below)), Rest(h, below));
    JoinMore(out, Opener(h[f.value.ref]), Rest(h, Push(g, below)));
  }

  lemma CloseRound(h: Heap, frames: Stack, out: Text)
    requires Closed(h) && StackOk(h, frames) && frames.Push?
    requires frames.top.kids.Some? && frames.top.index == |frames.top.kids.value|
    ensures var r := frames.top.value.ref;
            Progress(h, frames, out, frames.below, out + Closer(h[r])) && Path(frames.below) == Path(frames) - {r}
  {
    var closer := Closer(h[frames.top.value.ref]);
    assert [] + closer == closer;
    JoinMore(out, closer, Rest(h, frames.below));
  }

  function Descended(frames: Stack): Stack
    requires frames.Push? && frames.top.kids.Some? && frames.top.index < |frames.top.kids.value|
    requires frames.top.kids.value[frames.top.index].value.Some?
  {
    var f := frames.top;
    Push(Frame(f.kids.value[f.index].value.value, None, 0), Push(f.(index := f.index + 1), frames.below))
  }

  lemma DescendRound(h: Heap, frames: Stack, out: Text)
    requires Closed(h) && StackOk(h, frames) && frames.Push?
    requires frames.top.kids.Some? && frames.top.index < |frames.top.kids.value|
    requires frames.top.kids.value[frames.top.index].value.Some?
    ensures var f := frames.top;
            && Progress(h, frames, out, Descended(frames), out + (Separator(f.index) + f.kids.value[f.index].prefix))
            && Path(Descended(frames)) == Path(frames)
  {
    var f, below := frames.top, frames.below;
    KidsInHeap(h, f.value.ref);
    var path, kid := Path(below) + {f.value.ref}, f.kids.value[f.index];
    var first, later := Print(h, kid.value.value, path), PrintKids(h, f.kids.value, f.index + 1, path);
    var now, closer := Separator(f.index) + kid.prefix, Some(Closer(h[f.value.ref]));
    JoinAssociates(Some(now), Join(first, later), closer);
    JoinAssociates(first, later, closer);
    RegroupJoin(out, now, first, Join(later, closer), Rest(h, below));
  }

  /** The writer throws exactly when the graph below the root is not plain acyclic data; otherwise
      the file holds the text of the finite unfolding, and a line break. */
  method PublishNative(h: Heap, root: Value) returns (r: Outcome)
    requires Closed(h) && InHeap(h, root)
    ensures r.Wrote? <==> Plain(h, root)
    ensures forall t | Unfolds(h, root, t) :: r == Wrote(PrintJson(t) + [NEWLINE])
    ensures r.Wrote? ==> exists t :: Unfolds(h, root, t)
  {
    PrintsPlainData(h, root);
    r := WriteValue(h, root);
    if r.Wrote? { r := Wrote(r.text + [NEWLINE]); }
  }

  /** The loop of the writer, against the recursive printer. */
  method WriteValue(h: Heap, root: Value) returns (r: Outcome)
    requires Closed(h) && InHeap(h, root)
    ensures r.Wrote? <==> Print(h, root, {}).Some?
    ensures r.Wrote? ==> r.text == Print(h, root, {}).value
  {
    var out: Text := [];
    var active: set<Ref> := {};
    var frames := Push(Frame(root, None, 0), Empty);
    assert Print(h, root, {}).Some? ==> [] + (Print(h, root, {}).value + []) == Print(h, root, {}).value;
    while frames.Push?
      invariant StackOk(h, frames)
      invariant active == Path(frames)
      invariant Print(h, root, {}) == Join(Some(out), Rest(h, frames))
      decreases StackRounds(h, frames)
    {
      var frame, below := frames.top, frames.below;
      if frame.value.Undefined? || frame.value.Foreign? { return Threw; }
      if !frame.value.Object? {
        LeafRound(h, frames, out);
        out := out + LeafText(frame.value).value;
        frames := below;
        continue;
      }
      var node := h[frame.value.ref];
      if frame.kids.None? {
        if frame.value.ref in active || Refuses(node) { return Threw; }
        OpenRound(h, frames, out);
        active := active + {frame.value.ref};
        frame := frame.(kids := Some(Kids(node)));
        frames := Push(frame, below);
        out := out + Opener(node);
      }
      if frame.index >= |frame.kids.value| {
        CloseRound(h, frames, out);
        out := out + Closer(node);
        active := active - {frame.value.ref};
        frames := below;
        continue;
      }
      var kid := frame.kids.value[frame.index];
      if kid.value.None? { return Threw; }
      DescendRound(h, frames, out);
      out := out + (Separator(frame.index) + kid.prefix);
      frames := Descended(frames);
    }
    assert out + [] == out;
    r := Wrote(out);
  }

  // ---------------------------------------------------------------- finite unfoldings

  // A JSON value as a tree: a word (null, true, false or a number), a string, an array, an object.
  datatype Json = Word(text: Text) | Chars(text: Text) | Items(items: seq<Json>) | Fields(fields: seq<Field>)

  datatype Field = Field(name: Text, value: Json)

  function PrintJson(t: Json): Text {
    match t
    case Word(text) => text
    case Chars(text) => Quote(text)
    case Items(items) => [OPEN_BRACKET] + PrintItems(items, 0) + [CLOSE_BRACKET]
    case Fields(fields) => [OPEN_BRACE] + PrintFields(fields, 0) + [CLOSE_BRACE]
  }

  function PrintItems(items: seq<Json>, i: nat): Text
    requires i <= |items|
    decreases items, |items| - i
  {
    if i == |items| then [] else Separator(i) + PrintJson(items[i]) + PrintItems(items, i + 1)
  }

  function PrintFields(fields: seq<Field>, i: nat): Text
    requires i <= |fields|
    decreases fields, |fields| - i
  {
    if i == |fields| then []
    else Separator(i) + Quote(fields[i].name) + [COLON] + PrintJson(fields[i].value) + PrintFields(fields, i + 1)
  }

  /** The tree is the JSON value that `v` denotes: array holes and undefined elements are null,
      undefined members are dropped, a shared object is copied at each place. */
  ghost predicate Unfolds(h: Heap, v: Value, t: Json)
    decreases t
  {
    match v
    case Null => t == Word(Ascii("null"))
    case Bool(b) => t == Word(Ascii(if b then "true" else "false"))
    case Number(printed) => t == Word(printed)
    case Str(text) => t == Chars(text)
    case Undefined => false
    case Foreign => false
    case Object(r) =>
      r in h && match h[r]
      case Array(slots, custom) =>
        && !custom && t.Items? && |t.items| == |slots|
        && forall i | 0 <= i < |slots| ::
             !slots[i].Accessor?
             && Unfolds(h, if slots[i].Hole? || slots[i].value.Undefined? then Null else slots[i].value, t.items[i])
      case Record(members, custom) =>
        && !custom && (forall i | 0 <= i < |members| :: members[i].slot.Data?)
        && t.Fields? && var kept := Kept(members);
        && |t.fields| == |kept|
        && forall i | 0 <= i < |kept| ::
             (KeptData(members); t.fields[i].name == kept[i].name && Unfolds(h, kept[i].slot.value, t.fields[i].value))
  }

  /** A value that is not an object unfolds into the leaf whose text the writer writes. */
  lemma LeafUnfolds(h: Heap, v: Value) returns (t: Json)
    requires !v.Object?
    ensures LeafText(v).Some? ==> Unfolds(h, v, t) && PrintJson(t) == LeafText(v).value
    ensures forall u :: Unfolds(h, v, u) ==> LeafText(v).Some? && u == t
  {
    Spelling();
    match v
    case Null => t := Word(NULL_TEXT);
    case Bool(b) => t := Word(if b then TRUE_TEXT else FALSE_TEXT);
    case Number(printed) => t := Word(printed);
    case Str(text) => t := Chars(text);
    case _ => t := Items([]);
  }

  function Children(t: Json): (r: seq<Json>)
    ensures forall c | c in r :: c < t
  {
    match t
    case Word(_) => []
    case Chars(_) => []
    case Items(items) => items
    case Fields(fields) => seq(|fields|, i requires 0 <= i < |fields| => fields[i].value)
  }

  function PrintChildren(kids: seq<Kid>, children: seq<Json>, i: nat): Text
    requires |kids| == |children| && i <= |kids|
    decreases |kids| - i
  {
    if i == |kids| then []
    else (Separator(i) + kids[i].prefix) + (PrintJson(children[i]) + PrintChildren(kids, children, i + 1))
  }

  ghost predicate KidsUnfold(h: Heap, kids: seq<Kid>, children: seq<Json>) {
    && |kids| == |children|
    && forall i | 0 <= i < |kids| :: kids[i].value.Some? && Unfolds(h, kids[i].value.value, children[i])
  }

  lemma UnfoldsByKids(h: Heap, r: Ref, t: Json)
    requires r in h && Unfolds(h, Object(r), t)
    ensures !Refuses(h[r]) && KidsUnfold(h, Kids(h[r]), Children(t))
    ensures PrintJson(t) == Opener(h[r]) + (PrintChildren(Kids(h[r]), Children(t), 0) + Closer(h[r]))
  {
    if h[r].Array? { ArrayByKids(h, r, t); } else { RecordByKids(h, r, t); }
  }

  lemma ArrayByKids(h: Heap, r: Ref, t: Json)
    requires r in h && h[r].Array? && Unfolds(h, Object(r), t)
    ensures !Refuses(h[r]) && KidsUnfold(h, Kids(h[r]), Children(t))
    ensures PrintJson(t) == Opener(h[r]) + (PrintChildren(Kids(h[r]), Children(t), 0) + Closer(h[r]))
  {
    var kids := Kids(h[r]);
    ItemsPrint(kids, t.items, 0);
    Associate([OPEN_BRACKET], PrintItems(t.items, 0), [CLOSE_BRACKET]);
  }

  lemma RecordByKids(h: Heap, r: Ref, t: Json)
    requires r in h && h[r].Record? && Unfolds(h, Object(r), t)
    ensures !Refuses(h[r]) && KidsUnfold(h, Kids(h[r]), Children(t))
    ensures PrintJson(t) == Opener(h[r]) + (PrintChildren(Kids(h[r]), Children(t), 0) + Closer(h[r]))
  {
    KeptData(h[r].members);
    var kids := Kids(h[r]);
    FieldsPrint(kids, t.fields, 0);
    Associate([OPEN_BRACE], PrintFields(t.fields, 0), [CLOSE_BRACE]);
  }

  lemma {:induction false} ItemsPrint(kids: seq<Kid>, items: seq<Json>, i: nat)
    requires |kids| == |items| && i <= |kids| && forall k | 0 <= k < |kids| :: kids[k].prefix == []
    ensures PrintItems(items, i) == PrintChildren(kids, items, i)
    decreases |kids| - i
  {
    if i < |kids| {
      ItemsPrint(kids, items, i + 1);
      assert Separator(i) + kids[i].prefix == Separator(i);
      Associate(Separator(i), PrintJson(items[i]), PrintItems(items, i + 1));
    }
  }

  lemma {:induction false} FieldsPrint(kids: seq<Kid>, fields: seq<Field>, i: nat)
    requires |kids| == |fields| && i <= |kids| && forall k | 0 <= k < |kids| ::
               kids[k].prefix == Quote(fields[k].name) + [COLON]
    ensures PrintFields(fields, i) == PrintChildren(kids, Children(Fields(fields)), i)
    decreases |kids| - i
  {
    if i < |kids| {
      FieldsPrint(kids, fields, i + 1);
      var name, value, rest := Quote(fields[i].name), PrintJson(fields[i].value), PrintFields(fields, i + 1);
      Associate(Separator(i), name, [COLON]);
      Associate(Separator(i) + (name + [COLON]), value, rest);
    }
  }

  function Assemble(node: Node, children: seq<Json>): (t: Json)
    requires !Refuses(node) && |children| == |Kids(node)|
    ensures Children(t) == children
  {
    match node
    case Array(_, _) => Items(children)
    case Record(members, _) =>
      KeptData(members);
      var fields := seq(|children|, i requires 0 <= i < |children| => Field(Kept(members)[i].name, children[i]));
      assert Children(Fields(fields)) == children;
      Fields(fields)
  }

  lemma AssembleUnfolds(h: Heap, r: Ref, children: seq<Json>)
    requires r in h && !Refuses(h[r]) && KidsUnfold(h, Kids(h[r]), children)
    ensures Unfolds(h, Object(r), Assemble(h[r], children))
  {
    match h[r]
    case Array(slots, _) =>
      forall i | 0 <= i < |slots|
        ensures !slots[i].Accessor?
        ensures Unfolds(h, if slots[i].Hole? || slots[i].value.Undefined? then Null else slots[i].value, children[i])
      {
        assert Kids(h[r])[i].value.Some?;
      }
    case Record(members, _) => KeptData(members);
  }

  // ---------------------------------------------------------------- printing is printing the unfolding

  lemma {:induction false} PrintedUnfolds(h: Heap, v: Value, path: set<Ref>) returns (t: Json)
    requires Closed(h) && InHeap(h, v) && Print(h, v, path).Some?
    ensures Unfolds(h, v, t) && PrintJson(t) == Print(h, v, path).value
    decreases |h.Keys - path|, 0, 0
  {
    if !v.Object? {
      t := LeafUnfolds(h, v);
    } else {
      KidsInHeap(h, v.ref);
      FewerUnseen(h.Keys, path, v.ref);
      var children := PrintedKidsUnfold(h, Kids(h[v.ref]), 0, path + {v.ref}, []);
      t := Assemble(h[v.ref], children);
      AssembleUnfolds(h, v.ref, children);
      UnfoldsByKids(h, v.ref, t);
    }
  }

  lemma {:induction false} PrintedKidsUnfold(h: Heap, kids: seq<Kid>, i: nat, path: set<Ref>, before: seq<Json>)
    returns (children: seq<Json>)
    requires Closed(h) && i <= |kids| && |before| == i
    requires forall k | 0 <= k < |kids| :: kids[k].value.Some? ==> InHeap(h, kids[k].value.value)
    requires PrintKids(h, kids, i, path).Some? && KidsUnfold(h, kids[..i], before)
    ensures KidsUnfold(h, kids, children) && before <= children
    ensures PrintChildren(kids, children, i) == PrintKids(h, kids, i, path).value
    decreases |h.Keys - path|, 1, |kids| - i
  {
    if i == |kids| {
      children := before;
      assert kids[..i] == kids;
    } else {
      var t := PrintedUnfolds(h, kids[i].value.value, path);
      assert kids[..i + 1] == kids[..i] + [kids[i]];
      children := PrintedKidsUnfold(h, kids, i + 1, path, before + [t]);
      assert children[i] == (before + [t])[i];
    }
  }

  lemma {:induction false} UnfoldUnique(h: Heap, v: Value, t: Json, u: Json)
    requires Unfolds(h, v, t) && Unfolds(h, v, u)
    ensures t == u
    decreases t
  {
    if v.Object? {
      match h[v.ref]
      case Array(slots, _) =>
        forall i | 0 <= i < |slots| ensures t.items[i] == u.items[i] {
          UnfoldUnique(h, if slots[i].Hole? || slots[i].value.Undefined? then Null else slots[i].value,
                       t.items[i], u.items[i]);
        }
        assert t.items == u.items;
      case Record(members, _) =>
        KeptData(members);
        forall i | 0 <= i < |Kept(members)| ensures t.fields[i] == u.fields[i] {
          UnfoldUnique(h, Kept(members)[i].slot.value, t.fields[i].value, u.fields[i].value);
        }
        assert t.fields == u.fields;
    }
  }

  /** The object has an unfolding that properly contains `t`. */
  ghost predicate Above(h: Heap, r: Ref, t: Json) {
    exists a :: Unfolds(h, Object(r), a) && t < a
  }

  lemma {:induction false} UnfoldingPrints(h: Heap, v: Value, t: Json, path: set<Ref>)
    requires Closed(h) && InHeap(h, v) && Unfolds(h, v, t) && forall r | r in path :: Above(h, r, t)
    ensures Print(h, v, path) == Some(PrintJson(t))
    decreases t, 1, 0
  {
    if v.Object? {
      UnfoldsByKids(h, v.ref, t);
      KidsInHeap(h, v.ref);
      if v.ref in path {
        var a :| Unfolds(h, v, a) && t < a;
        UnfoldUnique(h, v, a, t);
      } else {
        var children := Children(t);
        forall c, q | c in children && q in path + {v.ref} ensures Above(h, q, c) {}
        UnfoldingsPrint(h, Kids(h[v.ref]), t, children, 0, path + {v.ref});
      }
    } else {
      var leaf := LeafUnfolds(h, v);
    }
  }

  lemma {:induction false} UnfoldingsPrint(h: Heap, kids: seq<Kid>, owner: Json, children: seq<Json>, i: nat,
                                           path: set<Ref>)
    requires Closed(h) && KidsUnfold(h, kids, children) && i <= |kids|
    requires forall k | 0 <= k < |kids| :: kids[k].value.Some? ==> InHeap(h, kids[k].value.value)
    requires forall c | c in children :: c < owner
    requires forall c, q | c in children && q in path :: Above(h, q, c)
    ensures PrintKids(h, kids, i, path) == Some(PrintChildren(kids, children, i))
    decreases owner, 0, |kids| - i
  {
    if i < |kids| {
      assert children[i] in children;
      UnfoldingPrints(h, kids[i].value.value, children[i], path);
      UnfoldingsPrint(h, kids, owner, children, i + 1, path);
    }
  }

  // ---------------------------------------------------------------- walks through the graph

  function Slots(node: Node): seq<Slot> {
    match node
    case Array(slots, _) => slots
    case Record(members, _) => seq(|members|, i requires 0 <= i < |members| => members[i].slot)
  }

  ghost predicate Edge(h: Heap, a: Ref, b: Ref) {
    a in h && Data(Object(b)) in Slots(h[a])
  }

  /** An object that plain JSON data does not contain. */
  ghost predicate Defective(node: Node) {
    || node.customJson
    || Accessor in Slots(node) || Data(Foreign) in Slots(node)
    || (node.Record? && Hole in Slots(node))
  }

  ghost predicate IsWalk(h: Heap, root: Ref, p: seq<Ref>) {
    p != [] && p[0] == root && root in h && forall i | 0 <= i < |p| - 1 :: Edge(h, p[i], p[i + 1])
  }

  ghost predicate Repeats(p: seq<Ref>) {
    exists i, j :: 0 <= i < j < |p| && p[i] == p[j]
  }

  /** Plain acyclic JSON data: from the root, every walk passes sound objects only, and none twice. */
  ghost predicate Plain(h: Heap, v: Value) {
    && !v.Undefined? && !v.Foreign?
    && (v.Object? ==> forall p | IsWalk(h, v.ref, p) :: p[|p| - 1] in h && !Defective(h[p[|p| - 1]]) && !Repeats(p))
  }

  lemma EdgeUnfolds(h: Heap, a: Ref, b: Ref, t: Json) returns (c: Json)
    requires Edge(h, a, b) && Unfolds(h, Object(a), t)
    ensures c < t && Unfolds(h, Object(b), c)
  {
    match h[a]
    case Array(slots, _) =>
      var i :| 0 <= i < |slots| && slots[i] == Data(Object(b));
      c := t.items[i];
    case Record(members, _) =>
      var j :| 0 <= j < |members| && members[j].slot == Data(Object(b));
      KeptData(members);
      assert members[j] in Kept(members);
      var i :| 0 <= i < |Kept(members)| && Kept(members)[i] == members[j];
      c := t.fields[i].value;
  }

  lemma RecordUnfoldingSound(h: Heap, r: Ref, t: Json)
    requires Unfolds(h, Object(r), t) && h[r].Record?
    ensures !Defective(h[r])
  {
    var members := h[r].members;
    KeptData(members);
    var kept := Kept(members);
    forall i | 0 <= i < |kept| ensures !kept[i].slot.value.Foreign? {
      assert Unfolds(h, kept[i].slot.value, t.fields[i].value);
    }
    forall j | 0 <= j < |members| ensures !members[j].slot.value.Foreign? {
      if !members[j].slot.value.Undefined? {
        assert members[j] in kept;
        var i :| 0 <= i < |kept| && kept[i] == members[j];
      }
    }
  }

  lemma UnfoldingSound(h: Heap, r: Ref, t: Json)
    requires Unfolds(h, Object(r), t)
    ensures r in h && !Defective(h[r])
  {
    if !h[r].Array? { RecordUnfoldingSound(h, r, t); }
  }

  lemma {:induction false} WalkUnfolds(h: Heap, root: Ref, t: Json, p: seq<Ref>) returns (c: Json)
    requires IsWalk(h, root, p) && Unfolds(h, Object(root), t)
    ensures Unfolds(h, Object(p[|p| - 1]), c) && (if |p| == 1 then c == t else c < t)
    decreases |p|
  {
    if |p| == 1 {
      c := t;
    } else {
      var q := p[..|p| - 1];
      var d := WalkUnfolds(h, root, t, q);
      assert Edge(h, p[|p| - 2], p[|p| - 1]);
      c := EdgeUnfolds(h, p[|p| - 2], p[|p| - 1], d);
    }
  }

  /** A walk that came back would make an unfolding properly contain itself. */
  lemma NoReturn(h: Heap, root: Ref, t: Json, p: seq<Ref>, i: nat, j: nat)
    requires IsWalk(h, root, p) && Unfolds(h, Object(root), t) && i < j < |p|
    ensures p[i] != p[j]
  {
    var d := WalkUnfolds(h, root, t, p[..i + 1]);
    var q := p[i..j + 1];
    assert Edge(h, p[i], p[i + 1]);
    forall k | 0 <= k < |q| - 1 ensures Edge(h, q[k], q[k + 1]) { assert Edge(h, p[i + k], p[i + k + 1]); }
    var e := WalkUnfolds(h, p[i], d, q);
    if p[i] == p[j] { UnfoldUnique(h, Object(p[i]), d, e); }
  }

  lemma UnfoldingPlain(h: Heap, v: Value, t: Json)
    requires InHeap(h, v) && Unfolds(h, v, t)
    ensures Plain(h, v)
  {
    if v.Object? {
      forall p | IsWalk(h, v.ref, p) ensures p[|p| - 1] in h && !Defective(h[p[|p| - 1]]) && !Repeats(p) {
        var c := WalkUnfolds(h, v.ref, t, p);
        UnfoldingSound(h, p[|p| - 1], c);
        forall i, j | 0 <= i < j < |p| ensures p[i] != p[j] { NoReturn(h, v.ref, t, p, i, j); }
      }
    }
  }

  lemma {:induction false} FailingKid(h: Heap, kids: seq<Kid>, i: nat, path: set<Ref>) returns (k: nat)
    requires Closed(h) && i <= |kids|
    requires forall k | 0 <= k < |kids| :: kids[k].value.Some? ==> InHeap(h, kids[k].value.value)
    requires PrintKids(h, kids, i, path).None?
    ensures i <= k < |kids| && (kids[k].value.None? || Print(h, kids[k].value.value, path).None?)
    decreases |kids| - i
  {
    if kids[i].value.None? || Print(h, kids[i].value.value, path).None? { k := i; }
    else { k := FailingKid(h, kids, i + 1, path); }
  }

  /** A failing key is an accessor, a foreign value, or an edge to an object that cannot be printed. */
  lemma KidCause(h: Heap, r: Ref, k: nat)
    requires r in h && !Refuses(h[r]) && k < |Kids(h[r])|
    ensures var kid := Kids(h[r])[k];
            && (kid.value.None? || kid.value.value.Foreign? ==> Defective(h[r]))
            && (kid.value.Some? ==> !kid.value.value.Undefined?)
            && (kid.value.Some? && kid.value.value.Object? ==> Edge(h, r, kid.value.value.ref))
  {
    match h[r]
    case Array(slots, _) => assert slots[k] in Slots(h[r]);
    case Record(members, _) =>
      KeptData(members);
      assert Kept(members)[k] in members;
      var j :| 0 <= j < |members| && members[j] == Kept(members)[k];
      assert Slots(h[r])[j] == members[j].slot;
  }

  /** An object that opens but cannot be printed is defective, or leads to one that cannot be printed. */
  lemma Cause(h: Heap, r: Ref, path: set<Ref>) returns (next: Option<Ref>)
    requires Closed(h) && r in h && r !in path && !Refuses(h[r]) && Print(h, Object(r), path).None?
    ensures match next
            case None => Defective(h[r])
            case Some(n) => n in h && Edge(h, r, n) && Print(h, Object(n), path + {r}).None?
  {
    KidsInHeap(h, r);
    FewerUnseen(h.Keys, path, r);
    var k := FailingKid(h, Kids(h[r]), 0, path + {r});
    KidCause(h, r, k);
    var kid := Kids(h[r])[k];
    next := if kid.value.Some? && kid.value.value.Object? then Some(kid.value.value.ref) else None;
  }

  lemma WalkExtends(h: Heap, root: Ref, r: Ref, trail: seq<Ref>)
    requires r in h && if trail == [] then r == root else IsWalk(h, root, trail) && Edge(h, trail[|trail| - 1], r)
    ensures IsWalk(h, root, trail + [r]) && Elements(trail + [r]) == Elements(trail) + {r}
    ensures r in Elements(trail) ==> Repeats(trail + [r])
  {
    var p := trail + [r];
    if r in Elements(trail) {
      var i :| 0 <= i < |trail| && trail[i] == r;
      assert p[i] == p[|trail|];
    }
  }

  lemma RefusesDefective(node: Node)
    requires Refuses(node)
    ensures Defective(node)
  {
  }

  lemma {:induction false} FailureWalk(h: Heap, root: Ref, r: Ref, trail: seq<Ref>) returns (p: seq<Ref>)
    requires Closed(h) && r in h
    requires if trail == [] then r == root else IsWalk(h, root, trail) && Edge(h, trail[|trail| - 1], r)
    requires Print(h, Object(r), Elements(trail)).None?
    ensures IsWalk(h, root, p) && p[|p| - 1] in h && (Defective(h[p[|p| - 1]]) || Repeats(p))
    decreases |h.Keys - Elements(trail)|
  {
    var path := Elements(trail);
    p := trail + [r];
    WalkExtends(h, root, r, trail);
    if r !in path {
      if Refuses(h[r]) {
        RefusesDefective(h[r]);
      } else {
        var cause := Cause(h, r, path);
        if cause.Some? {
          FewerUnseen(h.Keys, path, r);
          p := FailureWalk(h, root, cause.value, p);
        }
      }
    }
  }

  // ---------------------------------------------------------------- the contract

  /** The recursive printer succeeds exactly on plain acyclic data, and then prints its unfolding. */
  lemma PrintsPlainData(h: Heap, v: Value)
    requires Closed(h) && InHeap(h, v)
    ensures Print(h, v, {}).Some? <==> Plain(h, v)
    ensures forall t | Unfolds(h, v, t) :: Print(h, v, {}) == Some(PrintJson(t))
    ensures Plain(h, v) ==> exists t :: Unfolds(h, v, t)
  {
    forall t | Unfolds(h, v, t) ensures Print(h, v, {}) == Some(PrintJson(t)) { UnfoldingPrints(h, v, t, {}); }
    if Print(h, v, {}).Some? {
      var t := PrintedUnfolds(h, v, {});
      UnfoldingPlain(h, v, t);
    } else if v.Object? {
      var none: seq<Ref> := [];
      assert Elements(none) == {};
      var p := FailureWalk(h, v.ref, v.ref, none);
    }
  }
}
