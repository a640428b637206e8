/** Values, lookup and rendering (template.c): rendering a printed tree is evaluating the tree. */
module TemplateRender {
  import opened Sequences
  import opened TemplateText

  datatype Value =
    | Null
    | Bool(b: bool)
    | Int(i: int)
    | Str(s: string)
    | List(items: seq<Value>)
    | Map(pairs: seq<(string, Value)>)

  /** A pointer to a value. */
  datatype Ref = None | Some(value: Value)

  // ------------------------------------------------------------------- lookup

  /** map_get: the first pair with the key. */
  function PairGet(pairs: seq<(string, Value)>, key: string): (r: Ref) {
    if pairs == [] then None else if pairs[0].0 == key then Some(pairs[0].1) else PairGet(pairs[1..], key)
  }

  function MapGet(v: Ref, key: string): (r: Ref) {
    if v.Some? && v.value.Map? then PairGet(v.value.pairs, key) else None
  }

  /** The innermost frame that has the key. Frames are listed from the innermost outwards. */
  function FrameGet(frames: seq<Ref>, key: string): (r: Ref) {
    if frames == [] then None
    else match MapGet(frames[0], key)
      case Some(v) => Some(v)
      case None => FrameGet(frames[1..], key)
  }

  function Walk(v: Ref, path: seq<string>): (r: Ref)
    decreases |path|
  {
    if path == [] then v else Walk(MapGet(v, path[0]), path[1..])
  }

  /** A name cut at its dots: always at least one segment. */
  function Segments(name: string): (r: seq<string>)
    ensures r != []
  {
    if name == [] then [[]]
    else
      var rest := Segments(name[1..]);
      if name[0] == '.' then [[]] + rest else [[name[0]] + rest[0]] + rest[1..]
  }

  /** The meaning of a name: the innermost frame that has its first segment, then down the maps. */
  function Lookup(frames: seq<Ref>, name: string): (r: Ref) {
    if name == "." then (if frames == [] then None else frames[0])
    else Walk(FrameGet(frames, Segments(name)[0]), Segments(name)[1..])
  }

  lemma {:induction false} WalkNone(path: seq<string>)
    ensures Walk(None, path) == None
    decreases |path|
  {
    if path != [] {
      WalkNone(path[1..]);
    }
  }

  /** memchr for a dot from `p` on. */
  method FindDot(name: string, p: nat) returns (q: nat)
    requires p <= |name|
    ensures p <= q <= |name| && (q < |name| ==> name[q] == '.') && forall i | p <= i < q :: name[i] != '.'
  {
    q := p;
    while q < |name| && name[q] != '.'
      invariant p <= q <= |name| && forall i | p <= i < q :: name[i] != '.'
    {
      q := q + 1;
    }
  }

  /** The segments from `p` on, when the next dot is at `q`. */
  lemma {:induction false} SegmentsAt(name: string, p: nat, q: nat)
    requires p <= q <= |name| && (q < |name| ==> name[q] == '.') && forall i | p <= i < q :: name[i] != '.'
    ensures Segments(name[p..])[0] == name[p..q]
    ensures Segments(name[p..])[1..] == if q == |name| then [] else Segments(name[q + 1..])
    decreases q - p
  {
    var s := name[p..];
    if p < q {
      SegmentsAt(name, p + 1, q);
      assert s[1..] == name[p + 1..] && s[0] == name[p];
      assert name[p..q] == [name[p]] + name[p + 1..q];
    } else if p < |name| {
      assert s[1..] == name[p + 1..];
    }
  }

  /** The loop over frames. */
  method FirstFrame(frames: seq<Ref>, key: string) returns (r: Ref)
    ensures r == FrameGet(frames, key)
  {
    r := None;
    var f := 0;
    while f < |frames| && r == None
      invariant f <= |frames|
      invariant FrameGet(frames, key) == if r.Some? then r else FrameGet(frames[f..], key)
    {
      r := MapGet(frames[f], key);
      assert frames[f..][1..] == frames[f + 1..];
      f := f + 1;
    }
  }

  /** The loop over the segments of a name behind the dot at `from`. */
  method WalkDown(v: Ref, name: string, from: nat) returns (r: Ref)
    requires from < |name|
    ensures r == Walk(v, Segments(name[from + 1..]))
  {
    r := v;
    var dot := from;
    ghost var goal := Walk(v, Segments(name[from + 1..]));
    while dot < |name|
      invariant dot <= |name|
      invariant goal == Walk(r, if dot == |name| then [] else Segments(name[dot + 1..]))
      decreases |name| - dot
    {
      var next := FindDot(name, dot + 1);
      SegmentsAt(name, dot + 1, next);
      r := MapGet(r, name[dot + 1..next]);
      if r == None {
        WalkNone(Segments(name[dot + 1..])[1..]);
        return;
      }
      dot := next;
    }
  }

  /** lookup. */
  method LookupName(frames: seq<Ref>, name: string) returns (r: Ref)
    ensures r == Lookup(frames, name)
  {
    if |name| == 1 && name[0] == '.' {
      assert name == ".";
      return if frames == [] then None else frames[0];
    }
    var dot := FindDot(name, 0);
    SegmentsAt(name, 0, dot);
    assert name[0..] == name && name[..dot] == name[0..dot];
    r := FirstFrame(frames, name[..dot]);
    if r == None {
      WalkNone(Segments(name)[1..]);
    } else if dot < |name| {
      r := WalkDown(r, name, dot);
    }
  }

  // ------------------------------------------------------------------- output

  predicate Truthy(v: Ref) {
    match v
    case None => false
    case Some(Null) => false
    case Some(Bool(b)) => b
    case Some(Int(i)) => i != 0
    case Some(Str(s)) => s != []
    case Some(List(items)) => items != []
    case Some(Map(_)) => true
  }

  function EscapeChar(c: char): (s: string)
    ensures s != []
  {
    if c == '<' then "&lt;" else if c == '>' then "&gt;" else if c == '&' then "&amp;"
    else if c == '"' then "&quot;" else if c == '\'' then "&#39;" else [c]
  }

  function Escape(s: string): (r: string) {
    if s == [] then [] else EscapeChar(s[0]) + Escape(s[1..])
  }

  predicate Unsafe(c: char) { c == '<' || c == '>' || c == '"' || c == '\'' }

  /** Nothing that could open a tag or end an attribute is left. */
  lemma {:induction false} EscapeSafe(s: string)
    ensures forall i | 0 <= i < |Escape(s)| :: !Unsafe(Escape(s)[i])
  {
    if s != [] {
      EscapeSafe(s[1..]);
    }
  }

  /** What the front of a text stands for, and how many characters of it that takes. */
  function Entity(s: string): (r: (char, nat))
    requires s != []
    ensures 1 <= r.1 <= |s|
  {
    if "&lt;" <= s then ('<', 4) else if "&gt;" <= s then ('>', 4) else if "&amp;" <= s then ('&', 5)
    else if "&quot;" <= s then ('"', 6) else if "&#39;" <= s then ('\'', 5) else (s[0], 1)
  }

  function Unescape(s: string): (r: string)
    decreases |s|
  {
    if s == [] then [] else [Entity(s).0] + Unescape(s[Entity(s).1..])
  }

  lemma EntityOne(c: char, rest: string)
    ensures Entity(EscapeChar(c) + rest) == (c, |EscapeChar(c)|)
  {
    var x := EscapeChar(c);
    var s := x + rest;
    assert x <= s && s[0] == x[0] && (|x| > 1 ==> s[1] == x[1]);
  }

  lemma UnescapeOne(c: char, rest: string)
    ensures Unescape(EscapeChar(c) + rest) == [c] + Unescape(rest)
  {
    EntityOne(c, rest);
    assert (EscapeChar(c) + rest)[|EscapeChar(c)|..] == rest;
  }

  /** Escaping can be undone, so no two strings look the same. */
  lemma {:induction false} EscapeInvertible(s: string)
    ensures Unescape(Escape(s)) == s
  {
    if s != [] {
      EscapeInvertible(s[1..]);
      UnescapeOne(s[0], Escape(s[1..]));
    }
  }

  function Digits(n: nat): (r: string)
  {
    if n < 10 then [(n + '0' as int) as char] else Digits(n / 10) + [(n % 10 + '0' as int) as char]
  }

  function Decimal(i: int): (r: string) { if i < 0 then "-" + Digits(-i) else Digits(i) }

  /** emit_value. */
  function Emit(v: Ref, raw: bool): (r: string) {
    match v
    case None => ""
    case Some(Bool(b)) => if b then "true" else "false"
    case Some(Int(i)) => Decimal(i)
    case Some(Str(s)) => if raw then s else Escape(s)
    case Some(Null) => ""
    case Some(List(_)) => ""
    case Some(Map(_)) => ""
  }

  // ----------------------------------------------------------------- rendering

  /** What was written, and whether rendering went through. */
  datatype Output = Output(text: string, ok: bool) {
    function After(front: string): (r: Output) { Output(front + text, ok) }
  }

  /** render_range: the text from `p` to `end` in a stack of frames. */
  function Render(t: string, p: nat, end: nat, frames: seq<Ref>): (r: Output)
    requires end <= |t|
    decreases |t| - p, 1, 0
  {
    match TagAt(t, p, end)
    case Finished => Output("", true)
    case Letter(c) => Render(t, p + 1, end, frames).After([c])
    case Ignored(next) => Render(t, next, end, frames)
    case Malformed => Output("", false)
    case Variable(raw, from, to, next) =>
      Render(t, next, end, frames).After(Emit(Lookup(frames, t[from..to]), raw))
    case Opening(inverted, from, to, next) =>
      var name := t[from..to];
      match FindEnd(t, next, name, 1)
      case Nowhere => Output("", false)
      case There(q) =>
        var s := RenderSection(t, next, q, Lookup(frames, name), inverted, frames);
        if s.ok then Render(t, PastClose(t, q, end), end, frames).After(s.text) else s
  }

  /** render_section. */
  function RenderSection(t: string, p: nat, end: nat, value: Ref, inverted: bool, frames: seq<Ref>): (r: Output)
    requires end <= |t|
    decreases |t| - p, 3, 0
  {
    if Truthy(value) == inverted then Output("", true)
    else if !inverted && value.value.List? then RenderItems(t, p, end, value.value.items, frames)
    else Render(t, p, end, [value] + frames)
  }

  function RenderItems(t: string, p: nat, end: nat, items: seq<Value>, frames: seq<Ref>): (r: Output)
    requires end <= |t|
    decreases |t| - p, 2, |items|
  {
    if items == [] then Output("", true)
    else
      var one := Render(t, p, end, [Some(items[0])] + frames);
      if one.ok then RenderItems(t, p, end, items[1..], frames).After(one.text) else one
  }

  // ---------------------------------------------------------------- evaluation

  /** What a tree means in a stack of frames. */
  function Eval(tree: Tree, frames: seq<Ref>): (r: string)
    decreases tree, 0, 0
  {
    match tree
    case Nothing => ""
    case Text(text, next) => text + Eval(next, frames)
    case Comment(_, next) => Eval(next, frames)
    case Var(name, raw, next) => Emit(Lookup(frames, name), raw) + Eval(next, frames)
    case Section(name, inverted, body, next) =>
      EvalSection(body, Lookup(frames, name), inverted, frames) + Eval(next, frames)
  }

  /** Once per item of a list, once for any other true value; when inverted, once for a false one. */
  function EvalSection(body: Tree, value: Ref, inverted: bool, frames: seq<Ref>): (r: string)
    decreases body, 2, 0
  {
    if Truthy(value) == inverted then ""
    else if !inverted && value.value.List? then EvalItems(body, value.value.items, frames)
    else Eval(body, [value] + frames)
  }

  function EvalItems(body: Tree, items: seq<Value>, frames: seq<Ref>): (r: string)
    decreases body, 1, |items|
  {
    if items == [] then "" else Eval(body, [Some(items[0])] + frames) + EvalItems(body, items[1..], frames)
  }

  // ------------------------------------------------ rendering what was printed

  type Renderer = (nat, nat, seq<Ref>) -> Output

  /** The functions above for one text, as values: proofs about trees need not look into them. */
  datatype World = World(
    has: Layout,
    tag: (nat, nat) -> Tag,
    ends: (nat, string) -> Place,
    past: (nat, nat) -> nat,
    render: Renderer,
    section: (nat, nat, Ref, bool, seq<Ref>) -> Output,
    means: (Tree, seq<Ref>) -> string,
    meansSection: (Tree, Ref, bool, seq<Ref>) -> string)

  ghost predicate Tags(w: World, t: string) {
    && IsLayout(w.has, t)
    && (forall p: nat, end: nat {:trigger TagAt(t, p, end)} | end <= |t| :: w.tag(p, end) == TagAt(t, p, end))
    && (forall p: nat, n: string {:trigger FindEnd(t, p, n, 1)} :: w.ends(p, n) == FindEnd(t, p, n, 1))
    && (forall p: nat, end: nat {:trigger PastClose(t, p, end)} | end <= |t| :: w.past(p, end) == PastClose(t, p, end))
  }

  ghost predicate Renders(w: World, t: string) {
    && (forall p: nat, end: nat, fs: seq<Ref> {:trigger Render(t, p, end, fs)} | end <= |t| ::
          w.render(p, end, fs) == Render(t, p, end, fs))
    && (forall p: nat, end: nat, v: Ref, inv: bool, fs: seq<Ref> {:trigger RenderSection(t, p, end, v, inv, fs)} | end <= |t| ::
          w.section(p, end, v, inv, fs) == RenderSection(t, p, end, v, inv, fs))
  }

  ghost predicate Works(w: World, t: string) {
    Tags(w, t) && Renders(w, t)
  }

  ghost predicate Means(w: World) {
    && (forall tree: Tree, fs: seq<Ref> {:trigger Eval(tree, fs)} :: w.means(tree, fs) == Eval(tree, fs))
    && (forall body: Tree, v: Ref, inv: bool, fs: seq<Ref> {:trigger EvalSection(body, v, inv, fs)} ::
          w.meansSection(body, v, inv, fs) == EvalSection(body, v, inv, fs))
  }

  ghost predicate Of(w: World, t: string) {
    Works(w, t) && Means(w)
  }

  ghost function WorldOf(t: string): (w: World) {
    World(LayoutOf(t),
          (p: nat, end: nat) => if end <= |t| then TagAt(t, p, end) else Malformed,
          (p: nat, n: string) => FindEnd(t, p, n, 1),
          (p: nat, end: nat) => if end <= |t| then PastClose(t, p, end) else p,
          (p: nat, end: nat, fs: seq<Ref>) => if end <= |t| then Render(t, p, end, fs) else Output("", false),
          (p: nat, end: nat, v: Ref, inv: bool, fs: seq<Ref>) =>
            if end <= |t| then RenderSection(t, p, end, v, inv, fs) else Output("", false),
          (tree: Tree, fs: seq<Ref>) => Eval(tree, fs),
          (body: Tree, v: Ref, inv: bool, fs: seq<Ref>) => EvalSection(body, v, inv, fs))
  }

  lemma AfterNothing(r: Output)
    ensures r.After("") == r
  {
    assert "" + r.text == r.text;
  }

  lemma AfterBoth(r: Output, a: string, b: string)
    ensures r.After(b).After(a) == r.After(a + b)
  {
    ConcatAssoc(a, b, r.text);
  }

  // ----------------------------------------------- one step, by the tag at the cursor

  lemma StepLetter(w: World, t: string, p: nat, end: nat, frames: seq<Ref>, c: char)
    requires Works(w, t) && end <= |t| && TagAt(t, p, end) == Letter(c)
    ensures w.render(p, end, frames) == w.render(p + 1, end, frames).After([c])
  {
    var rest := Render(t, p + 1, end, frames);
    assert Render(t, p, end, frames) == rest.After([c]);
  }

  lemma StepVariable(w: World, t: string, p: nat, end: nat, frames: seq<Ref>, raw: bool, from: nat, to: nat, next: nat)
    requires Works(w, t) && end <= |t| && w.tag(p, end) == Variable(raw, from, to, next) && from <= to <= |t|
    ensures w.render(p, end, frames) == w.render(next, end, frames).After(Emit(Lookup(frames, t[from..to]), raw))
  {
    assert TagAt(t, p, end) == Variable(raw, from, to, next);
    var rest := Render(t, next, end, frames);
    assert Render(t, p, end, frames) == rest.After(Emit(Lookup(frames, t[from..to]), raw));
  }

  lemma StepIgnored(w: World, t: string, p: nat, end: nat, frames: seq<Ref>, next: nat)
    requires Works(w, t) && end <= |t| && w.tag(p, end) == Ignored(next)
    ensures w.render(p, end, frames) == w.render(next, end, frames)
  {
    assert TagAt(t, p, end) == Ignored(next);
    assert Render(t, p, end, frames) == Render(t, next, end, frames);
  }

  lemma StepFinished(w: World, t: string, end: nat, frames: seq<Ref>)
    requires Works(w, t) && end <= |t|
    ensures w.render(end, end, frames) == Output("", true)
  {
    assert Render(t, end, end, frames) == Output("", true);
  }

  lemma StepOpening(w: World, t: string, p: nat, end: nat, frames: seq<Ref>, inverted: bool, from: nat, to: nat, next: nat, name: string, q: nat)
    requires Works(w, t) && end <= |t| && from <= to <= |t| && t[from..to] == name
    requires w.tag(p, end) == Opening(inverted, from, to, next) && w.ends(next, name) == There(q) && q <= |t|
    requires w.section(next, q, Lookup(frames, name), inverted, frames).ok
    ensures w.render(p, end, frames)
         == w.render(w.past(q, end), end, frames).After(w.section(next, q, Lookup(frames, name), inverted, frames).text)
  {
    assert TagAt(t, p, end) == Opening(inverted, from, to, next);
    assert FindEnd(t, next, name, 1) == There(q);
    var s := RenderSection(t, next, q, Lookup(frames, name), inverted, frames);
    var rest := Render(t, PastClose(t, q, end), end, frames);
    assert Render(t, p, end, frames) == rest.After(s.text);
  }

  // ------------------------------------------------------------- pieces

  lemma {:induction false} RenderLetters(w: World, t: string, p: nat, text: string, i: nat, end: nat, frames: seq<Ref>)
    requires Works(w, t) && Sits(t, p, text) && PlainText(text) && i <= |text| && p + |text| <= end <= |t|
    ensures w.render(p + i, end, frames) == w.render(p + |text|, end, frames).After(text[i..])
    decreases |text| - i
  {
    var rest := w.render(p + |text|, end, frames);
    if i < |text| {
      SitAt(t, p, text, i);
      StepLetter(w, t, p + i, end, frames, text[i]);
      RenderLetters(w, t, p, text, i + 1, end, frames);
      AfterBoth(rest, [text[i]], text[i + 1..]);
      assert [text[i]] + text[i + 1..] == text[i..];
    } else {
      AfterNothing(rest);
    }
  }

  lemma SeeVar(w: World, t: string, p: nat, end: nat, name: string, raw: bool)
    requires Works(w, t) && w.has(p, VarTag(name, raw)) && PlainName(name) && p + TagLength(name, raw) <= end <= |t|
    ensures var b := p + if raw then 3 else 2;
            && w.tag(p, end) == Variable(raw, b, b + |name|, p + TagLength(name, raw))
            && b + |name| <= |t| && t[b..b + |name|] == name
  {
    VarSits(w.has, t, p, name, raw);
    TagVar(t, p, end, name, raw);
  }

  lemma SeeComment(w: World, t: string, p: nat, end: nat, text: string)
    requires Works(w, t) && w.has(p, BoundTag('!', text)) && PlainText(text) && p + 5 + |text| <= end <= |t|
    ensures w.tag(p, end) == Ignored(p + 5 + |text|)
  {
    assert Sits(t, p, PieceText(BoundTag('!', text)));
    TagComment(t, p, end, text);
  }

  /** What a piece that is not a section renders to. */
  function PieceOut(x: Piece, frames: seq<Ref>): (r: string) {
    match x
    case Chars(text) => text
    case VarTag(name, raw) => Emit(Lookup(frames, name), raw)
    case BoundTag(_, _) => ""
  }

  lemma RenderText(w: World, t: string, p: nat, text: string, end: nat, frames: seq<Ref>)
    requires Works(w, t) && w.has(p, Chars(text)) && PlainText(text) && p + |text| <= end <= |t|
    ensures w.render(p, end, frames) == w.render(p + |text|, end, frames).After(text)
  {
    assert Sits(t, p, PieceText(Chars(text)));
    RenderLetters(w, t, p, text, 0, end, frames);
    assert text[0..] == text;
  }

  lemma RenderVar(w: World, t: string, p: nat, name: string, raw: bool, end: nat, frames: seq<Ref>)
    requires Works(w, t) && w.has(p, VarTag(name, raw)) && PlainName(name) && p + TagLength(name, raw) <= end <= |t|
    ensures w.render(p, end, frames) == w.render(p + TagLength(name, raw), end, frames).After(Emit(Lookup(frames, name), raw))
  {
    var b := p + if raw then 3 else 2;
    SeeVar(w, t, p, end, name, raw);
    StepVariable(w, t, p, end, frames, raw, b, b + |name|, p + TagLength(name, raw));
  }

  lemma RenderComment(w: World, t: string, p: nat, text: string, end: nat, frames: seq<Ref>)
    requires Works(w, t) && w.has(p, BoundTag('!', text)) && PlainText(text) && p + 5 + |text| <= end <= |t|
    ensures w.render(p, end, frames) == w.render(p + 5 + |text|, end, frames).After("")
  {
    SeeComment(w, t, p, end, text);
    StepIgnored(w, t, p, end, frames, p + 5 + |text|);
    AfterNothing(w.render(p + 5 + |text|, end, frames));
  }

  lemma RenderPiece(w: World, t: string, p: nat, x: Piece, end: nat, frames: seq<Ref>)
    requires Works(w, t) && w.has(p, x) && ValidPiece(x) && (x.BoundTag? ==> x.kind == '!')
    requires p + PieceLength(x) <= end <= |t|
    ensures w.render(p, end, frames) == w.render(p + PieceLength(x), end, frames).After(PieceOut(x, frames))
  {
    match x
    case Chars(text) => RenderText(w, t, p, text, end, frames);
    case VarTag(name, raw) => RenderVar(w, t, p, name, raw, end, frames);
    case BoundTag(_, text) => RenderComment(w, t, p, text, end, frames);
  }

  // ------------------------------------------------------------------ sections

  /** The body between `p` and `end` renders, in every stack of frames, to what it means. */
  ghost predicate BodyRenders(w: World, p: nat, end: nat, body: Tree) {
    forall frames: seq<Ref> {:trigger w.render(p, end, frames)} :: w.render(p, end, frames) == Output(w.means(body, frames), true)
  }

  lemma {:induction false} ItemsRender(w: World, t: string, p: nat, end: nat, body: Tree, items: seq<Value>, frames: seq<Ref>)
    requires Of(w, t) && end <= |t| && BodyRenders(w, p, end, body)
    ensures RenderItems(t, p, end, items, frames) == Output(EvalItems(body, items, frames), true)
    decreases |items|
  {
    if items != [] {
      ItemsRender(w, t, p, end, body, items[1..], frames);
      var inner := [Some(items[0])] + frames;
      assert Render(t, p, end, inner) == w.render(p, end, inner) && w.means(body, inner) == Eval(body, inner);
    }
  }

  lemma SectionRenders(w: World, t: string, p: nat, end: nat, body: Tree, value: Ref, inverted: bool, frames: seq<Ref>)
    requires Of(w, t) && end <= |t| && BodyRenders(w, p, end, body)
    ensures w.section(p, end, value, inverted, frames) == Output(w.meansSection(body, value, inverted, frames), true)
  {
    var s := RenderSection(t, p, end, value, inverted, frames);
    if Truthy(value) != inverted {
      if !inverted && value.value.List? {
        ItemsRender(w, t, p, end, body, value.value.items, frames);
      } else {
        var inner := [value] + frames;
        assert Render(t, p, end, inner) == w.render(p, end, inner) && w.means(body, inner) == Eval(body, inner);
      }
    }
    assert w.meansSection(body, value, inverted, frames) == EvalSection(body, value, inverted, frames);
  }

  lemma SeeOpen(w: World, t: string, p: nat, end: nat, name: string, inverted: bool)
    requires Of(w, t) && w.has(p, BoundTag(OpenKind(inverted), name)) && PlainName(name) && p + 5 + |name| <= end <= |t|
    ensures w.tag(p, end) == Opening(inverted, p + 3, p + 3 + |name|, p + 5 + |name|)
    ensures t[p + 3..p + 3 + |name|] == name
  {
    assert Sits(t, p, PieceText(BoundTag(OpenKind(inverted), name)));
    TagOpen(t, p, end, name, inverted);
  }

  lemma SeeEnd(w: World, t: string, p: nat, name: string, body: Tree)
    requires Of(w, t) && Printed(w.has, p, body) && Valid(body) && PlainName(name)
    requires w.has(p + Length(body), BoundTag('/', name))
    ensures w.ends(p, name) == There(p + Length(body))
  {
    FindOwnEnd(w.has, t, p, name, body);
  }

  lemma SeePast(w: World, t: string, p: nat, name: string, end: nat)
    requires Of(w, t) && PlainName(name) && w.has(p, BoundTag('/', name)) && p + 5 + |name| <= end <= |t|
    ensures w.past(p, end) == p + 5 + |name|
  {
    assert Sits(t, p, PieceText(BoundTag('/', name)));
    PastClosingTag(t, p, end, name);
  }

  /** The tags of a section: where it opens, ends and goes on. */
  lemma SeeSection(w: World, t: string, p: nat, name: string, inverted: bool, body: Tree, end: nat, c: nat)
    requires Of(w, t) && PlainName(name) && Valid(body)
    requires c == p + 5 + |name| + Length(body) && c + 5 + |name| <= end <= |t|
    requires w.has(p, BoundTag(OpenKind(inverted), name)) && w.has(c, BoundTag('/', name)) && Printed(w.has, p + 5 + |name|, body)
    ensures w.tag(p, end) == Opening(inverted, p + 3, p + 3 + |name|, p + 5 + |name|) && t[p + 3..p + 3 + |name|] == name
    ensures w.ends(p + 5 + |name|, name) == There(c) && w.past(c, end) == c + 5 + |name|
  {
    SeeOpen(w, t, p, end, name, inverted);
    SeeEnd(w, t, p + 5 + |name|, name, body);
    SeePast(w, t, c, name, end);
  }

  lemma SectionStep(w: World, t: string, p: nat, name: string, inverted: bool, body: Tree, end: nat, frames: seq<Ref>, c: nat)
    requires Of(w, t) && PlainName(name) && Valid(body)
    requires c == p + 5 + |name| + Length(body) && c + 5 + |name| <= end <= |t|
    requires w.has(p, BoundTag(OpenKind(inverted), name)) && w.has(c, BoundTag('/', name)) && Printed(w.has, p + 5 + |name|, body)
    requires BodyRenders(w, p + 5 + |name|, c, body)
    ensures Goes(w, p, c + 5 + |name|, end, frames, w.meansSection(body, Lookup(frames, name), inverted, frames))
  {
    SeeSection(w, t, p, name, inverted, body, end, c);
    SectionRenders(w, t, p + 5 + |name|, c, body, Lookup(frames, name), inverted, frames);
    OpeningGoes(w, t, p, name, inverted, end, frames, c, w.meansSection(body, Lookup(frames, name), inverted, frames));
  }

  /** With its tags seen and its body rendered, a section is written and passed. */
  lemma OpeningGoes(w: World, t: string, p: nat, name: string, inverted: bool, end: nat, frames: seq<Ref>, c: nat, text: string)
    requires Of(w, t) && c + 5 + |name| <= end <= |t| && p + 5 + |name| <= c
    requires w.tag(p, end) == Opening(inverted, p + 3, p + 3 + |name|, p + 5 + |name|) && t[p + 3..p + 3 + |name|] == name
    requires w.ends(p + 5 + |name|, name) == There(c) && w.past(c, end) == c + 5 + |name|
    requires w.section(p + 5 + |name|, c, Lookup(frames, name), inverted, frames) == Output(text, true)
    ensures Goes(w, p, c + 5 + |name|, end, frames, text)
  {
    StepOpening(w, t, p, end, frames, inverted, p + 3, p + 3 + |name|, p + 5 + |name|, name, c);
  }

  lemma EvalSimple(w: World, tree: Tree, frames: seq<Ref>)
    requires Means(w) && Simple(tree)
    ensures w.means(tree, frames) == PieceOut(Head(tree), frames) + w.means(tree.next, frames)
  {
    assert "" + Eval(tree.next, frames) == Eval(tree.next, frames);
    assert Eval(tree, frames) == PieceOut(Head(tree), frames) + Eval(tree.next, frames);
  }

  lemma EvalOneSection(w: World, tree: Tree, frames: seq<Ref>)
    requires Means(w) && tree.Section?
    ensures w.means(tree, frames) ==
            w.meansSection(tree.body, Lookup(frames, tree.name), tree.inverted, frames) + w.means(tree.next, frames)
  {
    assert Eval(tree, frames) ==
           EvalSection(tree.body, Lookup(frames, tree.name), tree.inverted, frames) + Eval(tree.next, frames);
  }

  lemma EvalNothing(w: World, frames: seq<Ref>)
    requires Means(w)
    ensures w.means(Nothing, frames) == ""
  {
    assert Eval(Nothing, frames) == "";
  }

  ghost predicate Goes(w: World, p: nat, q: nat, end: nat, frames: seq<Ref>, text: string) {
    w.render(p, end, frames) == w.render(q, end, frames).After(text)
  }

  lemma GoesOn(w: World, p: nat, q: nat, r: nat, end: nat, frames: seq<Ref>, a: string, b: string)
    requires Goes(w, p, q, end, frames, a) && Goes(w, q, r, end, frames, b)
    ensures Goes(w, p, r, end, frames, a + b)
  {
    AfterBoth(w.render(r, end, frames), a, b);
  }

  lemma NothingGoes(w: World, p: nat, end: nat, frames: seq<Ref>)
    ensures Goes(w, p, p, end, frames, "")
  {
    AfterNothing(w.render(p, end, frames));
  }

  /** A first piece that is not a section writes its part of the meaning. */
  lemma RenderSimple(w: World, t: string, p: nat, tree: Tree, end: nat, frames: seq<Ref>) returns (q: nat, text: string)
    requires Of(w, t) && Simple(tree) && Printed(w.has, p, tree) && Valid(tree) && p + Length(tree) <= end <= |t|
    ensures Goes(w, p, q, end, frames, text) && w.means(tree, frames) == text + w.means(tree.next, frames)
    ensures Printed(w.has, q, tree.next) && Valid(tree.next) && q + Length(tree.next) == p + Length(tree)
  {
    SimpleParts(w.has, p, tree);
    q, text := p + PieceLength(Head(tree)), PieceOut(Head(tree), frames);
    RenderPiece(w, t, p, Head(tree), end, frames);
    EvalSimple(w, tree, frames);
  }

  /** So does a section. */
  lemma {:induction false} RenderOneSection(w: World, t: string, p: nat, tree: Tree, end: nat, frames: seq<Ref>)
    returns (q: nat, text: string)
    requires Of(w, t) && tree.Section? && Printed(w.has, p, tree) && Valid(tree) && p + Length(tree) <= end <= |t|
    ensures Goes(w, p, q, end, frames, text) && w.means(tree, frames) == text + w.means(tree.next, frames)
    ensures Printed(w.has, q, tree.next) && Valid(tree.next) && q + Length(tree.next) == p + Length(tree)
    decreases tree, 0, 0
  {
    var c := p + 5 + |tree.name| + Length(tree.body);
    q, text := c + 5 + |tree.name|, w.meansSection(tree.body, Lookup(frames, tree.name), tree.inverted, frames);
    EvalOneSection(w, tree, frames);
    RenderBody(w, t, p + 5 + |tree.name|, tree.body);
    SectionStep(w, t, p, tree.name, tree.inverted, tree.body, end, frames, c);
  }

  /** Rendering a printed tree writes its meaning and goes on behind it. */
  lemma {:induction false} RenderTree(w: World, t: string, p: nat, tree: Tree, end: nat, frames: seq<Ref>)
    requires Of(w, t) && Printed(w.has, p, tree) && Valid(tree) && p + Length(tree) <= end <= |t|
    ensures Goes(w, p, p + Length(tree), end, frames, w.means(tree, frames))
    decreases tree, 1, 0
  {
    if tree == Nothing {
      NothingGoes(w, p, end, frames);
      EvalNothing(w, frames);
    } else {
      var q := RenderFirst(w, t, p, tree, end, frames);
      RenderTree(w, t, q, tree.next, end, frames);
      FirstThenRest(w, p, q, tree, end, frames);
    }
  }

  /** The renderer has come to `q`, and has written what comes before it. */
  ghost predicate FirstDone(w: World, p: nat, q: nat, tree: Tree, end: nat, frames: seq<Ref>)
    requires tree != Nothing
  {
    exists text :: Goes(w, p, q, end, frames, text) && w.means(tree, frames) == text + w.means(tree.next, frames)
  }

  lemma {:induction false} RenderFirst(w: World, t: string, p: nat, tree: Tree, end: nat, frames: seq<Ref>) returns (q: nat)
    requires Of(w, t) && tree != Nothing && Printed(w.has, p, tree) && Valid(tree) && p + Length(tree) <= end <= |t|
    ensures FirstDone(w, p, q, tree, end, frames)
    ensures Printed(w.has, q, tree.next) && Valid(tree.next) && q + Length(tree.next) == p + Length(tree)
    decreases tree, 0, 1
  {
    var text;
    if tree.Section? {
      q, text := RenderOneSection(w, t, p, tree, end, frames);
    } else {
      q, text := RenderSimple(w, t, p, tree, end, frames);
    }
  }

  lemma FirstThenRest(w: World, p: nat, q: nat, tree: Tree, end: nat, frames: seq<Ref>)
    requires tree != Nothing && FirstDone(w, p, q, tree, end, frames)
    requires Goes(w, q, p + Length(tree), end, frames, w.means(tree.next, frames))
    ensures Goes(w, p, p + Length(tree), end, frames, w.means(tree, frames))
  {
    var text :| Goes(w, p, q, end, frames, text) && w.means(tree, frames) == text + w.means(tree.next, frames);
    GoesOn(w, p, q, p + Length(tree), end, frames, text, w.means(tree.next, frames));
  }

  lemma BodyFromTree(w: World, t: string, p: nat, end: nat, body: Tree, frames: seq<Ref>)
    requires Of(w, t) && end <= |t|
    requires Goes(w, p, end, end, frames, w.means(body, frames))
    ensures w.render(p, end, frames) == Output(w.means(body, frames), true)
  {
    StepFinished(w, t, end, frames);
    assert w.means(body, frames) + "" == w.means(body, frames);
  }

  lemma {:induction false} RenderBody(w: World, t: string, b: nat, body: Tree)
    requires Of(w, t) && Printed(w.has, b, body) && Valid(body) && b + Length(body) <= |t|
    ensures BodyRenders(w, b, b + Length(body), body)
    decreases body, 2, 0
  {
    var c := b + Length(body);
    forall inner: seq<Ref> ensures w.render(b, c, inner) == Output(w.means(body, inner), true) {
      RenderTree(w, t, b, body, c, inner);
      BodyFromTree(w, t, b, c, body, inner);
    }
  }

  /** tmpl_render. */
  function RenderAll(t: string, root: Value): (r: Output) {
    Render(t, 0, |t|, [Some(root)])
  }

  /**
   Rendering is evaluation: for every template tree in the documented syntax and every value, the
   renderer goes through and writes exactly what the tree means, nested sections of the same name,
   lists, inverted sections and dotted names included.
   */
  lemma RenderIsEval(tree: Tree, root: Value)
    requires Valid(tree)
    ensures RenderAll(Print(tree), root) == Output(Eval(tree, [Some(root)]), true)
  {
    var t, frames := Print(tree), [Some(root)];
    var w := WorldOf(t);
    assert t[0..|t|] == t;
    assert Sits(t, 0, t);
    PrintIsPrinted(w.has, HolderOf(t), t, 0, tree);
    PrintLength(tree);
    RenderTree(w, t, 0, tree, |t|, frames);
    BodyFromTree(w, t, 0, |t|, tree, frames);
  }

  // ------------------------------------------------------------------ the loops

  lemma StepMalformed(w: World, t: string, p: nat, end: nat, frames: seq<Ref>)
    requires Works(w, t) && end <= |t| && w.tag(p, end) == Malformed
    ensures w.render(p, end, frames) == Output("", false)
  {
    assert TagAt(t, p, end) == Malformed;
    assert Render(t, p, end, frames) == Output("", false);
  }

  lemma StepDone(w: World, t: string, p: nat, end: nat, frames: seq<Ref>)
    requires Works(w, t) && end <= |t| && w.tag(p, end) == Finished
    ensures w.render(p, end, frames) == Output("", true)
  {
    assert TagAt(t, p, end) == Finished;
    assert Render(t, p, end, frames) == Output("", true);
  }

  /** A section that is not closed, or that fails inside, ends the rendering. */
  lemma StepBroken(w: World, t: string, p: nat, end: nat, frames: seq<Ref>, inverted: bool, from: nat, to: nat, next: nat, name: string)
    requires Works(w, t) && end <= |t| && from <= to <= |t| && t[from..to] == name
    requires w.tag(p, end) == Opening(inverted, from, to, next)
    ensures w.ends(next, name) == Nowhere ==> w.render(p, end, frames) == Output("", false)
    ensures w.ends(next, name).There? && w.ends(next, name).p <= |t| ==>
              var s := w.section(next, w.ends(next, name).p, Lookup(frames, name), inverted, frames);
              !s.ok ==> w.render(p, end, frames) == s
  {
    assert TagAt(t, p, end) == Opening(inverted, from, to, next);
    var e := FindEnd(t, next, name, 1);
    if e.There? {
      var s := RenderSection(t, next, e.p, Lookup(frames, name), inverted, frames);
      assert !s.ok ==> Render(t, p, end, frames) == s;
    } else {
      assert Render(t, p, end, frames) == Output("", false);
    }
  }

  /** render_range: one pass over the text, output as it goes. */
  method RenderRange(t: string, begin: nat, end: nat, frames: seq<Ref>, ghost w: World) returns (out: string, ok: bool)
    requires Works(w, t) && end <= |t|
    ensures Output(out, ok) == w.render(begin, end, frames)
    decreases |t| - begin, 1
  {
    var p := begin;
    out := "";
    AfterNothing(w.render(begin, end, frames));
    while true
      invariant p >= begin && w.render(begin, end, frames) == w.render(p, end, frames).After(out)
      decreases end - p
    {
      var tag := TagAt(t, p, end);
      assert tag == w.tag(p, end);
      match tag
      case Finished =>
        StepDone(w, t, p, end, frames);
        assert out + "" == out;
        return out, true;
      case Malformed =>
        StepMalformed(w, t, p, end, frames);
        assert out + "" == out;
        return out, false;
      case Opening(inverted, from, to, next) =>
        var text, q, good := RenderOpened(t, p, end, frames, inverted, from, to, next, w);
        out := out + text;
        if !good {
          return out, false;
        }
        p := q;
      case _ =>
        var text, q := RenderTag(t, p, end, frames, tag, w);
        AfterBoth(w.render(q, end, frames), out, text);
        out, p := out + text, q;
    }
  }

  /** A letter, a comment or a variable. */
  method RenderTag(t: string, p: nat, end: nat, frames: seq<Ref>, tag: Tag, ghost w: World) returns (text: string, q: nat)
    requires Works(w, t) && end <= |t| && tag == TagAt(t, p, end) && (tag.Letter? || tag.Ignored? || tag.Variable?)
    ensures p < q && w.render(p, end, frames) == w.render(q, end, frames).After(text)
  {
    assert tag == w.tag(p, end);
    match tag
    case Letter(c) =>
      StepLetter(w, t, p, end, frames, c);
      text, q := [c], p + 1;
    case Ignored(next) =>
      StepIgnored(w, t, p, end, frames, next);
      AfterNothing(w.render(next, end, frames));
      text, q := "", next;
    case Variable(raw, from, to, next) =>
      var value := LookupName(frames, t[from..to]);
      StepVariable(w, t, p, end, frames, raw, from, to, next);
      text, q := Emit(value, raw), next;
  }

  /** The section case: find the end, render the body, move behind the closing tag. */
  method RenderOpened(t: string, p: nat, end: nat, frames: seq<Ref>, inverted: bool, from: nat, to: nat, next: nat, ghost w: World)
    returns (text: string, q: nat, ok: bool)
    requires Works(w, t) && p < end <= |t| && w.tag(p, end) == Opening(inverted, from, to, next) && from <= to < next <= |t| && p < next
    ensures !ok ==> w.render(p, end, frames) == Output(text, false)
    ensures ok ==> q > p && w.render(p, end, frames) == w.render(q, end, frames).After(text)
    decreases |t| - p, 0
  {
    var name := t[from..to];
    var value := LookupName(frames, name);
    var close := FindSectionEnd(t, next, name);
    assert close == w.ends(next, name);
    StepBroken(w, t, p, end, frames, inverted, from, to, next, name);
    if close == Nowhere {
      return "", p, false;
    }
    text, ok := RenderSectionBody(t, next, close.p, value, inverted, frames, w);
    q := PastClose(t, close.p, end);
    assert q == w.past(close.p, end);
    if ok {
      StepOpening(w, t, p, end, frames, inverted, from, to, next, name, close.p);
    }
  }

  lemma SectionBy(w: World, t: string, p: nat, end: nat, value: Ref, inverted: bool, frames: seq<Ref>)
    requires Works(w, t) && end <= |t|
    ensures w.section(p, end, value, inverted, frames) ==
            if Truthy(value) == inverted then Output("", true)
            else if !inverted && value.value.List? then RenderItems(t, p, end, value.value.items, frames)
            else w.render(p, end, [value] + frames)
  {
    var s := RenderSection(t, p, end, value, inverted, frames);
    if Truthy(value) != inverted && !(!inverted && value.value.List?) {
      assert s == Render(t, p, end, [value] + frames);
    }
  }

  lemma ItemsStep(w: World, t: string, p: nat, end: nat, items: seq<Value>, frames: seq<Ref>)
    requires Works(w, t) && end <= |t| && items != []
    ensures RenderItems(t, p, end, items, frames) ==
            var one := w.render(p, end, [Some(items[0])] + frames);
            if one.ok then RenderItems(t, p, end, items[1..], frames).After(one.text) else one
  {
    assert Render(t, p, end, [Some(items[0])] + frames) == w.render(p, end, [Some(items[0])] + frames);
  }

  /** render_section: the loop over the items of a list, or the body once, or nothing. */
  method RenderSectionBody(t: string, p: nat, end: nat, value: Ref, inverted: bool, frames: seq<Ref>, ghost w: World)
    returns (text: string, ok: bool)
    requires Works(w, t) && end <= |t|
    ensures Output(text, ok) == w.section(p, end, value, inverted, frames)
    decreases |t| - p, 2
  {
    SectionBy(w, t, p, end, value, inverted, frames);
    if Truthy(value) == inverted {
      return "", true;
    }
    if inverted || !value.value.List? {
      text, ok := RenderRange(t, p, end, [value] + frames, w);
      return;
    }
    text, ok := "", true;
    var todo := value.value.items;
    AfterNothing(RenderItems(t, p, end, todo, frames));
    while todo != []
      invariant RenderItems(t, p, end, value.value.items, frames) == RenderItems(t, p, end, todo, frames).After(text)
      decreases |todo|
    {
      ItemsStep(w, t, p, end, todo, frames);
      var one;
      one, ok := RenderRange(t, p, end, [Some(todo[0])] + frames, w);
      AfterBoth(RenderItems(t, p, end, todo[1..], frames), text, one);
      text := text + one;
      if !ok {
        return;
      }
      todo := todo[1..];
    }
    assert text + "" == text;
    ok := true;
  }

  /** tmpl_render on a tree in the documented syntax writes what the tree means. */
  method RenderTemplate(tree: Tree, root: Value) returns (out: string, ok: bool)
    requires Valid(tree)
    ensures ok && out == Eval(tree, [Some(root)])
  {
    var t := Print(tree);
    out, ok := RenderRange(t, 0, |t|, [Some(root)], WorldOf(t));
    RenderIsEval(tree, root);
    assert Render(t, 0, |t|, [Some(root)]) == RenderAll(t, root);
  }
}
