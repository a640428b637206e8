/**
 The text side of the template engine (template.c): how tags are recognised, how the end of a
 section is found, and the trees that the documented syntax (template.h) writes down.
 */
module TemplateText {

  predicate Blank(c: char) { c == ' ' || c == '\t' }

  /** Reading a C string: the terminator is behind its last character. */
  function At(t: string, p: nat): (c: char) { if p < |t| then t[p] else '\0' }

  predicate Closes(t: string, p: nat) { At(t, p) == '}' && At(t, p + 1) == '}' }

  predicate Opens(t: string, p: nat) { At(t, p) == '{' && At(t, p + 1) == '{' }

  // ------------------------------------------------------------- moving a cursor

  function SkipBlanks(t: string, p: nat, end: nat): (q: nat)
    requires end <= |t|
    ensures p <= q && (p <= end ==> q <= end)
    decreases end - p
  {
    if p < end && Blank(t[p]) then SkipBlanks(t, p + 1, end) else p
  }

  function NameEnd(t: string, p: nat, end: nat): (q: nat)
    requires end <= |t|
    ensures p <= q && (p <= end ==> q <= end)
    decreases end - p
  {
    if p < end && !Blank(t[p]) && t[p] != '}' then NameEnd(t, p + 1, end) else p
  }

  /** Behind the next two closing braces, or the end. */
  function PastClose(t: string, p: nat, end: nat): (q: nat)
    requires end <= |t|
    ensures p <= q
    decreases end - p
  {
    if p >= end then p else if Closes(t, p) then p + 2 else PastClose(t, p + 1, end)
  }

  function PastClose3(t: string, p: nat): (q: nat)
    ensures p <= q
    decreases |t| - p
  {
    if p >= |t| then p else if Closes(t, p) && At(t, p + 2) == '}' then p + 3 else PastClose3(t, p + 1)
  }

  // ------------------------------------------------------------- the renderer's tags

  /** What render_range finds at its cursor; names are given by their place in the text. */
  datatype Tag =
    | Finished
    | Letter(c: char)
    | Ignored(next: nat)
    | Malformed
    | Variable(raw: bool, from: nat, to: nat, next: nat)
    | Opening(inverted: bool, from: nat, to: nat, next: nat)

  function NamedTag(t: string, p: nat, end: nat, kind: char): (g: Tag)
    requires p <= end <= |t|
    ensures g.Variable? || g.Opening? ==> p <= g.from <= g.to < g.next <= |t|
    ensures !g.Finished? && !g.Letter? && !g.Ignored?
  {
    var from := SkipBlanks(t, p, end);
    var to := NameEnd(t, from, end);
    var q := SkipBlanks(t, to, end);
    if kind == '{' then
      if q + 2 >= end || !Closes(t, q) || At(t, q + 2) != '}' then Malformed else Variable(true, from, to, q + 3)
    else if q + 1 >= end || !Closes(t, q) then Malformed
    else if kind == '#' || kind == '^' then Opening(kind == '^', from, to, q + 2)
    else Variable(false, from, to, q + 2)
  }

  function TagAt(t: string, p: nat, end: nat): (g: Tag)
    requires end <= |t|
    ensures g.Letter? || g.Ignored? || g.Malformed? || g.Variable? || g.Opening? ==> p < end
    ensures g.Ignored? ==> g.next > p
    ensures g.Variable? || g.Opening? ==> p < g.from <= g.to < g.next <= |t|
  {
    if p >= end then Finished
    else if !Opens(t, p) then Letter(t[p])
    else
      var q := SkipBlanks(t, p + 2, end);
      if q >= end then Finished
      else if t[q] == '/' || t[q] == '!' then Ignored(PastClose(t, q, end))
      else NamedTag(t, if t[q] == '{' || t[q] == '#' || t[q] == '^' then q + 1 else q, end, t[q])
  }

  // ------------------------------------------------------------- finding a section's end

  /** What find_section_end finds at its cursor. */
  datatype Mark = Other(next: nat) | Bound(opening: bool, from: nat, to: nat, next: nat)

  function MarkAt(t: string, p: nat): (m: Mark)
    requires p < |t|
    ensures m.next > p && (m.Bound? ==> m.from <= m.to <= |t|)
  {
    if !Opens(t, p) then Other(p + 1)
    else
      var n := |t|;
      var q := SkipBlanks(t, p + 2, n);
      var kind := At(t, q);
      if kind == '#' || kind == '^' || kind == '/' then
        var from := SkipBlanks(t, q + 1, n);
        var to := NameEnd(t, from, n);
        var r := SkipBlanks(t, to, n);
        if Closes(t, r) then Bound(kind != '/', from, to, r + 2) else Other(r)
      else if kind == '{' then Other(PastClose3(t, q + 1))
      else Other(PastClose(t, q, n))
  }

  datatype Place = Nowhere | There(p: nat)

  /** find_section_end: the closing tag at which the nesting depth of this name gets to 0. */
  function FindEnd(t: string, p: nat, name: string, depth: nat): (r: Place)
    ensures r.There? ==> p <= r.p < |t|
    decreases |t| - p
  {
    if p >= |t| || depth == 0 then Nowhere
    else match MarkAt(t, p)
      case Other(next) => FindEnd(t, next, name, depth)
      case Bound(opening, from, to, next) =>
        if t[from..to] != name then FindEnd(t, next, name, depth)
        else if opening then FindEnd(t, next, name, depth + 1)
        else if depth == 1 then There(p)
        else FindEnd(t, next, name, depth - 1)
  }

  // ------------------------------------------------------------------- trees

  /** A well-nested template: what comes first, and what follows it. */
  datatype Tree =
    | Nothing
    | Text(text: string, next: Tree)
    | Comment(text: string, next: Tree)
    | Var(name: string, raw: bool, next: Tree)
    | Section(name: string, inverted: bool, body: Tree, next: Tree)

  /** Text without braces. */
  predicate PlainText(s: string) {
    forall i | 0 <= i < |s| :: s[i] != '{' && s[i] != '}'
  }

  /** A name a tag can hold: no blanks, no braces, and no tag character in front. */
  predicate PlainName(s: string) {
    && s != [] && s[0] != '#' && s[0] != '^' && s[0] != '/' && s[0] != '!'
    && forall i | 0 <= i < |s| :: !Blank(s[i]) && s[i] != '{' && s[i] != '}'
  }

  predicate Valid(tree: Tree) {
    match tree
    case Nothing => true
    case Text(text, next) => PlainText(text) && Valid(next)
    case Comment(text, next) => PlainText(text) && Valid(next)
    case Var(name, _, next) => PlainName(name) && Valid(next)
    case Section(name, _, body, next) => PlainName(name) && Valid(body) && Valid(next)
  }

  function VarText(name: string, raw: bool): (s: string)
    ensures |s| == |name| + if raw then 6 else 4
  {
    if raw then "{{{" + (name + "}}}") else "{{" + (name + "}}")
  }

  function BoundText(kind: char, name: string): (s: string) {
    ['{', '{', kind] + (name + "}}")
  }

  function OpenKind(inverted: bool): (c: char) { if inverted then '^' else '#' }

  /** A tree in the documented syntax. */
  function Print(tree: Tree): (s: string) {
    match tree
    case Nothing => ""
    case Text(text, next) => text + Print(next)
    case Comment(text, next) => BoundText('!', text) + Print(next)
    case Var(name, raw, next) => VarText(name, raw) + Print(next)
    case Section(name, inverted, body, next) =>
      BoundText(OpenKind(inverted), name) + (Print(body) + (BoundText('/', name) + Print(next)))
  }

  // ------------------------------------------------------- reading what was printed

  /** The text has `x` at `p`. */
  ghost predicate Sits(t: string, p: nat, x: string) {
    p + |x| <= |t| && t[p..p + |x|] == x
  }

  lemma SitAt(t: string, p: nat, x: string, i: nat)
    requires Sits(t, p, x) && i < |x|
    ensures t[p + i] == x[i] && At(t, p + i) == x[i]
  {
    assert t[p..p + |x|][i] == t[p + i];
  }

  lemma SitSplit(t: string, p: nat, a: string, b: string)
    requires Sits(t, p, a + b)
    ensures Sits(t, p, a) && Sits(t, p + |a|, b)
  {
    assert t[p..p + |a|] == t[p..p + |a + b|][..|a|] == a;
    assert t[p + |a|..p + |a| + |b|] == t[p..p + |a + b|][|a|..] == b;
  }

  /** A plain name is passed over up to its closing brace, and blanks are not looked for in vain. */
  lemma {:induction false} NameScan(t: string, p: nat, name: string, i: nat, end: nat)
    requires Sits(t, p, name) && i <= |name| && p + |name| < end <= |t| && t[p + |name|] == '}'
    requires forall j | 0 <= j < |name| :: !Blank(name[j]) && name[j] != '}'
    ensures NameEnd(t, p + i, end) == p + |name|
    decreases |name| - i
  {
    if i < |name| {
      SitAt(t, p, name, i);
      NameScan(t, p, name, i + 1, end);
    }
  }

  /** From inside a stretch without closing braces the next close is right behind it. */
  lemma {:induction false} CloseScan(t: string, p: nat, x: string, i: nat, end: nat)
    requires Sits(t, p, x) && i <= |x| && p + |x| < end <= |t| && Closes(t, p + |x|)
    requires forall j | 0 <= j < |x| :: x[j] != '}'
    ensures PastClose(t, p + i, end) == p + |x| + 2
    decreases |x| - i
  {
    if i < |x| {
      SitAt(t, p, x, i);
      CloseScan(t, p, x, i + 1, end);
    }
  }

  lemma {:induction false} Close3Scan(t: string, p: nat, x: string, i: nat)
    requires Sits(t, p, x) && i <= |x| && Sits(t, p + |x|, "}}}")
    requires forall j | 0 <= j < |x| :: x[j] != '}'
    ensures PastClose3(t, p + i) == p + |x| + 3
    decreases |x| - i
  {
    if i < |x| {
      SitAt(t, p, x, i);
      Close3Scan(t, p, x, i + 1);
    } else {
      SitAt(t, p + |x|, "}}}", 0);
      SitAt(t, p + |x|, "}}}", 1);
      SitAt(t, p + |x|, "}}}", 2);
    }
  }

  /** A printed section tag, comment or closing tag, taken apart. */
  lemma BoundParts(t: string, p: nat, kind: char, name: string)
    requires Sits(t, p, BoundText(kind, name))
    ensures Opens(t, p) && p + 5 + |name| <= |t| && t[p + 2] == kind && Sits(t, p + 3, name)
    ensures Closes(t, p + 3 + |name|) && t[p + 3 + |name|] == '}'
  {
    var x := BoundText(kind, name);
    SitAt(t, p, x, 0);
    SitAt(t, p, x, 1);
    SitAt(t, p, x, 2);
    SitSplit(t, p, ['{', '{', kind], name + "}}");
    SitSplit(t, p + 3, name, "}}");
    SitAt(t, p + 3 + |name|, "}}", 0);
    SitAt(t, p + 3 + |name|, "}}", 1);
  }

  lemma VarParts(t: string, p: nat, name: string, raw: bool)
    requires Sits(t, p, VarText(name, raw)) && PlainName(name)
    ensures var b := if raw then 3 else 2;
            && Opens(t, p) && p + 2 * b + |name| <= |t| && Sits(t, p + b, name) && (raw ==> t[p + 2] == '{')
            && Closes(t, p + b + |name|) && t[p + b + |name|] == '}' && t[p + b] == name[0]
            && (raw ==> Sits(t, p + b + |name|, "}}}") && At(t, p + b + |name| + 2) == '}')
  {
    if raw {
      RawParts(t, p, name);
    } else {
      PlainParts(t, p, name);
    }
  }

  lemma PlainParts(t: string, p: nat, name: string)
    requires Sits(t, p, "{{" + (name + "}}")) && name != []
    ensures Opens(t, p) && p + 4 + |name| <= |t| && Sits(t, p + 2, name)
    ensures Closes(t, p + 2 + |name|) && t[p + 2 + |name|] == '}' && t[p + 2] == name[0]
  {
    SitSplit(t, p, "{{", name + "}}");
    SitSplit(t, p + 2, name, "}}");
    SitAt(t, p, "{{", 0);
    SitAt(t, p, "{{", 1);
    SitAt(t, p + 2, name, 0);
    SitAt(t, p + 2 + |name|, "}}", 0);
    SitAt(t, p + 2 + |name|, "}}", 1);
  }

  lemma RawParts(t: string, p: nat, name: string)
    requires Sits(t, p, "{{{" + (name + "}}}")) && name != []
    ensures Opens(t, p) && p + 6 + |name| <= |t| && Sits(t, p + 3, name) && t[p + 2] == '{'
    ensures Closes(t, p + 3 + |name|) && t[p + 3 + |name|] == '}' && t[p + 3] == name[0]
    ensures Sits(t, p + 3 + |name|, "}}}") && At(t, p + 3 + |name| + 2) == '}'
  {
    SitSplit(t, p, "{{{", name + "}}}");
    SitSplit(t, p + 3, name, "}}}");
    SitAt(t, p, "{{{", 0);
    SitAt(t, p, "{{{", 1);
    SitAt(t, p, "{{{", 2);
    SitAt(t, p + 3, name, 0);
    SitAt(t, p + 3 + |name|, "}}}", 0);
    SitAt(t, p + 3 + |name|, "}}}", 1);
    SitAt(t, p + 3 + |name|, "}}}", 2);
  }

  // --------------------------------------------- sections end where they were closed

  lemma MarkBound(t: string, p: nat, kind: char, name: string)
    requires Sits(t, p, BoundText(kind, name)) && PlainName(name) && (kind == '#' || kind == '^' || kind == '/')
    ensures p < |t|
    ensures MarkAt(t, p) == Bound(kind != '/', p + 3, p + 3 + |name|, p + 5 + |name|) && t[p + 3..p + 3 + |name|] == name
  {
    BoundParts(t, p, kind, name);
    SitAt(t, p + 3, name, 0);
    NameScan(t, p + 3, name, 0, |t|);
  }

  lemma MarkVar(t: string, p: nat, name: string, raw: bool)
    requires Sits(t, p, VarText(name, raw)) && PlainName(name)
    ensures p < |t| && MarkAt(t, p) == Other(p + |VarText(name, raw)|)
  {
    VarParts(t, p, name, raw);
    if raw {
      Close3Scan(t, p + 3, name, 0);
    } else {
      CloseScan(t, p + 2, name, 0, |t|);
    }
  }

  lemma MarkComment(t: string, p: nat, text: string)
    requires Sits(t, p, BoundText('!', text)) && PlainText(text)
    ensures p < |t| && MarkAt(t, p) == Other(p + 5 + |text|)
  {
    BoundParts(t, p, '!', text);
    assert t[p + 2] != '}';
    CloseScan(t, p + 3, text, 0, |t|);
    assert PastClose(t, p + 2, |t|) == PastClose(t, p + 3, |t|);
  }

  function Length(tree: Tree): (n: nat) {
    match tree
    case Nothing => 0
    case Text(text, next) => |text| + Length(next)
    case Comment(text, next) => 5 + |text| + Length(next)
    case Var(name, raw, next) => (if raw then 6 else 4) + |name| + Length(next)
    case Section(name, _, body, next) => 10 + 2 * |name| + Length(body) + Length(next)
  }

  function TagLength(name: string, raw: bool): (n: nat) { (if raw then 6 else 4) + |name| }

  /** A stretch of printed text. */
  datatype Piece = Chars(text: string) | VarTag(name: string, raw: bool) | BoundTag(kind: char, name: string)

  function PieceText(x: Piece): (s: string) {
    match x
    case Chars(text) => text
    case VarTag(name, raw) => VarText(name, raw)
    case BoundTag(kind, name) => BoundText(kind, name)
  }

  /** Which pieces a text has where. */
  type Layout = (nat, Piece) -> bool

  ghost predicate IsLayout(has: Layout, t: string) {
    forall p: nat, x: Piece {:trigger Sits(t, p, PieceText(x))} :: has(p, x) == Sits(t, p, PieceText(x))
  }

  ghost function LayoutOf(t: string): (has: Layout) {
    (p: nat, x: Piece) => Sits(t, p, PieceText(x))
  }

  /** The tree is printed at `p`. */
  ghost predicate Printed(has: Layout, p: nat, tree: Tree)
    decreases tree
  {
    match tree
    case Nothing => true
    case Text(text, next) => has(p, Chars(text)) && Printed(has, p + |text|, next)
    case Comment(text, next) => has(p, BoundTag('!', text)) && Printed(has, p + 5 + |text|, next)
    case Var(name, raw, next) => has(p, VarTag(name, raw)) && Printed(has, p + TagLength(name, raw), next)
    case Section(name, inverted, body, next) =>
      var b := p + 5 + |name|;
      var c := b + Length(body);
      && has(p, BoundTag(OpenKind(inverted), name)) && Printed(has, b, body)
      && has(c, BoundTag('/', name)) && Printed(has, c + 5 + |name|, next)
  }

  lemma {:induction false} PrintLength(tree: Tree)
    ensures |Print(tree)| == Length(tree)
    decreases tree
  {
    match tree
    case Nothing =>
    case Text(text, next) => PrintLength(next);
    case Comment(text, next) => PrintLength(next);
    case Var(name, raw, next) => PrintLength(next);
    case Section(name, inverted, body, next) =>
      PrintLength(body);
      PrintLength(next);
  }

  type Holder = (nat, string) -> bool

  ghost predicate IsHolder(sits: Holder, t: string) {
    forall p: nat, x: string {:trigger Sits(t, p, x)} :: sits(p, x) == Sits(t, p, x)
  }

  ghost function HolderOf(t: string): (sits: Holder) {
    (p: nat, x: string) => Sits(t, p, x)
  }

  ghost predicate BothOf(has: Layout, sits: Holder, t: string) {
    IsLayout(has, t) && IsHolder(sits, t)
  }

  lemma HasFirst(has: Layout, sits: Holder, t: string, p: nat, x: Piece, rest: string, all: string)
    requires BothOf(has, sits, t) && sits(p, all) && all == PieceText(x) + rest
    ensures has(p, x) && sits(p + PieceLength(x), rest)
  {
    assert Sits(t, p, all);
    SitSplit(t, p, PieceText(x), rest);
  }

  lemma HasTwo(sits: Holder, t: string, p: nat, a: string, b: string)
    requires IsHolder(sits, t) && sits(p, a + b)
    ensures sits(p, a) && sits(p + |a|, b)
  {
    assert Sits(t, p, a + b);
    SitSplit(t, p, a, b);
  }

  function PieceLength(x: Piece): (n: nat)
    ensures n == |PieceText(x)|
  {
    match x
    case Chars(text) => |text|
    case VarTag(n, raw) => TagLength(n, raw)
    case BoundTag(_, n) => 5 + |n|
  }

  predicate Simple(tree: Tree) { tree.Text? || tree.Comment? || tree.Var? }

  /** The first piece of a tree that does not start with a section. */
  function Head(tree: Tree): (x: Piece)
    requires Simple(tree)
  {
    match tree
    case Text(text, _) => Chars(text)
    case Comment(text, _) => BoundTag('!', text)
    case Var(name, raw, _) => VarTag(name, raw)
  }

  lemma PrintSimple(tree: Tree)
    requires Simple(tree)
    ensures Print(tree) == PieceText(Head(tree)) + Print(tree.next)
  {
  }

  lemma SimpleParts(has: Layout, p: nat, tree: Tree)
    requires Simple(tree)
    ensures Printed(has, p, tree) == (has(p, Head(tree)) && Printed(has, p + PieceLength(Head(tree)), tree.next))
    ensures Length(tree) == PieceLength(Head(tree)) + Length(tree.next)
    ensures Valid(tree) ==> ValidPiece(Head(tree)) && Valid(tree.next)
  {
  }

  /** A printed tree has its pieces where they belong. */
  lemma {:induction false} PrintIsPrinted(has: Layout, sits: Holder, t: string, p: nat, tree: Tree)
    requires BothOf(has, sits, t) && sits(p, Print(tree))
    ensures Printed(has, p, tree)
    decreases tree, 1
  {
    if Simple(tree) {
      SimpleParts(has, p, tree);
      PrintSimple(tree);
      HasFirst(has, sits, t, p, Head(tree), Print(tree.next), Print(tree));
      PrintIsPrinted(has, sits, t, p + PieceLength(Head(tree)), tree.next);
    } else if tree.Section? {
      SectionIsPrinted(has, sits, t, p, tree);
    }
  }

  lemma {:induction false} SectionIsPrinted(has: Layout, sits: Holder, t: string, p: nat, tree: Tree)
    requires BothOf(has, sits, t) && tree.Section? && sits(p, Print(tree))
    ensures Printed(has, p, tree)
    decreases tree, 0
  {
    SectionPieces(has, sits, t, p, tree.name, tree.inverted, Print(tree.body), Print(tree.next), Print(tree));
    PrintLength(tree.body);
    PrintIsPrinted(has, sits, t, p + 5 + |tree.name|, tree.body);
    PrintIsPrinted(has, sits, t, p + 5 + |tree.name| + Length(tree.body) + 5 + |tree.name|, tree.next);
  }

  lemma SectionPieces(has: Layout, sits: Holder, t: string, p: nat, name: string, inverted: bool, body: string, next: string, all: string)
    requires BothOf(has, sits, t) && sits(p, all)
    requires all == BoundText(OpenKind(inverted), name) + (body + (BoundText('/', name) + next))
    ensures has(p, BoundTag(OpenKind(inverted), name)) && sits(p + 5 + |name|, body)
    ensures has(p + 5 + |name| + |body|, BoundTag('/', name))
    ensures sits(p + 5 + |name| + |body| + 5 + |name|, next)
  {
    var tail := BoundText('/', name) + next;
    HasFirst(has, sits, t, p, BoundTag(OpenKind(inverted), name), body + tail, all);
    HasTwo(sits, t, p + 5 + |name|, body, tail);
    HasFirst(has, sits, t, p + 5 + |name| + |body|, BoundTag('/', name), next, tail);
  }

  type Finder = (nat, nat) -> Place

  ghost predicate IsFinder(f: Finder, t: string, name: string) {
    forall p: nat, depth: nat {:trigger FindEnd(t, p, name, depth)} :: f(p, depth) == FindEnd(t, p, name, depth)
  }

  lemma FindAtOther(f: Finder, t: string, p: nat, name: string, depth: nat, next: nat)
    requires IsFinder(f, t, name) && depth > 0 && p < |t| && MarkAt(t, p) == Other(next)
    ensures f(p, depth) == f(next, depth)
  {
    assert FindEnd(t, p, name, depth) == FindEnd(t, next, name, depth);
  }

  lemma {:induction false} FindPastLetters(f: Finder, t: string, p: nat, text: string, i: nat, name: string, depth: nat)
    requires IsFinder(f, t, name) && Sits(t, p, text) && PlainText(text) && i <= |text| && depth > 0
    ensures f(p + i, depth) == f(p + |text|, depth)
    decreases |text| - i
  {
    if i < |text| {
      SitAt(t, p, text, i);
      FindAtOther(f, t, p + i, name, depth, p + i + 1);
      FindPastLetters(f, t, p, text, i + 1, name, depth);
    }
  }

  lemma FindPastText(f: Finder, has: Layout, t: string, p: nat, text: string, name: string, depth: nat)
    requires IsFinder(f, t, name) && IsLayout(has, t) && has(p, Chars(text)) && PlainText(text) && depth > 0
    ensures f(p, depth) == f(p + |text|, depth)
  {
    assert Sits(t, p, PieceText(Chars(text)));
    FindPastLetters(f, t, p, text, 0, name, depth);
  }

  lemma FindPastComment(f: Finder, has: Layout, t: string, p: nat, text: string, name: string, depth: nat)
    requires IsFinder(f, t, name) && IsLayout(has, t) && has(p, BoundTag('!', text)) && PlainText(text) && depth > 0
    ensures f(p, depth) == f(p + 5 + |text|, depth)
  {
    assert Sits(t, p, PieceText(BoundTag('!', text)));
    MarkComment(t, p, text);
    FindAtOther(f, t, p, name, depth, p + 5 + |text|);
  }

  lemma VarSits(has: Layout, t: string, p: nat, n: string, raw: bool)
    requires IsLayout(has, t) && has(p, VarTag(n, raw))
    ensures Sits(t, p, VarText(n, raw))
  {
    assert Sits(t, p, PieceText(VarTag(n, raw)));
  }

  lemma FindPastVar(f: Finder, has: Layout, t: string, p: nat, n: string, raw: bool, name: string, depth: nat)
    requires IsFinder(f, t, name) && IsLayout(has, t) && has(p, VarTag(n, raw)) && PlainName(n) && depth > 0
    ensures f(p, depth) == f(p + TagLength(n, raw), depth)
  {
    VarSits(has, t, p, n, raw);
    MarkVar(t, p, n, raw);
    FindAtOther(f, t, p, name, depth, p + TagLength(n, raw));
  }

  lemma FindAtMark(f: Finder, t: string, p: nat, name: string, depth: nat, opening: bool, from: nat, to: nat, next: nat)
    requires IsFinder(f, t, name) && depth > 0 && p < |t| && MarkAt(t, p) == Bound(opening, from, to, next)
    ensures t[from..to] != name ==> f(p, depth) == f(next, depth)
    ensures t[from..to] == name && opening ==> f(p, depth) == f(next, depth + 1)
    ensures t[from..to] == name && !opening ==> f(p, depth) == if depth == 1 then There(p) else f(next, depth - 1)
  {
    var here := FindEnd(t, p, name, depth);
    if t[from..to] != name {
      assert here == FindEnd(t, next, name, depth);
    } else if opening {
      assert here == FindEnd(t, next, name, depth + 1);
    } else if depth > 1 {
      assert here == FindEnd(t, next, name, depth - 1);
    }
  }

  lemma FindAtBound(f: Finder, has: Layout, t: string, p: nat, kind: char, n: string, name: string, depth: nat)
    requires IsFinder(f, t, name) && IsLayout(has, t) && has(p, BoundTag(kind, n)) && PlainName(n) && depth > 0
    requires kind == '#' || kind == '^' || kind == '/'
    ensures n != name ==> f(p, depth) == f(p + 5 + |n|, depth)
    ensures n == name && kind != '/' ==> f(p, depth) == f(p + 5 + |n|, depth + 1)
    ensures n == name && kind == '/' ==> f(p, depth) == if depth == 1 then There(p) else f(p + 5 + |n|, depth - 1)
  {
    assert Sits(t, p, PieceText(BoundTag(kind, n)));
    MarkBound(t, p, kind, n);
    FindAtMark(f, t, p, name, depth, kind != '/', p + 3, p + 3 + |n|, p + 5 + |n|);
  }

  ghost predicate Setup(f: Finder, has: Layout, t: string, name: string) {
    IsFinder(f, t, name) && IsLayout(has, t)
  }

  predicate ValidPiece(x: Piece) {
    match x
    case Chars(text) => PlainText(text)
    case VarTag(n, _) => PlainName(n)
    case BoundTag(_, n) => PlainText(n)
  }

  /** One piece passed over. */
  lemma FindPastPiece(f: Finder, has: Layout, t: string, p: nat, x: Piece, name: string, depth: nat)
    requires Setup(f, has, t, name) && has(p, x) && depth > 0 && !(x.BoundTag? && x.kind != '!')
    requires ValidPiece(x)
    ensures f(p, depth) == f(p + PieceLength(x), depth)
  {
    match x
    case Chars(text) => FindPastText(f, has, t, p, text, name, depth);
    case VarTag(n, raw) => FindPastVar(f, has, t, p, n, raw, name, depth);
    case BoundTag(_, text) => FindPastComment(f, has, t, p, text, name, depth);
  }

  /** A section passed over, given that its body is. */
  lemma FindPastBounds(f: Finder, has: Layout, t: string, p: nat, inverted: bool, n: string, c: nat, name: string, depth: nat)
    requires Setup(f, has, t, name) && depth > 0 && PlainName(n)
    requires has(p, BoundTag(OpenKind(inverted), n)) && has(c, BoundTag('/', n))
    requires var inner := if n == name then depth + 1 else depth; f(p + 5 + |n|, inner) == f(c, inner)
    ensures f(p, depth) == f(c + 5 + |n|, depth)
  {
    FindAtBound(f, has, t, p, OpenKind(inverted), n, name, depth);
    FindAtBound(f, has, t, c, '/', n, name, if n == name then depth + 1 else depth);
  }

  lemma FindPastSimple(f: Finder, has: Layout, t: string, p: nat, tree: Tree, name: string, depth: nat) returns (q: nat)
    requires Setup(f, has, t, name) && Simple(tree) && Printed(has, p, tree) && Valid(tree) && depth > 0
    ensures f(p, depth) == f(q, depth) && q + Length(tree.next) == p + Length(tree)
    ensures Printed(has, q, tree.next) && Valid(tree.next)
  {
    SimpleParts(has, p, tree);
    q := p + PieceLength(Head(tree));
    FindPastPiece(f, has, t, p, Head(tree), name, depth);
  }

  /** A whole tree is passed over with the depth it was met with, whatever names it nests. */
  lemma {:induction false} FindPastTree(f: Finder, has: Layout, t: string, p: nat, tree: Tree, name: string, depth: nat)
    requires Setup(f, has, t, name) && Printed(has, p, tree) && Valid(tree) && depth > 0
    ensures f(p, depth) == f(p + Length(tree), depth)
    decreases tree, 1
  {
    if Simple(tree) {
      var q := FindPastSimple(f, has, t, p, tree, name, depth);
      FindPastTree(f, has, t, q, tree.next, name, depth);
    } else if tree.Section? {
      FindPastSection(f, has, t, p, tree, name, depth);
    }
  }

  lemma {:induction false} FindPastSection(f: Finder, has: Layout, t: string, p: nat, tree: Tree, name: string, depth: nat)
    requires Setup(f, has, t, name) && tree.Section? && Printed(has, p, tree) && Valid(tree) && depth > 0
    ensures f(p, depth) == f(p + Length(tree), depth)
    decreases tree, 0
  {
    var n := tree.name;
    var c := p + 5 + |n| + Length(tree.body);
    FindPastTree(f, has, t, p + 5 + |n|, tree.body, name, if n == name then depth + 1 else depth);
    FindPastBounds(f, has, t, p, tree.inverted, n, c, name, depth);
    FindPastTree(f, has, t, c + 5 + |n|, tree.next, name, depth);
  }

  function EndFinder(t: string, name: string): (f: Finder) {
    (p: nat, depth: nat) => FindEnd(t, p, name, depth)
  }

  /** So the end of a section is its own closing tag, however the tags in it are named. */
  lemma FindOwnEnd(has: Layout, t: string, p: nat, n: string, body: Tree)
    requires IsLayout(has, t) && Printed(has, p, body) && Valid(body) && PlainName(n)
    requires has(p + Length(body), BoundTag('/', n))
    ensures FindEnd(t, p, n, 1) == There(p + Length(body))
  {
    OwnEnd(EndFinder(t, n), has, t, p, n, body);
  }

  lemma OwnEnd(f: Finder, has: Layout, t: string, p: nat, n: string, body: Tree)
    requires Setup(f, has, t, n) && Printed(has, p, body) && Valid(body) && PlainName(n)
    requires has(p + Length(body), BoundTag('/', n))
    ensures f(p, 1) == There(p + Length(body))
  {
    FindPastTree(f, has, t, p, body, n, 1);
    FindAtBound(f, has, t, p + Length(body), '/', n, n, 1);
  }

  // ------------------------------------------------------------ tags as the renderer sees them

  lemma TagVar(t: string, p: nat, end: nat, name: string, raw: bool)
    requires Sits(t, p, VarText(name, raw)) && PlainName(name) && p + |VarText(name, raw)| <= end <= |t|
    ensures var b := if raw then 3 else 2;
            && TagAt(t, p, end) == Variable(raw, p + b, p + b + |name|, p + |VarText(name, raw)|)
            && t[p + b..p + b + |name|] == name
  {
    VarParts(t, p, name, raw);
    NameScan(t, p + (if raw then 3 else 2), name, 0, end);
  }

  lemma TagOpen(t: string, p: nat, end: nat, name: string, inverted: bool)
    requires Sits(t, p, BoundText(OpenKind(inverted), name)) && PlainName(name) && p + 5 + |name| <= end <= |t|
    ensures TagAt(t, p, end) == Opening(inverted, p + 3, p + 3 + |name|, p + 5 + |name|)
    ensures t[p + 3..p + 3 + |name|] == name
  {
    BoundParts(t, p, OpenKind(inverted), name);
    SitAt(t, p + 3, name, 0);
    NameScan(t, p + 3, name, 0, end);
  }

  lemma TagComment(t: string, p: nat, end: nat, text: string)
    requires Sits(t, p, BoundText('!', text)) && PlainText(text) && p + 5 + |text| <= end <= |t|
    ensures TagAt(t, p, end) == Ignored(p + 5 + |text|)
  {
    BoundParts(t, p, '!', text);
    CloseScan(t, p + 3, text, 0, end);
    assert PastClose(t, p + 2, end) == PastClose(t, p + 3, end);
  }

  /** From a closing tag the cursor moves right behind it. */
  lemma PastClosingTag(t: string, p: nat, end: nat, name: string)
    requires Sits(t, p, BoundText('/', name)) && PlainName(name) && p + 5 + |name| <= end <= |t|
    ensures PastClose(t, p, end) == p + 5 + |name|
  {
    BoundParts(t, p, '/', name);
    CloseScan(t, p + 3, name, 0, end);
    assert PastClose(t, p + 2, end) == PastClose(t, p + 3, end);
    assert PastClose(t, p + 1, end) == PastClose(t, p + 2, end);
  }

  /** The loop of find_section_end: a cursor and a nesting depth. */
  method FindLoop(t: string, from: nat, name: string, ghost f: Finder) returns (r: Place)
    requires IsFinder(f, t, name)
    ensures r == f(from, 1)
  {
    var p, depth: nat := from, 1;
    while p < |t|
      invariant depth > 0 && f(from, 1) == f(p, depth)
      decreases |t| - p
    {
      match MarkAt(t, p)
      case Other(next) =>
        FindAtOther(f, t, p, name, depth, next);
        p := next;
      case Bound(opening, a, b, next) =>
        FindAtMark(f, t, p, name, depth, opening, a, b, next);
        if t[a..b] == name {
          if !opening {
            depth := depth - 1;
            if depth == 0 {
              return There(p);
            }
          } else {
            depth := depth + 1;
          }
        }
        p := next;
    }
    assert FindEnd(t, p, name, depth) == Nowhere;
    return Nowhere;
  }

  /** find_section_end. */
  method FindSectionEnd(t: string, from: nat, name: string) returns (r: Place)
    ensures r == FindEnd(t, from, name, 1)
  {
    r := FindLoop(t, from, name, EndFinder(t, name));
  }
}
