/**
 The template language as template.h documents it, piece by piece: what a tree looks like in text, which
 values count as true, what is written for them, and what a name refers to.
 */
module TemplateMeanings {
  import opened Sequences
  import opened TemplateText
  import opened TemplateRender

  // ---------------------------------------------------------------------------- syntax

  lemma SyntaxIs(name: string, text: string, next: Tree)
    ensures Print(Nothing) == "" && Print(Text(text, next)) == text + Print(next)
    ensures Print(Var(name, false, next)) == "{{" + name + "}}" + Print(next)
    ensures Print(Var(name, true, next)) == "{{{" + name + "}}}" + Print(next)
    ensures Print(Comment(text, next)) == "{{!" + text + "}}" + Print(next)
  {
    TagIs('!', text);
    assert VarText(name, false) == "{{" + name + "}}" && VarText(name, true) == "{{{" + name + "}}}";
  }

  lemma SectionSyntaxIs(name: string, inverted: bool, body: Tree, next: Tree)
    ensures Print(Section(name, inverted, body, next)) ==
            (if inverted then "{{^" else "{{#") + name + "}}" + Print(body) + "{{/" + name + "}}" + Print(next)
  {
    TagIs(if inverted then '^' else '#', name);
    TagIs('/', name);
    var open, close := (if inverted then "{{^" else "{{#") + name + "}}", "{{/" + name + "}}";
    assert "{{" + ['^'] == "{{^" && "{{" + ['#'] == "{{#" && "{{" + ['/'] == "{{/";
    SectionText(open, Print(body), "{{/", name, Print(next));
    assert Print(Section(name, inverted, body, next)) == open + (Print(body) + (close + Print(next)));
  }

  lemma TagIs(kind: char, name: string)
    ensures BoundText(kind, name) == "{{" + [kind] + name + "}}"
  {
  }

  lemma SectionText(open: string, body: string, slash: string, name: string, rest: string)
    ensures open + (body + ((slash + name + "}}") + rest)) == open + body + slash + name + "}}" + rest
  {
    var close := slash + name + "}}";
    ConcatAssoc(open + body + slash, name, "}}");
    ConcatAssoc(open + body, slash, name + "}}");
    ConcatAssoc(slash, name, "}}");
    ConcatAssoc(open + body, close, rest);
    ConcatAssoc(open, body, close + rest);
  }

  // ----------------------------------------------------------------- which part is written

  /**
   A section and its inverted twin: one of them writes nothing. A false value, null, zero, an empty
   string or list and a missing name leave the body to the inverted one; a list that is not empty is
   gone through item by item.
   */
  lemma SectionTwins(body: Tree, v: Ref, frames: seq<Ref>)
    ensures v == None || v == Some(Null) || v == Some(Bool(false)) || v == Some(Int(0)) || v == Some(Str("")) || v == Some(List([])) ==>
              EvalSection(body, v, false, frames) == "" && EvalSection(body, v, true, frames) == Eval(body, [v] + frames)
    ensures v == Some(Bool(true)) || (v.Some? && v.value.Int? && v.value.i != 0)
            || (v.Some? && v.value.Str? && v.value.s != "") || (v.Some? && v.value.Map?) ==>
              EvalSection(body, v, true, frames) == "" && EvalSection(body, v, false, frames) == Eval(body, [v] + frames)
    ensures v.Some? && v.value.List? && v.value.items != [] ==>
              && EvalSection(body, v, true, frames) == ""
              && EvalSection(body, v, false, frames) == EvalItems(body, v.value.items, frames)
  {
  }

  /** The items one after the other, each as the innermost frame. */
  lemma {:induction false} ItemsInOrder(body: Tree, xs: seq<Value>, x: Value, frames: seq<Ref>)
    ensures EvalItems(body, [], frames) == ""
    ensures EvalItems(body, xs + [x], frames) == EvalItems(body, xs, frames) + Eval(body, [Some(x)] + frames)
    decreases |xs|
  {
    if xs == [] {
      assert [] + [x] == [x] && [x][1..] == [];
      assert EvalItems(body, [x], frames) == Eval(body, [Some(x)] + frames) + EvalItems(body, [], frames);
    } else {
      assert (xs + [x])[1..] == xs[1..] + [x] && (xs + [x])[0] == xs[0];
      ItemsInOrder(body, xs[1..], x, frames);
      ConcatAssoc(Eval(body, [Some(xs[0])] + frames), EvalItems(body, xs[1..], frames), Eval(body, [Some(x)] + frames));
    }
  }

  // ----------------------------------------------------------------------------- output

  lemma {:induction false} EscapeParts(a: string, b: string)
    ensures Escape(a + b) == Escape(a) + Escape(b)
  {
    if a == [] {
      assert a + b == b;
    } else {
      assert (a + b)[1..] == a[1..] + b && (a + b)[0] == a[0];
      EscapeParts(a[1..], b);
      ConcatAssoc(EscapeChar(a[0]), Escape(a[1..]), Escape(b));
    }
  }

  /** Five characters are replaced, each by its own entity; any other one stays. */
  lemma EscapeIs(c: char)
    ensures Escape("<") == "&lt;" && Escape(">") == "&gt;" && Escape("&") == "&amp;"
    ensures Escape("\"") == "&quot;" && Escape("'") == "&#39;"
    ensures c != '<' && c != '>' && c != '&' && c != '"' && c != '\'' ==> Escape([c]) == [c]
  {
    EscapeOne('<');
    EscapeOne('>');
    EscapeOne('&');
    EscapeOne('"');
    EscapeOne('\'');
    EscapeOne(c);
  }

  lemma EscapeOne(c: char)
    ensures Escape([c]) == EscapeChar(c)
  {
    assert [c][1..] == [];
    assert Escape([c]) == EscapeChar(c) + Escape([]);
  }

  /** A decimal number read digit by digit. */
  function ReadDigits(s: string): (n: int) {
    if s == [] then 0 else ReadDigits(s[..|s| - 1]) * 10 + (s[|s| - 1] as int - '0' as int)
  }

  /** An integer is written in decimal digits, without leading zeros. */
  lemma {:induction false} DigitsAre(n: nat)
    ensures ReadDigits(Digits(n)) == n && Digits(n) != []
    ensures forall i | 0 <= i < |Digits(n)| :: '0' <= Digits(n)[i] <= '9'
    ensures n > 0 ==> Digits(n)[0] != '0'
  {
    if n < 10 {
      assert Digits(n)[..0] == [];
    } else {
      DigitsAre(n / 10);
      assert Digits(n)[..|Digits(n)| - 1] == Digits(n / 10);
    }
  }

  /** What is written for each kind of value; only strings are escaped, and not in triple braces. */
  lemma EmitIs(s: string, n: nat, items: seq<Value>, pairs: seq<(string, Value)>, raw: bool)
    ensures Emit(Some(Str(s)), true) == s && Emit(Some(Str(s)), false) == Escape(s)
    ensures Emit(Some(Bool(true)), raw) == "true" && Emit(Some(Bool(false)), raw) == "false"
    ensures Emit(Some(Int(n)), raw) == Digits(n) && (n > 0 ==> Emit(Some(Int(0 - n as int)), raw) == "-" + Digits(n))
    ensures Emit(None, raw) == "" && Emit(Some(Null), raw) == "" && Emit(Some(List(items)), raw) == "" && Emit(Some(Map(pairs)), raw) == ""
  {
  }

  // ------------------------------------------------------------------------------ names

  predicate NoDot(name: string) { forall i | 0 <= i < |name| :: name[i] != '.' }

  lemma {:induction false} PlainSegments(name: string)
    requires NoDot(name)
    ensures Segments(name) == [name]
  {
    if name != [] {
      PlainSegments(name[1..]);
      assert [name[0]] + name[1..] == name;
    }
  }

  /** The value a frame has for a key: that of the first pair with the key. */
  lemma {:induction false} FirstPair(pairs: seq<(string, Value)>, key: string, i: nat)
    requires i < |pairs| && pairs[i].0 == key && forall j | 0 <= j < i :: pairs[j].0 != key
    ensures MapGet(Some(Map(pairs)), key) == Some(pairs[i].1)
  {
    if i > 0 {
      FirstPair(pairs[1..], key, i - 1);
      assert MapGet(Some(Map(pairs[1..])), key) == PairGet(pairs[1..], key);
    }
  }

  lemma {:induction false} FrameIs(frames: seq<Ref>, key: string, i: nat)
    requires i <= |frames| && forall j | 0 <= j < i :: MapGet(frames[j], key) == None
    ensures i < |frames| && MapGet(frames[i], key).Some? ==> FrameGet(frames, key) == MapGet(frames[i], key)
    ensures i == |frames| ==> FrameGet(frames, key) == None
  {
    if i > 0 {
      FrameIs(frames[1..], key, i - 1);
    }
  }

  /** A name without a dot is looked for from the innermost frame outwards. */
  lemma NameIs(frames: seq<Ref>, name: string, i: nat)
    requires NoDot(name) && i <= |frames| && forall j | 0 <= j < i :: MapGet(frames[j], name) == None
    ensures i < |frames| && MapGet(frames[i], name).Some? ==> Lookup(frames, name) == MapGet(frames[i], name)
    ensures i == |frames| ==> Lookup(frames, name) == None
    ensures frames != [] ==> Lookup(frames, ".") == frames[0]
  {
    PlainSegments(name);
    FrameIs(frames, name, i);
    assert name != ".";
  }

  lemma {:induction false} WalkMore(v: Ref, path: seq<string>, last: string)
    ensures Walk(v, path + [last]) == MapGet(Walk(v, path), last)
    decreases |path|
  {
    if path == [] {
      assert [] + [last] == [last] && [last][1..] == [];
      assert Walk(v, [last]) == Walk(MapGet(v, last), []);
    } else {
      assert (path + [last])[1..] == path[1..] + [last] && (path + [last])[0] == path[0];
      WalkMore(MapGet(v, path[0]), path[1..], last);
    }
  }

  lemma {:induction false} LastSegment(a: string, b: string)
    requires NoDot(b)
    ensures Segments(a + "." + b) == Segments(a) + [b]
  {
    var s := a + "." + b;
    PlainSegments(b);
    if a == [] {
      assert s[0] == '.' && s[1..] == b;
    } else {
      LastSegment(a[1..], b);
      assert s[1..] == a[1..] + "." + b && s[0] == a[0];
    }
  }

  /** Behind a dot, the name goes down into the map found so far. */
  lemma DottedIs(frames: seq<Ref>, a: string, b: string)
    requires a != [] && a != "." && NoDot(b)
    ensures Lookup(frames, a + "." + b) == MapGet(Lookup(frames, a), b)
  {
    LastSegment(a, b);
    var segs := Segments(a);
    assert (segs + [b])[0] == segs[0] && (segs + [b])[1..] == segs[1..] + [b];
    WalkMore(FrameGet(frames, segs[0]), segs[1..], b);
    assert |a + "." + b| > 1;
  }
}
