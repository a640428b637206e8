/**
 gpgstats' component finder (dotrees.c): a depth-first search over the keys each key signs,
 then a second one over the signatures, taking roots in the order the first one finished them.
 */
module Components {
  import opened Sequences
  import opened KeyGraph

  ghost function Elems(s: seq<KeyId>): (r: set<KeyId>) {
    set x | x in s
  }

  ghost predicate Extends(l: seq<KeyId>, tail: seq<KeyId>) {
    |tail| <= |l| && l[|l| - |tail|..] == tail
  }

  /**
   Position i of a finish list: everything up to j is reachable from it, and nothing finished
   before j was reached has an edge back into that stretch.
   */
  ghost predicate Split(g: Graph, l: seq<KeyId>, i: nat, j: nat)
    requires g.Valid()
  {
    && i < j <= |l|
    && (forall k | i <= k < j :: g.Reach(Signs, l[i], l[k]))
    && (forall a, b | j <= a < |l| && i <= b < j :: !g.Edge(Signs, l[a], l[b]))
  }

  ghost predicate HasSplit(g: Graph, l: seq<KeyId>, i: nat)
    requires g.Valid()
  {
    exists j: nat :: Split(g, l, i, j)
  }

  ghost predicate GoodOrder(g: Graph, l: seq<KeyId>)
    requires g.Valid()
  {
    forall i | 0 <= i < |l| :: HasSplit(g, l, i)
  }

  /** A vertex that finishes after `found`, on top of what was finished before it started. */
  lemma GoodOrderCons(g: Graph, v: KeyId, found: seq<KeyId>, before: seq<KeyId>)
    requires g.Valid() && GoodOrder(g, found + before) && v in g.nodes
    requires forall x | x in found :: g.Reach(Signs, v, x)
    requires forall x, y | x in before && (y == v || y in found) :: !g.Edge(Signs, x, y)
    ensures GoodOrder(g, [v] + found + before)
  {
    var m := found + before;
    var l := [v] + found + before;
    assert l == [v] + m;
    forall i | 0 <= i < |l| ensures HasSplit(g, l, i) {
      if i == 0 {
        g.ReachRefl(Signs, g.nodes, v);
        forall k | 0 <= k < 1 + |found| ensures g.Reach(Signs, l[0], l[k]) {
          assert k > 0 ==> l[k] in found;
        }
        forall a, b | 1 + |found| <= a < |l| && 0 <= b < 1 + |found| ensures !g.Edge(Signs, l[a], l[b]) {
          assert l[a] in before && (l[b] == v || l[b] in found);
        }
        assert Split(g, l, 0, 1 + |found|);
      } else {
        assert HasSplit(g, m, i - 1);
        var j: nat :| Split(g, m, i - 1, j);
        assert forall k | 1 <= k < |l| :: l[k] == m[k - 1];
        assert Split(g, l, i, j + 1);
      }
    }
  }

  /** A key that leads to l[i] through keys finished no later than it can be reached from it. */
  lemma LateReaches(g: Graph, l: seq<KeyId>, i: nat, y: KeyId)
    requires g.Valid() && GoodOrder(g, l) && NoRepeats(l) && i < |l|
    requires g.ReachIn(Signs, Elems(l[i..]), y, l[i])
    ensures g.Reach(Signs, l[i], y)
  {
    assert HasSplit(g, l, i);
    var j: nat :| Split(g, l, i, j);
    var area, core := Elems(l[i..]), Elems(l[j..]);
    var p :| g.PathIn(Signs, area, p, y, l[i]);
    assert p[0] in area;
    var k :| 0 <= k < |l[i..]| && l[i..][k] == y;
    if i + k >= j {
      assert l[j..][i + k - j] == y && y in core;
      forall x, z | x in core && z in area && g.Edge(Signs, x, z) ensures z in core {
        var a :| 0 <= a < |l[j..]| && l[j..][a] == x;
        var b :| 0 <= b < |l[i..]| && l[i..][b] == z;
        assert l[j + a] == x && l[i + b] == z;
        assert i + b >= j;
        assert l[j..][i + b - j] == z;
      }
      assert l[i] !in core by {
        assert forall a | 0 <= a < |l[j..]| :: l[j..][a] == l[j + a];
      }
      g.StaysInside(Signs, area, core, p, y, l[i]);
    }
  }

  type Trees = seq<seq<KeyId>>

  ghost function WhiteOf(colour: map<KeyId, int>): (r: set<KeyId>) {
    set k | k in colour && colour[k] == 0
  }

  /** Everything seen since the colours `was` is finished now and nothing else changed colour. */
  ghost predicate Advanced(colour: map<KeyId, int>, was: map<KeyId, int>) {
    && colour.Keys == was.Keys
    && forall k | k in was :: colour[k] == was[k] || (was[k] == 0 && colour[k] == 2)
  }

  /** Tree `t` has gained `added`, whose members now point to it; no other tree changed. */
  ghost predicate TreeGrew(trees: Trees, pi: map<KeyId, int>, t: int,
                           trees0: Trees, pi0: map<KeyId, int>, added: set<KeyId>) {
    && 0 <= t < |trees| == |trees0|
    && (forall u | 0 <= u < |trees| && u != t :: trees[u] == trees0[u])
    && NoRepeats(trees[t]) && Elems(trees[t]) == Elems(trees0[t]) + added
    && pi.Keys == pi0.Keys && (forall k | k in pi :: pi[k] == if k in added then t else pi0[k])
  }

  lemma TreeGrewTwice(trees2: Trees, pi2: map<KeyId, int>, trees1: Trees, pi1: map<KeyId, int>,
                      trees0: Trees, pi0: map<KeyId, int>, t: int, first: set<KeyId>, second: set<KeyId>)
    requires TreeGrew(trees1, pi1, t, trees0, pi0, first) && TreeGrew(trees2, pi2, t, trees1, pi1, second)
    ensures TreeGrew(trees2, pi2, t, trees0, pi0, first + second)
  {
  }

  datatype State = State(colour: map<KeyId, int>, pi: map<KeyId, int>, finished: seq<KeyId>, trees: Trees)

  ghost function White(s: State): (r: set<KeyId>) {
    WhiteOf(s.colour)
  }

  predicate Unseen(s: State, v: KeyId) {
    v in s.colour && s.colour[v] == 0
  }

  /** The second pass puts a newly seen key on the tree of the key that led to it. */
  function Attach(d: Direction, key: KeyId, v: KeyId, s: State): (r: State)
    ensures r.colour == s.colour && r.finished == s.finished
  {
    if d == Sigs && key in s.pi && 0 <= s.pi[key] < |s.trees| then
      s.(trees := s.trees[s.pi[key] := [v] + s.trees[s.pi[key]]], pi := s.pi[v := s.pi[key]])
    else s
  }

  function Finish(d: Direction, key: KeyId, s: State): (r: State) {
    var f := if d == Signs then [key] + s.finished else s.finished;
    s.(colour := s.colour[key := 2], finished := f)
  }

  /** DFSVisit. */
  ghost function Visit(g: Graph, d: Direction, key: KeyId, s: State): (r: State)
    requires g.Valid() && s.colour.Keys == g.nodes && Unseen(s, key)
    ensures r.colour.Keys == g.nodes && White(r) <= White(s) - {key}
    decreases White(s), 0, 0
  {
    var s1 := s.(colour := s.colour[key := 1]);
    assert White(s1) == White(s) - {key};
    var s2 := VisitAll(g, d, key, g.Next(d, key), s1);
    assert White(Finish(d, key, s2)) <= White(s2);
    Finish(d, key, s2)
  }

  /** The loop of DFSVisit over the edge list of `key`. */
  ghost function VisitAll(g: Graph, d: Direction, key: KeyId, next: seq<KeyId>, s: State): (r: State)
    requires g.Valid() && s.colour.Keys == g.nodes
    ensures r.colour.Keys == g.nodes && White(r) <= White(s)
    decreases White(s), 1, |next|
  {
    if next == [] then s
    else VisitAll(g, d, key, next[1..], VisitNext(g, d, key, next[0], s))
  }

  ghost function VisitNext(g: Graph, d: Direction, key: KeyId, v: KeyId, s: State): (r: State)
    requires g.Valid() && s.colour.Keys == g.nodes
    ensures r.colour.Keys == g.nodes && White(r) <= White(s)
    decreases White(s), 1, 0
  {
    if Unseen(s, v) then Visit(g, d, v, Attach(d, key, v, s)) else s
  }

  // ------------------------------------------------------- colours

  ghost predicate Coloured(g: Graph, s: State) {
    g.Valid() && s.colour.Keys == g.nodes && forall k | k in s.colour :: 0 <= s.colour[k] <= 2
  }

  /** No edge leads from a finished key to an unseen one. */
  ghost predicate Closed(g: Graph, d: Direction, s: State)
    requires g.Valid()
  {
    forall x, y | x in s.colour && s.colour[x] == 2 && y in White(s) :: !g.Edge(d, x, y)
  }

  /** From `key`, inside `area`, every key seen between `s` and `r` can be reached. */
  ghost predicate ReachesAll(g: Graph, d: Direction, area: set<KeyId>, key: KeyId, s: State, r: State)
    requires g.Valid()
  {
    forall k | k in White(s) - White(r) :: g.ReachIn(d, area, key, k)
  }

  lemma {:induction false} VisitColours(g: Graph, d: Direction, key: KeyId, s: State)
    requires Coloured(g, s) && Closed(g, d, s) && Unseen(s, key)
    ensures var r := Visit(g, d, key, s);
            && Coloured(g, r) && Closed(g, d, r) && Advanced(r.colour, s.colour) && r.colour[key] == 2
            && ReachesAll(g, d, White(s), key, s, r)
    decreases White(s), 0, 0
  {
    var s1 := s.(colour := s.colour[key := 1]);
    assert White(s1) == White(s) - {key};
    VisitAllColours(g, d, key, g.Next(d, key), s1, White(s));
    var s2 := VisitAll(g, d, key, g.Next(d, key), s1);
    FinishColours(g, d, key, s2);
    g.ReachRefl(d, White(s), key);
  }

  lemma FinishColours(g: Graph, d: Direction, key: KeyId, s: State)
    requires Coloured(g, s) && Closed(g, d, s) && key in s.colour && s.colour[key] == 1
    requires forall v | v in g.Next(d, key) :: v !in White(s)
    ensures var r := Finish(d, key, s);
            Coloured(g, r) && Closed(g, d, r) && White(r) == White(s)
  {
    var r := Finish(d, key, s);
    assert White(r) == White(s);
    forall x, y | x in r.colour && r.colour[x] == 2 && y in White(r) ensures !g.Edge(d, x, y) {
      assert x == key || s.colour[x] == 2;
    }
  }

  lemma {:induction false} VisitAllColours(g: Graph, d: Direction, key: KeyId, next: seq<KeyId>, s: State, area: set<KeyId>)
    requires Coloured(g, s) && Closed(g, d, s) && key in s.colour && s.colour[key] == 1
    requires key in area && White(s) <= area
    requires forall v | v in next && v in g.nodes :: g.Edge(d, key, v)
    ensures var r := VisitAll(g, d, key, next, s);
            && Coloured(g, r) && Closed(g, d, r) && Advanced(r.colour, s.colour)
            && (forall v | v in next :: v !in White(r))
            && ReachesAll(g, d, area, key, s, r)
    decreases White(s), 1, |next|
  {
    if next != [] {
      VisitNextColours(g, d, key, next[0], s, area);
      VisitAllColours(g, d, key, next[1..], VisitNext(g, d, key, next[0], s), area);
    }
  }

  lemma {:induction false} VisitNextColours(g: Graph, d: Direction, key: KeyId, v: KeyId, s: State, area: set<KeyId>)
    requires Coloured(g, s) && Closed(g, d, s) && key in s.colour && s.colour[key] == 1
    requires key in area && White(s) <= area && (v in g.nodes ==> g.Edge(d, key, v))
    ensures var r := VisitNext(g, d, key, v, s);
            && Coloured(g, r) && Closed(g, d, r) && Advanced(r.colour, s.colour) && v !in White(r)
            && ReachesAll(g, d, area, key, s, r)
    decreases White(s), 1, 0
  {
    if Unseen(s, v) {
      var s1 := Attach(d, key, v, s);
      VisitColours(g, d, v, s1);
      var r := Visit(g, d, v, s1);
      forall k | k in White(s) - White(r) ensures g.ReachIn(d, area, key, k) {
        g.ReachStep(d, area, White(s), key, v, k);
      }
    }
  }

  /** A path through keys unseen before the visit is black to its end after it. */
  lemma {:induction false} PathBlack(g: Graph, d: Direction, s: State, r: State, p: seq<KeyId>, u: KeyId, v: KeyId, i: nat)
    requires Coloured(g, r) && Closed(g, d, r) && s.colour.Keys == g.nodes && Advanced(r.colour, s.colour)
    requires g.PathIn(d, White(s), p, u, v) && i < |p| && r.colour[u] == 2
    ensures p[i] !in White(r)
  {
    if i > 0 {
      PathBlack(g, d, s, r, p, u, v, i - 1);
      assert p[i - 1] in White(s) && r.colour[p[i - 1]] == 2;
      assert g.Edge(d, p[i - 1], p[i]);
    }
  }

  /** So a visit blackens exactly the unseen keys it can reach through unseen keys. */
  lemma VisitExact(g: Graph, d: Direction, key: KeyId, s: State)
    requires Coloured(g, s) && Closed(g, d, s) && Unseen(s, key)
    ensures var r := Visit(g, d, key, s);
            forall k :: k in White(s) - White(r) <==> g.ReachIn(d, White(s), key, k)
  {
    var r := Visit(g, d, key, s);
    VisitColours(g, d, key, s);
    forall k | g.ReachIn(d, White(s), key, k) ensures k in White(s) - White(r) {
      var p :| g.PathIn(d, White(s), p, key, k);
      PathBlack(g, d, s, r, p, key, k, |p| - 1);
    }
  }

  // ------------------------------------------------------- first pass: the finish list

  ghost predicate FinishedIsBlack(s: State) {
    NoRepeats(s.finished) && forall k :: k in s.finished <==> k in s.colour && s.colour[k] == 2
  }

  ghost predicate Ordered(g: Graph, s: State)
    requires g.Valid()
  {
    FinishedIsBlack(s) && GoodOrder(g, s.finished)
  }

  /** The keys finished since `before` was the finish list. */
  ghost function Found(s: State, before: seq<KeyId>): (r: seq<KeyId>)
    requires Extends(s.finished, before)
    ensures s.finished == r + before
  {
    s.finished[..|s.finished| - |before|]
  }

  lemma {:induction false} VisitOrders(g: Graph, key: KeyId, s: State)
    requires Coloured(g, s) && Closed(g, Signs, s) && Unseen(s, key) && Ordered(g, s)
    ensures var r := Visit(g, Signs, key, s);
            Ordered(g, r) && Extends(r.finished, s.finished) && r.trees == s.trees && r.pi == s.pi
    decreases White(s), 0, 0
  {
    var s1 := s.(colour := s.colour[key := 1]);
    assert White(s1) == White(s) - {key};
    VisitAllOrders(g, key, g.Next(Signs, key), s1);
    VisitAllColours(g, Signs, key, g.Next(Signs, key), s1, White(s));
    var s2 := VisitAll(g, Signs, key, g.Next(Signs, key), s1);
    FinishOrders(g, key, s, s2);
  }

  lemma FinishOrders(g: Graph, key: KeyId, s: State, s2: State)
    requires Coloured(g, s) && Closed(g, Signs, s) && Unseen(s, key) && FinishedIsBlack(s)
    requires Coloured(g, s2) && Ordered(g, s2) && Extends(s2.finished, s.finished) && s2.colour[key] == 1
    requires Advanced(s2.colour, s.colour[key := 1])
    requires ReachesAll(g, Signs, White(s), key, s.(colour := s.colour[key := 1]), s2)
    ensures var r := Finish(Signs, key, s2);
            Ordered(g, r) && Extends(r.finished, s.finished)
  {
    var found := Found(s2, s.finished);
    forall x | x in found ensures x in White(s) && g.Reach(Signs, key, x) {
      FoundReached(g, key, s, s2, x);
    }
    forall x, y | x in s.finished && (y == key || y in found) ensures !g.Edge(Signs, x, y) {
      assert s.colour[x] == 2 && y in White(s);
    }
    GoodOrderCons(g, key, found, s.finished);
    var r := Finish(Signs, key, s2);
    assert r.finished == [key] + found + s.finished;
    FinishBlack(key, s2);
    assert r.finished[|r.finished| - |s.finished|..] == s.finished;
  }

  lemma FinishBlack(key: KeyId, s: State)
    requires FinishedIsBlack(s) && key in s.colour && s.colour[key] == 1
    ensures FinishedIsBlack(Finish(Signs, key, s))
  {
    var r := Finish(Signs, key, s);
    assert key !in s.finished;
    forall k ensures k in r.finished <==> k in r.colour && r.colour[k] == 2 {
      assert k in r.finished <==> k == key || k in s.finished;
    }
  }

  lemma FoundReached(g: Graph, key: KeyId, s: State, s2: State, x: KeyId)
    requires Coloured(g, s) && Unseen(s, key) && FinishedIsBlack(s)
    requires Coloured(g, s2) && FinishedIsBlack(s2) && Extends(s2.finished, s.finished) && s2.colour[key] == 1
    requires Advanced(s2.colour, s.colour[key := 1])
    requires ReachesAll(g, Signs, White(s), key, s.(colour := s.colour[key := 1]), s2)
    requires x in Found(s2, s.finished)
    ensures x in White(s) && g.Reach(Signs, key, x)
  {
    FoundIsNew(s2.finished, Found(s2, s.finished), s.finished, x);
    assert x in s2.finished && x !in s.finished;
    g.ReachWider(Signs, White(s), g.nodes, key, x);
  }

  lemma FoundIsNew(all: seq<KeyId>, found: seq<KeyId>, before: seq<KeyId>, x: KeyId)
    requires all == found + before && NoRepeats(all) && x in found
    ensures x !in before
  {
    var i :| 0 <= i < |found| && found[i] == x;
    forall j | 0 <= j < |before| ensures before[j] != x {
      assert all[|found| + j] == before[j] && all[i] == x;
    }
  }

  lemma {:induction false} VisitAllOrders(g: Graph, key: KeyId, next: seq<KeyId>, s: State)
    requires Coloured(g, s) && Closed(g, Signs, s) && Ordered(g, s) && key in s.colour && s.colour[key] == 1
    requires forall v | v in next && v in g.nodes :: g.Edge(Signs, key, v)
    ensures var r := VisitAll(g, Signs, key, next, s);
            Ordered(g, r) && Extends(r.finished, s.finished) && r.trees == s.trees && r.pi == s.pi
    decreases White(s), 1, |next|
  {
    if next != [] {
      VisitNextColours(g, Signs, key, next[0], s, White(s) + {key});
      if Unseen(s, next[0]) {
        VisitOrders(g, next[0], s);
      }
      var s1 := VisitNext(g, Signs, key, next[0], s);
      VisitAllOrders(g, key, next[1..], s1);
      ExtendsTwice(VisitAll(g, Signs, key, next, s).finished, s1.finished, s.finished);
    }
  }

  lemma ExtendsTwice(c: seq<KeyId>, b: seq<KeyId>, a: seq<KeyId>)
    requires Extends(c, b) && Extends(b, a)
    ensures Extends(c, a)
  {
    assert c[|c| - |a|..] == b[|b| - |a|..];
  }

  // ------------------------------------------------------- second pass: the trees

  /** Everything on the tree of a key has been seen, except perhaps the key itself. */
  ghost predicate TreeReady(s: State, key: KeyId) {
    && s.pi.Keys == s.colour.Keys && key in s.pi && 0 <= s.pi[key] < |s.trees|
    && NoRepeats(s.trees[s.pi[key]])
    && forall k | k in s.trees[s.pi[key]] :: k == key || k !in White(s)
  }

  /** Between `s` and `r` the tree `t` gained `added` and the finish list stayed. */
  ghost predicate Grew(r: State, t: int, s: State, added: set<KeyId>) {
    r.finished == s.finished && TreeGrew(r.trees, r.pi, t, s.trees, s.pi, added)
  }

  lemma GrewTwice(r: State, s1: State, s: State, t: int)
    requires White(r) <= White(s1) <= White(s)
    requires Grew(s1, t, s, White(s) - White(s1)) && Grew(r, t, s1, White(s1) - White(r))
    ensures Grew(r, t, s, White(s) - White(r))
  {
    TreeGrewTwice(r.trees, r.pi, s1.trees, s1.pi, s.trees, s.pi, t, White(s) - White(s1), White(s1) - White(r));
    assert White(s) - White(s1) + (White(s1) - White(r)) == White(s) - White(r);
  }

  lemma {:induction false} VisitGrows(g: Graph, key: KeyId, s: State)
    requires Coloured(g, s) && Closed(g, Sigs, s) && Unseen(s, key) && TreeReady(s, key)
    ensures var r := Visit(g, Sigs, key, s);
            Grew(r, s.pi[key], s, White(s) - White(r) - {key})
    decreases White(s), 0, 0
  {
    var s1 := s.(colour := s.colour[key := 1]);
    assert White(s1) == White(s) - {key};
    VisitAllGrows(g, key, g.Next(Sigs, key), s1);
    var s2 := VisitAll(g, Sigs, key, g.Next(Sigs, key), s1);
    assert White(Finish(Sigs, key, s2)) == White(s2);
    assert White(s1) - White(s2) == White(s) - White(s2) - {key};
  }

  lemma {:induction false} VisitAllGrows(g: Graph, key: KeyId, next: seq<KeyId>, s: State)
    requires Coloured(g, s) && Closed(g, Sigs, s) && key in s.colour && s.colour[key] == 1 && TreeReady(s, key)
    requires forall v | v in next && v in g.nodes :: g.Edge(Sigs, key, v)
    ensures var r := VisitAll(g, Sigs, key, next, s);
            Grew(r, s.pi[key], s, White(s) - White(r))
    decreases White(s), 1, |next|
  {
    if next != [] {
      VisitNextColours(g, Sigs, key, next[0], s, White(s) + {key});
      VisitNextGrows(g, key, next[0], s);
      var s1 := VisitNext(g, Sigs, key, next[0], s);
      VisitAllGrows(g, key, next[1..], s1);
      var r := VisitAll(g, Sigs, key, next, s);
      GrewTwice(r, s1, s, s.pi[key]);
    }
  }

  lemma {:induction false} VisitNextGrows(g: Graph, key: KeyId, v: KeyId, s: State)
    requires Coloured(g, s) && Closed(g, Sigs, s) && key in s.colour && s.colour[key] == 1 && TreeReady(s, key)
    requires v in g.nodes ==> g.Edge(Sigs, key, v)
    ensures var r := VisitNext(g, Sigs, key, v, s);
            Grew(r, s.pi[key], s, White(s) - White(r)) && TreeReady(r, key)
    decreases White(s), 1, 0
  {
    var r := VisitNext(g, Sigs, key, v, s);
    if Unseen(s, v) {
      var s1 := Attach(Sigs, key, v, s);
      AttachReady(key, v, s);
      VisitGrows(g, v, s1);
      VisitNextColours(g, Sigs, key, v, s, White(s) + {key});
      assert Grew(s1, s.pi[key], s, {v});
      TreeGrewTwice(r.trees, r.pi, s1.trees, s1.pi, s.trees, s.pi, s.pi[key], {v}, White(s) - White(r) - {v});
      assert {v} + (White(s) - White(r) - {v}) == White(s) - White(r);
    } else {
      assert White(s) - White(r) == {};
    }
  }

  lemma AttachReady(key: KeyId, v: KeyId, s: State)
    requires TreeReady(s, key) && Unseen(s, v) && key !in White(s)
    ensures var s1 := Attach(Sigs, key, v, s);
            TreeReady(s1, v) && s1.pi[v] == s.pi[key] && Grew(s1, s.pi[key], s, {v})
  {
    var t := s.trees[s.pi[key]];
    assert v !in t;
    assert Elems([v] + t) == Elems(t) + {v};
  }

  // ------------------------------------------------------- the two passes

  /** Between visits every key is either unseen or finished. */
  ghost predicate Resting(g: Graph, d: Direction, s: State) {
    && Coloured(g, s) && Closed(g, d, s) && s.pi.Keys == s.colour.Keys
    && forall k | k in s.colour :: s.colour[k] != 1
  }

  lemma VisitRests(g: Graph, d: Direction, key: KeyId, s: State)
    requires Resting(g, d, s) && Unseen(s, key) && (d == Signs ==> Ordered(g, s)) && (d == Sigs ==> TreeReady(s, key))
    ensures Resting(g, d, Visit(g, d, key, s))
  {
    VisitColours(g, d, key, s);
    if d == Signs {
      VisitOrders(g, key, s);
    } else {
      VisitGrows(g, key, s);
    }
  }

  /** A repetition-free list of exactly the keys mutually reachable with each of its members. */
  ghost predicate IsComponent(g: Graph, c: seq<KeyId>)
    requires g.Valid()
  {
    && c != [] && NoRepeats(c)
    && forall u, v | u in c :: v in c <==> v in g.nodes && g.Mutual(u, v)
  }

  ghost predicate OnTree(s: State, k: KeyId) {
    exists t | 0 <= t < |s.trees| :: k in s.trees[t]
  }

  /** The trees so far are components and hold exactly the keys seen. */
  ghost predicate Partitioned(g: Graph, s: State)
    requires g.Valid()
  {
    && (forall t | 0 <= t < |s.trees| :: IsComponent(g, s.trees[t]))
    && (forall t, u | 0 <= t < u < |s.trees| :: Elems(s.trees[t]) !! Elems(s.trees[u]))
    && (forall k | k in s.colour :: k !in White(s) <==> OnTree(s, k))
  }

  lemma MutualTrans(g: Graph, u: KeyId, v: KeyId, w: KeyId)
    requires g.Valid() && g.Mutual(u, v) && g.Mutual(v, w)
    ensures g.Mutual(u, w)
  {
    g.ReachTrans(Signs, g.nodes, u, v, w);
    g.ReachTrans(Signs, g.nodes, w, v, u);
  }

  /** What the second pass reaches from root l[i] through keys not seen before is in its component. */
  lemma RootSound(g: Graph, l: seq<KeyId>, i: nat, area: set<KeyId>, v: KeyId)
    requires g.Valid() && g.Transposed() && GoodOrder(g, l) && NoRepeats(l) && i < |l|
    requires Elems(l) == g.nodes && area <= Elems(l[i..]) && g.ReachIn(Sigs, area, l[i], v)
    ensures g.Mutual(l[i], v)
  {
    g.ReachWider(Sigs, area, Elems(l[i..]), l[i], v);
    g.ReverseReach(Sigs, Elems(l[i..]), l[i], v);
    LateReaches(g, l, i, v);
    g.ReachWider(Signs, Elems(l[i..]), g.nodes, v, l[i]);
  }

  /** The component of an unseen key is unseen. */
  lemma ComponentUnseen(g: Graph, s: State, r: KeyId, w: KeyId)
    requires Coloured(g, s) && Partitioned(g, s) && Unseen(s, r) && w in g.nodes && g.Mutual(r, w)
    ensures w in White(s)
  {
    assert !OnTree(s, r);
    forall t | 0 <= t < |s.trees| ensures w !in s.trees[t] {
      assert IsComponent(g, s.trees[t]) && r !in s.trees[t] && g.Mutual(w, r);
    }
    assert !OnTree(s, w);
  }

  /** And the second pass reaches all of it. */
  lemma RootComplete(g: Graph, s: State, s2: State, r: KeyId, v: KeyId)
    requires Coloured(g, s) && Partitioned(g, s) && Unseen(s, r) && g.Transposed()
    requires Coloured(g, s2) && Closed(g, Sigs, s2) && Advanced(s2.colour, s.colour) && s2.colour[r] == 2
    requires v in g.nodes && g.Mutual(r, v)
    ensures v in White(s) - White(s2)
  {
    g.ReverseReach(Signs, g.nodes, v, r);
    g.ReverseReach(Signs, g.nodes, r, v);
    var p :| g.PathIn(Sigs, g.nodes, p, r, v);
    forall i | 0 <= i < |p| ensures p[i] in White(s) {
      g.OnPath(Sigs, g.nodes, p, r, v, i);
      g.ReachTrans(Sigs, g.nodes, p[i], v, r);
      g.ReverseReach(Sigs, g.nodes, r, p[i]);
      g.ReverseReach(Sigs, g.nodes, p[i], r);
      ComponentUnseen(g, s, r, p[i]);
    }
    assert g.PathIn(Sigs, White(s), p, r, v);
    g.StaysInside(Sigs, White(s), White(s) - White(s2), p, r, v);
  }

  /** A new root starts a tree of its own. */
  function Plant(key: KeyId, s: State): (r: State) {
    s.(trees := s.trees + [[key]], pi := s.pi[key := |s.trees|])
  }

  /** The second pass so far: the first `i` keys of the finish list are accounted for. */
  ghost predicate SecondPass(g: Graph, l: seq<KeyId>, i: nat, s: State) {
    && Resting(g, Sigs, s) && Partitioned(g, s) && s.finished == l
    && i <= |l| && forall m | 0 <= m < i :: l[m] !in White(s)
  }

  /** Planting a root and following it adds one tree: the keys seen in doing so. */
  lemma RootGrows(g: Graph, r: KeyId, s: State)
    requires Resting(g, Sigs, s) && r in White(s)
    ensures var s2 := Visit(g, Sigs, r, Plant(r, s));
            && Resting(g, Sigs, s2) && Advanced(s2.colour, s.colour) && s2.colour[r] == 2 && s2.finished == s.finished
            && |s2.trees| == |s.trees| + 1 && s2.trees[..|s.trees|] == s.trees
            && NoRepeats(s2.trees[|s.trees|]) && Elems(s2.trees[|s.trees|]) == White(s) - White(s2)
            && ReachesAll(g, Sigs, White(s), r, s, s2)
  {
    PlantReady(g, r, s);
    var s1 := Plant(r, s);
    VisitRests(g, Sigs, r, s1);
    VisitColours(g, Sigs, r, s1);
    RootTree(g, r, s);
  }

  lemma PlantReady(g: Graph, r: KeyId, s: State)
    requires Resting(g, Sigs, s) && r in White(s)
    ensures var s1 := Plant(r, s);
            && Resting(g, Sigs, s1) && TreeReady(s1, r) && Unseen(s1, r) && White(s1) == White(s)
            && s1.trees[|s.trees|] == [r] && s1.trees[..|s.trees|] == s.trees && s1.pi[r] == |s.trees|
  {
  }

  /** The tree that is added. */
  lemma RootTree(g: Graph, r: KeyId, s: State)
    requires Resting(g, Sigs, s) && r in White(s)
    ensures var s2 := Visit(g, Sigs, r, Plant(r, s));
            && s2.finished == s.finished && |s2.trees| == |s.trees| + 1 && s2.trees[..|s.trees|] == s.trees
            && NoRepeats(s2.trees[|s.trees|]) && Elems(s2.trees[|s.trees|]) == White(s) - White(s2)
  {
    var s1 := Plant(r, s);
    PlantReady(g, r, s);
    VisitGrows(g, r, s1);
    var s2 := Visit(g, Sigs, r, s1);
    assert {r} + (White(s) - White(s2) - {r}) == White(s) - White(s2);
  }

  lemma UnseenLater(l: seq<KeyId>, i: nat, area: set<KeyId>)
    requires i <= |l| && area <= Elems(l) && forall m | 0 <= m < i :: l[m] !in area
    ensures area <= Elems(l[i..])
  {
    forall k | k in area ensures k in Elems(l[i..]) {
      assert k in Elems(l);
      var m :| 0 <= m < |l| && l[m] == k;
      assert l[i..][m - i] == k;
    }
  }

  lemma RootStep(g: Graph, l: seq<KeyId>, i: nat, s: State)
    requires SecondPass(g, l, i, s) && i < |l| && l[i] in White(s)
    requires g.Transposed() && GoodOrder(g, l) && NoRepeats(l) && Elems(l) == g.nodes
    ensures SecondPass(g, l, i + 1, Visit(g, Sigs, l[i], Plant(l[i], s)))
  {
    var r := l[i];
    var s2 := Visit(g, Sigs, r, Plant(r, s));
    RootGrows(g, r, s);
    UnseenLater(l, i, White(s));
    var c := s2.trees[|s.trees|];
    assert r in Elems(c);
    forall v ensures v in c <==> v in g.nodes && g.Mutual(r, v) {
      assert v in c <==> v in Elems(c);
      if v in c {
        RootSound(g, l, i, White(s), v);
      }
      if v in g.nodes && g.Mutual(r, v) {
        RootComplete(g, s, s2, r, v);
      }
    }
    RootIsComponent(g, c, r);
    PlantedPartition(g, s, s2, |s.trees|);
  }

  lemma RootIsComponent(g: Graph, c: seq<KeyId>, r: KeyId)
    requires g.Valid() && c != [] && NoRepeats(c)
    requires forall v :: v in c <==> v in g.nodes && g.Mutual(r, v)
    ensures IsComponent(g, c)
  {
    forall u, v | u in c ensures v in c <==> v in g.nodes && g.Mutual(u, v) {
      if v in c {
        MutualTrans(g, u, r, v);
      }
      if v in g.nodes && g.Mutual(u, v) {
        MutualTrans(g, r, u, v);
      }
    }
  }

  lemma PlantedPartition(g: Graph, s: State, s2: State, t: nat)
    requires g.Valid() && Partitioned(g, s) && s.colour.Keys == s2.colour.Keys && White(s2) <= White(s)
    requires t == |s.trees| && |s2.trees| == t + 1 && s2.trees[..t] == s.trees
    requires IsComponent(g, s2.trees[t]) && Elems(s2.trees[t]) == White(s) - White(s2)
    ensures Partitioned(g, s2)
  {
    assert forall u | 0 <= u < t :: s2.trees[u] == s.trees[u];
    forall u | 0 <= u < t ensures Elems(s2.trees[u]) !! Elems(s2.trees[t]) {
      forall k | k in s.trees[u] ensures k !in White(s) {
        assert k in White(s) ==> !OnTree(s, k);
      }
    }
    forall k | k in s2.colour ensures k !in White(s2) <==> OnTree(s2, k) {
      if k !in White(s2) {
        if k in White(s) {
          assert k in Elems(s2.trees[t]);
        } else {
          var u :| 0 <= u < |s.trees| && k in s.trees[u];
          assert k in s2.trees[u];
        }
      }
      if OnTree(s2, k) {
        var u :| 0 <= u < |s2.trees| && k in s2.trees[u];
        if u == t {
          assert k in Elems(s2.trees[t]);
        } else {
          assert OnTree(s, k);
        }
      }
    }
  }

  /** One key of the table in the first pass. */
  ghost function FirstStep(g: Graph, key: KeyId, s: State): (r: State)
    requires g.Valid() && s.colour.Keys == g.nodes
  {
    if Unseen(s, key) then Visit(g, Signs, key, s) else s
  }

  /** The first pass so far: the first `i` keys of the table have been seen. */
  ghost predicate FirstPass(g: Graph, table: seq<KeyId>, i: nat, s: State) {
    && Resting(g, Signs, s) && Ordered(g, s)
    && i <= |table| && forall m | 0 <= m < i :: table[m] !in White(s)
  }

  lemma FirstStepKeeps(g: Graph, table: seq<KeyId>, i: nat, s: State)
    requires FirstPass(g, table, i, s) && i < |table|
    ensures var r := FirstStep(g, table[i], s);
            FirstPass(g, table, i + 1, r) && r.trees == s.trees
  {
    if Unseen(s, table[i]) {
      VisitRests(g, Signs, table[i], s);
      VisitOrders(g, table[i], s);
    }
  }

  /** One key of the finish list in the second pass. */
  ghost function SecondStep(g: Graph, key: KeyId, s: State): (r: State)
    requires g.Valid() && s.colour.Keys == g.nodes
  {
    if Unseen(s, key) then Visit(g, Sigs, key, Plant(key, s)) else s
  }

  lemma SecondStepKeeps(g: Graph, l: seq<KeyId>, i: nat, s: State)
    requires SecondPass(g, l, i, s) && i < |l|
    requires g.Transposed() && GoodOrder(g, l) && NoRepeats(l) && Elems(l) == g.nodes
    ensures SecondPass(g, l, i + 1, SecondStep(g, l[i], s))
  {
    assert l[i] in Elems(l);
    if Unseen(s, l[i]) {
      RootStep(g, l, i, s);
    }
  }

  ghost predicate Cleared(g: Graph, s: State) {
    && g.Valid() && s.colour.Keys == s.pi.Keys == g.nodes
    && forall k | k in g.nodes :: s.colour[k] == 0 && s.pi[k] == -1
  }

  lemma FirstPassStarts(g: Graph, table: seq<KeyId>, s: State)
    requires Cleared(g, s) && s.finished == []
    ensures FirstPass(g, table, 0, s)
  {
  }

  lemma FirstPassEnds(g: Graph, table: seq<KeyId>, s: State)
    requires FirstPass(g, table, |table|, s) && g.nodes == Elems(table)
    ensures NoRepeats(s.finished) && Elems(s.finished) == g.nodes && GoodOrder(g, s.finished)
  {
    forall k ensures k in s.finished <==> k in g.nodes {
      if k in g.nodes {
        assert k in Elems(table);
        var m :| 0 <= m < |table| && table[m] == k;
        assert table[m] !in White(s);
      }
    }
  }

  lemma SecondPassStarts(g: Graph, s: State)
    requires Cleared(g, s) && s.trees == []
    ensures SecondPass(g, s.finished, 0, s)
  {
    assert White(s) == g.nodes;
  }

  lemma SecondPassEnds(g: Graph, l: seq<KeyId>, s: State)
    requires SecondPass(g, l, |l|, s) && Elems(l) == g.nodes
    ensures forall k | k in g.nodes :: OnTree(s, k)
  {
    forall k | k in g.nodes ensures OnTree(s, k) {
      assert k in Elems(l);
      var m :| 0 <= m < |l| && l[m] == k;
      assert l[m] !in White(s);
    }
  }

  class KeyRing {
    const g: Graph
    /** The order in which the hash table lists the keys. */
    const table: seq<KeyId>
    var colour: map<KeyId, int>
    /** Which tree a key was put in, as a position in `trees`; -1 for none. */
    var pi: map<KeyId, int>
    /** Latest finisher first. */
    var finished: seq<KeyId>
    /** Oldest tree first; within a tree the latest member first. */
    var trees: Trees

    constructor (g: Graph, table: seq<KeyId>)
      ensures this.g == g && this.table == table
    {
      this.g, this.table := g, table;
      colour, pi, finished, trees := map[], map[], [], [];
    }

    ghost function Now(): (s: State)
      reads this
    {
      State(colour, pi, finished, trees)
    }

    /** The table lists exactly the keys of a well-formed graph. */
    ghost predicate Listed() {
      g.Valid() && g.nodes == Elems(table)
    }

    method InitColour()
      requires Listed()
      modifies this`colour, this`pi
      ensures Cleared(g, Now())
    {
      colour, pi := map[], map[];
      for i := 0 to |table|
        invariant colour.Keys == pi.Keys == Elems(table[..i])
        invariant forall k | k in colour :: colour[k] == 0 && pi[k] == -1
      {
        colour, pi := colour[table[i] := 0], pi[table[i] := -1];
        assert table[..i + 1] == table[..i] + [table[i]];
      }
      assert table[..|table|] == table;
    }

    /** DFSVisit as it runs: colours, tree pointers and lists are updated in place. */
    method DfsVisit(d: Direction, key: KeyId)
      requires g.Valid() && colour.Keys == g.nodes && Unseen(Now(), key)
      modifies this
      ensures Now() == Visit(g, d, key, old(Now()))
      decreases White(Now()), 0
    {
      ghost var start := Now();
      colour := colour[key := 1];
      ghost var s1 := Now();
      assert White(s1) == White(start) - {key};
      var next := g.Next(d, key);
      for i := 0 to |next|
        invariant colour.Keys == g.nodes && White(Now()) <= White(s1)
        invariant VisitAll(g, d, key, next[i..], Now()) == VisitAll(g, d, key, next, s1)
      {
        assert next[i..][0] == next[i] && next[i..][1..] == next[i + 1..];
        DfsNeighbour(d, key, next[i]);
      }
      colour := colour[key := 2];
      if d == Signs {
        finished := [key] + finished;
      }
    }

    /** The body of its loop, for one neighbour. */
    method DfsNeighbour(d: Direction, key: KeyId, v: KeyId)
      requires g.Valid() && colour.Keys == g.nodes
      modifies this
      ensures Now() == VisitNext(g, d, key, v, old(Now()))
      decreases White(Now()), 1
    {
      if v in colour && colour[v] == 0 {
        if d == Sigs && key in pi && 0 <= pi[key] < |trees| {
          trees, pi := trees[pi[key] := [v] + trees[pi[key]]], pi[v := pi[key]];
        }
        assert Now() == Attach(d, key, v, old(Now()));
        DfsVisit(d, v);
      }
    }

    /** A key of the table that has not been seen yet starts a search. */
    method Start(key: KeyId)
      requires g.Valid() && colour.Keys == g.nodes
      modifies this
      ensures Now() == FirstStep(g, key, old(Now()))
    {
      if key in colour && colour[key] == 0 {
        DfsVisit(Signs, key);
      }
    }

    /** DFS: the finish list ends up with every key once, in an order fit for the second pass. */
    method Dfs()
      requires Listed() && finished == []
      modifies this
      ensures NoRepeats(finished) && Elems(finished) == g.nodes && GoodOrder(g, finished) && trees == old(trees)
    {
      InitColour();
      FirstPassStarts(g, table, Now());
      for i := 0 to |table|
        invariant FirstPass(g, table, i, Now()) && trees == old(trees)
      {
        FirstStepKeeps(g, table, i, Now());
        Start(table[i]);
      }
      FirstPassEnds(g, table, Now());
    }

    /** A key of the finish list that is on no tree yet starts one. */
    method Root(key: KeyId)
      requires g.Valid() && colour.Keys == g.nodes
      modifies this
      ensures Now() == SecondStep(g, key, old(Now()))
    {
      if key in colour && colour[key] == 0 {
        trees, pi := trees + [[key]], pi[key := |trees|];
        DfsVisit(Sigs, key);
      }
    }

    /** DFSsorted: one tree per key of the finish list not yet on a tree. */
    method DfsSorted()
      requires Listed() && g.Transposed() && trees == []
      requires NoRepeats(finished) && Elems(finished) == g.nodes && GoodOrder(g, finished)
      modifies this
      ensures Partitioned(g, Now()) && forall k | k in g.nodes :: OnTree(Now(), k)
    {
      InitColour();
      SecondPassStarts(g, Now());
      ghost var l := finished;
      var i := 0;
      while i < |finished|
        invariant SecondPass(g, l, i, Now())
        decreases |l| - i
      {
        SecondStepKeeps(g, l, i, Now());
        Root(finished[i]);
        i := i + 1;
      }
      SecondPassEnds(g, l, Now());
    }

    /**
     The two passes together. Every key ends up on exactly one tree, and two keys share a tree
     exactly when each can be reached from the other.
     */
    method FindTrees()
      requires Listed() && g.Transposed()
      modifies this
      ensures forall k | k in g.nodes :: OnTree(Now(), k)
      ensures forall t | 0 <= t < |trees| :: IsComponent(g, trees[t])
      ensures forall t, u | 0 <= t < u < |trees| :: Elems(trees[t]) !! Elems(trees[u])
    {
      finished, trees := [], [];
      Dfs();
      DfsSorted();
    }
  }
}
