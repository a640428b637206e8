/**
 Chains of signatures and what a breadth-first search knows about them at each moment. `links`
 gives the neighbours of a key; keys in `barred` may not be stepped on.
 */
module TrustWalks {
  import opened KeyGraph

  type Links = map<KeyId, seq<KeyId>>
  type Colours = map<KeyId, nat>
  type Parents = map<KeyId, KeyId>

  datatype Net = Net(links: Links, root: KeyId, barred: set<KeyId>) {

    function Links(u: KeyId): (r: seq<KeyId>) {
      if u in links then links[u] else []
    }

    /** One step of a chain: to a neighbour that is not barred. */
    predicate Step(u: KeyId, v: KeyId) {
      v in Links(u) && v !in barred
    }

    ghost predicate StepAt(p: seq<KeyId>, i: nat) {
      0 < i < |p| && Step(p[i - 1], p[i])
    }

    ghost predicate IsWalk(p: seq<KeyId>, n: nat, v: KeyId) {
      && |p| == n + 1 && p[0] == root && p[n] == v
      && forall i | 0 < i <= n :: StepAt(p, i)
    }

    /** A chain of n steps leads from the root to v. */
    ghost predicate Walk(n: nat, v: KeyId) {
      exists p :: IsWalk(p, n, v)
    }

    lemma WalkNowhere()
      ensures Walk(0, root)
    {
      assert IsWalk([root], 0, root);
    }

    lemma WalkOn(n: nat, u: KeyId, v: KeyId)
      requires Walk(n, u) && Step(u, v)
      ensures Walk(n + 1, v)
    {
      var p :| IsWalk(p, n, u);
      var q := p + [v];
      forall i | 0 < i <= n + 1 ensures StepAt(q, i) {
        assert i <= n ==> StepAt(p, i);
      }
      assert IsWalk(q, n + 1, v);
    }

    /** The last step of a chain. */
    lemma WalkBack(n: nat, v: KeyId) returns (u: KeyId)
      requires Walk(n, v) && n > 0
      ensures Walk(n - 1, u) && Step(u, v) && (n == 1 ==> u == root)
    {
      var p :| IsWalk(p, n, v);
      u := p[n - 1];
      assert StepAt(p, n);
      forall i | 0 < i <= n - 1 ensures StepAt(p[..n], i) {
        assert StepAt(p, i);
      }
      assert IsWalk(p[..n], n - 1, u);
    }

    /** n is the least number of steps, at least one, in which v can be reached. */
    ghost predicate Distance(v: KeyId, n: nat) {
      n >= 1 && Walk(n, v) && forall m | 1 <= m < n :: !Walk(m, v)
    }

    ghost predicate Reachable(v: KeyId) {
      exists n :: n >= 1 && Walk(n, v)
    }

    /** v is on layer d: the root on layer 0, otherwise a key of that colour. */
    ghost predicate OnLayer(colour: Colours, d: nat, v: KeyId) {
      if d == 0 then v == root else v in colour && colour[v] == d
    }

    /** Every neighbour that may be stepped on has its colour. */
    ghost predicate Spread(colour: Colours, u: KeyId) {
      forall v | Step(u, v) :: v in colour
    }

    ghost predicate ColourAt(colour: Colours, c: nat, v: KeyId) {
      v in colour && colour[v] <= c && Distance(v, colour[v])
    }

    /** The parent links to v and is one layer nearer to the root. */
    ghost predicate ParentAt(colour: Colours, parent: Parents, v: KeyId) {
      && v in colour && v in parent && colour[v] >= 1
      && Step(parent[v], v) && OnLayer(colour, colour[v] - 1, parent[v])
    }

    /** Colours are distances, and parents are one layer nearer to the root. */
    ghost predicate Sound(colour: Colours, parent: Parents, c: nat) {
      && parent.Keys == colour.Keys
      && (forall v {:trigger ColourAt(colour, c, v)} | v in colour :: ColourAt(colour, c, v))
      && (forall v {:trigger ParentAt(colour, parent, v)} | v in colour :: ParentAt(colour, parent, v))
    }

    /** Everything nearer than c steps has its colour. */
    ghost predicate Complete(colour: Colours, c: nat) {
      forall v, m | 1 <= m < c && Walk(m, v) :: v in colour
    }

    /** Layer d is dealt with: what is not on `todo` has spread to its neighbours. */
    ghost predicate LayerSpread(colour: Colours, d: nat, todo: seq<KeyId>) {
      && (forall u | u in todo :: OnLayer(colour, d, u))
      && (forall u | OnLayer(colour, d, u) :: u in todo || Spread(colour, u))
    }

    ghost predicate IsLayer(colour: Colours, d: nat, list: seq<KeyId>) {
      forall u :: u in list <==> OnLayer(colour, d, u)
    }

    /** The search at layer c: `todo` is what is left of layer c - 1, `next` is layer c so far. */
    ghost predicate Searching(colour: Colours, parent: Parents, c: nat, todo: seq<KeyId>, next: seq<KeyId>) {
      && c >= 1 && Sound(colour, parent, c) && Complete(colour, c)
      && LayerSpread(colour, c - 1, todo) && IsLayer(colour, c, next)
    }

    lemma LayerWalk(colour: Colours, parent: Parents, c: nat, d: nat, u: KeyId)
      requires Sound(colour, parent, c) && OnLayer(colour, d, u)
      ensures Walk(d, u) && d <= c
    {
      WalkNowhere();
      assert d > 0 ==> ColourAt(colour, c, u);
    }

    lemma SearchStarts()
      ensures Searching(map[], map[], 1, [root], [])
    {
    }

    /** A neighbour that had no colour and is given the colour of the layer being built. */
    lemma SoundStep(colour: Colours, parent: Parents, c: nat, u: KeyId, v: KeyId)
      requires c >= 1 && Sound(colour, parent, c) && Complete(colour, c)
      requires OnLayer(colour, c - 1, u) && Step(u, v) && v !in colour
      ensures Sound(colour[v := c], parent[v := u], c)
    {
      var colour', parent' := colour[v := c], parent[v := u];
      LayerWalk(colour, parent, c, c - 1, u);
      WalkOn(c - 1, u, v);
      assert Distance(v, c);
      assert colour'.Keys == colour.Keys + {v} && parent'.Keys == parent.Keys + {v};
      forall x | x in colour' ensures ColourAt(colour', c, x) {
        assert x != v ==> ColourAt(colour, c, x);
      }
      forall x | x in colour' ensures ParentAt(colour', parent', x) {
        assert x != v ==> ParentAt(colour, parent, x);
      }
    }

    lemma ColourStep(colour: Colours, parent: Parents, c: nat, todo: seq<KeyId>, next: seq<KeyId>, u: KeyId, v: KeyId)
      requires Searching(colour, parent, c, todo, next) && u in todo && Step(u, v) && v !in colour
      ensures Searching(colour[v := c], parent[v := u], c, todo, [v] + next)
    {
      SoundStep(colour, parent, c, u, v);
      SpreadStep(colour, c, todo, v);
      LayerStep(colour, c, next, v);
    }

    lemma SpreadStep(colour: Colours, c: nat, todo: seq<KeyId>, v: KeyId)
      requires c >= 1 && LayerSpread(colour, c - 1, todo) && v !in colour
      ensures LayerSpread(colour[v := c], c - 1, todo)
    {
      var colour' := colour[v := c];
      var d := c - 1;
      assert forall x :: OnLayer(colour', d, x) <==> OnLayer(colour, d, x);
      forall x | Spread(colour, x) ensures Spread(colour', x) { }
    }

    lemma LayerStep(colour: Colours, c: nat, next: seq<KeyId>, v: KeyId)
      requires c >= 1 && IsLayer(colour, c, next) && v !in colour
      ensures IsLayer(colour[v := c], c, [v] + next)
    {
      forall x ensures x in [v] + next <==> OnLayer(colour[v := c], c, x) {
        assert x in [v] + next <==> x == v || x in next;
        assert x in next <==> OnLayer(colour, c, x);
      }
    }

    /** The first key of the list is done once all its neighbours have their colour. */
    lemma KeyDone(colour: Colours, parent: Parents, c: nat, todo: seq<KeyId>, next: seq<KeyId>)
      requires Searching(colour, parent, c, todo, next) && todo != [] && Spread(colour, todo[0])
      ensures Searching(colour, parent, c, todo[1..], next)
    {
      assert forall u | u in todo :: u == todo[0] || u in todo[1..];
      assert forall u | u in todo[1..] :: u in todo;
    }

    /** A step from layer d lands on a coloured key, once layer c - 1 has no work left. */
    lemma StepCovered(colour: Colours, c: nat, d: nat, u: KeyId, v: KeyId)
      requires c >= 1 && Complete(colour, c) && LayerSpread(colour, c - 1, [])
      requires OnLayer(colour, d, u) && Walk(d, u) && d <= c - 1 && Step(u, v)
      ensures v in colour
    {
      if d < c - 1 {
        WalkOn(d, u, v);
      } else {
        assert Spread(colour, u);
      }
    }

    lemma SoundLater(colour: Colours, parent: Parents, c: nat)
      requires Sound(colour, parent, c)
      ensures Sound(colour, parent, c + 1)
    {
      forall v | v in colour ensures ColourAt(colour, c + 1, v) {
        assert ColourAt(colour, c, v);
      }
    }

    /** A layer is done: everything at distance c has its colour. */
    lemma LayerDone(colour: Colours, parent: Parents, c: nat, next: seq<KeyId>)
      requires Searching(colour, parent, c, [], next)
      ensures Searching(colour, parent, c + 1, next, [])
    {
      forall v | Walk(c, v) ensures v in colour {
        var u := WalkBack(c, v);
        if c > 1 {
          assert u in colour && ColourAt(colour, c, u) && !(colour[u] > c - 1);
        }
        StepCovered(colour, c, if c == 1 then 0 else colour[u], u, v);
      }
      assert forall u | u in next :: OnLayer(colour, c, u);
      forall u | u in colour ensures ColourAt(colour, c + 1, u) && colour[u] != c + 1 {
        assert ColourAt(colour, c, u);
      }
    }

    /** With no layer left to build, everything reachable has its colour. */
    lemma {:induction false} SearchDone(colour: Colours, parent: Parents, c: nat, v: KeyId, m: nat)
      requires Searching(colour, parent, c, [], []) && m >= 1 && Walk(m, v)
      ensures v in colour
      decreases m
    {
      if m >= c {
        var u := WalkBack(m, v);
        if m > 1 {
          SearchDone(colour, parent, c, u, m - 1);
          assert ColourAt(colour, c, u) && !OnLayer(colour, c, u);
          LayerWalk(colour, parent, c, colour[u], u);
          StepCovered(colour, c, colour[u], u, v);
        } else {
          StepCovered(colour, c, 0, u, v);
        }
      }
    }

    /** Barring more keys only takes chains away. */
    lemma BarMore(more: set<KeyId>, n: nat, v: KeyId)
      requires barred <= more && Net(links, root, more).Walk(n, v)
      ensures Walk(n, v)
    {
      var net := Net(links, root, more);
      var p :| net.IsWalk(p, n, v);
      forall i | 0 < i <= n ensures StepAt(p, i) {
        assert net.StepAt(p, i);
      }
      assert IsWalk(p, n, v);
    }

    // ----------------------------------------------------- following the parents

    ghost predicate BackAt(p: seq<KeyId>, i: nat) {
      0 < i < |p| && Step(p[i], p[i - 1])
    }

    /** A chain from v back to the root, as it is reported: each key is linked from the next one. */
    ghost predicate Trail(p: seq<KeyId>, v: KeyId) {
      && |p| >= 2 && p[0] == v && p[|p| - 1] == root
      && forall i | 0 < i < |p| :: BackAt(p, i)
    }

    /** The i-th key on the way from v along the parents. */
    ghost function TrailKey(parent: Parents, v: KeyId, i: nat): (r: KeyId) {
      if i == 0 then v
      else
        var u := TrailKey(parent, v, i - 1);
        if u in parent then parent[u] else root
    }

    /** Only keys one step from the root have it for parent. */
    lemma RootParent(colour: Colours, parent: Parents, c: nat, v: KeyId)
      requires Sound(colour, parent, c) && v in colour
      ensures parent[v] == root <==> colour[v] == 1
    {
      assert ParentAt(colour, parent, v) && ColourAt(colour, c, v);
      if parent[v] == root {
        WalkNowhere();
        WalkOn(0, root, v);
      }
    }

    /** Along the parents the colour drops by one with each step until the root is met, and not before. */
    lemma {:induction false} TrailAt(colour: Colours, parent: Parents, c: nat, v: KeyId, i: nat)
      requires Sound(colour, parent, c) && v in colour && v != root && i <= colour[v]
      ensures var u := TrailKey(parent, v, i);
              if i == colour[v] then u == root
              else u in colour && colour[u] == colour[v] - i && u != root
      ensures i > 0 ==> Step(TrailKey(parent, v, i), TrailKey(parent, v, i - 1))
      decreases i
    {
      assert ColourAt(colour, c, v);
      if i > 0 {
        TrailAt(colour, parent, c, v, i - 1);
        var w := TrailKey(parent, v, i - 1);
        RootParent(colour, parent, c, w);
        assert ParentAt(colour, parent, w);
      }
    }

    ghost function TrailTo(parent: Parents, v: KeyId, n: nat): (r: seq<KeyId>)
      ensures |r| == n
    {
      if n == 0 then [] else TrailTo(parent, v, n - 1) + [TrailKey(parent, v, n - 1)]
    }

    lemma {:induction false} TrailToAt(parent: Parents, v: KeyId, n: nat, i: nat)
      requires i < n
      ensures TrailTo(parent, v, n)[i] == TrailKey(parent, v, i)
    {
      if i < n - 1 {
        TrailToAt(parent, v, n - 1, i);
      }
    }

    lemma TrailIsTrail(colour: Colours, parent: Parents, c: nat, v: KeyId)
      requires Sound(colour, parent, c) && v in colour && v != root
      ensures Trail(TrailTo(parent, v, colour[v] + 1), v)
    {
      var n := colour[v];
      assert ColourAt(colour, c, v);
      var p := TrailTo(parent, v, n + 1);
      TrailAt(colour, parent, c, v, n);
      TrailToAt(parent, v, n + 1, 0);
      TrailToAt(parent, v, n + 1, n);
      forall i | 0 < i < |p| ensures BackAt(p, i) {
        TrailAt(colour, parent, c, v, i);
        TrailToAt(parent, v, n + 1, i - 1);
        TrailToAt(parent, v, n + 1, i);
      }
    }
  }

  /** A search in progress: colours and parents so far, the layer being built, and the two lists. */
  datatype Search = Search(colour: Colours, parent: Parents, c: nat, todo: seq<KeyId>, next: seq<KeyId>)

  /** Look at neighbour v of u. */
  function LookAt(net: Net, s: Search, u: KeyId, v: KeyId): (r: Search) {
    if v in net.barred || v in s.colour then s
    else s.(colour := s.colour[v := s.c], parent := s.parent[v := u], next := [v] + s.next)
  }

  /** Look at all of `list`, but stop once `have` has its colour. */
  function LookAtAll(net: Net, s: Search, u: KeyId, list: seq<KeyId>, have: set<KeyId>): (r: Search)
    ensures r.todo == s.todo && r.c == s.c
    decreases |list|
  {
    if list == [] || have * s.colour.Keys != {} then s
    else LookAtAll(net, LookAt(net, s, u, list[0]), u, list[1..], have)
  }

  /** The first key of the layer is done; after the last one the next layer is up. */
  function MoveOn(s: Search): (r: Search)
    requires s.todo != []
  {
    if |s.todo| == 1 then s.(todo := s.next, next := [], c := s.c + 1) else s.(todo := s.todo[1..])
  }

  /** One turn of the search loop. `have` is what it looks for: one key, or none. */
  function Turn(net: Net, s: Search, have: set<KeyId>): (r: Search)
    requires s.todo != []
  {
    MoveOn(LookAtAll(net, s, s.todo[0], net.Links(s.todo[0]), have))
  }

  ghost predicate Active(net: Net, s: Search) {
    net.Searching(s.colour, s.parent, s.c, s.todo, s.next)
  }

  /** What holds at every moment: colours are right, and until `have` is found none is missing. */
  ghost predicate Good(net: Net, s: Search, have: set<KeyId>) {
    && net.Sound(s.colour, s.parent, s.c)
    && (have * s.colour.Keys == {} ==> Active(net, s) && (s.todo == [] ==> s.next == []))
  }

  lemma LookKeeps(net: Net, s: Search, u: KeyId, v: KeyId)
    requires Active(net, s) && u in s.todo && v in net.Links(u)
    ensures var r := LookAt(net, s, u, v);
            && Active(net, r) && (v in net.barred || v in r.colour)
            && s.colour.Keys <= r.colour.Keys && r.c == s.c && r.todo == s.todo
            && (r.colour.Keys == s.colour.Keys ==> r.next == s.next)
  {
    if v !in net.barred && v !in s.colour {
      net.ColourStep(s.colour, s.parent, s.c, s.todo, s.next, u, v);
    }
  }

  lemma {:induction false} LookAllKeeps(net: Net, s: Search, u: KeyId, list: seq<KeyId>, have: set<KeyId>)
    requires Active(net, s) && u in s.todo && forall v | v in list :: v in net.Links(u)
    ensures var r := LookAtAll(net, s, u, list, have);
            && Active(net, r) && s.colour.Keys <= r.colour.Keys && r.c == s.c && r.todo == s.todo
            && (r.colour.Keys == s.colour.Keys ==> r.next == s.next)
            && (have * r.colour.Keys == {} ==> forall v | v in list :: v in net.barred || v in r.colour)
    decreases |list|
  {
    if list != [] && have * s.colour.Keys == {} {
      LookKeeps(net, s, u, list[0]);
      LookAllKeeps(net, LookAt(net, s, u, list[0]), u, list[1..], have);
    }
  }

  /** One turn keeps the search in order, and there is less to do afterwards. */
  lemma TurnKeeps(net: Net, s: Search, have: set<KeyId>)
    requires Good(net, s, have) && have * s.colour.Keys == {} && s.todo != []
    ensures var r := Turn(net, s, have);
            && Good(net, r, have) && s.colour.Keys <= r.colour.Keys
            && (r.colour.Keys == s.colour.Keys ==> |r.todo| + |r.next| < |s.todo| + |s.next|)
  {
    var u := s.todo[0];
    LookAllKeeps(net, s, u, net.Links(u), have);
    var m := LookAtAll(net, s, u, net.Links(u), have);
    var r := Turn(net, s, have);
    if have * m.colour.Keys == {} {
      assert net.Spread(m.colour, u);
      net.KeyDone(m.colour, m.parent, m.c, m.todo, m.next);
      if |s.todo| == 1 {
        assert m.todo[1..] == [];
        net.LayerDone(m.colour, m.parent, m.c, m.next);
      }
    } else {
      net.SoundLater(m.colour, m.parent, m.c);
    }
  }
}
