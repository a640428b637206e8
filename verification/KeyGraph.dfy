/** Signature graphs: who signed whom, in both directions, and reachability in them. */
module KeyGraph {

  type KeyId = nat

  /** The two edge lists a key carries: the keys it signs, and the keys whose signatures it has. */
  datatype Direction = Signs | Sigs

  datatype Graph = Graph(nodes: set<KeyId>, signs: map<KeyId, seq<KeyId>>, sigs: map<KeyId, seq<KeyId>>) {

    /** Every key in the table carries both lists; a list may name keys that are not in the table. */
    ghost predicate Valid() {
      signs.Keys == nodes && sigs.Keys == nodes
    }

    function Next(d: Direction, u: KeyId): (r: seq<KeyId>)
      requires Valid() && u in nodes
    {
      match d
      case Signs => signs[u]
      case Sigs => sigs[u]
    }

    ghost predicate Edge(d: Direction, u: KeyId, v: KeyId)
      requires Valid()
    {
      u in nodes && v in nodes && v in Next(d, u)
    }

    /** `signs` is the transpose of `sigs`. */
    ghost predicate Transposed()
      requires Valid()
    {
      forall u, v :: Edge(Signs, u, v) <==> Edge(Sigs, v, u)
    }

    ghost predicate Path(d: Direction, p: seq<KeyId>)
      requires Valid()
    {
      |p| > 0 && p[0] in nodes && forall i | 0 < i < |p| :: Edge(d, p[i - 1], p[i])
    }

    /** A path from `u` to `v` that stays inside `area`. */
    ghost predicate PathIn(d: Direction, area: set<KeyId>, p: seq<KeyId>, u: KeyId, v: KeyId)
      requires Valid()
    {
      Path(d, p) && p[0] == u && p[|p| - 1] == v && forall i | 0 <= i < |p| :: p[i] in area
    }

    ghost predicate ReachIn(d: Direction, area: set<KeyId>, u: KeyId, v: KeyId)
      requires Valid()
    {
      exists p :: PathIn(d, area, p, u, v)
    }

    ghost predicate Reach(d: Direction, u: KeyId, v: KeyId)
      requires Valid()
    {
      ReachIn(d, nodes, u, v)
    }

    /** Mutually reachable: in the same strongly connected component. */
    ghost predicate Mutual(u: KeyId, v: KeyId)
      requires Valid()
    {
      Reach(Signs, u, v) && Reach(Signs, v, u)
    }

    lemma ReachRefl(d: Direction, area: set<KeyId>, u: KeyId)
      requires Valid() && u in nodes && u in area
      ensures ReachIn(d, area, u, u)
    {
      assert PathIn(d, area, [u], u, u);
    }

    lemma ReachStep(d: Direction, area: set<KeyId>, inner: set<KeyId>, u: KeyId, v: KeyId, w: KeyId)
      requires Valid() && u in area && Edge(d, u, v) && inner <= area && ReachIn(d, inner, v, w)
      ensures ReachIn(d, area, u, w)
    {
      var p :| PathIn(d, inner, p, v, w);
      assert PathIn(d, area, [u] + p, u, w);
    }

    lemma ReachWider(d: Direction, area: set<KeyId>, wide: set<KeyId>, u: KeyId, v: KeyId)
      requires Valid() && area <= wide && ReachIn(d, area, u, v)
      ensures ReachIn(d, wide, u, v)
    {
      var p :| PathIn(d, area, p, u, v);
      assert PathIn(d, wide, p, u, v);
    }

    lemma ReachTrans(d: Direction, area: set<KeyId>, u: KeyId, v: KeyId, w: KeyId)
      requires Valid() && ReachIn(d, area, u, v) && ReachIn(d, area, v, w)
      ensures ReachIn(d, area, u, w)
    {
      var p :| PathIn(d, area, p, u, v);
      var q :| PathIn(d, area, q, v, w);
      var r := p + q[1..];
      forall i | 0 < i < |r| ensures Edge(d, r[i - 1], r[i]) {
        if i == |p| {
          assert Edge(d, q[0], q[1]);
        } else if i > |p| {
          assert Edge(d, q[i - |p|], q[i - |p| + 1]);
        }
      }
      assert PathIn(d, area, r, u, w);
    }

    /** A path cannot leave a set that no edge leaves. */
    lemma {:induction false} StaysInside(d: Direction, area: set<KeyId>, core: set<KeyId>, p: seq<KeyId>, u: KeyId, v: KeyId)
      requires Valid() && PathIn(d, area, p, u, v) && u in core
      requires forall x, y :: x in core && y in area && Edge(d, x, y) ==> y in core
      ensures v in core
      decreases |p|
    {
      if |p| > 1 {
        assert Edge(d, p[0], p[1]);
        var q := p[1..];
        forall i | 0 < i < |q| ensures Edge(d, q[i - 1], q[i]) {
          assert Edge(d, p[i], p[i + 1]);
        }
        StaysInside(d, area, core, q, p[1], v);
      }
    }

    /** Nodes on a path, and the two halves of it. */
    lemma OnPath(d: Direction, area: set<KeyId>, p: seq<KeyId>, u: KeyId, v: KeyId, i: nat)
      requires Valid() && PathIn(d, area, p, u, v) && i < |p|
      ensures ReachIn(d, area, u, p[i]) && ReachIn(d, area, p[i], v)
    {
      assert PathIn(d, area, p[..i + 1], u, p[i]);
      var q := p[i..];
      forall k | 0 < k < |q| ensures Edge(d, q[k - 1], q[k]) {
        assert Edge(d, p[i + k - 1], p[i + k]);
      }
      assert i > 0 ==> Edge(d, p[i - 1], p[i]);
      assert PathIn(d, area, q, p[i], v);
    }

    ghost function Flip(d: Direction): (r: Direction) {
      if d == Signs then Sigs else Signs
    }

    ghost function Reversed(p: seq<KeyId>): (r: seq<KeyId>) {
      seq(|p|, i requires 0 <= i < |p| => p[|p| - 1 - i])
    }

    /** In a transposed pair of edge lists a path one way is a path back the other way. */
    lemma ReversePath(d: Direction, area: set<KeyId>, p: seq<KeyId>, u: KeyId, v: KeyId)
      requires Valid() && Transposed() && PathIn(d, area, p, u, v)
      ensures PathIn(Flip(d), area, Reversed(p), v, u)
    {
      var r := Reversed(p);
      forall i | 0 < i < |r| ensures Edge(Flip(d), r[i - 1], r[i]) {
        var k := |p| - i;
        assert Edge(d, p[k - 1], p[k]) && r[i - 1] == p[k] && r[i] == p[k - 1];
      }
      if |p| > 1 {
        assert Edge(d, p[|p| - 2], p[|p| - 1]);
      }
    }

    lemma ReverseReach(d: Direction, area: set<KeyId>, u: KeyId, v: KeyId)
      requires Valid() && Transposed() && ReachIn(d, area, u, v)
      ensures ReachIn(Flip(d), area, v, u)
    {
      var p :| PathIn(d, area, p, u, v);
      ReversePath(d, area, p, u, v);
    }
  }
}
