/** Facts about sequences and sets that several files use. */
module Sequences {
  lemma ConcatAssoc<T>(a: seq<T>, b: seq<T>, c: seq<T>)
    ensures (a + b) + c == a + (b + c)
  {
  }

  ghost predicate NoRepeats<T(!new)>(s: seq<T>) {
    forall i, j | 0 <= i < j < |s| :: s[i] != s[j]
  }

  lemma SubsetSize<T>(a: set<T>, b: set<T>)
    requires a <= b
    ensures |a| <= |b|
  {
    assert b == a + (b - a);
  }

  /** `r` is what is left of `s` at these positions, in order. */
  ghost predicate Picks<T>(r: seq<T>, s: seq<T>, pos: seq<nat>) {
    && |pos| == |r| && (forall m | 0 <= m < |r| :: pos[m] < |s| && r[m] == s[pos[m]])
    && forall m, n | 0 <= m < n < |pos| :: pos[m] < pos[n]
  }

  /** The same positions, seen from one place earlier. */
  lemma PicksUp<T>(r: seq<T>, s: seq<T>, pos: seq<nat>) returns (up: seq<nat>)
    requires s != [] && Picks(r, s[1..], pos)
    ensures Picks(r, s, up) && |up| == |pos| && forall m | 0 <= m < |up| :: up[m] == pos[m] + 1
  {
    up := seq(|pos|, m requires 0 <= m < |pos| => pos[m] + 1);
    assert forall m | 0 <= m < |up| :: s[1..][pos[m]] == s[up[m]];
  }

  lemma UpIn(pos: seq<nat>, up: seq<nat>, k: nat)
    requires |up| == |pos| && forall m | 0 <= m < |up| :: up[m] == pos[m] + 1
    ensures k in up <==> k > 0 && k - 1 in pos
  {
    if k > 0 && k - 1 in pos {
      var m :| 0 <= m < |pos| && pos[m] == k - 1;
      assert up[m] == k;
    }
  }

  /** One more element in front that is left out. */
  lemma PicksSkip<T>(r: seq<T>, s: seq<T>, pos: seq<nat>) returns (q: seq<nat>)
    requires s != [] && Picks(r, s[1..], pos)
    ensures Picks(r, s, q) && forall k: nat :: k in q <==> k > 0 && k - 1 in pos
  {
    q := PicksUp(r, s, pos);
    forall k: nat ensures k in q <==> k > 0 && k - 1 in pos {
      UpIn(pos, q, k);
    }
  }

  /** One more element in front that is left in. */
  lemma PicksKeep<T>(r: seq<T>, s: seq<T>, pos: seq<nat>) returns (q: seq<nat>)
    requires s != [] && Picks(r, s[1..], pos)
    ensures Picks([s[0]] + r, s, q) && forall k: nat :: k in q <==> k == 0 || k - 1 in pos
  {
    var up := PicksUp(r, s, pos);
    PicksHead(r, s, up, 0);
    q := [0] + up;
    forall k: nat ensures k in q <==> k == 0 || k - 1 in pos {
      UpIn(pos, up, k);
      InCons(up, k);
    }
  }

  lemma InCons(up: seq<nat>, k: nat)
    ensures k in [0] + up <==> k == 0 || k in up
  {
  }

  /** One more position in front of the others. */
  lemma PicksHead<T>(r: seq<T>, s: seq<T>, pos: seq<nat>, k: nat)
    requires Picks(r, s, pos) && k < |s| && forall m | 0 <= m < |pos| :: k < pos[m]
    ensures Picks([s[k]] + r, s, [k] + pos)
  {
    var q := [k] + pos;
    forall m, n | 0 <= m < n < |q| ensures q[m] < q[n] {
      assert q[n] == pos[n - 1] && (m > 0 ==> q[m] == pos[m - 1]);
    }
  }

  /** A sequence back to front. */
  function Flipped<T>(p: seq<T>): (r: seq<T>)
    ensures |r| == |p| && forall i | 0 <= i < |p| :: r[i] == p[|p| - 1 - i]
  {
    seq(|p|, i requires 0 <= i < |p| => p[|p| - 1 - i])
  }
}
