/**
 Revoked keys and paths (stats.c). A search steps on a key before it loads that key's revoked flag, so a
 reported path can lead through a revoked key. It cannot exactly if, around every revoked key whose flag
 is not loaded, there is always a direct signature instead.
 */
module LateFlags {
  import opened Sequences
  import opened KeyGraph
  import opened TrustWalks
  import opened TrustPaths

  // --------------------------------------------------------------- chains back to front

  /** A reported chain is a walk read backwards. */
  lemma TrailWalks(net: Net, p: seq<KeyId>, v: KeyId)
    requires net.Trail(p, v)
    ensures net.Walk(|p| - 1, v)
  {
    var r, n := Flipped(p), |p| - 1;
    forall i | 0 < i <= n ensures net.StepAt(r, i) {
      assert net.BackAt(p, n + 1 - i);
    }
    assert net.IsWalk(r, n, v);
  }

  /** A chain without the keys between `i` and `j`, if the one can be stepped to from the other. */
  lemma Spliced(net: Net, have: KeyId, p: seq<KeyId>, i: nat, j: nat)
    requires net.Trail(p, have) && have != net.root && i < j <= |p|
    requires if j < |p| then net.Step(p[j], p[i]) else p[i] == net.root
    ensures i + |p| - j >= 1 && net.Walk(i + |p| - j, have)
  {
    var q := p[..i + 1] + p[j..];
    forall m | 0 < m < |q| ensures net.BackAt(q, m) {
      if m <= i {
        assert net.BackAt(p, m);
      } else if m > i + 1 {
        assert net.BackAt(p, m + j - i - 1);
      }
    }
    assert i == 0 ==> j < |p|;
    assert net.Trail(q, have);
    TrailWalks(net, q, have);
  }

  /** Between two keys of a shortest chain there is no way that is shorter. */
  lemma NoShortCut(net: Net, have: KeyId, p: seq<KeyId>, i: nat, j: nat)
    requires ShortestTrail(net, have, p) && have != net.root && i + 1 < j < |p|
    ensures p[i] != p[j] && !net.Step(p[j], p[i])
  {
    if net.Step(p[j], p[i]) {
      Spliced(net, have, p, i, j);
    }
    if j + 1 < |p| {
      assert net.BackAt(p, j + 1);
    }
    if p[i] == p[j] {
      Spliced(net, have, p, i, j + 1);
    }
  }

  lemma OneWalk(net: Net, u: KeyId)
    ensures net.Walk(1, u) <==> net.Step(net.root, u)
  {
    if net.Walk(1, u) {
      var q :| net.IsWalk(q, 1, u);
      assert net.StepAt(q, 1);
    }
    if net.Step(net.root, u) {
      assert net.StepAt([net.root, u], 1);
      assert net.IsWalk([net.root, u], 1, u);
    }
  }

  // --------------------------------------------------------------------- ways around

  /**
   A way through a revoked key that nothing short-circuits: `v` signed `w` and `u` signed `v`, both may
   be stepped on as far as the flags loaded say, and `u` did not sign `w`.
   */
  ghost predicate Detour(db: Store, barred: set<KeyId>, w: KeyId, v: KeyId, u: KeyId) {
    && v in RevokedKeys(db) - barred && v in Signers(db, w)
    && u in Signers(db, v) && u !in barred + RevokedKeys(db) && u != 0
    && u != w && u !in Signers(db, w)
  }

  ghost predicate NoDetour(db: Store, barred: set<KeyId>) {
    forall w, v, u :: !Detour(db, barred, w, v, u)
  }

  /** A net of a call made when `barred` was disabled or flagged: it bars that, the two keys if revoked, or more. */
  ghost predicate NetOf(db: Store, barred: set<KeyId>, have: KeyId, want: KeyId, net: Net) {
    net.links == SignerLinks(db) && net.root == want && barred + {have, want} * RevokedKeys(db) <= net.barred
  }

  lemma {:induction false} FirstRevoked(p: seq<KeyId>, revoked: set<KeyId>, i: nat) returns (k: nat)
    requires i < |p| && p[i] in revoked
    ensures k <= i && p[k] in revoked && forall m | 0 <= m < k :: p[m] !in revoked
  {
    k := i;
    if m :| 0 <= m < i && p[m] in revoked {
      k := FirstRevoked(p, revoked, m);
    }
  }

  /** A shortest chain through a revoked key has a detour around the first such key on it. */
  lemma DetourOn(db: Store, barred: set<KeyId>, have: KeyId, want: KeyId, net: Net, p: seq<KeyId>, i: nat)
    requires NetOf(db, barred, have, want, net) && have != want && have != 0 && ShortestTrail(net, have, p)
    requires 0 < i < |p| - 1 && p[i] in RevokedKeys(db)
    ensures !NoDetour(db, barred)
  {
    var k := FirstRevoked(p, RevokedKeys(db), i);
    assert net.BackAt(p, 1) && p[0] !in net.barred;
    assert k > 0;
    var w, v, u := p[k + 1], p[k], p[k - 1];
    assert net.BackAt(p, k) && net.BackAt(p, k + 1);
    NoShortCut(net, have, p, k - 1, k + 1);
    if k > 1 {
      assert net.BackAt(p, k - 1);
    }
    assert Detour(db, barred, w, v, u);
  }

  /** No path of a report leads through a revoked key if there is no detour. */
  lemma ReportAvoids(db: Store, barred: set<KeyId>, have: KeyId, want: KeyId, nets: seq<Net>, paths: seq<seq<KeyId>>, i: nat)
    requires have != want && have != 0 && Report(db, have, want, nets, paths) && i < |paths|
    requires nets[0].barred == barred + {have, want} * RevokedKeys(db) && NoDetour(db, barred)
    ensures Inner(paths[i]) !! RevokedKeys(db)
  {
    RoundBars(db, have, want, nets, paths, i);
    assert RoundAt(db, have, want, nets, paths, i);
    forall x | x in Inner(paths[i]) ensures x !in RevokedKeys(db) {
      var m :| 0 < m < |paths[i]| - 1 && paths[i][m] == x;
      if x in RevokedKeys(db) {
        DetourOn(db, barred, have, want, nets[i], paths[i], m);
      }
    }
  }

  /** The first net of a call. */
  ghost function FirstNet(db: Store, barred: set<KeyId>, have: KeyId, want: KeyId): (net: Net) {
    Net(SignerLinks(db), want, barred + {have, want} * RevokedKeys(db))
  }

  /** A detour is a shortest chain of its own. */
  lemma DetourIsShortest(db: Store, barred: set<KeyId>, w: KeyId, v: KeyId, u: KeyId)
    requires Detour(db, barred, w, v, u)
    ensures ShortestTrail(FirstNet(db, barred, u, w), u, [u, v, w]) && v in Inner([u, v, w])
  {
    var net, p := FirstNet(db, barred, u, w), [u, v, w];
    assert v != w && v != u;
    assert net.BackAt(p, 1) && net.BackAt(p, 2);
    TrailWalks(net, p, u);
    OneWalk(net, u);
    assert p[1] in Inner(p);
  }

  ghost predicate Avoids(db: Store, barred: set<KeyId>, have: KeyId, want: KeyId, p: seq<KeyId>) {
    have != want && have != 0 && ShortestTrail(FirstNet(db, barred, have, want), have, p) ==> Inner(p) !! RevokedKeys(db)
  }

  /**
   What was disabled or flagged at a call keeps shortest chains away from revoked keys, whichever two keys
   are asked for, exactly if there is no detour.
   */
  lemma AvoidsRevokedIff(db: Store, barred: set<KeyId>)
    ensures (forall have, want, p :: Avoids(db, barred, have, want, p)) <==> NoDetour(db, barred)
  {
    if NoDetour(db, barred) {
      forall have, want, p ensures Avoids(db, barred, have, want, p) {
        var net := FirstNet(db, barred, have, want);
        if have != want && have != 0 && ShortestTrail(net, have, p) {
          forall x | x in Inner(p) ensures x !in RevokedKeys(db) {
            var m :| 0 < m < |p| - 1 && p[m] == x;
            if x in RevokedKeys(db) {
              DetourOn(db, barred, have, want, net, p, m);
            }
          }
        }
      }
    } else {
      var w, v, u :| Detour(db, barred, w, v, u);
      DetourIsShortest(db, barred, w, v, u);
      assert !Avoids(db, barred, u, w, [u, v, w]);
    }
  }

  // ------------------------------------------------------------------ an input that fails

  /** Key 1 is signed by key 2, which is revoked and signed by key 3, which signs itself. */
  function LateStore(): (db: Store) {
    map[1 := Record([[2]], false), 2 := Record([[3]], true), 3 := Record([[3]], false)]
  }

  lemma OneSigner(db: Store, k: KeyId, v: KeyId)
    requires k != 0 && k in db && db[k].uids == [[v]]
    ensures Signers(db, k) == [v]
  {
    assert PushAll([v], []) == PushAll([], [v] + []) == [v];
    assert PushUids([[v]], []) == PushUids([], PushAll([v], []));
  }

  lemma LateLinks()
    ensures var db := LateStore();
            && SignerLinks(db) == map[1 := [2], 2 := [3], 3 := [3]] && RevokedKeys(db) == {2}
  {
    var db := LateStore();
    OneSigner(db, 1, 2);
    OneSigner(db, 2, 3);
    OneSigner(db, 3, 3);
  }

  lemma LateReach(barred: set<KeyId>)
    requires barred <= {2}
    ensures var net := Net(map[1 := [2], 2 := [3], 3 := [3]], 1, barred);
            && (barred == {} ==> net.Walk(2, 3))
            && forall p | ShortestTrail(net, 3, p) :: barred == {} && p == [3, 2, 1]
  {
    var net := Net(map[1 := [2], 2 := [3], 3 := [3]], 1, barred);
    if barred == {} {
      assert net.StepAt([1, 2, 3], 1) && net.StepAt([1, 2, 3], 2);
      assert net.IsWalk([1, 2, 3], 2, 3);
      assert net.Walk(2, 3);
    }
    forall p | ShortestTrail(net, 3, p) ensures barred == {} && p == [3, 2, 1] {
      var n := |p| - 1;
      assert net.BackAt(p, n);
      assert p[n - 1] == 2 && barred == {};
      assert net.Distance(3, n) && net.Walk(2, 3);
      assert n == 2;
    }
  }

  /**
   A search colours a key before it loads the flag of that key. Asked for a path from key 3 to key 1, a
   fresh cache reports the one through key 2, though that is revoked; once key 2 has been loaded there
   is none.
   */
  method RevokedOnPath(loaded: bool) returns (paths: seq<seq<KeyId>>)
    ensures paths == if loaded then [] else [[3, 2, 1]]
    ensures 2 in RevokedKeys(LateStore())
  {
    LateLinks();
    var cache := new StatsCache(LateStore());
    if loaded {
      var _ := cache.CachedGetKeySigs(2);
    }
    ghost var nets;
    OneSigner(LateStore(), 1, 2);
    OneSigner(LateStore(), 3, 3);
    ghost var barred := cache.revoked;
    assert barred == if loaded then {2} else {};
    LateReach(barred);
    paths, nets := cache.DoFindPath(3, 1, 1);
    assert cache.db == LateStore() && RoundAt(cache.db, 3, 1, nets, paths, 0);
    assert nets[0] == Net(map[1 := [2], 2 := [3], 3 := [3]], 1, barred);
    if paths == [] {
      assert Exhausted(3, nets, paths) && !nets[0].Reachable(3);
    } else {
      assert ShortestTrail(nets[0], 3, paths[0]);
    }
  }
}
