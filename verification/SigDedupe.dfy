/**
 The per-signer collapse of merge.c (dedupe_sigs), stated without its loops: within one
 class of signatures (same version, type and known issuer) exactly one entry survives.
 */
module SigDedupe {
  import opened Packets

  /** signatures_match_signer. */
  predicate MatchesSigner(a: Signature, b: Signature) {
    a.version == b.version && a.sigtype == b.sigtype && a.issuer != 0 && a.issuer == b.issuer
  }

  /** `a` displaces `b`: the first revocation wins, otherwise the newest, otherwise the first. */
  predicate Beats(a: Signature, b: Signature, earlier: bool) {
    MatchesSigner(a, b) &&
    if IsRevocation(a.sigtype) then earlier
    else a.created > b.created || (a.created == b.created && earlier)
  }

  predicate Survives(s: seq<Signature>, k: nat)
    requires k < |s|
  {
    forall i | 0 <= i < |s| && i != k :: !Beats(s[i], s[k], i < k)
  }

  function SurvivorsFrom(s: seq<Signature>, k: nat): (r: seq<Signature>)
    requires k <= |s|
    decreases |s| - k
  {
    if k == |s| then []
    else (if Survives(s, k) then [s[k]] else []) + SurvivorsFrom(s, k + 1)
  }

  /** The entries nothing displaces, in their original order. */
  function Survivors(s: seq<Signature>): (r: seq<Signature>) {
    SurvivorsFrom(s, 0)
  }

  /** No two entries are from the same signer class. */
  ghost predicate Deduped(s: seq<Signature>) {
    forall i, j | 0 <= i < j < |s| :: !MatchesSigner(s[i], s[j])
  }

  function Without(s: seq<Signature>, j: nat): (r: seq<Signature>)
    requires j < |s|
  {
    s[..j] + s[j+1..]
  }

  lemma SurvivesWithout(s: seq<Signature>, j: nat, i: nat, k: nat)
    requires i < |s| && j < |s| && i != j && Beats(s[i], s[j], i < j)
    requires k < |s| && k != j
    ensures Survives(Without(s, j), if k < j then k else k - 1) == Survives(s, k)
  {
    var t := Without(s, j);
    var k' := if k < j then k else k - 1;
    if Survives(t, k') {
      forall m | 0 <= m < |s| && m != k ensures !Beats(s[m], s[k], m < k) {
        var w := if m == j then i else m;
        if w != k {
          assert t[if w < j then w else w - 1] == s[w];
        }
      }
    }
    if Survives(s, k) {
      forall m' | 0 <= m' < |t| && m' != k' ensures !Beats(t[m'], t[k'], m' < k') {
        assert t[m'] == s[if m' < j then m' else m' + 1];
      }
    }
  }

  lemma {:induction false} SurvivorsFromWithout(s: seq<Signature>, j: nat, i: nat, k: nat)
    requires i < |s| && j < |s| && i != j && Beats(s[i], s[j], i < j)
    requires k <= |s|
    ensures SurvivorsFrom(Without(s, j), if k <= j then k else k - 1) == SurvivorsFrom(s, k)
    decreases |s| - k
  {
    if k < |s| {
      SurvivorsFromWithout(s, j, i, k + 1);
      if k != j {
        SurvivesWithout(s, j, i, k);
        assert Without(s, j)[if k < j then k else k - 1] == s[k];
      } else {
        assert !Survives(s, k);
        assert [] + SurvivorsFrom(s, k + 1) == SurvivorsFrom(s, k + 1);
      }
    }
  }

  /** Dropping an entry that another one displaces changes nothing in the outcome. */
  lemma DropBeaten(s: seq<Signature>, j: nat, i: nat)
    requires i < |s| && j < |s| && i != j && Beats(s[i], s[j], i < j)
    ensures Survivors(Without(s, j)) == Survivors(s)
  {
    SurvivorsFromWithout(s, j, i, 0);
  }

  lemma {:induction false} DedupedFromFixed(s: seq<Signature>, k: nat)
    requires Deduped(s) && k <= |s|
    ensures SurvivorsFrom(s, k) == s[k..]
    decreases |s| - k
  {
    if k < |s| {
      DedupedFromFixed(s, k + 1);
    }
  }

  lemma DedupedFixed(s: seq<Signature>)
    requires Deduped(s)
    ensures Survivors(s) == s
  {
    DedupedFromFixed(s, 0);
  }

  /** Index in `s` from which the survivor at position `m` of SurvivorsFrom(s, k) was taken. */
  ghost function Origin(s: seq<Signature>, k: nat, m: nat): (o: nat)
    requires k <= |s| && m < |SurvivorsFrom(s, k)|
    ensures k <= o < |s| && Survives(s, o) && s[o] == SurvivorsFrom(s, k)[m]
    ensures forall m' | 0 <= m' < m :: Origin(s, k, m') < o
    decreases |s| - k, m
  {
    if Survives(s, k) then
      if m == 0 then k else Origin(s, k + 1, m - 1)
    else
      Origin(s, k + 1, m)
  }

  /** Exactly one per class is left, so a second pass finds nothing to do. */
  lemma SurvivorsDeduped(s: seq<Signature>)
    ensures Deduped(Survivors(s))
    ensures Survivors(Survivors(s)) == Survivors(s)
  {
    var r := Survivors(s);
    forall i, j | 0 <= i < j < |r| ensures !MatchesSigner(r[i], r[j]) {
      var a, b := Origin(s, 0, i), Origin(s, 0, j);
      assert Origin(s, 0, i) < b && !Beats(s[a], s[b], a < b) && !Beats(s[b], s[a], b < a);
    }
    DedupedFixed(r);
  }

  lemma {:induction false} SurvivorIn(s: seq<Signature>, k: nat, i: nat)
    requires k <= i < |s| && Survives(s, i)
    ensures s[i] in SurvivorsFrom(s, k)
    decreases i - k
  {
    if k < i {
      SurvivorIn(s, k + 1, i);
    }
  }

  lemma SurvivorFrom(s: seq<Signature>, x: Signature) returns (o: nat)
    requires x in Survivors(s)
    ensures o < |s| && s[o] == x && Survives(s, o)
  {
    var m :| 0 <= m < |Survivors(s)| && Survivors(s)[m] == x;
    o := Origin(s, 0, m);
  }

  /** Whatever is displaced is displaced by a survivor: every class keeps its best member. */
  lemma {:induction false} ClassKeepsBest(s: seq<Signature>, k: nat) returns (b: nat)
    requires k < |s|
    ensures b < |s| && Survives(s, b) && s[b] in Survivors(s)
    ensures b == k || Beats(s[b], s[k], b < k)
  {
    b := BestUpTo(s, k, |s|);
    forall i | 0 <= i < |s| && i != b ensures !Beats(s[i], s[b], i < b) { }
    SurvivorIn(s, 0, b);
  }

  lemma {:induction false} BestUpTo(s: seq<Signature>, k: nat, n: nat) returns (b: nat)
    requires k < |s| && n <= |s|
    ensures b < |s| && (b == k || Beats(s[b], s[k], b < k))
    ensures forall i | 0 <= i < n && i != b :: !Beats(s[i], s[b], i < b)
    decreases n
  {
    if n == 0 {
      b := k;
    } else {
      b := BestUpTo(s, k, n - 1);
      if b != n - 1 && Beats(s[n - 1], s[b], n - 1 < b) {
        b := n - 1;
      }
    }
  }

  /** The first `n` entries have no match further down. */
  ghost predicate Settled(s: seq<Signature>, n: nat) {
    n <= |s| && forall k, m | 0 <= k < n && k < m < |s| :: !MatchesSigner(s[k], s[m])
  }

  /** Entry `i` has no match among those after it and before `j`. */
  ghost predicate Unmatched(s: seq<Signature>, i: nat, j: nat) {
    i < j <= |s| && forall m | i < m < j :: !MatchesSigner(s[i], s[m])
  }

  /** Entry `i` drops entry `j`. */
  lemma CollapseStep(s: seq<Signature>, i: nat, j: nat)
    requires i < j < |s| && Settled(s, i) && Unmatched(s, i, j) && Beats(s[i], s[j], true)
    ensures var t := Without(s, j);
            Settled(t, i) && Unmatched(t, i, j) && Survivors(t) == Survivors(s)
  {
    DropBeaten(s, j, i);
  }

  /** Entry `i` goes because a later one displaces it. */
  lemma DisplacedStep(s: seq<Signature>, i: nat, j: nat)
    requires i < j < |s| && Settled(s, i) && Beats(s[j], s[i], false)
    ensures Settled(Without(s, i), i) && Survivors(Without(s, i)) == Survivors(s)
  {
    DropBeaten(s, i, j);
  }
}
