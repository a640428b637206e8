/** The sorted fingerprint array (keyarray.c) used for the blacklist and for text search. */
module KeyArray {
  import opened Packets
  import opened Merge
  import opened SksHash

  /** fingerprint_cmp(a, b) < 0: the shorter one first, then octet by octet. */
  predicate FpLess(a: Fingerprint, b: Fingerprint) {
    |a| < |b| || (|a| == |b| && Before(a, b))
  }

  lemma FpOrder(a: Fingerprint, b: Fingerprint, c: Fingerprint)
    ensures FpLess(a, b) && FpLess(b, c) ==> FpLess(a, c)
    ensures FpLess(a, b) ==> !FpLess(b, a)
    ensures !FpLess(a, b) && !FpLess(b, a) ==> a == b
  {
    BeforeOrder(a, b, c);
  }

  /** Strictly ascending, so without duplicates. */
  ghost predicate Ascending(s: seq<Fingerprint>) {
    forall i, j | 0 <= i < j < |s| :: FpLess(s[i], s[j])
  }

  /** Everything below `at` is less than `fp` and nothing from it on is. */
  ghost predicate Splits(s: seq<Fingerprint>, at: nat, fp: Fingerprint) {
    && at <= |s|
    && (forall i | 0 <= i < at :: FpLess(s[i], fp))
    && (forall i | at <= i < |s| :: !FpLess(s[i], fp))
  }

  lemma SplitFinds(s: seq<Fingerprint>, at: nat, fp: Fingerprint)
    requires Ascending(s) && Splits(s, at, fp)
    ensures fp in s <==> at < |s| && s[at] == fp
  {
    FpOrder(fp, fp, fp);
    if fp in s {
      var i :| 0 <= i < |s| && s[i] == fp;
      if at < i {
        assert FpLess(s[at], s[i]);
      }
    }
  }

  lemma SplitInserts(s: seq<Fingerprint>, at: nat, fp: Fingerprint)
    requires Ascending(s) && Splits(s, at, fp) && fp !in s
    ensures Ascending(s[..at] + [fp] + s[at..])
  {
    var r: seq<Fingerprint> := s[..at] + [fp] + s[at..];
    forall i, j | 0 <= i < j < |r| ensures FpLess(r[i], r[j]) {
      if i == at {
        FpOrder(fp, s[j - 1], fp);
        assert s[j - 1] in s;
      } else if j != at {
        var a, b := if i < at then i else i - 1, if j < at then j else j - 1;
        assert FpLess(s[a], s[b]);
      }
    }
  }

  lemma SplitHalf(s: seq<Fingerprint>, mid: nat, fp: Fingerprint)
    requires Ascending(s) && mid < |s|
    ensures FpLess(s[mid], fp) ==> forall i | 0 <= i <= mid :: FpLess(s[i], fp)
    ensures !FpLess(s[mid], fp) ==> forall i | mid <= i < |s| :: !FpLess(s[i], fp)
  {
    forall i | 0 <= i < |s| ensures i <= mid && FpLess(s[mid], fp) ==> FpLess(s[i], fp) {
      FpOrder(s[i], s[mid], fp);
    }
    forall i | 0 <= i < |s| ensures i >= mid && !FpLess(s[mid], fp) ==> !FpLess(s[i], fp) {
      FpOrder(s[mid], s[i], fp);
    }
  }

  /** The binary search both functions make, ended by looking at the last candidate. */
  method Search(s: seq<Fingerprint>, fp: Fingerprint) returns (at: nat)
    requires Ascending(s)
    ensures Splits(s, at, fp)
  {
    if |s| == 0 {
      return 0;
    }
    var bottom, top := -1, |s| - 1;
    while top - bottom > 1
      invariant -1 <= bottom < top < |s|
      invariant forall i | 0 <= i <= bottom :: FpLess(s[i], fp)
      invariant top < |s| - 1 ==> forall i | top <= i < |s| :: !FpLess(s[i], fp)
    {
      var mid := (top + bottom) / 2;
      SplitHalf(s, mid, fp);
      if FpLess(s[mid], fp) {
        bottom := mid;
      } else {
        top := mid;
      }
    }
    SplitHalf(s, top, fp);
    at := if FpLess(s[top], fp) then top + 1 else top;
  }

  class KeyArray {
    var keys: seq<Fingerprint>

    ghost predicate Valid()
      reads this
    {
      Ascending(keys)
    }

    constructor ()
      ensures Valid() && keys == []
    {
      keys := [];
    }

    /** array_find. */
    method Find(fp: Fingerprint) returns (found: bool)
      requires Valid()
      ensures found <==> fp in keys
    {
      var at := Search(keys, fp);
      SplitFinds(keys, at, fp);
      found := at < |keys| && keys[at] == fp;
    }

    /** array_add: in its place, unless it is there already. */
    method Add(fp: Fingerprint) returns (added: bool)
      requires Valid()
      modifies this
      ensures Valid() && added == (fp !in old(keys))
      ensures forall x :: x in keys <==> x in old(keys) || x == fp
    {
      var at := Search(keys, fp);
      SplitFinds(keys, at, fp);
      added := !(at < |keys| && keys[at] == fp);
      if added {
        SplitInserts(keys, at, fp);
        ghost var was := keys;
        keys := keys[..at] + [fp] + keys[at..];
        assert was == was[..at] + was[at..];
      }
    }
  }
}
