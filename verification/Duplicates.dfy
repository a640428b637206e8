/** dedupuids and dedupsubkeys (cleankey.c): a packet listed more than once is kept once, with all its signatures. */
module Duplicates {
  import opened Packets
  import opened SigDedupe
  import opened Merge
  import opened Join

  /** The list without the packets that equal `p`. */
  function Others(list: seq<SignedPacket>, p: Packet): (r: seq<SignedPacket>)
    ensures |r| <= |list|
  {
    if list == [] then []
    else (if SamePacket(list[0].packet, p) then [] else [list[0]]) + Others(list[1..], p)
  }

  /** Signatures after merging in, one after the other, those of every packet in the list that equals `p`. */
  function Gathered(sigs: seq<Signature>, list: seq<SignedPacket>, p: Packet): (r: seq<Signature>)
    decreases |list|
  {
    if list == [] then sigs
    else Gathered(if SamePacket(list[0].packet, p) then MergeSigs(sigs, list[0].sigs) else sigs, list[1..], p)
  }

  function Single(list: seq<SignedPacket>): (r: seq<SignedPacket>)
    ensures |r| <= |list|
    decreases |list|
  {
    if list == [] then []
    else
      var p := list[0].packet;
      [SignedPacket(p, Gathered(list[0].sigs, list[1..], p))] + Single(Others(list[1..], p))
  }

  // ------------------------------------------------------------------- content

  lemma {:induction false} HasOthers(list: seq<SignedPacket>, p: Packet, q: Packet)
    ensures Has(Others(list, p), q) <==> Has(list, q) && !SamePacket(q, p)
  {
    if list != [] {
      HasOthers(list[1..], p, q);
      HasStep(list, q);
      if !SamePacket(list[0].packet, p) {
        HasStep([list[0]] + Others(list[1..], p), q);
        assert ([list[0]] + Others(list[1..], p))[1..] == Others(list[1..], p);
      } else {
        assert Others(list, p) == Others(list[1..], p);
      }
    }
  }

  lemma HasStep(list: seq<SignedPacket>, q: Packet)
    requires list != []
    ensures Has(list, q) <==> SamePacket(list[0].packet, q) || Has(list[1..], q)
  {
  }

  /** Afterwards no packet is listed twice, and the same packets are listed as before. */
  lemma {:induction false} SingleDistinct(list: seq<SignedPacket>, q: Packet)
    ensures DistinctPackets(Single(list))
    ensures Has(Single(list), q) <==> Has(list, q)
    decreases |list|
  {
    if list != [] {
      var p := list[0].packet;
      var rest := Others(list[1..], p);
      var head := SignedPacket(p, Gathered(list[0].sigs, list[1..], p));
      SingleDistinct(rest, q);
      SingleDistinct(rest, p);
      HasOthers(list[1..], p, p);
      HasOthers(list[1..], p, q);
      DistinctCons([head], Single(rest));
      HasStep(list, q);
      HasStep([head] + Single(rest), q);
      assert ([head] + Single(rest))[1..] == Single(rest);
    }
  }

  lemma {:induction false} OthersSize(list: seq<SignedPacket>, p: Packet)
    ensures |Others(list, p)| == |list| <==> !Has(list, p)
    ensures !Has(list, p) ==> Others(list, p) == list && forall sigs :: Gathered(sigs, list, p) == sigs
  {
    if list != [] {
      OthersSize(list[1..], p);
      HasStep(list, p);
    }
  }

  /** A list is left as it is exactly when no packet was listed twice, and then nothing is counted. */
  lemma {:induction false} SingleFixed(list: seq<SignedPacket>)
    ensures |Single(list)| == |list| <==> DistinctPackets(list)
    ensures DistinctPackets(list) ==> Single(list) == list
    decreases |list|
  {
    if list != [] {
      var p := list[0].packet;
      OthersSize(list[1..], p);
      SingleFixed(Others(list[1..], p));
      if DistinctPackets(list) {
        DistinctHead(list, p);
      }
      if !Has(list[1..], p) && DistinctPackets(list[1..]) {
        DistinctCons([list[0]], list[1..]);
        assert [list[0]] + list[1..] == list;
      }
    }
  }

  /** The newest creation time over every packet of the list that equals `p`. */
  function AllLevels(list: seq<SignedPacket>, p: Packet, c: SignerClass): (n: nat) {
    if list == [] then 0
    else Max(if SamePacket(list[0].packet, p) then Newest(list[0].sigs, c) else 0, AllLevels(list[1..], p, c))
  }

  lemma {:induction false} GatheredLevel(sigs: seq<Signature>, list: seq<SignedPacket>, p: Packet, c: SignerClass)
    requires c.Valid()
    ensures Newest(Gathered(sigs, list, p), c) == Max(Newest(sigs, c), AllLevels(list, p, c))
    decreases |list|
  {
    if list != [] {
      if SamePacket(list[0].packet, p) {
        NewestMerge(sigs, list[0].sigs, c);
        GatheredLevel(MergeSigs(sigs, list[0].sigs), list[1..], p, c);
      } else {
        GatheredLevel(sigs, list[1..], p, c);
      }
    }
  }

  lemma {:induction false} OthersLevels(list: seq<SignedPacket>, p: Packet, q: Packet, c: SignerClass)
    ensures AllLevels(Others(list, p), q, c) == if SamePacket(p, q) then 0 else AllLevels(list, q, c)
  {
    if list != [] {
      OthersLevels(list[1..], p, q, c);
      if !SamePacket(list[0].packet, p) {
        assert ([list[0]] + Others(list[1..], p))[1..] == Others(list[1..], p);
      } else {
        assert Others(list, p) == Others(list[1..], p);
      }
    }
  }

  lemma {:induction false} SameLevels(list: seq<SignedPacket>, p: Packet, q: Packet, c: SignerClass)
    requires SamePacket(p, q)
    ensures AllLevels(list, p, c) == AllLevels(list, q, c)
  {
    if list != [] {
      SameLevels(list[1..], p, q, c);
    }
  }

  /** No certification is lost by removing duplicates: every signer's newest one is still there. */
  lemma {:induction false} SingleKeepsLevels(list: seq<SignedPacket>, q: Packet, c: SignerClass)
    requires c.Valid()
    ensures AllLevels(Single(list), q, c) == AllLevels(list, q, c)
    decreases |list|
  {
    if list != [] {
      var p := list[0].packet;
      var rest := Others(list[1..], p);
      SingleKeepsLevels(rest, q, c);
      OthersLevels(list[1..], p, q, c);
      GatheredLevel(list[0].sigs, list[1..], p, c);
      assert Single(list)[1..] == Single(rest);
      if SamePacket(p, q) {
        SameLevels(list[1..], p, q, c);
      }
    }
  }

  // ------------------------------------------------------------------ the loops

  /** One duplicate merged and unlinked: what is still to come is the same. */
  lemma {:induction false} AbsorbOne(sigs: seq<Signature>, list: seq<SignedPacket>, p: Packet)
    requires Has(list, p)
    ensures var j := FindSigned(list, p);
            var left := list[..j] + list[j + 1..];
            && Gathered(MergeSigs(sigs, list[j].sigs), left, p) == Gathered(sigs, list, p)
            && Others(left, p) == Others(list, p)
    decreases |list|
  {
    var j := FindSigned(list, p);
    var left := list[..j] + list[j + 1..];
    if j == 0 {
      assert left == list[1..];
    } else {
      AbsorbOne(sigs, list[1..], p);
      assert left[1..] == list[1..][..j - 1] + list[1..][j..];
      assert left[0] == list[0];
    }
  }

  /** The inner loop of dedupuids and dedupsubkeys. */
  method Absorb(cur: SignedPacket, list: seq<SignedPacket>)
    returns (merged: SignedPacket, rest: seq<SignedPacket>, count: nat)
    ensures merged == SignedPacket(cur.packet, Gathered(cur.sigs, list, cur.packet))
    ensures rest == Others(list, cur.packet) && count == |list| - |rest|
  {
    var p := cur.packet;
    merged, rest, count := cur, list, 0;
    var dup := FindSigned(rest, p);
    while dup < |rest|
      invariant dup == FindSigned(rest, p) && merged.packet == p && count == |list| - |rest|
      invariant Gathered(merged.sigs, rest, p) == Gathered(cur.sigs, list, p)
      invariant Others(rest, p) == Others(list, p)
      decreases |rest|
    {
      AbsorbOne(merged.sigs, rest, p);
      merged := SignedPacket(p, MergeSigs(merged.sigs, rest[dup].sigs));
      rest, count := rest[..dup] + rest[dup + 1..], count + 1;
      dup := FindSigned(rest, p);
    }
    OthersSize(rest, p);
  }

  /** dedupuids and dedupsubkeys. */
  method DedupPackets(list: seq<SignedPacket>) returns (r: seq<SignedPacket>, merged: nat)
    ensures r == Single(list) && merged == |list| - |r|
  {
    var todo := list;
    r, merged := [], 0;
    while todo != []
      invariant r + Single(todo) == Single(list) && merged == |list| - |r| - |todo|
      decreases |todo|
    {
      var cur, rest, count := Absorb(todo[0], todo[1..]);
      assert (r + [cur]) + Single(rest) == r + ([cur] + Single(rest));
      r, todo, merged := r + [cur], rest, merged + count;
    }
  }
}
