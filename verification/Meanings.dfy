/**
 What comparisons, flags, subpackets, limits and templates mean, case by case and with the numbers and
 characters written out, independently of the functions that decide them.
 */
module Meanings {
  import opened Packets
  import SksHash
  import KeyArray
  import KeyGrammar
  import Subpackets
  import Merge
  import CleanKeys
  import CapUids
  import Join

  // ---------------------------------------------------------------------- comparisons

  /** The octets agree up to `i`, where `a` ends or has the smaller octet. */
  ghost predicate Parts(a: seq<byte>, b: seq<byte>, i: nat) {
    && i <= |a| && i < |b| && (forall m | 0 <= m < i :: a[m] == b[m])
    && (i == |a| || a[i] < b[i])
  }

  lemma {:induction false} BeforeMeans(a: seq<byte>, b: seq<byte>)
    ensures SksHash.Before(a, b) <==> exists i: nat :: Parts(a, b, i)
    decreases |a|
  {
    if b != [] && a != [] && a[0] == b[0] {
      BeforeMeans(a[1..], b[1..]);
      if SksHash.Before(a[1..], b[1..]) {
        var i: nat :| Parts(a[1..], b[1..], i);
        assert forall m | 0 < m < i + 1 :: a[m] == a[1..][m - 1] && b[m] == b[1..][m - 1];
        assert Parts(a, b, i + 1);
      }
      if i: nat :| Parts(a, b, i) {
        assert i > 0;
        assert Parts(a[1..], b[1..], i - 1);
      }
    } else if b != [] && (a == [] || a[0] < b[0]) {
      assert Parts(a, b, 0);
    }
  }

  /**
   compare_packets: the lower tag first; with equal tags the one with the lower octet at the first
   difference, or the one that ends there.
   */
  lemma PacketOrder(a: SksHash.Item, b: SksHash.Item)
    ensures SksHash.Less(a, b) <==> a.tag < b.tag || (a.tag == b.tag && exists i: nat :: Parts(a.data, b.data, i))
  {
    BeforeMeans(a.data, b.data);
  }

  /** fingerprint_cmp: the shorter one first, with equal lengths the one with the lower octet. */
  lemma FingerprintOrder(a: seq<byte>, b: seq<byte>)
    ensures KeyArray.FpLess(a, b) <==> |a| < |b| || (|a| == |b| && exists i: nat :: Parts(a, b, i) && i < |a|)
  {
    BeforeMeans(a, b);
  }

  // ------------------------------------------------------------------------ revocation

  /** parse_keys: a direct signature turns the flag at octet 2 of version 3 or octet 1 of version 4. */
  lemma FlagTurns(key: Packet, sig: Packet)
    requires key.tag == 6 && sig.tag == 2
    ensures KeyGrammar.Parse([], [key, sig]) ==
            KeyGrammar.Accepted([KeyGrammar.RawKey(key,
              (|sig.data| > 2 && sig.data[0] == 3 && sig.data[2] == 0x20) || (|sig.data| > 1 && sig.data[0] == 4 && sig.data[1] == 0x20),
              [sig], [], [])])
  {
    KeyGrammar.ParseDirect([], key, [sig]);
    assert [key] + [sig] == [key, sig] && [sig][0] == sig;
  }

  /** signedpacket_is_revoked: one version 4 or 5 signature of type 0x30 is enough, and needed. */
  lemma RevokedMeans(sigs: seq<Signature>)
    ensures Join.Revoked(sigs) <==> exists i | 0 <= i < |sigs| :: 4 <= sigs[i].version <= 5 && sigs[i].sigtype == 0x30
  {
    if Join.Revoked(sigs) {
      var i :| 0 <= i < |sigs| && Join.IsCertRevocation(sigs[i]);
    }
    if i :| 0 <= i < |sigs| && 4 <= sigs[i].version <= 5 && sigs[i].sigtype == 0x30 {
      assert Join.IsCertRevocation(sigs[i]);
    }
  }

  // ------------------------------------------------------------------------ subpackets

  function Number32(d: seq<byte>, o: nat): (n: nat)
    requires o + 4 <= |d|
  {
    ((d[o] as int * 256 + d[o + 1] as int) * 256 + d[o + 2] as int) * 256 + d[o + 3] as int
  }

  function Number64(d: seq<byte>, o: nat): (n: nat)
    requires o + 8 <= |d|
  {
    Number32(d, o) * 0x1_0000_0000 + Number32(d, o + 4)
  }

  /** A hashed area that is one subpacket of `len` octets: count, length, type and body. */
  predicate OneSubpacket(d: seq<byte>, len: nat) {
    2 <= len < 192 && |d| == 3 + len && d[0] == 0 && d[1] as int == 1 + len && d[2] as int == len
  }

  lemma {:induction false} OneNoted(d: seq<byte>, len: nat, t: Subpackets.Outcome)
    requires OneSubpacket(d, len) && t.status == Subpackets.Fine
    ensures Subpackets.Parsed(d, t) == Subpackets.Note(d, Subpackets.Span(3, len), t)
  {
    var n, s := 3 + len, Subpackets.Span(3, len);
    assert Subpackets.AreaEnd(d) == n && Subpackets.SpanAt(d, n, 2) == Subpackets.Good(s);
    Subpackets.NoteStep(d, n, 2, s, t);
    var u := Subpackets.Note(d, s, t);
    if u.status == Subpackets.Fine {
      Subpackets.NoteStop(d, n, n, u);
    } else {
      Subpackets.NoteRefused(d, n, n, u);
    }
  }

  /** Type 2, critical or not: the creation time is the four octets of its body. */
  lemma CreationNoted(d: seq<byte>, t: Subpackets.Outcome)
    requires OneSubpacket(d, 5) && (d[3] == 2 || d[3] == 130) && t.status == Subpackets.Fine
    ensures Subpackets.Parsed(d, t) == t.(created := Number32(d, 4))
  {
    OneNoted(d, 5, t);
  }

  /** Type 16: the issuer is the eight octets of its body. */
  lemma IssuerNoted(d: seq<byte>, t: Subpackets.Outcome)
    requires OneSubpacket(d, 9) && (d[3] == 16 || d[3] == 144) && t.status == Subpackets.Fine
    ensures Subpackets.Parsed(d, t) == t.(issuer := Number64(d, 4))
  {
    OneNoted(d, 9, t);
  }

  /** Type 33: behind the version, the last eight octets of 20 or the first eight of 32. */
  lemma FingerprintNoted(d: seq<byte>, t: Subpackets.Outcome)
    requires (OneSubpacket(d, 22) || OneSubpacket(d, 34)) && (d[3] == 33 || d[3] == 161) && t.status == Subpackets.Fine
    ensures Subpackets.Parsed(d, t) == t.(issuer := if |d| == 25 then Number64(d, 17) else Number64(d, 5))
  {
    OneNoted(d, |d| - 3, t);
  }

  /** Any other type says nothing; a critical one outside 2 to 12 and 16 to 33 is refused. */
  lemma OtherNoted(d: seq<byte>, len: nat, t: Subpackets.Outcome)
    requires OneSubpacket(d, len) && t.status == Subpackets.Fine
    requires var kind := d[3] % 128; kind != 2 && kind != 16 && kind != 33
    ensures var kind := d[3] % 128;
            Subpackets.Parsed(d, t) ==
            if d[3] >= 128 && !(2 <= kind <= 12 || 16 <= kind <= 33) then t.(status := Subpackets.Unsupported) else t
  {
    OneNoted(d, len, t);
  }

  /** A version 4 signature with one hashed subpacket: key expiry is type 9, the primary flag type 25. */
  lemma HashedArea(sig: seq<byte>, len: nat)
    requires |sig| == 7 + len && sig[0] == 4 && OneSubpacket(sig[4..], len)
    ensures len == 5 && sig[7] == 9 ==> Subpackets.KeyExpiryOf(sig) == Number32(sig, 8)
    ensures len == 5 && sig[7] != 9 && sig[7] != 137 ==> Subpackets.KeyExpiryOf(sig) == 0
    ensures len == 2 ==> (Subpackets.MarksPrimary(sig) <==> 0x10 <= sig[1] <= 0x13 && (sig[7] == 25 || sig[7] == 153) && sig[8] != 0)
  {
    var d, s := sig[4..], Subpackets.Span(3, len);
    var n := 3 + len;
    assert Subpackets.AreaEnd(d) == n && Subpackets.SpanAt(d, n, 2) == Subpackets.Good(s);
    Subpackets.WalkStep(d, n, 2, s);
    Subpackets.WalkStop(d, n, n);
    assert Subpackets.HashedSpans(sig) == [s];
    assert [s][1..] == [] && [s][0] == s && d[3] == sig[7] && d[4] == sig[8];
    assert Subpackets.FirstExpiry(d, []) == 0;
    assert Subpackets.FirstExpiry(d, [s]) == if Subpackets.IsExpiry(d, s) then Number32(d, 4) else 0;
  }

  // ------------------------------------------------------------------- limits of cleaning

  lemma LimitsAre(p: Packet)
    ensures p.tag == 13 ==> (CleanKeys.Fit(p) <==> |p.data| <= 1024)
    ensures p.tag == 17 ==> (CleanKeys.Fit(p) <==> |p.data| <= 65535)
    ensures p.tag != 13 && p.tag != 17 ==> (CleanKeys.Fit(p) <==> |p.data| <= 8383)
    ensures CleanKeys.MAX_UIDS_PER_KEY == 32 && CleanKeys.MAX_UATS_PER_KEY == 4
  {
  }

  /** An anchor is a user id that starts with "UID:urn:". */
  lemma AnchorMeans(p: Packet)
    ensures CleanKeys.IsUrnAnchor(p) <==>
            && p.tag == 13 && |p.data| >= 8
            && p.data[0] == 'U' as int && p.data[1] == 'I' as int && p.data[2] == 'D' as int && p.data[3] == ':' as int
            && p.data[4] == 'u' as int && p.data[5] == 'r' as int && p.data[6] == 'n' as int && p.data[7] == ':' as int
  {
    if |p.data| >= 8 {
      assert CleanKeys.URN_PREFIX <= p.data <==> p.data[..8] == CleanKeys.URN_PREFIX;
      var x := p.data[..8];
      assert x == [x[0], x[1], x[2], x[3], x[4], x[5], x[6], x[7]];
    }
  }

  /** How a packet counts for the cap on a tag. */
  lemma KindMeans(p: SignedPacket, tag: nat)
    ensures var k := CleanKeys.KindFor(tag)(p);
            && (k.Other? <==> p.packet.tag != tag)
            && (k.Revoked? <==> p.packet.tag == tag && Join.Revoked(p.sigs))
            && (k.Active? ==> k.anchor == CleanKeys.IsUrnAnchor(p.packet))
            && (k.Active? ==> (k.primary <==> exists i | 0 <= i < |p.sigs| :: Subpackets.MarksPrimary(p.sigs[i].packet.data)))
  {
  }

  /** The signature cap leaves the first signatures, as many as there is room for. */
  lemma {:induction false} CutMeans(list: seq<SignedPacket>, tag: nat, max: nat, i: nat)
    requires i < |list|
    ensures var r, n := CleanKeys.CutSigs(list, tag, max)[i], |list[i].sigs|;
            && r.packet == list[i].packet
            && r.sigs == list[i].sigs[..if list[i].packet.tag == tag && max > 0 && max < n then max else n]
  {
    if i > 0 {
      CutMeans(list[1..], tag, max, i - 1);
    }
  }

  /** Of two packets of one class that are not spared, the older one goes first. */
  lemma OldestGo(k: seq<CapUids.Kind>, i: nat, j: nat, a: nat, r: nat)
    requires i < j < |k| && CapUids.Dropped(k, j, a, r)
    ensures k[i].Revoked? && k[j].Revoked? ==> CapUids.Dropped(k, i, a, r)
    ensures CapUids.Loose(k, i) && CapUids.Loose(k, j) ==> CapUids.Dropped(k, i, a, r)
  {
    CountsGrow(k, i, j);
  }

  lemma {:induction false} CountsGrow(k: seq<CapUids.Kind>, i: nat, j: nat)
    requires i <= j <= |k|
    ensures CapUids.LooseBefore(k, i) <= CapUids.LooseBefore(k, j) && CapUids.RevokedsTo(k, i) <= CapUids.RevokedsTo(k, j)
  {
    if i < j {
      CountsGrow(k, i, j - 1);
    }
  }

  /** Spared are the first active packet marked primary, and the first active anchor not spared for that. */
  lemma SparedMeans(k: seq<CapUids.Kind>, i: nat)
    requires i < |k| && k[i].Active?
    ensures !CapUids.Loose(k, i) <==>
            || (k[i].primary && forall j | 0 <= j < i :: k[j].Active? ==> !k[j].primary)
            || (k[i].anchor && forall j | 0 <= j < i && k[j].Active? && k[j].anchor ::
                  k[j].primary && forall m | 0 <= m < j :: k[m].Active? ==> !k[m].primary)
  {
  }

  /** Every key left has a version octet of 4 or more. */
  lemma VersionsLeft(keys: seq<Merge.Key>, policy: CleanKeys.Policy)
    requires CleanKeys.Versioned(keys)
    ensures forall k | k in CleanKeys.CleanRun(keys, policy).keys :: k.primary.data != [] && k.primary.data[0] >= 4
  {
    CleanKeys.RunTidy(keys, policy);
  }
}
