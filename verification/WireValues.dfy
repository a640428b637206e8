/**
 What goes over the wire, octet by octet: headers, armor and padding as the standards spell them out,
 independently of the functions that compute and read them.
 */
module WireValues {
  import opened Packets
  import PacketStream
  import Subpackets
  import Armor
  import StreamHash
  import SksHash

  // ------------------------------------------------------------------ packet headers

  /**
   Section 4.2 of RFC 4880. New format: two high bits and the tag, then the length in one, two or five
   octets. Old format: the high bit, the tag and the kind of length, then one, two or four octets.
   */
  lemma HeaderMeans(p: Packet)
    requires PacketStream.Writable(p)
    ensures var h, len := PacketStream.Header(p), |p.data|;
            if p.newformat then
              && h[0] as int == 0xC0 + p.tag
              && (if len < 192 then |h| == 2 && h[1] as int == len
                  else if len < 8383 then |h| == 3 && 192 <= h[1] < 224 && (h[1] as int - 192) * 256 + h[2] as int + 192 == len
                  else |h| == 6 && h[1] == 255
                       && h[2] as int * 0x100_0000 + h[3] as int * 0x1_0000 + h[4] as int * 0x100 + h[5] as int == len)
            else if len < 0x100 then |h| == 2 && h[0] as int == 0x80 + 4 * p.tag && h[1] as int == len
            else if len < 0x1_0000 then
              |h| == 3 && h[0] as int == 0x81 + 4 * p.tag && h[1] as int * 0x100 + h[2] as int == len
            else
              && |h| == 5 && h[0] as int == 0x82 + 4 * p.tag
              && h[1] as int * 0x100_0000 + h[2] as int * 0x1_0000 + h[3] as int * 0x100 + h[4] as int == len
  {
    FourOctets(|p.data|);
  }

  lemma {:induction false} FourOctets(x: nat)
    requires x < 0x1_0000_0000
    ensures x / 256 / 256 / 256 < 256
    ensures x / 256 / 256 / 256 * 0x100_0000 + x / 256 / 256 % 256 * 0x1_0000 + x / 256 % 256 * 0x100 + x % 256 == x
  {
  }

  /** The lengths given as examples in section 4.2.3 of RFC 4880. */
  lemma HeaderExamples(p: Packet)
    requires p.newformat && p.tag == 13
    ensures |p.data| == 100 ==> PacketStream.Header(p) == [0xCD, 0x64]
    ensures |p.data| == 1723 ==> PacketStream.Header(p) == [0xCD, 0xC5, 0xFB]
    ensures |p.data| == 100000 ==> PacketStream.Header(p) == [0xCD, 0xFF, 0x00, 0x01, 0x86, 0xA0]
  {
  }

  /** Which versions the reader lets pass for the packets it looks into. */
  lemma VersionsRead(version: byte)
    ensures PacketStream.SaneVersion(2, version) <==> version >= 2
    ensures PacketStream.SaneVersion(6, version) <==> version >= 2
    ensures PacketStream.SaneVersion(5, version) <==> version >= 2
    ensures PacketStream.SaneVersion(1, version) <==> version == 3
    ensures PacketStream.SaneVersion(4, version) <==> version == 3
    ensures PacketStream.SaneVersion(3, version) <==> version == 4
    ensures PacketStream.SaneVersion(18, version) <==> version == 1
    ensures PacketStream.SaneVersion(13, version) && PacketStream.SaneVersion(14, version) && PacketStream.SaneVersion(17, version)
  {
  }

  /**
   The three forms of a subpacket length (section 5.2.3.1 of RFC 4880): itself, two octets from 192 on, or
   255 and four octets.
   */
  lemma SubpacketLengths(form: Subpackets.Form, len: nat)
    requires Subpackets.Applies(form, len)
    ensures var l := Subpackets.LengthOctets(form, len);
            match form
            case One => |l| == 1 && l[0] as int == len < 192
            case Two => |l| == 2 && 192 <= l[0] < 255 && (l[0] as int - 192) * 256 + l[1] as int + 192 == len
            case Five => && |l| == 5 && l[0] == 255
                         && l[1] as int * 0x100_0000 + l[2] as int * 0x1_0000 + l[3] as int * 0x100 + l[4] as int == len
  {
    if form.Five? {
      FourOctets(len);
    }
  }

  // ---------------------------------------------------------------------------- armor

  /** The alphabet of section 6.3 of RFC 4880. */
  lemma AlphabetIs(v: nat)
    requires v < 64
    ensures Armor.Encode64(v) as int ==
            if v < 26 then 'A' as int + v
            else if v < 52 then 'a' as int + (v - 26)
            else if v < 62 then '0' as int + (v - 52)
            else if v == 62 then '+' as int else '/' as int
  {
  }

  /** The characters for three, two and one last octets: six bits each, the first octet's highest first. */
  lemma GroupMeans(a: byte, b: byte, c: byte)
    ensures var n := a as int * 0x1_0000 + b as int * 0x100 + c as int;
            Armor.START.Chars(a) + Armor.START.Next(a).Chars(b) + Armor.START.Next(a).Next(b).Chars(c) ==
            [Armor.Encode64(n / 0x4_0000), Armor.Encode64(n / 0x1000 % 64), Armor.Encode64(n / 64 % 64), Armor.Encode64(n % 64)]
    ensures Armor.START.Next(a).Padding() == [Armor.Encode64(a as int * 16 % 64), 61, 61]
    ensures Armor.START.Next(a).Next(b).Padding() == [Armor.Encode64(b as int * 4 % 64), 61]
  {
    SextetsOf(a, b, c);
  }

  lemma {:induction false} SextetsOf(a: nat, b: nat, c: nat)
    requires a < 256 && b < 256 && c < 256
    ensures var n := a * 0x1_0000 + b * 0x100 + c;
            && n / 0x4_0000 == a / 4 && n / 0x1000 % 64 == a % 4 * 16 + b / 16
            && n / 64 % 64 == b % 16 * 4 + c / 64 && n % 64 == c % 64
    ensures a * 16 % 64 == a % 4 * 16 && b * 4 % 64 == b % 16 * 4
  {
    var x, y, z, w := a / 4, a % 4 * 16 + b / 16, b % 16 * 4 + c / 64, c % 64;
    var n := a * 0x1_0000 + b * 0x100 + c;
    assert n == ((x * 64 + y) * 64 + z) * 64 + w;
    Parts(n, (x * 64 + y) * 64 + z, w, 64);
    Parts((x * 64 + y) * 64 + z, x * 64 + y, z, 64);
    Parts(x * 64 + y, x, y, 64);
    Parts(n, x * 64 + y, z * 64 + w, 0x1000);
    Parts(n, x, (y * 64 + z) * 64 + w, 0x4_0000);
    Parts(a * 16, a / 4, a % 4 * 16, 64);
    Parts(b * 4, b / 16, b % 16 * 4, 64);
  }

  lemma {:induction false} Parts(n: nat, q: nat, r: nat, d: nat)
    requires d > 0 && n == q * d + r && r < d
    ensures n / d == q && n % d == r
  {
    MulGrows(n / d + 1, q, d);
    MulGrows(q + 1, n / d, d);
  }

  lemma {:induction false} MulGrows(x: nat, y: nat, d: nat)
    ensures x <= y ==> x * d <= y * d
  {
  }

  // -------------------------------------------------------------------------- padding

  /** Sections 3.1 and 3.2 of RFC 1321: a one bit, zeros, and the length of "abc" in bits, low octet first. */
  lemma Md5Abc()
    ensures StreamHash.Md5Padded([97, 98, 99]) ==
            [97, 98, 99, 0x80] + StreamHash.Zeros(52) + [24, 0, 0, 0, 0, 0, 0, 0]
  {
  }

  /** Section 4 of RFC 3174: the same with the high octet first. */
  lemma Sha1Abc()
    ensures StreamHash.Sha1Padded([97, 98, 99]) ==
            [97, 98, 99, 0x80] + StreamHash.Zeros(52) + [0, 0, 0, 0, 0, 0, 0, 24]
  {
  }

  /** Numbers in eight octets, and the same octets the other way round. */
  lemma {:induction false} OctetsOf(x: nat)
    ensures StreamHash.Big(x, 4) == [x / 256 / 256 / 256 % 256, x / 256 / 256 % 256, x / 256 % 256, x % 256]
    ensures StreamHash.Big(x, 8) == StreamHash.Big(x / 256 / 256 / 256 / 256, 4) + StreamHash.Big(x, 4)
    ensures forall i | 0 <= i < 8 :: StreamHash.Little(x, 8)[i] == StreamHash.Big(x, 8)[7 - i]
  {
    BigLow(x, 0);
    BigLow(x, 4);
    LittleBig(x, 8);
    assert StreamHash.Big(x / 256 / 256 / 256 / 256, 0) == [];
  }

  lemma {:induction false} BigLow(x: nat, k: nat)
    ensures StreamHash.Big(x, k + 4) == StreamHash.Big(x / 256 / 256 / 256 / 256, k)
            + [x / 256 / 256 / 256 % 256, x / 256 / 256 % 256, x / 256 % 256, x % 256]
  {
    BigUp(x, k + 3);
    BigUp(x / 256, k + 2);
    BigUp(x / 256 / 256, k + 1);
    BigUp(x / 256 / 256 / 256, k);
  }

  lemma {:induction false} BigUp(x: nat, k: nat)
    ensures StreamHash.Big(x, k + 1) == StreamHash.Big(x / 256, k) + [x % 256]
  {
  }

  lemma {:induction false} LittleBig(x: nat, k: nat)
    ensures forall i | 0 <= i < k :: StreamHash.Little(x, k)[i] == StreamHash.Big(x, k)[k - 1 - i]
  {
    if k > 0 {
      LittleBig(x / 256, k - 1);
    }
  }

  // ------------------------------------------------------------------------- SKS hash

  lemma RecordExample()
    ensures SksHash.Record(SksHash.Item(13, [65, 66])) == [0, 0, 0, 13, 0, 0, 0, 2, 65, 66]
  {
  }
}
