/** Big-endian numbers in octet sequences, and cutting up a sequence that was put together. */
module Octets {
  import opened Packets

  function Read32(d: seq<byte>, o: nat): (r: nat)
    requires o + 4 <= |d|
  {
    d[o] as int * 0x100_0000 + d[o + 1] as int * 0x1_0000 + d[o + 2] as int * 0x100 + d[o + 3] as int
  }

  lemma Split32(x: nat)
    requires x < 0x1_0000_0000
    ensures x / 256 / 256 / 256 * 0x100_0000 + x / 256 / 256 % 256 * 0x1_0000 + x / 256 % 256 * 0x100 + x % 256 == x
  {
  }

  lemma SliceAt(d: seq<byte>, o: nat, l: seq<byte>, i: nat)
    requires o + |l| <= |d| && d[o..o + |l|] == l && i < |l|
    ensures d[o + i] == l[i]
  {
    assert d[o..o + |l|][i] == d[o + i];
  }

  lemma Cut(d: seq<byte>, o: nat, n: nat, a: seq<byte>, b: seq<byte>)
    requires o <= n <= |d| && d[o..n] == a + b
    ensures o + |a| <= n && d[o..o + |a|] == a && d[o + |a|..n] == b
  {
    assert d[o..o + |a|] == d[o..n][..|a|] && d[o + |a|..n] == d[o..n][|a|..];
  }
}
