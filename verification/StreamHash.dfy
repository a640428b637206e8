/**
 Buffering and padding of the two hash functions (md5.c, sha1.c). The block functions are left open:
 what is proved holds for any of them. However a message is cut into updates, the digest is the fold
 of the block function over the message padded as sections 3.1 and 3.2 of RFC 1321 and section 4 of
 RFC 3174 say.
 */
module StreamHash {
  import opened Packets

  const BLOCK := 64
  const WORD := 0x1_0000_0000
  const DOUBLE_WORD := 0x1_0000_0000_0000_0000

  /** The block function run over whole blocks. */
  function Fold<S>(f: (S, seq<byte>) -> S, s: S, data: seq<byte>): (r: S)
    requires |data| % BLOCK == 0
    decreases |data|
  {
    if data == [] then s else Fold(f, f(s, data[..64]), data[64..])
  }

  lemma {:induction false} FoldConcat<S>(f: (S, seq<byte>) -> S, s: S, a: seq<byte>, b: seq<byte>)
    requires |a| % BLOCK == 0 && |b| % BLOCK == 0
    ensures Fold(f, s, a + b) == Fold(f, Fold(f, s, a), b)
    decreases |a|
  {
    if a == [] {
      assert a + b == b;
    } else {
      assert (a + b)[..64] == a[..64] && (a + b)[64..] == a[64..] + b;
      FoldConcat(f, f(s, a[..64]), a[64..], b);
    }
  }

  lemma FoldOne<S>(f: (S, seq<byte>) -> S, s: S, b: seq<byte>)
    requires |b| == BLOCK
    ensures Fold(f, s, b) == f(s, b)
  {
    assert b[..64] == b && b[64..] == [];
    assert Fold(f, f(s, b), []) == f(s, b);
  }

  // ------------------------------------------------------------------- padding

  function Zeros(n: nat): (r: seq<byte>)
    ensures |r| == n
  {
    seq(n, _ => 0)
  }

  /** How many octets fill a message of `n` octets up to eight short of a block. */
  function PadLength(n: nat): (k: nat)
    ensures 1 <= k <= 64 && (n + k) % 64 == 56
  {
    if n % 64 < 56 then 56 - n % 64 else 120 - n % 64
  }

  /** A one bit and zeros. */
  function Pad(n: nat): (r: seq<byte>)
    ensures |r| == PadLength(n)
  {
    [0x80] + Zeros(PadLength(n) - 1)
  }

  function Little(x: nat, k: nat): (r: seq<byte>)
    ensures |r| == k
  {
    if k == 0 then [] else [x % 256] + Little(x / 256, k - 1)
  }

  function Big(x: nat, k: nat): (r: seq<byte>)
    ensures |r| == k
  {
    if k == 0 then [] else Big(x / 256, k - 1) + [x % 256]
  }

  /** A message with padding and eight octets that give its length. */
  function Padded(m: seq<byte>, length: seq<byte>): (r: seq<byte>)
    requires |length| == 8
    ensures |r| % BLOCK == 0
  {
    m + Pad(|m|) + length
  }

  function Bits(m: seq<byte>): (n: nat) { 8 * |m| % DOUBLE_WORD }

  /** MD5 puts the low octets of the length in bits first. */
  function Md5Padded(m: seq<byte>): (r: seq<byte>)
    ensures |r| % BLOCK == 0
  {
    Padded(m, Little(Bits(m), 8))
  }

  /** SHA-1 puts the high octets first. */
  function Sha1Padded(m: seq<byte>): (r: seq<byte>)
    ensures |r| % BLOCK == 0
  {
    Padded(m, Big(Bits(m), 8))
  }

  // ------------------------------------------------------- two 32-bit counters

  /** A 64-bit count in two words. */
  datatype Total = Total(lo: nat, hi: nat) {
    /** Adding to the low word, carrying when it comes out smaller than what was added. */
    function Add(n: nat): (t: Total) {
      var l := (lo + n) % WORD;
      Total(l, if l < n then (hi + 1) % WORD else hi)
    }
  }

  function TotalOf(n: nat): (t: Total) { Total(n % WORD, n / WORD % WORD) }

  lemma AddCounts(n: nat, k: nat)
    requires k < WORD
    ensures TotalOf(n).Add(k) == TotalOf(n + k)
  {
    var lo, q := n % WORD, n / WORD;
    if lo + k < WORD {
      assert (n + k) / WORD == q && (n + k) % WORD == lo + k;
    } else {
      assert (n + k) / WORD == q + 1 && (n + k) % WORD == lo + k - WORD;
      assert (q % WORD + 1) % WORD == (q + 1) % WORD;
    }
  }

  lemma ModOf(a: nat, low: nat)
    requires low < DOUBLE_WORD
    ensures (a * DOUBLE_WORD + low) % DOUBLE_WORD == low
  {
  }

  lemma WholeConcat(a: seq<byte>, b: seq<byte>)
    requires |a| % BLOCK == 0 && |b| % BLOCK == 0
    ensures |a + b| % BLOCK == 0
  {
  }

  lemma LittleSplit(lo: nat, hi: nat)
    requires lo < WORD
    ensures Little(lo, 4) + Little(hi, 4) == Little(hi * WORD + lo, 8)
  {
    LittleJoin(lo, hi, 4);
  }

  function Pow256(k: nat): (p: nat) { if k == 0 then 1 else 256 * Pow256(k - 1) }

  lemma {:induction false} LittleJoin(lo: nat, hi: nat, k: nat)
    requires lo < Pow256(k)
    ensures Little(lo, k) + Little(hi, 4) == Little(hi * Pow256(k) + lo, k + 4)
    decreases k
  {
    if k == 0 {
      assert Little(lo, 0) + Little(hi, 4) == Little(hi, 4);
    } else {
      var x := hi * Pow256(k) + lo;
      assert x == 256 * (hi * Pow256(k - 1)) + lo;
      assert x % 256 == lo % 256 && x / 256 == hi * Pow256(k - 1) + lo / 256;
      LittleJoin(lo / 256, hi, k - 1);
      assert ([lo % 256] + Little(lo / 256, k - 1)) + Little(hi, 4) == [lo % 256] + (Little(lo / 256, k - 1) + Little(hi, 4));
    }
  }

  /** The pieces of a message put together. */
  function Joined(pieces: seq<seq<byte>>): (m: seq<byte>) {
    if pieces == [] then [] else Joined(pieces[..|pieces| - 1]) + pieces[|pieces| - 1]
  }

  lemma JoinedStep(pieces: seq<seq<byte>>, i: nat)
    requires i < |pieces|
    ensures Joined(pieces[..i + 1]) == Joined(pieces[..i]) + pieces[i]
  {
    assert pieces[..i + 1][..i] == pieces[..i];
  }
}
