/** sha1.c: a 64-octet buffer, filled as far as a count of bits in two 32-bit words says. */
module Sha1 {
  import opened Packets
  import opened StreamHash

  /** The count after `n` octets. */
  function BitTotal(n: nat): (t: Total) { TotalOf(8 * n) }

  /** What sha1_update does to the count: the low word may carry, and takes the octets' high bits along. */
  function AddOctets(t: Total, k: nat): (r: Total) {
    var lo := (t.lo + k * 8 % WORD) % WORD;
    Total(lo, (t.hi + (if lo < t.lo then 1 else 0) + k / 0x2000_0000) % WORD)
  }

  lemma HighPart(hi: nat, more: nat)
    ensures (hi % WORD + more) % WORD == (hi + more) % WORD
  {
  }

  /** Quotient and remainder by a word are determined. */
  lemma WordParts(x: nat, q: nat, r: nat)
    requires x == q * WORD + r && r < WORD
    ensures x / WORD == q && x % WORD == r
  {
  }

  lemma OctetParts(k: nat)
    ensures k * 8 == k / 0x2000_0000 * WORD + k * 8 % WORD
  {
    var q, r := k / 0x2000_0000, k % 0x2000_0000;
    WordParts(k * 8, q, r * 8);
  }

  /** Adding in parts, with a carry. */
  lemma SumParts(hi: nat, lo: nat, high: nat, low: nat, sum: nat)
    requires lo < WORD && low < WORD && sum == (hi + high) * WORD + (lo + low)
    ensures sum % WORD == (lo + low) % WORD
    ensures sum / WORD == hi + (if (lo + low) % WORD < lo then 1 else 0) + high
  {
    if lo + low < WORD {
      WordParts(sum, hi + high, lo + low);
    } else {
      WordParts(sum, hi + high + 1, lo + low - WORD);
    }
  }

  lemma AddOctetsCounts(n: nat, k: nat)
    requires k < WORD
    ensures AddOctets(BitTotal(n), k) == BitTotal(n + k)
  {
    var x := 8 * n;
    var lo, hi := x % WORD, x / WORD;
    var low, high := k * 8 % WORD, k / 0x2000_0000;
    OctetParts(k);
    SumParts(hi, lo, high, low, 8 * (n + k));
    HighPart(hi, (if (lo + low) % WORD < lo then 1 else 0) + high);
  }

  lemma DropBlocks(a: nat, q: nat)
    ensures (a + 64 * q) % 64 == a % 64
  {
  }

  /** How far the buffer is filled. */
  lemma FillOf(n: nat)
    ensures BitTotal(n).lo / 8 % 64 == n % 64
  {
    var q, r := n / 0x2000_0000, n % 0x2000_0000;
    WordParts(8 * n, q, 8 * r);
    DropBlocks(r, 0x80_0000 * q);
  }

  lemma FillIs(done: nat, waiting: nat)
    requires done % 64 == 0 && waiting < 64
    ensures BitTotal(done + waiting).lo / 8 % 64 == waiting
  {
    var n := done + waiting;
    ModWaiting(done, waiting);
    FillOf(n);
  }

  lemma ModWaiting(done: nat, waiting: nat)
    requires done % 64 == 0 && waiting < 64
    ensures (done + waiting) % 64 == waiting
  {
  }

  /** The first length at which eight octets are missing to a block is the padded one. */
  lemma PadFirst(n: nat, k: nat)
    requires 1 <= k <= PadLength(n)
    ensures (n + k) % 64 == 56 <==> k == PadLength(n)
  {
    var r := n % 64;
    assert (n + k) % 64 == (r + k) % 64;
  }

  function Filled(m: seq<byte>, k: nat): (r: seq<byte>)
    requires k >= 1
    ensures |r| == |m| + k
  {
    m + ([0x80] + Zeros(k - 1))
  }

  lemma FilledMore(m: seq<byte>, k: nat)
    requires k >= 1
    ensures Filled(m, k) + [0] == Filled(m, k + 1)
  {
  }

  class Sha1Context<S(!new)> {
    const block: (S, seq<byte>) -> S
    const start: S
    var state: S
    var count: Total
    const buffer: array<byte>
    ghost var done: seq<byte>
    ghost var waiting: nat

    ghost predicate Ready()
      reads this, buffer
    {
      buffer.Length == 64 && waiting < 64 && |done| % BLOCK == 0 && state == Fold(block, start, done)
    }

    ghost predicate Valid()
      reads this, buffer
    {
      Ready() && count == BitTotal(|done| + waiting)
    }

    /** Everything updates have been given so far. */
    ghost function Message(): (m: seq<byte>)
      requires waiting <= buffer.Length
      reads this, buffer
    {
      done + buffer[..waiting]
    }

    constructor (f: (S, seq<byte>) -> S, s: S)
      ensures Valid() && Message() == [] && block == f && start == s && fresh(buffer)
    {
      block, start, state, count, done, waiting := f, s, s, Total(0, 0), [], 0;
      buffer := new byte[64];
    }

    /** memcpy into the buffer. */
    method Copy(at: nat, data: seq<byte>)
      requires at + |data| <= buffer.Length
      modifies buffer
      ensures buffer[..at + |data|] == old(buffer[..at]) + data
    {
      forall i | 0 <= i < |data| {
        buffer[at + i] := data[i];
      }
    }

    /** SHA1Transform on one block. */
    method Transform(data: seq<byte>)
      requires |data| == 64 && |done| % BLOCK == 0 && state == Fold(block, start, done)
      modifies this`state, this`done
      ensures |done| % BLOCK == 0 && state == Fold(block, start, done) && done == old(done) + data
    {
      WholeConcat(done, data);
      FoldConcat(block, start, done, data);
      FoldOne(block, state, data);
      state, done := block(state, data), done + data;
    }

    /** Fill the buffer from the input, hash it, then every whole block of what follows. */
    method TakeBlocks(data: seq<byte>, j: nat) returns (i: nat)
      requires buffer.Length == 64 && j < 64 && j + |data| > 63 && |done| % BLOCK == 0 && state == Fold(block, start, done)
      modifies this`state, this`done, buffer
      ensures |done| % BLOCK == 0 && state == Fold(block, start, done)
      ensures i <= |data| < i + 64 && done + data[i..] == old(done + buffer[..j]) + data
    {
      i := 64 - j;
      Copy(j, data[..i]);
      var first := buffer[..64];
      ghost var all := done + old(buffer[..j]) + data;
      Transform(buffer[..]);
      assert buffer[..] == first;
      assert done + data[i..] == all;
      while i + 63 < |data|
        invariant i <= |data| && |done| % BLOCK == 0 && state == Fold(block, start, done)
        invariant done + data[i..] == all
      {
        ghost var was := done;
        Transform(data[i..i + 64]);
        assert (was + data[i..i + 64]) + data[i + 64..] == was + data[i..];
        i := i + 64;
      }
    }

    /** The octets of an update, once they have been counted. */
    method Absorb(data: seq<byte>, j: nat)
      requires Ready() && j == waiting
      modifies this`state, this`done, this`waiting, buffer
      ensures Ready() && Message() == old(Message()) + data
    {
      if j + |data| > 63 {
        var i := TakeBlocks(data, j);
        Copy(0, data[i..]);
        waiting := |data| - i;
        assert buffer[..waiting] == data[i..];
      } else {
        ghost var front := done;
        Copy(j, data);
        waiting := j + |data|;
        assert front + (old(buffer[..j]) + data) == (front + old(buffer[..j])) + data;
      }
    }

    /** sha1_update. */
    method Update(data: seq<byte>)
      requires Valid() && |data| < WORD - 64
      modifies this`state, this`count, this`done, this`waiting, buffer
      ensures Valid() && Message() == old(Message()) + data
    {
      FillIs(|done|, waiting);
      AddOctetsCounts(|done| + waiting, |data|);
      var j := count.lo / 8 % 64;
      count := AddOctets(count, |data|);
      Absorb(data, j);
      assert |Message()| == |old(Message())| + |data|;
    }

    /** How many octets are waiting. */
    method Waiting() returns (j: nat)
      requires Valid()
      ensures j == waiting == |Message()| % 64
    {
      FillIs(|done|, waiting);
      ModWaiting(|done|, waiting);
      j := count.lo / 8 % 64;
    }

    /** The padding goes in octet by octet. */
    method Fill()
      requires Valid()
      modifies this`state, this`count, this`done, this`waiting, buffer
      ensures Valid() && Message() == Filled(old(Message()), PadLength(|old(Message())|))
    {
      ghost var m := Message();
      Update([0x80]);
      ghost var k: nat := 1;
      assert Zeros(0) == [];
      assert Message() == Filled(m, k);
      var j := Waiting();
      PadFirst(|m|, k);
      while j != 56
        invariant Valid() && 1 <= k <= PadLength(|m|) && Message() == Filled(m, k)
        invariant j == 56 <==> k == PadLength(|m|)
        decreases PadLength(|m|) - k
      {
        j := PutZero(m, k);
        k := k + 1;
      }
    }

    /** One more octet of padding. */
    method PutZero(ghost m: seq<byte>, ghost k: nat) returns (j: nat)
      requires Valid() && 1 <= k < PadLength(|m|) && Message() == Filled(m, k)
      modifies this`state, this`count, this`done, this`waiting, buffer
      ensures Valid() && Message() == Filled(m, k + 1)
      ensures j == 56 <==> k + 1 == PadLength(|m|)
    {
      Update([0]);
      FilledMore(m, k);
      j := Waiting();
      PadFirst(|m|, k + 1);
    }

    /** sha1_digest. */
    method Digest() returns (digest: S)
      requires Valid()
      modifies this`state, this`count, this`done, this`waiting, buffer
      ensures digest == Fold(block, start, Sha1Padded(old(Message())))
    {
      ghost var m := Message();
      var length := LengthOctets();
      Fill();
      Update(length);
      assert Message() == Padded(m, length);
      var j := Waiting();
      assert buffer[..0] == [] && Message() == done;
      digest := state;
    }

    /** Eight octets of the count, high ones first. */
    method LengthOctets() returns (length: seq<byte>)
      requires Valid()
      ensures length == Big(Bits(Message()), 8)
    {
      length := Big(count.hi, 4) + Big(count.lo, 4);
      assert |Message()| == |done| + waiting;
      BigCount(|done| + waiting);
    }
  }

  lemma BigCount(n: nat)
    ensures Big(BitTotal(n).hi, 4) + Big(BitTotal(n).lo, 4) == Big(8 * n % DOUBLE_WORD, 8)
  {
    TotalValue(8 * n);
    BigWords(BitTotal(n).hi, BitTotal(n).lo);
  }

  lemma BigWords(hi: nat, lo: nat)
    requires lo < WORD
    ensures Big(hi, 4) + Big(lo, 4) == Big(hi * WORD + lo, 8)
  {
    PowerUsed();
    BigJoin(hi, lo, 4);
  }

  lemma PowerUsed()
    ensures Pow256(4) == WORD
  {
  }

  lemma TotalValue(x: nat)
    ensures TotalOf(x).hi * WORD + TotalOf(x).lo == x % DOUBLE_WORD
  {
    var lo, mid, k := x % WORD, x / WORD % WORD, x / WORD / WORD;
    assert x == k * DOUBLE_WORD + (mid * WORD + lo);
    ModOf(k, mid * WORD + lo);
  }

  lemma {:induction false} BigJoin(hi: nat, lo: nat, k: nat)
    requires lo < Pow256(k)
    ensures Big(hi, 4) + Big(lo, k) == Big(hi * Pow256(k) + lo, 4 + k)
    decreases k
  {
    if k == 0 {
      assert Big(hi, 4) + Big(lo, 0) == Big(hi, 4);
    } else {
      var x := hi * Pow256(k) + lo;
      assert x == 256 * (hi * Pow256(k - 1)) + lo;
      assert x % 256 == lo % 256 && x / 256 == hi * Pow256(k - 1) + lo / 256;
      BigJoin(hi, lo / 256, k - 1);
      assert Big(hi, 4) + (Big(lo / 256, k - 1) + [lo % 256]) == (Big(hi, 4) + Big(lo / 256, k - 1)) + [lo % 256];
    }
  }

  /** However a message is cut into updates, the digest is that of the whole padded message. */
  method HashPieces<S(!new)>(f: (S, seq<byte>) -> S, s: S, pieces: seq<seq<byte>>) returns (digest: S)
    requires forall i | 0 <= i < |pieces| :: |pieces[i]| < WORD - 64
    ensures digest == Fold(f, s, Sha1Padded(Joined(pieces)))
  {
    var ctx := new Sha1Context(f, s);
    for i := 0 to |pieces|
      invariant ctx.Valid() && ctx.Message() == Joined(pieces[..i]) && ctx.block == f && ctx.start == s && fresh(ctx) && fresh(ctx.buffer)
    {
      JoinedStep(pieces, i);
      ctx.Update(pieces[i]);
    }
    assert pieces[..|pieces|] == pieces;
    digest := ctx.Digest();
  }
}
