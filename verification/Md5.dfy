/** md5.c: a 128-octet buffer in which a whole block may be left waiting. */
module Md5 {
  import opened Packets
  import opened StreamHash

  /** The length of a message in bits, put together from two 32-bit counts of octets. */
  lemma BitLength(n: nat)
    ensures var t := TotalOf(n);
            var lo := t.lo * 8 % WORD;
            var hi := t.hi * 8 % WORD + t.lo / 0x2000_0000;
            lo < WORD && hi * WORD + lo == 8 * n % DOUBLE_WORD
  {
    var t0, t1, k := n % WORD, n / WORD % WORD, n / WORD / WORD;
    Eightfold(t0);
    Eightfold(t1);
    EightParts(t0, t1, k, t0 / 0x2000_0000, t0 * 8 % WORD, t1 * 8 / WORD, t1 * 8 % WORD);
    assert n == (k * WORD + t1) * WORD + t0;
  }

  lemma Eightfold(x: nat)
    requires x < WORD
    ensures x * 8 == x / 0x2000_0000 * WORD + x * 8 % WORD && x / 0x2000_0000 == x * 8 / WORD < 8
    ensures x * 8 % WORD % 8 == 0
  {
  }

  lemma EightParts(t0: nat, t1: nat, k: nat, q: nat, lo: nat, r: nat, up: nat)
    requires t0 * 8 == q * WORD + lo && t1 * 8 == r * WORD + up && lo < WORD && up < WORD && up % 8 == 0 && q < 8
    ensures 8 * ((k * WORD + t1) * WORD + t0) % DOUBLE_WORD == (up + q) * WORD + lo
  {
    var low := (up + q) * WORD + lo;
    assert 8 * ((k * WORD + t1) * WORD + t0) == (8 * k + r) * DOUBLE_WORD + low;
    assert 0 <= low < DOUBLE_WORD;
    ModOf(8 * k + r, low);
  }

  /** What a context stands for: whole blocks hashed, and their number of octets counted. */
  ghost predicate Hashed<S(!new)>(f: (S, seq<byte>) -> S, start: S, state: S, total: Total, done: seq<byte>) {
    |done| % BLOCK == 0 && state == Fold(f, start, done) && total == TotalOf(|done|)
  }

  lemma HashMore<S(!new)>(f: (S, seq<byte>) -> S, start: S, state: S, total: Total, done: seq<byte>, data: seq<byte>)
    requires Hashed(f, start, state, total, done) && |data| % BLOCK == 0 && |data| < WORD
    ensures Hashed(f, start, Fold(f, state, data), total.Add(|data|), done + data)
  {
    WholeConcat(done, data);
    FoldConcat(f, start, done, data);
    AddCounts(|done|, |data|);
  }

  /** What is waiting in the buffer, padded: the end of the padded message. */
  lemma PaddingFits(done: seq<byte>, pending: seq<byte>, length: seq<byte>)
    requires |done| % BLOCK == 0 && |pending| <= 64 && |length| == 8
    ensures var pad := if |pending| >= 56 then 64 + 56 - |pending| else 56 - |pending|;
            && 1 <= pad <= 64 && (|pending| + pad + 8) % 64 == 0
            && Padded(done + pending, length) == done + (pending + ([0x80] + Zeros(pad - 1)) + length)
  {
    var m := done + pending;
    assert |m| % 64 == |pending| % 64;
  }

  lemma WholePart(n: nat)
    requires 64 <= n <= 128
    ensures n / 64 * 64 == (if n == 128 then 128 else 64) && n % 64 == n - n / 64 * 64
  {
  }

  /** One block after the other. */
  method FoldBlocks<S>(f: (S, seq<byte>) -> S, start: S, data: seq<byte>) returns (s: S)
    requires |data| % BLOCK == 0
    ensures s == Fold(f, start, data)
  {
    var rest := data;
    s := start;
    while rest != []
      invariant |rest| % BLOCK == 0 && Fold(f, s, rest) == Fold(f, start, data)
      decreases |rest|
    {
      s, rest := f(s, rest[..64]), rest[64..];
    }
  }

  class Md5Context<S(!new)> {
    const block: (S, seq<byte>) -> S
    const start: S
    var state: S
    var total: Total
    const buffer: array<byte>
    var buflen: nat
    /** The blocks that have been hashed. */
    ghost var done: seq<byte>

    ghost predicate Ready()
      reads this, buffer
    {
      buffer.Length == 128 && Hashed(block, start, state, total, done)
    }

    ghost predicate Valid()
      reads this, buffer
    {
      Ready() && buflen <= 64
    }

    /** Everything updates have been given so far. */
    ghost function Message(): (m: seq<byte>)
      requires buflen <= buffer.Length
      reads this, buffer
    {
      done + buffer[..buflen]
    }

    constructor (f: (S, seq<byte>) -> S, s: S)
      ensures Valid() && Message() == [] && block == f && start == s && fresh(buffer)
    {
      block, start, state, total, buflen, done := f, s, s, Total(0, 0), 0, [];
      buffer := new byte[128];
    }

    /** md5_process_block: count, then one block after the other. */
    method ProcessBlocks(data: seq<byte>)
      requires Ready() && |data| % BLOCK == 0 && |data| < WORD
      modifies this`state, this`total, this`done
      ensures Ready() && done == old(done) + data
    {
      HashMore(block, start, state, total, done, data);
      total := total.Add(|data|);
      var s := FoldBlocks(block, state, data);
      state, done := s, done + data;
    }

    /** memcpy into the buffer. */
    method Copy(at: nat, data: seq<byte>)
      requires at + |data| <= buffer.Length
      modifies buffer
      ensures buffer[..at + |data|] == old(buffer[..at]) + data
    {
      forall i | 0 <= i < |data| {
        buffer[at + i] := data[i];
      }
    }

    /** Hash the whole blocks at the front of the buffer and move what is behind them to the front. */
    method Drain()
      requires Ready() && 64 <= buflen <= 128
      modifies this`state, this`total, this`done, this`buflen, buffer
      ensures Valid() && Message() == old(Message()) && buflen == old(buflen) % 64
    {
      var whole := buflen / 64 * 64;
      WholePart(buflen);
      var front, left := buffer[..whole], buffer[whole..buflen];
      assert done + buffer[..buflen] == (done + front) + left;
      ProcessBlocks(front);
      Copy(0, left);
      buflen := buflen % 64;
      assert buffer[..buflen] == left;
    }

    /** The first part of md5_update: fill up what is waiting, and hash when there is more than a block. */
    method TopUp(data: seq<byte>) returns (rest: seq<byte>)
      requires Valid() && buflen != 0
      modifies this`state, this`total, this`done, this`buflen, buffer
      ensures Valid() && Message() + rest == old(Message()) + data && (rest != [] ==> buflen == 0) && |rest| <= |data|
    {
      var add := if 128 - buflen > |data| then |data| else 128 - buflen;
      ghost var before := buffer[..buflen];
      Copy(buflen, data[..add]);
      buflen := buflen + add;
      rest := data[add..];
      assert done + buffer[..buflen] + rest == done + before + data;
      if buflen > 64 {
        Drain();
      }
    }

    /** The second part: whole blocks straight from the input; one octet to 64 are left when it is not aligned. */
    method TakeBlocks(data: seq<byte>, unaligned: bool) returns (rest: seq<byte>)
      requires Valid() && |data| < WORD && buflen == 0
      modifies this`state, this`total, this`done, buffer
      ensures Valid() && Message() + rest == old(Message()) + data && |rest| <= 64
    {
      rest := data;
      if |rest| >= 64 {
        if unaligned {
          while |rest| > 64
            invariant Valid() && Message() + rest == old(Message()) + data && |rest| <= |data|
            decreases |rest|
          {
            Copy(0, rest[..64]);
            ghost var was := done;
            ProcessBlocks(buffer[..64]);
            assert was + rest == (was + rest[..64]) + rest[64..];
            rest := rest[64..];
          }
        } else {
          var whole := |rest| / 64 * 64;
          ProcessBlocks(rest[..whole]);
          rest := rest[whole..];
          assert data == data[..whole] + rest;
        }
      }
    }

    /** md5_update. */
    method Update(data: seq<byte>, unaligned: bool)
      requires Valid() && |data| < WORD
      modifies this`state, this`total, this`done, this`buflen, buffer
      ensures Valid() && Message() == old(Message()) + data
    {
      var rest := data;
      if buflen != 0 {
        rest := TopUp(data);
      }
      if rest != [] {
        ghost var goal := Message() + rest;
        rest := TakeBlocks(rest, unaligned);
        if rest != [] {
          Copy(0, rest);
          buflen := |rest|;
          assert Message() == goal;
          if buflen >= 64 {
            Drain();
          }
        }
      }
    }

    /** The length of the message in bits, from the octets hashed and those waiting. */
    method LengthOctets() returns (length: seq<byte>)
      requires Valid()
      ensures length == Little(Bits(Message()), 8)
    {
      AddCounts(|done|, buflen);
      var count := total.Add(buflen);
      BitLength(|done| + buflen);
      var lo, hi := count.lo * 8 % WORD, count.hi * 8 % WORD + count.lo / 0x2000_0000;
      LittleSplit(lo, hi);
      length := Little(lo, 4) + Little(hi, 4);
    }

    /** The padded end of the message goes through the block function. */
    method Finish(length: seq<byte>) returns (digest: S)
      requires Valid() && |length| == 8
      modifies this`state, this`total, this`done, this`buflen, buffer
      ensures digest == Fold(block, start, Padded(old(Message()), length))
    {
      ghost var m, front, pending := Message(), done, buffer[..buflen];
      var pad := if buflen >= 56 then 64 + 56 - buflen else 56 - buflen;
      PaddingFits(done, pending, length);
      var fill := [0x80] + Zeros(pad - 1);
      Copy(buflen, fill + length);
      var all := buffer[..buflen + |fill + length|];
      assert all == (pending + fill) + length;
      ProcessBlocks(all);
      digest := state;
      assert done == front + all == Padded(m, length);
    }

    /** md5_digest. */
    method Digest() returns (digest: S)
      requires Valid()
      modifies this`state, this`total, this`done, this`buflen, buffer
      ensures digest == Fold(block, start, Md5Padded(old(Message())))
    {
      var length := LengthOctets();
      digest := Finish(length);
    }
  }

  /** However a message is cut into updates, the digest is that of the whole padded message. */
  method HashPieces<S(!new)>(f: (S, seq<byte>) -> S, s: S, pieces: seq<seq<byte>>, unaligned: seq<bool>) returns (digest: S)
    requires |unaligned| == |pieces| && forall i | 0 <= i < |pieces| :: |pieces[i]| < WORD
    ensures digest == Fold(f, s, Md5Padded(Joined(pieces)))
  {
    var ctx := new Md5Context(f, s);
    for i := 0 to |pieces|
      invariant ctx.Valid() && ctx.Message() == Joined(pieces[..i]) && ctx.block == f && ctx.start == s && fresh(ctx) && fresh(ctx.buffer)
    {
      JoinedStep(pieces, i);
      ctx.Update(pieces[i], unaligned[i]);
    }
    assert pieces[..|pieces|] == pieces;
    digest := ctx.Digest();
  }
}
