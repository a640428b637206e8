/** ASCII armor (armor.c, sections 6.1 to 6.4 of RFC 4880): what is armored comes back octet for octet. */
module Armor {
  import opened Sequences
  import opened Packets

  const ARMOR_WIDTH := 64
  const CRC24_INIT := 0xb704ce
  const CRC24_POLY := 0x1864cfb
  const NEWLINE: byte := 10
  const RETURN: byte := 13
  const DASH: byte := 45
  const EQUALS: byte := 61
  const LETTER_B: byte := 66

  // -------------------------------------------------------- the 64 characters

  function Encode64(v: nat): (c: byte) {
    if v <= 25 then v + 65 else if v <= 51 then v - 26 + 97 else if v <= 61 then v - 52 + 48
    else if v == 62 then 43 else if v == 63 then 47 else 63
  }

  /** 64 stands for the end of the data, 65 for a character that is passed over. */
  function Decode64(c: byte): (v: nat)
    ensures v <= 65
  {
    if 65 <= c <= 90 then c - 65 else if 97 <= c <= 122 then c - 97 + 26 else if 48 <= c <= 57 then c - 48 + 52
    else if c == 43 then 62 else if c == 47 then 63 else if c == EQUALS || c == DASH then 64 else 65
  }

  // -------------------------------------------------------------------- CRC-24

  function Pow2(k: nat): (p: nat)
    ensures p >= 1
  {
    if k == 0 then 1 else 2 * Pow2(k - 1)
  }

  /** Exclusive or of the low `k` bits. */
  function Xor(a: nat, b: nat, k: nat): (r: nat)
    ensures r < Pow2(k)
  {
    if k == 0 then 0 else 2 * Xor(a / 2, b / 2, k - 1) + (a + b) % 2
  }

  /** Two numbers with the same highest bit: it is gone. */
  lemma {:induction false} XorDropsTop(a: nat, b: nat, k: nat)
    requires k >= 1 && Pow2(k - 1) <= a < Pow2(k) && Pow2(k - 1) <= b < Pow2(k)
    ensures Xor(a, b, k) < Pow2(k - 1)
  {
    if k > 1 {
      XorDropsTop(a / 2, b / 2, k - 1);
    }
  }

  lemma PowersUsed()
    ensures Pow2(24) == 0x100_0000 && Pow2(25) == 0x200_0000
  {
    assert Pow2(8) == 0x100;
    assert Pow2(16) == 0x1_0000;
  }

  /** Shift by one bit and reduce by the polynomial. */
  function CrcShift(crc: nat): (r: nat)
    requires crc < 0x100_0000
    ensures r < 0x100_0000
  {
    var y := 2 * crc;
    PowersUsed();
    if y >= 0x100_0000 then XorDropsTop(y, CRC24_POLY, 25); Xor(y, CRC24_POLY, 25) else y
  }

  function CrcShifts(crc: nat, n: nat): (r: nat)
    requires crc < 0x100_0000
    ensures r < 0x100_0000
  {
    if n == 0 then crc else CrcShift(CrcShifts(crc, n - 1))
  }

  /** The running value after one more octet; it never leaves 24 bits. */
  function CrcOctet(crc: nat, c: byte): (r: nat)
    requires crc < 0x100_0000
    ensures r < 0x100_0000
  {
    PowersUsed();
    CrcShifts(Xor(crc, c * 0x1_0000, 24), 8)
  }

  function Crc(crc: nat, data: seq<byte>): (r: nat)
    requires crc < 0x100_0000
    ensures r < 0x100_0000
    decreases |data|
  {
    if data == [] then crc else Crc(CrcOctet(crc, data[0]), data[1..])
  }

  // ------------------------------------------------------------------ armoring

  /** armor_context without its checksum. */
  datatype Enc = Enc(last: byte, cur: nat, count: nat) {
    predicate Valid() { cur < 3 }

    /** The characters armor_putchar_int writes for an octet. */
    function Chars(c: byte): (r: seq<byte>)
    {
      if cur == 0 then [Encode64(c / 4)]
      else if cur == 1 then [Encode64(last % 4 * 16 + c / 16)]
      else [Encode64(last % 16 * 4 + c / 64), Encode64(c % 64)]
    }

    function Next(c: byte): (e: Enc)
      requires Valid()
      ensures e.Valid()
    {
      Enc(c, (cur + 1) % 3, count + |Chars(c)|)
    }

    function Break(): (r: seq<byte>) { if count % ARMOR_WIDTH == 0 then [NEWLINE] else [] }

    function Put(c: byte): (r: seq<byte>)
      requires Valid()
    {
      Chars(c) + Next(c).Break()
    }

    /** The last characters of the data, filled up with equals signs. */
    function Padding(): (r: seq<byte>) {
      if cur == 1 then [Encode64(last % 4 * 16), EQUALS, EQUALS]
      else if cur == 2 then [Encode64(last % 16 * 4), EQUALS]
      else []
    }

    /** What armor_finish writes before the checksum. */
    function Rest(): (r: seq<byte>) {
      Padding() + if cur == 0 && count % ARMOR_WIDTH == 0 then [] else [NEWLINE]
    }
  }

  const START := Enc(0, 0, 0)

  function PutAll(e: Enc, data: seq<byte>): (r: seq<byte>)
    requires e.Valid()
    decreases |data|
  {
    if data == [] then [] else e.Put(data[0]) + PutAll(e.Next(data[0]), data[1..])
  }

  function After(e: Enc, data: seq<byte>): (r: Enc)
    requires e.Valid()
    ensures r.Valid()
    decreases |data|
  {
    if data == [] then e else After(e.Next(data[0]), data[1..])
  }

  function CrcChars(crc: nat): (r: seq<byte>) {
    [EQUALS, Encode64(crc / 64 / 64 / 64), Encode64(crc / 64 / 64 % 64), Encode64(crc / 64 % 64), Encode64(crc % 64), NEWLINE]
  }

  function Body(data: seq<byte>): (r: seq<byte>) {
    PutAll(START, data) + (After(START, data).Rest() + CrcChars(Crc(CRC24_INIT, data)))
  }

  // ----------------------------------------------------------------- dearmoring

  /** What dearmor_getchar has of the next octet: nothing, six, four or two of its bits. */
  datatype Phase = Fresh | Half | Four | Two

  /** The octets read until the data ends; `ragged` if it ends with a single character of an octet. */
  datatype Fed = Fed(data: seq<byte>, ragged: bool) {
    function Behind(front: seq<byte>): (r: Fed) { Fed(front + data, ragged) }
  }

  function Feed(s: seq<byte>, at: Phase, last: nat): (r: Fed)
    requires last < 64
    decreases |s|
  {
    if s == [] then Fed([], false)
    else
      var c := Decode64(s[0]);
      if c == 65 then Feed(s[1..], at, last)
      else if c == 64 then Fed([], at == Half)
      else match at
        case Fresh => Feed(s[1..], Half, c)
        case Half => Feed(s[1..], Four, c).Behind([last * 4 + c / 16])
        case Four => Feed(s[1..], Two, c).Behind([last % 16 * 16 + c / 4])
        case Two => Feed(s[1..], Fresh, c).Behind([last % 4 * 64 + c])
  }

  lemma FeedCons(x: byte, s: seq<byte>, at: Phase, last: nat)
    requires last < 64
    ensures var c := Decode64(x);
            Feed([x] + s, at, last) ==
            if c == 65 then Feed(s, at, last)
            else if c == 64 then Fed([], at == Half)
            else match at
              case Fresh => Feed(s, Half, c)
              case Half => Feed(s, Four, c).Behind([last * 4 + c / 16])
              case Four => Feed(s, Two, c).Behind([last % 16 * 16 + c / 4])
              case Two => Feed(s, Fresh, c).Behind([last % 4 * 64 + c])
  {
    assert ([x] + s)[1..] == s;
  }

  type Reader = (seq<byte>, Phase, nat) -> Fed

  ghost predicate IsFeed(f: Reader) {
    forall s: seq<byte>, at: Phase, last: nat {:trigger Feed(s, at, last)} | last < 64 :: f(s, at, last) == Feed(s, at, last)
  }

  /** How reading goes on with `s` after a character of value `v`. */
  ghost function Took(f: Reader, v: nat, s: seq<byte>, at: Phase, last: nat): (r: Fed)
    requires v <= 64 && last < 64
  {
    if v == 64 then Fed([], at == Half)
    else match at
      case Fresh => f(s, Half, v)
      case Half => f(s, Four, v).Behind([last * 4 + v / 16])
      case Four => f(s, Two, v).Behind([last % 16 * 16 + v / 4])
      case Two => f(s, Fresh, v).Behind([last % 4 * 64 + v])
  }

  /** One character read. */
  lemma CharFeed(f: Reader, s: seq<byte>, at: Phase, last: nat)
    requires IsFeed(f) && last < 64 && s != []
    ensures var v := Decode64(s[0]);
            f(s, at, last) == if v == 65 then f(s[1..], at, last) else Took(f, v, s[1..], at, last)
  {
    FeedCons(s[0], s[1..], at, last);
    assert s == [s[0]] + s[1..];
  }

  lemma FeedBreak(f: Reader, e: Enc, s: seq<byte>, at: Phase, last: nat)
    requires IsFeed(f) && last < 64
    ensures f(e.Break() + s, at, last) == f(s, at, last)
  {
    if e.count % ARMOR_WIDTH == 0 {
      FeedCons(NEWLINE, s, at, last);
    } else {
      assert [] + s == s;
    }
  }

  /** Writer and reader are at the same place: the reader lacks the octet the writer holds back. */
  predicate InStep(e: Enc, at: Phase, last: nat) {
    if e.cur == 0 then at == Fresh
    else if e.cur == 1 then at == Half && last == e.last / 4
    else at == Four && last % 16 == e.last / 16
  }

  function Pending(e: Enc): (r: seq<byte>) { if e.cur == 0 then [] else [e.last] }

  lemma DecodeEncode(v: nat)
    requires v < 64
    ensures Decode64(Encode64(v)) == v
  {
  }

  /** The value of the last character written for an octet. */
  function LastValue(e: Enc, c: byte): (v: nat)
    ensures v < 64
  {
    if e.cur == 0 then c / 4 else if e.cur == 1 then e.last % 4 * 16 + c / 16 else c % 64
  }

  function PhaseAfter(e: Enc): (at: Phase) {
    if e.cur == 0 then Half else if e.cur == 1 then Four else Fresh
  }

  /** What the reader can give out once it has the characters of an octet. */
  function Released(e: Enc, c: byte): (r: seq<byte>) {
    if e.cur == 0 then [] else if e.cur == 1 then [e.last] else [e.last, c]
  }

  /** One character of the data read. */
  lemma SextetFeed(f: Reader, v: nat, s: seq<byte>, at: Phase, last: nat)
    requires IsFeed(f) && v < 64 && last < 64
    ensures f([Encode64(v)] + s, at, last) == Took(f, v, s, at, last)
  {
    DecodeEncode(v);
    FeedCons(Encode64(v), s, at, last);
  }

  lemma BehindNothing(r: Fed)
    ensures r.Behind([]) == r
  {
    assert [] + r.data == r.data;
  }

  lemma BehindTwo(r: Fed, x: byte, y: byte)
    ensures r.Behind([y]).Behind([x]) == r.Behind([x, y])
  {
    assert [x] + ([y] + r.data) == [x, y] + r.data;
  }

  /** The parts an octet is cut into give it back. */
  lemma Recombine(l: byte, c: byte)
    ensures l / 4 * 4 + (l % 4 * 16 + c / 16) / 16 == l
    ensures l / 16 * 16 + (l % 16 * 4 + c / 64) / 4 == l
    ensures (l % 16 * 4 + c / 64) % 4 * 64 + c % 64 == c
  {
  }

  /** The second character of three octets. */
  lemma SecondFeed(f: Reader, e: Enc, c: byte, s: seq<byte>, last: nat)
    requires IsFeed(f) && e.Valid() && e.cur == 1 && last < 64 && last == e.last / 4
    ensures f(e.Chars(c) + s, Half, last) == f(s, Four, LastValue(e, c)).Behind([e.last])
  {
    Recombine(e.last, c);
    SextetFeed(f, LastValue(e, c), s, Half, last);
  }

  /** The third and fourth character. */
  lemma LastFeed(f: Reader, e: Enc, c: byte, s: seq<byte>, last: nat)
    requires IsFeed(f) && e.Valid() && e.cur > 1 && last < 64 && last % 16 == e.last / 16
    ensures f(e.Chars(c) + s, Four, last) == f(s, Fresh, LastValue(e, c)).Behind([e.last, c])
  {
    var u, v := e.last % 16 * 4 + c / 64, LastValue(e, c);
    Recombine(e.last, c);
    assert e.Chars(c) + s == [Encode64(u)] + ([Encode64(v)] + s);
    SextetFeed(f, u, [Encode64(v)] + s, Four, last);
    SextetFeed(f, v, s, Two, u);
    BehindTwo(f(s, Fresh, v), e.last, c);
  }

  /** One octet written and read. */
  lemma CharsFeed(f: Reader, e: Enc, c: byte, s: seq<byte>, at: Phase, last: nat)
    requires IsFeed(f) && e.Valid() && last < 64 && InStep(e, at, last)
    ensures f(e.Chars(c) + s, at, last) == f(s, PhaseAfter(e), LastValue(e, c)).Behind(Released(e, c))
  {
    if e.cur == 0 {
      SextetFeed(f, LastValue(e, c), s, at, last);
      BehindNothing(f(s, Half, LastValue(e, c)));
    } else if e.cur == 1 {
      SecondFeed(f, e, c, s, last);
    } else {
      LastFeed(f, e, c, s, last);
    }
  }

  lemma NextInStep(e: Enc, c: byte)
    requires e.Valid()
    ensures InStep(e.Next(c), PhaseAfter(e), LastValue(e, c))
  {
    LowFour(e.last % 4, c / 16);
  }

  lemma LowFour(high: nat, low: nat)
    requires low < 16
    ensures (high * 16 + low) % 16 == low
  {
  }

  lemma PutFeed(f: Reader, e: Enc, c: byte, s: seq<byte>, at: Phase, last: nat)
    requires IsFeed(f) && e.Valid() && last < 64 && InStep(e, at, last)
    ensures f(e.Put(c) + s, at, last) == f(s, PhaseAfter(e), LastValue(e, c)).Behind(Released(e, c))
  {
    var chars, br := e.Chars(c), e.Next(c).Break();
    ConcatAssoc(chars, br, s);
    CharsFeed(f, e, c, br + s, at, last);
    FeedBreak(f, e.Next(c), s, PhaseAfter(e), LastValue(e, c));
  }

  /** The end of the data when it came out even. */
  lemma EvenFeed(f: Reader, e: Enc, s: seq<byte>, last: nat)
    requires IsFeed(f) && e.cur == 0 && last < 64
    ensures f(e.Rest() + ([EQUALS] + s), Fresh, last) == Fed([], false)
  {
    var t := [EQUALS] + s;
    FeedCons(EQUALS, s, Fresh, last);
    if e.count % ARMOR_WIDTH == 0 {
      assert e.Rest() + t == t;
    } else {
      assert e.Rest() + t == [NEWLINE] + t;
      FeedCons(NEWLINE, t, Fresh, last);
    }
  }

  /** The end of the data with one or two octets left over. */
  lemma PaddedFeed(f: Reader, e: Enc, s: seq<byte>, at: Phase, last: nat)
    requires IsFeed(f) && 0 < e.cur < 3 && last < 64 && InStep(e, at, last)
    ensures f(e.Rest() + ([EQUALS] + s), at, last) == Fed([e.last], false)
  {
    var v := if e.cur == 1 then e.last % 4 * 16 else e.last % 16 * 4;
    var more := (if e.cur == 1 then [EQUALS, NEWLINE] else [NEWLINE]) + ([EQUALS] + s);
    assert e.Rest() + ([EQUALS] + s) == [Encode64(v)] + ([EQUALS] + more);
    SextetFeed(f, v, [EQUALS] + more, at, last);
    FeedCons(EQUALS, more, if e.cur == 1 then Four else Two, v);
  }

  lemma ReleasedPending(e: Enc, data: seq<byte>)
    requires e.Valid() && data != []
    ensures Released(e, data[0]) + (Pending(e.Next(data[0])) + data[1..]) == Pending(e) + data
  {
  }

  /** Reading what was written from any point on gives the octet held back and all that follow. */
  lemma {:induction false} PutAllFeed(f: Reader, e: Enc, data: seq<byte>, s: seq<byte>, at: Phase, last: nat)
    requires IsFeed(f) && e.Valid() && last < 64 && InStep(e, at, last)
    ensures f(PutAll(e, data) + (After(e, data).Rest() + ([EQUALS] + s)), at, last) == Fed(Pending(e) + data, false)
    decreases |data|
  {
    var tail := After(e, data).Rest() + ([EQUALS] + s);
    if data == [] {
      if e.cur == 0 {
        EvenFeed(f, e, s, last);
      } else {
        PaddedFeed(f, e, s, at, last);
      }
      assert PutAll(e, data) + tail == tail && Pending(e) + data == Pending(e);
    } else {
      var c, rest, next := data[0], data[1..], e.Next(data[0]);
      ConcatAssoc(e.Put(c), PutAll(next, rest), tail);
      PutFeed(f, e, c, PutAll(next, rest) + tail, at, last);
      NextInStep(e, c);
      PutAllFeed(f, next, rest, s, PhaseAfter(e), LastValue(e, c));
      ReleasedPending(e, data);
    }
  }

  function TheFeed(): (f: Reader) {
    (s: seq<byte>, at: Phase, last: nat) => if last < 64 then Feed(s, at, last) else Fed([], false)
  }

  lemma FourParts(put: seq<byte>, rest: seq<byte>, crc: seq<byte>, more: seq<byte>)
    requires crc != [] && crc[0] == EQUALS
    ensures (put + (rest + crc)) + more == put + (rest + ([EQUALS] + (crc[1..] + more)))
  {
    assert crc + more == [EQUALS] + (crc[1..] + more);
    ConcatAssoc(put, rest + crc, more);
    ConcatAssoc(rest, crc, more);
  }

  /** The armored data, followed by anything, reads back exactly. */
  lemma BodyReadsBack(data: seq<byte>, more: seq<byte>)
    ensures Feed(Body(data) + more, Fresh, 0) == Fed(data, false)
  {
    var crc := CrcChars(Crc(CRC24_INIT, data));
    var put, rest := PutAll(START, data), After(START, data).Rest();
    FourParts(put, rest, crc, more);
    PutAllFeed(TheFeed(), START, data, crc[1..] + more, Fresh, 0);
    assert [] + data == data;
  }

  /** The four characters behind the equals sign are the checksum. */
  lemma CrcCharsReadBack(crc: nat)
    requires crc < 0x100_0000
    ensures var r := CrcChars(crc);
            ((Decode64(r[1]) * 64 + Decode64(r[2])) * 64 + Decode64(r[3])) * 64 + Decode64(r[4]) == crc
  {
    DecodeEncode(crc / 64 / 64 / 64);
    DecodeEncode(crc / 64 / 64 % 64);
    DecodeEncode(crc / 64 % 64);
    DecodeEncode(crc % 64);
  }

  // ---------------------------------------------------------- lines of 64

  /** From column `col` on, a line break comes exactly when 64 characters are on the line. */
  predicate WellBroken(s: seq<byte>, col: nat) {
    s == [] ||
    if s[0] == NEWLINE then col == ARMOR_WIDTH && WellBroken(s[1..], 0)
    else col < ARMOR_WIDTH && WellBroken(s[1..], col + 1)
  }

  lemma WellBrokenCons(x: byte, s: seq<byte>, col: nat)
    ensures WellBroken([x] + s, col) ==
            if x == NEWLINE then col == ARMOR_WIDTH && WellBroken(s, 0) else col < ARMOR_WIDTH && WellBroken(s, col + 1)
  {
    assert ([x] + s)[1..] == s;
  }

  lemma SextetBroken(v: nat, s: seq<byte>, col: nat)
    requires col < ARMOR_WIDTH && WellBroken(s, col + 1)
    ensures WellBroken([Encode64(v)] + s, col)
  {
    WellBrokenCons(Encode64(v), s, col);
  }

  lemma TwoBroken(u: nat, v: nat, s: seq<byte>, col: nat)
    requires col + 1 < ARMOR_WIDTH && WellBroken(s, col + 2)
    ensures WellBroken([Encode64(u), Encode64(v)] + s, col)
  {
    SextetBroken(v, s, col + 1);
    SextetBroken(u, [Encode64(v)] + s, col);
    assert [Encode64(u), Encode64(v)] + s == [Encode64(u)] + ([Encode64(v)] + s);
  }

  lemma BreakBroken(e: Enc, s: seq<byte>, col: nat)
    requires col <= ARMOR_WIDTH && e.count % ARMOR_WIDTH == (if col == ARMOR_WIDTH then 0 else col)
    requires 0 < col && WellBroken(s, e.count % ARMOR_WIDTH)
    ensures WellBroken(e.Break() + s, col)
  {
    if col == ARMOR_WIDTH {
      WellBrokenCons(NEWLINE, s, col);
    } else {
      assert e.Break() + s == s;
    }
  }

  lemma ColumnStep(count: nat, k: nat)
    requires k == 1 || (k == 2 && count % 4 == 2)
    ensures var col := count % ARMOR_WIDTH;
            col + k <= ARMOR_WIDTH && (count + k) % ARMOR_WIDTH == if col + k == ARMOR_WIDTH then 0 else col + k
  {
    if k == 2 {
      assert count % 64 % 4 == 2;
    }
  }

  lemma PutBroken(e: Enc, c: byte, s: seq<byte>)
    requires e.Valid() && e.count % 4 == e.cur && WellBroken(s, e.Next(c).count % ARMOR_WIDTH)
    ensures WellBroken(e.Put(c) + s, e.count % ARMOR_WIDTH)
  {
    var chars, next := e.Chars(c), e.Next(c);
    var t := next.Break() + s;
    ColumnStep(e.count, |chars|);
    var col := e.count % ARMOR_WIDTH + |chars|;
    BreakBroken(next, s, col);
    ConcatAssoc(chars, next.Break(), s);
    if e.cur < 2 {
      SextetBroken(if e.cur == 0 then c / 4 else e.last % 4 * 16 + c / 16, t, col - 1);
    } else {
      TwoBroken(e.last % 16 * 4 + c / 64, c % 64, t, col - 2);
    }
  }

  lemma CurStep(e: Enc, c: byte)
    requires e.Valid() && e.count % 4 == e.cur
    ensures e.Next(c).count % 4 == e.Next(c).cur
  {
  }

  /** A line break is written exactly after every 64 characters, for any number of octets. */
  lemma {:induction false} LinesOf64(e: Enc, data: seq<byte>)
    requires e.Valid() && e.count % 4 == e.cur
    ensures WellBroken(PutAll(e, data), e.count % ARMOR_WIDTH)
    decreases |data|
  {
    if data != [] {
      CurStep(e, data[0]);
      LinesOf64(e.Next(data[0]), data[1..]);
      PutBroken(e, data[0], PutAll(e.Next(data[0]), data[1..]));
    }
  }

  // -------------------------------------------------------- the header scanner

  datatype Hunt = Hunt(state: nat, count: nat) {
    /** One character seen by the loop of dearmor_openpgp_stream. */
    function Next(c: byte): (h: Hunt) {
      match state
      case 0 => if c == NEWLINE then Hunt(1, 0) else this
      case 1 =>
        if c == DASH then Hunt(if count + 1 == 5 then 2 else 1, count + 1)
        else if c != NEWLINE then Hunt(0, count)
        else this
      case 2 => if c == LETTER_B then Hunt(3, 0) else Hunt(0, count)
      case _ =>
        if c == NEWLINE then Hunt(if count + 1 == 2 then 4 else 3, count + 1)
        else if c != RETURN then Hunt(3, 0)
        else this
    }
  }

  datatype Found = NotFound | DataAt(rest: seq<byte>)

  function Scan(s: seq<byte>, h: Hunt): (r: Found)
    decreases |s|
  {
    if h.state == 4 then DataAt(s) else if s == [] then NotFound else Scan(s[1..], h.Next(s[0]))
  }

  lemma ScanCons(x: byte, s: seq<byte>, h: Hunt)
    requires h.state != 4
    ensures Scan([x] + s, h) == Scan(s, h.Next(x))
  {
    assert ([x] + s)[1..] == s;
  }

  predicate OneLine(s: seq<byte>) {
    forall i | 0 <= i < |s| :: s[i] != NEWLINE
  }

  predicate HasText(s: seq<byte>) {
    exists i | 0 <= i < |s| :: s[i] != RETURN
  }

  lemma {:induction false} ScanLine(line: seq<byte>, s: seq<byte>, count: nat)
    requires OneLine(line)
    ensures Scan(line + s, Hunt(3, count)) == Scan(s, Hunt(3, if HasText(line) then 0 else count))
    decreases |line|
  {
    if line == [] {
      assert line + s == s;
    } else {
      var x, rest := line[0], line[1..];
      assert line + s == [x] + (rest + s);
      ScanCons(x, rest + s, Hunt(3, count));
      ScanLine(rest, s, if x == RETURN then count else 0);
      assert HasText(line) == (x != RETURN || HasText(rest)) by {
        assert forall i | 0 <= i < |rest| :: rest[i] == line[i + 1];
      }
    }
  }

  /** Lines with something on them, each with its line break. */
  function Lines(lines: seq<seq<byte>>): (r: seq<byte>) {
    if lines == [] then [] else (lines[0] + [NEWLINE]) + Lines(lines[1..])
  }

  predicate AllText(lines: seq<seq<byte>>) {
    forall i | 0 <= i < |lines| :: OneLine(lines[i]) && HasText(lines[i])
  }

  lemma ConcatThree(a: seq<byte>, b: seq<byte>, c: seq<byte>, d: seq<byte>)
    ensures ((a + b) + c) + d == a + (b + (c + d))
  {
  }

  lemma {:induction false} ScanLines(lines: seq<seq<byte>>, s: seq<byte>, count: nat)
    requires AllText(lines) && count < 2
    ensures Scan(Lines(lines) + s, Hunt(3, count)) == Scan(s, Hunt(3, if lines == [] then count else 1))
    decreases |lines|
  {
    if lines == [] {
      assert [] + s == s;
    } else {
      var rest := Lines(lines[1..]) + s;
      ConcatThree(lines[0], [NEWLINE], Lines(lines[1..]), s);
      ScanLine(lines[0], [NEWLINE] + rest, count);
      ScanCons(NEWLINE, rest, Hunt(3, 0));
      ScanLines(lines[1..], s, 1);
    }
  }

  const FIVE_DASHES: seq<byte> := [DASH, DASH, DASH, DASH, DASH]

  lemma ScanDashes(s: seq<byte>)
    ensures Scan(FIVE_DASHES + ([LETTER_B] + s), Hunt(1, 0)) == Scan(s, Hunt(3, 0))
  {
    var t := [LETTER_B] + s;
    assert FIVE_DASHES + t == [DASH] + ([DASH] + ([DASH] + ([DASH] + ([DASH] + t))));
    ScanCons(DASH, [DASH] + ([DASH] + ([DASH] + ([DASH] + t))), Hunt(1, 0));
    ScanCons(DASH, [DASH] + ([DASH] + ([DASH] + t)), Hunt(1, 1));
    ScanCons(DASH, [DASH] + ([DASH] + t), Hunt(1, 2));
    ScanCons(DASH, [DASH] + t, Hunt(1, 3));
    ScanCons(DASH, t, Hunt(1, 4));
    ScanCons(LETTER_B, s, Hunt(2, 5));
  }

  predicate OnlyReturns(s: seq<byte>) {
    forall i | 0 <= i < |s| :: s[i] == RETURN
  }

  /**
   A block that opens with five dashes and a B, goes on with any header lines that have something on
   them, and then a blank line: the scanner stops exactly behind the blank line.
   */
  lemma ScannerFindsData(lines: seq<seq<byte>>, blank: seq<byte>, data: seq<byte>)
    requires lines != [] && AllText(lines) && OnlyReturns(blank)
    ensures Scan(FIVE_DASHES + ([LETTER_B] + (Lines(lines) + (blank + ([NEWLINE] + data)))), Hunt(1, 0)) == DataAt(data)
  {
    var tail := blank + ([NEWLINE] + data);
    ScanDashes(Lines(lines) + tail);
    ScanLines(lines, tail, 0);
    ScanLine(blank, [NEWLINE] + data, 1);
    ScanCons(NEWLINE, data, Hunt(3, 1));
  }

  /** "EGIN PGP PUBLIC KEY BLOCK-----" */
  const BEGIN_LINE: seq<byte> :=
    [69, 71, 73, 78, 32, 80, 71, 80, 32, 80, 85, 66, 76, 73, 67, 32, 75, 69, 89, 32, 66, 76, 79, 67, 75, 45, 45, 45, 45, 45]

  /** "-----END PGP PUBLIC KEY BLOCK-----" and a line break */
  const END_LINE: seq<byte> :=
    FIVE_DASHES + [69, 78, 68, 32, 80, 71, 80, 32, 80, 85, 66, 76, 73, 67, 32, 75, 69, 89, 32, 66, 76, 79, 67, 75] + FIVE_DASHES + [NEWLINE]

  /** What armor_openpgp_stream writes for a packet stream. */
  function Armored(data: seq<byte>): (r: seq<byte>) {
    Wrapped(Body(data))
  }

  function Wrapped(body: seq<byte>): (r: seq<byte>) {
    FIVE_DASHES + ([LETTER_B] + (Lines([BEGIN_LINE]) + ([] + ([NEWLINE] + (body + END_LINE)))))
  }

  /** Armoring and dearmoring: the scanner stops at the data, and the data is all of it and nothing more. */
  lemma ArmorRoundTrip(data: seq<byte>)
    ensures Scan(Armored(data), Hunt(1, 0)).DataAt?
    ensures Feed(Scan(Armored(data), Hunt(1, 0)).rest, Fresh, 0) == Fed(data, false)
  {
    assert [BEGIN_LINE][0][0] == 69;
    assert AllText([BEGIN_LINE]);
    ScannerFindsData([BEGIN_LINE], [], Body(data) + END_LINE);
    BodyReadsBack(data, END_LINE);
  }

  // --------------------------------------------------------------- the contexts

  /** The eight shifts both contexts make for an octet. */
  method UpdateCrc(crc: nat, c: byte) returns (r: nat)
    requires crc < 0x100_0000
    ensures r == CrcOctet(crc, c)
  {
    PowersUsed();
    r := Xor(crc, c * 0x1_0000, 24);
    ghost var start := r;
    for i := 0 to 8
      invariant r < 0x100_0000 && r == CrcShifts(start, i)
    {
      var y := r * 2;
      if y >= 0x100_0000 {
        y := Xor(y, CRC24_POLY, 25);
      }
      assert y == CrcShift(r);
      r := y;
    }
  }

  /** struct armor_context, with the text written so far. */
  class ArmorContext {
    var last: byte
    var cur: nat
    var count: nat
    var crc: nat
    var out: seq<byte>

    ghost predicate Valid()
      reads this
    {
      cur < 3 && crc < 0x100_0000
    }

    ghost function State(): (e: Enc)
      reads this
    {
      Enc(last, cur, count)
    }

    constructor ()
      ensures Valid() && State() == START && crc == CRC24_INIT && out == []
    {
      last, cur, count, crc, out := 0, 0, 0, CRC24_INIT, [];
    }

    /** armor_putchar_int. */
    method PutChar(c: byte)
      requires Valid()
      modifies this
      ensures Valid() && State() == old(State()).Next(c) && crc == CrcOctet(old(crc), c)
      ensures out == old(out) + old(State()).Put(c)
    {
      ghost var e := State();
      var chars := CharsFor(c);
      out, count := out + chars, count + |chars|;
      cur := (cur + 1) % 3;
      last := c;
      crc := UpdateCrc(crc, c);
      ConcatAssoc(old(out), chars, e.Next(c).Break());
      if count % ARMOR_WIDTH == 0 {
        out := out + [NEWLINE];
      }
    }

    method CharsFor(c: byte) returns (chars: seq<byte>)
      requires Valid()
      ensures chars == State().Chars(c)
    {
      if cur == 0 {
        chars := [Encode64(c / 4)];
      } else if cur == 1 {
        chars := [Encode64(last % 4 * 16 + c / 16)];
      } else {
        chars := [Encode64(last % 16 * 4 + c / 64), Encode64(c % 64)];
      }
    }

    /** armor_putchar. */
    method PutData(data: seq<byte>)
      requires Valid()
      modifies this
      ensures Valid() && State() == After(old(State()), data) && crc == Crc(old(crc), data)
      ensures out == old(out) + PutAll(old(State()), data)
    {
      var todo := data;
      while todo != []
        invariant Valid()
        invariant After(State(), todo) == After(old(State()), data) && Crc(crc, todo) == Crc(old(crc), data)
        invariant out + PutAll(State(), todo) == old(out) + PutAll(old(State()), data)
        decreases |todo|
      {
        ghost var e, text := State(), out;
        PutChar(todo[0]);
        ConcatAssoc(text, e.Put(todo[0]), PutAll(State(), todo[1..]));
        todo := todo[1..];
      }
    }

    /** armor_finish. */
    method Finish()
      requires Valid()
      modifies this`out
      ensures out == old(out) + (State().Rest() + CrcChars(crc))
    {
      var total := count;
      if cur == 1 {
        out := out + [Encode64(last % 4 * 16), EQUALS, EQUALS];
        total := total + 3;
      } else if cur == 2 {
        out := out + [Encode64(last % 16 * 4), EQUALS];
        total := total + 2;
      }
      if cur != 0 && total % ARMOR_WIDTH == 0 {
        out := out + [NEWLINE];
      }
      if total % ARMOR_WIDTH != 0 {
        out := out + [NEWLINE];
      }
      out := out + CrcChars(crc);
    }
  }

  /** armor_openpgp_stream, given the octets of the packet stream. */
  method ArmorStream(data: seq<byte>) returns (text: seq<byte>)
    ensures text == Armored(data)
  {
    var ctx := new ArmorContext();
    ctx.PutData(data);
    ctx.Finish();
    var body := ctx.out;
    assert body == Body(data) by {
      assert [] + PutAll(START, data) == PutAll(START, data);
    }
    text := Wrapped(body);
  }

  /** The data does end somewhere. */
  predicate HasEnd(s: seq<byte>) {
    exists i | 0 <= i < |s| :: Decode64(s[i]) == 64
  }

  lemma HasEndStep(s: seq<byte>)
    requires HasEnd(s)
    ensures s != [] && (Decode64(s[0]) != 64 ==> HasEnd(s[1..]))
  {
    var i :| 0 <= i < |s| && Decode64(s[i]) == 64;
    if i > 0 {
      assert s[1..][i - 1] == s[i];
    }
  }

  /** struct dearmor_context, with the text still to be read. */
  class DearmorContext {
    var last: nat
    var cur: nat
    var crc: nat
    var rest: seq<byte>

    ghost predicate Valid()
      reads this
    {
      cur < 3 && last < 64 && crc < 0x100_0000 && HasEnd(rest)
    }

    ghost function At(): (p: Phase)
      reads this
    {
      if cur == 0 then Fresh else if cur == 1 then Four else Two
    }

    constructor (text: seq<byte>)
      requires HasEnd(text)
      ensures Valid() && At() == Fresh && last == 0 && crc == CRC24_INIT && rest == text
    {
      last, cur, crc, rest := 0, 0, CRC24_INIT, text;
    }

    ghost function Ahead(f: Reader): (r: Fed)
      reads this
      requires last < 64
    {
      f(rest, At(), last)
    }

    /** The loop that passes over everything that is not one of the 64 characters or an end. */
    method NextValue(ghost f: Reader, ghost at: Phase, ghost before: nat) returns (v: nat)
      requires IsFeed(f) && HasEnd(rest) && before < 64
      modifies this`rest
      ensures v <= 64 && (v < 64 ==> HasEnd(rest)) && |rest| < |old(rest)|
      ensures f(old(rest), at, before) == Took(f, v, rest, at, before)
    {
      v := 65;
      while v == 65
        invariant v <= 65 && (v != 64 ==> HasEnd(rest)) && |rest| <= |old(rest)| && (v == 65 || |rest| < |old(rest)|)
        invariant f(old(rest), at, before) == if v == 65 then f(rest, at, before) else Took(f, v, rest, at, before)
        decreases v == 65, |rest|
      {
        HasEndStep(rest);
        CharFeed(f, rest, at, before);
        v := Decode64(rest[0]);
        rest := rest[1..];
      }
    }

    /** The octet the next characters make; a lone character before the end is passed on as such. */
    method NextOctet(ghost f: Reader) returns (c: byte, end: bool, lone: bool)
      requires IsFeed(f) && Valid()
      modifies this`rest, this`last, this`cur
      ensures end ==> old(Ahead(f)) == Fed([], lone)
      ensures !end ==> Valid() && old(Ahead(f)) == Ahead(f).Behind([c])
      ensures |rest| < |old(rest)| && crc == old(crc)
    {
      c, lone := 0, false;
      var v := NextValue(f, At(), last);
      end := v == 64;
      if end {
        return;
      }
      if cur == 0 {
        var first := v;
        v := NextValue(f, Half, first);
        c := (first * 4 + v / 16) % 256;
      } else if cur == 1 {
        c := last % 16 * 16 + v / 4;
      } else {
        c := last % 4 * 64 + v;
      }
      end, lone := v == 64, v == 64;
      cur := (cur + 1) % 3;
      if !end {
        last := v;
      }
    }

    /** dearmor_getchar. */
    method GetChar(ghost f: Reader) returns (c: byte, end: bool)
      requires IsFeed(f) && Valid()
      modifies this
      ensures end ==> old(Ahead(f)).data == [] && (!old(Ahead(f)).ragged ==> crc == old(crc))
      ensures !end ==> Valid() && old(Ahead(f)) == Ahead(f).Behind([c]) && crc == CrcOctet(old(crc), c)
      ensures |rest| < |old(rest)|
    {
      var lone;
      c, end, lone := NextOctet(f);
      if !end || lone {
        crc := UpdateCrc(crc, c);
      }
    }

    /** Reading to the end of the data gives all of it, and the checksum of it. */
    method ReadAll(ghost f: Reader) returns (data: seq<byte>)
      requires IsFeed(f) && Valid()
      modifies this
      ensures data == old(Ahead(f)).data
      ensures !old(Ahead(f)).ragged ==> old(crc) < 0x100_0000 && crc == Crc(old(crc), data)
    {
      data := [];
      var end := false;
      BehindNothing(Ahead(f));
      while !end
        invariant !end ==> Valid() && old(Ahead(f)) == Ahead(f).Behind(data) && crc == Crc(old(crc), data)
        invariant end ==> data == old(Ahead(f)).data && (!old(Ahead(f)).ragged ==> crc == Crc(old(crc), data))
        decreases !end, |rest|
      {
        ghost var fed := Ahead(f);
        var c;
        c, end := GetChar(f);
        if !end {
          CrcSnoc(old(crc), data, c);
          ConcatAssoc(data, [c], Ahead(f).data);
          data := data + [c];
        }
      }
    }
  }

  lemma {:induction false} CrcSnoc(crc: nat, data: seq<byte>, c: byte)
    requires crc < 0x100_0000
    ensures Crc(crc, data + [c]) == CrcOctet(Crc(crc, data), c)
    decreases |data|
  {
    if data == [] {
      assert [] + [c] == [c] && [c][1..] == [];
    } else {
      assert (data + [c])[1..] == data[1..] + [c];
      CrcSnoc(CrcOctet(crc, data[0]), data[1..], c);
    }
  }
}
