/** The hash keyservers compare keys by (get_skshash in keyid.c): it does not depend on the order of packets. */
module SksHash {
  import opened Sequences
  import opened Packets
  import opened StreamHash
  import Md5

  // ------------------------------------------------------------- compare_packets

  /** memcmp over the common part, then the shorter one first. */
  predicate Before(a: seq<byte>, b: seq<byte>)
    decreases |a|
  {
    b != [] && (a == [] || a[0] < b[0] || (a[0] == b[0] && Before(a[1..], b[1..])))
  }

  /** What the comparison looks at: not the header format. */
  datatype Item = Item(tag: nat, data: seq<byte>)

  function ItemOf(p: Packet): (i: Item) { Item(p.tag, p.data) }

  /** compare_packets(a, b) < 0. */
  predicate Less(a: Item, b: Item) {
    a.tag < b.tag || (a.tag == b.tag && Before(a.data, b.data))
  }

  /** The comparison is a strict total order. */
  lemma {:induction false} BeforeOrder(a: seq<byte>, b: seq<byte>, c: seq<byte>)
    ensures Before(a, b) && Before(b, c) ==> Before(a, c)
    ensures Before(a, b) ==> !Before(b, a)
    ensures !Before(a, b) && !Before(b, a) ==> a == b
    decreases |a|
  {
    if a != [] && b != [] {
      BeforeOrder(a[1..], b[1..], if c == [] then [] else c[1..]);
      assert a == [a[0]] + a[1..] && b == [b[0]] + b[1..];
    }
  }

  lemma LessOrder(a: Item, b: Item, c: Item)
    ensures Less(a, b) && Less(b, c) ==> Less(a, c)
    ensures Less(a, b) ==> !Less(b, a)
    ensures !Less(a, b) && !Less(b, a) ==> a == b
  {
    BeforeOrder(a.data, b.data, c.data);
  }

  // ------------------------------------------------------------------ sortpackets

  /** Put in front of the first one that is not less. */
  function Insert(s: seq<Packet>, p: Packet): (r: seq<Packet>) {
    if s == [] || !Less(ItemOf(s[0]), ItemOf(p)) then [p] + s else [s[0]] + Insert(s[1..], p)
  }

  function SortInto(sorted: seq<Packet>, ps: seq<Packet>): (r: seq<Packet>)
    decreases |ps|
  {
    if ps == [] then sorted else SortInto(Insert(sorted, ps[0]), ps[1..])
  }

  function Items(ps: seq<Packet>): (r: seq<Item>)
    ensures |r| == |ps|
  {
    if ps == [] then [] else [ItemOf(ps[0])] + Items(ps[1..])
  }

  /** Nothing later is less than what comes first, and so on. */
  ghost predicate Sorted(s: seq<Item>)
    decreases |s|
  {
    s == [] || (Least(s[0], s[1..]) && Sorted(s[1..]))
  }

  ghost predicate Least(x: Item, s: seq<Item>) {
    forall y | y in s :: !Less(y, x)
  }

  lemma {:induction false} InsertMultiset(s: seq<Packet>, p: Packet)
    ensures multiset(Items(Insert(s, p))) == multiset(Items(s)) + multiset{ItemOf(p)}
  {
    if s == [] || !Less(ItemOf(s[0]), ItemOf(p)) {
      assert ([p] + s)[1..] == s;
    } else {
      InsertMultiset(s[1..], p);
      assert ([s[0]] + Insert(s[1..], p))[1..] == Insert(s[1..], p);
    }
  }

  lemma {:induction false} InsertSorted(s: seq<Packet>, p: Packet)
    requires Sorted(Items(s))
    ensures Sorted(Items(Insert(s, p)))
  {
    var x := ItemOf(p);
    if s == [] {
      assert ([p] + s)[1..] == s;
    } else if !Less(ItemOf(s[0]), x) {
      assert ([p] + s)[1..] == s && Items(s)[1..] == Items(s[1..]);
      forall y | y in Items(s) ensures !Less(y, x) {
        LessOrder(y, x, ItemOf(s[0]));
        LessOrder(x, y, ItemOf(s[0]));
        LessOrder(y, ItemOf(s[0]), x);
        LessOrder(ItemOf(s[0]), x, y);
        LessOrder(ItemOf(s[0]), y, x);
      }
    } else {
      var rest := Insert(s[1..], p);
      assert Items(s)[1..] == Items(s[1..]);
      InsertSorted(s[1..], p);
      InsertMultiset(s[1..], p);
      assert ([s[0]] + rest)[1..] == rest;
      forall y | y in Items(rest) ensures !Less(y, ItemOf(s[0])) {
        assert y in multiset(Items(rest));
        LessOrder(ItemOf(s[0]), x, y);
      }
    }
  }

  lemma ItemsCons(ps: seq<Packet>)
    requires ps != []
    ensures multiset(Items(ps)) == multiset{ItemOf(ps[0])} + multiset(Items(ps[1..]))
  {
    assert Items(ps) == [ItemOf(ps[0])] + Items(ps[1..]);
  }

  /** Sorting gives a sorted list of the same packets. */
  lemma {:induction false} SortedResult(sorted: seq<Packet>, ps: seq<Packet>)
    requires Sorted(Items(sorted))
    ensures Sorted(Items(SortInto(sorted, ps)))
    ensures multiset(Items(SortInto(sorted, ps))) == multiset(Items(sorted)) + multiset(Items(ps))
    decreases |ps|
  {
    if ps != [] {
      InsertSorted(sorted, ps[0]);
      InsertMultiset(sorted, ps[0]);
      SortedResult(Insert(sorted, ps[0]), ps[1..]);
      ItemsCons(ps);
    }
  }

  lemma SameHead(a: seq<Item>, b: seq<Item>)
    requires a != [] && b != [] && Sorted(a) && Sorted(b) && multiset(a) == multiset(b)
    ensures a[0] == b[0]
  {
    assert a[0] in multiset(b) && b[0] in multiset(a);
    LessOrder(a[0], b[0], a[0]);
  }

  lemma TailMultiset(a: seq<Item>)
    requires a != []
    ensures multiset(a[1..]) == multiset(a) - multiset{a[0]}
  {
    assert a == [a[0]] + a[1..];
  }

  /** Two sorted lists of the same items are the same list. */
  lemma {:induction false} SortedCanonical(a: seq<Item>, b: seq<Item>)
    requires Sorted(a) && Sorted(b) && multiset(a) == multiset(b)
    ensures a == b
    decreases |a|
  {
    assert |multiset(a)| == |a| && |multiset(b)| == |b|;
    if a != [] {
      SameHead(a, b);
      TailMultiset(a);
      TailMultiset(b);
      SortedCanonical(a[1..], b[1..]);
      assert a == [a[0]] + a[1..] && b == [b[0]] + b[1..];
    }
  }

  // -------------------------------------------------------------------- hashing

  /** What a packet adds to the hashed message: tag and length as 32-bit numbers, then the body. */
  function Record(i: Item): (r: seq<byte>) {
    Big(i.tag, 4) + Big(|i.data|, 4) + i.data
  }

  function Records(items: seq<Item>): (r: seq<byte>) {
    if items == [] then [] else Record(items[0]) + Records(items[1..])
  }

  function SksInput(ps: seq<Packet>): (r: seq<byte>) { Records(Items(SortInto([], ps))) }

  /** The hashed message depends on which packets a key has, not on their order or header format. */
  lemma SksInputCanonical(ps: seq<Packet>, qs: seq<Packet>)
    requires multiset(Items(ps)) == multiset(Items(qs))
    ensures SksInput(ps) == SksInput(qs)
  {
    SortedResult([], ps);
    SortedResult([], qs);
    SortedCanonical(Items(SortInto([], ps)), Items(SortInto([], qs)));
  }

  /** The inner loop of sortpackets. */
  method InsertPacket(sorted: seq<Packet>, p: Packet) returns (r: seq<Packet>)
    ensures r == Insert(sorted, p)
  {
    var front, rest := [], sorted;
    while rest != [] && Less(ItemOf(rest[0]), ItemOf(p))
      invariant Insert(sorted, p) == front + Insert(rest, p)
      decreases |rest|
    {
      ConcatAssoc(front, [rest[0]], Insert(rest[1..], p));
      front, rest := front + [rest[0]], rest[1..];
    }
    ConcatAssoc(front, [p], rest);
    r := front + [p] + rest;
  }

  /** sortpackets. */
  method SortPackets(ps: seq<Packet>) returns (sorted: seq<Packet>)
    ensures sorted == SortInto([], ps)
  {
    sorted := [];
    var todo := ps;
    while todo != []
      invariant SortInto(sorted, todo) == SortInto([], ps)
      decreases |todo|
    {
      sorted := InsertPacket(sorted, todo[0]);
      todo := todo[1..];
    }
  }

  /** get_skshash over the packets of a key. */
  method Hash<S(!new)>(f: (S, seq<byte>) -> S, s: S, ps: seq<Packet>) returns (digest: S)
    requires forall i | 0 <= i < |ps| :: |ps[i].data| < WORD
    ensures digest == Fold(f, s, Md5Padded(SksInput(ps)))
  {
    var todo := SortPackets(ps);
    SameSizes(ps);
    var ctx := new Md5.Md5Context(f, s);
    ghost var all := SksInput(ps);
    while todo != []
      invariant ctx.Valid() && ctx.block == f && ctx.start == s && fresh(ctx) && fresh(ctx.buffer)
      invariant ctx.Message() + Records(Items(todo)) == all
      invariant forall i | 0 <= i < |todo| :: |todo[i].data| < WORD
      decreases |todo|
    {
      var p := todo[0];
      ghost var m := ctx.Message();
      ctx.Update(Big(p.tag, 4), false);
      ctx.Update(Big(|p.data|, 4), false);
      ctx.Update(p.data, false);
      assert Items(todo) == [ItemOf(p)] + Items(todo[1..]);
      assert Items(todo)[1..] == Items(todo[1..]);
      ConcatAssoc(m, Big(p.tag, 4), Big(|p.data|, 4));
      ConcatAssoc(m, Big(p.tag, 4) + Big(|p.data|, 4), p.data);
      ConcatAssoc(m, Record(ItemOf(p)), Records(Items(todo[1..])));
      todo := todo[1..];
    }
    assert ctx.Message() == all;
    digest := ctx.Digest();
  }

  lemma {:induction false} InsertFrom(s: seq<Packet>, p: Packet, q: Packet)
    ensures q in Insert(s, p) ==> q == p || q in s
  {
    if s != [] && Less(ItemOf(s[0]), ItemOf(p)) {
      InsertFrom(s[1..], p, q);
    }
  }

  lemma {:induction false} SortedFrom(sorted: seq<Packet>, ps: seq<Packet>, q: Packet)
    ensures q in SortInto(sorted, ps) ==> q in sorted || q in ps
    decreases |ps|
  {
    if ps != [] {
      InsertFrom(sorted, ps[0], q);
      SortedFrom(Insert(sorted, ps[0]), ps[1..], q);
    }
  }

  lemma SameSizes(ps: seq<Packet>)
    requires forall i | 0 <= i < |ps| :: |ps[i].data| < WORD
    ensures var t := SortInto([], ps); forall i | 0 <= i < |t| :: |t[i].data| < WORD
  {
    var t := SortInto([], ps);
    forall i | 0 <= i < |t| ensures |t[i].data| < WORD {
      SortedFrom([], ps, t[i]);
      assert t[i] in t;
    }
  }
}
