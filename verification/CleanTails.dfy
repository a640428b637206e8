/**
 Tail pointers and the cleaning stages (cleankey.c). Like the cap on user ids, the stages that drop
 oversized packets, merge duplicates or check signatures unlink nodes and leave the tail pointers of
 their lists alone. Each lemma says what a stage makes of a list with one more element at its end,
 and so exactly when that last node stays and the tail pointer with it.
 */
module CleanTails {
  import opened Sequences
  import opened Packets
  import opened Merge
  import opened Duplicates
  import opened CleanKeys

  /** clean_large_packets: the last packet stays exactly if it is within its limit. */
  lemma {:induction false} LargeLast(list: seq<SignedPacket>, p: SignedPacket)
    ensures Fitting(list + [p]) == Fitting(list) + if Fit(p.packet) then [p] else []
  {
    if list == [] {
      assert [p][1..] == [] && [] + [p] == [p];
    } else {
      LargeLast(list[1..], p);
      assert (list + [p])[1..] == list[1..] + [p];
      ConcatAssoc(if Fit(list[0].packet) then [list[0]] else [], Fitting(list[1..]), if Fit(p.packet) then [p] else []);
    }
  }

  lemma {:induction false} OthersLast(list: seq<SignedPacket>, p: SignedPacket, q: Packet)
    ensures Others(list + [p], q) == Others(list, q) + if SamePacket(p.packet, q) then [] else [p]
  {
    if list == [] {
      assert [p][1..] == [] && [] + [p] == [p];
    } else {
      OthersLast(list[1..], p, q);
      assert (list + [p])[1..] == list[1..] + [p];
      ConcatAssoc(if SamePacket(list[0].packet, q) then [] else [list[0]], Others(list[1..], q),
                  if SamePacket(p.packet, q) then [] else [p]);
    }
  }

  lemma {:induction false} GatheredLast(sigs: seq<Signature>, list: seq<SignedPacket>, p: SignedPacket, q: Packet)
    requires !SamePacket(p.packet, q)
    ensures Gathered(sigs, list + [p], q) == Gathered(sigs, list, q)
    decreases |list|
  {
    if list == [] {
      assert ([] + [p])[1..] == [] && ([] + [p])[0] == p;
      assert Gathered(sigs, [], q) == sigs;
    } else {
      assert (list + [p])[1..] == list[1..] + [p];
      GatheredLast(if SamePacket(list[0].packet, q) then MergeSigs(sigs, list[0].sigs) else sigs, list[1..], p, q);
    }
  }

  /** dedupuids and dedupsubkeys: the last packet stays exactly if no earlier one is the same. */
  lemma {:induction false} DuplicateLast(list: seq<SignedPacket>, p: SignedPacket)
    ensures !Has(list, p.packet) ==> Single(list + [p]) == Single(list) + [p]
    ensures Has(list, p.packet) ==> |Single(list + [p])| == |Single(list)|
    decreases |list|
  {
    if list == [] {
      assert [] + [p] == [p] && [p][1..] == [];
      assert Single([p]) == [SignedPacket(p.packet, Gathered(p.sigs, [], p.packet))] + Single(Others([], p.packet));
    } else {
      var q := list[0].packet;
      var rest := Others(list[1..], q);
      assert (list + [p])[1..] == list[1..] + [p] && (list + [p])[0] == list[0];
      HasStep(list, p.packet);
      HasOthers(list[1..], q, p.packet);
      OthersLast(list[1..], p, q);
      if SamePacket(p.packet, q) {
        assert rest + [] == rest;
      } else {
        GatheredLast(list[0].sigs, list[1..], p, q);
        DuplicateLast(rest, p);
        ConcatAssoc([SignedPacket(q, Gathered(list[0].sigs, list[1..], q))], Single(rest), [p]);
      }
    }
  }

  /** clean_sighashes: the last signature stays exactly if it is not judged bad. */
  lemma {:induction false} SigLast(sigs: seq<Signature>, x: Signature, say: Signature -> Verdict)
    ensures Passing(sigs + [x], NotBad(say)) == Passing(sigs, NotBad(say)) + if say(x) == Bad then [] else [x]
  {
    if sigs == [] {
      assert [x][1..] == [] && [] + [x] == [x];
    } else {
      SigLast(sigs[1..], x, say);
      assert (sigs + [x])[1..] == sigs[1..] + [x];
      ConcatAssoc(if NotBad(say)(sigs[0]) then [sigs[0]] else [], Passing(sigs[1..], NotBad(say)),
                  if say(x) == Bad then [] else [x]);
    }
  }

  /** clean_list_sighashes: the last packet stays exactly if all is not verified or it has a self-signature. */
  lemma {:induction false} CheckedLast(list: seq<SignedPacket>, p: SignedPacket, full: bool, judge: (Packet, Signature) -> Verdict)
    ensures var say := Says(judge, p.packet);
            CheckedList(list + [p], full, judge) == CheckedList(list, full, judge) +
            if full && !SomeIs(p.sigs, say, BySelf) then [] else [SignedPacket(p.packet, Passing(p.sigs, NotBad(say)))]
  {
    var last := CheckedPacket(p, full, Says(judge, p.packet));
    if list == [] {
      assert [p][1..] == [] && [] + [p] == [p] && last + [] == last && [] + last == last;
    } else {
      CheckedLast(list[1..], p, full, judge);
      assert (list + [p])[1..] == list[1..] + [p];
      ConcatAssoc(CheckedPacket(list[0], full, Says(judge, list[0].packet)), CheckedList(list[1..], full, judge), last);
    }
  }

  /** Two equal user ids: the second node goes, and it was the last one. */
  lemma DuplicateExample(p: SignedPacket)
    ensures |Single([p, p])| == 1
  {
    DuplicateLast([p], p);
    DuplicateLast([], p);
    assert [p] + [p] == [p, p] && [] + [p] == [p];
    assert Has([p], p.packet) && !Has([], p.packet);
  }
}
