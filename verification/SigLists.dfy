/** Signature lists as the C code keeps them: singly linked nodes, a head and a cached tail. */
module SigLists {
  import opened Packets
  import opened SigDedupe
  import opened Merge

  class Node {
    const sig: Signature
    var next: Node?

    constructor (sig: Signature)
      ensures this.sig == sig && next == null
    {
      this.sig := sig;
      next := null;
    }
  }

  ghost function Sigs(nodes: seq<Node>): (r: seq<Signature>) {
    seq(|nodes|, i requires 0 <= i < |nodes| => nodes[i].sig)
  }

  /** Following `next` from `head` visits exactly `nodes`. */
  ghost predicate Chain(head: Node?, nodes: seq<Node>)
    reads nodes
  {
    && head == (if nodes == [] then null else nodes[0])
    && forall i {:trigger nodes[i].next} | 0 <= i < |nodes| ::
         nodes[i].next == if i + 1 < |nodes| then nodes[i + 1] else null
  }

  /** A chain that ends never meets the same node twice. */
  lemma {:induction false} ChainDistinct(nodes: seq<Node>, i: nat, j: nat)
    requires Chain(if nodes == [] then null else nodes[0], nodes) && i < j < |nodes|
    ensures nodes[i] != nodes[j]
    decreases |nodes| - j
  {
    assert nodes[i].next == nodes[i + 1];
    if j + 1 < |nodes| {
      assert nodes[j].next == nodes[j + 1];
      ChainDistinct(nodes, i + 1, j + 1);
    } else {
      assert nodes[j].next == null;
    }
  }

  ghost function Cut(nodes: seq<Node>, j: nat): (r: seq<Node>)
    requires j < |nodes|
    ensures |r| == |nodes| - 1
    ensures forall i | 0 <= i < |r| :: r[i] == nodes[if i < j then i else i + 1]
    ensures forall n | n in r :: n in nodes
    ensures Sigs(r) == Without(Sigs(nodes), j)
  {
    nodes[..j] + nodes[j+1..]
  }

  class SigList {
    var head: Node?
    var last: Node?
    ghost var nodes: seq<Node>

    ghost predicate Valid()
      reads this, nodes
    {
      Chain(head, nodes) && last == if nodes == [] then null else nodes[|nodes| - 1]
    }

    ghost function Repr(): (r: set<Node>)
      reads this
    {
      set n | n in nodes
    }

    ghost function Contents(): (r: seq<Signature>)
      reads this
    {
      Sigs(nodes)
    }

    constructor ()
      ensures Valid() && nodes == []
    {
      head, last, nodes := null, null, [];
    }

    /** `last` is the tail, or was cleared because the tail went away. */
    ghost predicate TailState(dirty: bool)
      reads this
    {
      last == if dirty || nodes == [] then null else nodes[|nodes| - 1]
    }

    /** Unlink and free nodes[j], whose predecessor (if any) is `prev`. */
    method Unlink(prev: Node?, victim: Node, ghost j: nat)
      requires Chain(head, nodes) && j < |nodes| && nodes[j] == victim
      requires prev == if j == 0 then null else nodes[j - 1]
      modifies this`head, this`nodes, Repr()
      ensures Chain(head, nodes) && Repr() <= old(Repr())
      ensures nodes == Cut(old(nodes), j)
    {
      ghost var was := nodes;
      forall k | 0 <= k < |was| && k != j
        ensures was[k] != victim && (k != j - 1 ==> was[k] != prev)
        ensures was[k].next == if k + 1 < |was| then was[k + 1] else null
      {
        ChainDistinct(was, if k < j then k else j, if k < j then j else k);
        if 0 < j && k != j - 1 {
          ChainDistinct(was, if k < j then k else j - 1, if k < j then j - 1 else k);
        }
      }
      if prev == null {
        head := victim.next;
      } else {
        prev.next := victim.next;
      }
      victim.next := null;
      nodes := Cut(was, j);
      forall k | 0 <= k < |nodes|
        ensures nodes[k].next == if k + 1 < |nodes| then nodes[k + 1] else null
      {
        var k' := if k < j then k else k + 1;
        assert nodes[k] == was[k'];
        if k != j - 1 {
          assert was[k'].next == old(was[k'].next);
        }
      }
    }

    /** drop_sig, with the note its callers make when it is the cached tail that goes. */
    method DropSig(prev: Node?, victim: Node, tailDirty: bool, ghost j: nat) returns (dirty: bool)
      requires Chain(head, nodes) && TailState(tailDirty) && j < |nodes| && nodes[j] == victim
      requires prev == if j == 0 then null else nodes[j - 1]
      modifies this, Repr()
      ensures Chain(head, nodes) && TailState(dirty) && Repr() <= old(Repr())
      ensures nodes == Cut(old(nodes), j)
    {
      if j < |nodes| - 1 {
        ChainDistinct(nodes, j, |nodes| - 1);
      }
      dirty := tailDirty || last == victim;
      Unlink(prev, victim, j);
      if last == victim {
        last := null;
      }
    }

    /** Walk to the real tail. */
    method FindTail() returns (tail: Node?)
      requires Chain(head, nodes)
      ensures tail == if nodes == [] then null else nodes[|nodes| - 1]
    {
      tail := head;
      if tail != null {
        ghost var k := 0;
        while tail.next != null
          invariant k < |nodes| && tail == nodes[k]
          invariant tail.next == if k + 1 < |nodes| then nodes[k + 1] else null
          decreases |nodes| - k
        {
          tail := tail.next;
          k := k + 1;
        }
      }
    }

    /** The inner walk of dedupe_sigs: `outer` drops what it displaces, until something displaces it. */
    method Collapse(outer: Node, ghost i: nat, tailDirty: bool)
      returns (dropOuter: bool, dropped: nat, dirty: bool, ghost j: nat)
      requires Chain(head, nodes) && TailState(tailDirty)
      requires i < |nodes| && nodes[i] == outer && Settled(Contents(), i)
      modifies this, Repr()
      ensures Chain(head, nodes) && TailState(dirty) && Repr() <= old(Repr())
      ensures i < |nodes| && nodes[i] == outer && (i > 0 ==> nodes[i - 1] == old(nodes)[i - 1])
      ensures Settled(Contents(), i)
      ensures Survivors(Contents()) == Survivors(old(Contents()))
      ensures dropped == |old(nodes)| - |nodes|
      ensures dropOuter ==> i < j < |nodes| && Beats(nodes[j].sig, nodes[i].sig, false)
      ensures !dropOuter ==> Settled(Contents(), i + 1)
    {
      dropOuter, dropped, dirty, j := false, 0, tailDirty, i + 1;
      var prev, inner := outer, outer.next;
      while inner != null && !dropOuter
        invariant Chain(head, nodes) && TailState(dirty) && Repr() <= old(Repr())
        invariant i < j <= |nodes| && (i > 0 ==> nodes[i - 1] == old(nodes)[i - 1])
        invariant Settled(Contents(), i) && outer == nodes[i] && prev == nodes[j - 1]
        invariant inner == if j < |nodes| then nodes[j] else null
        invariant Survivors(Contents()) == Survivors(old(Contents()))
        invariant Unmatched(Contents(), i, j)
        invariant dropOuter ==> j < |nodes| && Beats(nodes[j].sig, outer.sig, false)
        invariant dropped == |old(nodes)| - |nodes|
        decreases !dropOuter, |nodes| - j
      {
        if !MatchesSigner(outer.sig, inner.sig) {
          prev, inner, j := inner, inner.next, j + 1;
        } else if IsRevocation(outer.sig.sigtype) || inner.sig.created <= outer.sig.created {
          CollapseStep(Contents(), i, j);
          dirty := DropSig(prev, inner, dirty, j);
          inner := prev.next;
          dropped := dropped + 1;
        } else {
          dropOuter := true;
        }
      }
    }

    /**
     dedupe_sigs. The two nested walks leave exactly the survivors, the count is the number
     of nodes unlinked, and the cached tail is the real tail again.
     */
    method Dedupe() returns (dropped: nat)
      requires Valid()
      modifies this, Repr()
      ensures Valid() && Repr() <= old(Repr())
      ensures Contents() == Survivors(old(Contents()))
      ensures dropped == |old(nodes)| - |nodes|
    {
      dropped := 0;
      var tailDirty := false;
      var prev: Node?, outer := null, head;
      ghost var i := 0;
      while outer != null
        invariant Chain(head, nodes) && TailState(tailDirty) && Repr() <= old(Repr())
        invariant Settled(Contents(), i)
        invariant outer == if i < |nodes| then nodes[i] else null
        invariant prev == if i == 0 then null else nodes[i - 1]
        invariant Survivors(Contents()) == Survivors(old(Contents()))
        invariant dropped == |old(nodes)| - |nodes|
        decreases |nodes| - i
      {
        var dropOuter, n, dirty, j := Collapse(outer, i, tailDirty);
        dropped, tailDirty := dropped + n, dirty;
        if dropOuter {
          DisplacedStep(Contents(), i, j);
          var next := outer.next;
          tailDirty := DropSig(prev, outer, tailDirty, i);
          outer := next;
          dropped := dropped + 1;
        } else {
          prev, outer, i := outer, outer.next, i + 1;
        }
      }
      assert Deduped(Contents());
      DedupedFixed(Contents());
      if tailDirty {
        last := FindTail();
      }
    }

    /** ADD_PACKET_TO_LIST. */
    method Append(sig: Signature)
      requires Valid()
      modifies this, Repr()
      ensures Valid() && Contents() == old(Contents()) + [sig]
      ensures |nodes| == |old(nodes)| + 1 && nodes[..|old(nodes)|] == old(nodes) && fresh(nodes[|old(nodes)|])
    {
      var n := new Node(sig);
      if last == null {
        head := n;
      } else {
        last.next := n;
      }
      last := n;
      nodes := nodes + [n];
    }

    /** packet_list_add: copies of another list's signatures are added at the tail. */
    method AppendAll(other: SigList)
      requires Valid() && other.Valid() && other != this
      requires Repr() !! other.Repr()
      modifies this, Repr()
      ensures Valid() && other.Valid()
      ensures Contents() == old(Contents()) + other.Contents()
      ensures fresh(Repr() - old(Repr()))
    {
      var cur := other.head;
      ghost var k := 0;
      while cur != null
        invariant Valid() && other.Valid() && k <= |other.nodes|
        invariant other.nodes == old(other.nodes)
        invariant cur == if k < |other.nodes| then other.nodes[k] else null
        invariant fresh(Repr() - old(Repr()))
        invariant Repr() !! other.Repr()
        invariant Contents() == old(Contents()) + other.Contents()[..k]
        decreases |other.nodes| - k
      {
        Append(cur.sig);
        cur, k := cur.next, k + 1;
      }
    }

    /** find_signature: is a signature compare_signatures takes for `sig` on the list? */
    method Find(sig: Signature) returns (found: bool)
      requires Valid()
      ensures found == Known(Contents(), sig)
    {
      found := false;
      var cur := head;
      ghost var k := 0;
      while !found && cur != null
        invariant k <= |nodes| && cur == if k < |nodes| then nodes[k] else null
        invariant !found ==> forall m | 0 <= m < k :: !SameSignature(nodes[m].sig, sig)
        invariant found ==> Known(Contents(), sig)
        decreases |nodes| - k
      {
        if SameSignature(cur.sig, sig) {
          assert SameSignature(Contents()[k], sig);
          found := true;
        }
        cur, k := cur.next, k + 1;
      }
    }

    /** The cursor is at nodes[i], `prev` behind it. */
    ghost predicate At(prev: Node?, cur: Node?, i: nat)
      reads this
    {
      && i <= |nodes| && cur == (if i < |nodes| then nodes[i] else null)
      && prev == if i == 0 then null else nodes[i - 1]
    }

    /** One step of that half: unlink nodes[i] if `stored` has it; either way move on. */
    method KeepOrUnlink(stored: SigList, prev: Node?, cur: Node, ghost i: nat) returns (known: bool, next: Node?)
      requires Chain(head, nodes) && stored.Valid() && stored != this && Repr() !! stored.Repr()
      requires i < |nodes| && nodes[i] == cur && prev == if i == 0 then null else nodes[i - 1]
      modifies this`head, this`nodes, Repr()
      ensures Chain(head, nodes) && stored.Valid() && Repr() <= old(Repr())
      ensures known == Known(stored.Contents(), cur.sig)
      ensures nodes == if known then Cut(old(nodes), i) else old(nodes)
      ensures At(if known then prev else cur, next, if known then i else i + 1)
    {
      known := stored.Find(cur.sig);
      next := cur.next;
      if known {
        Unlink(prev, cur, i);
      }
    }

    /** One turn of that half. */
    method FreshTurn(stored: SigList, prev: Node?, cur: Node, ghost i: nat)
      returns (before: Node?, next: Node?, ghost k: nat)
      requires Chain(head, nodes) && stored.Valid() && stored != this && Repr() !! stored.Repr() && At(prev, cur, i)
      modifies this`head, this`nodes, Repr()
      ensures Chain(head, nodes) && stored.Valid() && Repr() <= old(Repr()) && At(before, next, k)
      ensures FreshFrom(Contents(), k, stored.Contents()) == old(FreshFrom(Contents(), i, stored.Contents()))
      ensures |nodes| - k < |old(nodes)| - i
    {
      ghost var sigs, have := Contents(), stored.Contents();
      FreshStep(sigs, i, have);
      var known;
      known, next := KeepOrUnlink(stored, prev, cur, i);
      assert stored.Contents() == have && sigs[i] == cur.sig;
      assert Contents() == if known then Without(sigs, i) else sigs;
      if known {
        before, k := prev, i;
      } else {
        before, k := cur, i + 1;
      }
    }

    /** First half of merge_packet_sigs: unlink from this list everything `stored` already has. */
    method KeepFresh(stored: SigList)
      requires Valid() && stored.Valid() && stored != this && Repr() !! stored.Repr()
      modifies this, Repr()
      ensures Valid() && stored.Valid()
      ensures Contents() == Fresh(old(Contents()), stored.Contents())
      ensures Repr() <= old(Repr())
    {
      var prev: Node?, cur := null, head;
      ghost var i: nat := 0;
      ghost var goal := FreshFrom(Contents(), 0, stored.Contents());
      while cur != null
        invariant Chain(head, nodes) && stored.Valid() && Repr() <= old(Repr()) && At(prev, cur, i)
        invariant FreshFrom(Contents(), i, stored.Contents()) == goal
        decreases |nodes| - i
      {
        prev, cur, i := FreshTurn(stored, prev, cur, i);
      }
      last := prev;
    }
  }

  /**
   merge_packet_sigs: afterwards `stored` holds the merged signatures and `incoming` the
   difference that was new, both with intact links and tails.
   */
  method MergePacketSigs(stored: SigList, incoming: SigList)
    requires stored.Valid() && incoming.Valid() && stored != incoming
    requires stored.Repr() !! incoming.Repr()
    modifies stored, stored.Repr(), incoming, incoming.Repr()
    ensures stored.Valid() && incoming.Valid()
    ensures incoming.Contents() == Fresh(old(incoming.Contents()), old(stored.Contents()))
    ensures stored.Contents() == MergeSigs(old(stored.Contents()), old(incoming.Contents()))
  {
    incoming.KeepFresh(stored);
    stored.AppendAll(incoming);
    var _ := stored.Dedupe();
  }
}
