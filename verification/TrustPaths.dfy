/** stats.c and the signature cache of keydb.c: breadth-first searches over lazily loaded keys. */
module TrustPaths {
  import opened Sequences
  import opened KeyGraph
  import opened TrustWalks

  /** What the store holds of a key: the issuers of the signatures on each UID, and the revoked flag. */
  datatype Record = Record(uids: seq<seq<KeyId>>, revoked: bool)

  type Store = map<KeyId, Record>

  /** Pushing a list onto another, one element after the other. */
  function PushAll(list: seq<KeyId>, onto: seq<KeyId>): (r: seq<KeyId>) {
    if list == [] then onto else PushAll(list[1..], [list[0]] + onto)
  }

  function PushUids(uids: seq<seq<KeyId>>, onto: seq<KeyId>): (r: seq<KeyId>) {
    if uids == [] then onto else PushUids(uids[1..], PushAll(uids[0], onto))
  }

  /** The signers of a key as the searches see them; key id zero has none. */
  function Signers(db: Store, k: KeyId): (r: seq<KeyId>) {
    if k == 0 || k !in db then [] else PushUids(db[k].uids, [])
  }

  /** The issuers on all UIDs, one UID after the other. */
  function Issuers(uids: seq<seq<KeyId>>): (r: seq<KeyId>) {
    if uids == [] then [] else uids[0] + Issuers(uids[1..])
  }

  lemma {:induction false} PushAllIs(list: seq<KeyId>, onto: seq<KeyId>)
    ensures PushAll(list, onto) == Flipped(list) + onto
  {
    if list != [] {
      PushAllIs(list[1..], [list[0]] + onto);
      assert Flipped(list) == Flipped(list[1..]) + [list[0]];
    }
  }

  lemma {:induction false} PushUidsIs(uids: seq<seq<KeyId>>, onto: seq<KeyId>)
    ensures PushUids(uids, onto) == Flipped(Issuers(uids)) + onto
  {
    if uids != [] {
      PushAllIs(uids[0], onto);
      PushUidsIs(uids[1..], PushAll(uids[0], onto));
      assert Flipped(Issuers(uids)) == Flipped(Issuers(uids[1..])) + Flipped(uids[0]);
    }
  }

  lemma {:induction false} IssuersHave(uids: seq<seq<KeyId>>, v: KeyId)
    ensures v in Issuers(uids) <==> exists i | 0 <= i < |uids| :: v in uids[i]
  {
    if uids != [] {
      IssuersHave(uids[1..], v);
      assert uids == [uids[0]] + uids[1..];
    }
  }

  /**
   The signers of a key are the issuers of the signatures on all its UIDs, the last one first; key id
   zero and a key that is not stored have none.
   */
  lemma SignersAre(db: Store, k: KeyId)
    ensures Signers(db, k) == if k != 0 && k in db then Flipped(Issuers(db[k].uids)) else []
    ensures forall v :: v in Signers(db, k) <==>
              k != 0 && k in db && exists i, j | 0 <= i < |db[k].uids| && 0 <= j < |db[k].uids[i]| :: db[k].uids[i][j] == v
  {
    if k != 0 && k in db {
      var uids := db[k].uids;
      PushUidsIs(uids, []);
      forall v ensures v in Signers(db, k) <==>
                 exists i, j | 0 <= i < |uids| && 0 <= j < |uids[i]| :: uids[i][j] == v
      {
        IssuersHave(uids, v);
        FlippedHas(Issuers(uids), v);
      }
    }
  }

  lemma FlippedHas(s: seq<KeyId>, v: KeyId)
    ensures v in Flipped(s) <==> v in s
  {
    if v in s {
      var i :| 0 <= i < |s| && s[i] == v;
      assert Flipped(s)[|s| - 1 - i] == v;
    }
  }

  function SignerLinks(db: Store): (r: Links) {
    map k | k in db :: Signers(db, k)
  }

  ghost function AllSigners(db: Store): (r: set<KeyId>) {
    set k, i | k in db && 0 <= i < |Signers(db, k)| :: Signers(db, k)[i]
  }

  /** Keys whose revoked flag gets loaded with their signatures; that of a key nobody signed never is. */
  ghost function RevokedKeys(db: Store): (r: set<KeyId>) {
    set k | k in db && db[k].revoked && Signers(db, k) != []
  }

  lemma SignerIn(db: Store, k: KeyId, v: KeyId)
    requires v in Signers(db, k)
    ensures v in AllSigners(db) && k != 0 && k in db
  {
    var i :| 0 <= i < |Signers(db, k)| && Signers(db, k)[i] == v;
  }

  /** The keys strictly inside a reported path. */
  function Inner(path: seq<KeyId>): (r: set<KeyId>) {
    set i | 0 < i < |path| - 1 :: path[i]
  }

  /** The keys strictly inside any of the paths. */
  ghost function Insides(paths: seq<seq<KeyId>>): (r: set<KeyId>) {
    if paths == [] then {} else Insides(paths[..|paths| - 1]) + Inner(paths[|paths| - 1])
  }

  lemma InsidesNext(paths: seq<seq<KeyId>>, path: seq<KeyId>)
    ensures Insides(paths + [path]) == Insides(paths) + Inner(path)
    ensures |path| <= 1 ==> Inner(path) == {}
  {
    assert (paths + [path])[..|paths|] == paths;
  }

  predicate Linked(links: Links, u: KeyId, v: KeyId) {
    u in links && v in links[u]
  }

  class StatsCache {
    const db: Store
    /** Keys in the hash table. */
    var known: set<KeyId>
    /** Signers of the keys whose signatures have been loaded. */
    var sigs: Links
    /** The keys each key signs, as far as loaded. */
    var signs: Links
    var revoked: set<KeyId>
    var disabled: set<KeyId>
    /** Colour zero and parent zero are left out of the maps. */
    var colour: Colours
    var parent: Parents

    constructor (db: Store)
      ensures this.db == db && CacheOk() && disabled == {} && revoked == {}
    {
      this.db := db;
      known, sigs, signs, revoked, disabled, colour, parent := {}, map[], map[], {}, {}, map[], map[];
    }

    ghost predicate SigsAt(k: KeyId)
      reads this`sigs, this`known, this`revoked
    {
      && k in sigs && k in known && k in db && sigs[k] == Signers(db, k) && sigs[k] != []
      && (k in revoked <==> db[k].revoked)
      && forall v | v in sigs[k] :: v in known
    }

    /** What is cached agrees with the store, and `signs` is the transpose of `sigs`. */
    ghost predicate CacheOk()
      reads this`sigs, this`signs, this`known, this`revoked
    {
      && (forall k {:trigger SigsAt(k)} | k in sigs :: SigsAt(k))
      && revoked <= sigs.Keys
      && (forall v, k :: Linked(signs, v, k) <==> Linked(sigs, k, v))
    }

    /** getkeysigs: the list of signers, each of which gets an entry in the hash table. */
    method GetKeySigs(k: KeyId) returns (r: seq<KeyId>, rev: bool)
      requires k != 0
      modifies this`known
      ensures r == Signers(db, k) && rev == (k in db && db[k].revoked)
      ensures old(known) <= known && forall v | v in r :: v in known
    {
      r, rev := [], false;
      if k in db {
        var uids := db[k].uids;
        for i := 0 to |uids|
          invariant PushUids(uids[i..], r) == PushUids(uids, [])
          invariant old(known) <= known && forall v | v in r :: v in known
        {
          var list := uids[i];
          ghost var start := r;
          for j := 0 to |list|
            invariant PushAll(list[j..], r) == PushAll(list, start)
            invariant old(known) <= known && forall v | v in r :: v in known
          {
            assert list[j..][0] == list[j] && list[j..][1..] == list[j + 1..];
            known := known + {list[j]};
            r := [list[j]] + r;
          }
          assert uids[i..][0] == list && uids[i..][1..] == uids[i + 1..];
        }
        rev := db[k].revoked;
      }
    }

    /** cached_getkeysigs: on first use the list, the revoked flag and the reverse links are filled in. */
    method CachedGetKeySigs(k: KeyId) returns (r: seq<KeyId>)
      requires CacheOk()
      modifies this`known, this`sigs, this`signs, this`revoked
      ensures CacheOk() && r == Signers(db, k)
      ensures old(known) <= known && (r != [] ==> k in known) && forall v | v in r :: v in known
      ensures (r == [] || k in sigs) && old(sigs).Keys <= sigs.Keys
      ensures revoked == old(revoked) + {k} * RevokedKeys(db)
    {
      if k == 0 {
        return [];
      }
      if k in sigs {
        assert SigsAt(k);
        return sigs[k];
      }
      var rev;
      r, rev := GetKeySigs(k);
      forall x | x in sigs ensures SigsAt(x) {
        assert old(SigsAt(x));
      }
      if r == [] {
        return;
      }
      known := known + {k};
      ghost var sigs0 := sigs;
      sigs := sigs[k := r];
      revoked := if rev then revoked + {k} else revoked;
      LinkBack(k, r);
      forall x | x in sigs ensures SigsAt(x) {
        assert x != k ==> old(SigsAt(x));
      }
      forall v, x ensures Linked(signs, v, x) <==> Linked(sigs, x, v) {
        assert old(Linked(signs, v, x) <==> Linked(sigs, x, v));
      }
    }

    /** Every signer is told which key it signs. */
    method LinkBack(k: KeyId, r: seq<KeyId>)
      modifies this`signs
      ensures forall v, x :: Linked(signs, v, x) <==> old(Linked(signs, v, x)) || (x == k && v in r)
    {
      for i := 0 to |r|
        invariant forall v, x :: Linked(signs, v, x) <==> old(Linked(signs, v, x)) || (x == k && v in r[..i])
      {
        ghost var before := signs;
        signs := signs[r[i] := [k] + if r[i] in signs then signs[r[i]] else []];
        forall v, x ensures Linked(signs, v, x) <==> Linked(before, v, x) || (x == k && v == r[i]) { }
        assert r[..i + 1] == r[..i] + [r[i]];
      }
      assert r[..|r|] == r;
    }

    ghost predicate Loaded(k: KeyId)
      reads this`sigs
    {
      k in sigs || Signers(db, k) == []
    }

    /** For keys without a colour the flags are those the search started with. */
    ghost predicate FlagsKept(barred: set<KeyId>)
      reads this`colour, this`disabled, this`revoked
    {
      forall v {:trigger v in barred} | v !in colour :: v in barred <==> v in disabled || v in revoked
    }

    /** What is coloured is a signer somewhere and in the hash table. */
    ghost predicate ColoursKnown()
      reads this`colour, this`known
    {
      colour.Keys <= AllSigners(db) && colour.Keys <= known
    }

    ghost function Now(c: nat, todo: seq<KeyId>, next: seq<KeyId>): (s: Search)
      reads this`colour, this`parent
    {
      Search(colour, parent, c, todo, next)
    }

    /** The inner loop of findpath: the signers of `u` that may be stepped on get their colour. */
    method ColourSigners(u: KeyId, list: seq<KeyId>, c: nat, next0: seq<KeyId>, have: KeyId,
                         ghost net: Net, ghost todo: seq<KeyId>)
      returns (next: seq<KeyId>, count: nat)
      requires list == Signers(db, u) && (forall v | v in list :: v in known)
      requires FlagsKept(net.barred) && ColoursKnown()
      modifies this`colour, this`parent
      ensures Now(c, todo, next) == LookAtAll(net, old(Now(c, todo, next0)), u, list, {have})
      ensures FlagsKept(net.barred) && ColoursKnown() && |colour| == |old(colour)| + count
    {
      next, count := next0, 0;
      var i := 0;
      ghost var goal := LookAtAll(net, Now(c, todo, next0), u, list, {have});
      while i < |list| && have !in colour
        invariant i <= |list| && FlagsKept(net.barred) && ColoursKnown() && |colour| == |old(colour)| + count
        invariant LookAtAll(net, Now(c, todo, next), u, list[i..], {have}) == goal
        decreases |list| - i
      {
        LookOn(net, Now(c, todo, next), u, list, i, have);
        var n;
        next, n := ColourOne(u, list[i], c, next, net, todo);
        count, i := count + n, i + 1;
      }
      LookOver(net, Now(c, todo, next), u, list[i..], have);
    }

    /** One signer: it gets the colour unless it has one or may not be stepped on. */
    method ColourOne(u: KeyId, v: KeyId, c: nat, next0: seq<KeyId>, ghost net: Net, ghost todo: seq<KeyId>)
      returns (next: seq<KeyId>, n: nat)
      requires v in Signers(db, u) && v in known && FlagsKept(net.barred) && ColoursKnown()
      modifies this`colour, this`parent
      ensures Now(c, todo, next) == LookAt(net, old(Now(c, todo, next0)), u, v)
      ensures FlagsKept(net.barred) && ColoursKnown() && |colour| == |old(colour)| + n
    {
      next, n := next0, 0;
      if v !in disabled && v !in revoked && v !in colour {
        assert v !in net.barred;
        SignerIn(db, u, v);
        n, next := 1, [v] + next0;
        colour, parent := colour[v := c], parent[v := u];
      } else {
        assert v in colour || v in net.barred;
      }
    }

    /** One key of the current layer: its signers are fetched, then coloured. */
    method Expand(u: KeyId, c: nat, next0: seq<KeyId>, have: KeyId, ghost net: Net, ghost todo: seq<KeyId>)
      returns (next: seq<KeyId>, count: nat)
      requires CacheOk() && FlagsKept(net.barred) && ColoursKnown() && (u in colour || Loaded(u))
      requires net.links == SignerLinks(db)
      modifies this`known, this`sigs, this`signs, this`revoked, this`colour, this`parent
      ensures CacheOk() && FlagsKept(net.barred) && ColoursKnown() && |colour| == |old(colour)| + count
      ensures old(known) <= known && old(sigs).Keys <= sigs.Keys
      ensures old(revoked) <= revoked <= old(revoked) + RevokedKeys(db)
      ensures Now(c, todo, next) == LookAtAll(net, old(Now(c, todo, next0)), u, net.Links(u), {have})
    {
      assert u in sigs ==> SigsAt(u);
      var list := CachedGetKeySigs(u);
      assert list == net.Links(u);
      next, count := ColourSigners(u, list, c, next0, have, net, todo);
    }

    /** What findpath and its relatives keep while they search. */
    ghost predicate Busy(net: Net, known0: set<KeyId>, revoked0: set<KeyId>)
      reads this
    {
      && CacheOk() && FlagsKept(net.barred) && ColoursKnown() && Loaded(net.root) && net.links == SignerLinks(db)
      && known0 <= known && revoked0 <= revoked <= revoked0 + RevokedKeys(db)
    }

    /** One turn of the search loop. */
    method SearchTurn(have: KeyId, c: nat, todo: seq<KeyId>, next: seq<KeyId>, ghost net: Net,
                      ghost known0: set<KeyId>, ghost revoked0: set<KeyId>)
      returns (c': nat, todo': seq<KeyId>, next': seq<KeyId>, count: nat)
      requires Busy(net, known0, revoked0) && todo != [] && (todo[0] == net.root || todo[0] in colour)
      modifies this`known, this`sigs, this`signs, this`revoked, this`colour, this`parent
      ensures Busy(net, known0, revoked0) && |colour| == |old(colour)| + count
      ensures Now(c', todo', next') == Turn(net, old(Now(c, todo, next)), {have})
    {
      next', count := Expand(todo[0], c, next, have, net, todo);
      c', todo' := c, todo[1..];
      if todo' == [] {
        todo', next', c' := next', [], c + 1;
      }
    }

    /**
     findpath. The key we have is coloured iff a chain of signers leads to it from the key we want,
     and every colour is the length of the shortest such chain to that key.
     */
    method FindPath(have: KeyId, want: KeyId, ghost net: Net) returns (count: nat)
      requires CacheOk() && colour == map[] && parent == map[] && Loaded(want)
      requires net == Net(SignerLinks(db), want, disabled + revoked)
      modifies this`known, this`sigs, this`signs, this`revoked, this`colour, this`parent
      ensures CacheOk() && ColoursKnown() && Loaded(want) && count == |colour|
      ensures old(known) <= known && old(revoked) <= revoked <= old(revoked) + RevokedKeys(db)
      ensures exists c :: net.Sound(colour, parent, c)
      ensures have in colour <==> net.Reachable(have)
    {
      var c, todo, next := 1, [want], [];
      count := 0;
      net.SearchStarts();
      while todo != [] && have !in colour
        invariant Busy(net, old(known), old(revoked)) && count == |colour|
        invariant Good(net, Now(c, todo, next), {have})
        decreases |AllSigners(db) - colour.Keys|, |todo| + |next|
      {
        ghost var before := Now(c, todo, next);
        SearchKeeps(net, before, have);
        var n;
        c, todo, next, n := SearchTurn(have, c, todo, next, net, old(known), old(revoked));
        FewerLeft(AllSigners(db), before.colour.Keys, colour.Keys);
        count := count + n;
      }
      SearchOutcome(net, Now(c, todo, next), have);
    }

    /** The walk dofindpath makes from the key we have along the parents: it visits a shortest chain. */
    method Follow(have: KeyId, ghost net: Net, ghost c: nat, ghost parent0: Parents) returns (path: seq<KeyId>)
      requires net.links == SignerLinks(db) && net.Sound(colour, parent0, c)
      requires ColoursKnown() && net.root in known && parent == parent0 - {net.root}
      requires have in colour && have != net.root && have != 0
      ensures path == net.TrailTo(parent0, have, colour[have] + 1)
    {
      ghost var trail := net.TrailTo(parent0, have, colour[have] + 1);
      forall k | 0 <= k < |trail| ensures LinkAt(parent, known, trail, k) {
        FollowStep(db, net, colour, parent0, c, have, k);
        FollowStep(db, net, colour, parent0, c, have, if k == 0 then 0 else k - 1);
        net.TrailToAt(parent0, have, |trail|, k);
        if k + 1 < |trail| {
          net.TrailToAt(parent0, have, |trail|, k + 1);
        }
      }
      net.TrailToAt(parent0, have, |trail|, 0);
      path := FollowLoop(have, trail);
    }

    /** Its loop, for a walk that is known. */
    method FollowLoop(have: KeyId, ghost trail: seq<KeyId>) returns (path: seq<KeyId>)
      requires trail != [] && trail[0] == have && forall k | 0 <= k < |trail| :: LinkAt(parent, known, trail, k)
      ensures path == trail
    {
      var cur := have;
      path := [];
      assert LinkAt(parent, known, trail, 0);
      while cur in known && cur != 0
        invariant |path| <= |trail| && path == trail[..|path|]
        invariant if |path| < |trail| then cur == trail[|path|] && cur in known && cur != 0 else cur == 0
        decreases |trail| - |path|
      {
        assert LinkAt(parent, known, trail, |path|);
        assert |path| + 1 < |trail| ==> LinkAt(parent, known, trail, |path| + 1);
        path := path + [cur];
        cur := if cur in parent then parent[cur] else 0;
      }
    }

    /** On that walk every key but the two ends is disabled for the next round. */
    method DisableInner(path: seq<KeyId>, have: KeyId, want: KeyId)
      requires |path| >= 2 && path[0] == have && path[|path| - 1] == want
      requires forall i | 0 < i < |path| - 1 :: path[i] != have && path[i] != want
      modifies this`disabled
      ensures disabled == old(disabled) + Inner(path)
    {
      var n := |path| - 1;
      for i := 0 to |path|
        invariant disabled == old(disabled) + FirstInner(path[..i], n)
      {
        assert path[..i + 1] == path[..i] + [path[i]];
        InnerGrows(path[..i], path[i], n);
        if path[i] != have && path[i] != want {
          disabled := disabled + {path[i]};
        }
      }
      assert path[..|path|] == path && FirstInner(path, n) == Inner(path);
    }

    /** After a successful search: is it a single signature, and which keys lie on the way? */
    method Trace(have: KeyId, want: KeyId, ghost net: Net, ghost parent0: Parents)
      returns (direct: bool, path: seq<KeyId>)
      requires net.links == SignerLinks(db) && net.root == want && (exists c :: net.Sound(colour, parent0, c))
      requires ColoursKnown() && want in known && parent == parent0 - {want} && have in colour
      modifies this`disabled
      ensures have != want && have != 0 ==> ShortestTrail(net, have, path) && direct == (|path| == 2)
      ensures have == want || have == 0 ==> |path| <= 1
      ensures disabled == old(disabled) + Inner(path)
    {
      direct := colour[have] == 1;
      ghost var c :| net.Sound(colour, parent0, c);
      assert net.ColourAt(colour, c, have);
      if have == 0 {
        path := [];
      } else if have == want {
        path := [have];
      } else {
        path := Follow(have, net, c, parent0);
        net.TrailIsTrail(colour, parent0, c, have);
        TrailInner(net, colour, parent0, c, have);
        DisableInner(path, have, want);
      }
    }

    /** One round of dofindpath: search, and if the key we have was found, walk back and disable. */
    method Round(have: KeyId, want: KeyId, ghost net: Net) returns (found: bool, direct: bool, path: seq<KeyId>)
      requires CacheOk() && Loaded(want) && want in known
      requires net == Net(SignerLinks(db), want, disabled + revoked)
      modifies this
      ensures CacheOk() && Loaded(want) && want in known && old(known) <= known
      ensures old(revoked) <= revoked <= old(revoked) + RevokedKeys(db)
      ensures found == net.Reachable(have) && disabled == old(disabled) + Inner(path)
      ensures found && have != want && have != 0 ==> ShortestTrail(net, have, path) && direct == (|path| == 2)
      ensures !found || have == want || have == 0 ==> |path| <= 1
    {
      ghost var parent0;
      colour, parent := map[], map[];
      found, parent0 := FreshSearch(have, want, net);
      direct, path := false, [];
      if found {
        direct, path := Trace(have, want, net, parent0);
      }
    }

    /** findpath after initcolour, and the wanted key's own parent cleared. */
    method FreshSearch(have: KeyId, want: KeyId, ghost net: Net) returns (found: bool, ghost parent0: Parents)
      requires CacheOk() && colour == map[] && parent == map[] && Loaded(want) && want in known
      requires net == Net(SignerLinks(db), want, disabled + revoked)
      modifies this`known, this`sigs, this`signs, this`revoked, this`colour, this`parent
      ensures CacheOk() && Loaded(want) && want in known && ColoursKnown() && old(known) <= known
      ensures old(revoked) <= revoked <= old(revoked) + RevokedKeys(db)
      ensures found == (have in colour) == net.Reachable(have)
      ensures parent == parent0 - {want} && exists c :: net.Sound(colour, parent0, c)
    {
      var _ := FindPath(have, want, net);
      parent0 := parent;
      parent := parent - {want};
      found := have in colour;
    }

    /**
     dofindpath, without its output: the paths reported, and as ghosts the nets they were found in. The
     first net bars what was disabled or known to be revoked at the call, and the two keys themselves if
     they are revoked. It ends when enough paths are found, when one is a single signature, or when
     there is none; what is disabled afterwards is what was before and the insides of the paths.
     */
    method DoFindPath(have: KeyId, want: KeyId, count: int) returns (paths: seq<seq<KeyId>>, ghost nets: seq<Net>)
      requires CacheOk()
      modifies this
      ensures CacheOk() && old(known) <= known && |paths| <= if count < 0 then 0 else count
      ensures (Signers(db, have) != [] ==> have in known) && (Signers(db, want) != [] ==> want in known)
      ensures disabled == old(disabled) + Insides(paths)
      ensures nets != [] ==> nets[0].barred == old(disabled + revoked) + {have, want} * RevokedKeys(db)
      ensures have !in known || want !in known ==> paths == [] && nets == []
      ensures have != want && have != 0 ==> Report(db, have, want, nets, paths) && LongFirst(paths)
      ensures have != want && have != 0 && have in known && want in known && |paths| < count ==>
                Exhausted(have, nets, paths)
      ensures have == want ==> forall i | 0 <= i < |paths| :: |paths[i]| <= 1
    {
      LoadEnds(have, want);
      if have !in known || want !in known {
        return [], [];
      }
      paths, nets := Rounds(have, want, count);
    }

    /** Both keys are loaded. */
    method LoadEnds(have: KeyId, want: KeyId)
      requires CacheOk()
      modifies this`known, this`sigs, this`signs, this`revoked
      ensures CacheOk() && Loaded(want) && old(known) <= known
      ensures (Signers(db, have) != [] ==> have in known) && (Signers(db, want) != [] ==> want in known)
      ensures revoked == old(revoked) + {have, want} * RevokedKeys(db)
    {
      var _ := CachedGetKeySigs(have);
      var _ := CachedGetKeySigs(want);
    }

    /** The loop of dofindpath. */
    method Rounds(have: KeyId, want: KeyId, count: int) returns (paths: seq<seq<KeyId>>, ghost nets: seq<Net>)
      requires CacheOk() && Loaded(want) && have in known && want in known
      modifies this
      ensures CacheOk() && old(known) <= known && |paths| <= if count < 0 then 0 else count
      ensures disabled == old(disabled) + Insides(paths)
      ensures nets != [] ==> nets[0].barred == old(disabled + revoked)
      ensures have != want && have != 0 ==> Report(db, have, want, nets, paths) && LongFirst(paths)
      ensures have != want && have != 0 && |paths| < count ==> Exhausted(have, nets, paths)
      ensures have == want ==> forall i | 0 <= i < |paths| :: |paths[i]| <= 1
    {
      paths, nets := [], [];
      var pathnum := 0;
      ghost var ended := false;
      while pathnum < count
        invariant CacheOk() && Loaded(want) && want in known && old(known) <= known && pathnum >= 0
        invariant |paths| <= if count < 0 then 0 else count
        invariant !ended ==> pathnum == |paths| == |nets|
        invariant ended ==> pathnum > count
        invariant disabled == old(disabled) + Insides(paths)
        invariant (if nets == [] then disabled + revoked else nets[0].barred) == old(disabled + revoked)
        invariant AfterRounds(db, have, want, nets, paths, disabled + revoked, ended)
        decreases count - pathnum
      {
        ghost var net := Net(SignerLinks(db), want, disabled + revoked);
        var found, direct, path := Round(have, want, net);
        RoundDone(db, have, want, nets, paths, net, found, direct, path, disabled + revoked);
        InsidesNext(paths, path);
        nets, ended := nets + [net], !found || direct;
        if !found {
          pathnum := count;
        } else {
          paths := paths + [path];
          if direct {
            pathnum := count;
          }
        }
        pathnum := pathnum + 1;
      }
    }

    /** The neighbour lists countdegree can follow: the signers, or the keys signed as far as loaded. */
    ghost function Followed(useSigs: bool): (r: Links)
      reads this`signs
    {
      if useSigs then SignerLinks(db) else signs
    }

    /** The list to follow from `u`. */
    method Neighbours(u: KeyId, useSigs: bool, ghost net: Net) returns (list: seq<KeyId>)
      requires CacheOk() && net.links == Followed(useSigs)
      modifies this`known, this`sigs, this`signs, this`revoked
      ensures CacheOk() && net.links == Followed(useSigs) && list == net.Links(u)
    {
      if useSigs {
        list := CachedGetKeySigs(u);
      } else {
        list := if u in signs then signs[u] else [];
      }
    }

    /** The loop that gives a colour to whatever on the list has none yet. */
    method ColourList(u: KeyId, list: seq<KeyId>, c: nat, next0: seq<KeyId>, last0: KeyId, ghost net: Net, ghost todo: seq<KeyId>)
      returns (next: seq<KeyId>, count: nat, last: KeyId)
      requires net.barred == {} && list == net.Links(u) && colour.Keys <= Targets(net.links)
      modifies this`colour, this`parent
      ensures colour.Keys <= Targets(net.links) && |colour| == |old(colour)| + count
      ensures Now(c, todo, next) == LookAtAll(net, old(Now(c, todo, next0)), u, list, {})
      ensures if count == 0 then last == last0 && colour == old(colour) else last in colour && colour[last] == c
    {
      next, count, last := next0, 0, last0;
      ghost var goal := LookAtAll(net, Now(c, todo, next0), u, list, {});
      for i := 0 to |list|
        invariant colour.Keys <= Targets(net.links) && |colour| == |old(colour)| + count
        invariant LookAtAll(net, Now(c, todo, next), u, list[i..], {}) == goal
        invariant if count == 0 then last == last0 && colour == old(colour) else last in colour && colour[last] == c
      {
        var v := list[i];
        assert list[i..][0] == v && list[i..][1..] == list[i + 1..];
        if v !in colour {
          TargetIn(net.links, u, v);
          count, last := count + 1, v;
          colour, parent := colour[v := c], parent[v := u];
          next := [v] + next;
        }
      }
    }

    ghost predicate Wide(net: Net, useSigs: bool)
      reads this`known, this`sigs, this`signs, this`revoked, this`colour
    {
      CacheOk() && net.links == Followed(useSigs) && net.barred == {} && colour.Keys <= Targets(net.links)
    }

    /** The keys next to the first one on the list get their colours. */
    method WideLook(useSigs: bool, c: nat, todo: seq<KeyId>, next: seq<KeyId>, last: KeyId, ghost net: Net)
      returns (next': seq<KeyId>, count: nat, last': KeyId)
      requires Wide(net, useSigs) && todo != []
      modifies this`known, this`sigs, this`signs, this`revoked, this`colour, this`parent
      ensures Wide(net, useSigs) && |colour| == |old(colour)| + count
      ensures Now(c, todo, next') == LookAtAll(net, old(Now(c, todo, next)), todo[0], net.Links(todo[0]), {})
      ensures if count == 0 then last' == last && colour == old(colour) else last' in colour && colour[last'] == c
    {
      var list := Neighbours(todo[0], useSigs, net);
      next', count, last' := ColourList(todo[0], list, c, next, last, net, todo);
    }

    /** One turn of countdegree or furthestkey. */
    method WideTurn(useSigs: bool, c: nat, todo: seq<KeyId>, next: seq<KeyId>, last: KeyId, ghost net: Net)
      returns (c': nat, todo': seq<KeyId>, next': seq<KeyId>, last': KeyId, count: nat)
      requires Wide(net, useSigs) && todo != [] && Good(net, Now(c, todo, next), {})
      modifies this`known, this`sigs, this`signs, this`revoked, this`colour, this`parent
      ensures Wide(net, useSigs) && |colour| == |old(colour)| + count
      ensures Now(c', todo', next') == Turn(net, old(Now(c, todo, next)), {}) && Good(net, Now(c', todo', next'), {})
      ensures |Targets(net.links) - colour.Keys| <= |Targets(net.links) - old(colour.Keys)|
      ensures |Targets(net.links) - colour.Keys| == |Targets(net.links) - old(colour.Keys)| ==>
                |todo'| + |next'| < |todo| + |next|
      ensures if count == 0 then last' == last && colour == old(colour) else last' in colour && colour[last'] == c
      ensures forall v | v in colour :: colour[v] <= c
      ensures c' == c || (c' == c + 1 && next' == [])
    {
      WideKeeps(net, Now(c, todo, next), Targets(net.links));
      next', count, last' := WideLook(useSigs, c, todo, next, last, net);
      c', todo' := c, todo[1..];
      if todo' == [] {
        todo', next', c' := next', [], c + 1;
      }
    }

    /**
     countdegree: how many keys are at most `maxDegree` steps away. The bound is compared as an unsigned
     number, so that a negative one is out of reach.
     */
    method CountDegree(have: KeyId, useSigs: bool, maxDegree: int) returns (count: nat)
      requires CacheOk() && colour == map[] && parent == map[] && -0x8000_0000 <= maxDegree < 0x8000_0000
      modifies this`known, this`sigs, this`signs, this`revoked, this`colour, this`parent
      ensures CacheOk() && count == |colour|
      ensures var net := Net(old(Followed(useSigs)), have, {});
              forall v :: v in colour <==> Within(net, v, Unsigned(maxDegree))
    {
      ghost var net := Net(Followed(useSigs), have, {});
      var c: nat, todo, next, last := 1, [have], [], have;
      count := 0;
      net.SearchStarts();
      var bound := Unsigned(maxDegree);
      while todo != [] && c <= bound
        invariant Wide(net, useSigs) && count == |colour| && Good(net, Now(c, todo, next), {})
        invariant c <= bound + 1 && (c > bound ==> next == [])
        decreases |Targets(net.links) - colour.Keys|, |todo| + |next|
      {
        var n;
        c, todo, next, last, n := WideTurn(useSigs, c, todo, next, last, net);
        count := count + n;
      }
      CountOutcome(net, Now(c, todo, next), bound);
    }

    /** furthestkey: a key no other key is further away than, or the key itself if nothing signs it. */
    method FurthestKey(have: KeyId) returns (last: KeyId)
      requires CacheOk() && colour == map[] && parent == map[]
      modifies this`known, this`sigs, this`signs, this`revoked, this`colour, this`parent
      ensures CacheOk()
      ensures var net := Net(SignerLinks(db), have, {});
              && (forall v :: v in colour <==> net.Reachable(v))
              && (forall v | v in colour :: net.Distance(v, colour[v]))
      ensures if colour == map[] then last == have else last in colour && forall v | v in colour :: colour[v] <= colour[last]
    {
      ghost var net := Net(SignerLinks(db), have, {});
      var c, todo, next := 1, [have], [];
      last := have;
      net.SearchStarts();
      while todo != []
        invariant Wide(net, true) && Good(net, Now(c, todo, next), {})
        invariant if colour == map[] then last == have else last in colour && forall v | v in colour :: colour[v] <= colour[last]
        decreases |Targets(net.links) - colour.Keys|, |todo| + |next|
      {
        var n;
        c, todo, next, last, n := WideTurn(true, c, todo, next, last, net);
      }
      AllOutcome(net, Now(c, todo, next));
    }
  }

  ghost function Targets(links: Links): (r: set<KeyId>) {
    set k, i | k in links && 0 <= i < |links[k]| :: links[k][i]
  }

  lemma TargetIn(links: Links, u: KeyId, v: KeyId)
    requires u in links && v in links[u]
    ensures v in Targets(links)
  {
    var i :| 0 <= i < |links[u]| && links[u][i] == v;
  }

  /** An int converted to unsigned long. */
  function Unsigned(n: int): (u: nat)
    requires -0x8000_0000 <= n
  {
    if n < 0 then n + 0x1_0000_0000_0000_0000 else n
  }

  ghost predicate Within(net: Net, v: KeyId, bound: int) {
    exists n: nat :: 1 <= n <= bound && net.Walk(n, v)
  }

  lemma AllOutcome(net: Net, s: Search)
    requires Good(net, s, {}) && s.todo == []
    ensures forall v :: v in s.colour <==> net.Reachable(v)
    ensures forall v | v in s.colour :: net.Distance(v, s.colour[v])
  {
    forall v ensures v in s.colour <==> net.Reachable(v) {
      if v in s.colour {
        assert net.ColourAt(s.colour, s.c, v);
      }
      if net.Reachable(v) {
        var m: nat :| m >= 1 && net.Walk(m, v);
        net.SearchDone(s.colour, s.parent, s.c, v, m);
      }
    }
    forall v | v in s.colour ensures net.Distance(v, s.colour[v]) {
      assert net.ColourAt(s.colour, s.c, v);
    }
  }

  lemma CountOutcome(net: Net, s: Search, bound: int)
    requires Good(net, s, {}) && (s.todo == [] || s.c > bound)
    requires (s.c <= bound + 1 || s.colour == map[]) && (s.c > bound ==> s.next == [])
    ensures forall v :: v in s.colour <==> Within(net, v, bound)
  {
    forall v ensures v in s.colour <==> Within(net, v, bound) {
      if v in s.colour {
        assert net.ColourAt(s.colour, s.c, v);
        assert s.next == [] ==> !net.OnLayer(s.colour, s.c, v);
      }
      if Within(net, v, bound) {
        var m: nat :| 1 <= m <= bound && net.Walk(m, v);
        if s.c <= bound {
          net.SearchDone(s.colour, s.parent, s.c, v, m);
        }
      }
    }
  }

  /** No key is given more than the colour of the layer being built. */
  lemma LookBound(net: Net, s: Search)
    requires Active(net, s) && s.todo != []
    ensures var m := LookAtAll(net, s, s.todo[0], net.Links(s.todo[0]), {});
            forall v | v in m.colour :: m.colour[v] <= s.c
  {
    LookAllKeeps(net, s, s.todo[0], net.Links(s.todo[0]), {});
    var m := LookAtAll(net, s, s.todo[0], net.Links(s.todo[0]), {});
    forall v | v in m.colour ensures m.colour[v] <= s.c {
      assert net.ColourAt(m.colour, s.c, v);
    }
  }

  /** Looking at a list goes on with its next key, or is over. */
  lemma LookOn(net: Net, s: Search, u: KeyId, list: seq<KeyId>, i: nat, have: KeyId)
    requires i < |list| && have !in s.colour
    ensures LookAtAll(net, s, u, list[i..], {have}) == LookAtAll(net, LookAt(net, s, u, list[i]), u, list[i + 1..], {have})
  {
    assert {have} * s.colour.Keys == {};
    assert list[i..][0] == list[i] && list[i..][1..] == list[i + 1..];
  }

  lemma LookOver(net: Net, s: Search, u: KeyId, rest: seq<KeyId>, have: KeyId)
    requires rest == [] || have in s.colour
    ensures LookAtAll(net, s, u, rest, {have}) == s
  {
    assert rest == [] || have in {have} * s.colour.Keys;
  }

  /** What a turn keeps while the goal is not met, and that it gets on. */
  lemma SearchKeeps(net: Net, s: Search, have: KeyId)
    requires Good(net, s, {have}) && have !in s.colour && s.todo != []
    ensures s.todo[0] == net.root || s.todo[0] in s.colour
    ensures var r := Turn(net, s, {have});
            && Good(net, r, {have}) && s.colour.Keys <= r.colour.Keys
            && (r.colour.Keys == s.colour.Keys ==> |r.todo| + |r.next| < |s.todo| + |s.next|)
  {
    assert {have} * s.colour.Keys == {};
    TurnKeeps(net, s, {have});
    FrontKey(net, s);
  }

  /** What a turn without a goal keeps, and that it gets on. */
  lemma WideKeeps(net: Net, s: Search, all: set<KeyId>)
    requires Good(net, s, {}) && s.todo != []
    ensures var m, r := LookAtAll(net, s, s.todo[0], net.Links(s.todo[0]), {}), Turn(net, s, {});
            && r == MoveOn(m) && Good(net, r, {}) && (forall v | v in m.colour :: m.colour[v] <= s.c)
            && (m.colour.Keys <= all ==>
                  && |all - m.colour.Keys| <= |all - s.colour.Keys|
                  && (|all - m.colour.Keys| == |all - s.colour.Keys| ==> |r.todo| + |r.next| < |s.todo| + |s.next|))
  {
    TurnKeeps(net, s, {});
    LookBound(net, s);
    var m := LookAtAll(net, s, s.todo[0], net.Links(s.todo[0]), {});
    if m.colour.Keys <= all {
      FewerLeft(all, s.colour.Keys, m.colour.Keys);
    }
  }

  /** A chain back to the root that is as short as any. */
  ghost predicate ShortestTrail(net: Net, have: KeyId, path: seq<KeyId>) {
    net.Trail(path, have) && net.Distance(have, |path| - 1)
  }

  /** Path i was found in net i, and later nets bar what earlier paths used. */
  ghost predicate RoundAt(db: Store, have: KeyId, want: KeyId, nets: seq<Net>, paths: seq<seq<KeyId>>, i: nat)
    requires i < |nets|
  {
    && nets[i].links == SignerLinks(db) && nets[i].root == want
    && (i < |paths| ==> ShortestTrail(nets[i], have, paths[i]))
  }

  ghost predicate Barring(nets: seq<Net>, paths: seq<seq<KeyId>>, i: nat, j: nat)
    requires i < j < |nets| && i < |paths|
  {
    nets[i].barred + Inner(paths[i]) <= nets[j].barred
  }

  /** From one round to the next exactly the inside of the path is barred, and maybe keys found revoked. */
  ghost predicate Follows(db: Store, nets: seq<Net>, paths: seq<seq<KeyId>>, i: nat)
    requires i + 1 < |nets| && i < |paths|
  {
    nets[i + 1].barred <= nets[i].barred + Inner(paths[i]) + RevokedKeys(db)
  }

  ghost predicate Report(db: Store, have: KeyId, want: KeyId, nets: seq<Net>, paths: seq<seq<KeyId>>) {
    && |paths| <= |nets| <= |paths| + 1
    && (forall i | 0 <= i < |nets| :: RoundAt(db, have, want, nets, paths, i))
    && (forall i, j | 0 <= i < j < |nets| :: Barring(nets, paths, i, j))
    && (forall i | 0 <= i < |nets| - 1 :: Follows(db, nets, paths, i))
  }

  /** What is barred after the rounds so far: what every path used, and not much more. */
  ghost predicate Pending(db: Store, nets: seq<Net>, paths: seq<seq<KeyId>>, barred: set<KeyId>) {
    && |nets| == |paths|
    && (forall i | 0 <= i < |nets| :: nets[i].barred + Inner(paths[i]) <= barred)
    && (nets != [] ==> var l := |nets| - 1; barred <= nets[l].barred + Inner(paths[l]) + RevokedKeys(db))
  }

  lemma ReportLast(db: Store, have: KeyId, want: KeyId, nets: seq<Net>, paths: seq<seq<KeyId>>, net: Net)
    requires Report(db, have, want, nets, paths) && Pending(db, nets, paths, net.barred)
    requires net.links == SignerLinks(db) && net.root == want
    ensures Report(db, have, want, nets + [net], paths)
  {
    var all := nets + [net];
    forall i | 0 <= i < |all| ensures RoundAt(db, have, want, all, paths, i) {
      assert i < |nets| ==> RoundAt(db, have, want, nets, paths, i);
    }
    forall i, j | 0 <= i < j < |all| ensures Barring(all, paths, i, j) {
      assert j < |nets| ==> Barring(nets, paths, i, j);
    }
    forall i | 0 <= i < |all| - 1 ensures Follows(db, all, paths, i) {
      assert i < |nets| - 1 ==> Follows(db, nets, paths, i);
    }
  }

  lemma ReportNext(db: Store, have: KeyId, want: KeyId, nets: seq<Net>, paths: seq<seq<KeyId>>,
                   net: Net, path: seq<KeyId>, barred: set<KeyId>)
    requires Report(db, have, want, nets, paths) && Pending(db, nets, paths, net.barred)
    requires net.links == SignerLinks(db) && net.root == want
    requires ShortestTrail(net, have, path)
    requires net.barred + Inner(path) <= barred <= net.barred + Inner(path) + RevokedKeys(db)
    ensures Report(db, have, want, nets + [net], paths + [path]) && Pending(db, nets + [net], paths + [path], barred)
  {
    ReportLast(db, have, want, nets, paths, net);
    var all, more := nets + [net], paths + [path];
    forall i | 0 <= i < |all| ensures RoundAt(db, have, want, all, more, i) {
      assert RoundAt(db, have, want, all, paths, i);
    }
    forall i, j | 0 <= i < j < |all| ensures Barring(all, more, i, j) {
      assert Barring(all, paths, i, j);
    }
    forall i | 0 <= i < |all| - 1 ensures Follows(db, all, more, i) {
      assert Follows(db, all, paths, i);
    }
  }

  /** No more paths: the last one was a single signature, or the last search failed. */
  ghost predicate Exhausted(have: KeyId, nets: seq<Net>, paths: seq<seq<KeyId>>) {
    || (paths != [] && |paths[|paths| - 1]| == 2)
    || (|nets| == |paths| + 1 && !nets[|paths|].Reachable(have))
  }

  /** Only the last path can be a single signature. */
  ghost predicate LongFirst(paths: seq<seq<KeyId>>) {
    forall i | 0 <= i < |paths| - 1 :: |paths[i]| > 2
  }

  /** What holds after any number of rounds, with `barred` not to be stepped on in the next one. */
  ghost predicate AfterRounds(db: Store, have: KeyId, want: KeyId, nets: seq<Net>, paths: seq<seq<KeyId>>,
                         barred: set<KeyId>, ended: bool) {
    && (have == want ==> forall i | 0 <= i < |paths| :: |paths[i]| <= 1)
    && (have != want && have != 0 ==>
          && Report(db, have, want, nets, paths) && LongFirst(paths)
          && if ended then Exhausted(have, nets, paths)
             else Pending(db, nets, paths, barred) && (paths != [] ==> |paths[|paths| - 1]| > 2))
  }

  lemma RoundDone(db: Store, have: KeyId, want: KeyId, nets: seq<Net>, paths: seq<seq<KeyId>>, net: Net,
                  found: bool, direct: bool, path: seq<KeyId>, barred: set<KeyId>)
    requires AfterRounds(db, have, want, nets, paths, net.barred, false)
    requires net.links == SignerLinks(db) && net.root == want && found == net.Reachable(have)
    requires found && have != want && have != 0 ==> ShortestTrail(net, have, path) && direct == (|path| == 2)
    requires !found || have == want || have == 0 ==> |path| <= 1
    requires net.barred + Inner(path) <= barred <= net.barred + Inner(path) + RevokedKeys(db)
    ensures AfterRounds(db, have, want, nets + [net], if found then paths + [path] else paths, barred, !found || direct)
  {
    if have != want && have != 0 {
      if found {
        ReportNext(db, have, want, nets, paths, net, path, barred);
      } else {
        ReportLast(db, have, want, nets, paths, net);
      }
    }
  }

  /** A key strictly inside a path may be stepped on in the net the path was found in. */
  lemma InnerAllowed(net: Net, path: seq<KeyId>, have: KeyId)
    requires net.Trail(path, have)
    ensures Inner(path) !! net.barred
  {
    forall x | x in Inner(path) ensures x !in net.barred {
      var i :| 0 < i < |path| - 1 && path[i] == x;
      assert net.BackAt(path, i + 1);
    }
  }

  /**
   The paths of one report: no two share a key other than their ends, no later one is shorter, and
   each is a shortest chain among those that avoid the insides of all earlier ones.
   */
  lemma ReportedPaths(db: Store, have: KeyId, want: KeyId, nets: seq<Net>, paths: seq<seq<KeyId>>, i: nat, j: nat)
    requires Report(db, have, want, nets, paths) && i < j < |paths|
    ensures Inner(paths[i]) !! Inner(paths[j])
    ensures |paths[i]| <= |paths[j]|
    ensures Inner(paths[i]) <= nets[j].barred && ShortestTrail(nets[j], have, paths[j])
  {
    assert RoundAt(db, have, want, nets, paths, i) && RoundAt(db, have, want, nets, paths, j);
    assert Barring(nets, paths, i, j);
    InnerAllowed(nets[j], paths[j], have);
    var n := |paths[j]| - 1;
    assert nets[j] == Net(nets[i].links, nets[i].root, nets[j].barred);
    nets[i].BarMore(nets[j].barred, n, have);
  }

  /** The reported paths are all different: but for a single signature reported alone, each has a key of its own. */
  lemma ReportedDiffer(db: Store, have: KeyId, want: KeyId, nets: seq<Net>, paths: seq<seq<KeyId>>, i: nat, j: nat)
    requires Report(db, have, want, nets, paths) && LongFirst(paths) && i < j < |paths|
    ensures paths[i] != paths[j] && |paths[i]| > 2 && |paths[j]| > 2
  {
    ReportedPaths(db, have, want, nets, paths, i, j);
    assert paths[i][1] in Inner(paths[i]);
  }

  /** Round i bars what the first one did and the insides of the paths before it; more only if revoked. */
  lemma {:induction false} RoundBars(db: Store, have: KeyId, want: KeyId, nets: seq<Net>, paths: seq<seq<KeyId>>, i: nat)
    requires Report(db, have, want, nets, paths) && i < |nets|
    ensures nets[0].barred + Insides(paths[..i]) <= nets[i].barred
    ensures nets[i].barred <= nets[0].barred + Insides(paths[..i]) + RevokedKeys(db)
  {
    if i > 0 {
      RoundBars(db, have, want, nets, paths, i - 1);
      assert Barring(nets, paths, i - 1, i) && Follows(db, nets, paths, i - 1);
      InsidesNext(paths[..i - 1], paths[i - 1]);
      assert paths[..i] == paths[..i - 1] + [paths[i - 1]];
    }
  }

  /**
   With every flag loaded before the call, a path is shortest in exactly the graph without the insides
   of earlier paths, and no revoked key lies inside it.
   */
  lemma FixedFlags(db: Store, have: KeyId, want: KeyId, nets: seq<Net>, paths: seq<seq<KeyId>>, i: nat)
    requires Report(db, have, want, nets, paths) && i < |paths| && RevokedKeys(db) <= nets[0].barred
    ensures nets[i] == Net(SignerLinks(db), want, nets[0].barred + Insides(paths[..i]))
    ensures ShortestTrail(nets[i], have, paths[i]) && Inner(paths[i]) !! RevokedKeys(db)
  {
    RoundBars(db, have, want, nets, paths, i);
    assert RoundAt(db, have, want, nets, paths, i);
    InnerAllowed(nets[i], paths[i], have);
  }

  /** The keys strictly inside the first part of a path that is n steps long. */
  ghost function FirstInner(path: seq<KeyId>, n: nat): (r: set<KeyId>) {
    set i | 0 < i < |path| && i < n :: path[i]
  }

  /** Neither end of a reported chain turns up inside it. */
  lemma TrailInner(net: Net, colour: Colours, parent: Parents, c: nat, have: KeyId)
    requires net.Sound(colour, parent, c) && have in colour && have != net.root
    ensures var path := net.TrailTo(parent, have, colour[have] + 1);
            forall i | 0 < i < |path| - 1 :: path[i] != have && path[i] != net.root
  {
    var path := net.TrailTo(parent, have, colour[have] + 1);
    forall i | 0 < i < |path| - 1 ensures path[i] != have && path[i] != net.root {
      net.TrailAt(colour, parent, c, have, i);
      net.TrailToAt(parent, have, colour[have] + 1, i);
    }
  }

  lemma InnerGrows(path: seq<KeyId>, cur: KeyId, n: nat)
    ensures FirstInner(path + [cur], n) == FirstInner(path, n) + if 0 < |path| < n then {cur} else {}
  {
    var p := path + [cur];
    forall x ensures x in FirstInner(p, n) <==> x in FirstInner(path, n) + if 0 < |path| < n then {cur} else {} {
      if x in FirstInner(p, n) {
        var i :| 0 < i < |p| && i < n && p[i] == x;
      }
      if x in FirstInner(path, n) {
        var i :| 0 < i < |path| && i < n && path[i] == x;
        assert p[i] == x;
      }
      if 0 < |path| < n {
        assert p[|path|] == cur;
      }
    }
  }

  /** Entry k of a walk is a known key whose parent is the next entry; the last one has none. */
  ghost predicate LinkAt(parent: Parents, known: set<KeyId>, trail: seq<KeyId>, k: nat)
    requires k < |trail|
  {
    && trail[k] in known && trail[k] != 0
    && (k + 1 < |trail| ==> trail[k] in parent && parent[trail[k]] == trail[k + 1])
    && (k + 1 == |trail| ==> trail[k] !in parent)
  }

  /** One step of the walk along the parents, with the entry for the wanted key cleared. */
  lemma FollowStep(db: Store, net: Net, colour: Colours, parent: Parents, c: nat, have: KeyId, k: nat)
    requires net.links == SignerLinks(db) && net.Sound(colour, parent, c)
    requires have in colour && have != net.root && k <= colour[have]
    ensures var cur, left := net.TrailKey(parent, have, k), parent - {net.root};
            && (cur != have && cur != net.root <==> 0 < k < colour[have])
            && (k == colour[have] ==> cur !in left)
            && (k < colour[have] ==>
                  var u := net.TrailKey(parent, have, k + 1);
                  cur in left && left[cur] == u && u != 0 && (u in colour || u == net.root))
  {
    net.TrailAt(colour, parent, c, have, k);
    if k < colour[have] {
      net.TrailAt(colour, parent, c, have, k + 1);
      LinkedFrom(db, net, net.TrailKey(parent, have, k + 1), net.TrailKey(parent, have, k));
    }
  }

  /** A key with signers is neither zero nor unknown to the store. */
  lemma LinkedFrom(db: Store, net: Net, u: KeyId, v: KeyId)
    requires net.links == SignerLinks(db) && net.Step(u, v)
    ensures u != 0 && u in db
  {
  }

  /** Whatever is up for expansion is the root or has its colour. */
  lemma FrontKey(net: Net, s: Search)
    requires Active(net, s) && s.todo != []
    ensures s.todo[0] == net.root || s.todo[0] in s.colour
  {
    assert net.OnLayer(s.colour, s.c - 1, s.todo[0]);
  }

  lemma SearchOutcome(net: Net, s: Search, have: KeyId)
    requires Good(net, s, {have}) && (s.todo == [] || have in s.colour)
    ensures have in s.colour <==> net.Reachable(have)
  {
    if have in s.colour {
      assert net.ColourAt(s.colour, s.c, have);
    }
    if net.Reachable(have) {
      var m: nat :| m >= 1 && net.Walk(m, have);
      if have !in s.colour {
        assert {have} * s.colour.Keys == {};
        net.SearchDone(s.colour, s.parent, s.c, have, m);
      }
    }
  }

  lemma FewerLeft(all: set<KeyId>, before: set<KeyId>, after: set<KeyId>)
    requires before <= after <= all
    ensures |all - after| <= |all - before| && (before != after ==> |all - after| < |all - before|)
  {
    SubsetSize(all - after, all - before);
    if before != after {
      assert after - before != {};
      var x :| x in after - before;
      SubsetSize(all - after, all - before - {x});
    }
  }
}
