/**
 The db4 backend (keydb/keydb_db4.c): keys are stored as octets under their fingerprint, and five
 more tables lead to the fingerprint from words, short and long key ids, subkeys and SKS hashes.
 Whatever keys are stored and deleted, the tables say exactly what can be derived from the keys.
 */
module Db4Index {
  import opened Packets
  import opened Merge
  import opened KeyGrammar

  datatype Fetched = Missing | Found(key: RawKey)

  /** How keys are written and read, and what is derived from a key. */
  datatype Schema = Schema(
    fp: RawKey -> Fingerprint,
    words: RawKey -> seq<string>,
    subkeys: RawKey -> seq<Fingerprint>,
    hash: RawKey -> seq<byte>,
    encode: RawKey -> seq<byte>,
    decode: seq<byte> -> Fetched,
    good: RawKey -> bool)
  {
    function Ids64(k: RawKey): (r: seq<nat>) { [KeyId(fp(k))] + IdsOf(subkeys(k)) }

    function Ids32(k: RawKey): (r: seq<nat>) { Short(Ids64(k)) }
  }

  function IdsOf(fps: seq<Fingerprint>): (r: seq<nat>) {
    if fps == [] then [] else [KeyId(fps[0])] + IdsOf(fps[1..])
  }

  function Short(ids: seq<nat>): (r: seq<nat>) {
    if ids == [] then [] else [ids[0] % 0x1_0000_0000] + Short(ids[1..])
  }

  /** Fetching undoes storing. */
  ghost predicate Sound(s: Schema) {
    forall k {:trigger s.encode(k)} | s.good(k) :: s.decode(s.encode(k)) == Found(k)
  }

  /** A table with duplicates: put adds an entry, a cursor deletes one. */
  type Index<K(==)> = multiset<(K, Fingerprint)>

  datatype Tables = Tables(
    keys: map<Fingerprint, seq<byte>>,
    words: Index<string>,
    id32: Index<nat>,
    id64: Index<nat>,
    subkeys: map<Fingerprint, Fingerprint>,
    hashes: map<seq<byte>, Fingerprint>)

  function PutAll<K(==)>(t: Index<K>, xs: seq<K>, fp: Fingerprint): (r: Index<K>)
    decreases |xs|
  {
    if xs == [] then t else PutAll(t + multiset{(xs[0], fp)}, xs[1..], fp)
  }

  function DeleteAll<K(==)>(t: Index<K>, xs: seq<K>, fp: Fingerprint): (r: Index<K>)
    decreases |xs|
  {
    if xs == [] then t else DeleteAll(t - multiset{(xs[0], fp)}, xs[1..], fp)
  }

  function SetOf(fps: seq<Fingerprint>): (r: set<Fingerprint>) { set x | x in fps }

  lemma SetOfStep(fps: seq<Fingerprint>, i: nat)
    requires i < |fps|
    ensures SetOf(fps[..i + 1]) == SetOf(fps[..i]) + {fps[i]}
  {
    assert fps[..i + 1] == fps[..i] + [fps[i]];
  }

  function PutSubkeys(t: map<Fingerprint, Fingerprint>, subs: seq<Fingerprint>, fp: Fingerprint):
    (r: map<Fingerprint, Fingerprint>)
    decreases |subs|
  {
    if subs == [] then t else PutSubkeys(t[subs[0] := fp], subs[1..], fp)
  }

  /** db4_fetch_key_int: by fingerprint, then through the subkey table. */
  function Fetch(s: Schema, t: Tables, fp: Fingerprint, dosubkey: bool): (r: Fetched) {
    if fp in t.keys then s.decode(t.keys[fp])
    else if dosubkey && fp in t.subkeys && t.subkeys[fp] in t.keys then s.decode(t.keys[t.subkeys[fp]])
    else Missing
  }

  /** db4_delete_key, once the key has been fetched. */
  function Remove(s: Schema, t: Tables, k: RawKey, fp: Fingerprint): (r: Tables) {
    Tables(
      t.keys - {fp},
      DeleteAll(t.words, s.words(k), fp),
      DeleteAll(t.id32, s.Ids32(k), fp),
      DeleteAll(t.id64, s.Ids64(k), fp),
      t.subkeys - SetOf(s.subkeys(k)),
      if s.hash(k) in t.hashes && t.hashes[s.hash(k)] == fp then t.hashes - {s.hash(k)} else t.hashes)
  }

  function Delete(s: Schema, t: Tables, fp: Fingerprint): (r: Tables) {
    match Fetch(s, t, fp, true)
    case Missing => t
    case Found(k) => Remove(s, t, k, fp)
  }

  /** What db4_store_key puts into the tables. */
  function Put(s: Schema, t: Tables, k: RawKey): (r: Tables) {
    var fp := s.fp(k);
    Tables(
      t.keys[fp := s.encode(k)],
      PutAll(t.words, s.words(k), fp),
      PutAll(t.id32, s.Ids32(k), fp),
      PutAll(t.id64, s.Ids64(k), fp),
      PutSubkeys(t.subkeys, s.subkeys(k), fp),
      t.hashes[s.hash(k) := fp])
  }

  function Store(s: Schema, t: Tables, k: RawKey, update: bool): (r: Tables) {
    Put(s, if update then Delete(s, t, s.fp(k)) else t, k)
  }

  // ------------------------------------------------------------------ agreement

  type Keys = map<Fingerprint, RawKey>

  /** An index holds, for each stored key, what is derived from it, as often as it is derived. */
  ghost predicate IndexAgrees<K(!new)>(t: Index<K>, of: RawKey -> seq<K>, db: Keys) {
    forall x: K, fp: Fingerprint {:trigger t[(x, fp)]} :: t[(x, fp)] == Due(of, db, x, fp)
  }

  function Due<K(==)>(of: RawKey -> seq<K>, db: Keys, x: K, fp: Fingerprint): (n: nat) {
    if fp in db then multiset(of(db[fp]))[x] else 0
  }

  ghost predicate KeysAgree(s: Schema, t: map<Fingerprint, seq<byte>>, db: Keys) {
    && t.Keys == db.Keys
    && forall fp | fp in db :: s.fp(db[fp]) == fp && s.good(db[fp]) && t[fp] == s.encode(db[fp])
  }

  ghost predicate SubkeysAgree(s: Schema, t: map<Fingerprint, Fingerprint>, db: Keys) {
    && (forall fp, x | fp in db && x in s.subkeys(db[fp]) :: x in t && t[x] == fp)
    && (forall x | x in t :: t[x] in db && x in s.subkeys(db[t[x]]))
  }

  ghost predicate HashesAgree(s: Schema, t: map<seq<byte>, Fingerprint>, db: Keys) {
    && (forall fp | fp in db :: s.hash(db[fp]) in t && t[s.hash(db[fp])] == fp)
    && (forall h | h in t :: t[h] in db && s.hash(db[t[h]]) == h)
  }

  ghost predicate Agree(s: Schema, t: Tables, db: Keys) {
    && KeysAgree(s, t.keys, db)
    && IndexAgrees(t.words, s.words, db)
    && IndexAgrees(t.id32, k => s.Ids32(k), db) && IndexAgrees(t.id64, k => s.Ids64(k), db)
    && SubkeysAgree(s, t.subkeys, db) && HashesAgree(s, t.hashes, db)
  }

  /** No two stored keys have a subkey or a hash in common. */
  ghost predicate NoClash(s: Schema, db: Keys) {
    forall fp, gp | fp in db && gp in db && fp != gp ::
      s.hash(db[fp]) != s.hash(db[gp]) && forall x | x in s.subkeys(db[fp]) :: x !in s.subkeys(db[gp])
  }

  // ---------------------------------------------------------- the index tables

  lemma {:induction false} PutAllCounts<K(!new)>(t: Index<K>, xs: seq<K>, fp: Fingerprint, x: K, gp: Fingerprint)
    ensures PutAll(t, xs, fp)[(x, gp)] == t[(x, gp)] + if gp == fp then multiset(xs)[x] else 0
    decreases |xs|
  {
    if xs != [] {
      PutAllCounts(t + multiset{(xs[0], fp)}, xs[1..], fp, x, gp);
      assert xs == [xs[0]] + xs[1..];
    }
  }

  lemma {:induction false} DeleteAllCounts<K(!new)>(t: Index<K>, xs: seq<K>, fp: Fingerprint, x: K, gp: Fingerprint)
    requires t[(x, fp)] >= multiset(xs)[x]
    ensures DeleteAll(t, xs, fp)[(x, gp)] == t[(x, gp)] - if gp == fp then multiset(xs)[x] else 0
    decreases |xs|
  {
    if xs != [] {
      assert xs == [xs[0]] + xs[1..];
      DeleteAllCounts(t - multiset{(xs[0], fp)}, xs[1..], fp, x, gp);
    }
  }

  lemma PutIndex<K(!new)>(t: Index<K>, of: RawKey -> seq<K>, db: Keys, k: RawKey, fp: Fingerprint)
    requires IndexAgrees(t, of, db) && fp !in db
    ensures IndexAgrees(PutAll(t, of(k), fp), of, db[fp := k])
  {
    forall x: K, gp: Fingerprint ensures PutAll(t, of(k), fp)[(x, gp)] == Due(of, db[fp := k], x, gp) {
      PutAllCounts(t, of(k), fp, x, gp);
    }
  }

  lemma DeleteIndex<K(!new)>(t: Index<K>, of: RawKey -> seq<K>, db: Keys, fp: Fingerprint)
    requires IndexAgrees(t, of, db) && fp in db
    ensures IndexAgrees(DeleteAll(t, of(db[fp]), fp), of, db - {fp})
  {
    forall x: K, gp: Fingerprint ensures DeleteAll(t, of(db[fp]), fp)[(x, gp)] == Due(of, db - {fp}, x, gp) {
      assert t[(x, fp)] == Due(of, db, x, fp);
      DeleteAllCounts(t, of(db[fp]), fp, x, gp);
    }
  }

  // -------------------------------------------------------- subkeys and hashes

  lemma {:induction false} PutSubkeysAt(t: map<Fingerprint, Fingerprint>, subs: seq<Fingerprint>, fp: Fingerprint, x: Fingerprint)
    ensures x in subs ==> x in PutSubkeys(t, subs, fp) && PutSubkeys(t, subs, fp)[x] == fp
    ensures x !in subs ==> (x in PutSubkeys(t, subs, fp) <==> x in t)
    ensures x !in subs && x in t ==> PutSubkeys(t, subs, fp)[x] == t[x]
    decreases |subs|
  {
    if subs != [] {
      PutSubkeysAt(t[subs[0] := fp], subs[1..], fp, x);
      PutSubkeysKeep(t[subs[0] := fp], subs[1..], fp, subs[0]);
      assert subs == [subs[0]] + subs[1..];
    }
  }

  lemma {:induction false} PutSubkeysKeep(t: map<Fingerprint, Fingerprint>, subs: seq<Fingerprint>, fp: Fingerprint, x: Fingerprint)
    requires x in t && t[x] == fp
    ensures x in PutSubkeys(t, subs, fp) && PutSubkeys(t, subs, fp)[x] == fp
    decreases |subs|
  {
    if subs != [] {
      PutSubkeysKeep(t[subs[0] := fp], subs[1..], fp, x);
    }
  }

  lemma PutSubkeysAgrees(s: Schema, t: map<Fingerprint, Fingerprint>, db: Keys, k: RawKey, fp: Fingerprint)
    requires SubkeysAgree(s, t, db) && fp !in db && NoClash(s, db[fp := k])
    ensures SubkeysAgree(s, PutSubkeys(t, s.subkeys(k), fp), db[fp := k])
  {
    var db' := db[fp := k];
    var r := PutSubkeys(t, s.subkeys(k), fp);
    forall gp, x | gp in db' && x in s.subkeys(db'[gp]) ensures x in r && r[x] == gp {
      PutSubkeysAt(t, s.subkeys(k), fp, x);
      if gp != fp {
        assert x !in s.subkeys(db'[fp]);
      }
    }
    forall x | x in r ensures r[x] in db' && x in s.subkeys(db'[r[x]]) {
      PutSubkeysAt(t, s.subkeys(k), fp, x);
    }
  }

  lemma DeleteSubkeysAgrees(s: Schema, t: map<Fingerprint, Fingerprint>, db: Keys, fp: Fingerprint)
    requires SubkeysAgree(s, t, db) && fp in db && NoClash(s, db)
    ensures SubkeysAgree(s, t - SetOf(s.subkeys(db[fp])), db - {fp})
  {
    var r := t - SetOf(s.subkeys(db[fp]));
    forall gp, x | gp in db - {fp} && x in s.subkeys(db[gp]) ensures x in r && r[x] == gp {
      assert x !in s.subkeys(db[fp]);
    }
  }

  lemma DeleteHashAgrees(s: Schema, t: map<seq<byte>, Fingerprint>, db: Keys, fp: Fingerprint)
    requires HashesAgree(s, t, db) && fp in db && NoClash(s, db)
    ensures t[s.hash(db[fp])] == fp && HashesAgree(s, t - {s.hash(db[fp])}, db - {fp})
  {
    forall gp | gp in db - {fp} ensures s.hash(db[gp]) in t - {s.hash(db[fp])} {
      assert s.hash(db[gp]) != s.hash(db[fp]);
    }
  }

  lemma PutHashAgrees(s: Schema, t: map<seq<byte>, Fingerprint>, db: Keys, k: RawKey, fp: Fingerprint)
    requires HashesAgree(s, t, db) && fp !in db && NoClash(s, db[fp := k])
    ensures HashesAgree(s, t[s.hash(k) := fp], db[fp := k])
  {
    var db' := db[fp := k];
    forall gp | gp in db' && gp != fp ensures s.hash(db'[gp]) != s.hash(k) {
      assert s.hash(db'[gp]) != s.hash(db'[fp]);
    }
  }

  // ---------------------------------------------------------------- operations

  lemma PutAgrees(s: Schema, t: Tables, db: Keys, k: RawKey)
    requires Agree(s, t, db) && s.good(k) && s.fp(k) !in db && NoClash(s, db[s.fp(k) := k])
    ensures Agree(s, Put(s, t, k), db[s.fp(k) := k])
  {
    var fp := s.fp(k);
    PutIndex(t.words, s.words, db, k, fp);
    PutIndex(t.id32, x => s.Ids32(x), db, k, fp);
    PutIndex(t.id64, x => s.Ids64(x), db, k, fp);
    PutSubkeysAgrees(s, t.subkeys, db, k, fp);
    PutHashAgrees(s, t.hashes, db, k, fp);
  }

  lemma RemoveAgrees(s: Schema, t: Tables, db: Keys, fp: Fingerprint)
    requires Agree(s, t, db) && fp in db && NoClash(s, db)
    ensures Agree(s, Remove(s, t, db[fp], fp), db - {fp})
  {
    DeleteIndex(t.words, s.words, db, fp);
    DeleteIndex(t.id32, x => s.Ids32(x), db, fp);
    DeleteIndex(t.id64, x => s.Ids64(x), db, fp);
    DeleteSubkeysAgrees(s, t.subkeys, db, fp);
    DeleteHashAgrees(s, t.hashes, db, fp);
  }

  lemma NoClashLess(s: Schema, db: Keys, fp: Fingerprint)
    requires NoClash(s, db)
    ensures NoClash(s, db - {fp})
  {
  }

  /** Deleting takes the key and everything derived from it out of every table. */
  lemma DeleteAgrees(s: Schema, t: Tables, db: Keys, fp: Fingerprint)
    requires Sound(s) && Agree(s, t, db) && NoClash(s, db) && (fp in db || fp !in t.subkeys)
    ensures Agree(s, Delete(s, t, fp), db - {fp}) && NoClash(s, db - {fp})
  {
    NoClashLess(s, db, fp);
    if fp in db {
      RemoveAgrees(s, t, db, fp);
    } else {
      assert db - {fp} == db;
    }
  }

  /**
   Deletion follows a subkey's fingerprint to its owner, takes the owner's subkeys out of their table and
   leaves the owner stored. So the tables agree afterwards exactly if the fingerprint is that of a stored
   key or of no subkey.
   */
  lemma DeleteAgreesIff(s: Schema, t: Tables, db: Keys, fp: Fingerprint)
    requires Sound(s) && Agree(s, t, db) && NoClash(s, db)
    ensures Agree(s, Delete(s, t, fp), db - {fp}) <==> fp in db || forall gp | gp in db :: fp !in s.subkeys(db[gp])
  {
    SubkeyListed(s, t.subkeys, db, fp);
    if fp in db || fp !in t.subkeys {
      DeleteAgrees(s, t, db, fp);
    } else {
      FetchFinds(s, t, db, fp);
      SubkeyLost(s, t, db, fp);
    }
  }

  lemma SubkeyListed(s: Schema, t: map<Fingerprint, Fingerprint>, db: Keys, fp: Fingerprint)
    requires SubkeysAgree(s, t, db)
    ensures fp in t <==> exists gp | gp in db :: fp in s.subkeys(db[gp])
  {
  }

  lemma SubkeyLost(s: Schema, t: Tables, db: Keys, fp: Fingerprint)
    requires fp !in db && SubkeysAgree(s, t.subkeys, db) && fp in t.subkeys
    requires Fetch(s, t, fp, true) == Found(db[t.subkeys[fp]])
    ensures !SubkeysAgree(s, Delete(s, t, fp).subkeys, db - {fp})
  {
    var gp := t.subkeys[fp];
    assert fp in s.subkeys(db[gp]) && fp !in Delete(s, t, fp).subkeys && gp in db - {fp};
  }

  /** Such a deletion in a store of one key: the key stays, and its subkey no longer leads to it. */
  lemma DeleteBySubkey(s: Schema, k: RawKey, x: Fingerprint)
    requires Sound(s) && s.good(k) && s.subkeys(k) == [x] && x != s.fp(k)
    ensures var t := Store(s, EMPTY, k, false);
            && Fetch(s, t, x, true) == Found(k)
            && Fetch(s, Delete(s, t, x), s.fp(k), true) == Found(k)
            && Fetch(s, Delete(s, t, x), x, true) == Missing
  {
    var t, db := Store(s, EMPTY, k, false), map[s.fp(k) := k];
    EmptyAgrees(s);
    assert map[][s.fp(k) := k] == db;
    PutAgrees(s, EMPTY, map[], k);
    FetchFinds(s, t, db, x);
    assert db[s.fp(k)] == k;
  }

  /** Storing replaces the key and everything derived from it, or adds it. */
  lemma StoreAgrees(s: Schema, t: Tables, db: Keys, k: RawKey)
    requires Sound(s) && Agree(s, t, db) && NoClash(s, db) && s.good(k) && NoClash(s, db[s.fp(k) := k])
    ensures Agree(s, Store(s, t, k, s.fp(k) in db), db[s.fp(k) := k])
  {
    var fp := s.fp(k);
    if fp in db {
      DeleteAgrees(s, t, db, fp);
      ReplaceAgrees(s, Delete(s, t, fp), db, k);
    } else {
      PutAgrees(s, t, db, k);
    }
  }

  lemma ReplaceAgrees(s: Schema, t: Tables, db: Keys, k: RawKey)
    requires Agree(s, t, db - {s.fp(k)}) && s.good(k) && NoClash(s, db[s.fp(k) := k])
    ensures Agree(s, Put(s, t, k), db[s.fp(k) := k])
  {
    var rest := db - {s.fp(k)};
    assert rest[s.fp(k) := k] == db[s.fp(k) := k];
    PutAgrees(s, t, rest, k);
  }

  // ---------------------------------------------------------------------- runs

  datatype Op = StoreOp(key: RawKey) | DeleteOp(fp: Fingerprint)

  function Apply(s: Schema, db: Keys, op: Op): (r: Keys) {
    match op
    case StoreOp(k) => db[s.fp(k) := k]
    case DeleteOp(fp) => db - {fp}
  }

  function ApplyTables(s: Schema, t: Tables, db: Keys, op: Op): (r: Tables) {
    match op
    case StoreOp(k) => Store(s, t, k, s.fp(k) in db)
    case DeleteOp(fp) => Delete(s, t, fp)
  }

  /** A step a caller may take: no clash comes of it, and deletion is by the fingerprint of the key itself. */
  ghost predicate Allowed(s: Schema, t: Tables, db: Keys, op: Op) {
    match op
    case StoreOp(k) => s.good(k) && NoClash(s, db[s.fp(k) := k])
    case DeleteOp(fp) => fp in db || fp !in t.subkeys
  }

  datatype World = World(tables: Tables, db: Keys)

  function Run(s: Schema, w: World, ops: seq<Op>): (r: World)
    decreases |ops|
  {
    if ops == [] then w
    else Run(s, World(ApplyTables(s, w.tables, w.db, ops[0]), Apply(s, w.db, ops[0])), ops[1..])
  }

  ghost predicate AllAllowed(s: Schema, w: World, ops: seq<Op>)
    decreases |ops|
  {
    ops == [] ||
    (Allowed(s, w.tables, w.db, ops[0])
     && AllAllowed(s, World(ApplyTables(s, w.tables, w.db, ops[0]), Apply(s, w.db, ops[0])), ops[1..]))
  }

  const EMPTY := Tables(map[], multiset{}, multiset{}, multiset{}, map[], map[])

  /** After every run of stores and deletes the tables agree with the keys that are there. */
  lemma {:induction false} RunAgrees(s: Schema, w: World, ops: seq<Op>)
    requires Sound(s) && Agree(s, w.tables, w.db) && NoClash(s, w.db) && AllAllowed(s, w, ops)
    ensures var r := Run(s, w, ops); Agree(s, r.tables, r.db) && NoClash(s, r.db)
    decreases |ops|
  {
    if ops != [] {
      match ops[0] {
        case StoreOp(k) => StoreAgrees(s, w.tables, w.db, k);
        case DeleteOp(fp) => DeleteAgrees(s, w.tables, w.db, fp);
      }
      RunAgrees(s, World(ApplyTables(s, w.tables, w.db, ops[0]), Apply(s, w.db, ops[0])), ops[1..]);
    }
  }

  lemma EmptyAgrees(s: Schema)
    ensures Agree(s, EMPTY, map[]) && NoClash(s, map[])
  {
  }

  // ------------------------------------------------------------------- lookups

  /** By fingerprint, a stored key is found; by a subkey's, the key it belongs to; by any other, nothing. */
  lemma FetchFinds(s: Schema, t: Tables, db: Keys, fp: Fingerprint)
    requires Sound(s) && Agree(s, t, db)
    ensures fp in db ==> Fetch(s, t, fp, true) == Found(db[fp])
    ensures fp !in db ==> forall gp | gp in db && fp in s.subkeys(db[gp]) :: Fetch(s, t, fp, true) == Found(db[gp])
    ensures fp !in db && (forall gp | gp in db :: fp !in s.subkeys(db[gp])) ==> Fetch(s, t, fp, true) == Missing
    ensures Fetch(s, t, fp, false) == if fp in db then Found(db[fp]) else Missing
  {
  }

  // ------------------------------------------------------------------------ ids

  /** Eight octets as a number, the first one highest. */
  function Eight(o: seq<byte>): (n: nat)
    requires |o| == 8
  {
    o[0] as int * 0x100_0000_0000_0000 + o[1] as int * 0x1_0000_0000_0000 + o[2] as int * 0x100_0000_0000
    + o[3] as int * 0x1_0000_0000 + Four(o[4..])
  }

  function Four(o: seq<byte>): (n: nat)
    requires |o| == 4
    ensures n < 0x1_0000_0000
  {
    o[0] as int * 0x100_0000 + o[1] as int * 0x1_0000 + o[2] as int * 0x100 + o[3] as int
  }

  /** The octets that are the id: the last eight of a version 4 fingerprint, the first eight of a version 5 one. */
  function IdOctets(fp: Fingerprint): (o: seq<byte>)
    requires |fp| == 20 || |fp| == 32
    ensures |o| == 8
  {
    if |fp| == 20 then fp[12..20] else fp[0..8]
  }

  /** The id as those octets spell it; no other length of fingerprint has one. */
  function LongId(fp: Fingerprint): (id: nat) {
    if |fp| == 20 || |fp| == 32 then Eight(IdOctets(fp)) else 0xFFFF_FFFF_FFFF_FFFF
  }

  /** The last four of them. */
  function ShortId(fp: Fingerprint): (id: nat) {
    if |fp| == 20 || |fp| == 32 then Four(IdOctets(fp)[4..]) else 0xFFFF_FFFF
  }

  lemma {:induction false} BigEndianStep(s: seq<byte>, n: nat)
    requires n < |s|
    ensures BigEndian(s[..n + 1]) == BigEndian(s[..n]) * 256 + s[n]
  {
    assert s[..n + 1][..n] == s[..n];
  }

  lemma {:induction false} BigEndianFour(o: seq<byte>)
    requires |o| == 8
    ensures BigEndian(o[..4]) == Four(o[..4])
  {
    BigEndianStep(o, 0);
    BigEndianStep(o, 1);
    BigEndianStep(o, 2);
    BigEndianStep(o, 3);
    assert o[..0] == [];
  }

  lemma {:induction false} BigEndianEight(o: seq<byte>)
    requires |o| == 8
    ensures BigEndian(o) == Eight(o)
  {
    BigEndianFour(o);
    BigEndianStep(o, 4);
    BigEndianStep(o, 5);
    BigEndianStep(o, 6);
    BigEndianStep(o, 7);
    assert o[..8] == o;
  }

  /** fingerprint2keyid, said of the octets: the 64-bit id, and the low 32 bits of it. */
  lemma KeyIdIs(fp: Fingerprint)
    ensures KeyId(fp) < 0x1_0000_0000_0000_0000
    ensures KeyId(fp) == LongId(fp) && KeyId(fp) % 0x1_0000_0000 == ShortId(fp)
  {
    if |fp| == 20 || |fp| == 32 {
      var o := IdOctets(fp);
      BigEndianEight(o);
      assert |fp| == 20 ==> fp[12..] == o;
      LowHalf(o[0], o[1], o[2], o[3], Four(o[4..]));
    }
  }

  lemma {:induction false} LowHalf(a: nat, b: nat, c: nat, d: nat, low: nat)
    requires a < 256 && b < 256 && c < 256 && d < 256 && low < 0x1_0000_0000
    ensures var n := a * 0x100_0000_0000_0000 + b * 0x1_0000_0000_0000 + c * 0x100_0000_0000 + d * 0x1_0000_0000 + low;
            n < 0x1_0000_0000_0000_0000 && n % 0x1_0000_0000 == low
  {
    var high := a * 0x100_0000 + b * 0x1_0000 + c * 0x100 + d;
    assert high < 0x1_0000_0000;
    assert (high * 0x1_0000_0000 + low) % 0x1_0000_0000 == low;
  }

  lemma {:induction false} IdsOfHas(fps: seq<Fingerprint>, id: nat)
    ensures id in IdsOf(fps) <==> exists x | x in fps :: KeyId(x) == id
    ensures id in Short(IdsOf(fps)) <==> exists x | x in fps :: KeyId(x) % 0x1_0000_0000 == id
  {
    if fps != [] {
      IdsOfHas(fps[1..], id);
      assert IdsOf(fps)[1..] == IdsOf(fps[1..]);
      assert fps == [fps[0]] + fps[1..];
    }
  }

  /** The fingerprints a key answers to: its own and those of its subkeys. */
  function Names(s: Schema, k: RawKey): (r: seq<Fingerprint>) { [s.fp(k)] + s.subkeys(k) }

  lemma IdsAre(s: Schema, k: RawKey, id: nat)
    ensures id in s.Ids64(k) <==> exists x | x in Names(s, k) :: KeyId(x) == id
    ensures id in s.Ids32(k) <==> exists x | x in Names(s, k) :: KeyId(x) % 0x1_0000_0000 == id
  {
    assert Names(s, k)[1..] == s.subkeys(k);
    assert IdsOf(Names(s, k)) == s.Ids64(k);
    IdsOfHas(Names(s, k), id);
  }

  /**
   An entry under a 64-bit id leads to a key exactly if the id is that of the key or of one of its
   subkeys; under a 32-bit one, if it is the low half of such an id.
   */
  lemma IdFinds(s: Schema, t: Tables, db: Keys, id: nat, fp: Fingerprint)
    requires Agree(s, t, db)
    ensures (id, fp) in t.id64 <==> fp in db && exists x | x in Names(s, db[fp]) :: LongId(x) == id
    ensures (id, fp) in t.id32 <==> fp in db && exists x | x in Names(s, db[fp]) :: ShortId(x) == id
  {
    forall x: Fingerprint ensures KeyId(x) == LongId(x) && KeyId(x) % 0x1_0000_0000 == ShortId(x) {
      KeyIdIs(x);
    }
    assert t.id64[(id, fp)] == Due(k => s.Ids64(k), db, id, fp);
    assert t.id32[(id, fp)] == Due(k => s.Ids32(k), db, id, fp);
    if fp in db {
      IdsAre(s, db[fp], id);
    }
  }

  // ------------------------------------------------------------------- methods

  /** A loop that puts one entry after the other. */
  method PutEntries<K(==)>(t: Index<K>, xs: seq<K>, fp: Fingerprint) returns (r: Index<K>)
    ensures r == PutAll(t, xs, fp)
  {
    var todo := xs;
    r := t;
    while todo != []
      invariant PutAll(r, todo, fp) == PutAll(t, xs, fp)
      decreases |todo|
    {
      r, todo := r + multiset{(todo[0], fp)}, todo[1..];
    }
  }

  /** A loop that looks up one entry after the other and deletes what it finds. */
  method DeleteEntries<K(==)>(t: Index<K>, xs: seq<K>, fp: Fingerprint) returns (r: Index<K>)
    ensures r == DeleteAll(t, xs, fp)
  {
    var todo := xs;
    r := t;
    while todo != []
      invariant DeleteAll(r, todo, fp) == DeleteAll(t, xs, fp)
      decreases |todo|
    {
      if (todo[0], fp) in r {
        r := r - multiset{(todo[0], fp)};
      } else {
        assert r - multiset{(todo[0], fp)} == r;
      }
      todo := todo[1..];
    }
  }

  class Db4Store {
    const schema: Schema
    var tables: Tables

    constructor (s: Schema)
      ensures schema == s && tables == EMPTY
    {
      schema, tables := s, EMPTY;
    }

    /** db4_fetch_key_int. */
    method FetchKey(fp: Fingerprint, dosubkey: bool) returns (r: Fetched)
      ensures r == Fetch(schema, tables, fp, dosubkey)
    {
      if fp in tables.keys {
        return schema.decode(tables.keys[fp]);
      }
      if dosubkey && fp in tables.subkeys {
        var primary := tables.subkeys[fp];
        if primary in tables.keys {
          return schema.decode(tables.keys[primary]);
        }
      }
      return Missing;
    }

    /** db4_delete_key: everything to delete is derived again from the octets that were stored. */
    method DeleteKey(fp: Fingerprint)
      modifies this
      ensures tables == Delete(schema, old(tables), fp)
    {
      var got := FetchKey(fp, true);
      if got == Missing {
        return;
      }
      var k, t := got.key, tables;
      var words := DeleteEntries(t.words, schema.words(k), fp);
      var id32 := DeleteEntries(t.id32, schema.Ids32(k), fp);
      var id64 := DeleteEntries(t.id64, schema.Ids64(k), fp);
      var subkeys := DeleteSubkeys(t.subkeys, schema.subkeys(k));
      var hash, hashes := schema.hash(k), t.hashes;
      if hash in hashes && hashes[hash] == fp {
        hashes := hashes - {hash};
      }
      tables := Tables(t.keys - {fp}, words, id32, id64, subkeys, hashes);
    }

    method DeleteSubkeys(t: map<Fingerprint, Fingerprint>, subs: seq<Fingerprint>) returns (r: map<Fingerprint, Fingerprint>)
      ensures r == t - SetOf(subs)
    {
      r := t;
      for i := 0 to |subs|
        invariant r == t - SetOf(subs[..i])
      {
        r := r - {subs[i]};
        SetOfStep(subs, i);
      }
      assert subs[..|subs|] == subs;
    }

    /** db4_store_key. */
    method StoreKey(k: RawKey, update: bool)
      modifies this
      ensures tables == Store(schema, old(tables), k, update)
    {
      var fp := schema.fp(k);
      if update {
        DeleteKey(fp);
      }
      var t := tables;
      var words := PutEntries(t.words, schema.words(k), fp);
      var id32 := PutEntries(t.id32, schema.Ids32(k), fp);
      var id64 := PutEntries(t.id64, schema.Ids64(k), fp);
      var subkeys, todo := t.subkeys, schema.subkeys(k);
      while todo != []
        invariant PutSubkeys(subkeys, todo, fp) == PutSubkeys(t.subkeys, schema.subkeys(k), fp)
        decreases |todo|
      {
        subkeys, todo := subkeys[todo[0] := fp], todo[1..];
      }
      tables := Tables(t.keys[fp := schema.encode(k)], words, id32, id64, subkeys, t.hashes[schema.hash(k) := fp]);
    }
  }
}
