/**
 Updating through a fetch that also looks among subkeys (keydb/keydb.c, keydb/keydb_db4.c). A key whose
 fingerprint is that of a stored subkey meets the subkey's owner: the merge is refused, the key is not
 stored, and it is passed on all the same.
 */
module FetchFallback {
  import opened Packets
  import opened Merge
  import opened PublicKeys
  import opened KeyDb
  import Minimality
  import Db4Index
  import KeyGrammar

  /** What fetch_key_fp came back with. */
  datatype Hit = NoKey | Hit(key: Key)

  /** The fetch: the key of that fingerprint, else one that has a subkey of that fingerprint. */
  ghost predicate Finds(db: Db, subs: Key -> seq<Fingerprint>, fp: Fingerprint, hit: Hit) {
    match hit
    case NoKey => fp !in db && forall gp | gp in db :: fp !in subs(db[gp])
    case Hit(a) => if fp in db then a == db[fp] else exists gp | gp in db :: a == db[gp] && fp in subs(db[gp])
  }

  /**
   One turn of the generic_update_keys loop with what was fetched. Keys of different key ids are not
   merged: the one that was fetched is written back with the packets it had, and the other one stays on
   the list with the revoked flag of both.
   */
  function StepWith(db: Db, hit: Hit, k: Key, banned: set<Fingerprint>, updateOnly: bool): (r: Run) {
    if k.fp in banned then Run(db, [], 0)
    else match hit
      case NoKey => if updateOnly then Run(db, [k], 0) else Run(db[k.fp := k], [k], 1)
      case Hit(a) =>
        if KeyId(a.fp) == KeyId(k.fp) then
          if Bare(DeltaKey(a, k)) then Run(db, [], 0) else Run(db[a.fp := MergedKey(a, k)], [DeltaKey(a, k)], 0)
        else if Bare(k) then Run(db, [], 0)
        else Run(db, [k.(revoked := a.revoked || k.revoked)], 0)
  }

  /** The key was found under a subkey of a key with another key id. */
  predicate Foreign(hit: Hit, k: Key) { hit.Hit? && KeyId(hit.key.fp) != KeyId(k.fp) }

  /** Unless the fingerprint is that of a stored subkey, the turn is that on the map by primary fingerprint. */
  lemma StepWithIs(db: Db, subs: Key -> seq<Fingerprint>, hit: Hit, k: Key, banned: set<Fingerprint>, updateOnly: bool)
    requires CleanDb(db) && Finds(db, subs, k.fp, hit)
    requires k.fp in db || forall gp | gp in db :: k.fp !in subs(db[gp])
    ensures StepWith(db, hit, k, banned, updateOnly) == Step(db, k, banned, updateOnly)
  {
  }

  /** A key is in the store afterwards exactly if it was, or nothing was found and it may be added. */
  lemma StoredIff(db: Db, subs: Key -> seq<Fingerprint>, hit: Hit, k: Key, banned: set<Fingerprint>, updateOnly: bool)
    requires CleanDb(db) && Finds(db, subs, k.fp, hit)
    ensures k.fp in StepWith(db, hit, k, banned, updateOnly).db <==>
            || k.fp in db
            || (k.fp !in banned && !updateOnly && forall gp | gp in db :: k.fp !in subs(db[gp]))
  {
  }

  /** So three kinds of keys are passed on although the store does not change. */
  lemma PassedOnIff(db: Db, subs: Key -> seq<Fingerprint>, hit: Hit, k: Key, banned: set<Fingerprint>, updateOnly: bool)
    requires CleanDb(db) && Clean(k) && Finds(db, subs, k.fp, hit)
    ensures var s := StepWith(db, hit, k, banned, updateOnly);
            s.kept != [] && s.db == db <==>
            && k.fp !in banned
            && match hit
               case NoKey => updateOnly
               case Hit(a) =>
                 if Foreign(hit, k) then !Bare(k) else !Minimality.Covered(k, a) && Minimality.AddsNothingKey(k, a)
  {
    match hit
    case NoKey => Minimality.SameStoreIff(db, k.fp, k);
    case Hit(a) =>
      HitStored(db, subs, hit, k);
      Minimality.KeyUnchangedIff(a, k);
      Minimality.SameStoreIff(db, a.fp, MergedKey(a, k));
      BareIff(a, k);
  }

  lemma HitStored(db: Db, subs: Key -> seq<Fingerprint>, hit: Hit, k: Key)
    requires CleanDb(db) && hit.Hit? && Finds(db, subs, k.fp, hit)
    ensures hit.key.fp in db && db[hit.key.fp] == hit.key && Clean(hit.key)
  {
  }

  lemma BareIff(a: Key, k: Key)
    ensures Bare(DeltaKey(a, k)) <==> Minimality.Covered(k, a)
  {
    Minimality.FreshDirectEmpty(k.sigs, a.sigs);
    Minimality.DeltaEmpty(k.uids, a.uids);
    Minimality.DeltaEmpty(k.subkeys, a.subkeys);
  }

  /** The decoded keys of a db4 store. */
  function View(raw: Db4Index.Keys, decoded: KeyGrammar.RawKey -> Key): (db: Db) {
    map fp | fp in raw :: decoded(raw[fp])
  }

  /** The db4 backend with agreeing tables fetches like that. */
  lemma Db4Finds(s: Db4Index.Schema, t: Db4Index.Tables, raw: Db4Index.Keys,
                 decoded: KeyGrammar.RawKey -> Key, subs: Key -> seq<Fingerprint>, fp: Fingerprint)
    requires Db4Index.Sound(s) && Db4Index.Agree(s, t, raw)
    requires forall gp | gp in raw :: subs(decoded(raw[gp])) == s.subkeys(raw[gp])
    ensures var hit := match Db4Index.Fetch(s, t, fp, true) case Missing => NoKey case Found(r) => Hit(decoded(r));
            Finds(View(raw, decoded), subs, fp, hit)
  {
    var db := View(raw, decoded);
    Db4Index.FetchFinds(s, t, raw, fp);
    if fp !in raw && fp in t.subkeys {
      var gp := t.subkeys[fp];
      assert gp in db && db[gp] == decoded(raw[gp]) && fp in subs(db[gp]);
    }
  }

  function ExampleFp(n: byte): (fp: Fingerprint) { seq(19, _ => 0) + [n] }

  lemma ExampleIds(m: byte, n: byte)
    requires m != n
    ensures KeyId(ExampleFp(m)) != KeyId(ExampleFp(n))
  {
    var a, b := ExampleFp(m)[12..], ExampleFp(n)[12..];
    LastOctet(a);
    LastOctet(b);
  }

  lemma LastOctet(s: seq<byte>)
    requires s != []
    ensures BigEndian(s) % 256 == s[|s| - 1] as int
  {
    LowOctet(BigEndian(s[..|s| - 1]), s[|s| - 1]);
  }

  lemma LowOctet(high: nat, low: nat)
    requires low < 256
    ensures (high * 256 + low) % 256 == low
  {
  }

  /** A store of one key with a subkey, and a key of the subkey's fingerprint with a user id. */
  lemma ForeignExample(subs: Key -> seq<Fingerprint>, a: Key, k: Key)
    requires a.fp == ExampleFp(1) && k.fp == ExampleFp(2) && subs(a) == [k.fp] && k.uids != []
    ensures var db, kept := map[a.fp := a], k.(revoked := a.revoked || k.revoked);
            Finds(db, subs, k.fp, Hit(a)) && StepWith(db, Hit(a), k, {}, false) == Run(db, [kept], 0)
  {
    var db := map[a.fp := a];
    ExampleIds(1, 2);
    assert a.fp in db && db[a.fp] == a && k.fp in subs(db[a.fp]);
  }
}
