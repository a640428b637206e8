/** Text search over the word table (db4_fetch_key_text in keydb/keydb_db4.c). */
module TextSearch {
  import opened Sequences
  import opened Packets
  import opened Merge
  import opened KeyArray
  import opened Db4Index

  /** The fingerprints a cursor gives for each word: those of the table, as often as they are in it. */
  ghost predicate Lists(listing: string -> seq<Fingerprint>, t: Index<string>) {
    forall w: string, fp: Fingerprint {:trigger t[(w, fp)]} :: multiset(listing(w))[fp] == t[(w, fp)]
  }

  /** The key is listed under every one of the words. */
  ghost predicate HasAll(listing: string -> seq<Fingerprint>, words: seq<string>, fp: Fingerprint) {
    forall w | w in words :: fp in listing(w)
  }

  /** A pass over one word: of the keys so far, or of all keys, those listed under it. */
  method Narrow(entries: seq<Fingerprint>, first: bool, sofar: KeyArray) returns (next: KeyArray)
    requires sofar.Valid()
    ensures next.Valid() && fresh(next)
    ensures forall x :: x in next.keys <==> x in entries && (first || x in sofar.keys)
  {
    next := new KeyArray();
    for i := 0 to |entries|
      invariant next.Valid() && fresh(next)
      invariant forall x :: x in next.keys <==> x in entries[..i] && (first || x in sofar.keys)
    {
      var fp := entries[i];
      var wanted := first;
      if !first {
        wanted := sofar.Find(fp);
      }
      assert entries[..i + 1] == entries[..i] + [fp];
      if wanted {
        var added := next.Add(fp);
      }
    }
    assert entries[..|entries|] == entries;
  }

  /** The passes over all words: what is left is what is listed under every one of them. */
  method Intersect(listing: string -> seq<Fingerprint>, words: seq<string>) returns (found: seq<Fingerprint>)
    ensures Ascending(found)
    ensures forall x :: x in found <==> words != [] && HasAll(listing, words, x)
  {
    var keylist := new KeyArray();
    for i := 0 to |words|
      invariant keylist.Valid() && fresh(keylist)
      invariant forall x :: x in keylist.keys <==> i > 0 && HasAll(listing, words[..i], x)
    {
      ghost var before := keylist.keys;
      keylist := Narrow(listing(words[i]), i == 0, keylist);
      forall x ensures x in keylist.keys <==> HasAll(listing, words[..i + 1], x) {
        HasAllStep(listing, words, i, x);
      }
    }
    assert words[..|words|] == words;
    found := keylist.keys;
  }

  lemma HasAllStep(listing: string -> seq<Fingerprint>, words: seq<string>, i: nat, x: Fingerprint)
    requires i < |words|
    ensures HasAll(listing, words[..i + 1], x) <==> HasAll(listing, words[..i], x) && x in listing(words[i])
    ensures HasAll(listing, words[..0], x)
  {
    assert words[..i + 1] == words[..i] + [words[i]];
  }

  /** The fingerprint comes after all of these. */
  ghost predicate Above(keys: seq<Fingerprint>, x: Fingerprint) {
    forall i | 0 <= i < |keys| :: FpLess(keys[i], x)
  }

  ghost predicate Matches(listing: string -> seq<Fingerprint>, words: seq<string>, x: Fingerprint) {
    words != [] && HasAll(listing, words, x)
  }

  /** What is to be fetched: keys that match, ascending, and any that is left out comes after a full number of them. */
  ghost predicate Answers(listing: string -> seq<Fingerprint>, words: seq<string>, max: nat, found: seq<Fingerprint>) {
    && Ascending(found) && |found| <= max
    && (forall x | x in found :: Matches(listing, words, x))
    && (forall x | Matches(listing, words, x) && x !in found :: |found| == max && Above(found, x))
  }

  /** The keys that are fetched. */
  method Search(listing: string -> seq<Fingerprint>, words: seq<string>, maxkeys: nat) returns (found: seq<Fingerprint>)
    ensures Answers(listing, words, maxkeys, found)
  {
    found := Intersect(listing, words);
    if |found| > maxkeys {
      CutAnswers(listing, words, maxkeys, found);
      found := found[..maxkeys];
    }
  }

  /** The first ones of all that match. */
  lemma CutAnswers(listing: string -> seq<Fingerprint>, words: seq<string>, max: nat, all: seq<Fingerprint>)
    requires Ascending(all) && max < |all| && forall x :: x in all <==> Matches(listing, words, x)
    ensures Answers(listing, words, max, all[..max])
  {
    var found := all[..max];
    forall x | x in found ensures Matches(listing, words, x) {
      assert x in all;
    }
    forall x | Matches(listing, words, x) && x !in found ensures Above(found, x) {
      assert x in all && all == found + all[max..];
      var j :| 0 <= j < |all[max..]| && all[max..][j] == x;
      assert all[max + j] == x;
    }
  }

  ghost function Elements(a: seq<Fingerprint>): (r: set<Fingerprint>) { set x | x in a }

  lemma {:induction false} AscendingSize(a: seq<Fingerprint>)
    requires Ascending(a)
    ensures |Elements(a)| == |a|
  {
    if a == [] {
      assert Elements(a) == {};
    } else {
      AscendingSize(a[1..]);
      forall x ensures x in a[1..] <==> x in a && x != a[0] {
        TailHas(a, x);
      }
      assert Elements(a) == Elements(a[1..]) + {a[0]};
    }
  }

  lemma AnswerHas(listing: string -> seq<Fingerprint>, words: seq<string>, max: nat,
                  a: seq<Fingerprint>, b: seq<Fingerprint>, x: Fingerprint)
    requires Answers(listing, words, max, a) && Answers(listing, words, max, b) && x in a
    ensures x in b
  {
    if x !in b {
      var i :| 0 <= i < |a| && a[i] == x;
      forall y | y in b ensures y in a {
        var j :| 0 <= j < |b| && b[j] == y;
        assert FpLess(b[j], x);
        FpOrder(x, y, x);
        assert !Above(a, y) by {
          assert a[i] == x;
        }
      }
      AscendingSize(a);
      AscendingSize(b);
      assert Elements(b) + {x} <= Elements(a);
      assert |Elements(b) + {x}| == |b| + 1;
      SubsetSize(Elements(b) + {x}, Elements(a));
    }
  }

  /** There is only one such answer. */
  lemma AnswerUnique(listing: string -> seq<Fingerprint>, words: seq<string>, max: nat,
                     a: seq<Fingerprint>, b: seq<Fingerprint>)
    requires Answers(listing, words, max, a) && Answers(listing, words, max, b)
    ensures a == b
  {
    forall x ensures x in a <==> x in b {
      if x in a {
        AnswerHas(listing, words, max, a, b, x);
      }
      if x in b {
        AnswerHas(listing, words, max, b, a, x);
      }
    }
    AscendingUnique(a, b);
  }

  /** An ascending list is determined by what is in it. */
  lemma {:induction false} AscendingUnique(a: seq<Fingerprint>, b: seq<Fingerprint>)
    requires Ascending(a) && Ascending(b) && forall x :: x in a <==> x in b
    ensures a == b
    decreases |a|
  {
    assert (|a| > 0 ==> a[0] in b) && (|b| > 0 ==> b[0] in a);
    if a != [] {
      FirstIs(a, b);
      forall x ensures x in a[1..] <==> x in b[1..] {
        TailHas(a, x);
        TailHas(b, x);
      }
      AscendingUnique(a[1..], b[1..]);
      assert a == [a[0]] + a[1..] && b == [b[0]] + b[1..];
    }
  }

  lemma FirstIs(a: seq<Fingerprint>, b: seq<Fingerprint>)
    requires Ascending(a) && Ascending(b) && a != [] && b != [] && a[0] in b && b[0] in a
    ensures a[0] == b[0]
  {
    var i :| 0 <= i < |b| && b[i] == a[0];
    var j :| 0 <= j < |a| && a[j] == b[0];
    assert i == 0 || FpLess(b[0], b[i]);
    assert j == 0 || FpLess(a[0], a[j]);
    FpOrder(a[0], b[0], a[0]);
  }

  lemma TailHas(a: seq<Fingerprint>, x: Fingerprint)
    requires Ascending(a) && a != []
    ensures x in a[1..] <==> x in a && x != a[0]
  {
    FpOrder(a[0], a[0], a[0]);
    if x in a[1..] {
      var i :| 0 <= i < |a| - 1 && a[1..][i] == x;
      assert FpLess(a[0], a[i + 1]);
    }
  }

  /** With tables that agree, the keys listed under all words are the stored keys that have all the words. */
  lemma SearchMeans(s: Schema, t: Tables, db: Keys, listing: string -> seq<Fingerprint>, words: seq<string>, fp: Fingerprint)
    requires Agree(s, t, db) && Lists(listing, t.words) && words != []
    ensures HasAll(listing, words, fp) <==> fp in db && forall w | w in words :: w in s.words(db[fp])
  {
    forall w ensures fp in listing(w) <==> fp in db && w in s.words(db[fp]) {
      assert t.words[(w, fp)] == Due(s.words, db, w, fp);
      assert fp in listing(w) <==> fp in multiset(listing(w));
      if fp in db {
        assert w in s.words(db[fp]) <==> w in multiset(s.words(db[fp]));
      }
    }
    if HasAll(listing, words, fp) {
      assert fp in listing(words[0]);
    }
  }
}
