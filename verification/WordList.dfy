/** Splitting text into search words (wordlist.c). Which characters separate words, and lower case, are left open. */
module WordList {
  import opened Sequences

  type Separator = char -> bool

  // -------------------------------------------------------------------- words

  /** `s[a..b]` is a word: no separator in it, and it cannot be made longer. */
  predicate IsWord(sep: Separator, s: string, a: nat, b: nat) {
    && a < b <= |s| && (forall k | a <= k < b :: !sep(s[k]))
    && (a == 0 || sep(s[a - 1])) && (b == |s| || sep(s[b]))
  }

  function SkipSeparators(sep: Separator, s: string, i: nat): (a: nat)
    requires i <= |s|
    ensures i <= a <= |s| && (a < |s| ==> !sep(s[a])) && forall k | i <= k < a :: sep(s[k])
    decreases |s| - i
  {
    if i < |s| && sep(s[i]) then SkipSeparators(sep, s, i + 1) else i
  }

  function WordEnd(sep: Separator, s: string, i: nat): (b: nat)
    requires i <= |s|
    ensures i <= b <= |s| && (b < |s| ==> sep(s[b])) && forall k | i <= k < b :: !sep(s[k])
    decreases |s| - i
  {
    if i < |s| && !sep(s[i]) then WordEnd(sep, s, i + 1) else i
  }

  /** The words from `i` on, in order. */
  function Words(sep: Separator, s: string, i: nat): (r: seq<string>)
    requires i <= |s|
    decreases |s| - i
  {
    var a := SkipSeparators(sep, s, i);
    if a == |s| then [] else [s[a..WordEnd(sep, s, a)]] + Words(sep, s, WordEnd(sep, s, a))
  }

  /** `i` is not inside a word. */
  predicate Boundary(sep: Separator, s: string, i: nat) {
    i <= |s| && (i == 0 || i == |s| || sep(s[i - 1]) || sep(s[i]))
  }

  lemma FirstWord(sep: Separator, s: string, i: nat, a: nat, b: nat)
    requires Boundary(sep, s, i) && i <= a && IsWord(sep, s, a, b)
    ensures var f := SkipSeparators(sep, s, i);
            f < |s| && ((a == f && b == WordEnd(sep, s, f)) || WordEnd(sep, s, f) <= a)
  {
    var f := SkipSeparators(sep, s, i);
    var e := WordEnd(sep, s, f);
    assert !sep(s[a]) && f <= a;
    assert (b == |s| || sep(s[b])) && (a == 0 || sep(s[a - 1]));
    assert e == |s| || sep(s[e]);
  }

  /** The text has the word, from `i` on. */
  ghost predicate Occurs(sep: Separator, s: string, i: nat, w: string) {
    exists a: nat, b: nat :: i <= a && IsWord(sep, s, a, b) && s[a..b] == w
  }

  lemma OccursStep(sep: Separator, s: string, i: nat, w: string)
    requires Boundary(sep, s, i)
    ensures var f := SkipSeparators(sep, s, i);
            Occurs(sep, s, i, w) <==> f < |s| && (s[f..WordEnd(sep, s, f)] == w || Occurs(sep, s, WordEnd(sep, s, f), w))
  {
    var f := SkipSeparators(sep, s, i);
    if Occurs(sep, s, i, w) {
      var a: nat, b: nat :| i <= a && IsWord(sep, s, a, b) && s[a..b] == w;
      FirstWord(sep, s, i, a, b);
    }
    if f < |s| {
      assert IsWord(sep, s, f, WordEnd(sep, s, f));
    }
  }

  /** The words found are exactly the longest stretches without separators. */
  lemma {:induction false} WordsExact(sep: Separator, s: string, i: nat, w: string)
    requires Boundary(sep, s, i)
    ensures w in Words(sep, s, i) <==> Occurs(sep, s, i, w)
    decreases |s| - i
  {
    OccursStep(sep, s, i, w);
    var f := SkipSeparators(sep, s, i);
    if f < |s| {
      WordsExact(sep, s, WordEnd(sep, s, f), w);
    }
  }

  // --------------------------------------------------------------- word lists

  function Lower(low: char -> char, s: string): (r: string)
    ensures |r| == |s|
  {
    seq(|s|, i requires 0 <= i < |s| => low(s[i]))
  }

  /** A word of two characters or more is listed in lower case, unless it is there already. */
  function WithWord(low: char -> char, list: seq<string>, w: string): (r: seq<string>) {
    if |w| > 1 && Lower(low, w) !in list then list + [Lower(low, w)] else list
  }

  function AddWords(low: char -> char, list: seq<string>, words: seq<string>): (r: seq<string>)
    decreases |words|
  {
    if words == [] then list else AddWords(low, WithWord(low, list, words[0]), words[1..])
  }

  /** The list stays free of repetitions and gains exactly those words. */
  lemma {:induction false} AddWordsExact(low: char -> char, list: seq<string>, words: seq<string>, w: string)
    ensures NoRepeats(list) ==> NoRepeats(AddWords(low, list, words))
    ensures w in AddWords(low, list, words) <==>
            w in list || exists i | 0 <= i < |words| :: |words[i]| > 1 && Lower(low, words[i]) == w
    decreases |words|
  {
    if words != [] {
      AddWordsExact(low, WithWord(low, list, words[0]), words[1..], w);
      assert words == [words[0]] + words[1..];
    }
  }

  /** A word is in the list made from a text exactly if the text has it, in some mixture of cases. */
  lemma ListExact(sep: Separator, low: char -> char, s: string, w: string)
    ensures NoRepeats(AddWords(low, [], Words(sep, s, 0)))
    ensures w in AddWords(low, [], Words(sep, s, 0)) <==>
            exists x: string :: Occurs(sep, s, 0, x) && |x| > 1 && Lower(low, x) == w
  {
    var words := Words(sep, s, 0);
    AddWordsExact(low, [], words, w);
    forall i | 0 <= i < |words| ensures Occurs(sep, s, 0, words[i]) {
      WordsExact(sep, s, 0, words[i]);
    }
    if x: string :| Occurs(sep, s, 0, x) && |x| > 1 && Lower(low, x) == w {
      WordsExact(sep, s, 0, x);
    }
  }

  /** Searching on behind the separator that ends a word changes nothing. */
  lemma WordsBehind(sep: Separator, s: string, i: nat)
    requires i < |s| && sep(s[i])
    ensures Words(sep, s, i) == Words(sep, s, i + 1)
  {
  }

  lemma AddStep(low: char -> char, list: seq<string>, w: string, rest: seq<string>)
    ensures AddWords(low, list, [w] + rest) == AddWords(low, WithWord(low, list, w), rest)
  {
    assert ([w] + rest)[1..] == rest;
  }

  /** A list to which the words of the text from `i` on are added. */
  type Adder = (seq<string>, nat) -> seq<string>

  function AdderOf(sep: Separator, low: char -> char, s: string): (add: Adder) {
    (list: seq<string>, i: nat) => if i <= |s| then AddWords(low, list, Words(sep, s, i)) else list
  }

  ghost predicate IsAdder(add: Adder, sep: Separator, low: char -> char, s: string) {
    forall list: seq<string>, i: nat {:trigger AddWords(low, list, Words(sep, s, i))} | i <= |s| ::
      add(list, i) == AddWords(low, list, Words(sep, s, i))
  }

  /** One word added. */
  lemma WordsTurn(add: Adder, sep: Separator, low: char -> char, list: seq<string>, s: string, i: nat, a: nat, b: nat)
    requires IsAdder(add, sep, low, s) && i <= |s| && a == SkipSeparators(sep, s, i) < |s| && b == WordEnd(sep, s, a)
    ensures add(list, i) == add(WithWord(low, list, s[a..b]), b)
  {
    var w, rest := s[a..b], Words(sep, s, b);
    assert Words(sep, s, i) == [w] + rest;
    AddStep(low, list, w, rest);
    assert AddWords(low, list, Words(sep, s, i)) == AddWords(low, WithWord(low, list, w), rest);
  }

  /** The search can go on behind the separator that ends a word. */
  lemma WordsOn(add: Adder, sep: Separator, low: char -> char, list: seq<string>, s: string, i: nat)
    requires IsAdder(add, sep, low, s) && i < |s| && sep(s[i])
    ensures add(list, i) == add(list, i + 1)
  {
    WordsBehind(sep, s, i);
    assert AddWords(low, list, Words(sep, s, i)) == AddWords(low, list, Words(sep, s, i + 1));
  }

  lemma WordsDone(add: Adder, sep: Separator, low: char -> char, list: seq<string>, s: string, i: nat)
    requires IsAdder(add, sep, low, s) && i <= |s| && SkipSeparators(sep, s, i) == |s|
    ensures add(list, i) == list
  {
    assert AddWords(low, list, Words(sep, s, i)) == list;
  }

  /** The loop of makewordlist: a start and an end mark that move through the text. */
  method WordLoop(sep: Separator, low: char -> char, list: seq<string>, s: string, ghost add: Adder) returns (r: seq<string>)
    requires IsAdder(add, sep, low, s)
    ensures r == add(list, 0)
  {
    r := list;
    var end: nat := 0;
    while end < |s|
      invariant end <= |s| && add(r, end) == add(list, 0)
      decreases |s| - end
    {
      var start := SkipSeparators(sep, s, end);
      if start == |s| {
        WordsDone(add, sep, low, r, s, end);
        return;
      }
      var stop := WordEnd(sep, s, start);
      WordsTurn(add, sep, low, r, s, end, start, stop);
      end := stop;
      if end - start > 1 {
        var w := Lower(low, s[start..end]);
        if w !in r {
          r := r + [w];
        }
        if end < |s| {
          WordsOn(add, sep, low, r, s, end);
          end := end + 1;
        }
      }
    }
    WordsDone(add, sep, low, r, s, end);
  }

  /** makewordlist. */
  method MakeWordList(sep: Separator, low: char -> char, list: seq<string>, s: string) returns (r: seq<string>)
    ensures r == AddWords(low, list, Words(sep, s, 0))
  {
    r := WordLoop(sep, low, list, s, AdderOf(sep, low, s));
  }
}
