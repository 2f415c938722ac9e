/** The token vocabulary (tokenize_addresses.py, `build_vocab`): every
    whitespace token of the tokenized corpus is counted with a `Counter`, and
    the words whose count reaches `min_freq` are written as `word<TAB>count`
    lines, in the order in which the counter first saw them. */
module TokenizeAddresses {

  import opened Errors
  import opened Text

  /** All tokens of the corpus, line after line: `line.strip().split()`. */
  function AllTokens(lines: seq<string>): seq<string> {
    if |lines| == 0 then []
    else AllTokens(lines[..|lines| - 1]) + Fields(lines[|lines| - 1])
  }

  /** Every token is a non-empty word without whitespace. */
  lemma {:induction false} AllTokensClean(lines: seq<string>)
    ensures forall k :: 0 <= k < |AllTokens(lines)| ==> AllTokens(lines)[k] != [] && NoSpace(AllTokens(lines)[k])
  {
    if |lines| > 0 {
      var n := |lines| - 1;
      AllTokensClean(lines[..n]);
      SplitFields(Strip(lines[n]));
      var before := AllTokens(lines[..n]);
      var fields := Fields(lines[n]);
      assert AllTokens(lines) == before + fields;
      assert forall k :: |before| <= k < |before| + |fields| ==> AllTokens(lines)[k] == fields[k - |before|];
    }
  }

  /** The count a counter holds for `w`; `Counter` answers 0 for a word it has not seen. */
  function Freq(counts: map<string, nat>, w: string): nat {
    if w in counts then counts[w] else 0
  }

  /** The counter's counts after `update` with `tokens`, one token at a time. */
  function Tally(tokens: seq<string>): map<string, nat> {
    if |tokens| == 0 then map[]
    else
      var n := |tokens| - 1;
      var counts := Tally(tokens[..n]);
      counts[tokens[n] := Freq(counts, tokens[n]) + 1]
  }

  /** The counter's keys in insertion order: each word where it first occurs. */
  function FirstOrder(tokens: seq<string>): seq<string> {
    if |tokens| == 0 then []
    else
      var n := |tokens| - 1;
      var order := FirstOrder(tokens[..n]);
      if tokens[n] in order then order else order + [tokens[n]]
  }

  /** The counter holds exactly the seen words, each with its number of
      occurrences. */
  lemma {:induction false} TallyCounts(tokens: seq<string>)
    ensures forall w :: w in Tally(tokens) <==> w in tokens
    ensures forall w :: Freq(Tally(tokens), w) == multiset(tokens)[w]
  {
    if |tokens| > 0 {
      var n := |tokens| - 1;
      TallyCounts(tokens[..n]);
      assert tokens == tokens[..n] + [tokens[n]];
    }
  }

  /** The insertion order lists every seen word exactly once. */
  lemma {:induction false} FirstOrderMembers(tokens: seq<string>)
    ensures forall w :: w in FirstOrder(tokens) <==> w in tokens
    ensures forall i, j :: 0 <= i < j < |FirstOrder(tokens)| ==> FirstOrder(tokens)[i] != FirstOrder(tokens)[j]
  {
    if |tokens| > 0 {
      var n := |tokens| - 1;
      FirstOrderMembers(tokens[..n]);
      assert tokens == tokens[..n] + [tokens[n]];
    }
  }

  /** The index of the first occurrence of `w`. */
  function FirstIndex(tokens: seq<string>, w: string): nat
    requires w in tokens
  {
    var n := |tokens| - 1;
    if w in tokens[..n] then FirstIndex(tokens[..n], w) else n
  }

  /** `FirstIndex` is an occurrence and no earlier token is `w`. */
  lemma {:induction false} FirstIndexSpec(tokens: seq<string>, w: string)
    requires w in tokens
    ensures FirstIndex(tokens, w) < |tokens| && tokens[FirstIndex(tokens, w)] == w
    ensures forall q :: 0 <= q < FirstIndex(tokens, w) ==> tokens[q] != w
  {
    var n := |tokens| - 1;
    assert tokens == tokens[..n] + [tokens[n]];
    if w in tokens[..n] {
      FirstIndexSpec(tokens[..n], w);
    } else {
      assert forall q :: 0 <= q < n ==> tokens[q] == tokens[..n][q];
    }
  }

  /** The insertion order is the order of first occurrence. */
  lemma {:induction false} FirstOrderIsFirstOccurrence(tokens: seq<string>)
    ensures forall w :: w in FirstOrder(tokens) ==> w in tokens
    ensures forall i, j :: 0 <= i < j < |FirstOrder(tokens)| ==>
      FirstIndex(tokens, FirstOrder(tokens)[i]) < FirstIndex(tokens, FirstOrder(tokens)[j])
  {
    FirstOrderMembers(tokens);
    if |tokens| > 0 {
      var n := |tokens| - 1;
      var prefix := tokens[..n];
      var before := FirstOrder(prefix);
      FirstOrderIsFirstOccurrence(prefix);
      FirstOrderMembers(prefix);
      assert forall w :: w in before ==> FirstIndex(tokens, w) == FirstIndex(prefix, w);
      forall w | w in before ensures FirstIndex(prefix, w) < n {
        FirstIndexSpec(prefix, w);
      }
      if tokens[n] !in before {
        assert FirstIndex(tokens, tokens[n]) == n;
      }
    }
  }

  /** The words of `order` whose count reaches `minFreq`, in that order. */
  function Kept(order: seq<string>, counts: map<string, nat>, minFreq: int): seq<string> {
    if |order| == 0 then []
    else
      var n := |order| - 1;
      Kept(order[..n], counts, minFreq) + (if Freq(counts, order[n]) >= minFreq then [order[n]] else [])
  }

  /** A kept word is a word of `order` that reaches `minFreq`, and back. */
  lemma {:induction false} KeptMembers(order: seq<string>, counts: map<string, nat>, minFreq: int)
    ensures forall w :: w in Kept(order, counts, minFreq) <==> w in order && Freq(counts, w) >= minFreq
  {
    if |order| > 0 {
      var n := |order| - 1;
      KeptMembers(order[..n], counts, minFreq);
      assert order == order[..n] + [order[n]];
    }
  }

  /** Keeping drops words but repeats none. */
  lemma {:induction false} KeptDistinct(order: seq<string>, counts: map<string, nat>, minFreq: int)
    requires forall i, j :: 0 <= i < j < |order| ==> order[i] != order[j]
    ensures forall i, j :: 0 <= i < j < |Kept(order, counts, minFreq)| ==>
      Kept(order, counts, minFreq)[i] != Kept(order, counts, minFreq)[j]
  {
    if |order| > 0 {
      var n := |order| - 1;
      var prefix := order[..n];
      assert forall i :: 0 <= i < n ==> prefix[i] == order[i];
      KeptDistinct(prefix, counts, minFreq);
      KeptMembers(prefix, counts, minFreq);
    }
  }

  /** Keeping preserves the relative order of the kept words: if `order` is
      increasing in first-occurrence index, so is what it keeps. */
  lemma {:induction false} KeptSorted(order: seq<string>, counts: map<string, nat>, minFreq: int, tokens: seq<string>)
    requires forall w :: w in order ==> w in tokens
    requires forall i, j :: 0 <= i < j < |order| ==> FirstIndex(tokens, order[i]) < FirstIndex(tokens, order[j])
    ensures forall w :: w in Kept(order, counts, minFreq) ==> w in tokens
    ensures forall i, j :: 0 <= i < j < |Kept(order, counts, minFreq)| ==>
      FirstIndex(tokens, Kept(order, counts, minFreq)[i]) < FirstIndex(tokens, Kept(order, counts, minFreq)[j])
  {
    KeptMembers(order, counts, minFreq);
    if |order| > 0 {
      var n := |order| - 1;
      var prefix := order[..n];
      assert forall i :: 0 <= i < n ==> prefix[i] == order[i];
      KeptSorted(prefix, counts, minFreq, tokens);
      KeptMembers(prefix, counts, minFreq);
      var before := Kept(prefix, counts, minFreq);
      forall w | w in before ensures FirstIndex(tokens, w) < FirstIndex(tokens, order[n]) {
        var i :| 0 <= i < n && prefix[i] == w;
      }
    }
  }

  /** One vocabulary line: `f"{word}\t{freq}"`. */
  function VocabLine(word: string, freq: nat): string {
    word + "\t" + NatToString(freq)
  }

  /** The lines written for `words`, each with its count. */
  function Lines(words: seq<string>, counts: map<string, nat>): seq<string>
  {
    seq(|words|, k requires 0 <= k < |words| => VocabLine(words[k], Freq(counts, words[k])))
  }

  /** Writing one more word adds its line at the end. */
  lemma LinesAppend(words: seq<string>, counts: map<string, nat>, w: string)
    ensures Lines(words + [w], counts) == Lines(words, counts) + [VocabLine(w, Freq(counts, w))]
  {
  }

  /** The words `build_vocab` writes: the seen words reaching `minFreq`, in
      first-occurrence order. */
  function Written(tokens: seq<string>, minFreq: int): seq<string> {
    Kept(FirstOrder(tokens), Tally(tokens), minFreq)
  }

  /** The vocabulary file `build_vocab` writes for the corpus `lines`. */
  function VocabFile(lines: seq<string>, minFreq: int): seq<string> {
    var tokens := AllTokens(lines);
    Lines(Written(tokens, minFreq), Tally(tokens))
  }

  /** Counting one more token: one more for it, and it joins the key order
      exactly when the counter has no entry for it yet. */
  lemma CountOne(seen: seq<string>, w: string)
    ensures w in Tally(seen) <==> w in FirstOrder(seen)
    ensures Tally(seen + [w]) == Tally(seen)[w := Freq(Tally(seen), w) + 1]
    ensures FirstOrder(seen + [w]) == if w in FirstOrder(seen) then FirstOrder(seen) else FirstOrder(seen) + [w]
  {
    assert (seen + [w])[..|seen|] == seen;
    TallyCounts(seen);
    FirstOrderMembers(seen);
  }

  /** A `collections.Counter` of words: a dictionary from word to count
      whose keys keep their insertion order. `seen` is every token it has been
      updated with. */
  class Counter {
    var order: seq<string>
    var counts: map<string, nat>
    ghost var seen: seq<string>

    ghost predicate Valid()
      reads this
    {
      order == FirstOrder(seen) && counts == Tally(seen)
    }

    /** An empty counter. */
    constructor ()
      ensures Valid() && seen == []
    {
      order := [];
      counts := map[];
      seen := [];
    }

    /** Counting one token: one more for it, and a new word is appended to
        the key order. */
    method Add(w: string)
      requires Valid()
      modifies this
      ensures Valid() && seen == old(seen) + [w]
    {
      CountOne(seen, w);
      if w in counts {
        counts := counts[w := counts[w] + 1];
      } else {
        order := order + [w];
        counts := counts[w := 1];
      }
      seen := seen + [w];
    }

    /** `counter.update(tokens)`: every token counted in turn. */
    method Update(tokens: seq<string>)
      requires Valid()
      modifies this
      ensures Valid() && seen == old(seen) + tokens
    {
      for j := 0 to |tokens|
        invariant Valid() && seen == old(seen) + tokens[..j]
      {
        assert tokens[..j + 1] == tokens[..j] + [tokens[j]];
        Add(tokens[j]);
      }
      assert tokens[..|tokens|] == tokens;
    }

    /** The filtered write loop over `counter.items()`. */
    method WriteItems(minFreq: int) returns (written: seq<string>)
      requires Valid()
      ensures written == Lines(Written(seen, minFreq), Tally(seen))
    {
      TallyCounts(seen);
      FirstOrderMembers(seen);
      assert forall k :: 0 <= k < |order| ==> order[k] in counts;
      written := [];
      for k := 0 to |order|
        invariant written == Lines(Kept(order[..k], counts, minFreq), counts)
      {
        assert order[..k + 1][..k] == order[..k];
        var word := order[k];
        var freq := counts[word];
        if freq >= minFreq {
          ghost var kept := Kept(order[..k], counts, minFreq);
          LinesAppend(kept, counts, word);
          written := written + [VocabLine(word, freq)];
        }
      }
      assert order[..|order|] == order;
    }
  }

  /** `build_vocab`, with the corpus as its lines and the vocabulary file as
      the lines it writes: `counter.update` on every line, then the filtered
      write loop over `counter.items()`. */
  method BuildVocab(lines: seq<string>, minFreq: int) returns (written: seq<string>)
    ensures written == VocabFile(lines, minFreq)
  {
    var counter := new Counter();
    for i := 0 to |lines|
      invariant counter.Valid() && counter.seen == AllTokens(lines[..i])
    {
      assert lines[..i + 1][..i] == lines[..i];
      counter.Update(Fields(lines[i]));
    }
    assert lines[..|lines|] == lines;
    written := counter.WriteItems(minFreq);
  }

  /** A word is written exactly when it occurs in the corpus at least
      `minFreq` times, and it is written with its number of occurrences. */
  lemma WrittenWords(lines: seq<string>, minFreq: int)
    ensures forall w :: w in Written(AllTokens(lines), minFreq) <==>
      w in AllTokens(lines) && multiset(AllTokens(lines))[w] >= minFreq
    ensures forall k :: 0 <= k < |VocabFile(lines, minFreq)| ==>
      var w := Written(AllTokens(lines), minFreq)[k];
      VocabFile(lines, minFreq)[k] == VocabLine(w, multiset(AllTokens(lines))[w])
  {
    var tokens := AllTokens(lines);
    TallyCounts(tokens);
    FirstOrderMembers(tokens);
    KeptMembers(FirstOrder(tokens), Tally(tokens), minFreq);
  }

  /** With `min_freq = 1` every seen token is written. */
  lemma AllSeenWritten(lines: seq<string>)
    ensures forall w :: w in Written(AllTokens(lines), 1) <==> w in AllTokens(lines)
  {
    WrittenWords(lines, 1);
  }

  /** No word is written twice. */
  lemma WrittenOnce(lines: seq<string>, minFreq: int)
    ensures forall i, j :: 0 <= i < j < |Written(AllTokens(lines), minFreq)| ==>
      Written(AllTokens(lines), minFreq)[i] != Written(AllTokens(lines), minFreq)[j]
  {
    var tokens := AllTokens(lines);
    FirstOrderMembers(tokens);
    KeptDistinct(FirstOrder(tokens), Tally(tokens), minFreq);
  }

  /** The words are written in the order of their first occurrence in the corpus. */
  lemma WrittenInFirstOccurrenceOrder(lines: seq<string>, minFreq: int)
    ensures forall w :: w in Written(AllTokens(lines), minFreq) ==> w in AllTokens(lines)
    ensures forall i, j :: 0 <= i < j < |Written(AllTokens(lines), minFreq)| ==>
      FirstIndex(AllTokens(lines), Written(AllTokens(lines), minFreq)[i])
        < FirstIndex(AllTokens(lines), Written(AllTokens(lines), minFreq)[j])
  {
    var tokens := AllTokens(lines);
    FirstOrderIsFirstOccurrence(tokens);
    KeptSorted(FirstOrder(tokens), Tally(tokens), minFreq, tokens);
  }

  /** The sum of the counts of `words`. */
  function SumFreq(words: seq<string>, counts: map<string, nat>): nat {
    if |words| == 0 then 0
    else SumFreq(words[..|words| - 1], counts) + Freq(counts, words[|words| - 1])
  }

  /** Incrementing one word's count adds one to the sum over distinct words
      containing it, and nothing to a sum over words without it. */
  lemma {:induction false} SumFreqIncrement(words: seq<string>, counts: map<string, nat>, x: string)
    requires forall i, j :: 0 <= i < j < |words| ==> words[i] != words[j]
    ensures SumFreq(words, counts[x := Freq(counts, x) + 1]) == SumFreq(words, counts) + (if x in words then 1 else 0)
  {
    if |words| > 0 {
      var n := |words| - 1;
      SumFreqIncrement(words[..n], counts, x);
      assert words == words[..n] + [words[n]];
      assert words[n] !in words[..n];
    }
  }

  /** Every seen word, with its count, sums to the number of tokens. */
  lemma {:induction false} SumOfCounts(tokens: seq<string>)
    ensures SumFreq(FirstOrder(tokens), Tally(tokens)) == |tokens|
  {
    if |tokens| > 0 {
      var n := |tokens| - 1;
      var prefix := tokens[..n];
      SumOfCounts(prefix);
      FirstOrderMembers(prefix);
      TallyCounts(prefix);
      var order := FirstOrder(prefix);
      SumFreqIncrement(order, Tally(prefix), tokens[n]);
      if tokens[n] !in order {
        assert (order + [tokens[n]])[..|order|] == order;
      }
    }
  }

  /** Every seen word reaches `minFreq` when it is at most 1, so nothing is filtered. */
  lemma {:induction false} KeptAll(order: seq<string>, counts: map<string, nat>, minFreq: int)
    requires minFreq <= 1
    requires forall w :: w in order ==> Freq(counts, w) >= 1
    ensures Kept(order, counts, minFreq) == order
  {
    if |order| > 0 {
      var n := |order| - 1;
      KeptAll(order[..n], counts, minFreq);
      assert order[n] in order;
      assert order == order[..n] + [order[n]];
    }
  }

  /** With `min_freq` at most 1 the written counts add up to the corpus's token count. */
  lemma TotalCount(lines: seq<string>, minFreq: int)
    requires minFreq <= 1
    ensures SumFreq(Written(AllTokens(lines), minFreq), Tally(AllTokens(lines))) == |AllTokens(lines)|
  {
    var tokens := AllTokens(lines);
    TallyCounts(tokens);
    FirstOrderMembers(tokens);
    forall w | w in FirstOrder(tokens) ensures Freq(Tally(tokens), w) >= 1 {
      assert w in multiset(tokens);
    }
    KeptAll(FirstOrder(tokens), Tally(tokens), minFreq);
    SumOfCounts(tokens);
  }

  /** A vocabulary line reads back, split on the tab, as the word and its
      count: `word, freq = line.split('\t')` and `int(freq) == freq` for a
      count within the digit limit. */
  lemma LineRoundTrip(word: string, freq: nat)
    requires NoSpace(word)
    ensures SplitOn(VocabLine(word, freq), '\t') == [word, NatToString(freq)]
    ensures WithinStrDigits(freq) ==> ParseInt(NatToString(freq)) == Some(freq)
  {
    var digits := NatToString(freq);
    assert forall i :: 0 <= i < |word| ==> word[i] != '\t';
    assert forall i :: 0 <= i < |digits| ==> digits[i] != '\t';
    assert Join([word, digits], '\t') == VocabLine(word, freq);
    SplitOnUnique(VocabLine(word, freq), '\t', [word, digits]);
    IntToStringRoundTrip(freq);
  }
}
