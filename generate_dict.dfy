/** The word dictionary (generate_dict.py): the words of the intersection
    vocabulary file, one per non-blank line, numbered from 1 so that 0 stays
    free for padding. */
module GenerateDict {

  import opened Text

  /** The words the reading loop keeps: every line stripped, the empty ones left out. */
  function Vocabulary(lines: seq<string>): (v: seq<string>)
    ensures |v| <= |lines|
  {
    if |lines| == 0 then []
    else
      var n := |lines| - 1;
      var word := Strip(lines[n]);
      Vocabulary(lines[..n]) + (if word != [] then [word] else [])
  }

  /** The kept words are exactly the non-blank lines, stripped, one per such
      line; their order is stated by `VocabularyAppend` and `VocabularyOne`. */
  lemma {:induction false} VocabularySpec(lines: seq<string>)
    ensures forall k :: 0 <= k < |Vocabulary(lines)| ==> Vocabulary(lines)[k] != []
    ensures forall w :: w in Vocabulary(lines) <==> exists i :: 0 <= i < |lines| && Strip(lines[i]) == w && w != []
    ensures |Vocabulary(lines)| == |lines| - BlankCount(lines)
  {
    if |lines| > 0 {
      var n := |lines| - 1;
      var prefix := lines[..n];
      VocabularySpec(prefix);
      assert forall i :: 0 <= i < n ==> prefix[i] == lines[i];
    }
  }

  /** Reading keeps file order: the words of two files read one after the
      other are the words of their concatenation. */
  lemma {:induction false} VocabularyAppend(a: seq<string>, b: seq<string>)
    ensures Vocabulary(a + b) == Vocabulary(a) + Vocabulary(b)
  {
    if |b| > 0 {
      var n := |b| - 1;
      VocabularyAppend(a, b[..n]);
      assert (a + b)[..|a + b| - 1] == a + b[..n];
      assert (a + b)[|a + b| - 1] == b[n];
    } else {
      assert a + b == a;
    }
  }

  /** A single line gives its stripped text, or nothing when that is empty. */
  lemma VocabularyOne(line: string)
    ensures Vocabulary([line]) == if Strip(line) != [] then [Strip(line)] else []
  {
    assert [line][..0] == [];
  }

  /** The number of lines that are empty once stripped. */
  function BlankCount(lines: seq<string>): nat {
    if |lines| == 0 then 0
    else BlankCount(lines[..|lines| - 1]) + (if Strip(lines[|lines| - 1]) == [] then 1 else 0)
  }

  /** A file of words without whitespace, one per line, is read back as
      exactly those words. */
  lemma {:induction false} VocabularyOfWords(words: seq<string>)
    requires forall k :: 0 <= k < |words| ==> words[k] != [] && NoSpace(words[k])
    ensures Vocabulary(words) == words
  {
    if |words| > 0 {
      var n := |words| - 1;
      VocabularyOfWords(words[..n]);
      StripUnchanged(words[n]);
      assert words == words[..n] + [words[n]];
    }
  }

  /** The reading loop of `generate_dictionary`. */
  method ReadVocabulary(lines: seq<string>) returns (vocabulary: seq<string>)
    ensures vocabulary == Vocabulary(lines)
  {
    vocabulary := [];
    for i := 0 to |lines|
      invariant vocabulary == Vocabulary(lines[..i])
    {
      assert lines[..i + 1][..i] == lines[..i];
      var word := Strip(lines[i]);
      if word != [] {
        vocabulary := vocabulary + [word];
      }
    }
    assert lines[..|lines|] == lines;
  }

  /** `{word: idx + 1 for idx, word in enumerate(vocabulary)}`: the entries are
      inserted in order, so a later occurrence of a word overwrites an earlier one. */
  function WordDict(vocabulary: seq<string>): map<string, int> {
    if |vocabulary| == 0 then map[]
    else
      var n := |vocabulary| - 1;
      WordDict(vocabulary[..n])[vocabulary[n] := n + 1]
  }

  /** The keys are the vocabulary's words. */
  lemma {:induction false} WordDictKeys(vocabulary: seq<string>)
    ensures forall w :: w in WordDict(vocabulary) <==> w in vocabulary
  {
    if |vocabulary| > 0 {
      var n := |vocabulary| - 1;
      WordDictKeys(vocabulary[..n]);
      assert vocabulary == vocabulary[..n] + [vocabulary[n]];
    }
  }

  /** A word's value is one more than the index of its last occurrence, so
      every value lies in 1..len(vocabulary) and 0 is never used. */
  lemma {:induction false} WordDictLastWins(vocabulary: seq<string>)
    ensures forall w :: w in WordDict(vocabulary) ==>
      var i := WordDict(vocabulary)[w];
      && 1 <= i <= |vocabulary|
      && vocabulary[i - 1] == w
      && forall j :: i <= j < |vocabulary| ==> vocabulary[j] != w
  {
    if |vocabulary| > 0 {
      var n := |vocabulary| - 1;
      var prefix := vocabulary[..n];
      WordDictLastWins(prefix);
      assert forall i :: 0 <= i < n ==> prefix[i] == vocabulary[i];
    }
  }

  /** Whether no word occurs twice. */
  predicate Distinct(s: seq<string>) {
    forall i, j :: 0 <= i < j < |s| ==> s[i] != s[j]
  }

  /** Without repeated words the k-th word gets k + 1, there are as many
      entries as words, and the values are exactly 1..count. */
  lemma DistinctNumbering(vocabulary: seq<string>)
    requires Distinct(vocabulary)
    ensures forall k :: 0 <= k < |vocabulary| ==> vocabulary[k] in WordDict(vocabulary) && WordDict(vocabulary)[vocabulary[k]] == k + 1
    ensures forall v :: v in WordDict(vocabulary).Values <==> 1 <= v <= |vocabulary|
    ensures |WordDict(vocabulary)| == |vocabulary|
  {
    WordDictKeys(vocabulary);
    WordDictLastWins(vocabulary);
    var d := WordDict(vocabulary);
    forall k | 0 <= k < |vocabulary| ensures d[vocabulary[k]] == k + 1 {
      var i := d[vocabulary[k]];
      assert vocabulary[i - 1] == vocabulary[k];
    }
    forall i | 1 <= i <= |vocabulary| ensures i in d.Values {
      assert vocabulary[i - 1] in d && d[vocabulary[i - 1]] == i;
    }
    DistinctKeyCount(vocabulary);
  }

  /** Distinct words give as many dictionary entries. */
  lemma {:induction false} DistinctKeyCount(vocabulary: seq<string>)
    requires Distinct(vocabulary)
    ensures |WordDict(vocabulary)| == |vocabulary|
  {
    if |vocabulary| > 0 {
      var n := |vocabulary| - 1;
      var prefix := vocabulary[..n];
      DistinctKeyCount(prefix);
      WordDictKeys(prefix);
      assert vocabulary[n] !in prefix by {
        forall i | 0 <= i < n ensures prefix[i] != vocabulary[n] {
          assert prefix[i] == vocabulary[i];
        }
      }
    }
  }

  /** `generate_dictionary`, without the JSON dump: the dictionary of the
      vocabulary file's lines. */
  method GenerateDictionary(lines: seq<string>) returns (wordDict: map<string, int>)
    ensures wordDict == WordDict(Vocabulary(lines))
  {
    var vocabulary := ReadVocabulary(lines);
    wordDict := WordDict(vocabulary);
  }

  /** The dictionary's keys are the non-blank stripped lines, each mapped to
      its 1-based position among the kept lines (the last one for a repeat). */
  lemma GeneratedDictionary(lines: seq<string>)
    ensures forall w :: w in WordDict(Vocabulary(lines)) <==> exists i :: 0 <= i < |lines| && Strip(lines[i]) == w && w != []
    ensures forall w :: w in WordDict(Vocabulary(lines)) ==> WordDict(Vocabulary(lines))[w] >= 1
  {
    VocabularySpec(lines);
    WordDictKeys(Vocabulary(lines));
    WordDictLastWins(Vocabulary(lines));
  }
}
