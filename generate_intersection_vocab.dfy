/** The intersection vocabulary (generate_intersection_vocab.py): the words
    that have both a GloVe vector and a word2vec vector, written one per line
    in ascending order. The word2vec vocabulary is given as a set. */
module IntersectionVocab {

  import opened Errors
  import opened Text
  import opened Ordering
  import GenerateDict

  /** The GloVe loop over the lines' fields: each row's first field is added
      to the set; a row without fields raises IndexError at `split()[0]`. */
  function FirstWords(rows: seq<seq<string>>): Result<set<string>> {
    if |rows| == 0 then Ok({})
    else
      var n := |rows| - 1;
      var prev := FirstWords(rows[..n]);
      if prev.Err? then prev
      else if |rows[n]| == 0 then Err(BlankLine(n))
      else Ok(prev.value + {rows[n][0]})
  }

  /** The GloVe vocabulary of a vectors file: `line.strip().split()[0]` of every line. */
  function GloveVocab(lines: seq<string>): Result<set<string>> {
    FirstWords(FieldRows(lines))
  }

  /** Reading succeeds exactly when no row is empty. */
  lemma {:induction false} FirstWordsOk(rows: seq<seq<string>>)
    ensures FirstWords(rows).Ok? <==> forall i :: 0 <= i < |rows| ==> rows[i] != []
  {
    if |rows| > 0 {
      var n := |rows| - 1;
      var prefix := rows[..n];
      FirstWordsOk(prefix);
      assert forall i :: 0 <= i < n ==> prefix[i] == rows[i];
    }
  }

  /** A failed read reports the first empty row. */
  lemma {:induction false} FirstWordsFailsAt(rows: seq<seq<string>>)
    requires FirstWords(rows).Err?
    ensures exists i :: (0 <= i < |rows| && FirstWords(rows).error == BlankLine(i) && rows[i] == []
        && forall j :: 0 <= j < i ==> rows[j] != [])
  {
    var n := |rows| - 1;
    var prefix := rows[..n];
    assert forall j :: 0 <= j < n ==> prefix[j] == rows[j];
    if FirstWords(prefix).Err? {
      FirstWordsFailsAt(prefix);
    } else {
      FirstWordsOk(prefix);
    }
  }

  /** The set holds exactly the rows' first fields. */
  lemma {:induction false} FirstWordsMembers(rows: seq<seq<string>>)
    requires FirstWords(rows).Ok?
    ensures forall w :: w in FirstWords(rows).value <==> exists i :: 0 <= i < |rows| && rows[i] != [] && rows[i][0] == w
  {
    if |rows| > 0 {
      var n := |rows| - 1;
      var prefix := rows[..n];
      FirstWordsMembers(prefix);
      assert forall i :: 0 <= i < n ==> prefix[i] == rows[i];
    }
  }

  /** An empty row in a prefix is the error of the whole file. */
  lemma {:induction false} FirstWordsStops(rows: seq<seq<string>>, i: nat)
    requires i <= |rows| && FirstWords(rows[..i]).Err?
    ensures FirstWords(rows) == FirstWords(rows[..i])
    decreases |rows| - i
  {
    if i < |rows| {
      var n := |rows| - 1;
      assert rows[..n][..i] == rows[..i];
      FirstWordsStops(rows[..n], i);
    } else {
      assert rows[..i] == rows;
    }
  }

  /** Reading a vectors file succeeds exactly when no line is blank. */
  lemma GloveVocabOk(lines: seq<string>)
    ensures GloveVocab(lines).Ok? <==> forall i :: 0 <= i < |lines| ==> Fields(lines[i]) != []
  {
    var rows := FieldRows(lines);
    FieldRowsLength(lines);
    FirstWordsOk(rows);
    forall i | 0 <= i < |lines| ensures rows[i] == Fields(lines[i]) {
      FieldRowsAt(lines, i);
    }
  }

  /** Every GloVe word is non-empty and free of whitespace. */
  lemma GloveWordsClean(lines: seq<string>)
    requires GloveVocab(lines).Ok?
    ensures forall w :: w in GloveVocab(lines).value ==> w != [] && NoSpace(w)
  {
    var rows := FieldRows(lines);
    FirstWordsMembers(rows);
    FieldRowsClean(lines);
    forall w | w in GloveVocab(lines).value ensures w != [] && NoSpace(w) {
      var i :| 0 <= i < |rows| && rows[i] != [] && rows[i][0] == w;
    }
  }

  /** The GloVe loading loop, adding to `glove_vocab` in place. */
  method LoadGloveVocab(lines: seq<string>) returns (r: Result<set<string>>)
    ensures r == GloveVocab(lines)
  {
    ghost var rows := FieldRows(lines);
    FieldRowsLength(lines);
    var gloveVocab: set<string> := {};
    for i := 0 to |lines|
      invariant FirstWords(rows[..i]) == Ok(gloveVocab)
    {
      assert rows[..i + 1][..i] == rows[..i];
      var fields := Fields(lines[i]);
      FieldRowsAt(lines, i);
      if |fields| == 0 {
        FirstWordsStops(rows, i + 1);
        return Err(BlankLine(i));
      }
      gloveVocab := gloveVocab + {fields[0]};
    }
    assert rows[..|lines|] == rows;
    return Ok(gloveVocab);
  }

  /** What `generate_intersection_vocab` writes and returns: the output lines
      and the size of the intersection. */
  datatype Intersection = Intersection(written: seq<string>, count: nat)

  /** `generate_intersection_vocab`, with the word2vec vocabulary as `w2vVocab`:
      intersect, write the words in ascending order, and return how many. */
  method GenerateIntersectionVocab(gloveLines: seq<string>, w2vVocab: set<string>) returns (r: Result<Intersection>)
    ensures r.Ok? <==> GloveVocab(gloveLines).Ok?
    ensures r.Err? ==> r.error == GloveVocab(gloveLines).error
    ensures r.Ok? ==> StrictlySorted(r.value.written)
    ensures r.Ok? ==> forall w :: w in r.value.written <==> w in GloveVocab(gloveLines).value && w in w2vVocab
    ensures r.Ok? ==> r.value.count == |r.value.written|
  {
    var gloveVocab := LoadGloveVocab(gloveLines);
    if gloveVocab.Err? {
      return Err(gloveVocab.error);
    }
    var intersectionVocab := gloveVocab.value * w2vVocab;
    var written := SortedSet(intersectionVocab);
    return Ok(Intersection(written, |intersectionVocab|));
  }

  /** Every written word is a GloVe word, so non-empty and free of whitespace. */
  lemma WrittenClean(gloveLines: seq<string>, written: seq<string>)
    requires GloveVocab(gloveLines).Ok?
    requires forall w :: w in written ==> w in GloveVocab(gloveLines).value
    ensures forall k :: 0 <= k < |written| ==> written[k] != [] && NoSpace(written[k])
  {
    GloveWordsClean(gloveLines);
    forall k | 0 <= k < |written| ensures written[k] != [] && NoSpace(written[k]) {
      assert written[k] in written;
    }
  }

  /** A strictly sorted sequence repeats no word. */
  lemma SortedDistinct(s: seq<string>)
    requires StrictlySorted(s)
    ensures GenerateDict.Distinct(s)
  {
    forall i, j | 0 <= i < j < |s| ensures s[i] != s[j] {
      LessIrreflexive(s[i]);
    }
  }

  /** Read back by generate_dict.py, the written file numbers the common words
      1, 2, ... in ascending order: every written word is a GloVe first field,
      hence non-empty and free of whitespace, and no word is written twice. */
  lemma DictionaryOfIntersection(gloveLines: seq<string>, w2vVocab: set<string>, written: seq<string>)
    requires GloveVocab(gloveLines).Ok?
    requires StrictlySorted(written)
    requires forall w :: w in written <==> w in GloveVocab(gloveLines).value && w in w2vVocab
    ensures GenerateDict.Vocabulary(written) == written
    ensures forall k :: 0 <= k < |written| ==>
      written[k] in GenerateDict.WordDict(written) && GenerateDict.WordDict(written)[written[k]] == k + 1
  {
    WrittenClean(gloveLines, written);
    GenerateDict.VocabularyOfWords(written);
    SortedDistinct(written);
    GenerateDict.DistinctNumbering(written);
  }
}
