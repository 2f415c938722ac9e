/** The discrete side of training (train_esim.py): reading id rows for the
    dataset, building the word-to-row map and the merged embedding matrix,
    thresholding the network's outputs, and the per-epoch bookkeeping of the
    training loop. The network, the optimiser and the metric computation are
    parameters: their numbers come in as inputs. */
module TrainEsim {

  import opened Errors
  import opened Text
  import opened Padding

  // ----- TextMatchDataset._load_text_data -----

  /** `[int(x) for x in tokens]` for line `lineNo`: evaluated left to right, so
      the first token `int()` refuses is the one reported. */
  function ParseIds(lineNo: nat, tokens: seq<string>): Result<seq<int>>
  {
    if |tokens| == 0 then Ok([])
    else match ParseInt(tokens[0])
      case None => Err(NotAnInteger(lineNo, tokens[0]))
      case Some(v) =>
        var rest := ParseIds(lineNo, tokens[1..]);
        if rest.Err? then rest else Ok([v] + rest.value)
  }

  /** The ids are the tokens' values, one each; otherwise the error names the
      first token `int()` refuses. */
  lemma {:induction false} ParseIdsSpec(lineNo: nat, tokens: seq<string>)
    ensures var r := ParseIds(lineNo, tokens);
      r.Ok? ==> |r.value| == |tokens| && forall k :: 0 <= k < |tokens| ==> ParseInt(tokens[k]) == Some(r.value[k])
    ensures var r := ParseIds(lineNo, tokens);
      r.Err? <==> exists k :: 0 <= k < |tokens| && ParseInt(tokens[k]).None?
    ensures var r := ParseIds(lineNo, tokens);
      r.Err? ==> exists k :: (0 <= k < |tokens| && r.error == NotAnInteger(lineNo, tokens[k]) && ParseInt(tokens[k]).None?
        && forall j :: 0 <= j < k ==> ParseInt(tokens[j]).Some?)
  {
    if |tokens| > 0 && ParseInt(tokens[0]).Some? {
      var tail := tokens[1..];
      ParseIdsSpec(lineNo, tail);
      assert forall k :: 0 <= k < |tail| ==> tail[k] == tokens[k + 1];
      var rest := ParseIds(lineNo, tail);
      if rest.Err? {
        var k :| 0 <= k < |tail| && rest.error == NotAnInteger(lineNo, tail[k]) && ParseInt(tail[k]).None?
          && forall j :: 0 <= j < k ==> ParseInt(tail[j]).Some?;
        assert tokens[k + 1] == tail[k];
        assert forall j :: 0 <= j < k + 1 ==> ParseInt(tokens[j]).Some?;
      } else {
        forall k | 0 <= k < |tokens| ensures ParseInt(tokens[k]).Some? {
          if k > 0 { assert tokens[k] == tail[k - 1]; }
        }
      }
    }
  }

  /** The rows read so far from the lines' fields, each fitted to `maxLen`;
      the first row with a token `int()` refuses stops the loop. */
  function ParseRows(rows: seq<seq<string>>, maxLen: nat): Result<seq<seq<int>>>
  {
    if |rows| == 0 then Ok([])
    else
      var n := |rows| - 1;
      var prev := ParseRows(rows[..n], maxLen);
      if prev.Err? then prev
      else
        var ids := ParseIds(n, rows[n]);
        if ids.Err? then Err(ids.error)
        else Ok(prev.value + [Fit(ids.value, maxLen)])
  }

  /** The rows of a file of `lines`: `line.strip().split()` of every line, parsed. */
  function ParseLines(lines: seq<string>, maxLen: nat): Result<seq<seq<int>>> {
    ParseRows(FieldRows(lines), maxLen)
  }

  /** One result row per row, each the row's ids fitted to `maxLen`; otherwise
      the error of the first row that does not parse. */
  lemma {:induction false} ParseRowsSpec(rows: seq<seq<string>>, maxLen: nat)
    ensures var r := ParseRows(rows, maxLen);
      r.Ok? ==> |r.value| == |rows| && forall i :: 0 <= i < |rows| ==>
        ParseIds(i, rows[i]).Ok? && r.value[i] == Fit(ParseIds(i, rows[i]).value, maxLen)
    ensures var r := ParseRows(rows, maxLen);
      r.Err? ==> exists i :: (0 <= i < |rows| && ParseIds(i, rows[i]) == Err(r.error)
        && forall j :: 0 <= j < i ==> ParseIds(j, rows[j]).Ok?)
  {
    if |rows| > 0 {
      var n := |rows| - 1;
      ParseRowsSpec(rows[..n], maxLen);
      assert forall i :: 0 <= i < n ==> rows[..n][i] == rows[i];
    }
  }

  /** Once a prefix of the file has failed, the rest of the file is never read. */
  lemma {:induction false} ParseRowsStops(rows: seq<seq<string>>, i: nat, maxLen: nat)
    requires i <= |rows|
    requires ParseRows(rows[..i], maxLen).Err?
    ensures ParseRows(rows, maxLen) == ParseRows(rows[..i], maxLen)
    decreases |rows| - i
  {
    if i < |rows| {
      var n := |rows| - 1;
      assert rows[..n][..i] == rows[..i];
      ParseRowsStops(rows[..n], i, maxLen);
    } else {
      assert rows[..i] == rows;
    }
  }

  /** The range of numpy's `int64`. */
  const Int64Min: int := -0x8000_0000_0000_0000
  const Int64Max: int := 0x7FFF_FFFF_FFFF_FFFF

  predicate RowInInt64(row: seq<int>) {
    forall k :: 0 <= k < |row| ==> Int64Min <= row[k] <= Int64Max
  }

  /** The first row holding a value `int64` cannot represent, if any. */
  function FirstWideRow(rows: seq<seq<int>>): (r: Option<nat>)
    ensures r.None? <==> forall i :: 0 <= i < |rows| ==> RowInInt64(rows[i])
    ensures r.Some? ==> r.value < |rows| && !RowInInt64(rows[r.value])
    ensures r.Some? ==> forall i :: 0 <= i < r.value ==> RowInInt64(rows[i])
  {
    if |rows| == 0 then None
    else if !RowInInt64(rows[0]) then Some(0)
    else match FirstWideRow(rows[1..])
      case None =>
        assert forall i :: 1 <= i < |rows| ==> rows[i] == rows[1..][i - 1];
        None
      case Some(i) =>
        assert rows[i + 1] == rows[1..][i];
        assert forall j :: 1 <= j <= i ==> rows[j] == rows[1..][j - 1];
        Some(i + 1)
  }

  /** What `_load_text_data` returns or raises for a file of `lines`: the
      ValueError of the first unparsable line, otherwise the OverflowError of
      `np.array(..., dtype=np.int64)` when a kept id does not fit, otherwise the
      fitted rows. */
  function TextData(lines: seq<string>, maxLen: nat): Result<seq<seq<int>>> {
    match ParseLines(lines, maxLen)
    case Err(e) => Err(e)
    case Ok(rows) =>
      match FirstWideRow(rows)
      case Some(i) => Err(OutOfInt64Range(i))
      case None => Ok(rows)
  }

  /** `TextMatchDataset._load_text_data`: one row per line, each parsed, then
      truncated to its first `maxLen` ids or padded with zeros. */
  method LoadTextData(lines: seq<string>, maxLen: nat) returns (r: Result<seq<seq<int>>>)
    ensures r == TextData(lines, maxLen)
  {
    ghost var rows := FieldRows(lines);
    FieldRowsLength(lines);
    var sequences: seq<seq<int>> := [];
    for i := 0 to |lines|
      invariant ParseRows(rows[..i], maxLen) == Ok(sequences)
    {
      assert rows[..i + 1][..i] == rows[..i];
      var parsed := ParseIds(i, Fields(lines[i]));
      FieldRowsAt(lines, i);
      if parsed.Err? {
        ParseRowsStops(rows, i + 1, maxLen);
        return Err(parsed.error);
      }
      var nums := parsed.value;
      if |nums| > maxLen {
        nums := nums[..maxLen];
      } else {
        nums := nums + seq(maxLen - |nums|, _ => 0);
      }
      sequences := sequences + [nums];
    }
    assert rows[..|lines|] == rows;
    var wide := FirstWideRow(sequences);
    if wide.Some? {
      return Err(OutOfInt64Range(wide.value));
    }
    return Ok(sequences);
  }

  /** The rows of a successfully read file: one per line in file order, each
      exactly `maxLen` long, the line's ids first (only the first `maxLen` of a
      longer line) and zeros after them, every id within `int64`. */
  lemma TextDataShape(lines: seq<string>, maxLen: nat)
    requires TextData(lines, maxLen).Ok?
    ensures |TextData(lines, maxLen).value| == |lines|
    ensures forall i :: 0 <= i < |lines| ==> ParseIds(i, Fields(lines[i])).Ok?
    ensures forall i :: 0 <= i < |lines| ==> |TextData(lines, maxLen).value[i]| == maxLen
    ensures forall i, k :: 0 <= i < |lines| && 0 <= k < maxLen ==>
      var ids := ParseIds(i, Fields(lines[i])).value;
      TextData(lines, maxLen).value[i][k] == (if k < |ids| then ids[k] else 0)
    ensures forall i :: 0 <= i < |lines| ==> RowInInt64(TextData(lines, maxLen).value[i])
  {
    var rows := FieldRows(lines);
    ParseRowsSpec(rows, maxLen);
    FieldRowsLength(lines);
    forall i | 0 <= i < |lines| ensures rows[i] == Fields(lines[i]) {
      FieldRowsAt(lines, i);
    }
  }

  /** A file fails exactly when some line holds a token `int()` refuses or some
      kept id is outside `int64`. Every token is parsed before truncation, so
      an over-long literal fails the file wherever it stands, while an id cut
      off by truncation cannot fail the `int64` check. */
  lemma TextDataFails(lines: seq<string>, maxLen: nat)
    ensures TextData(lines, maxLen).Err? <==>
      || (exists i :: 0 <= i < |lines| && ParseIds(i, Fields(lines[i])).Err?)
      || (exists i :: 0 <= i < |lines| && ParseIds(i, Fields(lines[i])).Ok?
            && !RowInInt64(Fit(ParseIds(i, Fields(lines[i])).value, maxLen)))
  {
    var rows := FieldRows(lines);
    ParseRowsSpec(rows, maxLen);
    FieldRowsLength(lines);
    forall i | 0 <= i < |lines| ensures rows[i] == Fields(lines[i]) {
      FieldRowsAt(lines, i);
    }
  }

  /** A token of more than `MaxStrDigits` digits fails the file, even when it
      stands beyond the first `maxLen` ids of its line. */
  lemma TextDataLongLiteral(lines: seq<string>, maxLen: nat, i: nat, k: nat)
    requires i < |lines| && k < |Fields(lines[i])|
    requires DigitCount(Fields(lines[i])[k]) > MaxStrDigits
    ensures TextData(lines, maxLen).Err?
  {
    ParseIdsSpec(i, Fields(lines[i]));
    TextDataFails(lines, maxLen);
  }

  // ----- load_combined_embeddings -----

  /** `[float(x) for x in xs]`, with the float parser a parameter. */
  function Floats(toReal: string -> real, xs: seq<string>): (v: seq<real>)
    ensures |v| == |xs|
    ensures forall k :: 0 <= k < |xs| ==> v[k] == toReal(xs[k])
  {
    if |xs| == 0 then [] else [toReal(xs[0])] + Floats(toReal, xs[1..])
  }

  /** The GloVe table as the loading loop leaves it: word to vector, and
      `vector_size`, the length of the first line's vector. */
  datatype Glove = Glove(vectors: map<string, seq<real>>, vectorSize: Option<nat>)

  /** The GloVe loading loop over the lines' fields: a row without any field
      raises IndexError at `tokens[0]`; otherwise the first field names the
      word, the others are its vector, and a later row for the same word
      replaces it. */
  function GloveRows(toReal: string -> real, rows: seq<seq<string>>): Result<Glove>
  {
    if |rows| == 0 then Ok(Glove(map[], None))
    else
      var n := |rows| - 1;
      var prev := GloveRows(toReal, rows[..n]);
      if prev.Err? then prev
      else if |rows[n]| == 0 then Err(BlankLine(n))
      else
        var vector := Floats(toReal, rows[n][1..]);
        Ok(Glove(prev.value.vectors[rows[n][0] := vector],
                 if prev.value.vectorSize.None? then Some(|vector|) else prev.value.vectorSize))
  }

  /** The GloVe table of a vectors file: `line.strip().split()` of every line, read. */
  function ReadGlove(toReal: string -> real, lines: seq<string>): Result<Glove> {
    GloveRows(toReal, FieldRows(lines))
  }

  /** Reading succeeds exactly when no row is empty. */
  lemma {:induction false} GloveRowsOk(toReal: string -> real, rows: seq<seq<string>>)
    ensures GloveRows(toReal, rows).Ok? <==> forall i :: 0 <= i < |rows| ==> rows[i] != []
  {
    if |rows| > 0 {
      var n := |rows| - 1;
      var prefix := rows[..n];
      GloveRowsOk(toReal, prefix);
      assert forall i :: 0 <= i < n ==> prefix[i] == rows[i];
    }
  }

  /** Reading a vectors file succeeds exactly when no line is blank. */
  lemma ReadGloveOk(toReal: string -> real, lines: seq<string>)
    ensures ReadGlove(toReal, lines).Ok? <==> forall i :: 0 <= i < |lines| ==> Fields(lines[i]) != []
  {
    var rows := FieldRows(lines);
    FieldRowsLength(lines);
    GloveRowsOk(toReal, rows);
    forall i | 0 <= i < |lines| ensures rows[i] == Fields(lines[i]) {
      FieldRowsAt(lines, i);
    }
  }

  /** A failed read reports the first empty row. */
  lemma {:induction false} GloveRowsFailsAt(toReal: string -> real, rows: seq<seq<string>>)
    requires GloveRows(toReal, rows).Err?
    ensures exists i :: (0 <= i < |rows| && GloveRows(toReal, rows).error == BlankLine(i) && rows[i] == []
        && forall j :: 0 <= j < i ==> rows[j] != [])
  {
    var n := |rows| - 1;
    var prefix := rows[..n];
    assert forall j :: 0 <= j < n ==> prefix[j] == rows[j];
    if GloveRows(toReal, prefix).Err? {
      GloveRowsFailsAt(toReal, prefix);
    } else {
      GloveRowsOk(toReal, prefix);
    }
  }

  /** `vector_size` is None only for an empty file, and is otherwise the
      length of the first row's vector. */
  lemma {:induction false} GloveRowsSize(toReal: string -> real, rows: seq<seq<string>>)
    requires GloveRows(toReal, rows).Ok?
    ensures GloveRows(toReal, rows).value.vectorSize.None? <==> |rows| == 0
    ensures |rows| > 0 ==> GloveRows(toReal, rows).value.vectorSize == Some(|rows[0]| - 1)
  {
    if |rows| > 1 {
      var n := |rows| - 1;
      var prefix := rows[..n];
      GloveRowsSize(toReal, prefix);
      assert prefix[0] == rows[0];
    }
  }

  /** The words of the table are the rows' first fields. */
  lemma {:induction false} GloveRowsWords(toReal: string -> real, rows: seq<seq<string>>)
    requires GloveRows(toReal, rows).Ok?
    ensures forall w :: w in GloveRows(toReal, rows).value.vectors <==>
      exists i :: 0 <= i < |rows| && rows[i] != [] && rows[i][0] == w
  {
    if |rows| > 0 {
      var n := |rows| - 1;
      var prefix := rows[..n];
      GloveRowsWords(toReal, prefix);
      assert forall i :: 0 <= i < n ==> prefix[i] == rows[i];
    }
  }

  /** The vector kept for a word is the one of the last row naming it. */
  lemma {:induction false} GloveRowsLastWins(toReal: string -> real, rows: seq<seq<string>>, i: nat)
    requires i < |rows| && GloveRows(toReal, rows).Ok?
    requires forall j :: 0 <= j < |rows| ==> rows[j] != []
    requires forall j :: i < j < |rows| ==> rows[j][0] != rows[i][0]
    ensures rows[i][0] in GloveRows(toReal, rows).value.vectors
    ensures GloveRows(toReal, rows).value.vectors[rows[i][0]] == Floats(toReal, rows[i][1..])
  {
    var n := |rows| - 1;
    if i < n {
      var prefix := rows[..n];
      assert forall j :: 0 <= j < n ==> prefix[j] == rows[j];
      GloveRowsLastWins(toReal, prefix, i);
    }
  }

  /** A GloVe error in a prefix of the file is the error of the whole file. */
  lemma {:induction false} GloveRowsStops(toReal: string -> real, rows: seq<seq<string>>, i: nat)
    requires i <= |rows|
    requires GloveRows(toReal, rows[..i]).Err?
    ensures GloveRows(toReal, rows) == GloveRows(toReal, rows[..i])
    decreases |rows| - i
  {
    if i < |rows| {
      var n := |rows| - 1;
      assert rows[..n][..i] == rows[..i];
      GloveRowsStops(toReal, rows[..n], i);
    } else {
      assert rows[..i] == rows;
    }
  }

  /** A vector of zeros, the initial content of every matrix row. */
  function Zeros(dim: nat): seq<real>
  {
    seq(dim, _ => 0.0)
  }

  /** `embedding_matrix[i] = v` for a row of length `dim`: numpy accepts a
      vector of the row's length, or of length 1 (broadcast to every entry),
      and raises ValueError for any other length. */
  function Broadcast(v: seq<real>, dim: nat): (r: Option<seq<real>>)
    ensures r.Some? <==> |v| == dim || |v| == 1
    ensures r.Some? ==> |r.value| == dim
    ensures r.Some? && |v| == dim ==> r.value == v
    ensures r.Some? && |v| == 1 ==> forall k :: 0 <= k < dim ==> r.value[k] == v[0]
  {
    if |v| == dim then Some(v)
    else if |v| == 1 then Some(seq(dim, _ => v[0]))
    else None
  }

  /** What `load_combined_embeddings` returns: the matrix, as its rows, and
      `word_to_idx`. */
  datatype Embeddings = Embeddings(matrix: seq<seq<real>>, wordToIdx: map<string, int>)

  /** A vocabulary word with a vector in both sources. */
  predicate InBoth(w2v: map<string, seq<real>>, glove: map<string, seq<real>>, word: string) {
    word in w2v && word in glove
  }

  /** The row numpy writes for a word in both sources, if it can. */
  function MergedRow(w2v: map<string, seq<real>>, glove: map<string, seq<real>>, word: string, dim: nat): Option<seq<real>>
    requires InBoth(w2v, glove, word)
  {
    Broadcast(w2v[word] + glove[word], dim)
  }

  /** The merge loop over the vocabulary (`enumerate(vocab, 1)`): the matrix
      starts as `len(vocab) + 1` zero rows of width `dim`; the row of a word in
      both sources is set to the two vectors concatenated and the word is
      mapped to its 1-based position; every other row stays zero. */
  function Merge(w2v: map<string, seq<real>>, glove: map<string, seq<real>>, vocab: seq<string>, dim: nat)
    : Result<Embeddings>
  {
    if |vocab| == 0 then Ok(Embeddings([Zeros(dim)], map[]))
    else
      var n := |vocab|;
      var prev := Merge(w2v, glove, vocab[..n - 1], dim);
      var word := vocab[n - 1];
      if prev.Err? then prev
      else if InBoth(w2v, glove, word) then
        match MergedRow(w2v, glove, word, dim)
        case None => Err(ShapeMismatch(n))
        case Some(row) => Ok(Embeddings(prev.value.matrix + [row], prev.value.wordToIdx[word := n]))
      else
        Ok(Embeddings(prev.value.matrix + [Zeros(dim)], prev.value.wordToIdx))
  }

  /** The matrix has `len(vocab) + 1` rows of width `dim`; row 0 and the row of
      every word missing from either source are zero; the row of a word in
      both is its merged vector. */
  lemma {:induction false} MergeRows(w2v: map<string, seq<real>>, glove: map<string, seq<real>>, vocab: seq<string>, dim: nat)
    requires Merge(w2v, glove, vocab, dim).Ok?
    ensures |Merge(w2v, glove, vocab, dim).value.matrix| == |vocab| + 1
    ensures Merge(w2v, glove, vocab, dim).value.matrix[0] == Zeros(dim)
    ensures forall i :: 1 <= i <= |vocab| && !InBoth(w2v, glove, vocab[i - 1]) ==>
      Merge(w2v, glove, vocab, dim).value.matrix[i] == Zeros(dim)
    ensures forall i :: 1 <= i <= |vocab| && InBoth(w2v, glove, vocab[i - 1]) ==>
      MergedRow(w2v, glove, vocab[i - 1], dim) == Some(Merge(w2v, glove, vocab, dim).value.matrix[i])
    ensures forall i :: 0 <= i <= |vocab| ==> |Merge(w2v, glove, vocab, dim).value.matrix[i]| == dim
  {
    if |vocab| > 0 {
      var n := |vocab|;
      var prefix := vocab[..n - 1];
      MergeRows(w2v, glove, prefix, dim);
      assert forall i :: 0 <= i < n - 1 ==> prefix[i] == vocab[i];
      var before := Merge(w2v, glove, prefix, dim).value.matrix;
      var after := Merge(w2v, glove, vocab, dim).value.matrix;
      var word := vocab[n - 1];
      if InBoth(w2v, glove, word) {
        assert after == before + [MergedRow(w2v, glove, word, dim).value];
      } else {
        assert after == before + [Zeros(dim)];
      }
      assert forall i :: 0 <= i < n ==> after[i] == before[i];
    }
  }

  /** `word_to_idx` maps exactly the vocabulary words found in both sources. */
  lemma {:induction false} MergeKeys(w2v: map<string, seq<real>>, glove: map<string, seq<real>>, vocab: seq<string>, dim: nat)
    requires Merge(w2v, glove, vocab, dim).Ok?
    ensures forall w :: w in Merge(w2v, glove, vocab, dim).value.wordToIdx <==> w in vocab && InBoth(w2v, glove, w)
  {
    if |vocab| > 0 {
      var n := |vocab|;
      var prefix := vocab[..n - 1];
      MergeKeys(w2v, glove, prefix, dim);
      assert vocab == prefix + [vocab[n - 1]];
    }
  }

  /** Each word of `word_to_idx` is mapped to the 1-based position of its last
      occurrence in the vocabulary. */
  lemma {:induction false} MergeIds(w2v: map<string, seq<real>>, glove: map<string, seq<real>>, vocab: seq<string>, dim: nat)
    requires Merge(w2v, glove, vocab, dim).Ok?
    ensures forall w :: w in Merge(w2v, glove, vocab, dim).value.wordToIdx ==>
      var i := Merge(w2v, glove, vocab, dim).value.wordToIdx[w];
      && 1 <= i <= |vocab|
      && vocab[i - 1] == w
      && forall j :: i <= j < |vocab| ==> vocab[j] != w
  {
    if |vocab| > 0 {
      var n := |vocab|;
      var prefix := vocab[..n - 1];
      MergeIds(w2v, glove, prefix, dim);
      MergeKeys(w2v, glove, prefix, dim);
      var word := vocab[n - 1];
      var before := Merge(w2v, glove, prefix, dim).value.wordToIdx;
      var after := Merge(w2v, glove, vocab, dim).value.wordToIdx;
      assert after == if InBoth(w2v, glove, word) then before[word := n] else before;
      forall w | w in after
        ensures var i := after[w]; 1 <= i <= n && vocab[i - 1] == w && forall j :: i <= j < n ==> vocab[j] != w
      {
        if w != word || !InBoth(w2v, glove, word) {
          assert w in before && after[w] == before[w];
          var i := before[w];
          assert prefix[i - 1] == vocab[i - 1];
          assert forall j :: i <= j < n - 1 ==> prefix[j] == vocab[j];
        }
      }
    }
  }

  /** The merge fails exactly at a word in both sources whose merged vector
      numpy cannot write into a row of width `dim`, and at the first such word. */
  lemma {:induction false} MergeFails(w2v: map<string, seq<real>>, glove: map<string, seq<real>>, vocab: seq<string>, dim: nat)
    ensures Merge(w2v, glove, vocab, dim).Err? <==>
      exists i :: 0 <= i < |vocab| && InBoth(w2v, glove, vocab[i]) && MergedRow(w2v, glove, vocab[i], dim).None?
    ensures Merge(w2v, glove, vocab, dim).Err? ==>
      exists i :: (1 <= i <= |vocab| && Merge(w2v, glove, vocab, dim).error == ShapeMismatch(i)
        && InBoth(w2v, glove, vocab[i - 1]) && MergedRow(w2v, glove, vocab[i - 1], dim).None?
        && forall j :: 0 <= j < i - 1 && InBoth(w2v, glove, vocab[j]) ==> MergedRow(w2v, glove, vocab[j], dim).Some?)
  {
    if |vocab| > 0 {
      var n := |vocab|;
      var prefix := vocab[..n - 1];
      MergeFails(w2v, glove, prefix, dim);
      assert forall i :: 0 <= i < n - 1 ==> prefix[i] == vocab[i];
    }
  }

  /** Distinct words get distinct rows, and no word gets row 0, the padding row. */
  lemma WordIdsDistinct(w2v: map<string, seq<real>>, glove: map<string, seq<real>>, vocab: seq<string>, dim: nat)
    requires Merge(w2v, glove, vocab, dim).Ok?
    ensures var ids := Merge(w2v, glove, vocab, dim).value.wordToIdx;
      forall a, b :: a in ids && b in ids && a != b ==> ids[a] != ids[b]
    ensures var ids := Merge(w2v, glove, vocab, dim).value.wordToIdx;
      forall w :: w in ids ==> ids[w] >= 1
  {
    MergeIds(w2v, glove, vocab, dim);
  }

  /** A shape error at a vocabulary word ends the merge with that error. */
  lemma {:induction false} MergeStops(w2v: map<string, seq<real>>, glove: map<string, seq<real>>, vocab: seq<string>, i: nat, dim: nat)
    requires 1 <= i <= |vocab|
    requires Merge(w2v, glove, vocab[..i - 1], dim).Ok?
    requires InBoth(w2v, glove, vocab[i - 1]) && MergedRow(w2v, glove, vocab[i - 1], dim).None?
    ensures Merge(w2v, glove, vocab, dim) == Err(ShapeMismatch(i))
    decreases |vocab| - i
  {
    var n := |vocab|;
    if i < n {
      var prefix := vocab[..n - 1];
      assert prefix[..i - 1] == vocab[..i - 1];
      assert prefix[i - 1] == vocab[i - 1];
      MergeStops(w2v, glove, prefix, i, dim);
    } else {
      assert vocab[..i] == vocab;
      assert vocab[..n - 1] == vocab[..i - 1];
    }
  }

  /** `[line.strip() for line in f]`. */
  function StripAll(lines: seq<string>): (r: seq<string>)
    ensures |r| == |lines| && forall i :: 0 <= i < |lines| ==> r[i] == Strip(lines[i])
  {
    if |lines| == 0 then [] else StripAll(lines[..|lines| - 1]) + [Strip(lines[|lines| - 1])]
  }

  /** What `load_combined_embeddings` returns or raises, for the word2vec
      vectors `w2v` of size `w2vSize`, the GloVe file and the vocabulary file:
      a GloVe error first; TypeError when the GloVe file is empty, since
      `vector_size` is then still None; otherwise the merge. */
  function CombinedEmbeddings(w2v: map<string, seq<real>>, w2vSize: nat, toReal: string -> real,
                              gloveLines: seq<string>, vocabLines: seq<string>): Result<Embeddings>
  {
    match ReadGlove(toReal, gloveLines)
    case Err(e) => Err(e)
    case Ok(g) =>
      if g.vectorSize.None? then Err(MissingVectorSize)
      else Merge(w2v, g.vectors, StripAll(vocabLines), w2vSize + g.vectorSize.value)
  }

  /** The GloVe loading loop of `load_combined_embeddings`. */
  method LoadGlove(toReal: string -> real, gloveLines: seq<string>) returns (r: Result<Glove>)
    ensures r == ReadGlove(toReal, gloveLines)
  {
    ghost var rows := FieldRows(gloveLines);
    FieldRowsLength(gloveLines);
    var gloveVectors: map<string, seq<real>> := map[];
    var vectorSize: Option<nat> := None;
    for i := 0 to |gloveLines|
      invariant GloveRows(toReal, rows[..i]) == Ok(Glove(gloveVectors, vectorSize))
    {
      assert rows[..i + 1][..i] == rows[..i];
      var tokens := Fields(gloveLines[i]);
      FieldRowsAt(gloveLines, i);
      if |tokens| == 0 {
        GloveRowsStops(toReal, rows, i + 1);
        return Err(BlankLine(i));
      }
      var word := tokens[0];
      var vector := Floats(toReal, tokens[1..]);
      if vectorSize.None? {
        vectorSize := Some(|vector|);
      }
      gloveVectors := gloveVectors[word := vector];
    }
    assert rows[..|gloveLines|] == rows;
    return Ok(Glove(gloveVectors, vectorSize));
  }

  /** The merge loop of `load_combined_embeddings`, writing the rows of a
      zero-initialised matrix in place. */
  method MergeVectors(w2v: map<string, seq<real>>, glove: map<string, seq<real>>, vocab: seq<string>, dim: nat)
    returns (r: Result<Embeddings>)
    ensures r == Merge(w2v, glove, vocab, dim)
  {
    var matrix := new seq<real>[|vocab| + 1](_ => Zeros(dim));
    var wordToIdx: map<string, int> := map[];
    assert matrix[..1] == [Zeros(dim)];
    for i := 1 to |vocab| + 1
      invariant Merge(w2v, glove, vocab[..i - 1], dim) == Ok(Embeddings(matrix[..i], wordToIdx))
      invariant forall k :: i <= k < matrix.Length ==> matrix[k] == Zeros(dim)
    {
      ghost var before := matrix[..i];
      assert vocab[..i][..i - 1] == vocab[..i - 1];
      var word := vocab[i - 1];
      if InBoth(w2v, glove, word) {
        var row := Broadcast(w2v[word] + glove[word], dim);
        if row.None? {
          MergeStops(w2v, glove, vocab, i, dim);
          return Err(ShapeMismatch(i));
        }
        matrix[i] := row.value;
        wordToIdx := wordToIdx[word := i];
      }
      assert matrix[..i + 1] == before + [matrix[i]];
    }
    assert vocab[..|vocab|] == vocab;
    assert matrix[..] == matrix[..|vocab| + 1];
    return Ok(Embeddings(matrix[..], wordToIdx));
  }

  /** `load_combined_embeddings`, with the word2vec model given as its vectors
      and its `vector_size`, and float parsing as `toReal`. */
  method LoadCombinedEmbeddings(w2v: map<string, seq<real>>, w2vSize: nat, toReal: string -> real,
                                gloveLines: seq<string>, vocabLines: seq<string>)
    returns (r: Result<Embeddings>)
    ensures r == CombinedEmbeddings(w2v, w2vSize, toReal, gloveLines, vocabLines)
  {
    var glove := LoadGlove(toReal, gloveLines);
    if glove.Err? {
      return Err(glove.error);
    }
    var vocab := StripAll(vocabLines);
    if glove.value.vectorSize.None? {
      return Err(MissingVectorSize);
    }
    var dim := w2vSize + glove.value.vectorSize.value;
    r := MergeVectors(w2v, glove.value.vectors, vocab, dim);
  }

  // ----- evaluate -----

  /** `(outputs > 0.5).float()` for one output. */
  function Threshold(output: real): real {
    if output > 0.5 then 1.0 else 0.0
  }

  /** The batches laid end to end, as `list.extend` builds them. */
  function Concat(batches: seq<seq<real>>): seq<real>
  {
    if |batches| == 0 then [] else Concat(batches[..|batches| - 1]) + batches[|batches| - 1]
  }

  /** The prediction and label lists `evaluate` hands to the metric functions,
      for the network's outputs and the labels of each batch. */
  method CollectPredictions(outputs: seq<seq<real>>, labels: seq<seq<real>>)
    returns (predictions: seq<real>, trueLabels: seq<real>)
    requires |outputs| == |labels|
    ensures |predictions| == |Concat(outputs)|
    ensures forall k :: 0 <= k < |predictions| ==> (predictions[k] == 1.0 <==> Concat(outputs)[k] > 0.5)
    ensures forall k :: 0 <= k < |predictions| ==> (predictions[k] == 0.0 <==> Concat(outputs)[k] <= 0.5)
    ensures trueLabels == Concat(labels)
  {
    predictions := [];
    trueLabels := [];
    for b := 0 to |outputs|
      invariant |predictions| == |Concat(outputs[..b])|
      invariant forall k :: 0 <= k < |predictions| ==> predictions[k] == Threshold(Concat(outputs[..b])[k])
      invariant trueLabels == Concat(labels[..b])
    {
      assert outputs[..b + 1][..b] == outputs[..b];
      assert labels[..b + 1][..b] == labels[..b];
      var batch := outputs[b];
      var thresholded := seq(|batch|, k requires 0 <= k < |batch| => Threshold(batch[k]));
      predictions := predictions + thresholded;
      trueLabels := trueLabels + labels[b];
    }
    assert outputs[..|outputs|] == outputs;
    assert labels[..|labels|] == labels;
  }

  // ----- train_model -----

  /** What one epoch produces for the bookkeeping: the loss of each training
      batch and the validation metrics `evaluate` returned. */
  datatype EpochRun = EpochRun(batchLosses: seq<real>, precision: real, recall: real, f1: real)

  /** The fields of the dictionary passed to `torch.save`, without the states. */
  datatype Checkpoint = Checkpoint(epoch: nat, bestF1: real, precision: real, recall: real)

  /** The `history` dictionary. */
  datatype History = History(loss: seq<real>, precision: seq<real>, recall: seq<real>, f1: seq<real>)

  /** The history `train_model` returns, with the checkpoints it saved in
      order and the final `best_f1`. */
  datatype Training = Training(history: History, saves: seq<Checkpoint>, bestF1: real)

  function Sum(xs: seq<real>): real {
    if |xs| == 0 then 0.0 else Sum(xs[..|xs| - 1]) + xs[|xs| - 1]
  }

  /** `avg_loss = total_loss / len(train_loader)`. */
  function AverageLoss(run: EpochRun): real
    requires |run.batchLosses| > 0
  {
    Sum(run.batchLosses) / (|run.batchLosses| as real)
  }

  /** `best_f1` after the given epochs: it starts at 0 and takes an epoch's F1
      only when that F1 is strictly greater. */
  function BestF1(runs: seq<EpochRun>): real {
    if |runs| == 0 then 0.0
    else
      var before := BestF1(runs[..|runs| - 1]);
      if runs[|runs| - 1].f1 > before then runs[|runs| - 1].f1 else before
  }

  /** Whether epoch `e` improves on the best F1 of the epochs before it. */
  predicate Improves(runs: seq<EpochRun>, e: nat)
    requires e < |runs|
  {
    runs[e].f1 > BestF1(runs[..e])
  }

  /** The checkpoint epoch `e` saves. */
  function CheckpointOf(runs: seq<EpochRun>, e: nat): Checkpoint
    requires e < |runs|
  {
    Checkpoint(e, runs[e].f1, runs[e].precision, runs[e].recall)
  }

  /** The checkpoints saved over the given epochs, one per improving epoch. */
  function Saves(runs: seq<EpochRun>): seq<Checkpoint> {
    if |runs| == 0 then []
    else
      var e := |runs| - 1;
      var before := Saves(runs[..e]);
      if runs[e].f1 > BestF1(runs[..e]) then before + [CheckpointOf(runs, e)] else before
  }

  /** The batch loop of one epoch: `total_loss += loss.item()` per batch. */
  method TotalLoss(batchLosses: seq<real>) returns (totalLoss: real)
    ensures totalLoss == Sum(batchLosses)
  {
    totalLoss := 0.0;
    for b := 0 to |batchLosses|
      invariant totalLoss == Sum(batchLosses[..b])
    {
      assert batchLosses[..b + 1][..b] == batchLosses[..b];
      totalLoss := totalLoss + batchLosses[b];
    }
    assert batchLosses[..|batchLosses|] == batchLosses;
  }

  /** `train_model` without the network: for each epoch, sum the batch losses,
      average them, append the four metrics to the history, and save a
      checkpoint when the validation F1 beats the best so far. An epoch
      without a batch raises ZeroDivisionError. */
  method TrainModel(runs: seq<EpochRun>) returns (r: Result<Training>)
    ensures r.Ok? <==> forall e :: 0 <= e < |runs| ==> |runs[e].batchLosses| > 0
    ensures r.Err? ==>
      exists e :: (0 <= e < |runs| && r.error == NoBatches(e) && |runs[e].batchLosses| == 0
        && forall d :: 0 <= d < e ==> |runs[d].batchLosses| > 0)
    ensures r.Ok? ==>
      && |r.value.history.loss| == |runs|
      && (forall e :: 0 <= e < |runs| ==> r.value.history.loss[e] == AverageLoss(runs[e]))
    ensures r.Ok? ==>
      && |r.value.history.precision| == |r.value.history.recall| == |r.value.history.f1| == |runs|
      && forall e :: 0 <= e < |runs| ==>
        && r.value.history.precision[e] == runs[e].precision
        && r.value.history.recall[e] == runs[e].recall
        && r.value.history.f1[e] == runs[e].f1
    ensures r.Ok? ==> r.value.saves == Saves(runs) && r.value.bestF1 == BestF1(runs)
  {
    var bestF1 := 0.0;
    var loss: seq<real> := [];
    var precision: seq<real> := [];
    var recall: seq<real> := [];
    var f1: seq<real> := [];
    var saves: seq<Checkpoint> := [];
    for epoch := 0 to |runs|
      invariant forall e :: 0 <= e < epoch ==> |runs[e].batchLosses| > 0
      invariant |loss| == |precision| == |recall| == |f1| == epoch
      invariant forall e :: 0 <= e < epoch ==>
        loss[e] == AverageLoss(runs[e]) && precision[e] == runs[e].precision
        && recall[e] == runs[e].recall && f1[e] == runs[e].f1
      invariant bestF1 == BestF1(runs[..epoch]) && saves == Saves(runs[..epoch])
    {
      var run := runs[epoch];
      var totalLoss := TotalLoss(run.batchLosses);
      if |run.batchLosses| == 0 {
        return Err(NoBatches(epoch));
      }
      var avgLoss := totalLoss / (|run.batchLosses| as real);
      loss := loss + [avgLoss];
      precision := precision + [run.precision];
      recall := recall + [run.recall];
      f1 := f1 + [run.f1];
      assert runs[..epoch + 1][..epoch] == runs[..epoch];
      if run.f1 > bestF1 {
        bestF1 := run.f1;
        saves := saves + [Checkpoint(epoch, bestF1, run.precision, run.recall)];
      }
    }
    assert runs[..|runs|] == runs;
    return Ok(Training(History(loss, precision, recall, f1), saves, bestF1));
  }

  /** `best_f1` is the maximum of 0 and every epoch's F1. */
  lemma {:induction false} BestF1IsMaximum(runs: seq<EpochRun>)
    ensures BestF1(runs) >= 0.0
    ensures forall e :: 0 <= e < |runs| ==> runs[e].f1 <= BestF1(runs)
    ensures BestF1(runs) == 0.0 || exists e :: 0 <= e < |runs| && runs[e].f1 == BestF1(runs)
  {
    if |runs| > 0 {
      var n := |runs| - 1;
      BestF1IsMaximum(runs[..n]);
      assert forall e :: 0 <= e < n ==> runs[..n][e] == runs[e];
    }
  }

  /** `best_f1` never decreases from one epoch to a later one. */
  lemma {:induction false} BestF1Monotone(runs: seq<EpochRun>, i: nat, j: nat)
    requires i <= j <= |runs|
    ensures BestF1(runs[..i]) <= BestF1(runs[..j])
    decreases j - i
  {
    if i < j {
      BestF1Monotone(runs, i, j - 1);
      assert runs[..j][..j - 1] == runs[..j - 1];
    }
  }

  /** Every checkpoint comes from an improving epoch and records that epoch's
      F1, which is then the best, and metrics. */
  lemma {:induction false} SavesSound(runs: seq<EpochRun>)
    ensures forall k :: 0 <= k < |Saves(runs)| ==>
      Saves(runs)[k].epoch < |runs| && Improves(runs, Saves(runs)[k].epoch)
        && Saves(runs)[k] == CheckpointOf(runs, Saves(runs)[k].epoch)
  {
    if |runs| > 0 {
      var n := |runs| - 1;
      var prefix := runs[..n];
      SavesSound(prefix);
      forall e | 0 <= e < n ensures prefix[..e] == runs[..e] && prefix[e] == runs[e] {
      }
    }
  }

  /** Every improving epoch saves a checkpoint. */
  lemma {:induction false} SavesComplete(runs: seq<EpochRun>)
    ensures forall e :: 0 <= e < |runs| && Improves(runs, e) ==>
      exists k :: 0 <= k < |Saves(runs)| && Saves(runs)[k].epoch == e
  {
    if |runs| > 0 {
      var n := |runs| - 1;
      var prefix := runs[..n];
      SavesComplete(prefix);
      forall e | 0 <= e < n ensures prefix[..e] == runs[..e] && prefix[e] == runs[e] {
      }
      forall e | 0 <= e < |runs| && Improves(runs, e)
        ensures exists k :: 0 <= k < |Saves(runs)| && Saves(runs)[k].epoch == e
      {
        if e < n {
          assert Improves(prefix, e);
          var k :| 0 <= k < |Saves(prefix)| && Saves(prefix)[k].epoch == e;
          assert Saves(runs)[k] == Saves(prefix)[k];
        } else {
          assert Saves(runs)[|Saves(runs)| - 1].epoch == e;
        }
      }
    }
  }

  /** Checkpoints are saved in epoch order, with strictly increasing F1. */
  lemma {:induction false} SavesIncreasing(runs: seq<EpochRun>)
    ensures forall k, l :: 0 <= k < l < |Saves(runs)| ==>
      Saves(runs)[k].epoch < Saves(runs)[l].epoch && Saves(runs)[k].bestF1 < Saves(runs)[l].bestF1
  {
    if |runs| > 0 {
      var n := |runs| - 1;
      var prefix := runs[..n];
      SavesIncreasing(prefix);
      SavesSound(prefix);
      var before := Saves(prefix);
      if Improves(runs, n) {
        assert prefix == runs[..n];
        forall k | 0 <= k < |before| ensures before[k].epoch < n && before[k].bestF1 < runs[n].f1 {
          var e := before[k].epoch;
          assert prefix[..e] == runs[..e] && prefix[e] == runs[e];
          BestF1Monotone(runs, e + 1, n);
          assert runs[..e + 1][..e] == runs[..e];
        }
      }
    }
  }

  /** The last checkpoint holds the final `best_f1`; there is none at all
      exactly when no epoch's F1 exceeds 0. */
  lemma {:induction false} LastSaveIsBest(runs: seq<EpochRun>)
    ensures |Saves(runs)| > 0 ==> Saves(runs)[|Saves(runs)| - 1].bestF1 == BestF1(runs)
    ensures |Saves(runs)| == 0 <==> forall e :: 0 <= e < |runs| ==> runs[e].f1 <= 0.0
  {
    if |runs| > 0 {
      var n := |runs| - 1;
      LastSaveIsBest(runs[..n]);
      assert forall e :: 0 <= e < n ==> runs[..n][e] == runs[e];
      BestF1IsMaximum(runs[..n]);
    }
  }
}
