/** Dataset preparation (prepare_data.py): the word dictionary shared by all
    calls, into which `tokenize_and_index` inserts every word it has not seen
    before; the filter that keeps the lines with exactly three tab-separated
    columns; and the loop that writes the id lines and the labels. */
module PrepareData {

  import opened Errors
  import opened Text
  import Demo
  import TrainEsim
  import Padding

  // ----- tokenize_and_index -----

  /** The words the loop does not skip: every word but the empty string. */
  function NonEmpty(words: seq<string>): (r: seq<string>)
    ensures |r| <= |words|
    ensures forall k :: 0 <= k < |r| ==> r[k] != []
  {
    if |words| == 0 then []
    else
      var n := |words| - 1;
      NonEmpty(words[..n]) + (if words[n] != [] then [words[n]] else [])
  }

  /** A word is kept exactly when it occurs and is not empty. */
  lemma {:induction false} NonEmptyMembers(words: seq<string>)
    ensures forall w :: w in NonEmpty(words) <==> w in words && w != []
  {
    if |words| > 0 {
      var n := |words| - 1;
      NonEmptyMembers(words[..n]);
      assert words == words[..n] + [words[n]];
    }
  }

  /** Skipping keeps order: the kept words of two word lists one after the
      other are the kept words of their concatenation. */
  lemma {:induction false} NonEmptyAppend(a: seq<string>, b: seq<string>)
    ensures NonEmpty(a + b) == NonEmpty(a) + NonEmpty(b)
  {
    if |b| > 0 {
      var n := |b| - 1;
      NonEmptyAppend(a, b[..n]);
      assert (a + b)[..|a + b| - 1] == a + b[..n];
      assert (a + b)[|a + b| - 1] == b[n];
    } else {
      assert a + b == a;
    }
  }

  /** A single word is kept exactly when it is not empty. */
  lemma NonEmptyOne(word: string)
    ensures NonEmpty([word]) == if word != [] then [word] else []
  {
    assert [word][..0] == [];
  }

  /** The dictionary and the ids `tokenize_and_index` leaves behind. */
  datatype Indexed = Indexed(dict: map<string, int>, ids: seq<int>)

  /** The loop of `tokenize_and_index` over `words`, starting from `dict`: a
      word not in the dictionary is first inserted with the value
      `len(indexed_words) + 1`; then its dictionary value is appended. */
  function IndexFold(dict: map<string, int>, words: seq<string>): Indexed {
    if |words| == 0 then Indexed(dict, [])
    else
      var n := |words| - 1;
      var prev := IndexFold(dict, words[..n]);
      var w := words[n];
      if w == [] then prev
      else if w in prev.dict then Indexed(prev.dict, prev.ids + [prev.dict[w]])
      else Indexed(prev.dict[w := |prev.ids| + 1], prev.ids + [|prev.ids| + 1])
  }

  /** One id per non-empty word. */
  lemma {:induction false} IndexFoldLength(dict: map<string, int>, words: seq<string>)
    ensures |IndexFold(dict, words).ids| == |NonEmpty(words)|
  {
    if |words| > 0 {
      IndexFoldLength(dict, words[..|words| - 1]);
    }
  }

  /** The dictionary only grows: every entry it had keeps its value. */
  lemma {:induction false} IndexFoldKeeps(dict: map<string, int>, words: seq<string>)
    ensures forall w :: w in dict ==> w in IndexFold(dict, words).dict && IndexFold(dict, words).dict[w] == dict[w]
  {
    if |words| > 0 {
      IndexFoldKeeps(dict, words[..|words| - 1]);
    }
  }

  /** Afterwards the keys are the old keys and every non-empty word. */
  lemma {:induction false} IndexFoldKeys(dict: map<string, int>, words: seq<string>)
    ensures forall w :: w in IndexFold(dict, words).dict <==> w in dict || (w in words && w != [])
  {
    if |words| > 0 {
      var n := |words| - 1;
      IndexFoldKeys(dict, words[..n]);
      assert words == words[..n] + [words[n]];
    }
  }

  /** Id `k` is the final dictionary value of the `k`-th non-empty word: a
      repeated word reuses the id it was given, or already had. */
  lemma {:induction false} IndexFoldIds(dict: map<string, int>, words: seq<string>)
    ensures |IndexFold(dict, words).ids| == |NonEmpty(words)|
    ensures forall k :: 0 <= k < |NonEmpty(words)| ==>
      NonEmpty(words)[k] in IndexFold(dict, words).dict
      && IndexFold(dict, words).ids[k] == IndexFold(dict, words).dict[NonEmpty(words)[k]]
  {
    if |words| > 0 {
      var n := |words| - 1;
      var prefix := words[..n];
      IndexFoldIds(dict, prefix);
      var prev := IndexFold(dict, prefix);
      var ne := NonEmpty(words);
      var neBefore := NonEmpty(prefix);
      assert forall k :: 0 <= k < |neBefore| ==> ne[k] == neBefore[k];
      assert forall w :: w in prev.dict ==> w in IndexFold(dict, words).dict && IndexFold(dict, words).dict[w] == prev.dict[w];
    }
  }

  /** A word missing from the dictionary is given its 1-based position among
      the call's non-empty words at its first occurrence (the length of
      `indexed_words` plus one), whatever ids the dictionary already uses. */
  lemma {:induction false} IndexFoldNewWord(dict: map<string, int>, words: seq<string>)
    ensures forall p :: (0 <= p < |NonEmpty(words)| && NonEmpty(words)[p] !in dict
      && (forall q :: 0 <= q < p ==> NonEmpty(words)[q] != NonEmpty(words)[p])
      ==> NonEmpty(words)[p] in IndexFold(dict, words).dict && IndexFold(dict, words).dict[NonEmpty(words)[p]] == p + 1)
  {
    if |words| > 0 {
      var n := |words| - 1;
      var prefix := words[..n];
      IndexFoldNewWord(dict, prefix);
      var prev := IndexFold(dict, prefix);
      var r := IndexFold(dict, words);
      var ne := NonEmpty(words);
      var neBefore := NonEmpty(prefix);
      assert forall w :: w in prev.dict ==> w in r.dict && r.dict[w] == prev.dict[w];
      assert forall q :: 0 <= q < |neBefore| ==> ne[q] == neBefore[q];
      forall p | 0 <= p < |ne| && ne[p] !in dict && (forall q :: 0 <= q < p ==> ne[q] != ne[p])
        ensures ne[p] in r.dict && r.dict[ne[p]] == p + 1
      {
        if p >= |neBefore| {
          assert ne[p] == words[n] && p == |neBefore|;
          assert words[n] !in neBefore;
          NonEmptyMembers(prefix);
          IndexFoldKeys(dict, prefix);
          IndexFoldLength(dict, prefix);
        }
      }
    }
  }

  /** The id rule differs from the encoder's: where `address_to_index` gives
      an unknown word the padding id 0, `tokenize_and_index` gives it a fresh
      positive id and remembers it. */
  lemma UnknownWordContrast(dict: map<string, int>, w: string)
    requires w != [] && w !in dict
    ensures Demo.Lookup(dict, w) == 0
    ensures IndexFold(dict, [w]).ids == [1] && IndexFold(dict, [w]).dict == dict[w := 1]
  {
    assert [w][..0] == [];
  }

  /** The fresh id is a position, not a new value: a word inserted into a
      dictionary that already maps another word to 1 receives 1 as well. */
  lemma NewIdCollides()
    ensures var r := IndexFold(map["a" := 1], ["b"]);
      r.dict["a"] == r.dict["b"] == 1
  {
    assert ["b"][..0] == [];
  }

  /** The dictionary loaded from `word_dict.json`, shared and updated in place
      by every call of `tokenize_and_index`. */
  class Dictionary {
    var entries: map<string, int>

    constructor (loaded: map<string, int>)
      ensures entries == loaded
    {
      entries := loaded;
    }

    /** `tokenize_and_index(text, dictionary)`, with the segmenter as `segment`. */
    method TokenizeAndIndex(segment: string -> seq<string>, text: string) returns (indexedWords: seq<int>)
      modifies this
      ensures entries == IndexFold(old(entries), segment(text)).dict
      ensures indexedWords == IndexFold(old(entries), segment(text)).ids
    {
      var words := segment(text);
      indexedWords := [];
      for i := 0 to |words|
        invariant IndexFold(old(entries), words[..i]) == Indexed(entries, indexedWords)
      {
        assert words[..i + 1][..i] == words[..i];
        var word := words[i];
        if word != [] {
          if word !in entries {
            entries := entries[word := |indexedWords| + 1];
          }
          indexedWords := indexedWords + [entries[word]];
        }
      }
      assert words[..|words|] == words;
    }
  }

  // ----- the three-column filter -----

  /** The column lists of the lines with exactly three columns, in file order. */
  function KeptColumns(lines: seq<string>): (r: seq<seq<string>>)
    ensures forall k :: 0 <= k < |r| ==> |r[k]| == 3
  {
    if |lines| == 0 then []
    else
      var n := |lines| - 1;
      KeptColumns(lines[..n]) + (if |TabFields(lines[n])| == 3 then [TabFields(lines[n])] else [])
  }

  /** Filtering two files one after the other is filtering their concatenation:
      nothing is reordered. */
  lemma {:induction false} KeptColumnsAppend(a: seq<string>, b: seq<string>)
    ensures KeptColumns(a + b) == KeptColumns(a) + KeptColumns(b)
  {
    if |b| > 0 {
      var n := |b| - 1;
      KeptColumnsAppend(a, b[..n]);
      assert (a + b)[..|a + b| - 1] == a + b[..n];
    } else {
      assert a + b == a;
    }
  }

  /** A single line is kept exactly when it has three columns. */
  lemma KeptColumnsOne(line: string)
    ensures KeptColumns([line]) == if |TabFields(line)| == 3 then [TabFields(line)] else []
  {
    assert [line][..0] == [];
  }

  /** A line written as `a\tb\tc`, with no tab in the fields and no
      whitespace at its ends, is kept as the columns `a`, `b` and `c`. */
  lemma ThreeFieldsKept(a: string, b: string, c: string)
    requires '\t' !in a && '\t' !in b && '\t' !in c
    requires var line := a + ['\t'] + b + ['\t'] + c;
      !IsSpace(line[0]) && !IsSpace(line[|line| - 1])
    ensures KeptColumns([a + ['\t'] + b + ['\t'] + c]) == [[a, b, c]]
  {
    var line := a + ['\t'] + b + ['\t'] + c;
    StripUnchanged(line);
    assert Join([a, b, c], '\t') == line by {
      assert Join([b, c], '\t') == b + ['\t'] + c by {
        assert [b, c][1..] == [c];
      }
      assert [a, b, c][1..] == [b, c];
    }
    SplitOnUnique(line, '\t', [a, b, c]);
    KeptColumnsOne(line);
  }

  /** The reading loop: `addr1`, `addr2` and `labels` receive the three
      columns of every line that has exactly three. */
  method FilterColumns(lines: seq<string>) returns (addr1: seq<string>, addr2: seq<string>, labels: seq<string>)
    ensures |addr1| == |addr2| == |labels| == |KeptColumns(lines)|
    ensures forall k :: 0 <= k < |addr1| ==> KeptColumns(lines)[k] == [addr1[k], addr2[k], labels[k]]
  {
    addr1, addr2, labels := [], [], [];
    for i := 0 to |lines|
      invariant |addr1| == |addr2| == |labels| == |KeptColumns(lines[..i])|
      invariant forall k :: 0 <= k < |addr1| ==> KeptColumns(lines[..i])[k] == [addr1[k], addr2[k], labels[k]]
    {
      assert lines[..i + 1][..i] == lines[..i];
      var columns := TabFields(lines[i]);
      if |columns| == 3 {
        addr1 := addr1 + [columns[0]];
        addr2 := addr2 + [columns[1]];
        labels := labels + [columns[2]];
      }
    }
    assert lines[..|lines|] == lines;
  }

  // ----- the writing loop -----

  /** `map(str, ids)`. */
  function IdStrings(ids: seq<int>): (r: seq<string>)
    ensures |r| == |ids| && forall k :: 0 <= k < |ids| ==> r[k] == IntToString(ids[k])
  {
    if |ids| == 0 then [] else [IntToString(ids[0])] + IdStrings(ids[1..])
  }

  /** `' '.join(map(str, ids))`, one output line without its terminator. */
  function IdsLine(ids: seq<int>): string {
    Join(IdStrings(ids), ' ')
  }

  /** One kept row: the two addresses and the label, `addr1[i]`, `addr2[i]`
      and `labels[i]`. */
  datatype KeptRow = KeptRow(addr1: string, addr2: string, labelText: string)

  /** The rows the writing loop visits, `i` running over `range(len(addr1))`. */
  function Zip(addr1: seq<string>, addr2: seq<string>, labels: seq<string>): seq<KeptRow>
    requires |addr1| == |addr2| == |labels|
  {
    seq(|addr1|, i requires 0 <= i < |addr1| => KeptRow(addr1[i], addr2[i], labels[i]))
  }

  /** The lines of an id file: one `' '.join(map(str, ids))` per id list. */
  function IdLines(idLists: seq<seq<int>>): (r: seq<string>)
    ensures |r| == |idLists| && forall k :: 0 <= k < |r| ==> r[k] == IdsLine(idLists[k])
  {
    if |idLists| == 0 then []
    else IdLines(idLists[..|idLists| - 1]) + [IdsLine(idLists[|idLists| - 1])]
  }

  /** What the writing loop leaves: the dictionary, the id lists of both
      address files, and the labels. */
  datatype Prepared = Prepared(dict: map<string, int>, ids1: seq<seq<int>>, ids2: seq<seq<int>>, labels: seq<string>)

  /** The writing loop over the kept rows, threading the dictionary through
      the first and then the second address of every row. */
  function PrepareFold(dict: map<string, int>, segment: string -> seq<string>, rows: seq<KeptRow>): (r: Prepared)
    ensures |r.ids1| == |r.ids2| == |r.labels| == |rows|
  {
    if |rows| == 0 then Prepared(dict, [], [], [])
    else
      var n := |rows| - 1;
      var prev := PrepareFold(dict, segment, rows[..n]);
      var t1 := IndexFold(prev.dict, segment(rows[n].addr1));
      var t2 := IndexFold(t1.dict, segment(rows[n].addr2));
      Prepared(t2.dict, prev.ids1 + [t1.ids], prev.ids2 + [t2.ids], prev.labels + [rows[n].labelText])
  }

  /** The writing loop of prepare_data.py for one split: for each kept row,
      index both addresses against the shared dictionary and write their ids
      and the label. */
  method WriteSplit(d: Dictionary, segment: string -> seq<string>,
                    addr1: seq<string>, addr2: seq<string>, labels: seq<string>)
    returns (lines1: seq<string>, lines2: seq<string>, lines3: seq<string>)
    requires |addr1| == |addr2| == |labels|
    modifies d
    ensures var p := PrepareFold(old(d.entries), segment, Zip(addr1, addr2, labels));
      d.entries == p.dict && lines1 == IdLines(p.ids1) && lines2 == IdLines(p.ids2) && lines3 == p.labels
  {
    ghost var rows := Zip(addr1, addr2, labels);
    ghost var ids1: seq<seq<int>>, ids2: seq<seq<int>> := [], [];
    lines1, lines2, lines3 := [], [], [];
    for i := 0 to |addr1|
      invariant Prepared(d.entries, ids1, ids2, lines3) == PrepareFold(old(d.entries), segment, rows[..i])
      invariant lines1 == IdLines(ids1) && lines2 == IdLines(ids2)
    {
      assert rows[..i + 1][..i] == rows[..i];
      var addr1Tokens := d.TokenizeAndIndex(segment, addr1[i]);
      var addr2Tokens := d.TokenizeAndIndex(segment, addr2[i]);
      lines1 := lines1 + [IdsLine(addr1Tokens)];
      lines2 := lines2 + [IdsLine(addr2Tokens)];
      lines3 := lines3 + [labels[i]];
      assert (ids1 + [addr1Tokens])[..i] == ids1 && (ids2 + [addr2Tokens])[..i] == ids2;
      ids1, ids2 := ids1 + [addr1Tokens], ids2 + [addr2Tokens];
    }
    assert rows[..|addr1|] == rows;
  }

  /** The kept rows of a file, as the writing loop visits them. */
  function KeptRows(lines: seq<string>): (r: seq<KeptRow>)
    ensures |r| == |KeptColumns(lines)|
    ensures forall k :: 0 <= k < |r| ==> [r[k].addr1, r[k].addr2, r[k].labelText] == KeptColumns(lines)[k]
  {
    var cols := KeptColumns(lines);
    seq(|cols|, k requires 0 <= k < |cols| => KeptRow(cols[k][0], cols[k][1], cols[k][2]))
  }

  /** One split of prepare_data.py: read `address.txt`, keep the
      three-column lines, then write the two id files and the label file. */
  method PrepareSplit(d: Dictionary, segment: string -> seq<string>, lines: seq<string>)
    returns (lines1: seq<string>, lines2: seq<string>, lines3: seq<string>)
    modifies d
    ensures var p := PrepareFold(old(d.entries), segment, KeptRows(lines));
      d.entries == p.dict && lines1 == IdLines(p.ids1) && lines2 == IdLines(p.ids2) && lines3 == p.labels
  {
    var addr1, addr2, labels := FilterColumns(lines);
    assert Zip(addr1, addr2, labels) == KeptRows(lines);
    lines1, lines2, lines3 := WriteSplit(d, segment, addr1, addr2, labels);
  }

  /** Across the whole loop the dictionary only grows: every entry keeps its value. */
  lemma {:induction false} PrepareFoldKeeps(dict: map<string, int>, segment: string -> seq<string>, rows: seq<KeptRow>)
    ensures forall w :: w in dict ==>
      w in PrepareFold(dict, segment, rows).dict && PrepareFold(dict, segment, rows).dict[w] == dict[w]
  {
    if |rows| > 0 {
      var n := |rows| - 1;
      PrepareFoldKeeps(dict, segment, rows[..n]);
      var prev := PrepareFold(dict, segment, rows[..n]);
      IndexFoldKeeps(prev.dict, segment(rows[n].addr1));
      IndexFoldKeeps(IndexFold(prev.dict, segment(rows[n].addr1)).dict, segment(rows[n].addr2));
    }
  }

  /** One more row appends one line to each file. */
  lemma PrepareFoldStep(dict: map<string, int>, segment: string -> seq<string>, rows: seq<KeptRow>)
    requires 0 < |rows|
    ensures var n := |rows| - 1;
      var p := PrepareFold(dict, segment, rows[..n]);
      var r := PrepareFold(dict, segment, rows);
      p.ids1 == r.ids1[..n] && p.ids2 == r.ids2[..n] && p.labels == r.labels[..n]
  {
  }

  /** The loop over a prefix of the rows writes a prefix of the files. */
  lemma {:induction false} PrepareFoldPrefix(dict: map<string, int>, segment: string -> seq<string>, rows: seq<KeptRow>, m: nat)
    requires m <= |rows|
    ensures var p := PrepareFold(dict, segment, rows[..m]);
      var r := PrepareFold(dict, segment, rows);
      p.ids1 == r.ids1[..m] && p.ids2 == r.ids2[..m] && p.labels == r.labels[..m]
    decreases |rows|
  {
    if m < |rows| {
      var n := |rows| - 1;
      var front := rows[..n];
      PrepareFoldPrefix(dict, segment, front, m);
      assert front[..m] == rows[..m];
      PrepareFoldStep(dict, segment, rows);
      var q := PrepareFold(dict, segment, front);
      var r := PrepareFold(dict, segment, rows);
      assert q.ids1[..m] == r.ids1[..m] && q.ids2[..m] == r.ids2[..m] && q.labels[..m] == r.labels[..m];
    } else {
      assert rows[..m] == rows;
    }
  }

  /** Line `i` of the output files: the ids of the row's first address against
      the dictionary as the earlier rows left it, then those of its second
      address against the dictionary as the first left it, and the label
      unchanged. */
  lemma PrepareFoldLine(dict: map<string, int>, segment: string -> seq<string>, rows: seq<KeptRow>, i: nat)
    requires i < |rows|
    ensures var before := PrepareFold(dict, segment, rows[..i]).dict;
      var r := PrepareFold(dict, segment, rows);
      var t1 := IndexFold(before, segment(rows[i].addr1));
      && r.ids1[i] == t1.ids
      && r.ids2[i] == IndexFold(t1.dict, segment(rows[i].addr2)).ids
      && r.labels[i] == rows[i].labelText
  {
    PrepareFoldPrefix(dict, segment, rows, i + 1);
    assert rows[..i + 1][..i] == rows[..i];
  }

  // ----- reading the written lines back -----

  /** The ends of a joined string are the ends of its first and last parts. */
  lemma {:induction false} JoinEnds(parts: seq<string>, sep: char)
    requires |parts| > 0 && forall k :: 0 <= k < |parts| ==> parts[k] != []
    ensures |Join(parts, sep)| > 0
    ensures Join(parts, sep)[0] == parts[0][0]
    ensures Join(parts, sep)[|Join(parts, sep)| - 1] == parts[|parts| - 1][|parts[|parts| - 1]| - 1]
  {
    if |parts| > 1 {
      var rest := parts[1..];
      assert forall k :: 0 <= k < |rest| ==> rest[k] == parts[k + 1];
      JoinEnds(rest, sep);
      var j := Join(rest, sep);
      var whole := parts[0] + [sep] + j;
      assert Join(parts, sep) == whole;
      assert rest[|rest| - 1] == parts[|parts| - 1];
      assert whole[|whole| - 1] == j[|j| - 1];
    }
  }

  /** `int(x)` for every `x` of `map(str, ids)` gives the ids back. */
  lemma {:induction false} ParseIdStrings(lineNo: nat, ids: seq<int>)
    requires forall k :: 0 <= k < |ids| ==> WithinStrDigits(ids[k])
    ensures TrainEsim.ParseIds(lineNo, IdStrings(ids)) == Ok(ids)
  {
    if |ids| > 0 {
      IntToStringRoundTrip(ids[0]);
      ParseIdStrings(lineNo, ids[1..]);
      assert IdStrings(ids)[1..] == IdStrings(ids[1..]);
      assert [ids[0]] + ids[1..] == ids;
    }
  }

  /** A line the writing loop produces is read back by `_load_text_data` as
      exactly the ids that were written, each within the digit limit `str()`
      itself enforces. */
  lemma IdsLineRoundTrip(lineNo: nat, ids: seq<int>)
    requires forall k :: 0 <= k < |ids| ==> WithinStrDigits(ids[k])
    ensures TrainEsim.ParseIds(lineNo, Fields(IdsLine(ids))) == Ok(ids)
  {
    var parts := IdStrings(ids);
    if |ids| > 0 {
      JoinEnds(parts, ' ');
      var last := parts[|parts| - 1];
      assert NoSpace(parts[0]) && NoSpace(last);
      assert !IsSpace(parts[0][0]) && !IsSpace(last[|last| - 1]);
    }
    StripUnchanged(IdsLine(ids));
    SplitJoin(parts);
    ParseIdStrings(lineNo, ids);
  }

  /** An id file the writing loop produces loads, before the `int64` check, as
      the written ids of each line fitted to `maxLen`. */
  lemma IdFileLoads(lines: seq<string>, idLists: seq<seq<int>>, maxLen: nat)
    requires |lines| == |idLists| && forall i :: 0 <= i < |lines| ==> lines[i] == IdsLine(idLists[i])
    requires forall i, k :: 0 <= i < |idLists| && 0 <= k < |idLists[i]| ==> WithinStrDigits(idLists[i][k])
    ensures TrainEsim.ParseLines(lines, maxLen)
      == Ok(seq(|idLists|, i requires 0 <= i < |idLists| => Padding.Fit(idLists[i], maxLen)))
  {
    var rows := FieldRows(lines);
    FieldRowsLength(lines);
    forall i | 0 <= i < |rows| ensures TrainEsim.ParseIds(i, rows[i]) == Ok(idLists[i]) {
      FieldRowsAt(lines, i);
      IdsLineRoundTrip(i, idLists[i]);
    }
    TrainEsim.ParseRowsSpec(rows, maxLen);
    var r := TrainEsim.ParseRows(rows, maxLen);
    assert r.Ok?;
    assert r.value == seq(|idLists|, i requires 0 <= i < |idLists| => Padding.Fit(idLists[i], maxLen));
  }
}
