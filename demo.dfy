/** The inference side of the address matcher (demo.py): encoding an address
    against the word dictionary, and the linear best-match scan over the
    candidate catalog. The segmenter and the neural matcher are parameters. */
module Demo {

  import opened Errors
  import opened Text
  import opened Padding

  /** The fixed length of every encoded address. */
  const MaxLen: nat := 128

  /** `word_dict.get(word, 0)`: an unknown word becomes the padding id 0. */
  function Lookup(dict: map<string, int>, word: string): int {
    if word in dict then dict[word] else 0
  }

  /** The ids of `words`, one per token, before fitting. */
  function LookupAll(dict: map<string, int>, words: seq<string>): (ids: seq<int>)
    ensures |ids| == |words|
    ensures forall k :: 0 <= k < |words| ==> ids[k] == Lookup(dict, words[k])
  {
    if |words| == 0 then [] else LookupAll(dict, words[..|words| - 1]) + [Lookup(dict, words[|words| - 1])]
  }

  /** The encoding of a token sequence: ids looked up, then fitted to MaxLen. */
  function Encode(dict: map<string, int>, words: seq<string>): seq<int> {
    Fit(LookupAll(dict, words), MaxLen)
  }

  /** What the encoding is, entry by entry. */
  lemma EncodeSpec(dict: map<string, int>, words: seq<string>)
    ensures |Encode(dict, words)| == MaxLen
    ensures forall k :: 0 <= k < MaxLen && k < |words| ==> Encode(dict, words)[k] == Lookup(dict, words[k])
    ensures forall k :: |words| <= k < MaxLen ==> Encode(dict, words)[k] == 0
    ensures |words| > MaxLen ==> Encode(dict, words) == LookupAll(dict, words[..MaxLen])
  {
    if |words| > MaxLen {
      var ids := LookupAll(dict, words[..MaxLen]);
      assert forall k :: 0 <= k < MaxLen ==> ids[k] == Lookup(dict, words[k]);
    }
  }

  /** A one-word address encodes to that word's id followed by padding. */
  lemma EncodeOneWord(dict: map<string, int>, w: string)
    requires w in dict
    ensures Encode(dict, [w]) == [dict[w]] + seq(MaxLen - 1, _ => 0)
  {
    EncodeSpec(dict, [w]);
  }

  /** `address_to_index(address_text, word_dict)`: segment, look every token
      up (a miss gives 0), then truncate or zero-pad to exactly 128 ids. */
  method AddressToIndex(segment: string -> seq<string>, dict: map<string, int>, address: string)
    returns (indices: seq<int>)
    ensures indices == Encode(dict, segment(address))
  {
    var words := segment(address);
    indices := [];
    for i := 0 to |words|
      invariant indices == LookupAll(dict, words[..i])
    {
      assert words[..i + 1][..i] == words[..i];
      indices := indices + [Lookup(dict, words[i])];
    }
    assert words[..|words|] == words;
    if |indices| > MaxLen {
      indices := indices[..MaxLen];
    } else {
      indices := indices + seq(MaxLen - |indices|, _ => 0);
    }
  }

  /** What the matcher holds once loaded: the segmenter, the word dictionary
      and the trained network, seen as a scoring function on two encodings. */
  datatype Resources = Resources(
    segment: string -> seq<string>,
    dict: map<string, int>,
    model: (seq<int>, seq<int>) -> real)
  {
    /** The network's similarity for a query and one candidate address. */
    function Score(query: string, address: string): real {
      model(Encode(dict, segment(query)), Encode(dict, segment(address)))
    }
  }

  datatype MatchResult =
    /** "请输入地址": the query is empty or whitespace only. */
    | EmptyInput
    /** "未找到匹配结果": no candidate scored above -1. */
    | NoMatch
    /** "最佳匹配: ... 相似度: ...". */
    | Match(address: string, score: real)

  /** Whether line `i` of the catalog is a candidate: not empty once stripped
      (by `Strip`'s contract, not whitespace only). */
  predicate IsCandidate(catalog: seq<string>, i: int)
    requires 0 <= i < |catalog|
  {
    Strip(catalog[i]) != []
  }

  /** The number of non-blank catalog lines among the first `n`. */
  function CandidateCount(catalog: seq<string>, n: nat): nat
    requires n <= |catalog|
  {
    if n == 0 then 0 else CandidateCount(catalog, n - 1) + (if IsCandidate(catalog, n - 1) then 1 else 0)
  }

  /** Line `at` is the winner of the scan over the first `n` lines: a candidate
      whose score exceeds -1, strictly exceeds every earlier candidate's score
      and is not exceeded by any later candidate's score. */
  ghost predicate WinsAt(res: Resources, query: string, catalog: seq<string>, n: nat, at: int, best: real)
    requires n <= |catalog|
  {
    && 0 <= at < n
    && IsCandidate(catalog, at)
    && best == res.Score(query, Strip(catalog[at]))
    && best > -1.0
    && (forall j :: 0 <= j < at && IsCandidate(catalog, j) ==> res.Score(query, Strip(catalog[j])) < best)
    && (forall j :: at < j < n && IsCandidate(catalog, j) ==> res.Score(query, Strip(catalog[j])) <= best)
  }

  /** Before any candidate has scored above -1. */
  ghost predicate NoneAbove(res: Resources, query: string, catalog: seq<string>, n: nat)
    requires n <= |catalog|
  {
    forall j :: 0 <= j < n && IsCandidate(catalog, j) ==> res.Score(query, Strip(catalog[j])) <= -1.0
  }

  /** A scan step over a blank line, or a candidate scoring at most -1, keeps
      the scan without a best match. */
  lemma ScanNoBest(res: Resources, query: string, catalog: seq<string>, i: nat)
    requires i < |catalog|
    requires NoneAbove(res, query, catalog, i)
    requires IsCandidate(catalog, i) ==> res.Score(query, Strip(catalog[i])) <= -1.0
    ensures NoneAbove(res, query, catalog, i + 1)
  {
  }

  /** A scan step that does not beat the current best keeps it. */
  lemma ScanKeepBest(res: Resources, query: string, catalog: seq<string>, i: nat, at: int, best: real)
    requires i < |catalog|
    requires WinsAt(res, query, catalog, i, at, best)
    requires IsCandidate(catalog, i) ==> res.Score(query, Strip(catalog[i])) <= best
    ensures WinsAt(res, query, catalog, i + 1, at, best)
  {
  }

  /** A candidate that scores strictly above the best so far (or above -1 when
      there is none yet) becomes the new best. */
  lemma ScanNewBest(res: Resources, query: string, catalog: seq<string>, i: nat, score: real, at: int, best: real)
    requires i < |catalog| && IsCandidate(catalog, i)
    requires score == res.Score(query, Strip(catalog[i])) && score > best
    requires at == -1 ==> best == -1.0 && NoneAbove(res, query, catalog, i)
    requires at != -1 ==> WinsAt(res, query, catalog, i, at, best)
    ensures WinsAt(res, query, catalog, i + 1, i, score)
  {
  }

  /** The loop of `find_match` over the catalog lines, for an encoded query:
      `best_match` and `highest_score` after the last line. */
  method ScanCatalog(res: Resources, query: string, queryIndices: seq<int>, catalog: seq<string>)
    returns (bestMatch: Option<string>, highestScore: real, ghost at: int, ghost calls: nat)
    requires queryIndices == Encode(res.dict, res.segment(query))
    ensures calls == CandidateCount(catalog, |catalog|)
    ensures bestMatch.None? ==> highestScore == -1.0
    ensures bestMatch.None? ==> NoneAbove(res, query, catalog, |catalog|)
    ensures bestMatch.Some? ==> WinsAt(res, query, catalog, |catalog|, at, highestScore)
    ensures bestMatch.Some? ==> bestMatch.value == Strip(catalog[at]) && bestMatch.value != []
  {
    calls := 0;
    bestMatch := None;
    highestScore := -1.0;
    at := -1;
    for i := 0 to |catalog|
      invariant calls == CandidateCount(catalog, i)
      invariant bestMatch.None? ==> highestScore == -1.0
      invariant bestMatch.None? ==> NoneAbove(res, query, catalog, i)
      invariant bestMatch.Some? ==> WinsAt(res, query, catalog, i, at, highestScore)
      invariant bestMatch.Some? ==> bestMatch.value == Strip(catalog[at]) && bestMatch.value != []
    {
      var address := Strip(catalog[i]);
      if address != [] {
        var addrIndices := AddressToIndex(res.segment, res.dict, address);
        var score := res.model(queryIndices, addrIndices);
        assert score == res.Score(query, Strip(catalog[i]));
        calls := calls + 1;
        if score > highestScore {
          ScanNewBest(res, query, catalog, i, score, if bestMatch.Some? then at else -1, highestScore);
          highestScore := score;
          bestMatch := Some(address);
          at := i;
        } else if bestMatch.Some? {
          ScanKeepBest(res, query, catalog, i, at, highestScore);
        } else {
          ScanNoBest(res, query, catalog, i);
        }
      } else if bestMatch.Some? {
        ScanKeepBest(res, query, catalog, i, at, highestScore);
      } else {
        ScanNoBest(res, query, catalog, i);
      }
    }
  }

  /** `find_match` without the widgets: an empty or whitespace-only query is
      refused before the network is consulted; otherwise every non-blank
      catalog line is stripped, encoded and scored, and the first line with the
      highest score above -1 is reported with that score. `calls` counts the
      network invocations. */
  method FindMatch(res: Resources, query: string, catalog: seq<string>)
    returns (r: MatchResult, ghost calls: nat)
    ensures r == EmptyInput <==> Strip(query) == []
    ensures Strip(query) == [] ==> calls == 0
    ensures Strip(query) != [] ==> calls == CandidateCount(catalog, |catalog|)
    ensures r == NoMatch <==>
      && Strip(query) != []
      && forall j :: 0 <= j < |catalog| && IsCandidate(catalog, j) ==> res.Score(query, Strip(catalog[j])) <= -1.0
    ensures r.Match? ==>
      (exists at :: 0 <= at < |catalog| && r.address == Strip(catalog[at]) && WinsAt(res, query, catalog, |catalog|, at, r.score))
  {
    calls := 0;
    if Strip(query) == [] {
      r := EmptyInput;
      return;
    }
    var queryIndices := AddressToIndex(res.segment, res.dict, query);
    var bestMatch, highestScore;
    ghost var at;
    bestMatch, highestScore, at, calls := ScanCatalog(res, query, queryIndices, catalog);
    if bestMatch.Some? && bestMatch.value != [] {
      r := Match(bestMatch.value, highestScore);
    } else {
      r := NoMatch;
    }
  }
}
