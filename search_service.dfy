/**
 * Candidate retrieval and reranking: merging the full-text and fuzzy search
 * results without duplicates, then scoring the candidates that have a stored
 * embedding, sorting them and keeping the best `topK`.
 */
module SearchService {
  import opened Optional
  import opened Text

  /** The row limit each of the two searches is called with. */
  const FtsLimit: nat := 20
  const FuzzyLimit: nat := 20

  /** The similarity added per term word found in a candidate's description. */
  const OverlapBonus: real := 0.05

  /** A food's identity: its id and its data type. */
  type Key = (int, string)

  /** A row of the full-text or the fuzzy search: (fdc_id, data_type, description). */
  datatype SearchHit = SearchHit(fdcId: int, dataType: string, description: string)

  /** A candidate dict. `similarity` is absent until the reranker writes it. */
  datatype Candidate = Candidate(fdcId: int, dataType: string, description: string, similarity: Option<real>)

  /** A scored candidate as the reranker returns it. */
  datatype Scored = Scored(fdcId: int, dataType: string, description: string, similarity: real)

  function HitKey(h: SearchHit): Key { (h.fdcId, h.dataType) }

  function CandidateKey(c: Candidate): Key { (c.fdcId, c.dataType) }

  function ToCandidate(h: SearchHit): Candidate {
    Candidate(h.fdcId, h.dataType, h.description, None)
  }

  /** The keys of some candidates. */
  function KeysOf(cs: seq<Candidate>): set<Key> {
    set i | 0 <= i < |cs| :: CandidateKey(cs[i])
  }

  /** The keys of some search rows. */
  function HitKeys(hits: seq<SearchHit>): set<Key> {
    set i | 0 <= i < |hits| :: HitKey(hits[i])
  }

  /** No two candidates share a key. */
  predicate DistinctKeys(cs: seq<Candidate>) {
    forall i, j :: 0 <= i < j < |cs| ==> CandidateKey(cs[i]) != CandidateKey(cs[j])
  }

  // ---------------------------------------------------------------------
  // get_candidates
  // ---------------------------------------------------------------------

  /** The rows in order, each kept only if no earlier row had its key. */
  function Dedup(hits: seq<SearchHit>): (r: seq<Candidate>)
    ensures |r| <= |hits|
    ensures forall j :: 0 <= j < |r| ==> r[j].similarity.None?
  {
    if hits == [] then []
    else
      var d := Dedup(hits[..|hits| - 1]);
      if HitKey(hits[|hits| - 1]) in KeysOf(d) then d else d + [ToCandidate(hits[|hits| - 1])]
  }

  /** The position of the first row with key `k`. */
  function FirstIndex(hits: seq<SearchHit>, k: Key): (r: nat)
    requires k in HitKeys(hits)
    ensures r < |hits| && HitKey(hits[r]) == k
    ensures forall i :: 0 <= i < r ==> HitKey(hits[i]) != k
  {
    var init := hits[..|hits| - 1];
    if k in HitKeys(init) then
      var r := FirstIndex(init, k);
      assert hits[r] == init[r];
      assert forall i :: 0 <= i < r ==> hits[i] == init[i];
      r
    else
      assert forall i :: 0 <= i < |init| ==> HitKey(init[i]) in HitKeys(init);
      |hits| - 1
  }

  lemma KeysOfSnoc(cs: seq<Candidate>, c: Candidate)
    ensures KeysOf(cs + [c]) == KeysOf(cs) + {CandidateKey(c)}
  {
    var cs' := cs + [c];
    forall k | k in KeysOf(cs') ensures k in KeysOf(cs) + {CandidateKey(c)} {
      var i :| 0 <= i < |cs'| && CandidateKey(cs'[i]) == k;
      if i < |cs| { assert cs'[i] == cs[i]; }
    }
    forall k | k in KeysOf(cs) + {CandidateKey(c)} ensures k in KeysOf(cs') {
      if k in KeysOf(cs) {
        var i :| 0 <= i < |cs| && CandidateKey(cs[i]) == k;
        assert cs'[i] == cs[i];
      } else {
        assert cs'[|cs|] == c;
      }
    }
  }

  lemma HitKeysSnoc(hits: seq<SearchHit>)
    requires hits != []
    ensures HitKeys(hits) == HitKeys(hits[..|hits| - 1]) + {HitKey(hits[|hits| - 1])}
  {
    var init := hits[..|hits| - 1];
    forall k | k in HitKeys(hits) ensures k in HitKeys(init) + {HitKey(hits[|hits| - 1])} {
      var i :| 0 <= i < |hits| && HitKey(hits[i]) == k;
      if i < |init| { assert hits[i] == init[i]; }
    }
    forall k | k in HitKeys(init) ensures k in HitKeys(hits) {
      var i :| 0 <= i < |init| && HitKey(init[i]) == k;
      assert hits[i] == init[i];
    }
    assert HitKey(hits[|hits| - 1]) in HitKeys(hits);
  }

  /** The merged list has the keys of all rows, each once. */
  lemma {:induction false} DedupKeys(hits: seq<SearchHit>)
    ensures KeysOf(Dedup(hits)) == HitKeys(hits)
    ensures DistinctKeys(Dedup(hits))
  {
    if hits != [] {
      var init, h := hits[..|hits| - 1], hits[|hits| - 1];
      var d := Dedup(init);
      DedupKeys(init);
      HitKeysSnoc(hits);
      if HitKey(h) !in KeysOf(d) {
        KeysOfSnoc(d, ToCandidate(h));
        forall j | 0 <= j < |d| ensures CandidateKey(d[j]) != HitKey(h) {
          assert CandidateKey(d[j]) in KeysOf(d);
        }
      }
    }
  }

  /** A key already among the earlier rows keeps its first position when a row is appended. */
  lemma FirstIndexOfInit(hits: seq<SearchHit>, k: Key)
    requires hits != [] && k in HitKeys(hits[..|hits| - 1])
    ensures k in HitKeys(hits) && FirstIndex(hits, k) == FirstIndex(hits[..|hits| - 1], k)
  {
    var init := hits[..|hits| - 1];
    var r := FirstIndex(init, k);
    assert hits[r] == init[r];
    FirstIndexUnique(hits, k, r);
  }

  /** A row whose key no earlier row has is the first row with that key. */
  lemma FirstIndexOfLast(hits: seq<SearchHit>)
    requires hits != [] && HitKey(hits[|hits| - 1]) !in HitKeys(hits[..|hits| - 1])
    ensures HitKey(hits[|hits| - 1]) in HitKeys(hits) && FirstIndex(hits, HitKey(hits[|hits| - 1])) == |hits| - 1
  {
    var init := hits[..|hits| - 1];
    forall i | 0 <= i < |hits| - 1 ensures HitKey(hits[i]) != HitKey(hits[|hits| - 1]) {
      assert hits[i] == init[i];
      assert HitKey(init[i]) in HitKeys(init);
    }
    FirstIndexUnique(hits, HitKey(hits[|hits| - 1]), |hits| - 1);
  }

  /** Each candidate is built from the first row with its key. */
  lemma {:induction false} DedupFirst(hits: seq<SearchHit>)
    ensures KeysOf(Dedup(hits)) == HitKeys(hits)
    ensures forall j :: 0 <= j < |Dedup(hits)| ==>
      Dedup(hits)[j] == ToCandidate(hits[FirstIndex(hits, CandidateKey(Dedup(hits)[j]))])
  {
    DedupKeys(hits);
    if hits != [] {
      var init, h := hits[..|hits| - 1], hits[|hits| - 1];
      var d := Dedup(init);
      DedupFirst(init);
      forall j | 0 <= j < |Dedup(hits)|
        ensures Dedup(hits)[j] == ToCandidate(hits[FirstIndex(hits, CandidateKey(Dedup(hits)[j]))])
      {
        if j < |d| {
          assert Dedup(hits)[j] == d[j];
          assert CandidateKey(d[j]) in KeysOf(d);
          FirstIndexOfInit(hits, CandidateKey(d[j]));
          assert hits[FirstIndex(init, CandidateKey(d[j]))] == init[FirstIndex(init, CandidateKey(d[j]))];
        } else {
          assert Dedup(hits)[j] == ToCandidate(h);
          FirstIndexOfLast(hits);
        }
      }
    }
  }

  /** Candidates appear in the order of their first rows. */
  lemma {:induction false} DedupOrder(hits: seq<SearchHit>)
    ensures KeysOf(Dedup(hits)) == HitKeys(hits)
    ensures forall i, j :: 0 <= i < j < |Dedup(hits)| ==>
      FirstIndex(hits, CandidateKey(Dedup(hits)[i])) < FirstIndex(hits, CandidateKey(Dedup(hits)[j]))
  {
    DedupKeys(hits);
    if hits != [] {
      var init := hits[..|hits| - 1];
      var d := Dedup(init);
      DedupOrder(init);
      forall i, j | 0 <= i < j < |Dedup(hits)|
        ensures FirstIndex(hits, CandidateKey(Dedup(hits)[i])) < FirstIndex(hits, CandidateKey(Dedup(hits)[j]))
      {
        assert Dedup(hits)[i] == d[i];
        assert CandidateKey(d[i]) in KeysOf(d);
        FirstIndexOfInit(hits, CandidateKey(d[i]));
        if j < |d| {
          assert Dedup(hits)[j] == d[j];
          assert CandidateKey(d[j]) in KeysOf(d);
          FirstIndexOfInit(hits, CandidateKey(d[j]));
        } else {
          FirstIndexOfLast(hits);
        }
      }
    }
  }

  /**
   * The merged list has the keys of all rows, each once; its candidate for a
   * key is the first row with that key; and candidates appear in the order
   * of their first rows.
   */
  lemma DedupSpec(hits: seq<SearchHit>)
    ensures KeysOf(Dedup(hits)) == HitKeys(hits)
    ensures DistinctKeys(Dedup(hits))
    ensures forall j :: 0 <= j < |Dedup(hits)| ==>
      Dedup(hits)[j] == ToCandidate(hits[FirstIndex(hits, CandidateKey(Dedup(hits)[j]))])
    ensures forall i, j :: 0 <= i < j < |Dedup(hits)| ==>
      FirstIndex(hits, CandidateKey(Dedup(hits)[i])) < FirstIndex(hits, CandidateKey(Dedup(hits)[j]))
  {
    DedupKeys(hits);
    DedupFirst(hits);
    DedupOrder(hits);
  }

  /** A position holding key `k` with no earlier `k` is the first index of `k`. */
  lemma FirstIndexUnique(hits: seq<SearchHit>, k: Key, r: nat)
    requires r < |hits| && HitKey(hits[r]) == k
    requires forall i :: 0 <= i < r ==> HitKey(hits[i]) != k
    ensures k in HitKeys(hits) && FirstIndex(hits, k) == r
  {
    assert HitKey(hits[r]) in HitKeys(hits);
  }

  /** The merge of the full-text rows alone is a prefix of the merge of all rows. */
  lemma {:induction false} DedupPrefix(a: seq<SearchHit>, b: seq<SearchHit>)
    ensures Dedup(a) <= Dedup(a + b)
  {
    if b == [] {
      assert a + b == a;
    } else {
      var b' := b[..|b| - 1];
      DedupPrefix(a, b');
      assert (a + b)[..|a + b| - 1] == a + b';
    }
  }

  /**
   * get_candidates: walk the full-text rows then the fuzzy rows, keeping
   * a row when its key has not been seen, and record its key as seen.
   */
  method GetCandidates(ftsResults: seq<SearchHit>, fuzzyResults: seq<SearchHit>) returns (candidates: seq<Candidate>)
    ensures candidates == Dedup(ftsResults + fuzzyResults)
    ensures DistinctKeys(candidates)
    ensures KeysOf(candidates) == HitKeys(ftsResults + fuzzyResults)
    ensures Dedup(ftsResults) <= candidates
    ensures |candidates| <= |ftsResults| + |fuzzyResults|
  {
    var all := ftsResults + fuzzyResults;
    var seen: set<Key> := {};
    candidates := [];
    for i := 0 to |all|
      invariant candidates == Dedup(all[..i])
      invariant seen == KeysOf(candidates)
    {
      var h := all[i];
      var key := (h.fdcId, h.dataType);
      assert all[..i + 1][..i] == all[..i];
      if key !in seen {
        KeysOfSnoc(candidates, ToCandidate(h));
        candidates := candidates + [Candidate(h.fdcId, h.dataType, h.description, None)];
        seen := seen + {key};
      }
    }
    assert all[..|all|] == all;
    DedupSpec(all);
    DedupPrefix(ftsResults, fuzzyResults);
  }

  /** With both searches at their limits there are at most 40 candidates. */
  lemma CandidateBound(ftsResults: seq<SearchHit>, fuzzyResults: seq<SearchHit>)
    requires |ftsResults| <= FtsLimit && |fuzzyResults| <= FuzzyLimit
    ensures |Dedup(ftsResults + fuzzyResults)| <= 40
  {
  }

  // ---------------------------------------------------------------------
  // rerank_with_embeddings: scoring
  // ---------------------------------------------------------------------

  /** How many of `words` occur in `description`, counting repeated words each time. */
  function CountContained(words: seq<string>, description: string): (n: nat)
    ensures n <= |words|
  {
    if words == [] then 0
    else (if Contains(description, words[0]) then 1 else 0) + CountContained(words[1..], description)
  }

  /** The number of whitespace-separated words of the term found in the description. */
  function Overlap(term: string, description: string): nat {
    CountContained(Words(term), description)
  }

  /** Two words count one each that the description contains. */
  lemma CountContainedTwo(a: string, b: string, d: string)
    ensures CountContained([a, b], d) == (if Contains(d, a) then 1 else 0) + (if Contains(d, b) then 1 else 0)
  {
    assert [a, b][1..] == [b] && [b][1..] == [];
    assert CountContained([b], d) == (if Contains(d, b) then 1 else 0) + CountContained([], d);
  }

  /** Both words of "greek yogurt" occur in "yogurt plain greek". */
  lemma OverlapExample(term: string, d: string)
    requires term == "greek yogurt" && d == "yogurt plain greek"
    ensures Overlap(term, d) == 2
  {
    assert term == "greek" + " " + "yogurt";
    WordsOfTwo("greek", "yogurt");
    assert d[13..18] == "greek";
    ContainsAt(d, "greek", 13);
    assert d[0..6] == "yogurt";
    ContainsAt(d, "yogurt", 0);
    CountContainedTwo("greek", "yogurt", d);
  }

  /** A repeated word of the term counts once per occurrence. */
  lemma RepeatedWordExample(term: string, d: string)
    requires term == "greek greek" && d == "greek yogurt"
    ensures Overlap(term, d) == 2
  {
    assert term == "greek" + " " + "greek";
    WordsOfTwo("greek", "greek");
    assert d[0..5] == "greek";
    ContainsAt(d, "greek", 0);
    CountContainedTwo("greek", "greek", d);
  }

  /** Two words joined by one space read back as those two words. */
  lemma WordsOfTwo(a: string, b: string)
    requires a != "" && NoSpace(a) && b != "" && NoSpace(b)
    ensures Words(a + " " + b) == [a, b]
  {
    assert Join([a, b], ' ') == a + [' '] + Join([b], ' ');
    WordsOfJoin([a, b]);
  }

  /** A candidate scored from its cosine similarity and its word overlap with the term. */
  function Score(term: string, c: Candidate, cosine: real): (e: Scored)
    ensures e.fdcId == c.fdcId && e.dataType == c.dataType && e.description == c.description
    ensures cosine <= e.similarity <= cosine + OverlapBonus * |Words(term)| as real
  {
    Scored(c.fdcId, c.dataType, c.description, cosine + OverlapBonus * Overlap(term, c.description) as real)
  }

  /** `e` is the score of candidate `c`, which has a stored embedding. */
  predicate ScoredFrom(e: Scored, c: Candidate, term: string, cosines: map<Key, real>) {
    CandidateKey(c) in cosines && e == Score(term, c, cosines[CandidateKey(c)])
  }

  /** The scores of the candidates that have a stored embedding, in candidate order. */
  function ScoreAll(term: string, cands: seq<Candidate>, cosines: map<Key, real>): seq<Scored> {
    if cands == [] then []
    else
      var rest := ScoreAll(term, cands[..|cands| - 1], cosines);
      var c := cands[|cands| - 1];
      if CandidateKey(c) in cosines then rest + [Score(term, c, cosines[CandidateKey(c)])] else rest
  }

  /** The number of candidates that have a stored embedding. */
  function EmbeddedCount(cands: seq<Candidate>, cosines: map<Key, real>): nat {
    if cands == [] then 0
    else EmbeddedCount(cands[..|cands| - 1], cosines) + (if CandidateKey(cands[|cands| - 1]) in cosines then 1 else 0)
  }

  /**
   * Scoring keeps exactly the candidates with an embedding: one score per
   * such candidate, and every score is the score of such a candidate.
   */
  lemma {:induction false} ScoreAllCount(term: string, cands: seq<Candidate>, cosines: map<Key, real>)
    ensures |ScoreAll(term, cands, cosines)| == EmbeddedCount(cands, cosines)
    ensures forall i :: 0 <= i < |ScoreAll(term, cands, cosines)| ==>
      exists j :: 0 <= j < |cands| && ScoredFrom(ScoreAll(term, cands, cosines)[i], cands[j], term, cosines)
  {
    if cands != [] {
      var init := cands[..|cands| - 1];
      ScoreAllCount(term, init, cosines);
      var s, s0 := ScoreAll(term, cands, cosines), ScoreAll(term, init, cosines);
      forall i | 0 <= i < |s| ensures exists j :: 0 <= j < |cands| && ScoredFrom(s[i], cands[j], term, cosines) {
        if i < |s0| {
          assert s[i] == s0[i];
          var j :| 0 <= j < |init| && ScoredFrom(s0[i], init[j], term, cosines);
          assert cands[j] == init[j];
        } else {
          assert ScoredFrom(s[i], cands[|cands| - 1], term, cosines);
        }
      }
    }
  }

  /** A longer prefix holds at least as many embedded candidates. */
  lemma {:induction false} EmbeddedCountMono(cands: seq<Candidate>, cosines: map<Key, real>, a: nat, b: nat)
    requires a <= b <= |cands|
    ensures EmbeddedCount(cands[..a], cosines) <= EmbeddedCount(cands[..b], cosines)
  {
    if a < b {
      EmbeddedCountMono(cands, cosines, a, b - 1);
      var p := cands[..b];
      assert p[..|p| - 1] == cands[..b - 1];
    }
  }

  /** An embedded candidate comes strictly before the slots of every later candidate. */
  lemma EmbeddedCountStrict(cands: seq<Candidate>, cosines: map<Key, real>, j: nat, k: nat)
    requires j < k <= |cands| && CandidateKey(cands[j]) in cosines
    ensures EmbeddedCount(cands[..j], cosines) < EmbeddedCount(cands[..k], cosines)
  {
    var p := cands[..j + 1];
    assert p[..|p| - 1] == cands[..j];
    EmbeddedCountMono(cands, cosines, j + 1, k);
  }

  /**
   * The score of the embedded candidate `cands[j]` sits at the position given
   * by the number of embedded candidates before it.
   */
  lemma {:induction false} ScoreAllPositions(term: string, cands: seq<Candidate>, cosines: map<Key, real>)
    ensures forall j :: 0 <= j < |cands| && CandidateKey(cands[j]) in cosines ==>
      EmbeddedCount(cands[..j], cosines) < |ScoreAll(term, cands, cosines)| &&
      ScoreAll(term, cands, cosines)[EmbeddedCount(cands[..j], cosines)] == Score(term, cands[j], cosines[CandidateKey(cands[j])])
  {
    if cands != [] {
      var init := cands[..|cands| - 1];
      ScoreAllPositions(term, init, cosines);
      ScoreAllCount(term, init, cosines);
      var s, s0 := ScoreAll(term, cands, cosines), ScoreAll(term, init, cosines);
      forall j | 0 <= j < |cands| && CandidateKey(cands[j]) in cosines
        ensures EmbeddedCount(cands[..j], cosines) < |s| &&
          s[EmbeddedCount(cands[..j], cosines)] == Score(term, cands[j], cosines[CandidateKey(cands[j])])
      {
        if j < |init| {
          assert cands[..j] == init[..j];
          assert cands[j] == init[j];
        } else {
          assert cands[..j] == init;
        }
      }
    }
  }

  /**
   * Scoring keeps, in candidate order, one score for each candidate with an
   * embedding and nothing else.
   */
  lemma ScoreAllSpec(term: string, cands: seq<Candidate>, cosines: map<Key, real>)
    ensures |ScoreAll(term, cands, cosines)| == EmbeddedCount(cands, cosines)
    ensures forall i :: 0 <= i < |ScoreAll(term, cands, cosines)| ==>
      exists j :: 0 <= j < |cands| && ScoredFrom(ScoreAll(term, cands, cosines)[i], cands[j], term, cosines)
    ensures forall j :: 0 <= j < |cands| && CandidateKey(cands[j]) in cosines ==>
      EmbeddedCount(cands[..j], cosines) < |ScoreAll(term, cands, cosines)| &&
      ScoreAll(term, cands, cosines)[EmbeddedCount(cands[..j], cosines)] == Score(term, cands[j], cosines[CandidateKey(cands[j])])
    ensures forall j, k :: 0 <= j < k < |cands| && CandidateKey(cands[j]) in cosines ==>
      EmbeddedCount(cands[..j], cosines) < EmbeddedCount(cands[..k], cosines)
  {
    ScoreAllCount(term, cands, cosines);
    ScoreAllPositions(term, cands, cosines);
    forall j, k | 0 <= j < k < |cands| && CandidateKey(cands[j]) in cosines
      ensures EmbeddedCount(cands[..j], cosines) < EmbeddedCount(cands[..k], cosines)
    {
      EmbeddedCountStrict(cands, cosines, j, k);
    }
  }

  /** The candidate list after the reranker's writes: no embedding means similarity 0.0. */
  function MarkUnembedded(cands: seq<Candidate>, cosines: map<Key, real>): (r: seq<Candidate>)
    ensures |r| == |cands|
    ensures forall i :: 0 <= i < |cands| ==>
      r[i] == if CandidateKey(cands[i]) in cosines then cands[i] else cands[i].(similarity := Some(0.0))
  {
    seq(|cands|, i requires 0 <= i < |cands| =>
      if CandidateKey(cands[i]) in cosines then cands[i] else cands[i].(similarity := Some(0.0)))
  }

  /**
   * Marking keeps every candidate's identity and description and leaves no
   * candidate without an embedding unscored.
   */
  lemma MarkUnembeddedSpec(cands: seq<Candidate>, cosines: map<Key, real>)
    ensures KeysOf(MarkUnembedded(cands, cosines)) == KeysOf(cands)
    ensures forall i :: 0 <= i < |cands| ==>
      MarkUnembedded(cands, cosines)[i].description == cands[i].description &&
      (CandidateKey(cands[i]) in cosines || MarkUnembedded(cands, cosines)[i].similarity == Some(0.0))
  {
    var r := MarkUnembedded(cands, cosines);
    forall k | k in KeysOf(r) ensures k in KeysOf(cands) {
      var i :| 0 <= i < |r| && CandidateKey(r[i]) == k;
      assert CandidateKey(cands[i]) == k;
    }
    forall k | k in KeysOf(cands) ensures k in KeysOf(r) {
      var i :| 0 <= i < |cands| && CandidateKey(cands[i]) == k;
      assert CandidateKey(r[i]) == k;
    }
  }

  // ---------------------------------------------------------------------
  // rerank_with_embeddings: stable descending sort
  // ---------------------------------------------------------------------

  /** Similarities never increase along the list. */
  predicate SortedDesc(s: seq<Scored>) {
    forall i, j :: 0 <= i < j < |s| ==> s[i].similarity >= s[j].similarity
  }

  /** The entries with similarity `v`, in order. */
  function WithSimilarity(s: seq<Scored>, v: real): seq<Scored> {
    if s == [] then []
    else (if s[0].similarity == v then [s[0]] else []) + WithSimilarity(s[1..], v)
  }

  /** Insert `x` after every leading entry that scores at least as high. */
  function InsertDesc(x: Scored, t: seq<Scored>): (r: seq<Scored>)
    ensures |r| == |t| + 1
  {
    if t == [] then [x]
    else if t[0].similarity >= x.similarity then [t[0]] + InsertDesc(x, t[1..])
    else [x] + t
  }

  /** `sorted(s, key=similarity, reverse=True)`: a stable descending sort. */
  function SortDesc(s: seq<Scored>): (r: seq<Scored>)
    ensures |r| == |s|
  {
    if s == [] then []
    else InsertDesc(s[|s| - 1], SortDesc(s[..|s| - 1]))
  }

  lemma {:induction false} WithSimilarityAppend(a: seq<Scored>, b: seq<Scored>, v: real)
    ensures WithSimilarity(a + b, v) == WithSimilarity(a, v) + WithSimilarity(b, v)
  {
    if a == [] {
      assert a + b == b;
    } else {
      assert a + b == [a[0]] + (a[1..] + b);
      assert a == [a[0]] + a[1..];
      WithSimilarityCons(a[0], a[1..] + b, v);
      WithSimilarityCons(a[0], a[1..], v);
      WithSimilarityAppend(a[1..], b, v);
    }
  }

  lemma {:induction false} WithSimilarityNone(s: seq<Scored>, v: real)
    requires forall i :: 0 <= i < |s| ==> s[i].similarity < v
    ensures WithSimilarity(s, v) == []
  {
    if s != [] {
      WithSimilarityNone(s[1..], v);
    }
  }

  /** Inserting adds exactly `x`. */
  lemma {:induction false} InsertDescMultiset(x: Scored, t: seq<Scored>)
    ensures multiset(InsertDesc(x, t)) == multiset(t) + multiset{x}
  {
    if t != [] && t[0].similarity >= x.similarity {
      InsertDescMultiset(x, t[1..]);
      assert t == [t[0]] + t[1..];
    }
  }

  /** Inserting into a sorted list keeps it sorted. */
  lemma {:induction false} InsertDescSorted(x: Scored, t: seq<Scored>)
    requires SortedDesc(t)
    ensures SortedDesc(InsertDesc(x, t))
  {
    if t != [] && t[0].similarity >= x.similarity {
      var rest := InsertDesc(x, t[1..]);
      InsertDescSorted(x, t[1..]);
      InsertDescMultiset(x, t[1..]);
      forall k | 0 <= k < |rest| ensures t[0].similarity >= rest[k].similarity {
        assert rest[k] in multiset(rest);
        if rest[k] != x {
          assert rest[k] in multiset(t[1..]);
          var m :| 0 <= m < |t[1..]| && t[1..][m] == rest[k];
          assert t[1..][m] == t[m + 1];
        }
      }
      var r := [t[0]] + rest;
      assert r[1..] == rest;
      forall i, j | 0 <= i < j < |r| ensures r[i].similarity >= r[j].similarity {
        if i > 0 { assert r[i] == rest[i - 1]; }
        assert r[j] == rest[j - 1];
      }
    }
  }

  /** The tail of a descending list is descending. */
  lemma SortedDescTail(t: seq<Scored>)
    requires t != [] && SortedDesc(t)
    ensures SortedDesc(t[1..])
  {
    forall i, j | 0 <= i < j < |t[1..]| ensures t[1..][i].similarity >= t[1..][j].similarity {
      assert t[1..][i] == t[i + 1] && t[1..][j] == t[j + 1];
    }
  }

  /** The entries of `[x] + t` with similarity `v`: `x` if it has it, then those of `t`. */
  lemma WithSimilarityCons(x: Scored, t: seq<Scored>, v: real)
    ensures WithSimilarity([x] + t, v) == (if x.similarity == v then [x] else []) + WithSimilarity(t, v)
  {
    var r := [x] + t;
    assert r[0] == x && r[1..] == t;
  }

  /** `x` goes in front of a descending list whose head scores lower, so no entry of `t` shares its similarity. */
  lemma InsertDescStableFront(x: Scored, t: seq<Scored>, v: real)
    requires SortedDesc(t) && t != [] && t[0].similarity < x.similarity
    ensures WithSimilarity(InsertDesc(x, t), v) == WithSimilarity(t, v) + (if x.similarity == v then [x] else [])
  {
    assert InsertDesc(x, t) == [x] + t;
    WithSimilarityCons(x, t, v);
    if x.similarity == v {
      forall i | 0 <= i < |t| ensures t[i].similarity < v {
        if i > 0 { assert t[0].similarity >= t[i].similarity; }
      }
      WithSimilarityNone(t, v);
    }
  }

  /** `x` goes behind the head of `t`, so the head's entry comes first. */
  lemma InsertDescStableBehind(x: Scored, t: seq<Scored>, v: real)
    requires t != [] && t[0].similarity >= x.similarity
    requires WithSimilarity(InsertDesc(x, t[1..]), v) == WithSimilarity(t[1..], v) + (if x.similarity == v then [x] else [])
    ensures WithSimilarity(InsertDesc(x, t), v) == WithSimilarity(t, v) + (if x.similarity == v then [x] else [])
  {
    var mine := if x.similarity == v then [x] else [];
    var head := if t[0].similarity == v then [t[0]] else [];
    var rest := InsertDesc(x, t[1..]);
    assert InsertDesc(x, t) == [t[0]] + rest;
    WithSimilarityCons(t[0], rest, v);
    WithSimilarityCons(t[0], t[1..], v);
    assert [t[0]] + t[1..] == t;
    assert head + (WithSimilarity(t[1..], v) + mine) == (head + WithSimilarity(t[1..], v)) + mine;
  }

  /** Inserting into a sorted list puts `x` after every entry of equal similarity. */
  lemma {:induction false} InsertDescStable(x: Scored, t: seq<Scored>, v: real)
    requires SortedDesc(t)
    ensures WithSimilarity(InsertDesc(x, t), v) == WithSimilarity(t, v) + (if x.similarity == v then [x] else [])
  {
    var mine := if x.similarity == v then [x] else [];
    if t == [] {
      WithSimilarityCons(x, [], v);
      assert [x] + [] == [x];
    } else if t[0].similarity >= x.similarity {
      SortedDescTail(t);
      InsertDescStable(x, t[1..], v);
      InsertDescStableBehind(x, t, v);
    } else {
      InsertDescStableFront(x, t, v);
    }
  }

  /** The sort is descending. */
  lemma {:induction false} SortDescSorted(s: seq<Scored>)
    ensures SortedDesc(SortDesc(s))
  {
    if s != [] {
      SortDescSorted(s[..|s| - 1]);
      InsertDescSorted(s[|s| - 1], SortDesc(s[..|s| - 1]));
    }
  }

  /** The sort keeps exactly the entries of its input. */
  lemma {:induction false} SortDescPermutation(s: seq<Scored>)
    ensures multiset(SortDesc(s)) == multiset(s)
  {
    if s != [] {
      var init, x := s[..|s| - 1], s[|s| - 1];
      SortDescPermutation(init);
      InsertDescMultiset(x, SortDesc(init));
      assert s == init + [x];
      assert multiset(s) == multiset(init) + multiset{x};
    }
  }

  /** The sort keeps the input order among entries of equal similarity. */
  lemma {:induction false} SortDescStable(s: seq<Scored>, v: real)
    ensures WithSimilarity(SortDesc(s), v) == WithSimilarity(s, v)
  {
    if s != [] {
      var init, x := s[..|s| - 1], s[|s| - 1];
      SortDescStable(init, v);
      SortDescSorted(init);
      InsertDescStable(x, SortDesc(init), v);
      WithSimilarityAppend(init, [x], v);
      WithSimilarityCons(x, [], v);
      assert [x] + [] == [x];
      assert s == init + [x];
    }
  }

  /**
   * The sort returns a permutation of its input in descending order of
   * similarity, and entries of equal similarity keep their input order.
   */
  lemma SortDescSpec(s: seq<Scored>)
    ensures SortedDesc(SortDesc(s))
    ensures multiset(SortDesc(s)) == multiset(s)
    ensures |SortDesc(s)| == |s|
    ensures forall v :: WithSimilarity(SortDesc(s), v) == WithSimilarity(s, v)
  {
    SortDescSorted(s);
    SortDescPermutation(s);
    forall v ensures WithSimilarity(SortDesc(s), v) == WithSimilarity(s, v) {
      SortDescStable(s, v);
    }
  }

  /** The first `topK` entries of the sorted scores, or all of them when there are fewer. */
  function Ranked(term: string, cands: seq<Candidate>, cosines: map<Key, real>, topK: nat): (r: seq<Scored>)
    ensures |r| <= topK && |r| <= |ScoreAll(term, cands, cosines)|
  {
    var sorted := SortDesc(ScoreAll(term, cands, cosines));
    if topK < |sorted| then sorted[..topK] else sorted
  }

  /**
   * The reranked list is the best `topK` scores in descending order, as
   * many as there are candidates with an embedding up to `topK`, and each
   * entry is the score of a candidate that has an embedding.
   */
  lemma RankedSpec(term: string, cands: seq<Candidate>, cosines: map<Key, real>, topK: nat)
    ensures Ranked(term, cands, cosines, topK) <= SortDesc(ScoreAll(term, cands, cosines))
    ensures |Ranked(term, cands, cosines, topK)| ==
      if topK < EmbeddedCount(cands, cosines) then topK else EmbeddedCount(cands, cosines)
    ensures SortedDesc(Ranked(term, cands, cosines, topK))
    ensures forall i :: 0 <= i < |Ranked(term, cands, cosines, topK)| ==>
      exists j :: 0 <= j < |cands| && ScoredFrom(Ranked(term, cands, cosines, topK)[i], cands[j], term, cosines)
  {
    var scored := ScoreAll(term, cands, cosines);
    var sorted := SortDesc(scored);
    var ranked := Ranked(term, cands, cosines, topK);
    SortDescSpec(scored);
    ScoreAllCount(term, cands, cosines);
    forall i | 0 <= i < |ranked| ensures exists j :: 0 <= j < |cands| && ScoredFrom(ranked[i], cands[j], term, cosines) {
      assert ranked[i] == sorted[i];
      assert sorted[i] in multiset(sorted);
      var m :| 0 <= m < |scored| && scored[m] == sorted[i];
    }
  }

  /**
   * rerank_with_embeddings: score every candidate that has a stored
   * embedding (cosine plus 0.05 per term word found in its description),
   * write similarity 0.0 into the others, sort descending and keep `topK`.
   * `cosines` maps the key of each candidate with a stored embedding to its
   * cosine similarity with the term's embedding.
   */
  method RerankWithEmbeddings(term: string, cands: seq<Candidate>, cosines: map<Key, real>, topK: nat)
    returns (ranked: seq<Scored>, marked: seq<Candidate>)
    ensures ranked == Ranked(term, cands, cosines, topK)
    ensures |ranked| == if topK < EmbeddedCount(cands, cosines) then topK else EmbeddedCount(cands, cosines)
    ensures SortedDesc(ranked)
    ensures forall i :: 0 <= i < |ranked| ==>
      exists j :: 0 <= j < |cands| && ScoredFrom(ranked[i], cands[j], term, cosines)
    ensures forall i :: 0 <= i < |ranked| ==> (ranked[i].fdcId, ranked[i].dataType) in cosines
    ensures marked == MarkUnembedded(cands, cosines)
    ensures forall i :: 0 <= i < |cands| ==>
      marked[i] == if CandidateKey(cands[i]) in cosines then cands[i] else cands[i].(similarity := Some(0.0))
  {
    var scored: seq<Scored> := [];
    marked := cands;
    for i := 0 to |cands|
      invariant scored == ScoreAll(term, cands[..i], cosines)
      invariant |marked| == |cands|
      invariant forall k :: 0 <= k < |cands| ==>
        marked[k] == if k < i && CandidateKey(cands[k]) !in cosines then cands[k].(similarity := Some(0.0)) else cands[k]
    {
      var c := cands[i];
      assert cands[..i + 1][..i] == cands[..i];
      if (c.fdcId, c.dataType) in cosines {
        var sim := cosines[(c.fdcId, c.dataType)];
        var overlap := Overlap(term, c.description);
        sim := sim + 0.05 * overlap as real;
        scored := scored + [Scored(c.fdcId, c.dataType, c.description, sim)];
      } else {
        marked := marked[i := c.(similarity := Some(0.0))];
      }
    }
    assert cands[..|cands|] == cands;
    var sorted := SortDesc(scored);
    ranked := if topK < |sorted| then sorted[..topK] else sorted;
    RankedSpec(term, cands, cosines, topK);
  }
}
