/**
 * BM25 text search over the chunks of a file, with exact real arithmetic in place of floating point.
 */
module Search {
  import opened Prelude
  import Decimal

  const K1: real := 1.2
  const B: real := 0.75
  const PHRASE_BONUS: real := 1.5
  const MAX_RESULTS: nat := 20

  /** Text processing and the logarithm, as the search calls them. */
  datatype Library = Library(
    isBlank: string -> bool,
    containsCJK: string -> bool,
    smartTokenize: string -> seq<string>,
    tokenize: string -> seq<string>,
    normalizeText: string -> string,
    log: real -> real)

  /** The law of the logarithm that makes every score positive. */
  ghost predicate LogIsPositiveAboveOne(lib: Library) {
    forall x: real | x > 1.0 :: lib.log(x) > 0.0
  }

  datatype Chunk = Chunk(id: Option<string>, chunkIndex: nat, text: string)

  datatype SearchResult = SearchResult(id: string, text: string, score: real)

  /** One entry of the score map: a chunk position and its score. */
  datatype Hit = Hit(index: nat, score: real)

  /// Counting

  function Tf(tokens: seq<string>, term: string): nat {
    multiset(tokens)[term]
  }

  /** Occurrences add up over the parts of a text. */
  lemma OccurrencesAdd(a: seq<string>, b: seq<string>, token: string, term: string)
    ensures Tf(a + b, term) == Tf(a, term) + Tf(b, term)
    ensures Tf([token], term) == if token == term then 1 else 0
  {}

  method BuildTermFrequencyMap(tokens: seq<string>) returns (freq: map<string, nat>)
    ensures forall t :: t in freq <==> t in tokens
    ensures forall t | t in freq :: freq[t] == Tf(tokens, t)
  {
    freq := map[];
    for i := 0 to |tokens|
      invariant forall t :: t in freq <==> t in tokens[..i]
      invariant forall t | t in freq :: freq[t] == multiset(tokens[..i])[t]
    {
      assert tokens[..i + 1] == tokens[..i] + [tokens[i]];
      freq := freq[tokens[i] := (if tokens[i] in freq then freq[tokens[i]] else 0) + 1];
    }
    assert tokens[..|tokens|] == tokens;
  }

  /** The positions of the documents that contain `term`. */
  function Containing(docs: seq<seq<string>>, term: string): set<nat> {
    set i | 0 <= i < |docs| && term in docs[i]
  }

  function Lookup(m: map<string, nat>, term: string): nat {
    if term in m then m[term] else 0
  }

  /** `m` counts for every term the documents it occurs in. */
  ghost predicate CountsDocuments(m: map<string, nat>, docs: seq<seq<string>>) {
    forall t :: Lookup(m, t) == |Containing(docs, t)|
  }

  lemma ContainingOneMore(docs: seq<seq<string>>, doc: seq<string>, t: string)
    ensures |Containing(docs + [doc], t)| == |Containing(docs, t)| + (if t in doc then 1 else 0)
  {
    if t in doc {
      assert Containing(docs + [doc], t) == Containing(docs, t) + {|docs|};
    } else {
      assert Containing(docs + [doc], t) == Containing(docs, t);
    }
  }

  method BuildDocFrequencies(docs: seq<seq<string>>) returns (freq: map<string, nat>)
    ensures CountsDocuments(freq, docs)
  {
    freq := map[];
    assert forall t :: Containing([], t) == {};
    for i := 0 to |docs|
      invariant CountsDocuments(freq, docs[..i])
    {
      ghost var before := freq;
      var unique := set t | t in docs[i];
      var rest := unique;
      while rest != {}
        invariant rest <= unique
        invariant forall t :: Lookup(freq, t) == Lookup(before, t) + (if t in unique - rest then 1 else 0)
      {
        var term :| term in rest;
        freq := freq[term := Lookup(freq, term) + 1];
        rest := rest - {term};
      }
      assert docs[..i + 1] == docs[..i] + [docs[i]];
      forall t ensures Lookup(freq, t) == |Containing(docs[..i + 1], t)| {
        ContainingOneMore(docs[..i], docs[i], t);
        assert Lookup(before, t) == |Containing(docs[..i], t)|;
      }
    }
    assert docs[..|docs|] == docs;
  }

  lemma {:induction false} BelowBound(xs: set<nat>, n: nat)
    requires forall x | x in xs :: x < n
    ensures |xs| <= n
  {
    if n == 0 {
      assert xs == {};
    } else {
      BelowBound(xs - {n - 1}, n - 1);
      assert xs <= xs - {n - 1} + {n - 1};
      assert |xs| <= |xs - {n - 1}| + 1;
    }
  }

  lemma DocFrequencyBounded(docs: seq<seq<string>>, t: string)
    ensures |Containing(docs, t)| <= |docs|
  {
    BelowBound(Containing(docs, t), |docs|);
  }

  /// Scores

  function Idf(lib: Library, total: nat, df: nat): real {
    lib.log((total as real - df as real + 0.5) / (df as real + 0.5) + 1.0)
  }

  function Saturation(tf: nat, length: nat, avgLength: real): real
    requires tf > 0 && avgLength > 0.0
  {
    var denominator := tf as real + K1 * (1.0 - B + B * (length as real / avgLength));
    DenominatorPositive(tf, length, avgLength);
    (tf as real * (K1 + 1.0)) / denominator
  }

  lemma DenominatorPositive(tf: nat, length: nat, avgLength: real)
    requires tf > 0 && avgLength > 0.0
    ensures tf as real + K1 * (1.0 - B + B * (length as real / avgLength)) > 0.0
  {
    assert length as real / avgLength >= 0.0;
  }

  function TermScore(
    lib: Library, term: string, tokens: seq<string>, avgLength: real, freq: map<string, nat>, total: nat): real
    requires avgLength > 0.0
  {
    var tf := Tf(tokens, term);
    if tf == 0 then 0.0
    else Idf(lib, total, Lookup(freq, term)) * Saturation(tf, |tokens|, avgLength)
  }

  /** The BM25 score: the sum of the term scores over the query, repeated terms included. */
  function Score(
    lib: Library, query: seq<string>, tokens: seq<string>, avgLength: real, freq: map<string, nat>, total: nat): real
    requires avgLength > 0.0
  {
    if query == [] then 0.0
    else Score(lib, query[..|query| - 1], tokens, avgLength, freq, total)
         + TermScore(lib, query[|query| - 1], tokens, avgLength, freq, total)
  }

  method CalculateBM25Score(lib: Library, query: seq<string>, tokens: seq<string>, chunkLength: nat, avgLength: real,
                            freq: map<string, nat>, total: nat) returns (score: real)
    requires avgLength > 0.0 && chunkLength == |tokens|
    ensures score == Score(lib, query, tokens, avgLength, freq, total)
  {
    var termFreq := BuildTermFrequencyMap(tokens);
    score := 0.0;
    for i := 0 to |query|
      invariant score == Score(lib, query[..i], tokens, avgLength, freq, total)
    {
      assert query[..i + 1][..i] == query[..i];
      var tf := Lookup(termFreq, query[i]);
      assert tf == Tf(tokens, query[i]);
      if tf == 0 {
        continue;
      }
      var df := Lookup(freq, query[i]);
      var idf := lib.log((total as real - df as real + 0.5) / (df as real + 0.5) + 1.0);
      DenominatorPositive(tf, chunkLength, avgLength);
      var normalized :=
        (tf as real * (K1 + 1.0)) / (tf as real + K1 * (1.0 - B + B * (chunkLength as real / avgLength)));
      score := score + idf * normalized;
    }
    assert query[..|query|] == query;
  }

  /// What the formula promises: rare terms, repeated terms and short chunks count more

  ghost predicate LogIncreases(lib: Library) {
    forall x: real, y: real | 0.0 < x < y :: lib.log(x) < lib.log(y)
  }

  lemma CancelPositive(x: real, y: real, d: real)
    requires d > 0.0
    ensures x < y <==> x * d < y * d
  {
    if y <= x {
      assert (x - y) * d >= 0.0;
    } else {
      assert (y - x) * d > 0.0;
    }
  }

  lemma QuotientTimes(x: real, d: real)
    requires d != 0.0
    ensures x / d * d == x
  {}

  lemma SmallerQuotient(x: real, a: real, b: real)
    requires 0.0 < x && 0.0 < a < b
    ensures x / b < x / a
  {
    QuotientPositive(x, b);
    QuotientTimes(x, a);
    QuotientTimes(x, b);
    LargerProduct(a, b, x / b);
    CancelPositive(x / b, x / a, a);
  }

  lemma LargerProduct(x: real, y: real, f: real)
    requires x < y && f > 0.0
    ensures x * f < y * f && f * x < f * y
  {
    CancelPositive(x, y, f);
  }

  /** The smoothed fraction, simplified: one more than the documents, over the document frequency and a half. */
  lemma IdfExactly(lib: Library, total: nat, df: nat)
    ensures Idf(lib, total, df) == lib.log((total as real + 1.0) / (df as real + 0.5))
  {
    var d := df as real + 0.5;
    assert (total as real - df as real + 0.5) / d + 1.0 == (total as real - df as real + 0.5) / d + d / d;
    SumOfQuotients(total as real - df as real + 0.5, d, d);
  }

  lemma SumOfQuotients(x: real, y: real, d: real)
    requires d != 0.0
    ensures x / d + y / d == (x + y) / d
  {}

  /** The fewer documents a term is in, the more it counts. */
  lemma RarerCountsMore(lib: Library, total: nat, df: nat, more: nat)
    requires LogIncreases(lib) && df < more
    ensures Idf(lib, total, more) < Idf(lib, total, df)
  {
    IdfExactly(lib, total, df);
    IdfExactly(lib, total, more);
    SmallerQuotient(total as real + 1.0, df as real + 0.5, more as real + 0.5);
  }

  /** The length part of the denominator, with the constants written out. */
  function LengthPart(length: nat, avgLength: real): real
    requires avgLength > 0.0
  {
    1.2 * (0.25 + 0.75 * (length as real / avgLength))
  }

  lemma LengthPartPositive(length: nat, avgLength: real)
    requires avgLength > 0.0
    ensures LengthPart(length, avgLength) > 0.0
  {
    assert length as real / avgLength >= 0.0;
  }

  /** The saturation of `tf` occurrences, as one equation without a quotient. */
  lemma SaturationExactly(tf: nat, length: nat, avgLength: real)
    requires tf > 0 && avgLength > 0.0
    ensures Saturation(tf, length, avgLength) * (tf as real + LengthPart(length, avgLength)) == 2.2 * tf as real
  {
    LengthPartPositive(length, avgLength);
    assert Saturation(tf, length, avgLength) == 2.2 * tf as real / (tf as real + LengthPart(length, avgLength));
  }

  /** At average length one occurrence counts once, and no number of occurrences counts 2.2 times. */
  lemma SaturationBounds(tf: nat, length: nat, avgLength: real)
    requires tf > 0 && avgLength > 0.0
    ensures 0.0 < Saturation(tf, length, avgLength) < 2.2
    ensures tf == 1 && length as real == avgLength ==> Saturation(tf, length, avgLength) == 1.0
  {
    var l := LengthPart(length, avgLength);
    LengthPartPositive(length, avgLength);
    SaturationExactly(tf, length, avgLength);
    BoundedQuotient(Saturation(tf, length, avgLength), tf as real, l);
    if tf == 1 && length as real == avgLength {
      OneAtAverage(Saturation(tf, length, avgLength), length as real / avgLength, length as real);
    }
  }

  lemma OneAtAverage(q: real, ratio: real, length: real)
    requires length > 0.0 && ratio == length / length && q * (1.0 + 1.2 * (0.25 + 0.75 * ratio)) == 2.2
    ensures q == 1.0
  {
    assert ratio == 1.0;
  }

  lemma BoundedQuotient(q: real, t: real, l: real)
    requires t > 0.0 && l > 0.0 && q * (t + l) == 2.2 * t
    ensures 0.0 < q < 2.2
  {
    assert 0.0 * (t + l) < q * (t + l);
    CancelPositive(0.0, q, t + l);
    assert 2.2 * (t + l) == 2.2 * t + 2.2 * l;
    CancelPositive(q, 2.2, t + l);
  }

  /** In chunks of one length, more occurrences count more. */
  lemma MoreOccurrencesCountMore(tf: nat, more: nat, length: nat, avgLength: real)
    requires 0 < tf < more && avgLength > 0.0
    ensures Saturation(tf, length, avgLength) < Saturation(more, length, avgLength)
  {
    LengthPartPositive(length, avgLength);
    SaturationExactly(tf, length, avgLength);
    SaturationExactly(more, length, avgLength);
    SaturationBounds(tf, length, avgLength);
    RisingQuotient(Saturation(tf, length, avgLength), Saturation(more, length, avgLength),
                   tf as real, more as real, LengthPart(length, avgLength));
  }

  lemma RisingQuotient(p: real, q: real, t: real, u: real, l: real)
    requires 0.0 < t < u && l > 0.0 && 0.0 < p < 2.2
    requires p * (t + l) == 2.2 * t && q * (u + l) == 2.2 * u
    ensures p < q
  {
    assert p * (u + l) == p * (t + l) + p * (u - t);
    CancelPositive(p, 2.2, u - t);
    assert 2.2 * (u - t) == 2.2 * u - 2.2 * t;
    CancelPositive(p, q, u + l);
  }

  /** The same occurrences in a longer chunk count less. */
  lemma LongerCountsLess(tf: nat, length: nat, longer: nat, avgLength: real)
    requires tf > 0 && length < longer && avgLength > 0.0
    ensures Saturation(tf, longer, avgLength) < Saturation(tf, length, avgLength)
  {
    LengthPartRises(length, longer, avgLength);
    LengthPartPositive(length, avgLength);
    SaturationExactly(tf, length, avgLength);
    SaturationExactly(tf, longer, avgLength);
    SaturationBounds(tf, longer, avgLength);
    FallingQuotient(Saturation(tf, longer, avgLength), Saturation(tf, length, avgLength), tf as real,
                    LengthPart(longer, avgLength), LengthPart(length, avgLength));
  }

  lemma LengthPartRises(length: nat, longer: nat, avgLength: real)
    requires length < longer && avgLength > 0.0
    ensures LengthPart(length, avgLength) < LengthPart(longer, avgLength)
  {
    var x, y := length as real / avgLength, longer as real / avgLength;
    assert x * avgLength == length as real && y * avgLength == longer as real;
    CancelPositive(x, y, avgLength);
  }

  lemma FallingQuotient(p: real, q: real, t: real, k: real, l: real)
    requires t > 0.0 && 0.0 < l < k && p > 0.0
    requires p * (t + k) == 2.2 * t && q * (t + l) == 2.2 * t
    ensures p < q
  {
    assert p * (t + k) == p * (t + l) + p * (k - l);
    assert p * (k - l) > 0.0;
    CancelPositive(p, q, t + l);
  }

  /** The score of a term that occurs: its rarity times its saturation. */
  lemma TermScoreOfOccurring(lib: Library, term: string, tokens: seq<string>, avgLength: real,
                             freq: map<string, nat>, total: nat)
    requires avgLength > 0.0 && term in tokens
    ensures Tf(tokens, term) > 0
    ensures TermScore(lib, term, tokens, avgLength, freq, total) ==
            Idf(lib, total, Lookup(freq, term)) * Saturation(Tf(tokens, term), |tokens|, avgLength)
  {}

  /** Of two terms that occur equally often in a chunk, the one in fewer chunks scores more. */
  lemma RarerTermScoresMore(lib: Library, tokens: seq<string>, s: string, t: string, avgLength: real,
                            freq: map<string, nat>, total: nat)
    requires LogIncreases(lib) && avgLength > 0.0 && s in tokens && t in tokens && Tf(tokens, s) == Tf(tokens, t)
    requires Lookup(freq, s) < Lookup(freq, t)
    ensures TermScore(lib, t, tokens, avgLength, freq, total) < TermScore(lib, s, tokens, avgLength, freq, total)
  {
    TermScoreOfOccurring(lib, s, tokens, avgLength, freq, total);
    TermScoreOfOccurring(lib, t, tokens, avgLength, freq, total);
    RarerCountsMore(lib, total, Lookup(freq, s), Lookup(freq, t));
    SaturationBounds(Tf(tokens, s), |tokens|, avgLength);
    LargerProduct(Idf(lib, total, Lookup(freq, t)), Idf(lib, total, Lookup(freq, s)),
                  Saturation(Tf(tokens, s), |tokens|, avgLength));
  }

  /** Of two chunks, the one with more occurrences at equal length, or as many in less text, scores more for a term. */
  lemma DenserChunkScoresMore(lib: Library, docs: seq<seq<string>>, j: nat, k: nat, term: string, avgLength: real,
                              freq: map<string, nat>)
    requires LogIsPositiveAboveOne(lib) && CountsDocuments(freq, docs) && avgLength > 0.0
    requires j < |docs| && k < |docs| && term in docs[j] && term in docs[k]
    requires || (Tf(docs[j], term) < Tf(docs[k], term) && |docs[j]| == |docs[k]|)
             || (Tf(docs[j], term) == Tf(docs[k], term) && |docs[k]| < |docs[j]|)
    ensures TermScore(lib, term, docs[j], avgLength, freq, |docs|) <
            TermScore(lib, term, docs[k], avgLength, freq, |docs|)
  {
    TermScoreOfOccurring(lib, term, docs[j], avgLength, freq, |docs|);
    TermScoreOfOccurring(lib, term, docs[k], avgLength, freq, |docs|);
    IdfPositive(lib, docs, term);
    assert Lookup(freq, term) == |Containing(docs, term)|;
    var tf, other := Tf(docs[j], term), Tf(docs[k], term);
    if tf < other {
      MoreOccurrencesCountMore(tf, other, |docs[j]|, avgLength);
    } else {
      LongerCountsLess(tf, |docs[k]|, |docs[j]|, avgLength);
    }
    LargerProduct(Saturation(tf, |docs[j]|, avgLength), Saturation(other, |docs[k]|, avgLength),
                  Idf(lib, |docs|, Lookup(freq, term)));
  }

  predicate SharesToken(query: seq<string>, tokens: seq<string>) {
    exists t :: t in query && t in tokens
  }

  /** Every IDF is positive, since no term is in more documents than there are. */
  lemma IdfPositive(lib: Library, docs: seq<seq<string>>, t: string)
    requires LogIsPositiveAboveOne(lib)
    ensures Idf(lib, |docs|, |Containing(docs, t)|) > 0.0
  {
    DocFrequencyBounded(docs, t);
    var df := |Containing(docs, t)|;
    assert (|docs| as real - df as real + 0.5) / (df as real + 0.5) > 0.0;
  }

  lemma TermScoreSign(
    lib: Library, term: string, docs: seq<seq<string>>, k: nat, avgLength: real, freq: map<string, nat>)
    requires LogIsPositiveAboveOne(lib) && avgLength > 0.0 && CountsDocuments(freq, docs) && k < |docs|
    ensures var s := TermScore(lib, term, docs[k], avgLength, freq, |docs|);
            if term in docs[k] then s > 0.0 else s == 0.0
  {
    if term in docs[k] {
      var tf := Tf(docs[k], term);
      IdfPositive(lib, docs, term);
      DenominatorPositive(tf, |docs[k]|, avgLength);
      var denominator := tf as real + K1 * (1.0 - B + B * (|docs[k]| as real / avgLength));
      QuotientPositive(tf as real * (K1 + 1.0), denominator);
      ProductPositive(Idf(lib, |docs|, Lookup(freq, term)), Saturation(tf, |docs[k]|, avgLength));
    }
  }

  lemma QuotientPositive(x: real, y: real)
    requires x > 0.0 && y > 0.0
    ensures x / y > 0.0
  {}

  lemma ProductPositive(x: real, y: real)
    requires x > 0.0 && y > 0.0
    ensures x * y > 0.0
  {}

  /** A chunk's score is positive exactly when it shares a token with the query, and zero otherwise. */
  lemma {:induction false} ScorePositiveIffShared(lib: Library, query: seq<string>, docs: seq<seq<string>>, k: nat,
                                                  avgLength: real, freq: map<string, nat>)
    requires LogIsPositiveAboveOne(lib) && avgLength > 0.0 && CountsDocuments(freq, docs) && k < |docs|
    ensures var s := Score(lib, query, docs[k], avgLength, freq, |docs|);
            if SharesToken(query, docs[k]) then s > 0.0 else s == 0.0
    decreases |query|
  {
    if query != [] {
      var n := |query| - 1;
      ScorePositiveIffShared(lib, query[..n], docs, k, avgLength, freq);
      TermScoreSign(lib, query[n], docs, k, avgLength, freq);
      assert query == query[..n] + [query[n]];
      if SharesToken(query, docs[k]) {
        var t :| t in query && t in docs[k];
        assert t == query[n] || t in query[..n];
      }
    }
  }

  /// Ranking

  /** Higher score first; among equals, the earlier chunk first. */
  predicate Precedes(a: Hit, b: Hit) {
    a.score > b.score || (a.score == b.score && a.index < b.index)
  }

  ghost predicate Ranked(hits: seq<Hit>) {
    forall i, j | 0 <= i < j < |hits| :: Precedes(hits[i], hits[j])
  }

  /** Stable sorting by descending score: `x` goes behind every hit that scores at least as much. */
  function InsertByScore(hits: seq<Hit>, x: Hit): seq<Hit> {
    if hits == [] || hits[|hits| - 1].score >= x.score then hits + [x]
    else InsertByScore(hits[..|hits| - 1], x) + [hits[|hits| - 1]]
  }

  function SortByScore(hits: seq<Hit>): seq<Hit> {
    if hits == [] then [] else InsertByScore(SortByScore(hits[..|hits| - 1]), hits[|hits| - 1])
  }

  lemma {:induction false} InsertKeepsHits(hits: seq<Hit>, x: Hit)
    ensures multiset(InsertByScore(hits, x)) == multiset(hits) + multiset{x}
  {
    if hits != [] && hits[|hits| - 1].score < x.score {
      var n := |hits| - 1;
      InsertKeepsHits(hits[..n], x);
      assert hits == hits[..n] + [hits[n]];
    }
  }

  lemma {:induction false} InsertByScoreRanks(hits: seq<Hit>, x: Hit)
    requires Ranked(hits) && forall y | y in hits :: y.index < x.index
    ensures Ranked(InsertByScore(hits, x))
  {
    if hits == [] {
    } else if hits[|hits| - 1].score < x.score {
      var n := |hits| - 1;
      assert forall y | y in hits[..n] :: y in hits;
      InsertByScoreRanks(hits[..n], x);
      InsertedPrecedes(hits[..n], x, hits[n]);
    } else {
      AppendedIsLast(hits, x);
    }
  }

  lemma InsertedPrecedes(hits: seq<Hit>, x: Hit, last: Hit)
    requires Precedes(x, last) && forall i | 0 <= i < |hits| :: Precedes(hits[i], last)
    ensures forall i | 0 <= i < |InsertByScore(hits, x)| :: Precedes(InsertByScore(hits, x)[i], last)
  {
    var r := InsertByScore(hits, x);
    InsertKeepsHits(hits, x);
    forall i | 0 <= i < |r| ensures Precedes(r[i], last) {
      assert r[i] in multiset(r);
      assert r[i] == x || r[i] in hits;
    }
  }

  lemma AppendedIsLast(hits: seq<Hit>, x: Hit)
    requires Ranked(hits) && hits != [] &&
             hits[|hits| - 1].score >= x.score && forall y | y in hits :: y.index < x.index
    ensures Ranked(hits + [x])
  {
    var n := |hits| - 1;
    forall i | 0 <= i < |hits| ensures Precedes(hits[i], x) {
      assert hits[i] in hits;
      assert i == n || Precedes(hits[i], hits[n]);
    }
  }

  lemma {:induction false} SortByScoreRanks(hits: seq<Hit>)
    requires forall i, j | 0 <= i < j < |hits| :: hits[i].index < hits[j].index
    ensures Ranked(SortByScore(hits))
    ensures multiset(SortByScore(hits)) == multiset(hits)
  {
    if hits != [] {
      var n := |hits| - 1;
      SortByScoreRanks(hits[..n]);
      assert hits == hits[..n] + [hits[n]];
      forall y | y in SortByScore(hits[..n]) ensures y.index < hits[n].index {
        assert y in multiset(SortByScore(hits[..n]));
        assert y in hits[..n];
      }
      InsertByScoreRanks(SortByScore(hits[..n]), hits[n]);
      InsertKeepsHits(SortByScore(hits[..n]), hits[n]);
    }
  }

  /// The search

  function Includes(text: string, part: string): bool {
    exists i :: 0 <= i <= |text| && part <= text[i..]
  }

  function DocsOf(lib: Library, query: string, chunks: seq<Chunk>): seq<seq<string>> {
    seq(|chunks|, i requires 0 <= i < |chunks| =>
        if lib.containsCJK(query) then lib.smartTokenize(chunks[i].text) else lib.tokenize(chunks[i].text))
  }

  function TotalTokens(docs: seq<seq<string>>): nat {
    if docs == [] then 0 else TotalTokens(docs[..|docs| - 1]) + |docs[|docs| - 1]|
  }

  function AvgLength(docs: seq<seq<string>>): (avg: real)
    ensures avg > 0.0
  {
    if docs == [] || TotalTokens(docs) == 0 then 1.0
    else
      QuotientPositive(TotalTokens(docs) as real, |docs| as real);
      TotalTokens(docs) as real / |docs| as real
  }

  lemma {:induction false} TotalTokensAdds(a: seq<seq<string>>, b: seq<seq<string>>)
    ensures TotalTokens(a + b) == TotalTokens(a) + TotalTokens(b)
  {
    if b == [] {
      assert a + b == a;
    } else {
      var rest, last := b[..|b| - 1], b[|b| - 1];
      TotalTokensAdds(a, rest);
      assert (a + b)[..|a + b| - 1] == a + rest;
    }
  }

  /** The mean length of the chunks times their number is the number of all tokens; it is 1 if there are none. */
  lemma AverageExactly(docs: seq<seq<string>>, mean: real, total: real, n: real)
    requires mean == AvgLength(docs) && total == TotalTokens(docs) as real && n == |docs| as real
    ensures (exists d :: d in docs && d != []) ==> mean * n == total
    ensures (forall d | d in docs :: d == []) ==> mean == 1.0
  {
    NoTokens(docs);
    if TotalTokens(docs) != 0 {
      MeanTimes(mean, total, n);
    }
  }

  lemma MeanTimes(mean: real, x: real, n: real)
    requires n != 0.0 && mean == x / n
    ensures mean * n == x
  {}

  lemma TokensOfOne(doc: seq<string>)
    ensures TotalTokens([doc]) == |doc|
  {
    assert [doc][..0] == [];
  }

  lemma {:induction false} NoTokens(docs: seq<seq<string>>)
    ensures TotalTokens(docs) == 0 <==> forall d | d in docs :: d == []
  {
    if docs != [] {
      var rest, last := docs[..|docs| - 1], docs[|docs| - 1];
      NoTokens(rest);
      assert docs == rest + [last];
      assert last in docs && forall d | d in rest :: d in docs;
    }
  }

  /** `includes`: the part stands somewhere in the text. */
  lemma IncludesExactly(text: string, part: string)
    ensures Includes(text, part) <==> exists before, behind :: text == before + part + behind
  {
    if i :| 0 <= i <= |text| && part <= text[i..] {
      assert text == text[..i] + part + text[i..][|part|..];
    }
    if before, behind :| text == before + part + behind {
      assert part <= text[|before|..];
    }
  }

  function Bonus(lib: Library, query: string, chunk: Chunk): real {
    var phrase := lib.normalizeText(query);
    if phrase != "" && Includes(lib.normalizeText(chunk.text), phrase) then PHRASE_BONUS else 1.0
  }

  /** The BM25 score of chunk `k` for the query, before the phrase bonus. */
  function RawScore(lib: Library, query: seq<string>, docs: seq<seq<string>>, freq: map<string, nat>, k: nat): real
    requires k < |docs|
  {
    Score(lib, query, docs[k], AvgLength(docs), freq, |docs|)
  }

  function RawScores(lib: Library, query: seq<string>, docs: seq<seq<string>>, freq: map<string, nat>): seq<real> {
    seq(|docs|, k requires 0 <= k < |docs| => RawScore(lib, query, docs, freq, k))
  }

  /** The positive scores with their positions, in chunk order. */
  function HitsOf(scores: seq<real>): seq<Hit> {
    if scores == [] then []
    else
      var n := |scores| - 1;
      HitsOf(scores[..n]) + (if scores[n] > 0.0 then [Hit(n, scores[n])] else [])
  }

  ghost predicate InChunkOrder(scores: seq<real>, hits: seq<Hit>) {
    && (forall i | 0 <= i < |hits| :: hits[i].index < |scores| && hits[i].score == scores[hits[i].index] > 0.0)
    && (forall i, j | 0 <= i < j < |hits| :: hits[i].index < hits[j].index)
  }

  lemma {:induction false} HitsInOrder(scores: seq<real>)
    ensures InChunkOrder(scores, HitsOf(scores))
  {
    if scores != [] {
      var n := |scores| - 1;
      HitsInOrder(scores[..n]);
      assert forall i | 0 <= i < n :: scores[..n][i] == scores[i];
    }
  }

  lemma {:induction false} HitsComplete(scores: seq<real>, k: nat)
    requires k < |scores| && scores[k] > 0.0
    ensures exists i :: 0 <= i < |HitsOf(scores)| && HitsOf(scores)[i].index == k
  {
    var hits := HitsOf(scores);
    var n := |scores| - 1;
    if k == n {
      assert hits[|hits| - 1].index == k;
    } else {
      HitsComplete(scores[..n], k);
      var prev := HitsOf(scores[..n]);
      var i :| 0 <= i < |prev| && prev[i].index == k;
      assert hits[i] == prev[i];
    }
  }

  method KeywordSearch(
    lib: Library, query: seq<string>, docs: seq<seq<string>>, avgLength: real, freq: map<string, nat>)
    returns (hits: seq<Hit>)
    requires avgLength == AvgLength(docs)
    ensures hits == if query == [] then [] else HitsOf(RawScores(lib, query, docs, freq))
  {
    hits := [];
    if query == [] {
      return;
    }
    ghost var scores := RawScores(lib, query, docs, freq);
    for k := 0 to |docs|
      invariant hits == HitsOf(scores[..k])
    {
      assert scores[..k + 1][..k] == scores[..k];
      var score := CalculateBM25Score(lib, query, docs[k], |docs[k]|, avgLength, freq, |docs|);
      if score > 0.0 {
        hits := hits + [Hit(k, score)];
      }
    }
    assert scores[..|docs|] == scores;
  }

  function Boost(lib: Library, query: string, chunks: seq<Chunk>, hit: Hit): Hit
    requires hit.index < |chunks|
  {
    Hit(hit.index, hit.score * Bonus(lib, query, chunks[hit.index]))
  }

  function WithBonus(lib: Library, query: string, chunks: seq<Chunk>, hits: seq<Hit>): seq<Hit>
    requires forall i | 0 <= i < |hits| :: hits[i].index < |chunks|
  {
    seq(|hits|, i requires 0 <= i < |hits| && hits[i].index < |chunks| => Boost(lib, query, chunks, hits[i]))
  }

  function ResultId(chunk: Chunk): string {
    if chunk.id.Some? then chunk.id.value else "chunk-" + Decimal.Show(chunk.chunkIndex)
  }

  /** A result is named after the chunk's id, and a chunk without one after its position in the file. */
  lemma ResultIdExactly(chunk: Chunk, id: string)
    ensures ResultId(Chunk(Some(id), chunk.chunkIndex, chunk.text)) == id
    ensures ResultId(Chunk(None, chunk.chunkIndex, chunk.text)) == "chunk-" + Decimal.Show(chunk.chunkIndex)
  {}

  /** The final score of chunk `k`. */
  function FinalScore(lib: Library, query: string, chunks: seq<Chunk>, freq: map<string, nat>, k: nat): real
    requires k < |chunks|
  {
    RawScore(lib, lib.smartTokenize(query), DocsOf(lib, query, chunks), freq, k) * Bonus(lib, query, chunks[k])
  }

  /** The chunks are cut into tokens the way the query asks for, and an exact phrase counts half as much again. */
  lemma FinalScoreExactly(lib: Library, query: string, chunks: seq<Chunk>, freq: map<string, nat>, k: nat)
    requires k < |chunks|
    ensures var phrase := lib.normalizeText(query);
            var raw := RawScore(lib, lib.smartTokenize(query), DocsOf(lib, query, chunks), freq, k);
            && |DocsOf(lib, query, chunks)| == |chunks|
            && (lib.containsCJK(query) ==> DocsOf(lib, query, chunks)[k] == lib.smartTokenize(chunks[k].text))
            && (!lib.containsCJK(query) ==> DocsOf(lib, query, chunks)[k] == lib.tokenize(chunks[k].text))
            && 2.0 * FinalScore(lib, query, chunks, freq, k) ==
               if phrase != "" && exists before, behind :: lib.normalizeText(chunks[k].text) == before + phrase + behind
               then 3.0 * raw else 2.0 * raw
  {
    IncludesExactly(lib.normalizeText(chunks[k].text), lib.normalizeText(query));
  }

  /** `x` carries the final score of its chunk, and that is positive. */
  ghost predicate HasFinalScore(lib: Library, query: string, chunks: seq<Chunk>, freq: map<string, nat>, x: Hit) {
    x.index < |chunks| && x.score == FinalScore(lib, query, chunks, freq, x.index) > 0.0
  }

  /**
   * `ranking` lists the chunks that share a token with the query, best first, each with its final
   * score, which is positive.
   */
  ghost predicate IsRanking(
    lib: Library, query: string, chunks: seq<Chunk>, freq: map<string, nat>, ranking: seq<Hit>) {
    && Ranked(ranking)
    && (forall i | 0 <= i < |ranking| :: HasFinalScore(lib, query, chunks, freq, ranking[i]))
    && (forall k | 0 <= k < |chunks| ::
          SharesToken(lib.smartTokenize(query), DocsOf(lib, query, chunks)[k]) <==>
          exists i :: 0 <= i < |ranking| && ranking[i].index == k)
  }

  lemma BonusPositive(lib: Library, query: string, chunk: Chunk, score: real)
    requires score > 0.0
    ensures score * Bonus(lib, query, chunk) > 0.0
  {}

  lemma BoostedScore(lib: Library, query: string, chunks: seq<Chunk>, freq: map<string, nat>, hit: Hit)
    requires hit.index < |chunks|
    requires hit.score == RawScore(lib, lib.smartTokenize(query), DocsOf(lib, query, chunks), freq, hit.index) > 0.0
    ensures HasFinalScore(lib, query, chunks, freq, Boost(lib, query, chunks, hit))
  {
    BonusPositive(lib, query, chunks[hit.index], hit.score);
  }

  lemma BoostedScores(lib: Library, query: string, chunks: seq<Chunk>, freq: map<string, nat>, hits: seq<Hit>, x: Hit)
    requires InChunkOrder(RawScores(lib, lib.smartTokenize(query), DocsOf(lib, query, chunks), freq), hits)
    requires x in WithBonus(lib, query, chunks, hits)
    ensures HasFinalScore(lib, query, chunks, freq, x)
  {
    var i :| 0 <= i < |hits| && WithBonus(lib, query, chunks, hits)[i] == x;
    BoostedScore(lib, query, chunks, freq, hits[i]);
  }

  lemma BoostedHits(lib: Library, query: string, chunks: seq<Chunk>, freq: map<string, nat>, hits: seq<Hit>)
    requires InChunkOrder(RawScores(lib, lib.smartTokenize(query), DocsOf(lib, query, chunks), freq), hits)
    ensures var ranking := SortByScore(WithBonus(lib, query, chunks, hits));
            && Ranked(ranking)
            && multiset(ranking) == multiset(WithBonus(lib, query, chunks, hits))
            && forall x | x in ranking :: HasFinalScore(lib, query, chunks, freq, x)
  {
    var boosted := WithBonus(lib, query, chunks, hits);
    SortByScoreRanks(boosted);
    forall x | x in SortByScore(boosted) ensures HasFinalScore(lib, query, chunks, freq, x) {
      assert x in multiset(SortByScore(boosted));
      BoostedScores(lib, query, chunks, freq, hits, x);
    }
  }

  lemma MatchesAreRanked(lib: Library, query: string, chunks: seq<Chunk>, freq: map<string, nat>,
                         hits: seq<Hit>, ranking: seq<Hit>, k: nat)
    requires LogIsPositiveAboveOne(lib)
    requires CountsDocuments(freq, DocsOf(lib, query, chunks))
    requires hits == HitsOf(RawScores(lib, lib.smartTokenize(query), DocsOf(lib, query, chunks), freq))
    requires forall i | 0 <= i < |hits| :: hits[i].index < |chunks|
    requires multiset(ranking) == multiset(WithBonus(lib, query, chunks, hits))
    requires k < |chunks| && SharesToken(lib.smartTokenize(query), DocsOf(lib, query, chunks)[k])
    ensures exists i :: 0 <= i < |ranking| && ranking[i].index == k
  {
    var tokens, docs := lib.smartTokenize(query), DocsOf(lib, query, chunks);
    ScorePositiveIffShared(lib, tokens, docs, k, AvgLength(docs), freq);
    HitsComplete(RawScores(lib, tokens, docs, freq), k);
    var j :| 0 <= j < |hits| && hits[j].index == k;
    var boosted := WithBonus(lib, query, chunks, hits);
    assert boosted[j] in multiset(boosted);
    assert boosted[j] in ranking;
  }

  lemma RankedMatch(lib: Library, query: string, chunks: seq<Chunk>, freq: map<string, nat>, k: nat)
    requires LogIsPositiveAboveOne(lib)
    requires CountsDocuments(freq, DocsOf(lib, query, chunks))
    requires k < |chunks| && FinalScore(lib, query, chunks, freq, k) > 0.0
    ensures SharesToken(lib.smartTokenize(query), DocsOf(lib, query, chunks)[k])
  {
    var docs := DocsOf(lib, query, chunks);
    ScorePositiveIffShared(lib, lib.smartTokenize(query), docs, k, AvgLength(docs), freq);
    ZeroProduct(RawScore(lib, lib.smartTokenize(query), docs, freq, k), Bonus(lib, query, chunks[k]));
  }

  lemma ZeroProduct(x: real, y: real)
    ensures x == 0.0 ==> x * y == 0.0
  {}

  lemma BonusKeepsMatches(lib: Library, query: string, chunks: seq<Chunk>, freq: map<string, nat>, hits: seq<Hit>)
    requires LogIsPositiveAboveOne(lib)
    requires CountsDocuments(freq, DocsOf(lib, query, chunks))
    requires hits == HitsOf(RawScores(lib, lib.smartTokenize(query), DocsOf(lib, query, chunks), freq))
    ensures forall i | 0 <= i < |hits| :: hits[i].index < |chunks|
    ensures IsRanking(lib, query, chunks, freq, SortByScore(WithBonus(lib, query, chunks, hits)))
  {
    HitsInOrder(RawScores(lib, lib.smartTokenize(query), DocsOf(lib, query, chunks), freq));
    BoostedHits(lib, query, chunks, freq, hits);
    var ranking := SortByScore(WithBonus(lib, query, chunks, hits));
    assert forall i | 0 <= i < |ranking| :: ranking[i] in ranking;
    forall k | 0 <= k < |chunks|
      ensures SharesToken(lib.smartTokenize(query), DocsOf(lib, query, chunks)[k]) <==>
              exists i :: 0 <= i < |ranking| && ranking[i].index == k
    {
      if SharesToken(lib.smartTokenize(query), DocsOf(lib, query, chunks)[k]) {
        MatchesAreRanked(lib, query, chunks, freq, hits, ranking, k);
      } else if i :| 0 <= i < |ranking| && ranking[i].index == k {
        RankedMatch(lib, query, chunks, freq, k);
      }
    }
  }

  /**
   * The results are the best `min(20, matches)` chunks of the ranking, in order, with scores divided by
   * the best one.
   */
  method TextBasedSearch(lib: Library, query: string, chunks: seq<Chunk>)
    returns (results: seq<SearchResult>, ghost ranking: seq<Hit>, ghost freq: map<string, nat>)
    requires LogIsPositiveAboveOne(lib)
    ensures lib.isBlank(query) || chunks == [] ==> results == []
    ensures !lib.isBlank(query) && chunks != [] ==>
              && CountsDocuments(freq, DocsOf(lib, query, chunks))
              && IsRanking(lib, query, chunks, freq, ranking)
              && |results| == (if |ranking| < 20 then |ranking| else 20)
              && (forall i | 0 <= i < |results| ::
                    var chunk := chunks[ranking[i].index];
                    results[i] == SearchResult(ResultId(chunk), chunk.text, ranking[i].score / ranking[0].score))
  {
    results, ranking, freq := [], [], map[];
    if lib.isBlank(query) || chunks == [] {
      return;
    }
    var queryTokens := lib.smartTokenize(query);
    var docs := DocsOf(lib, query, chunks);
    var avgLength := AvgLength(docs);
    var docFrequencies := BuildDocFrequencies(docs);
    freq := docFrequencies;
    var scores := KeywordSearch(lib, queryTokens, docs, avgLength, docFrequencies);
    if queryTokens == [] {
      NoTokensNoHits(lib, docs, docFrequencies);
    }
    BonusKeepsMatches(lib, query, chunks, docFrequencies, scores);
    var boosted := AddPhraseBonus(lib, query, chunks, scores);
    var sorted := SortByScore(boosted);
    ranking := sorted;
    assert forall i | 0 <= i < |sorted| :: HasFinalScore(lib, query, chunks, docFrequencies, sorted[i]);
    results := TopResults(chunks, sorted);
  }

  /** The first hits of a ranking as results, with scores relative to the first. */
  method TopResults(chunks: seq<Chunk>, sorted: seq<Hit>) returns (results: seq<SearchResult>)
    requires forall i | 0 <= i < |sorted| :: sorted[i].index < |chunks| && sorted[i].score > 0.0
    ensures |results| == (if |sorted| < 20 then |sorted| else 20)
    ensures forall i | 0 <= i < |results| ::
              var chunk := chunks[sorted[i].index];
              results[i] == SearchResult(ResultId(chunk), chunk.text, sorted[i].score / sorted[0].score)
  {
    results := [];
    var top := sorted[..Min(MAX_RESULTS, |sorted|)];
    for i := 0 to |top|
      invariant |results| == i
      invariant forall j | 0 <= j < i ::
                  var chunk := chunks[sorted[j].index];
                  results[j] == SearchResult(ResultId(chunk), chunk.text, sorted[j].score / sorted[0].score)
    {
      var chunk := chunks[top[i].index];
      results := results + [SearchResult(ResultId(chunk), chunk.text, top[i].score / top[0].score)];
    }
  }

  lemma NoTokensNoHits(lib: Library, docs: seq<seq<string>>, freq: map<string, nat>)
    ensures HitsOf(RawScores(lib, [], docs, freq)) == []
  {
    var scores := RawScores(lib, [], docs, freq);
    assert forall k | 0 <= k < |scores| :: scores[k] == 0.0;
    ZeroScoresNoHits(scores);
  }

  lemma {:induction false} ZeroScoresNoHits(scores: seq<real>)
    requires forall k | 0 <= k < |scores| :: scores[k] == 0.0
    ensures HitsOf(scores) == []
  {
    if scores != [] {
      ZeroScoresNoHits(scores[..|scores| - 1]);
    }
  }

  method AddPhraseBonus(lib: Library, query: string, chunks: seq<Chunk>, scores: seq<Hit>) returns (hits: seq<Hit>)
    requires forall i | 0 <= i < |scores| :: scores[i].index < |chunks|
    ensures hits == WithBonus(lib, query, chunks, scores)
  {
    hits := scores;
    var phrase := lib.normalizeText(query);
    if phrase != "" {
      for i := 0 to |scores|
        invariant |hits| == |scores|
        invariant forall j | 0 <= j < i :: hits[j] == WithBonus(lib, query, chunks, scores)[j]
        invariant forall j | i <= j < |scores| :: hits[j] == scores[j]
      {
        if Includes(lib.normalizeText(chunks[hits[i].index].text), phrase) {
          hits := hits[i := Hit(hits[i].index, hits[i].score * PHRASE_BONUS)];
        }
      }
    }
    assert hits == WithBonus(lib, query, chunks, scores);
  }

  /**
   * A chunk that shares a token with the query, but is not among the first `n` of a ranking, scores no
   * better than any of them, and comes later in the list of chunks if it scores as well.
   */
  lemma NoBetterMatchLeftOut(lib: Library, query: string, chunks: seq<Chunk>, freq: map<string, nat>,
                             ranking: seq<Hit>, n: nat, k: nat)
    requires IsRanking(lib, query, chunks, freq, ranking) && n <= |ranking|
    requires k < |chunks| && SharesToken(lib.smartTokenize(query), DocsOf(lib, query, chunks)[k])
    requires forall i | 0 <= i < n :: ranking[i].index != k
    ensures forall i | 0 <= i < n :: Precedes(ranking[i], Hit(k, FinalScore(lib, query, chunks, freq, k)))
  {
    var j :| 0 <= j < |ranking| && ranking[j].index == k;
    assert HasFinalScore(lib, query, chunks, freq, ranking[j]);
    assert ranking[j] == Hit(k, FinalScore(lib, query, chunks, freq, k));
  }

  /** The chunks that share a token with the query. */
  ghost function Matches(lib: Library, query: string, chunks: seq<Chunk>): set<nat> {
    set k: nat | k < |chunks| && SharesToken(lib.smartTokenize(query), DocsOf(lib, query, chunks)[k])
  }

  /** The chunks of a ranking, best first. */
  function IndexesOf(ranking: seq<Hit>): seq<nat> {
    seq(|ranking|, i requires 0 <= i < |ranking| => ranking[i].index)
  }

  /** A ranking names every matching chunk once. */
  lemma RankingSize(lib: Library, query: string, chunks: seq<Chunk>, freq: map<string, nat>, ranking: seq<Hit>)
    requires IsRanking(lib, query, chunks, freq, ranking)
    ensures |ranking| == |Matches(lib, query, chunks)|
    ensures forall i, j | 0 <= i < j < |ranking| :: ranking[i].index != ranking[j].index
  {
    RankedIndexes(lib, query, chunks, freq, ranking);
    RankingNamesMatches(lib, query, chunks, freq, ranking);
    DistinctCount(IndexesOf(ranking));
  }

  lemma RankedIndexes(lib: Library, query: string, chunks: seq<Chunk>, freq: map<string, nat>, ranking: seq<Hit>)
    requires IsRanking(lib, query, chunks, freq, ranking)
    ensures forall i, j | 0 <= i < j < |ranking| :: ranking[i].index != ranking[j].index
  {
    forall i, j | 0 <= i < j < |ranking| ensures ranking[i].index != ranking[j].index {
      assert Precedes(ranking[i], ranking[j]);
      assert HasFinalScore(lib, query, chunks, freq, ranking[i]) && HasFinalScore(lib, query, chunks, freq, ranking[j]);
    }
  }

  lemma RankingNamesMatches(
    lib: Library, query: string, chunks: seq<Chunk>, freq: map<string, nat>, ranking: seq<Hit>)
    requires IsRanking(lib, query, chunks, freq, ranking)
    ensures Elements(IndexesOf(ranking)) == Matches(lib, query, chunks)
  {
    var indexes := IndexesOf(ranking);
    forall k | k in indexes ensures k in Matches(lib, query, chunks) {
      var i :| 0 <= i < |indexes| && indexes[i] == k;
      assert HasFinalScore(lib, query, chunks, freq, ranking[i]);
      assert ranking[i].index == k;
    }
    forall k | k in Matches(lib, query, chunks) ensures k in indexes {
      var i :| 0 <= i < |ranking| && ranking[i].index == k;
      assert indexes[i] == k;
    }
  }

  lemma {:induction false} DistinctCount(s: seq<nat>)
    requires forall i, j | 0 <= i < j < |s| :: s[i] != s[j]
    ensures |Elements(s)| == |s|
  {
    if s != [] {
      var n := |s| - 1;
      DistinctCount(s[..n]);
      ElementsOneMore(s, n);
      assert s[..n + 1] == s;
    }
  }

  /** Normalised scores lie in (0, 1], and the first is 1. */
  lemma ScoresNormalized(
    lib: Library, query: string, chunks: seq<Chunk>, freq: map<string, nat>, ranking: seq<Hit>, i: nat)
    requires IsRanking(lib, query, chunks, freq, ranking) && i < |ranking|
    ensures 0.0 < ranking[0].score
    ensures 0.0 < ranking[i].score / ranking[0].score <= 1.0
    ensures ranking[0].score / ranking[0].score == 1.0
  {
    if i > 0 {
      assert Precedes(ranking[0], ranking[i]);
    }
    assert HasFinalScore(lib, query, chunks, freq, ranking[i]);
    FractionOfLarger(ranking[i].score, ranking[0].score);
  }

  lemma FractionOfLarger(x: real, y: real)
    requires 0.0 < x <= y
    ensures 0.0 < x / y <= 1.0
    ensures y / y == 1.0
  {}
}
