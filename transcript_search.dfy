/** Keyword search over a transcript: `searchTranscript` of the Express server and the
    `/search_transcript` loop of both Python backends.

    The transcript is split at every '.', each sentence that matches the (lower-cased) query
    contributes one hit whose text is the sentence with its neighbours, the hits are sorted
    by relevance, highest first, keeping sentence order among equal scores, and the first five
    are returned. The two implementations differ in how a sentence matches and in how an
    empty query is scored; `Matcher` selects between them. */
module TranscriptSearch {
  import opened Strings
  import opened Lists

  datatype SearchHit = SearchHit(text: string, relevanceScore: int)

  /** `AnyWord`: the server matches a sentence containing any space-separated word of the query.
      `WholeQuery`: the Python backends match a sentence containing the whole query. */
  datatype Matcher = AnyWord | WholeQuery

  const MaxResults := 5

  /** Whether a sentence contributes a hit; the empty query matches every sentence. */
  predicate IsHit(m: Matcher, q: string, sentence: string)
    ensures q == [] ==> IsHit(m, q, sentence)
  {
    var s := ToLower(sentence);
    ContainsEmpty(s);
    assert "" in Split("", ' ');
    match m
    case AnyWord => exists w | w in Split(q, ' ') :: Contains(s, w)
    case WholeQuery => Contains(s, q)
  }

  /** How often the query occurs in the lower-cased sentence, as each implementation computes
      it: the server counts the pieces of `split(query)` less one, Python calls `count(query)`
      (which is one more than the length for an empty query). */
  function Score(m: Matcher, q: string, sentence: string): (r: int)
    ensures q == [] && m == AnyWord ==> r == |sentence| - 1
    ensures q == [] && m == WholeQuery ==> r == |sentence| + 1
  {
    var s := ToLower(sentence);
    match m
    case AnyWord => |SplitOn(s, q)| - 1
    case WholeQuery => if q == [] then |s| + 1 else CountOccurrences(s, q)
  }

  /** For a non-empty query both formulas count the non-overlapping occurrences, so the score
      is positive exactly when the sentence contains the query. */
  lemma ScoreCountsOccurrences(m: Matcher, q: string, sentence: string)
    requires q != []
    ensures Score(m, q, sentence) == CountOccurrences(ToLower(sentence), q)
    ensures Score(m, q, sentence) > 0 <==> Contains(ToLower(sentence), q)
  {
    SplitOnCount(ToLower(sentence), q);
    CountPositiveIffContains(ToLower(sentence), q);
  }

  /** The sentence at `i` with the one before and the one after, re-joined with ". " and trimmed. */
  function Context(sentences: seq<string>, i: nat): (r: string)
    requires i < |sentences|
    ensures r == Trim(Join(sentences[Max(0, i - 1)..Min(|sentences|, i + 2)], ". "))
    ensures r == [] || (!IsSpace(r[0]) && !IsSpace(r[|r| - 1]))
  {
    Trim(Join(sentences[Max(0, i - 1)..Min(|sentences|, i + 2)], ". "))
  }

  function MakeHit(m: Matcher, q: string, sentences: seq<string>, k: nat): SearchHit
    requires k < |sentences|
  {
    SearchHit(Context(sentences, k), Score(m, q, sentences[k]))
  }

  /** None of the first `n` sentences matches. */
  predicate NoMatchBefore(m: Matcher, q: string, sentences: seq<string>, n: nat)
    requires n <= |sentences|
  {
    forall k :: 0 <= k < n ==> !IsHit(m, q, sentences[k])
  }

  /** The hits contributed by the first `n` sentences, in sentence order. */
  function HitsUpTo(m: Matcher, q: string, sentences: seq<string>, n: nat): (r: seq<SearchHit>)
    requires n <= |sentences|
    ensures |r| <= n
  {
    if n == 0 then []
    else
      HitsUpTo(m, q, sentences, n - 1) +
      (if IsHit(m, q, sentences[n - 1]) then [MakeHit(m, q, sentences, n - 1)] else [])
  }

  /** `transcript.split('.')`: at least one piece, none containing a '.', and joined with '.'
      they give the transcript back. */
  function Sentences(transcript: string): (r: seq<string>)
    ensures |r| >= 1 && forall k :: 0 <= k < |r| ==> '.' !in r[k]
    ensures Join(r, ".") == transcript
  {
    JoinSplit(transcript, '.');
    Split(transcript, '.')
  }

  /** Every hit of the whole transcript, before sorting. */
  function AllHits(m: Matcher, query: string, transcript: string): (r: seq<SearchHit>)
    ensures |r| <= |Sentences(transcript)|
    ensures r == [] <==> NoMatchBefore(m, ToLower(query), Sentences(transcript), |Sentences(transcript)|)
  {
    var sentences := Sentences(transcript);
    NoHitsIffNoMatch(m, ToLower(query), sentences, |sentences|);
    HitsUpTo(m, ToLower(query), sentences, |sentences|)
  }

  /** No hit is collected exactly when no sentence matches. */
  lemma {:induction false} NoHitsIffNoMatch(m: Matcher, q: string, sentences: seq<string>, n: nat)
    requires n <= |sentences|
    ensures HitsUpTo(m, q, sentences, n) == [] <==> NoMatchBefore(m, q, sentences, n)
  {
    if n > 0 {
      NoHitsIffNoMatch(m, q, sentences, n - 1);
      var last := if IsHit(m, q, sentences[n - 1]) then [MakeHit(m, q, sentences, n - 1)] else [];
      assert HitsUpTo(m, q, sentences, n) == HitsUpTo(m, q, sentences, n - 1) + last;
      assert NoMatchBefore(m, q, sentences, n) <==>
             NoMatchBefore(m, q, sentences, n - 1) && !IsHit(m, q, sentences[n - 1]);
    }
  }

  // ---------------------------------------------------------------- stable sort by relevance

  predicate Descending(xs: seq<SearchHit>)
  {
    forall i, j :: 0 <= i < j < |xs| ==> xs[i].relevanceScore >= xs[j].relevanceScore
  }

  /** Places `x` after every element scoring at least as much. */
  function Insert(ys: seq<SearchHit>, x: SearchHit): (r: seq<SearchHit>)
    ensures |r| == |ys| + 1
  {
    if ys == [] then [x]
    else if ys[0].relevanceScore >= x.relevanceScore then [ys[0]] + Insert(ys[1..], x)
    else [x] + ys
  }

  /** Insertion adds `x` and loses nothing. */
  lemma {:induction false} InsertPermutes(ys: seq<SearchHit>, x: SearchHit)
    ensures multiset(Insert(ys, x)) == multiset(ys) + multiset{x}
  {
    if ys != [] && ys[0].relevanceScore >= x.relevanceScore {
      InsertPermutes(ys[1..], x);
      assert ys == [ys[0]] + ys[1..];
    }
  }

  /** `sort((a, b) => b.relevance_score - a.relevance_score)` / `sort(key=..., reverse=True)`:
      both sorts are stable. */
  function SortByRelevance(xs: seq<SearchHit>): (r: seq<SearchHit>)
    ensures multiset(r) == multiset(xs)
    ensures |r| == |xs|
  {
    if xs == [] then []
    else
      assert xs == xs[..|xs| - 1] + [xs[|xs| - 1]];
      InsertPermutes(SortByRelevance(xs[..|xs| - 1]), xs[|xs| - 1]);
      Insert(SortByRelevance(xs[..|xs| - 1]), xs[|xs| - 1])
  }

  /** Inserting below a bound keeps every element below it. */
  lemma {:induction false} InsertBounded(ys: seq<SearchHit>, x: SearchHit, b: int)
    requires forall k | 0 <= k < |ys| :: ys[k].relevanceScore <= b
    requires x.relevanceScore <= b
    ensures forall k | 0 <= k < |Insert(ys, x)| :: Insert(ys, x)[k].relevanceScore <= b
  {
    if ys != [] && ys[0].relevanceScore >= x.relevanceScore {
      InsertBounded(ys[1..], x, b);
    }
  }

  lemma {:induction false} InsertDescending(ys: seq<SearchHit>, x: SearchHit)
    requires Descending(ys)
    ensures Descending(Insert(ys, x))
  {
    if ys != [] && ys[0].relevanceScore >= x.relevanceScore {
      var t := Insert(ys[1..], x);
      DescendingTail(ys);
      InsertDescending(ys[1..], x);
      InsertBounded(ys[1..], x, ys[0].relevanceScore);
      var r := [ys[0]] + t;
      assert Insert(ys, x) == r;
      forall i, j | 0 <= i < j < |r|
        ensures r[i].relevanceScore >= r[j].relevanceScore
      {
        assert r[j] == t[j - 1];
        if i > 0 {
          assert r[i] == t[i - 1];
        }
      }
    }
  }

  lemma {:induction false} SortDescending(xs: seq<SearchHit>)
    ensures Descending(SortByRelevance(xs))
  {
    if xs != [] {
      SortDescending(xs[..|xs| - 1]);
      InsertDescending(SortByRelevance(xs[..|xs| - 1]), xs[|xs| - 1]);
    }
  }

  function WithScore(v: int): SearchHit -> bool
  {
    (h: SearchHit) => h.relevanceScore == v
  }

  lemma {:induction false} InsertStable(ys: seq<SearchHit>, x: SearchHit, v: int)
    requires Descending(ys)
    ensures Filter(Insert(ys, x), WithScore(v)) ==
            Filter(ys, WithScore(v)) + (if x.relevanceScore == v then [x] else [])
  {
    var p := WithScore(v);
    var tail := if x.relevanceScore == v then [x] else [];
    if ys == [] {
    } else if ys[0].relevanceScore >= x.relevanceScore {
      var head := Filter([ys[0]], p);
      DescendingTail(ys);
      calc {
        Filter(Insert(ys, x), p);
        Filter([ys[0]] + Insert(ys[1..], x), p);
        { FilterAppend([ys[0]], Insert(ys[1..], x), p); }
        head + Filter(Insert(ys[1..], x), p);
        { InsertStable(ys[1..], x, v); }
        head + (Filter(ys[1..], p) + tail);
        (head + Filter(ys[1..], p)) + tail;
        { FilterAppend([ys[0]], ys[1..], p); assert [ys[0]] + ys[1..] == ys; }
        Filter(ys, p) + tail;
      }
    } else {
      assert Insert(ys, x) == [x] + ys;
      FilterAppend([x], ys, p);
      if x.relevanceScore == v {
        forall k | 0 <= k < |ys| ensures !p(ys[k]) {
          if k > 0 { assert ys[0].relevanceScore >= ys[k].relevanceScore; }
        }
        FilterNone(ys, p);
        assert Filter([x], p) == [x];
      } else {
        assert Filter([x], p) == [];
        assert Filter(ys, p) + [] == Filter(ys, p);
      }
    }
  }

  lemma DescendingTail(ys: seq<SearchHit>)
    requires ys != [] && Descending(ys)
    ensures Descending(ys[1..])
  {
    forall i, j | 0 <= i < j < |ys[1..]|
      ensures ys[1..][i].relevanceScore >= ys[1..][j].relevanceScore
    {
      assert ys[1..][i] == ys[i + 1] && ys[1..][j] == ys[j + 1];
    }
  }

  /** Stability: the hits of any one score keep their relative order. */
  lemma {:induction false} SortStable(xs: seq<SearchHit>, v: int)
    ensures Filter(SortByRelevance(xs), WithScore(v)) == Filter(xs, WithScore(v))
  {
    if xs != [] {
      var p := WithScore(v);
      var init := xs[..|xs| - 1];
      var x := xs[|xs| - 1];
      var tail := if x.relevanceScore == v then [x] else [];
      var sorted := SortByRelevance(init);
      calc {
        Filter(SortByRelevance(xs), p);
        { SortLast(xs); }
        Filter(Insert(sorted, x), p);
        { SortDescending(init); InsertStable(sorted, x, v); }
        Filter(sorted, p) + tail;
        { SortStable(init, v); }
        Filter(init, p) + tail;
        { ScoreFilterLast(init, x, v); }
        Filter(init + [x], p);
        { assert init + [x] == xs; }
        Filter(xs, p);
      }
    }
  }

  lemma SortLast(xs: seq<SearchHit>)
    requires xs != []
    ensures SortByRelevance(xs) == Insert(SortByRelevance(xs[..|xs| - 1]), xs[|xs| - 1])
  {
  }

  lemma ScoreFilterLast(init: seq<SearchHit>, x: SearchHit, v: int)
    ensures Filter(init + [x], WithScore(v)) ==
            Filter(init, WithScore(v)) + (if x.relevanceScore == v then [x] else [])
  {
    FilterAppend(init, [x], WithScore(v));
    assert Filter([x], WithScore(v)) == (if x.relevanceScore == v then [x] else []);
  }

  /** The top results: at most five, and none left out scores more than one kept. */
  function TopResults(sorted: seq<SearchHit>): (r: seq<SearchHit>)
    ensures |r| == Min(MaxResults, |sorted|)
    ensures r == sorted[..|r|]
  {
    sorted[..Min(MaxResults, |sorted|)]
  }

  /** The answer the search promises: the hits, ranked, cut to five; and how many there were. */
  function Ranked(m: Matcher, query: string, transcript: string): (r: seq<SearchHit>)
    ensures multiset(r) == multiset(AllHits(m, query, transcript))
    ensures Descending(r)
    ensures forall v :: Filter(r, WithScore(v)) == Filter(AllHits(m, query, transcript), WithScore(v))
  {
    var all := AllHits(m, query, transcript);
    SortDescending(all);
    SortStableAll(all);
    SortByRelevance(all)
  }

  lemma SortStableAll(xs: seq<SearchHit>)
    ensures forall v :: Filter(SortByRelevance(xs), WithScore(v)) == Filter(xs, WithScore(v))
  {
    forall v {
      SortStable(xs, v);
    }
  }

  /** The search loop. */
  method Search(m: Matcher, query: string, transcript: string) returns (results: seq<SearchHit>, totalMatches: nat)
    ensures results == TopResults(Ranked(m, query, transcript))
    ensures totalMatches == |AllHits(m, query, transcript)|
    ensures |results| <= MaxResults && |results| <= totalMatches
    ensures Descending(results)
  {
    var sentences := Split(transcript, '.');
    var q := ToLower(query);
    var relevant: seq<SearchHit> := [];
    for i := 0 to |sentences|
      invariant relevant == HitsUpTo(m, q, sentences, i)
    {
      var sentence := sentences[i];
      HitsStep(m, q, sentences, i + 1);
      if IsHit(m, q, sentence) {
        var contextStart := Max(0, i - 1);
        var contextEnd := Min(|sentences|, i + 2);
        var context := Trim(Join(sentences[contextStart..contextEnd], ". "));
        HitOfSentence(m, q, sentences, i);
        relevant := relevant + [SearchHit(context, Score(m, q, sentence))];
      }
    }
    assert relevant == AllHits(m, query, transcript);
    var sorted := SortByRelevance(relevant);
    assert sorted == Ranked(m, query, transcript);
    results := TopResults(sorted);
    totalMatches := |relevant|;
    PrefixDescending(sorted, |results|);
  }

  lemma HitsStep(m: Matcher, q: string, sentences: seq<string>, n: nat)
    requires 0 < n <= |sentences|
    ensures HitsUpTo(m, q, sentences, n) ==
            HitsUpTo(m, q, sentences, n - 1) +
            (if IsHit(m, q, sentences[n - 1]) then [MakeHit(m, q, sentences, n - 1)] else [])
  {
  }

  lemma HitOfSentence(m: Matcher, q: string, sentences: seq<string>, i: nat)
    requires i < |sentences|
    ensures Max(0, i - 1) <= Min(|sentences|, i + 2) <= |sentences|
    ensures SearchHit(Trim(Join(sentences[Max(0, i - 1)..Min(|sentences|, i + 2)], ". ")), Score(m, q, sentences[i])) ==
            MakeHit(m, q, sentences, i)
  {
  }

  lemma PrefixDescending(xs: seq<SearchHit>, n: nat)
    requires Descending(xs) && n <= |xs|
    ensures Descending(xs[..n])
  {
  }

  // ---------------------------------------------------------------- properties of the hits

  /** Soundness of the hit list: every hit is the context of a matching sentence. */
  lemma {:induction false} HitsSound(m: Matcher, q: string, sentences: seq<string>, n: nat, h: SearchHit)
    requires n <= |sentences|
    requires h in HitsUpTo(m, q, sentences, n)
    ensures exists k :: 0 <= k < n && IsHit(m, q, sentences[k]) && h == MakeHit(m, q, sentences, k)
  {
    var prev := HitsUpTo(m, q, sentences, n - 1);
    var last := if IsHit(m, q, sentences[n - 1]) then [MakeHit(m, q, sentences, n - 1)] else [];
    assert HitsUpTo(m, q, sentences, n) == prev + last;
    if h in prev {
      HitsSound(m, q, sentences, n - 1, h);
    } else {
      assert h in last;
    }
  }

  /** Completeness of the hit list: every matching sentence contributes its context. */
  lemma {:induction false} HitsComplete(m: Matcher, q: string, sentences: seq<string>, n: nat, k: nat)
    requires k < n <= |sentences|
    requires IsHit(m, q, sentences[k])
    ensures MakeHit(m, q, sentences, k) in HitsUpTo(m, q, sentences, n)
  {
    var prev := HitsUpTo(m, q, sentences, n - 1);
    var last := if IsHit(m, q, sentences[n - 1]) then [MakeHit(m, q, sentences, n - 1)] else [];
    assert HitsUpTo(m, q, sentences, n) == prev + last;
    if k < n - 1 {
      HitsComplete(m, q, sentences, n - 1, k);
    }
  }

  /** A returned result is the context of a matching sentence. */
  lemma ResultsAreMatchingContexts(m: Matcher, query: string, transcript: string, h: SearchHit)
    requires h in TopResults(Ranked(m, query, transcript))
    ensures exists k :: 0 <= k < |Sentences(transcript)| &&
                        IsHit(m, ToLower(query), Sentences(transcript)[k]) &&
                        h == MakeHit(m, ToLower(query), Sentences(transcript), k)
  {
    var sentences := Sentences(transcript);
    var all := AllHits(m, query, transcript);
    assert h in multiset(Ranked(m, query, transcript));
    assert h in all;
    HitsSound(m, ToLower(query), sentences, |sentences|, h);
  }

  /** Nothing left out of the top five scores higher than anything returned. */
  lemma TopResultsAreBest(m: Matcher, query: string, transcript: string, i: nat, j: nat)
    requires var r := Ranked(m, query, transcript); i < Min(MaxResults, |r|) <= j < |r|
    ensures Ranked(m, query, transcript)[i].relevanceScore >= Ranked(m, query, transcript)[j].relevanceScore
  {
    SortDescending(AllHits(m, query, transcript));
  }

  /** In the Python backends every hit of a non-empty query scores at least one. */
  lemma WholeQueryHitsScore(q: string, sentence: string)
    requires q != [] && IsHit(WholeQuery, q, sentence)
    ensures Score(WholeQuery, q, sentence) >= 1
  {
    ScoreCountsOccurrences(WholeQuery, q, sentence);
  }

  /** On the server a sentence can match on one word of the query and still score zero:
      the score counts the whole query. */
  lemma AnyWordHitMayScoreZero()
    ensures IsHit(AnyWord, "red fox", "Red.")
    ensures Score(AnyWord, "red fox", "Red.") == 0
  {
    RedIsQueryWord();
    assert ToLower("Red.") == "red.";
    assert OccursAt("red.", "red", 0);
    assert CountOccurrences("red.", "red fox") == 0;
  }

  lemma RedIsQueryWord()
    ensures "red" in Split("red fox", ' ')
  {
    SplitNoSep("fox", ' ');
    SplitAppendSep("red", ' ', "fox");
    assert "red" + [' '] + "fox" == "red fox";
  }

  lemma {:induction false} SplitFirstIsPrefix(s: string, sep: char)
    ensures |Split(s, sep)[0]| <= |s| && Split(s, sep)[0] == s[..|Split(s, sep)[0]|]
    decreases |s|
  {
    if |s| > 0 {
      SplitFirstIsPrefix(s[1..], sep);
    }
  }

  /** Whatever the Python backends match, the server matches too. */
  lemma WholeQueryHitIsAnyWordHit(q: string, sentence: string)
    requires IsHit(WholeQuery, q, sentence)
    ensures IsHit(AnyWord, q, sentence)
  {
    var s := ToLower(sentence);
    var w := Split(q, ' ')[0];
    SplitFirstIsPrefix(q, ' ');
    var i :| 0 <= i <= |s| - |q| && OccursAt(s, q, i);
    assert |w| <= |q| && s[i..i + |q|] == q;
    assert s[i..i + |w|] == s[i..i + |q|][..|w|];
    assert OccursAt(s, w, i);
    assert w in Split(q, ' ');
  }

  /** For a non-empty one-word query the server and the Python backends return the same ranking. */
  lemma {:induction false} MatchersAgreeOnOneWord(q: string, sentences: seq<string>, n: nat)
    requires q != [] && ' ' !in q
    requires n <= |sentences|
    ensures HitsUpTo(AnyWord, q, sentences, n) == HitsUpTo(WholeQuery, q, sentences, n)
  {
    if n > 0 {
      MatchersAgreeOnOneWord(q, sentences, n - 1);
      OneWordSameContribution(q, sentences, n - 1);
      HitsStep(AnyWord, q, sentences, n);
      HitsStep(WholeQuery, q, sentences, n);
    }
  }

  lemma OneWordSameContribution(q: string, sentences: seq<string>, k: nat)
    requires q != [] && ' ' !in q && k < |sentences|
    ensures (if IsHit(AnyWord, q, sentences[k]) then [MakeHit(AnyWord, q, sentences, k)] else []) ==
            (if IsHit(WholeQuery, q, sentences[k]) then [MakeHit(WholeQuery, q, sentences, k)] else [])
  {
    OneWordSameHit(q, sentences[k]);
    ScoreCountsOccurrences(AnyWord, q, sentences[k]);
    ScoreCountsOccurrences(WholeQuery, q, sentences[k]);
  }

  lemma OneWordSameHit(q: string, sentence: string)
    requires q != [] && ' ' !in q
    ensures IsHit(AnyWord, q, sentence) <==> IsHit(WholeQuery, q, sentence)
  {
    SplitNoSep(q, ' ');
    assert Split(q, ' ') == [q];
  }

  /** An empty query matches every sentence, under both matchers. */
  lemma {:induction false} EmptyQueryMatchesAll(m: Matcher, sentences: seq<string>, n: nat)
    requires n <= |sentences|
    ensures |HitsUpTo(m, "", sentences, n)| == n
  {
    if n > 0 {
      EmptyQueryMatchesAll(m, sentences, n - 1);
      var s := ToLower(sentences[n - 1]);
      ContainsEmpty(s);
      assert Split("", ' ') == [""];
      assert "" in Split("", ' ');
    }
  }
}
