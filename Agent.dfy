/**
 * The keyword classifier of `CallAnalysisAgent` (agents/agent.py): intent
 * and sentiment labels scored by counting trigger phrases in the
 * lower-cased transcript, and the analysis record built from the two.
 *
 * Each classifier is given twice: as a function that says what the result
 * is (`IntentOf`, `SentimentOf`) and as a method with the source's nested
 * loops (`ExtractIntent`, `AnalyzeSentiment`) proved to compute it.
 */
module Agent {
  import opened Text
  import opened Ranking
  import opened Persistence

  /** An ordered keyword table: category labels with their trigger phrases. */
  type Table = seq<(string, seq<string>)>

  const Intents: Table := [
    ("complaint", ["damaged", "broken", "issue", "problem", "wrong", "defective", "not working"]),
    ("cancellation", ["cancel", "terminate", "stop", "close account", "quit"]),
    ("billing", ["charge", "billing", "refund", "payment", "invoice", "duplicate", "expensive"]),
    ("upgrade", ["upgrade", "premium", "increase", "add", "more features"]),
    ("account_access", ["login", "password", "reset", "access", "lock", "forgot"]),
    ("support", ["help", "question", "howto", "how do i", "can you"]),
    ("complaint_resolution", ["sorry", "apologize", "make it right", "compensation"])
  ]

  const SentimentKeywords: Table := [
    ("positive", ["thank", "appreciate", "great", "perfect", "love", "excellent", "satisfied", "happy"]),
    ("negative", ["frustrated", "angry", "upset", "furious", "terrible", "horrible", "unacceptable", "annoyed"]),
    ("neutral", ["okay", "fine", "alright", "sure", "understand"])
  ]

  /** The category reported when no intent keyword occurs, and its confidence. */
  const GeneralInquiry: string := "general_inquiry"
  const GeneralInquiryConfidence: real := 0.3

  /** The sentiment reported when no sentiment keyword occurs. */
  const NeutralFallback: (string, real) := ("neutral", 0.5)

  predicate DistinctLabels(t: Table)
  {
    forall i, j :: 0 <= i < j < |t| ==> t[i].0 != t[j].0
  }

  /** No keyword is listed twice. */
  predicate NoDup(kws: seq<string>)
  {
    forall i, j :: 0 <= i < j < |kws| ==> kws[i] != kws[j]
  }

  lemma TablesHaveDistinctLabels()
    ensures DistinctLabels(Intents) && DistinctLabels(SentimentKeywords)
    ensures forall i :: 0 <= i < |Intents| ==> Intents[i].0 != GeneralInquiry
  {
  }

  /** No category of either table lists a keyword twice. */
  lemma TablesListKeywordsOnce()
    ensures forall i :: 0 <= i < |Intents| ==> NoDup(Intents[i].1)
    ensures forall i :: 0 <= i < |SentimentKeywords| ==> NoDup(SentimentKeywords[i].1)
  {
  }

  // ---------------------------------------------------------------------------
  // Scoring a keyword list

  /** The sum, over `kws`, of each keyword's `str.count` in `text`. */
  function Score(text: string, kws: seq<string>): nat
  {
    if kws == [] then 0 else Score(text, kws[..|kws| - 1]) + Count(text, kws[|kws| - 1])
  }

  /** The keywords of `kws` that occur in `text`, once each, in list order. */
  function FoundKeywords(text: string, kws: seq<string>): seq<string>
  {
    if kws == [] then []
    else FoundKeywords(text, kws[..|kws| - 1]) + (if Contains(text, kws[|kws| - 1]) then [kws[|kws| - 1]] else [])
  }

  /** A keyword is listed as found exactly when it is one of `kws` and occurs in the text. */
  lemma {:induction false} FoundIff(text: string, kws: seq<string>, kw: string)
    ensures kw in FoundKeywords(text, kws) <==> kw in kws && Contains(text, kw)
  {
    if kws != [] {
      FoundIff(text, kws[..|kws| - 1], kw);
      assert kws == kws[..|kws| - 1] + [kws[|kws| - 1]];
    }
  }

  /** The positions of `kws` whose keyword occurs in `text`, in increasing order. */
  function FoundPositions(text: string, kws: seq<string>): seq<nat>
  {
    if kws == [] then []
    else FoundPositions(text, kws[..|kws| - 1]) + (if Contains(text, kws[|kws| - 1]) then [|kws| - 1] else [])
  }

  /**
   * The found list is `kws` read at the positions whose keyword occurs, in
   * increasing order of position: list order is kept, and each occurring
   * position contributes exactly one entry.
   */
  lemma {:induction false} FoundInOrder(text: string, kws: seq<string>)
    ensures var p, f := FoundPositions(text, kws), FoundKeywords(text, kws);
      && |p| == |f|
      && (forall k :: 0 <= k < |p| ==> p[k] < |kws| && f[k] == kws[p[k]])
      && (forall k, l :: 0 <= k < l < |p| ==> p[k] < p[l])
      && (forall j :: 0 <= j < |kws| ==> (j in p <==> Contains(text, kws[j])))
  {
    if kws != [] {
      var n := |kws| - 1;
      var init := kws[..n];
      FoundInOrder(text, init);
      var p', f' := FoundPositions(text, init), FoundKeywords(text, init);
      assert forall k :: 0 <= k < |p'| ==> kws[p'[k]] == init[p'[k]];
      assert forall j :: 0 <= j < n ==> kws[j] == init[j];
      assert n !in p';
    }
  }

  /** A keyword list without repeats yields a found list without repeats. */
  lemma FoundNoDup(text: string, kws: seq<string>)
    requires NoDup(kws)
    ensures NoDup(FoundKeywords(text, kws))
  {
    FoundInOrder(text, kws);
  }

  /** A score is positive exactly when some keyword of the list occurs in the text. */
  lemma {:induction false} ScorePositiveIff(text: string, kws: seq<string>)
    ensures Score(text, kws) > 0 <==> exists j :: 0 <= j < |kws| && Contains(text, kws[j])
  {
    if kws != [] {
      var init := kws[..|kws| - 1];
      ScorePositiveIff(text, init);
      CountPositiveIffContains(text, kws[|kws| - 1]);
      assert forall j :: 0 <= j < |init| ==> init[j] == kws[j];
    }
  }

  // ---------------------------------------------------------------------------
  // Intent

  /** One scored category: its label, its score and its found keywords. */
  datatype CategoryScore = CategoryScore(category: string, score: nat, found: seq<string>)

  /** The result of `_extract_intent`; `indicators` is the score dictionary in insertion order. */
  datatype IntentResult = IntentResult(
    category: string,
    confidence: real,
    keywordsFound: seq<string>,
    indicators: seq<(string, nat)>)

  function Entry(e: (string, seq<string>), text: string): CategoryScore
  {
    CategoryScore(e.0, Score(text, e.1), FoundKeywords(text, e.1))
  }

  /** The categories of `t`, in table order, whose score is above 0. */
  function Scored(t: Table, text: string): seq<CategoryScore>
  {
    if t == [] then []
    else
      var e := t[|t| - 1];
      Scored(t[..|t| - 1], text) + (if Score(text, e.1) > 0 then [Entry(e, text)] else [])
  }

  /** Every category's score, zero or not, in table order. */
  function TableScores(t: Table, text: string): (r: seq<nat>)
    ensures |r| == |t|
    ensures forall i :: 0 <= i < |t| ==> r[i] == Score(text, t[i].1)
  {
    if t == [] then [] else TableScores(t[..|t| - 1], text) + [Score(text, t[|t| - 1].1)]
  }

  /** The score dictionary `intent_scores`, as (label, score) pairs in insertion order. */
  function Indicators(s: seq<CategoryScore>): seq<(string, nat)>
  {
    seq(|s|, k requires 0 <= k < |s| => (s[k].category, s[k].score))
  }

  /** The values of a dictionary given as pairs in insertion order. */
  function Values(d: seq<(string, nat)>): seq<nat>
  {
    seq(|d|, k requires 0 <= k < |d| => d[k].1)
  }

  /** The score dictionary of one more category has that category's score as its last value. */
  lemma ValuesSnoc(s: seq<CategoryScore>, e: CategoryScore)
    ensures Values(Indicators(s + [e])) == Values(Indicators(s)) + [e.score]
  {
    var v := Values(Indicators(s + [e]));
    assert forall k :: 0 <= k < |s| ==> v[k] == Values(Indicators(s))[k];
  }

  /** The dictionary `keywords_found`: label to found keywords. */
  function FoundMap(s: seq<CategoryScore>): map<string, seq<string>>
  {
    if s == [] then map[] else FoundMap(s[..|s| - 1])[s[|s| - 1].category := s[|s| - 1].found]
  }

  /** `min(score / 10, 1.0)`. */
  function IntentConfidence(score: nat): real
  {
    if (score as real) / 10.0 < 1.0 then (score as real) / 10.0 else 1.0
  }

  /** The intent reported for a list of scored categories. */
  function IntentFromScored(scored: seq<CategoryScore>): IntentResult
  {
    if scored == [] then IntentResult(GeneralInquiry, GeneralInquiryConfidence, [], [])
    else
      var k := FirstMax(Values(Indicators(scored)));
      IntentResult(scored[k].category, IntentConfidence(scored[k].score), scored[k].found, Indicators(scored))
  }

  /** What `_extract_intent(transcript)` returns. */
  function IntentOf(transcript: string): IntentResult
  {
    IntentFromScored(Scored(Intents, Lower(transcript)))
  }

  /** `_extract_intent`: the source's nested loops over the intent table. */
  method ExtractIntent(transcript: string) returns (r: IntentResult)
    ensures r == IntentOf(transcript)
  {
    var lower := Lower(transcript);
    var intentScores: seq<(string, nat)> := [];
    var keywordsFound: map<string, seq<string>> := map[];
    for i := 0 to |Intents|
      invariant intentScores == Indicators(Scored(Intents[..i], lower))
      invariant keywordsFound == FoundMap(Scored(Intents[..i], lower))
    {
      var (category, keywords) := Intents[i];
      var score: nat := 0;
      var foundKeywords: seq<string> := [];
      for j := 0 to |keywords|
        invariant score == Score(lower, keywords[..j])
        invariant foundKeywords == FoundKeywords(lower, keywords[..j])
      {
        var keyword := keywords[j];
        KeywordStep(lower, keywords, j);
        if Contains(lower, keyword) {
          score := score + Count(lower, keyword);
          foundKeywords := foundKeywords + [keyword];
        }
      }
      assert keywords[..|keywords|] == keywords;
      CategoryStep(Intents, lower, i);
      if score > 0 {
        intentScores := intentScores + [(category, score)];
        keywordsFound := keywordsFound[category := foundKeywords];
      }
    }
    assert Intents[..|Intents|] == Intents;
    if |intentScores| > 0 {
      var primary := FirstMax(Values(intentScores));
      var category := intentScores[primary].0;
      var confidence := IntentConfidence(intentScores[primary].1);
      TablesHaveDistinctLabels();
      FoundMapLookup(Intents, lower, primary);
      var found := if category in keywordsFound then keywordsFound[category] else [];
      r := IntentResult(category, confidence, found, intentScores);
    } else {
      r := IntentResult(GeneralInquiry, GeneralInquiryConfidence, [], intentScores);
    }
  }

  /** One step of the inner loop: keyword `j` adds its count, and is listed when it occurs. */
  lemma KeywordStep(text: string, kws: seq<string>, j: nat)
    requires j < |kws|
    ensures Score(text, kws[..j + 1]) == Score(text, kws[..j]) + (if Contains(text, kws[j]) then Count(text, kws[j]) else 0)
    ensures FoundKeywords(text, kws[..j + 1]) == FoundKeywords(text, kws[..j]) + (if Contains(text, kws[j]) then [kws[j]] else [])
  {
    assert kws[..j + 1][..j] == kws[..j];
    CountPositiveIffContains(text, kws[j]);
  }

  /** One step of the outer loop: category `i` is appended to both dictionaries when it scores. */
  lemma CategoryStep(t: Table, text: string, i: nat)
    requires i < |t|
    ensures var before := Scored(t[..i], text);
      var e := Entry(t[i], text);
      && Scored(t[..i + 1], text) == before + (if e.score > 0 then [e] else [])
      && Indicators(Scored(t[..i + 1], text))
         == Indicators(before) + (if e.score > 0 then [(e.category, e.score)] else [])
      && FoundMap(Scored(t[..i + 1], text))
         == if e.score > 0 then FoundMap(before)[e.category := e.found] else FoundMap(before)
  {
    assert t[..i + 1][..i] == t[..i];
    var before := Scored(t[..i], text);
    var e := Entry(t[i], text);
    if e.score > 0 {
      var after := before + [e];
      assert after[..|after| - 1] == before;
      assert after[|after| - 1] == e;
      assert Scored(t[..i + 1], text) == after;
      assert FoundMap(after) == FoundMap(before)[e.category := e.found];
    } else {
      assert Scored(t[..i + 1], text) == before;
    }
  }

  /** Each scored category scores above 0 and comes from the table; every category that scores is listed. */
  lemma {:induction false} ScoredSpec(t: Table, text: string)
    ensures forall e :: e in Scored(t, text) ==> e.score > 0 && exists i :: 0 <= i < |t| && e == Entry(t[i], text)
    ensures forall i :: 0 <= i < |t| && Score(text, t[i].1) > 0 ==> Entry(t[i], text) in Scored(t, text)
  {
    if t != [] {
      var init := t[..|t| - 1];
      ScoredSpec(init, text);
      assert forall i :: 0 <= i < |init| ==> init[i] == t[i];
    }
  }

  predicate DistinctCategories(s: seq<CategoryScore>)
  {
    forall i, j :: 0 <= i < j < |s| ==> s[i].category != s[j].category
  }

  /** In a list with distinct labels, each label maps to its own found list in `keywords_found`. */
  lemma {:induction false} FoundMapAt(s: seq<CategoryScore>, k: nat)
    requires DistinctCategories(s)
    requires k < |s|
    ensures s[k].category in FoundMap(s) && FoundMap(s)[s[k].category] == s[k].found
  {
    var init := s[..|s| - 1];
    if k < |init| {
      assert DistinctCategories(init) by {
        assert forall i :: 0 <= i < |init| ==> init[i] == s[i];
      }
      FoundMapAt(init, k);
      assert init[k] == s[k];
    }
  }

  /** Distinct table labels give distinct labels in the score dictionary. */
  lemma {:induction false} ScoredDistinct(t: Table, text: string)
    requires DistinctLabels(t)
    ensures DistinctCategories(Scored(t, text))
  {
    if t != [] {
      var n := |t| - 1;
      var init := t[..n];
      assert DistinctLabels(init) by {
        assert forall i :: 0 <= i < |init| ==> init[i] == t[i];
      }
      ScoredDistinct(init, text);
      var s' := Scored(init, text);
      ScoredSpec(init, text);
      forall m | 0 <= m < |s'|
        ensures s'[m].category != t[n].0
      {
        assert s'[m] in s';
        var i :| 0 <= i < |init| && s'[m] == Entry(init[i], text);
        assert init[i] == t[i];
      }
    }
  }

  /** With distinct labels, each scored category's label maps to its found list in `keywords_found`. */
  lemma FoundMapLookup(t: Table, text: string, k: nat)
    requires DistinctLabels(t)
    requires k < |Scored(t, text)|
    ensures Scored(t, text)[k].category in FoundMap(Scored(t, text))
    ensures FoundMap(Scored(t, text))[Scored(t, text)[k].category] == Scored(t, text)[k].found
  {
    ScoredDistinct(t, text);
    FoundMapAt(Scored(t, text), k);
  }

  /** The scored list is empty exactly when every category of the table scores 0. */
  lemma {:induction false} ScoredEmptyIff(t: Table, text: string)
    ensures Scored(t, text) == [] <==> forall i :: 0 <= i < |t| ==> Score(text, t[i].1) == 0
  {
    if t != [] {
      var init := t[..|t| - 1];
      ScoredEmptyIff(init, text);
      assert forall i :: 0 <= i < |init| ==> init[i] == t[i];
    }
  }

  /** A (label, score) pair is in `intent_scores` exactly when that category scored that much, above 0. */
  lemma IndicatorsIff(t: Table, text: string, c: string, n: nat)
    ensures (c, n) in Indicators(Scored(t, text)) <==>
      exists i :: 0 <= i < |t| && t[i].0 == c && Score(text, t[i].1) == n && n > 0
  {
    var s := Scored(t, text);
    var d := Indicators(s);
    ScoredSpec(t, text);
    if (c, n) in d {
      var k :| 0 <= k < |d| && d[k] == (c, n);
      assert s[k] in s;
      var i :| 0 <= i < |t| && s[k] == Entry(t[i], text);
      assert t[i].0 == c && Score(text, t[i].1) == n && n > 0;
    }
    if exists i :: 0 <= i < |t| && t[i].0 == c && Score(text, t[i].1) == n && n > 0 {
      var i :| 0 <= i < |t| && t[i].0 == c && Score(text, t[i].1) == n && n > 0;
      assert Entry(t[i], text) in s;
      var k :| 0 <= k < |s| && s[k] == Entry(t[i], text);
      assert d[k] == (c, n);
    }
  }

  // The first-maximum argument is made on entry lists, where no keyword
  // search is in sight: `Positive` keeps the entries that score, and
  // `ScoresOf` lists every entry's score.

  /** Every category of the table with its score and found list, in table order. */
  function Entries(t: Table, text: string): (r: seq<CategoryScore>)
    ensures |r| == |t|
  {
    seq(|t|, i requires 0 <= i < |t| => Entry(t[i], text))
  }

  function Positive(es: seq<CategoryScore>): seq<CategoryScore>
  {
    if es == [] then [] else Positive(es[..|es| - 1]) + (if es[|es| - 1].score > 0 then [es[|es| - 1]] else [])
  }

  function ScoresOf(es: seq<CategoryScore>): (r: seq<nat>)
    ensures |r| == |es|
  {
    if es == [] then [] else ScoresOf(es[..|es| - 1]) + [es[|es| - 1].score]
  }

  lemma {:induction false} ScoresOfAt(es: seq<CategoryScore>, i: nat)
    requires i < |es|
    ensures ScoresOf(es)[i] == es[i].score
  {
    if i < |es| - 1 {
      ScoresOfAt(es[..|es| - 1], i);
    }
  }

  /** With no entry scoring, every score is 0. */
  lemma {:induction false} PositiveEmpty(es: seq<CategoryScore>, i: nat)
    requires Positive(es) == [] && i < |es|
    ensures ScoresOf(es)[i] == 0
  {
    ScoresOfAt(es, i);
    if i < |es| - 1 {
      PositiveEmpty(es[..|es| - 1], i);
      assert es[..|es| - 1][i] == es[i];
    }
  }

  /** The first maximum among the scoring entries is the entry at the first maximum of all scores. */
  lemma {:induction false} FirstPositiveIsFirstMax(es: seq<CategoryScore>)
    requires Positive(es) != []
    ensures Positive(es)[FirstMax(Values(Indicators(Positive(es))))] == es[FirstMax(ScoresOf(es))]
  {
    var n := |es| - 1;
    var init := es[..n];
    var e := es[n];
    var p, p' := Positive(es), Positive(init);
    var a, a' := ScoresOf(es), ScoresOf(init);
    assert a == a' + [e.score];
    if p' == [] {
      assert p == [e];
      assert FirstMax(Values(Indicators(p))) == 0;
      if |a'| > 0 {
        PositiveEmpty(init, FirstMax(a'));
        FirstMaxSnoc(a', e.score);
      }
      assert FirstMax(a) == n;
    } else {
      FirstPositiveIsFirstMax(init);
      var ka' := FirstMax(a');
      var v' := Values(Indicators(p'));
      var kv' := FirstMax(v');
      assert p'[kv'] == init[ka'] == es[ka'];
      ScoresOfAt(init, ka');
      assert v'[kv'] == a'[ka'];
      FirstMaxSnoc(a', e.score);
      if e.score == 0 {
        assert p == p';
        assert FirstMax(a) == ka';
      } else {
        assert p == p' + [e];
        ValuesSnoc(p', e);
        FirstMaxSnoc(v', e.score);
      }
    }
  }

  lemma {:induction false} ScoredIsPositive(t: Table, text: string)
    ensures Scored(t, text) == Positive(Entries(t, text))
    ensures TableScores(t, text) == ScoresOf(Entries(t, text))
  {
    if t != [] {
      var init := t[..|t| - 1];
      ScoredIsPositive(init, text);
      assert Entries(t, text)[..|t| - 1] == Entries(init, text);
    }
  }

  /**
   * The first maximum of the filtered score dictionary is the category at
   * the first maximum of the whole table's scores.
   */
  lemma FirstScoredIsFirstTableMax(t: Table, text: string)
    requires Scored(t, text) != []
    ensures Scored(t, text)[FirstMax(Values(Indicators(Scored(t, text))))]
         == Entry(t[FirstMax(TableScores(t, text))], text)
  {
    ScoredIsPositive(t, text);
    FirstPositiveIsFirstMax(Entries(t, text));
  }

  /** Some intent keyword occurs in the lower-cased transcript. */
  predicate SomeIntentKeyword(lower: string)
  {
    exists i, j :: 0 <= i < |Intents| && 0 <= j < |Intents[i].1| && Contains(lower, Intents[i].1[j])
  }

  lemma ScoredEmptyIffNoKeyword(lower: string)
    ensures Scored(Intents, lower) == [] <==> !SomeIntentKeyword(lower)
  {
    ScoredEmptyIff(Intents, lower);
    forall i | 0 <= i < |Intents| {
      ScorePositiveIff(lower, Intents[i].1);
    }
  }

  /**
   * The fallback: the category is `general_inquiry` exactly when no intent
   * keyword occurs, and then the result is fixed.
   */
  lemma IntentFallback(transcript: string)
    ensures IntentOf(transcript).category == GeneralInquiry <==> !SomeIntentKeyword(Lower(transcript))
    ensures !SomeIntentKeyword(Lower(transcript)) ==>
      IntentOf(transcript) == IntentResult(GeneralInquiry, 0.3, [], [])
  {
    var lower := Lower(transcript);
    ScoredEmptyIffNoKeyword(lower);
    var s := Scored(Intents, lower);
    if s != [] {
      var k := FirstMax(Values(Indicators(s)));
      ScoredSpec(Intents, lower);
      assert s[k] in s;
      var i :| 0 <= i < |Intents| && s[k] == Entry(Intents[i], lower);
      TablesHaveDistinctLabels();
    }
  }

  /**
   * When some keyword occurs, the intent is the first category in table
   * order with the maximum score; its confidence is `min(score / 10, 1)`,
   * its keywords are that category's found list, and the indicators hold
   * exactly the categories that scored, with their scores.
   */
  lemma IntentWinner(transcript: string)
    requires SomeIntentKeyword(Lower(transcript))
    ensures exists i :: 0 <= i < |Intents| && IntentWinnerAt(transcript, i)
    ensures forall c, n :: (c, n) in IntentOf(transcript).indicators <==>
      exists i :: 0 <= i < |Intents| && Intents[i].0 == c && Score(Lower(transcript), Intents[i].1) == n && n > 0
  {
    var lower := Lower(transcript);
    ScoredEmptyIffNoKeyword(lower);
    FirstScoredIsFirstTableMax(Intents, lower);
    var i := FirstMax(TableScores(Intents, lower));
    assert IntentWinnerAt(transcript, i);
    forall c: string, n: nat
      ensures (c, n) in IntentOf(transcript).indicators <==>
        exists i :: 0 <= i < |Intents| && Intents[i].0 == c && Score(lower, Intents[i].1) == n && n > 0
    {
      IndicatorsIff(Intents, lower, c, n);
    }
  }

  /** Category `i` of the table is the reported intent and is the first maximum of the scores. */
  ghost predicate IntentWinnerAt(transcript: string, i: nat)
    requires i < |Intents|
  {
    var lower := Lower(transcript);
    var r := IntentOf(transcript);
    var score := Score(lower, Intents[i].1);
    && r.category == Intents[i].0
    && r.confidence == IntentConfidence(score)
    && r.keywordsFound == FoundKeywords(lower, Intents[i].1)
    && (forall j :: 0 <= j < |Intents| ==> Score(lower, Intents[j].1) <= score)
    && (forall j :: 0 <= j < i ==> Score(lower, Intents[j].1) < score)
  }

  /** The intent confidence lies in [0.1, 1] in every case, the fallback's 0.3 included. */
  lemma IntentConfidenceRange(transcript: string)
    ensures 0.1 <= IntentOf(transcript).confidence <= 1.0
  {
    var lower := Lower(transcript);
    var s := Scored(Intents, lower);
    if s != [] {
      ScoredSpec(Intents, lower);
      var k := FirstMax(Values(Indicators(s)));
      assert s[k].score >= 1;
    }
  }

  /** `min(score / 10, 1)` does not decrease as the score grows, and is 1 exactly from 10 on. */
  lemma IntentConfidenceMonotone(a: nat, b: nat)
    requires a <= b
    ensures IntentConfidence(a) <= IntentConfidence(b)
    ensures IntentConfidence(b) == 1.0 <==> b >= 10
    ensures a >= 1 ==> 0.1 <= IntentConfidence(a)
  {
  }

  // ---------------------------------------------------------------------------
  // Sentiment

  /** What `_analyze_sentiment(transcript)` returns. */
  function SentimentOf(transcript: string): (string, real)
  {
    var counts := TableScores(SentimentKeywords, Lower(transcript));
    var total := Sum(counts);
    if total == 0 then NeutralFallback
    else
      var k := FirstMax(counts);
      (SentimentKeywords[k].0, (counts[k] as real) / (total as real))
  }

  /**
   * `_analyze_sentiment`: `sentiment_scores` starts at 0 for positive,
   * negative and neutral (the table's labels, in the table's order).
   */
  method AnalyzeSentiment(transcript: string) returns (sentiment: string, confidence: real)
    ensures (sentiment, confidence) == SentimentOf(transcript)
  {
    var lower := Lower(transcript);
    var scores: seq<nat> := [0, 0, 0];
    for i := 0 to |SentimentKeywords|
      invariant |scores| == 3
      invariant forall m :: 0 <= m < i ==> scores[m] == Score(lower, SentimentKeywords[m].1)
      invariant forall m :: i <= m < 3 ==> scores[m] == 0
    {
      var keywords := SentimentKeywords[i].1;
      for j := 0 to |keywords|
        invariant |scores| == 3
        invariant forall m :: 0 <= m < i ==> scores[m] == Score(lower, SentimentKeywords[m].1)
        invariant forall m :: i < m < 3 ==> scores[m] == 0
        invariant scores[i] == Score(lower, keywords[..j])
      {
        var keyword := keywords[j];
        assert keywords[..j + 1][..j] == keywords[..j];
        CountPositiveIffContains(lower, keyword);
        if Contains(lower, keyword) {
          scores := scores[i := scores[i] + Count(lower, keyword)];
        }
      }
      assert keywords[..|keywords|] == keywords;
    }
    assert scores == TableScores(SentimentKeywords, lower);
    var total := Sum(scores);
    if total == 0 {
      return "neutral", 0.5;
    }
    var dominant := FirstMax(scores);
    sentiment := SentimentKeywords[dominant].0;
    confidence := (scores[dominant] as real) / (total as real);
  }

  /** Some sentiment keyword occurs in the lower-cased transcript. */
  predicate SomeSentimentKeyword(lower: string)
  {
    exists i, j :: 0 <= i < |SentimentKeywords| && 0 <= j < |SentimentKeywords[i].1|
      && Contains(lower, SentimentKeywords[i].1[j])
  }

  lemma SentimentTotalZeroIff(lower: string)
    ensures Sum(TableScores(SentimentKeywords, lower)) == 0 <==> !SomeSentimentKeyword(lower)
  {
    var counts := TableScores(SentimentKeywords, lower);
    SumZeroIff(counts);
    forall i | 0 <= i < |SentimentKeywords| {
      ScorePositiveIff(lower, SentimentKeywords[i].1);
    }
  }

  /** With no sentiment keyword in the transcript the result is `("neutral", 0.5)`. */
  lemma SentimentFallback(transcript: string)
    requires !SomeSentimentKeyword(Lower(transcript))
    ensures SentimentOf(transcript) == ("neutral", 0.5)
  {
    SentimentTotalZeroIff(Lower(transcript));
  }

  /**
   * With some sentiment keyword present, the label is the first bucket (in
   * positive, negative, neutral order) with the largest count, and the
   * confidence is that count over the total, between 1/3 and 1.
   */
  lemma SentimentDominant(transcript: string)
    requires SomeSentimentKeyword(Lower(transcript))
    ensures exists k :: 0 <= k < 3 && SentimentDominantAt(transcript, k)
    ensures 1.0 / 3.0 <= SentimentOf(transcript).1 <= 1.0
  {
    var lower := Lower(transcript);
    SentimentTotalZeroIff(lower);
    var counts := TableScores(SentimentKeywords, lower);
    var k := FirstMax(counts);
    assert SentimentDominantAt(transcript, k);
    FirstMaxShareOfThree(counts);
  }

  /** Bucket `k` is the reported sentiment, with maximal count, ties going to earlier buckets. */
  ghost predicate SentimentDominantAt(transcript: string, k: nat)
    requires k < 3
  {
    var counts := TableScores(SentimentKeywords, Lower(transcript));
    var total := Sum(counts);
    && total > 0
    && SentimentOf(transcript) == (SentimentKeywords[k].0, (counts[k] as real) / (total as real))
    && (forall j :: 0 <= j < 3 ==> counts[j] <= counts[k])
    && (forall j :: 0 <= j < k ==> counts[j] < counts[k])
  }

  /** The label is always one of the three buckets. */
  lemma SentimentLabelIsBucket(transcript: string)
    ensures SentimentOf(transcript).0 in ["positive", "negative", "neutral"]
  {
    var counts := TableScores(SentimentKeywords, Lower(transcript));
    if Sum(counts) != 0 {
      var k := FirstMax(counts);
      assert k < 3;
    }
  }

  /** When some sentiment keyword occurs, the three bucket proportions sum to 1. */
  lemma SentimentProportionsSumToOne(transcript: string)
    requires SomeSentimentKeyword(Lower(transcript))
    ensures var counts := TableScores(SentimentKeywords, Lower(transcript));
      && Sum(counts) > 0
      && counts[0] as real / Sum(counts) as real + counts[1] as real / Sum(counts) as real
         + counts[2] as real / Sum(counts) as real == 1.0
  {
    var lower := Lower(transcript);
    var counts := TableScores(SentimentKeywords, lower);
    SentimentTotalZeroIff(lower);
    SumOfThree(counts);
    SharesSumToOne(counts[0] as real, counts[1] as real, counts[2] as real, Sum(counts) as real);
  }

  // ---------------------------------------------------------------------------
  // The analysis record

  datatype AnalysisDetails = AnalysisDetails(
    intentKeywordsFound: seq<string>,
    sentimentIndicators: seq<(string, nat)>)

  /** The dictionary `analyze_transcript` returns. */
  datatype Analysis = Analysis(
    intent: string,
    intentConfidence: real,
    sentiment: string,
    sentimentConfidence: real,
    overallConfidence: real,
    analysisDetails: AnalysisDetails)

  /**
   * `analyze_transcript`: both classifiers and their mean confidence. Note
   * that `sentiment_indicators` carries the INTENT score dictionary.
   */
  function AnalyzeTranscript(transcript: string): Analysis
  {
    var intent := IntentOf(transcript);
    var (sentiment, sentimentConfidence) := SentimentOf(transcript);
    Analysis(
      intent.category,
      intent.confidence,
      sentiment,
      sentimentConfidence,
      (intent.confidence + sentimentConfidence) / 2.0,
      AnalysisDetails(intent.keywordsFound, intent.indicators))
  }

  /**
   * The record copies both classifiers' results unchanged, takes their mean
   * as the overall confidence, and files the intent score dictionary under
   * `sentiment_indicators`.
   */
  lemma AnalysisRecord(transcript: string)
    ensures var a := AnalyzeTranscript(transcript);
      var intent := IntentOf(transcript);
      && a.intent == intent.category
      && a.intentConfidence == intent.confidence
      && (a.sentiment, a.sentimentConfidence) == SentimentOf(transcript)
      && a.overallConfidence == (a.intentConfidence + a.sentimentConfidence) / 2.0
      && a.analysisDetails == AnalysisDetails(intent.keywordsFound, intent.indicators)
  {
  }

  /** The sentiment confidence lies in [1/3, 1] in every case, the fallback's 0.5 included. */
  lemma SentimentConfidenceRange(transcript: string)
    ensures 1.0 / 3.0 <= SentimentOf(transcript).1 <= 1.0
  {
    if SomeSentimentKeyword(Lower(transcript)) {
      SentimentDominant(transcript);
    } else {
      SentimentFallback(transcript);
    }
  }

  /** The overall confidence lies between the two component confidences, hence in [13/60, 1]. */
  lemma OverallConfidenceRange(transcript: string)
    ensures var a := AnalyzeTranscript(transcript);
      && (a.intentConfidence <= a.overallConfidence <= a.sentimentConfidence
          || a.sentimentConfidence <= a.overallConfidence <= a.intentConfidence)
      && 13.0 / 60.0 <= a.overallConfidence <= 1.0
  {
    IntentConfidenceRange(transcript);
    SentimentConfidenceRange(transcript);
  }

  /** Matching is case-insensitive: the analysis depends only on the lower-cased text. */
  lemma AnalysisIgnoresCase(transcript: string)
    ensures AnalyzeTranscript(Lower(transcript)) == AnalyzeTranscript(transcript)
  {
    LowerIdempotent(transcript);
  }

  // ---------------------------------------------------------------------------
  // Analysing and saving

  /** The save call `analyze_and_save` issues for an analysis; `raw_analysis` is the record itself. */
  function SaveRequestFor(transcriptId: int, customerId: string, a: Analysis): SaveRequest<Analysis>
  {
    SaveRequest(transcriptId, customerId, a.intent, a.sentiment, a.overallConfidence, a)
  }

  /** The dictionary `analyze_and_save` returns. */
  datatype AnalysisOutcome = AnalysisOutcome(analysis: Analysis, databaseSave: SaveResult)

  /**
   * `analyze_and_save`: one save call carrying the record's intent,
   * sentiment and overall confidence; the analysis is returned whatever
   * the save reports.
   */
  method AnalyzeAndSave(db: Database<Analysis>, transcriptId: int, customerId: string, transcriptText: string)
    returns (r: AnalysisOutcome)
    requires db.Valid()
    modifies db
    ensures db.Valid()
    ensures db.transcripts == old(db.transcripts)
    ensures db.readFault == old(db.readFault) && db.writeFault == old(db.writeFault)
    ensures r.analysis == AnalyzeTranscript(transcriptText)
    ensures db.saveCalls == old(db.saveCalls) + [SaveRequestFor(transcriptId, customerId, r.analysis)]
    ensures r.databaseSave == SaveOutcome(db.writeFault, old(db.analyses), SaveRequestFor(transcriptId, customerId, r.analysis))
    ensures db.analyses == TableAfterSave(db.writeFault, old(db.analyses), SaveRequestFor(transcriptId, customerId, r.analysis))
    ensures r.databaseSave.Saved? <==> db.writeFault.None?
  {
    var analysis := AnalyzeTranscript(transcriptText);
    var dbResult := db.SaveAnalysisResult(
      SaveRequest(transcriptId, customerId, analysis.intent, analysis.sentiment, analysis.overallConfidence, analysis));
    r := AnalysisOutcome(analysis, dbResult);
  }
}
