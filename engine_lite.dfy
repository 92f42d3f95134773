/**
  The lightweight rules engine: keyword relevance ranking of rules and
  glossary entries against a question, the stack-rule filter, and the two
  pure helpers of `answer_question` (the brace span handed to the JSON parser
  and the 200-character summary). The language-model call, the prompt text
  and the JSON parsing itself are not modelled.
 */
module EngineLite {
  import opened Text
  import opened Seqs
  import opened RulesParser

  /**
    `rules_data` as loaded from the pre-processed JSON: the rule list, and the
    glossary as its `(key, entry)` items in dictionary iteration order (the key
    is the lower-cased term).
   */
  datatype RulesData = RulesData(rules: seq<Rule>, glossary: seq<(string, GlossaryEntry)>)

  /** The `metadata` of a ranked passage. */
  datatype Metadata = RuleMetadata(ruleNumber: string, section: string) | GlossaryMetadata(term: string)

  /** `{"content", "metadata", "score"}`. */
  datatype Passage = Passage(content: string, metadata: Metadata, score: int)

  // ----- Scoring policy -----

  /**
    The score of a rule: 100 when the lower-cased query occurs in the
    lower-cased text, 10 per distinct shared word, and 50 when the query has a
    digit and contains the rule number verbatim.
   */
  function RuleScore(query: string, rule: Rule): nat {
    (if Contains(Lower(rule.text), Lower(query)) then 100 else 0)
    + 10 * |Words(Lower(query)) * Words(Lower(rule.text))|
    + (if HasDigit(query) && Contains(query, rule.number) then 50 else 0)
  }

  /**
    The score of a glossary item: 150 when the lower-cased query and the key
    contain one another, 80 when the query occurs in the definition, and 8 per
    distinct word shared with the DEFINITION (the term's words never count).
   */
  function GlossaryScore(query: string, key: string, entry: GlossaryEntry): nat {
    (if Contains(key, Lower(query)) || Contains(Lower(query), key) then 150 else 0)
    + (if Contains(Lower(entry.definition), Lower(query)) then 80 else 0)
    + 8 * |Words(Lower(query)) * Words(Lower(entry.definition))|
  }

  function RulePassage(rule: Rule, score: int): Passage {
    Passage("Rule " + rule.number + ": " + rule.text, RuleMetadata(rule.number, rule.section), score)
  }

  function GlossaryPassage(entry: GlossaryEntry, score: int): Passage {
    Passage("Glossary - " + entry.term + ": " + entry.definition, GlossaryMetadata(entry.term), score)
  }

  /** The passages of the rules that score above zero, in rule order. */
  function RuleHits(query: string, rules: seq<Rule>): seq<Passage> {
    if rules == [] then [] else
      var rule := rules[|rules| - 1];
      RuleHits(query, rules[..|rules| - 1])
      + (if RuleScore(query, rule) > 0 then [RulePassage(rule, RuleScore(query, rule))] else [])
  }

  /** The passages of the glossary items that score above zero, in iteration order. */
  function GlossaryHits(query: string, glossary: seq<(string, GlossaryEntry)>): seq<Passage> {
    if glossary == [] then [] else
      var key := glossary[|glossary| - 1].0;
      var entry := glossary[|glossary| - 1].1;
      GlossaryHits(query, glossary[..|glossary| - 1])
      + (if GlossaryScore(query, key, entry) > 0 then [GlossaryPassage(entry, GlossaryScore(query, key, entry))] else [])
  }

  /** Scoring one more rule extends the hits by its passage when it scores above zero. */
  lemma RuleHitsStep(query: string, rules: seq<Rule>, i: int)
    requires 0 <= i < |rules|
    ensures RuleHits(query, rules[..i + 1]) == RuleHits(query, rules[..i])
      + (if RuleScore(query, rules[i]) > 0 then [RulePassage(rules[i], RuleScore(query, rules[i]))] else [])
  {
    assert rules[..i + 1][..i] == rules[..i];
  }

  /** Scoring one more glossary item extends the hits by its passage when it scores above zero. */
  lemma GlossaryHitsStep(query: string, glossary: seq<(string, GlossaryEntry)>, j: int)
    requires 0 <= j < |glossary|
    ensures GlossaryHits(query, glossary[..j + 1]) == GlossaryHits(query, glossary[..j])
      + (if GlossaryScore(query, glossary[j].0, glossary[j].1) > 0
         then [GlossaryPassage(glossary[j].1, GlossaryScore(query, glossary[j].0, glossary[j].1))] else [])
  {
    assert glossary[..j + 1][..j] == glossary[..j];
  }

  // ----- Stable sort by descending score -----

  predicate SortedByScore(s: seq<Passage>) {
    forall i, j :: 0 <= i < j < |s| ==> s[i].score >= s[j].score
  }

  /** Put `x` before the first element scoring no more than it. */
  function Insert(x: Passage, s: seq<Passage>): seq<Passage> {
    if s == [] || x.score >= s[0].score then [x] + s else [s[0]] + Insert(x, s[1..])
  }

  /**
    `list.sort(key=score, reverse=True)`: a stable sort by descending score,
    as an insertion sort that inserts each element ahead of its equals.
   */
  function SortByScore(s: seq<Passage>): seq<Passage> {
    if s == [] then [] else Insert(s[0], SortByScore(s[1..]))
  }

  /** The elements of `s` with score `v`, in order. */
  function ScoreClass(s: seq<Passage>, v: int): seq<Passage> {
    if s == [] then [] else (if s[0].score == v then [s[0]] else []) + ScoreClass(s[1..], v)
  }

  /** Inserting adds exactly the inserted passage. */
  lemma {:induction false} InsertPermutation(x: Passage, s: seq<Passage>)
    ensures multiset(Insert(x, s)) == multiset{x} + multiset(s)
    ensures |Insert(x, s)| == |s| + 1
  {
    if s != [] && x.score < s[0].score {
      InsertPermutation(x, s[1..]);
      assert s == [s[0]] + s[1..];
    }
  }

  /** Inserting into a sorted sequence keeps it sorted. */
  lemma {:induction false} InsertSorted(x: Passage, s: seq<Passage>)
    requires SortedByScore(s)
    ensures SortedByScore(Insert(x, s))
  {
    if s != [] && x.score < s[0].score {
      var rest := Insert(x, s[1..]);
      InsertSorted(x, s[1..]);
      InsertPermutation(x, s[1..]);
      forall y | y in rest ensures s[0].score >= y.score {
        assert y in multiset(rest);
        assert y == x || y in multiset(s[1..]);
      }
      ConsSorted(s[0], rest);
    }
  }

  /** An element scoring at least everything in a sorted sequence can go in front of it. */
  lemma ConsSorted(a: Passage, rest: seq<Passage>)
    requires SortedByScore(rest)
    requires forall y :: y in rest ==> a.score >= y.score
    ensures SortedByScore([a] + rest)
  {
    var s := [a] + rest;
    forall i, j | 0 <= i < j < |s| ensures s[i].score >= s[j].score {
      assert s[j] == rest[j - 1];
      if i > 0 {
        assert s[i] == rest[i - 1];
      }
    }
  }

  /**
    Inserting puts the passage ahead of everything of its own score: among
    the passages of any one score, the inserted one comes first.
   */
  lemma {:induction false} InsertScoreClass(x: Passage, s: seq<Passage>, v: int)
    ensures ScoreClass(Insert(x, s), v) == (if x.score == v then [x] else []) + ScoreClass(s, v)
  {
    if s == [] || x.score >= s[0].score {
      ScoreClassCons(x, s, v);
    } else {
      var rest := Insert(x, s[1..]);
      InsertScoreClass(x, s[1..], v);
      ScoreClassCons(s[0], rest, v);
      ScoreClassCons(s[0], s[1..], v);
      assert [s[0]] + s[1..] == s;
      if x.score == v {
        assert s[0].score != v;
      }
    }
  }

  /** The score class of a list with a given first element. */
  lemma ScoreClassCons(a: Passage, t: seq<Passage>, v: int)
    ensures ScoreClass([a] + t, v) == (if a.score == v then [a] else []) + ScoreClass(t, v)
  {
    assert ([a] + t)[1..] == t;
  }

  /** The sort is a permutation of its input. */
  lemma {:induction false} SortPermutation(s: seq<Passage>)
    ensures multiset(SortByScore(s)) == multiset(s)
    ensures |SortByScore(s)| == |s|
  {
    if s != [] {
      SortPermutation(s[1..]);
      InsertPermutation(s[0], SortByScore(s[1..]));
      assert s == [s[0]] + s[1..];
    }
  }

  /** The sort orders by non-increasing score. */
  lemma {:induction false} SortSorted(s: seq<Passage>)
    ensures SortedByScore(SortByScore(s))
  {
    if s != [] {
      SortSorted(s[1..]);
      InsertSorted(s[0], SortByScore(s[1..]));
    }
  }

  /** The sort is stable: the elements of each score keep their input order. */
  lemma {:induction false} SortStable(s: seq<Passage>, v: int)
    ensures ScoreClass(SortByScore(s), v) == ScoreClass(s, v)
  {
    if s != [] {
      SortStable(s[1..], v);
      InsertScoreClass(s[0], SortByScore(s[1..]), v);
    }
  }

  lemma {:induction false} ScoreClassConcat(a: seq<Passage>, b: seq<Passage>, v: int)
    ensures ScoreClass(a + b, v) == ScoreClass(a, v) + ScoreClass(b, v)
  {
    if a == [] {
      assert a + b == b;
    } else {
      var h := if a[0].score == v then [a[0]] else [];
      ScoreClassConcat(a[1..], b, v);
      assert (a + b)[0] == a[0];
      assert (a + b)[1..] == a[1..] + b;
      assert ScoreClass(a + b, v) == h + (ScoreClass(a[1..], v) + ScoreClass(b, v));
      assert ScoreClass(a, v) == h + ScoreClass(a[1..], v);
    }
  }

  // ----- The ranker -----

  /** Everything `search_relevant_rules` scores above zero, before sorting: rules first. */
  function Hits(data: RulesData, query: string): seq<Passage> {
    RuleHits(query, data.rules) + GlossaryHits(query, data.glossary)
  }

  lemma {:induction false} RuleHitsPositive(query: string, rules: seq<Rule>)
    ensures forall p :: p in RuleHits(query, rules) ==> p.score > 0
  {
    if rules != [] {
      RuleHitsPositive(query, rules[..|rules| - 1]);
    }
  }

  lemma {:induction false} GlossaryHitsPositive(query: string, glossary: seq<(string, GlossaryEntry)>)
    ensures forall p :: p in GlossaryHits(query, glossary) ==> p.score > 0
  {
    if glossary != [] {
      GlossaryHitsPositive(query, glossary[..|glossary| - 1]);
    }
  }

  /**
    The rule hits are exactly the passages of the rules scoring above zero:
    every such rule has its passage among them, and every hit is one.
   */
  lemma {:induction false} RuleHitsExact(query: string, rules: seq<Rule>)
    ensures forall rule :: rule in rules && RuleScore(query, rule) > 0 ==>
              RulePassage(rule, RuleScore(query, rule)) in RuleHits(query, rules)
    ensures forall p :: p in RuleHits(query, rules) ==>
              exists rule :: rule in rules && RuleScore(query, rule) > 0 && p == RulePassage(rule, RuleScore(query, rule))
  {
    if rules != [] {
      var init := rules[..|rules| - 1];
      RuleHitsExact(query, init);
      assert rules == init + [rules[|rules| - 1]];
    }
  }

  /**
    The glossary hits are exactly the passages of the items scoring above
    zero: every such item has its passage among them, and every hit is one.
   */
  lemma {:induction false} GlossaryHitsExact(query: string, glossary: seq<(string, GlossaryEntry)>)
    ensures forall key, entry :: (key, entry) in glossary && GlossaryScore(query, key, entry) > 0 ==>
              GlossaryPassage(entry, GlossaryScore(query, key, entry)) in GlossaryHits(query, glossary)
    ensures forall p :: p in GlossaryHits(query, glossary) ==>
              exists key, entry :: (key, entry) in glossary && GlossaryScore(query, key, entry) > 0
                                   && p == GlossaryPassage(entry, GlossaryScore(query, key, entry))
  {
    if glossary != [] {
      var init := glossary[..|glossary| - 1];
      GlossaryHitsExact(query, init);
      var (key, entry) := glossary[|glossary| - 1];
      assert glossary == init + [(key, entry)];
      assert (key, entry) in glossary;
      forall p | p in GlossaryHits(query, glossary)
        ensures exists key', entry' :: (key', entry') in glossary && GlossaryScore(query, key', entry') > 0
                                       && p == GlossaryPassage(entry', GlossaryScore(query, key', entry'))
      {
        if p !in GlossaryHits(query, init) {
          assert p == GlossaryPassage(entry, GlossaryScore(query, key, entry));
        } else {
          var key', entry' :| (key', entry') in init && GlossaryScore(query, key', entry') > 0
                             && p == GlossaryPassage(entry', GlossaryScore(query, key', entry'));
          assert (key', entry') in glossary;
        }
      }
    }
  }

  /** What any ranking `hits` sorted and cut to `k` satisfies. */
  lemma RankedProperties(hits: seq<Passage>, k: int)
    requires forall p :: p in hits ==> p.score > 0
    ensures forall p :: p in Take(SortByScore(hits), k) ==> p.score > 0
    ensures SortedByScore(Take(SortByScore(hits), k))
    ensures k >= 0 ==> |Take(SortByScore(hits), k)| == Min(k, |hits|)
  {
    var sorted := SortByScore(hits);
    SortSorted(hits);
    SortPermutation(hits);
    forall p | p in Take(sorted, k) ensures p.score > 0 {
      assert p in multiset(sorted);
    }
  }

  /**
    `search_relevant_rules(query, k)`: scores every rule and glossary item,
    drops zero scores, sorts stably by descending score and keeps `[:k]`.
   */
  method SearchRelevantRules(data: RulesData, query: string, k: int) returns (results: seq<Passage>)
    ensures results == Take(SortByScore(Hits(data, query)), k)
    ensures forall p :: p in results ==> p.score > 0
    ensures SortedByScore(results)
    ensures k >= 0 ==> |results| == Min(k, |Hits(data, query)|)
  {
    var ruleHits := ScoreRules(query, data.rules);
    var glossaryHits := ScoreGlossary(query, data.glossary);
    var scored := ruleHits + glossaryHits;
    scored := SortByScore(scored);
    results := Take(scored, k);

    RuleHitsPositive(query, data.rules);
    GlossaryHitsPositive(query, data.glossary);
    RankedProperties(Hits(data, query), k);
  }

  /** The rule loop of `search_relevant_rules`: every rule with a positive score, in rule order. */
  method ScoreRules(query: string, rules: seq<Rule>) returns (scored: seq<Passage>)
    ensures scored == RuleHits(query, rules)
  {
    var queryLower := Lower(query);
    var queryWords := Words(queryLower);
    scored := [];
    var i := 0;
    while i < |rules|
      invariant 0 <= i <= |rules|
      invariant scored == RuleHits(query, rules[..i])
    {
      var rule := rules[i];
      var ruleTextLower := Lower(rule.text);
      var ruleWords := Words(ruleTextLower);
      var score := 0;
      if Contains(ruleTextLower, queryLower) {
        score := score + 100;
      }
      var common := queryWords * ruleWords;
      score := score + |common| * 10;
      if HasDigit(query) {
        if Contains(query, rule.number) {
          score := score + 50;
        }
      }
      assert score == RuleScore(query, rule);
      RuleHitsStep(query, rules, i);
      if score > 0 {
        scored := scored + [RulePassage(rule, score)];
      }
      i := i + 1;
    }
    assert rules[..i] == rules;
  }

  /** The glossary loop of `search_relevant_rules`: every item with a positive score, in glossary order. */
  method ScoreGlossary(query: string, glossary: seq<(string, GlossaryEntry)>) returns (scored: seq<Passage>)
    ensures scored == GlossaryHits(query, glossary)
  {
    var queryLower := Lower(query);
    var queryWords := Words(queryLower);
    scored := [];
    var j := 0;
    while j < |glossary|
      invariant 0 <= j <= |glossary|
      invariant scored == GlossaryHits(query, glossary[..j])
    {
      var term := glossary[j].0;
      var entry := glossary[j].1;
      var entryTextLower := Lower(entry.definition);
      var entryWords := Words(entryTextLower);
      var score := 0;
      if Contains(term, queryLower) || Contains(queryLower, term) {
        score := score + 150;
      }
      if Contains(entryTextLower, queryLower) {
        score := score + 80;
      }
      var common := queryWords * entryWords;
      score := score + |common| * 8;
      assert score == GlossaryScore(query, term, entry);
      GlossaryHitsStep(query, glossary, j);
      if score > 0 {
        scored := scored + [GlossaryPassage(entry, score)];
      }
      j := j + 1;
    }
    assert glossary[..j] == glossary;
  }

  /**
    Ties keep input order, rules before glossary: the passages of each score
    come out as the rule hits of that score followed by the glossary hits.
   */
  lemma RankingStable(data: RulesData, query: string, v: int)
    ensures ScoreClass(SortByScore(Hits(data, query)), v)
         == ScoreClass(RuleHits(query, data.rules), v) + ScoreClass(GlossaryHits(query, data.glossary), v)
  {
    SortStable(Hits(data, query), v);
    ScoreClassConcat(RuleHits(query, data.rules), GlossaryHits(query, data.glossary), v);
  }

  /** In a list sorted by descending score, a strictly higher score comes strictly earlier. */
  lemma HigherScoreFirst(s: seq<Passage>, i: int, j: int)
    requires SortedByScore(s)
    requires 0 <= i < |s| && 0 <= j < |s| && s[i].score > s[j].score
    ensures i < j
  {
  }

  /** The empty query occurs in every text: every rule scores at least 100, every glossary item at least 150. */
  lemma EmptyQueryScores(rule: Rule, key: string, entry: GlossaryEntry)
    ensures RuleScore("", rule) >= 100
    ensures GlossaryScore("", key, entry) >= 150
  {
    ContainsEmpty(Lower(rule.text));
    ContainsEmpty(key);
  }

  lemma IntersectionBound(a: set<string>, b: set<string>)
    ensures |a * b| <= |a|
  {
    var c := a * b;
    assert a == c + (a - c);
    assert c !! (a - c);
  }

  /**
    A question that IS a glossary key (as `"flying"` is) scores that entry
    above every rule that only shares words with it, as long as the question
    has at most 14 distinct words.
   */
  lemma ExactTermOutranksWordOverlap(query: string, entry: GlossaryEntry, rule: Rule)
    requires |Words(Lower(query))| <= 14
    requires !Contains(Lower(rule.text), Lower(query))
    requires !(HasDigit(query) && Contains(query, rule.number))
    ensures GlossaryScore(query, Lower(query), entry) > RuleScore(query, rule)
  {
    ContainsSelf(Lower(query));
    IntersectionBound(Words(Lower(query)), Words(Lower(rule.text)));
  }

  /**
    `get_stack_resolution_rules`: the rules numbered 405… or mentioning the
    stack, in corpus order.
   */
  method GetStackResolutionRules(data: RulesData) returns (stackRules: seq<Rule>)
    ensures stackRules == Filter(data.rules, IsStackRule)
    ensures forall r :: r in stackRules <==> r in data.rules && IsStackRule(r)
  {
    stackRules := [];
    var i := 0;
    while i < |data.rules|
      invariant 0 <= i <= |data.rules|
      invariant stackRules == Filter(data.rules[..i], IsStackRule)
    {
      FilterStep(data.rules, i, IsStackRule);
      var rule := data.rules[i];
      if StartsWith(rule.number, "405") || Contains(Lower(rule.text), "stack") {
        stackRules := stackRules + [rule];
      }
      i := i + 1;
    }
    assert data.rules[..i] == data.rules;
    FilterMembership(data.rules, IsStackRule);
  }

  // ----- Helpers of answer_question -----

  /**
    The span handed to the JSON parser: from the first `{` through the last
    `}`, when the last `}` comes after the first `{`.
   */
  function BraceSpan(text: string): (r: Option<string>)
    ensures r.Some? ==> |r.value| >= 2 && r.value[0] == '{' && r.value[|r.value| - 1] == '}'
    ensures r.Some? ==> exists i :: OccursAt(text, r.value, i)
                                    && (forall m :: 0 <= m < i ==> text[m] != '{')
                                    && (forall m :: i + |r.value| <= m < |text| ==> text[m] != '}')
  {
    var jsonStart := Find(text, '{');
    var jsonEnd := RFind(text, '}') + 1;
    if jsonStart != -1 && jsonEnd > jsonStart then
      assert OccursAt(text, text[jsonStart..jsonEnd], jsonStart);
      Some(text[jsonStart..jsonEnd])
    else None
  }

  /** A span is found exactly when some `}` follows some `{`. */
  lemma BraceSpanExists(text: string)
    ensures BraceSpan(text).Some? <==>
            exists i, j :: 0 <= i < j < |text| && text[i] == '{' && text[j] == '}'
  {
    var s := Find(text, '{');
    var e := RFind(text, '}');
    if BraceSpan(text).Some? {
      assert text[s] == '{' && text[e] == '}';
    }
    if exists i, j :: 0 <= i < j < |text| && text[i] == '{' && text[j] == '}' {
      var i, j :| 0 <= i < j < |text| && text[i] == '{' && text[j] == '}';
      assert s != -1 && s <= i;
      assert e != -1 && j <= e;
    }
  }

  /** `text[:200] + "..." if len(text) > 200 else text`. */
  function Summary(text: string): (r: string)
    ensures |r| <= 203
    ensures StartsWith(r, text[..Min(|text|, 200)])
    ensures |text| <= 200 ==> r == text
    ensures |text| > 200 ==> |r| == 203 && r[200..] == "..."
  {
    if |text| > 200 then text[..200] + "..." else text
  }

  /** The passage cites a rule: its metadata carries a rule number. */
  predicate IsRulePassage(p: Passage) {
    p.metadata.RuleMetadata?
  }

  /**
    The fallback `rule_references`: the rule number of every passage whose
    metadata has one, in passage order.
   */
  function RuleReferences(passages: seq<Passage>): (r: seq<string>)
    ensures |r| == |Filter(passages, IsRulePassage)|
    ensures forall i :: 0 <= i < |r| ==>
              IsRulePassage(Filter(passages, IsRulePassage)[i]) && r[i] == Filter(passages, IsRulePassage)[i].metadata.ruleNumber
  {
    if passages == [] then [] else
      var last := passages[|passages| - 1];
      RuleReferences(passages[..|passages| - 1])
      + (if last.metadata.RuleMetadata? then [last.metadata.ruleNumber] else [])
  }

  /** A number is referenced exactly when some rule passage carries it; glossary passages add nothing. */
  lemma RuleReferencesExact(passages: seq<Passage>)
    ensures forall n :: n in RuleReferences(passages) <==>
              exists p :: p in passages && p.metadata.RuleMetadata? && p.metadata.ruleNumber == n
  {
    var hits := Filter(passages, IsRulePassage);
    var r := RuleReferences(passages);
    FilterMembership(passages, IsRulePassage);
    forall n ensures n in r <==> exists p :: p in passages && p.metadata.RuleMetadata? && p.metadata.ruleNumber == n {
      if n in r {
        var i :| 0 <= i < |r| && r[i] == n;
        assert hits[i] in hits;
      }
      if exists p :: p in passages && p.metadata.RuleMetadata? && p.metadata.ruleNumber == n {
        var p :| p in passages && p.metadata.RuleMetadata? && p.metadata.ruleNumber == n;
        assert p in hits;
        var i :| 0 <= i < |hits| && hits[i] == p;
        assert r[i] == n;
      }
    }
  }
}
