/**
  The comprehensive-rules corpus: rule and glossary entries, the section of a
  rule number, and the parser object that indexes entries and answers lookups.
  Text extraction from the PDF and the regular expressions that cut it into
  `(number, text)` and `(term, definition)` pairs are not modelled: the
  extraction methods consume the already-matched pairs.
 */
module RulesParser {
  import opened Text
  import opened Seqs

  /** `{"number", "text", "section"}`. */
  datatype Rule = Rule(number: string, text: string, section: string)

  /** `{"term", "definition"}`. */
  datatype GlossaryEntry = GlossaryEntry(term: string, definition: string)

  /** The nine section names, for the leading digits 1 to 9. */
  const SectionNames: seq<string> := [
    "Game Concepts", "Parts of a Card", "Card Types", "Zones", "Turn Structure",
    "Spells, Abilities, and Effects", "Additional Rules", "Multiplayer Rules", "Casual Variants"
  ]

  /** `section_map`: each leading digit 1 to 9 to its section name. */
  const SectionMap: map<char, string> := map c | '1' <= c <= '9' :: SectionNames[c as int - '1' as int]

  /** `_get_section`: the section named by the first character of a rule number. */
  function Section(ruleNumber: string): (r: string)
    requires |ruleNumber| > 0
    ensures '1' <= ruleNumber[0] <= '9' ==> r == SectionNames[ruleNumber[0] as int - '1' as int]
    ensures !('1' <= ruleNumber[0] <= '9') ==> r == "Unknown"
    ensures r == "Unknown" <==> !('1' <= ruleNumber[0] <= '9')
  {
    if ruleNumber[0] in SectionMap then SectionMap[ruleNumber[0]] else "Unknown"
  }

  /** Distinct leading digits name distinct sections. */
  lemma SectionInjective(a: string, b: string)
    requires |a| > 0 && |b| > 0
    requires '1' <= a[0] <= '9' && '1' <= b[0] <= '9'
    ensures Section(a) == Section(b) <==> a[0] == b[0]
  {
  }

  /** The rule a matched `(number, text)` pair becomes. */
  function RuleEntries(matches: seq<(string, string)>): (r: seq<Rule>)
    requires forall i :: 0 <= i < |matches| ==> |matches[i].0| > 0
    ensures |r| == |matches|
    ensures forall i :: 0 <= i < |r| ==>
      r[i].number == matches[i].0 && r[i].text == matches[i].1 && r[i].section == Section(matches[i].0)
  {
    if matches == [] then []
    else [Rule(matches[0].0, matches[0].1, Section(matches[0].0))] + RuleEntries(matches[1..])
  }

  /** The glossary entry a matched `(term, definition)` pair becomes. */
  function GlossaryEntries(matches: seq<(string, string)>): (r: seq<GlossaryEntry>)
    ensures |r| == |matches|
    ensures forall i :: 0 <= i < |r| ==> r[i] == GlossaryEntry(matches[i].0, matches[i].1)
  {
    seq(|matches|, i requires 0 <= i < |matches| => GlossaryEntry(matches[i].0, matches[i].1))
  }

  /** The key of a rule in `rules_dict`. */
  function RuleKey(r: Rule): string { r.number }

  /** The key of a glossary entry: `term.lower()`. */
  function TermKey(e: GlossaryEntry): string { Lower(e.term) }

  /** Dictionary assignment `d[key(v)] = v` for each `v` of `vs` in order. */
  function Upsert<V>(d: map<string, V>, vs: seq<V>, key: V -> string): map<string, V>
    decreases |vs|
  {
    if vs == [] then d else Upsert(d[key(vs[0]) := vs[0]], vs[1..], key)
  }

  /** One assignment taken off the front of the remaining ones. */
  lemma UpsertStep<V>(d: map<string, V>, vs: seq<V>, i: int, key: V -> string)
    requires 0 <= i < |vs|
    ensures Upsert(d, vs[i..], key) == Upsert(d[key(vs[i]) := vs[i]], vs[i + 1..], key)
  {
    assert vs[i..][1..] == vs[i + 1..];
  }

  /** `vs[i]` is the last element of `vs` with key `k`. */
  predicate LastWithKey<V>(vs: seq<V>, key: V -> string, k: string, i: int) {
    0 <= i < |vs| && key(vs[i]) == k && forall j :: i < j < |vs| ==> key(vs[j]) != k
  }

  /**
    After the assignments, a key is present iff it was before or some element
    has it; its value is the LAST element with that key (later duplicates
    overwrite earlier ones), or the old value when no element has it.
   */
  lemma {:induction false} UpsertLookup<V>(d: map<string, V>, vs: seq<V>, key: V -> string, k: string)
    ensures k in Upsert(d, vs, key) <==> k in d || exists i :: 0 <= i < |vs| && key(vs[i]) == k
    ensures forall i :: LastWithKey(vs, key, k, i) ==> Upsert(d, vs, key)[k] == vs[i]
    ensures (forall i :: 0 <= i < |vs| ==> key(vs[i]) != k) && k in d ==> Upsert(d, vs, key)[k] == d[k]
    decreases |vs|
  {
    if vs != [] {
      var d' := d[key(vs[0]) := vs[0]];
      UpsertLookup(d', vs[1..], key, k);
      forall i | LastWithKey(vs, key, k, i) ensures Upsert(d, vs, key)[k] == vs[i] {
        if i > 0 {
          assert LastWithKey(vs[1..], key, k, i - 1);
        } else {
          assert forall j :: 0 <= j < |vs[1..]| ==> key(vs[1..][j]) != k by {
            forall j | 0 <= j < |vs[1..]| ensures key(vs[1..][j]) != k {
              assert vs[1..][j] == vs[j + 1];
            }
          }
        }
      }
      if exists i :: 0 <= i < |vs| && key(vs[i]) == k {
        var i :| 0 <= i < |vs| && key(vs[i]) == k;
        if i > 0 {
          assert key(vs[1..][i - 1]) == k;
        }
      }
      if exists i :: 0 <= i < |vs[1..]| && key(vs[1..][i]) == k {
        var i :| 0 <= i < |vs[1..]| && key(vs[1..][i]) == k;
        assert key(vs[i + 1]) == k;
      }
    }
  }

  /** `number.startswith("405") or "stack" in text.lower()`: the stack-rule test. */
  predicate IsStackRule(r: Rule) {
    StartsWith(r.number, "405") || Contains(Lower(r.text), "stack")
  }

  /** The rules whose lower-cased text contains the lower-cased query. */
  function TextMatches(query: string): Rule -> bool {
    (r: Rule) => Contains(Lower(r.text), Lower(query))
  }

  /**
    Every indexed rule is listed under its own number, and every listed
    number is indexed.
   */
  ghost predicate RulesIndexed(rules: seq<Rule>, index: map<string, Rule>) {
    && (forall n :: n in index ==> index[n].number == n && index[n] in rules)
    && (forall r :: r in rules ==> r.number in index)
  }

  /** Every glossary key is the lower-cased term of its entry. */
  ghost predicate GlossaryKeyed(glossary: map<string, GlossaryEntry>) {
    forall k :: k in glossary ==> k == Lower(glossary[k].term)
  }

  /** Appending a rule and indexing it under its number keeps the two in agreement. */
  lemma AppendRuleIndexed(rules: seq<Rule>, index: map<string, Rule>, entry: Rule)
    requires RulesIndexed(rules, index)
    ensures RulesIndexed(rules + [entry], index[entry.number := entry])
  {
  }

  /** Appending and indexing a whole batch of rules keeps the list and the index in agreement. */
  lemma {:induction false} UpsertRulesIndexed(rules: seq<Rule>, index: map<string, Rule>, es: seq<Rule>)
    requires RulesIndexed(rules, index)
    ensures RulesIndexed(rules + es, Upsert(index, es, RuleKey))
    decreases |es|
  {
    if es != [] {
      AppendRuleIndexed(rules, index, es[0]);
      UpsertRulesIndexed(rules + [es[0]], index[es[0].number := es[0]], es[1..]);
      assert rules + [es[0]] + es[1..] == rules + es;
    }
  }

  /** Storing entries under their lower-cased terms keeps the glossary keyed by term. */
  lemma {:induction false} UpsertGlossaryKeyed(glossary: map<string, GlossaryEntry>, es: seq<GlossaryEntry>)
    requires GlossaryKeyed(glossary)
    ensures GlossaryKeyed(Upsert(glossary, es, TermKey))
    decreases |es|
  {
    if es != [] {
      UpsertGlossaryKeyed(glossary[Lower(es[0].term) := es[0]], es[1..]);
    }
  }

  /** `RulesParser`: the ordered rule list, the rule index and the glossary index. */
  class Parser {
    var rules: seq<Rule>
    var rulesDict: map<string, Rule>
    var glossary: map<string, GlossaryEntry>

    /** The indexes agree with the list and the glossary is keyed by lower-cased term. */
    ghost predicate Valid()
      reads this
    {
      RulesIndexed(rules, rulesDict) && GlossaryKeyed(glossary)
    }

    constructor ()
      ensures Valid()
      ensures rules == [] && rulesDict == map[] && glossary == map[]
    {
      rules := [];
      rulesDict := map[];
      glossary := map[];
    }

    /** `_extract_rules` over the matched `(number, text)` pairs. */
    method ExtractRules(matches: seq<(string, string)>)
      requires Valid()
      requires forall i :: 0 <= i < |matches| ==> |matches[i].0| > 0
      modifies this
      ensures Valid()
      ensures rules == old(rules) + RuleEntries(matches)
      ensures rulesDict == Upsert(old(rulesDict), RuleEntries(matches), RuleKey)
      ensures glossary == old(glossary)
    {
      ghost var entries := RuleEntries(matches);
      ghost var d0 := rulesDict;
      ghost var r0 := rules;
      var i := 0;
      while i < |matches|
        invariant 0 <= i <= |matches|
        invariant rules == r0 + entries[..i]
        invariant Upsert(rulesDict, entries[i..], RuleKey) == Upsert(d0, entries, RuleKey)
        invariant glossary == old(glossary)
      {
        var number := matches[i].0;
        var entry := Rule(number, matches[i].1, Section(number));
        assert entry == entries[i];
        UpsertStep(rulesDict, entries, i, RuleKey);
        rules := rules + [entry];
        rulesDict := rulesDict[number := entry];
        PrefixExtend(entries, i, entry);
        i := i + 1;
      }
      assert entries[..i] == entries;
      assert entries[i..] == [];
      UpsertRulesIndexed(r0, d0, entries);
    }

    /** `_extract_glossary` over the matched `(term, definition)` pairs. */
    method ExtractGlossary(matches: seq<(string, string)>)
      requires Valid()
      modifies this
      ensures Valid()
      ensures glossary == Upsert(old(glossary), GlossaryEntries(matches), TermKey)
      ensures rules == old(rules) && rulesDict == old(rulesDict)
    {
      ghost var entries := GlossaryEntries(matches);
      ghost var g0 := glossary;
      var i := 0;
      while i < |matches|
        invariant 0 <= i <= |matches|
        invariant Upsert(glossary, entries[i..], TermKey) == Upsert(g0, entries, TermKey)
        invariant rules == old(rules) && rulesDict == old(rulesDict)
      {
        var term := matches[i].0;
        var entry := GlossaryEntry(term, matches[i].1);
        assert entry == entries[i];
        UpsertStep(glossary, entries, i, TermKey);
        glossary := glossary[Lower(term) := entry];
        i := i + 1;
      }
      assert entries[i..] == [];
      UpsertGlossaryKeyed(g0, entries);
    }

    /**
      `search_rules`: the rules whose lower-cased text contains the lower-cased
      query, in corpus order, cut to `limit` -- but the limit is only tested
      after an append, so at least the first match comes back even when
      `limit <= 0`.
     */
    method SearchRules(query: string, limit: int) returns (results: seq<Rule>)
      ensures var hits := Filter(rules, TextMatches(query));
              results == hits[..Min(|hits|, Max(limit, 1))]
    {
      var queryLower := Lower(query);
      results := [];
      var i := 0;
      while i < |rules|
        invariant 0 <= i <= |rules|
        invariant results == Filter(rules[..i], TextMatches(query))
        invariant |results| < Max(limit, 1) || results == []
      {
        FilterStep(rules, i, TextMatches(query));
        if Contains(Lower(rules[i].text), queryLower) {
          results := results + [rules[i]];
          if |results| >= limit {
            PrefixOfFilter(rules, i + 1, TextMatches(query));
            return;
          }
        }
        i := i + 1;
      }
      assert rules[..i] == rules;
    }

    /** `get_rule`: the indexed rule with this number, if any. */
    function GetRule(ruleNumber: string): (r: Option<Rule>)
      requires Valid()
      reads this
      ensures r.Some? ==> r.value.number == ruleNumber && r.value in rules
      ensures r.None? ==> forall x :: x in rules ==> x.number != ruleNumber
    {
      if ruleNumber in rulesDict then Some(rulesDict[ruleNumber]) else None
    }

    /** `search_glossary`: the entry whose lower-cased term equals the lower-cased argument. */
    function SearchGlossary(term: string): (r: Option<GlossaryEntry>)
      requires Valid()
      reads this
      ensures r.Some? ==> Lower(r.value.term) == Lower(term) && r.value in glossary.Values
      ensures r.None? ==> forall e :: e in glossary.Values ==> Lower(e.term) != Lower(term)
    {
      if Lower(term) in glossary then Some(glossary[Lower(term)]) else None
    }

    /** `get_stack_rules`: the rules numbered 405… or mentioning the stack, in corpus order. */
    method GetStackRules() returns (stackRules: seq<Rule>)
      ensures stackRules == Filter(rules, IsStackRule)
    {
      stackRules := [];
      var i := 0;
      while i < |rules|
        invariant 0 <= i <= |rules|
        invariant stackRules == Filter(rules[..i], IsStackRule)
      {
        FilterStep(rules, i, IsStackRule);
        if StartsWith(rules[i].number, "405") || Contains(Lower(rules[i].text), "stack") {
          stackRules := stackRules + [rules[i]];
        }
        i := i + 1;
      }
      assert rules[..i] == rules;
    }
  }

  /**
    After extraction, `get_rule` on a number returns the LAST extracted rule
    with that number; a number that was neither indexed before nor extracted
    gives None.
   */
  lemma GetRuleAfterExtract(p: Parser, before: map<string, Rule>, matches: seq<(string, string)>, n: string)
    requires forall i :: 0 <= i < |matches| ==> |matches[i].0| > 0
    requires p.Valid() && p.rulesDict == Upsert(before, RuleEntries(matches), RuleKey)
    ensures forall i :: LastWithKey(RuleEntries(matches), RuleKey, n, i) ==>
              p.GetRule(n) == Some(Rule(n, matches[i].1, Section(n)))
    ensures n !in before && (forall i :: 0 <= i < |matches| ==> matches[i].0 != n) ==> p.GetRule(n) == None
  {
    var es := RuleEntries(matches);
    UpsertLookup(before, es, RuleKey, n);
    if n !in before && (forall i :: 0 <= i < |matches| ==> matches[i].0 != n) {
      assert forall i :: 0 <= i < |es| ==> RuleKey(es[i]) != n;
    }
  }

  /**
    Glossary round trip: after extraction, `search_glossary` with ANY casing of
    an extracted term returns the last extracted entry whose term lower-cases
    the same way.
   */
  lemma SearchGlossaryAfterExtract(p: Parser, before: map<string, GlossaryEntry>,
                                   matches: seq<(string, string)>, i: int, query: string)
    requires p.Valid() && p.glossary == Upsert(before, GlossaryEntries(matches), TermKey)
    requires 0 <= i < |matches| && Lower(query) == Lower(matches[i].0)
    requires forall j :: i < j < |matches| ==> Lower(matches[j].0) != Lower(query)
    ensures p.SearchGlossary(query) == Some(GlossaryEntry(matches[i].0, matches[i].1))
  {
    var es := GlossaryEntries(matches);
    UpsertLookup(before, es, TermKey, Lower(query));
    assert LastWithKey(es, TermKey, Lower(query), i);
  }
}
