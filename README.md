# Tolaria stack resolver — a Dafny model

Tolaria answers questions about Magic: The Gathering interactions. It fetches
the cards a question names from the Scryfall card database, pushes them onto
a stack in play order, and walks that stack last-in-first-out. While it walks,
it marks spells as countered when a "counter target" spell names them. It
writes one step per item and hands a summary to a keyword-ranked lookup over
the Comprehensive Rules. A separate visualizer draws the stack and the
resolution order.

This project models the decision logic of that core in Dafny and proves what
it promises:

- `text.dfy` (`Text`): Python's optional values and `dict.get` defaults. Also
  ASCII `str.lower`, `sub in s`, `str.split()`, `sep.join`, `str.find` /
  `str.rfind`, and the "first sentence" cut used for effects.
- `seqs.dfy` (`Seqs`): `reversed`, Python slices `s[:k]` (negative `k`
  included) and the order-keeping filter of a list comprehension.
- `parser.dfy` (`RulesParser`): the rule and glossary entries and the section
  of a rule number. The `Parser` class keeps the fields `rules`, `rulesDict` and
  `glossary`; its methods extract entries, search the rules, look up a rule or
  a glossary term, and list the stack rules.
- `engine_lite.py` logic in `engine_lite.dfy` (`EngineLite`): the relevance
  scores, the ranked search (stable sort by descending score, then `[:k]`),
  the stack-rule filter, and the pure helpers of `answer_question`: the brace
  span, the 200-character summary and the fallback rule references.
- `scryfall.dfy` (`Scryfall`): the card records and the type flags of a type
  line. It also models the formatting of a raw provider card (defaults, the
  image/face precedence, the optional statistics) and the bulk lookup. The bulk
  lookup keeps one entry per requested name.
- `resolver.dfy` (`Resolver`): building the stack from actions or from the
  card list, and the countered set. It also covers the step list with its
  descriptions and "state after" texts, and the context handed to the rules
  engine.
- `visualizer.dfy` (`Visualizer`): where each card of the stack picture sits
  and its state class, the play-order and resolution-order lists with their
  step classes and countered flags, and the image chosen for a card.

Imperative source code is modelled imperatively: the loops of
`search_relevant_rules`, `get_stack_resolution_rules`, `_format_card_data`,
`search_cards_bulk`, `_build_stack`, `_generate_resolution_steps` and
`generate_stack_html` become methods with loop invariants. Most are proved
equal to a specification function, and the properties are proved about those
functions. `FormatCardData` and `SearchCardsBulk` are proved against the
predicates `IsFormatOf` and `EntryFor`, which say field by field what a
formatted card or a bulk entry holds. The rules parser, whose methods update
its fields, is a class.

Functions that only compute a value carry no contract of their own. The
lemmas in the table state their properties:

- `Scryfall.GetCardTypes`: `CardTypesByKeyword`, `MissingTypeLineNoTypes`, `CardTypesIgnoreCase`.
- `EngineLite.RuleScore` and `EngineLite.GlossaryScore`: `RuleHitsExact`, `GlossaryHitsExact`, `EmptyQueryScores`, `ExactTermOutranksWordOverlap`.
- `EngineLite.SortByScore`: `SortSorted`, `SortPermutation`, `SortStable`, `HigherScoreFirst`.
- `Resolver.ActionStack` and `Resolver.FallbackStack`: `ActionStackShape`, `FallbackItems`, `FallbackIncreasing`, `FallbackComplete`, `FallbackPositionsHaveGaps`, and `BuildStack` for the choice between them.
- `Resolver.CounteredAfter`: `CounteredAfterIff`, `CounteredMonotone`, `CounteredIff`.
- `Resolver.StepDescription`: `DescriptionOpening`, `DescriptionEffect`, `DescriptionTargets`, `DescriptionClosing`.
- `Resolver.StateAfter`: `StateAfterEmpty`, `StateAfterListsRemaining`.
- `Resolver.BuildContext`: `ContextCards`, `ContextResolutionOrder`.
- `Visualizer.ImageUrl`: `TopLevelImagesWin`, `FormattedCardImage`, `NotFoundImage`.

## Model

| member | source | states |
|---|---|---|
| RulesParser.Section | rules/parser.py:128-151 | A rule number whose first character is 1–9 maps to that section's name; any other first character gives "Unknown", and "Unknown" is returned only then. |
| RulesParser.SectionInjective | rules/parser.py:139-149 | Two rule numbers starting with digits 1–9 get the same section exactly when they start with the same digit. |
| RulesParser.RuleEntries | rules/parser.py:77-88 | Each matched `(number, text)` pair becomes one rule with that number, that text and the section of the number, in match order. |
| RulesParser.UpsertLookup | rules/parser.py:91 | After assigning a batch of dictionary keys, a key is present iff it was before or some element has it. Its value is the last element with that key, or the old value when no element has it. |
| RulesParser.UpsertRulesIndexed | rules/parser.py:90-91 | Appending rules to the list and indexing each under its number keeps the index and the list in agreement. |
| RulesParser.UpsertGlossaryKeyed | rules/parser.py:123-126 | Storing entries under their lower-cased terms keeps every glossary key equal to its entry's lower-cased term. |
| RulesParser.Parser.constructor | rules/parser.py:23-25 | A new parser has an empty rule list, rule index and glossary. |
| RulesParser.Parser.ExtractRules | rules/parser.py:64-91 | The new rules are appended in match order and indexed by number, with later duplicates overwriting earlier ones; the glossary is unchanged and the index stays consistent with the list. |
| RulesParser.Parser.ExtractGlossary | rules/parser.py:93-126 | Each entry is stored under its lower-cased term, later duplicates overwriting earlier ones; the rules are unchanged. |
| RulesParser.Parser.SearchRules | rules/parser.py:153-174 | The result is the matching rules (lower-cased query inside lower-cased text), in corpus order, cut to `max(limit, 1)`. The limit is only tested after an append, so a limit of 0 or less still returns the first match. |
| RulesParser.Parser.GetRule | rules/parser.py:176-186 | A found rule has the requested number and is in the rule list; None means no listed rule has that number. |
| RulesParser.Parser.SearchGlossary | rules/parser.py:188-198 | A found entry's term lower-cases like the query; None means no entry's term does. |
| RulesParser.Parser.GetStackRules | rules/parser.py:200-214 | The result is exactly the rules numbered `405…` or mentioning "stack", in corpus order. |
| RulesParser.GetRuleAfterExtract | rules/parser.py:176-186 | After extraction, looking up a number gives the last extracted rule with that number. A number neither indexed before nor extracted gives None. |
| RulesParser.SearchGlossaryAfterExtract | rules/parser.py:188-198 | After extraction, a lookup with any casing of an extracted term returns the last extracted entry whose term lower-cases the same way. |
| EngineLite.ScoreRules | rules/engine_lite.py:71-99 | The rule loop yields, in rule order, a passage for every rule scoring above zero (100 for the phrase, 10 per shared word, 50 for a matching number when the query has a digit). |
| EngineLite.ScoreGlossary | rules/engine_lite.py:102-128 | The glossary loop yields, in iteration order, a passage for every item scoring above zero (150 for key/query containment, 80 for the phrase in the definition, 8 per word shared with the definition). |
| EngineLite.RuleHitsExact | rules/engine_lite.py:91-99 | The rule hits are exactly the passages of the rules that score above zero. |
| EngineLite.GlossaryHitsExact | rules/engine_lite.py:120-128 | The glossary hits are exactly the passages of the items that score above zero. |
| EngineLite.SearchRelevantRules | rules/engine_lite.py:53-133 | The result is the hits sorted by descending score and cut to `k`. Every result has a positive score, the result is sorted, and for `k >= 0` it has `min(k, #hits)` elements. |
| EngineLite.InsertSorted | rules/engine_lite.py:131 | Inserting a passage into a sorted list keeps it sorted. |
| EngineLite.InsertPermutation | rules/engine_lite.py:131 | Inserting a passage adds exactly that passage: the result is the input plus it, as a multiset. |
| EngineLite.InsertScoreClass | rules/engine_lite.py:131 | Inserting a passage leaves the order within every score class unchanged, and puts the new passage first among those of its own score. |
| EngineLite.SortSorted | rules/engine_lite.py:131 | The sort orders by non-increasing score. |
| EngineLite.SortPermutation | rules/engine_lite.py:131 | The sort is a permutation of its input. |
| EngineLite.SortStable | rules/engine_lite.py:131 | The sort is stable: the passages of each score keep their input order. |
| EngineLite.RankingStable | rules/engine_lite.py:130-133 | Among passages with equal scores, the rule hits come first in rule order, then the glossary hits in glossary order. |
| EngineLite.RankedProperties | rules/engine_lite.py:131-133 | Any list of positive-scored hits, once sorted and cut, stays positive and sorted and has the expected length. |
| EngineLite.HigherScoreFirst | rules/engine_lite.py:131 | In the ranking, a strictly higher score always comes strictly earlier. |
| EngineLite.EmptyQueryScores | rules/engine_lite.py:79-80 | The empty query occurs in every text, so every rule scores at least 100 and every glossary item at least 150. |
| EngineLite.ExactTermOutranksWordOverlap | rules/engine_lite.py:109-118 | A question equal to a glossary key scores that entry above every rule that only shares words with it, when the question has at most 14 distinct words. |
| EngineLite.GetStackResolutionRules | rules/engine_lite.py:241-255 | The result is the rules numbered `405…` or mentioning "stack", in corpus order, and a rule is in it iff it is one of them. |
| EngineLite.BraceSpan | rules/engine_lite.py:214-217 | A span found runs from the first `{` of the text to its last `}`, and starts with `{` and ends with `}`. |
| EngineLite.BraceSpanExists | rules/engine_lite.py:214-217 | A span is found exactly when some `}` follows some `{`. |
| EngineLite.Summary | rules/engine_lite.py:227 | Texts of at most 200 characters are kept whole; longer ones become their first 200 characters followed by "...". |
| EngineLite.RuleReferences | rules/engine_lite.py:222-225 | The references are the rule numbers of exactly the passages that carry one, in passage order and with repeats: one per such passage. |
| EngineLite.RuleReferencesExact | rules/engine_lite.py:222-225 | A rule number is referenced exactly when some rule passage carries it; glossary passages add nothing. |
| Seqs.Take | rules/engine_lite.py:133 | `s[:k]` keeps a prefix of `min(k, len)` elements, and for negative `k` drops the last `-k`. |
| Scryfall.CardTypesByKeyword | api/scryfall.py:177-198 | Each of the eight flags holds exactly when its keyword occurs in the lower-cased type line. |
| Scryfall.MissingTypeLineNoTypes | api/scryfall.py:187 | A card without a type line has no type flag set. |
| Scryfall.CardTypesIgnoreCase | api/scryfall.py:187 | The flags do not depend on the case of the type line. |
| Scryfall.FormatCardData | api/scryfall.py:80-145 | Formatting fails exactly when `power` is present without `toughness`, with the KeyError on `toughness`. Otherwise every field takes its default when absent. Top-level images win, and the faces appear only without them, each reduced to four image sizes. Power and toughness are copied together when `power` is present, loyalty when present, and the card is marked found. |
| Scryfall.Placeholder | api/scryfall.py:70-76 | The placeholder for a name whose lookup raised a ValueError carries that name and the error message, is not found, and has no text or images. |
| Scryfall.SearchCard | api/scryfall.py:23-53 | A lookup fails exactly when the provider fails or the formatting raises, with that error. It raises the ValueError the bulk lookup catches exactly for a not-found name (with "Card '<name>' not found") or a body that is not JSON (with the decoder's message). A fetched card comes back formatted. |
| Scryfall.SearchCardsBulk | api/scryfall.py:55-78 | When no lookup fails, there is one entry per requested name, in order: the formatted card, or a placeholder carrying the name and the ValueError message for a not-found name or a body that is not JSON. Otherwise the error of the first failing name propagates. |
| Resolver.FindByName | stack/resolver.py:90-93 | None exactly when no fetched card has the name; otherwise a card with that name. |
| Resolver.BuildStack | stack/resolver.py:70-118 | The loop builds exactly the action stack when the action list is present and non-empty, and the fallback stack otherwise. |
| Resolver.ActionStackShape | stack/resolver.py:87-103 | With actions, item `k` comes from the `k`-th matched action. It holds the first card of that name, the action's player (default "Player") and its targets (default none), at position `k`. Unmatched actions add nothing. |
| Resolver.FallbackItems | stack/resolver.py:104-116 | Without actions, every item is a found card at its index in the list, with the alternating "Player 1"/"Player 2" controller and no targets. |
| Resolver.FallbackIncreasing | stack/resolver.py:106-116 | Without actions, positions strictly increase from the bottom of the stack up. |
| Resolver.FallbackComplete | stack/resolver.py:106-116 | Without actions, every found card is on the stack and nothing else is. |
| Resolver.FallbackPositionsHaveGaps | stack/resolver.py:107-113 | A card that was not found still uses up its index: positions and player labels skip it. |
| Resolver.CounteredAfterIff | stack/resolver.py:144-152 | After `n` items, a name is in the countered set exactly when one of those items counters and targets it. |
| Resolver.CounteredMonotone | stack/resolver.py:150-152 | The countered set only grows. |
| Resolver.CounteredIff | stack/resolver.py:144-155 | The `i`-th item to resolve is countered exactly when an item resolving no later than it, itself included, counters and targets its name. |
| Resolver.SelfCounter | stack/resolver.py:149-155 | A counter that targets its own name is marked countered, because it grows the set before checking itself. |
| Resolver.CounterOnTop | stack/resolver.py:144-168 | A counter pushed on top of its target resolves, and the target's step says it is countered. |
| Resolver.CounterBelowTarget | stack/resolver.py:144-155 | A counter pushed below its target resolves after it, too late to mark it. |
| Resolver.CounteredCounterStillCounters | stack/resolver.py:149-155 | A counter that is itself countered still adds its targets to the set. |
| Resolver.StateAfterEmpty | stack/resolver.py:241-247 | The state is the empty-stack sentence exactly when nothing remains, and it is never the countered text. |
| Resolver.StateAfterListsRemaining | stack/resolver.py:241-247 | After `step` resolved items, the state lists exactly the items still on the stack, newest first. |
| Resolver.DescriptionOpening | stack/resolver.py:205 | A description opens with "<controller> resolves <name>. ". |
| Resolver.DescriptionEffect | stack/resolver.py:208-213 | Right after the opening comes "Effect: " and the oracle text's first sentence when the text is non-empty, and no effect when it is empty. |
| Resolver.DescriptionTargets | stack/resolver.py:216-218 | A description lists the targets whenever there are any; without targets it is the opening, the effect and the closing with nothing between them. |
| Resolver.DescriptionClosing | stack/resolver.py:221-222 | The last step's description ends with " The stack is now empty."; any other step's is the opening, the effect and the targets with no closing part. With no effect, no targets and not last it is the opening alone. |
| Resolver.ResolutionSteps | stack/resolver.py:139-183 | There is one step per stack item, and step `i` carries the card of the item `i`-th from the top. |
| Resolver.GenerateResolutionSteps | stack/resolver.py:120-183 | The loop that grows the countered set produces exactly the specified step list: one step per item, top of the stack first. |
| Resolver.StepOrder | stack/resolver.py:139-144 | There is one step per item; step `i` is numbered `i + 1` and is the step of the item pushed `i`-th from the top. |
| Resolver.StepAtCard | stack/resolver.py:161-169 | Countered or not, a step carries the card of its item. |
| Resolver.CounteredStepShape | stack/resolver.py:157-164 | A countered step says "<name> is countered", gives the graveyard description and carries the fixed countered text as its state. |
| Resolver.ResolvedStepShape | stack/resolver.py:165-179 | A resolved step says "Resolve <name>" and describes its item. Its state is the empty-stack sentence exactly at the last step, and never the countered text. |
| Resolver.StepNamesReversed | stack/resolver.py:277-284 | Steps that carry the stack's cards top first list the stack's names reversed. |
| Resolver.ResolutionNames | stack/resolver.py:277-284 | The card names of the generated steps are the stack's names, top first. |
| Resolver.ContextResolutionOrder | stack/resolver.py:270-287 | For the generated steps, the context's resolution order is its stack order reversed. |
| Resolver.ContextCards | stack/resolver.py:271-278 | The context's card list summarises exactly the found cards. |
| Visualizer.NormalOrLarge | stack/visualizer.py:372 | The choice is the `normal` image when it is present and non-empty, and the `large` entry otherwise (an empty `normal` falls through, as with Python's `or`). |
| Visualizer.TopLevelImagesWin | stack/visualizer.py:371-372 | A card with its own images never falls through to its faces, whatever they hold. |
| Visualizer.FormattedCardImage | stack/visualizer.py:371-381 | For a formatted card, the picture comes from the provider's own images, else from the first face when that face has images, else it is the placeholder URL. |
| Visualizer.NotFoundImage | stack/visualizer.py:380-381 | A placeholder card, whatever its error message, is drawn with the placeholder image. |
| Visualizer.StateClass | stack/visualizer.py:262-268 | Only "resolved" is ever assigned, to the top `current_step` cards; the "resolving" branch is unreachable, and at step zero no card has a class. |
| Visualizer.CardViewAt | stack/visualizer.py:253-274 | The card drawn at index `idx` is the one pushed at position `n - idx`, which is also its badge and z-index, with that item's name, controller and image. It sits `80 * idx` pixels down, its state class is the one for index `idx` at the current step, and only the last-pushed card carries the top label. |
| Visualizer.HigherCardsInFront | stack/visualizer.py:255-260 | A card higher in the stack is drawn higher and in front of any card below it. |
| Visualizer.TargetsText | stack/visualizer.py:300 | The targets note is empty exactly when the item has no targets. |
| Visualizer.Excerpt | stack/visualizer.py:304 | The excerpt is exactly the first `min(80, len)` characters of the oracle text (or of "" when there is none): a prefix of at most 80 characters, and the whole text when it is that short. |
| Visualizer.StepClass | stack/visualizer.py:324-329 | Lines before the current step are "done" and the current one is "current"; the rest, and every line at step zero, carry no class. |
| Visualizer.PictureAheadOfList | stack/visualizer.py:262-268 | A card is drawn resolved exactly when its resolution line is done or current, so the current step's card already shows as resolved. |
| Visualizer.ResolutionAgrees | stack/visualizer.py:312-332 | A resolution line is shown countered exactly when the resolver's step for the same item is a countered step, and both name the same card. |
| Visualizer.ViewAgreesWithSteps | stack/visualizer.py:312-332 | For the same stack, line `i` of the list is countered exactly when step `i` of the resolver's steps is a countered step. |
| Visualizer.StackPicture | stack/visualizer.py:253-274 | The picture loop yields one card per stack item, top first, each as specified for its index. |
| Visualizer.PlayOrder | stack/visualizer.py:298-304 | The play-order loop yields one line per item, bottom of the stack first. |
| Visualizer.ResolutionOrder | stack/visualizer.py:312-332 | The resolution loop grows its own countered set like the resolver's and yields one line per item, top first, each countered or resolved as specified. |
| Visualizer.GenerateStackView | stack/visualizer.py:253-332 | The view holds the picture, the play order and the resolution order of the stack, each as specified. |

Behaviour worth knowing, as the code has it:

- A countered step carries a fixed countered text as its state, not the
  remaining stack. So when the bottom item is countered, no step shows the
  empty-stack sentence (`CounteredStepShape`, `ResolvedStepShape`).
- The countered set only grows as the walk reaches each counter. A counter
  pushed below its target resolves after it and marks nothing in time
  (`CounterBelowTarget`).
- The state after a step lists the remaining items in resolution order,
  newest first, as its "(top to bottom)" label says
  (`StateAfterListsRemaining`).
- A countered counter still adds its targets to the set
  (`CounteredCounterStillCounters`), and a counter naming itself counters
  itself (`SelfCounter`).

## Left out

- HTTP, the rate-limit pause and `get_card_rulings` in `api/scryfall.py`: network I/O. The provider is a function from a requested name to a fetched card, a not-found answer, a body that is not valid JSON (with the decoder's message) or a failure.
- The exact and fuzzy URL choice of `search_card`: it only affects which URL is requested.
- `rules/engine.py` (vector store, embeddings, floating-point similarity) and the language-model call, prompt text and `json.loads` of `answer_question`. These are foreign libraries and a foreign service.
- PDF extraction and the regular expressions of `rules/parser.py`, with the whitespace clean-up and `strip`. Extraction consumes already-matched `(number, text)` and `(term, definition)` pairs.
- The HTML and CSS text of `stack/visualizer.py` and the `html.replace` of `generate_step_visualization`: only the values the markup is filled from are modelled.
- The web routes, global singletons, test scripts and `async`/`await` of the repository. Asynchronous methods are modelled as sequential.
- Text.Lower: lower-cases ASCII letters only; Python's `str.lower` also folds non-ASCII letters.
- Text.IsDigit: ASCII digits only; Python's `str.isdigit` accepts other Unicode digits.
- Scryfall.FormatCardData: `cmc` is an integer here, while the provider sends a number that may be fractional. A JSON `null` is not distinguished from an absent key.
- Resolver.FindByName: a fetched card always has a name string; a card dictionary without a `name` key is not modelled.
- Resolver.ActionStackShape: an action's `player` and `targets` are either present with a value or absent. A JSON `null` is not modelled: the code would make the controller `None` for `"player": null`, and `"targets": null` on a "counter target" card would raise a TypeError in `countered_spells.update`. The same holds for Resolver.ActionStack and Resolver.BuildStack.
- The per-step call to `get_card_types` in `_generate_resolution_steps` is not modelled: its result is passed to the description but never read.
- EngineLite.SearchRelevantRules: the glossary is given as its items in dictionary iteration order. The sort is modelled as a stable insertion sort with the same ordering as Python's stable `sort(reverse=True)`.
