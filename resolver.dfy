/**
  The stack resolver: building the push-ordered stack from fetched cards and
  optional player actions, walking it in last-in-first-out order while a set
  of countered names grows, describing each step, and the context handed to
  the rules engine. The card lookup and the rules engine's answer are not
  part of this module.
 */
module Resolver {
  import opened Text
  import opened Seqs
  import opened Scryfall

  /** One player action: the card it plays, who plays it, and what it targets. */
  datatype Action = Action(card: Option<string>, player: Option<string>, targets: Option<seq<string>>)

  /** One stack item, in push order (`position` 0 is the bottom of the stack). */
  datatype StackItem = StackItem(card: Card, controller: string, targets: seq<string>, position: int)

  // ----- _build_stack -----

  /** The first fetched card whose name is `name`, as `next(... , None)` finds it. */
  function FindByName(cards: seq<Card>, name: Option<string>): (r: Option<Card>)
    ensures r.None? <==> forall i :: 0 <= i < |cards| ==> name != Some(cards[i].name)
    ensures r.Some? ==> exists i :: 0 <= i < |cards| && cards[i] == r.value && name == Some(cards[i].name)
                                    && forall j :: 0 <= j < i ==> name != Some(cards[j].name)
  {
    if cards == [] then None
    else if name == Some(cards[0].name) then
      assert cards[0] == cards[0];
      Some(cards[0])
    else
      var r := FindByName(cards[1..], name);
      if r.Some? then
        var i :| 0 <= i < |cards[1..]| && cards[1..][i] == r.value && name == Some(cards[1..][i].name)
                 && forall j :: 0 <= j < i ==> name != Some(cards[1..][j].name);
        assert cards[i + 1] == r.value;
        r
      else r
  }

  /** The action names a fetched card. */
  function Matched(cards: seq<Card>): Action -> bool {
    (a: Action) => FindByName(cards, a.card).Some?
  }

  /** The stack built from an action list: one item per matched action, pushed in order. */
  function ActionStack(cards: seq<Card>, actions: seq<Action>): seq<StackItem> {
    if actions == [] then []
    else
      var prev := ActionStack(cards, actions[..|actions| - 1]);
      var a := actions[|actions| - 1];
      match FindByName(cards, a.card)
      case None => prev
      case Some(c) => prev + [StackItem(c, a.player.GetOr("Player"), a.targets.GetOr([]), |prev|)]
  }

  /** The controller label of the fallback branch: "Player 1" at even indices, "Player 2" at odd. */
  function PlayerLabel(idx: int): string {
    if idx % 2 == 0 then "Player 1" else "Player 2"
  }

  /** The card was fetched (`card.get("found", False)`). */
  function IsFound(c: Card): bool {
    c.found
  }

  /** The stack built from the card list alone: every found card, at its index in the list. */
  function FallbackStack(cards: seq<Card>): seq<StackItem> {
    if cards == [] then []
    else
      var prev := FallbackStack(cards[..|cards| - 1]);
      var i := |cards| - 1;
      if cards[i].found then prev + [StackItem(cards[i], PlayerLabel(i), [], i)] else prev
  }

  /** What `_build_stack` returns: an absent or empty action list takes the fallback branch. */
  function StackFor(cards: seq<Card>, actions: Option<seq<Action>>): seq<StackItem> {
    if actions.Some? && actions.value != [] then ActionStack(cards, actions.value) else FallbackStack(cards)
  }

  /** `_build_stack`. */
  method BuildStack(cards: seq<Card>, actions: Option<seq<Action>>) returns (stack: seq<StackItem>)
    ensures stack == StackFor(cards, actions)
  {
    stack := [];
    if actions.Some? && actions.value != [] {
      var acts := actions.value;
      var i := 0;
      while i < |acts|
        invariant 0 <= i <= |acts|
        invariant stack == ActionStack(cards, acts[..i])
      {
        assert acts[..i + 1][..i] == acts[..i];
        var action := acts[i];
        var cardData := FindByName(cards, action.card);
        if cardData.Some? {
          stack := stack + [StackItem(cardData.value, action.player.GetOr("Player"), action.targets.GetOr([]), |stack|)];
        }
        i := i + 1;
      }
      assert acts[..i] == acts;
    } else {
      var idx := 0;
      while idx < |cards|
        invariant 0 <= idx <= |cards|
        invariant stack == FallbackStack(cards[..idx])
      {
        assert cards[..idx + 1][..idx] == cards[..idx];
        var card := cards[idx];
        if card.found {
          stack := stack + [StackItem(card, PlayerLabel(idx), [], idx)];
        }
        idx := idx + 1;
      }
      assert cards[..idx] == cards;
    }
  }

  /**
    With actions, item `k` comes from the `k`-th matched action: it holds the
    first card of that name, the action's player (default "Player") and
    targets (default none), and position `k`. Unmatched actions add nothing.
   */
  lemma {:induction false} ActionStackShape(cards: seq<Card>, actions: seq<Action>)
    ensures var s := ActionStack(cards, actions);
      var matched := Filter(actions, Matched(cards));
      && |s| == |matched|
      && forall k :: 0 <= k < |s| ==>
           && FindByName(cards, matched[k].card) == Some(s[k].card)
           && s[k].controller == matched[k].player.GetOr("Player")
           && s[k].targets == matched[k].targets.GetOr([])
           && s[k].position == k
  {
    if actions != [] {
      var init := actions[..|actions| - 1];
      var a := actions[|actions| - 1];
      ActionStackShape(cards, init);
      var prev := ActionStack(cards, init);
      var s := ActionStack(cards, actions);
      var matched := Filter(actions, Matched(cards));
      var m0 := Filter(init, Matched(cards));
      assert matched == m0 + (if Matched(cards)(a) then [a] else []);
      forall k | 0 <= k < |s|
        ensures && FindByName(cards, matched[k].card) == Some(s[k].card)
                && s[k].controller == matched[k].player.GetOr("Player")
                && s[k].targets == matched[k].targets.GetOr([])
                && s[k].position == k
      {
        if k < |prev| {
          assert s[k] == prev[k];
          assert matched[k] == m0[k];
        }
      }
    }
  }

  /** The fallback item `item` is the found card at its position in `cards`. */
  predicate FromList(cards: seq<Card>, item: StackItem) {
    && 0 <= item.position < |cards|
    && item.card == cards[item.position] && item.card.found
    && item.controller == PlayerLabel(item.position)
    && item.targets == []
  }

  /**
    Without actions, every item is a found card at its index in the list,
    with the alternating controller and no targets.
   */
  lemma {:induction false} FallbackItems(cards: seq<Card>)
    ensures forall k :: 0 <= k < |FallbackStack(cards)| ==> FromList(cards, FallbackStack(cards)[k])
  {
    if cards != [] {
      var init := cards[..|cards| - 1];
      FallbackItems(init);
      var prev := FallbackStack(init);
      var s := FallbackStack(cards);
      forall k | 0 <= k < |s| ensures FromList(cards, s[k]) {
        if k < |prev| {
          assert s[k] == prev[k];
          assert FromList(init, prev[k]);
          assert init[prev[k].position] == cards[prev[k].position];
        }
      }
    }
  }

  /** Without actions, positions strictly increase from the bottom of the stack up. */
  lemma {:induction false} FallbackIncreasing(cards: seq<Card>)
    ensures forall k, l :: 0 <= k < l < |FallbackStack(cards)| ==>
              FallbackStack(cards)[k].position < FallbackStack(cards)[l].position
  {
    if cards != [] {
      var init := cards[..|cards| - 1];
      FallbackIncreasing(init);
      FallbackItems(init);
      var prev := FallbackStack(init);
      var s := FallbackStack(cards);
      forall k, l | 0 <= k < l < |s| ensures s[k].position < s[l].position {
        assert s[k] == prev[k] && FromList(init, prev[k]);
        if l < |prev| {
          assert s[l] == prev[l];
        }
      }
    }
  }

  /** Without actions, every found card is on the stack, and nothing else. */
  lemma {:induction false} FallbackComplete(cards: seq<Card>)
    ensures |FallbackStack(cards)| == |Filter(cards, IsFound)|
    ensures forall i :: 0 <= i < |cards| && cards[i].found ==>
              exists k :: 0 <= k < |FallbackStack(cards)| && FallbackStack(cards)[k].position == i
  {
    if cards != [] {
      var init := cards[..|cards| - 1];
      FallbackComplete(init);
      var prev := FallbackStack(init);
      var s := FallbackStack(cards);
      var n := |cards| - 1;
      forall i | 0 <= i < |cards| && cards[i].found ensures exists k :: 0 <= k < |s| && s[k].position == i {
        if i < n {
          assert init[i] == cards[i];
          var k :| 0 <= k < |prev| && prev[k].position == i;
          assert s[k] == prev[k];
        } else {
          assert s[|s| - 1].position == i;
        }
      }
    }
  }

  /** Positions may skip: a card that was not found leaves a gap. */
  lemma FallbackPositionsHaveGaps(missing: Card, found: Card)
    requires !missing.found && found.found
    ensures FallbackStack([missing, found]) == [StackItem(found, "Player 2", [], 1)]
  {
    assert [missing, found][..1] == [missing];
    assert [missing][..0] == [];
    assert FallbackStack([missing]) == [];
    assert PlayerLabel(1) == "Player 2";
  }

  // ----- _generate_resolution_steps -----

  /** The item's lower-cased oracle text contains "counter target". */
  predicate Counters(item: StackItem) {
    Contains(Lower(item.card.oracleText.GetOr("")), "counter target")
  }

  /** `set(xs)`. */
  function Elements(xs: seq<string>): set<string> {
    set x | x in xs
  }

  /** The countered names once the first `n` items of the resolution order have been seen. */
  function CounteredAfter(order: seq<StackItem>, n: nat): set<string>
    requires n <= |order|
  {
    if n == 0 then {}
    else CounteredAfter(order, n - 1) + (if Counters(order[n - 1]) then Elements(order[n - 1].targets) else {})
  }

  /** The `i`-th item to resolve is countered: its name is in the set after its own check. */
  predicate IsCountered(order: seq<StackItem>, i: int)
    requires 0 <= i < |order|
  {
    order[i].card.name in CounteredAfter(order, i + 1)
  }

  /** A name is countered after `n` items exactly when one of them counters and targets it. */
  lemma {:induction false} CounteredAfterIff(order: seq<StackItem>, n: nat)
    requires n <= |order|
    ensures forall x :: x in CounteredAfter(order, n) <==>
                        exists j :: 0 <= j < n && Counters(order[j]) && x in order[j].targets
  {
    if n > 0 {
      CounteredAfterIff(order, n - 1);
    }
  }

  /** The countered set only grows. */
  lemma {:induction false} CounteredMonotone(order: seq<StackItem>, m: nat, n: nat)
    requires m <= n <= |order|
    ensures CounteredAfter(order, m) <= CounteredAfter(order, n)
    decreases n - m
  {
    if m < n {
      CounteredMonotone(order, m, n - 1);
    }
  }

  /**
    The `i`-th item to resolve is countered exactly when an item resolving
    no later than it (itself included) counters and targets its name.
   */
  lemma CounteredIff(order: seq<StackItem>, i: int)
    requires 0 <= i < |order|
    ensures IsCountered(order, i) <==>
            exists j :: 0 <= j <= i && Counters(order[j]) && order[i].card.name in order[j].targets
  {
    CounteredAfterIff(order, i + 1);
  }

  /** The state after the last resolved item. */
  const EmptyStackText := "Stack is empty. " + "Priority returns to active player."
  /** The state after a countered item. */
  const CounteredStateText := "This spell was countered " + "and removed from the stack"

  /** The card names of the items, in order. */
  function Names(items: seq<StackItem>): seq<string> {
    seq(|items|, i requires 0 <= i < |items| => items[i].card.name)
  }

  /** `_describe_state_after_step`: the stack after `step` items of `order` have resolved. */
  function StateAfter(order: seq<StackItem>, step: nat): string {
    if step >= |order| then EmptyStackText
    else "Stack contains: " + Join(Names(order[step..]), ", ") + " (top to bottom)"
  }

  /**
    The state is the empty-stack sentence exactly when nothing remains, and
    it is never the countered text.
   */
  lemma StateAfterEmpty(order: seq<StackItem>, step: nat)
    ensures StateAfter(order, step) == EmptyStackText <==> step >= |order|
    ensures StateAfter(order, step) != CounteredStateText
  {
    var r := StateAfter(order, step);
    assert EmptyStackText[6] == 'i' && CounteredStateText[0] == 'T';
    if step < |order| {
      assert r[6] == 'c' && r[0] == 'S';
    }
  }

  /**
    After `step` resolved items, the state lists exactly the items still on
    the stack, newest first: the first `|stack| - step` pushes, reversed.
   */
  lemma StateAfterListsRemaining(stack: seq<StackItem>, step: nat)
    requires step < |stack|
    ensures StateAfter(Reverse(stack), step)
            == "Stack contains: " + Join(Reverse(Names(stack[..|stack| - step])), ", ") + " (top to bottom)"
  {
    ReverseSuffix(stack, step);
    NamesReverse(stack[..|stack| - step]);
  }

  lemma NamesReverse(items: seq<StackItem>)
    ensures Names(Reverse(items)) == Reverse(Names(items))
  {
    var a := Names(Reverse(items));
    var b := Reverse(Names(items));
    assert |a| == |b|;
    forall i | 0 <= i < |a| ensures a[i] == b[i] {
      assert Reverse(items)[i] == items[|items| - 1 - i];
    }
  }

  /** The opening sentence of every resolved step's description. */
  function Header(item: StackItem): string {
    item.controller + " resolves " + item.card.name + ". "
  }

  /** The effect part of a description: the first sentence of a non-empty oracle text. */
  function EffectPart(item: StackItem): string {
    var oracle := item.card.oracleText.GetOr("");
    if oracle != "" then "Effect: " + FirstSentence(oracle) + "." else ""
  }

  /** The targeting part of a description: the targets, when there are any. */
  function TargetingPart(item: StackItem): string {
    if item.targets != [] then " Targeting: " + Join(item.targets, ", ") + "." else ""
  }

  /** The closing part of a description: the empty-stack sentence of the last step. */
  function ClosingPart(isLast: bool): string {
    if isLast then " The stack is now empty." else ""
  }

  /** `_generate_step_description`. */
  function StepDescription(item: StackItem, isLast: bool): string {
    Header(item) + (EffectPart(item) + (TargetingPart(item) + ClosingPart(isLast)))
  }

  /** A description opens with "<controller> resolves <name>. ". */
  lemma DescriptionOpening(item: StackItem, isLast: bool)
    ensures StartsWith(StepDescription(item, isLast), Header(item))
  {
    var h := Header(item);
    var r := StepDescription(item, isLast);
    assert r[..|h|] == h;
  }

  /**
    Right after the opening comes the effect's first sentence when the oracle
    text is non-empty, and no effect at all when it is empty.
   */
  lemma DescriptionEffect(item: StackItem, isLast: bool)
    ensures var r := StepDescription(item, isLast);
      var h := Header(item);
      var oracle := item.card.oracleText.GetOr("");
      && |h| <= |r|
      && (oracle != "" ==> StartsWith(r[|h|..], "Effect: " + FirstSentence(oracle) + "."))
      && (oracle == "" ==> !StartsWith(r[|h|..], "Effect: "))
  {
    var t := TargetingPart(item);
    var c := ClosingPart(isLast);
    AfterOpening(Header(item), EffectPart(item), t + c);
    SpacedNotEffect(t, c);
  }

  /** The text after an opening `h` is what follows it, and it starts with its own first piece. */
  lemma AfterOpening(h: string, e: string, rest: string)
    ensures |h| <= |h + (e + rest)|
    ensures (h + (e + rest))[|h|..] == e + rest
    ensures StartsWith(e + rest, e)
    ensures e == "" ==> e + rest == rest
  {
    assert (e + rest)[..|e|] == e;
  }

  /** Pieces that are empty or open with a space never start with "Effect: ". */
  lemma SpacedNotEffect(a: string, b: string)
    requires a == "" || a[0] == ' '
    requires b == "" || b[0] == ' '
    ensures !StartsWith(a + b, "Effect: ")
  {
    if a + b != "" {
      assert (a + b)[0] == ' ';
    }
  }

  /**
    A description names the targets whenever there are any; without targets
    it has no targeting part at all.
   */
  lemma DescriptionTargets(item: StackItem, isLast: bool)
    ensures item.targets != [] ==>
              Contains(StepDescription(item, isLast), " Targeting: " + Join(item.targets, ", ") + ".")
    ensures item.targets == [] ==>
              StepDescription(item, isLast) == Header(item) + (EffectPart(item) + ClosingPart(isLast))
  {
    ContainsPiece(Header(item), EffectPart(item), TargetingPart(item), ClosingPart(isLast));
    DescriptionPieces(Header(item), EffectPart(item), TargetingPart(item), ClosingPart(isLast));
  }

  /**
    The last step's description closes with the empty-stack sentence, and any
    other step's has no closing part at all; with no effect, no targets and
    not last, the description is the opening alone.
   */
  lemma DescriptionClosing(item: StackItem, isLast: bool)
    ensures isLast ==> EndsWith(StepDescription(item, isLast), " The stack is now empty.")
    ensures !isLast ==> StepDescription(item, isLast) == Header(item) + (EffectPart(item) + TargetingPart(item))
    ensures item.card.oracleText.GetOr("") == "" && item.targets == [] && !isLast ==>
              StepDescription(item, isLast) == Header(item)
  {
    DescriptionPieces(Header(item), EffectPart(item), TargetingPart(item), ClosingPart(isLast));
  }

  /**
    A text built from four pieces ends with the last one, loses nothing but
    an empty piece, and is the first piece when the others are empty.
   */
  lemma DescriptionPieces(h: string, e: string, t: string, c: string)
    ensures EndsWith(h + (e + (t + c)), c)
    ensures t == "" ==> h + (e + (t + c)) == h + (e + c)
    ensures c == "" ==> h + (e + (t + c)) == h + (e + t)
    ensures e == "" && t == "" && c == "" ==> h + (e + (t + c)) == h
  {
    var r := h + (e + (t + c));
    assert r == (h + e + t) + c;
    assert r[|r| - |c|..] == c;
    if t == "" {
      assert t + c == c;
    }
    if c == "" {
      assert t + c == t;
    }
  }

  /** One resolution step. */
  datatype Step = Step(stepNumber: int, action: string, card: Card, description: string, stateAfter: string)

  /** The description of a countered step. */
  function CounteredDescription(name: string): string {
    name + " is countered and does not resolve. "
    + "It goes to the graveyard without its effect taking place."
  }

  /** The step for the `i`-th item (0-based) of the resolution order. */
  function StepAt(order: seq<StackItem>, i: int): Step
    requires 0 <= i < |order|
  {
    if IsCountered(order, i) then CounteredStep(order, i) else ResolvedStep(order, i)
  }

  /** The step written for a countered item. */
  function CounteredStep(order: seq<StackItem>, i: int): Step
    requires 0 <= i < |order|
  {
    var card := order[i].card;
    Step(i + 1, card.name + " is countered", card, CounteredDescription(card.name), CounteredStateText)
  }

  /** The step written for an item that resolves. */
  function ResolvedStep(order: seq<StackItem>, i: int): Step
    requires 0 <= i < |order|
  {
    var card := order[i].card;
    Step(i + 1, "Resolve " + card.name, card, StepDescription(order[i], i + 1 == |order|), StateAfter(order, i + 1))
  }

  /** Either way, a step names the card it was written for. */
  lemma StepAtCard(order: seq<StackItem>, i: int)
    requires 0 <= i < |order|
    ensures StepAt(order, i).card == order[i].card
  {
    if IsCountered(order, i) {
      assert StepAt(order, i) == CounteredStep(order, i);
    }
  }

  /** What `_generate_resolution_steps` returns: one step per item, from the top of the stack down. */
  function ResolutionSteps(stack: seq<StackItem>): (r: seq<Step>)
    ensures |r| == |stack|
    ensures forall i :: 0 <= i < |r| ==> r[i].card == stack[|stack| - 1 - i].card
  {
    var order := Reverse(stack);
    StepCards(order);
    seq(|order|, i requires 0 <= i < |order| => StepAt(order, i))
  }

  /** Every step carries the card of its item. */
  lemma StepCards(order: seq<StackItem>)
    ensures forall i :: 0 <= i < |order| ==> StepAt(order, i).card == order[i].card
  {
    forall i | 0 <= i < |order| ensures StepAt(order, i).card == order[i].card {
      StepAtCard(order, i);
    }
  }

  /** `_generate_resolution_steps`. */
  method GenerateResolutionSteps(stack: seq<StackItem>) returns (steps: seq<Step>)
    ensures steps == ResolutionSteps(stack)
  {
    var order := Reverse(stack);
    var countered: set<string> := {};
    steps := [];
    var i := 0;
    while i < |order|
      invariant 0 <= i <= |order|
      invariant countered == CounteredAfter(order, i)
      invariant steps == ResolutionSteps(stack)[..i]
    {
      var item := order[i];
      var card := item.card;
      if Counters(item) {
        countered := countered + Elements(item.targets);
        assert countered == CounteredAfter(order, i + 1);
      } else {
        assert countered == CounteredAfter(order, i + 1);
      }
      var step;
      if card.name in countered {
        step := CounteredStep(order, i);
      } else {
        step := ResolvedStep(order, i);
      }
      StepOrder(stack, i);
      PrefixExtend(ResolutionSteps(stack), i, step);
      steps := steps + [step];
      i := i + 1;
    }
    assert steps == ResolutionSteps(stack);
  }

  /**
    There is one step per stack item; step `i` (0-based) is the step of the
    `i`-th item to resolve, which is the item pushed `i`-th from the top, and
    it has number `i + 1`.
   */
  lemma StepOrder(stack: seq<StackItem>, i: int)
    requires 0 <= i < |stack|
    ensures |ResolutionSteps(stack)| == |stack|
    ensures ResolutionSteps(stack)[i] == StepAt(Reverse(stack), i)
    ensures Reverse(stack)[i] == stack[|stack| - 1 - i]
    ensures ResolutionSteps(stack)[i].stepNumber == i + 1
    ensures ResolutionSteps(stack)[i].card == stack[|stack| - 1 - i].card
  {
    var s := StepAt(Reverse(stack), i);
    assert ResolutionSteps(stack)[i] == s;
  }

  /**
    A countered step says so, and carries the fixed countered text instead of
    the remaining stack.
   */
  lemma CounteredStepShape(order: seq<StackItem>, i: int)
    requires 0 <= i < |order|
    requires IsCountered(order, i)
    ensures StepAt(order, i).action == order[i].card.name + " is countered"
    ensures StepAt(order, i).description == CounteredDescription(order[i].card.name)
    ensures StepAt(order, i).stateAfter == CounteredStateText
  {
  }

  /**
    A resolved step describes its item and the stack left after it, which is
    empty exactly at the last step; it never carries the countered text.
   */
  lemma ResolvedStepShape(order: seq<StackItem>, i: int)
    requires 0 <= i < |order|
    requires !IsCountered(order, i)
    ensures StepAt(order, i).action == "Resolve " + order[i].card.name
    ensures StepAt(order, i).description == StepDescription(order[i], i == |order| - 1)
    ensures StepAt(order, i).stateAfter != CounteredStateText
    ensures StepAt(order, i).stateAfter == EmptyStackText <==> i == |order| - 1
  {
    StateAfterEmpty(order, i + 1);
  }

  /** A counter whose targets name itself is marked countered: detection runs before its own check. */
  lemma SelfCounter(order: seq<StackItem>, i: int)
    requires 0 <= i < |order|
    requires Counters(order[i]) && order[i].card.name in order[i].targets
    ensures IsCountered(order, i)
  {
  }

  /**
    A counter on top of its target: the counter resolves and the target is
    countered.
   */
  lemma CounterOnTop(target: StackItem, counter: StackItem)
    requires Counters(counter) && target.card.name in counter.targets
    requires counter.card.name !in counter.targets
    ensures var order := Reverse([target, counter]);
      && !IsCountered(order, 0) && IsCountered(order, 1)
      && StepAt(order, 0).action == "Resolve " + counter.card.name
      && StepAt(order, 1).action == target.card.name + " is countered"
  {
    var order := Reverse([target, counter]);
    assert order[0] == counter && order[1] == target;
    assert CounteredAfter(order, 1) == Elements(counter.targets);
    assert CounteredAfter(order, 2) >= CounteredAfter(order, 1);
    assert !IsCountered(order, 0) && IsCountered(order, 1);
  }

  /** A counter pushed below its target resolves after it, too late to mark it. */
  lemma CounterBelowTarget(counter: StackItem, target: StackItem)
    requires Counters(counter) && target.card.name in counter.targets
    requires !Counters(target)
    ensures !IsCountered(Reverse([counter, target]), 0)
  {
    var order := Reverse([counter, target]);
    assert order[0] == target;
    assert CounteredAfter(order, 1) == CounteredAfter(order, 0) == {};
  }

  /**
    A countered counter still adds its targets: in a chain where the top
    counter targets the middle one and the middle one targets the bottom
    spell, both lower items are marked countered.
   */
  lemma CounteredCounterStillCounters(spell: StackItem, middle: StackItem, top: StackItem)
    requires Counters(top) && top.targets == [middle.card.name]
    requires Counters(middle) && middle.targets == [spell.card.name]
    requires top.card.name != middle.card.name && top.card.name != spell.card.name
    ensures var order := Reverse([spell, middle, top]);
      !IsCountered(order, 0) && IsCountered(order, 1) && IsCountered(order, 2)
  {
    var order := Reverse([spell, middle, top]);
    assert order[0] == top && order[1] == middle && order[2] == spell;
    assert CounteredAfter(order, 1) == {middle.card.name};
  }

  // ----- the context of _generate_explanation -----

  /** `{"name", "type", "text"}` of one found card. */
  datatype CardSummary = CardSummary(name: string, typeLine: Option<string>, text: Option<string>)

  /** The context dict handed to the rules engine. */
  datatype Context = Context(cards: seq<CardSummary>, stackOrder: seq<string>, resolutionOrder: seq<string>)

  function Summarize(c: Card): CardSummary {
    CardSummary(c.name, c.typeLine, c.oracleText)
  }

  /** The card names of the steps, in order. */
  function StepNames(steps: seq<Step>): seq<string> {
    seq(|steps|, i requires 0 <= i < |steps| => steps[i].card.name)
  }

  /** The context built in `_generate_explanation`. */
  function BuildContext(cards: seq<Card>, stack: seq<StackItem>, steps: seq<Step>): Context {
    var found := Filter(cards, IsFound);
    Context(seq(|found|, k requires 0 <= k < |found| => Summarize(found[k])), Names(stack), StepNames(steps))
  }

  /** Steps carrying the stack's cards from the top down name the stack's cards in reverse. */
  lemma StepNamesReversed(steps: seq<Step>, stack: seq<StackItem>)
    requires |steps| == |stack|
    requires forall i :: 0 <= i < |steps| ==> steps[i].card == stack[|stack| - 1 - i].card
    ensures StepNames(steps) == Reverse(Names(stack))
  {
    var a := StepNames(steps);
    var b := Reverse(Names(stack));
    assert |a| == |b|;
    forall i | 0 <= i < |a| ensures a[i] == b[i] {
    }
  }

  /** The card names of the generated steps are the stack's names, top first. */
  lemma ResolutionNames(stack: seq<StackItem>)
    ensures StepNames(ResolutionSteps(stack)) == Reverse(Names(stack))
  {
    StepNamesReversed(ResolutionSteps(stack), stack);
  }

  /** For the steps the resolver generates, the context's resolution order is its stack order reversed. */
  lemma ContextResolutionOrder(cards: seq<Card>, stack: seq<StackItem>)
    ensures var ctx := BuildContext(cards, stack, ResolutionSteps(stack));
      ctx.resolutionOrder == Reverse(ctx.stackOrder)
  {
    ResolutionNames(stack);
  }

  /** The context's card list summarises exactly the found cards. */
  lemma ContextCards(cards: seq<Card>, stack: seq<StackItem>, steps: seq<Step>)
    ensures var ctx := BuildContext(cards, stack, steps);
      && (forall c :: c in cards && c.found ==> Summarize(c) in ctx.cards)
      && (forall s :: s in ctx.cards ==> exists c :: c in cards && c.found && s == Summarize(c))
  {
    var ctx := BuildContext(cards, stack, steps);
    var found := Filter(cards, IsFound);
    FilterMembership(cards, IsFound);
    forall c | c in cards && c.found ensures Summarize(c) in ctx.cards {
      assert c in found;
      var k :| 0 <= k < |found| && found[k] == c;
      assert ctx.cards[k] == Summarize(c);
    }
    forall s | s in ctx.cards ensures exists c :: c in cards && c.found && s == Summarize(c) {
      var k :| 0 <= k < |ctx.cards| && ctx.cards[k] == s;
      assert found[k] in found;
    }
  }
}
