/**
  The decisions behind the stack picture: where each card of the stack is
  drawn and which state class it gets, the play-order and resolution-order
  lists with their step classes and countered flags, and the image chosen for
  a card. The HTML and CSS text around these values is not modelled.
 */
module Visualizer {
  import opened Text
  import opened Seqs
  import opened Scryfall
  import opened Resolver

  /** Vertical distance in pixels between two overlapping cards. */
  const OverlapOffset := 80

  /** Length of the oracle-text excerpts shown in the lists. */
  const ExcerptLength := 80

  /** The image shown for a card that carries no image data. */
  const PlaceholderUrl := "https://via.placeholder.com" + "/250x350?text=Card+Image"

  /** One card of the stack picture (the values its markup is filled from). */
  datatype CardView = CardView(position: int, zIndex: int, topOffset: int, stateClass: string,
                               imageUrl: Option<string>, topLabel: bool, controller: string, name: string)

  /** One line of the play-order list. */
  datatype PlayEntry = PlayEntry(controller: string, name: string, targetsText: string, excerpt: string)

  /** One line of the resolution-order list. */
  datatype ResolutionEntry =
    | CounteredEntry(stepClass: string, name: string)
    | ResolvedEntry(stepClass: string, name: string, effect: string)

  /** Everything `generate_stack_html` computes before rendering. */
  datatype StackView = StackView(cards: seq<CardView>, plays: seq<PlayEntry>, resolution: seq<ResolutionEntry>)

  // ----- image choice -----

  /** Python truthiness of an optional string: present and non-empty. */
  predicate Truthy(o: Option<string>) {
    o.Some? && o.value != ""
  }

  /** `uris.get("normal") or uris.get("large")`. */
  function NormalOrLarge(uris: ImageUris): (r: Option<string>)
    ensures r == uris.normal || r == uris.large
    ensures Truthy(uris.normal) <==> r == uris.normal && Truthy(r)
    ensures !Truthy(uris.normal) ==> r == uris.large
  {
    if Truthy(uris.normal) then uris.normal else uris.large
  }

  /** `_get_card_image_url`: the card's own images, else its first face's, else the placeholder. */
  function ImageUrl(card: Card): Option<string> {
    if card.imageUris.Some? then NormalOrLarge(card.imageUris.value)
    else if card.cardFaces.Some? && |card.cardFaces.value| > 0 && card.cardFaces.value[0].imageUris.Some? then
      NormalOrLarge(card.cardFaces.value[0].imageUris.value)
    else Some(PlaceholderUrl)
  }

  /** A card with its own images never looks at its faces, whatever they hold. */
  lemma TopLevelImagesWin(card: Card, faces: Option<seq<Face>>)
    requires card.imageUris.Some?
    ensures ImageUrl(card.(cardFaces := faces)) == ImageUrl(card)
    ensures ImageUrl(card) == card.imageUris.value.normal || ImageUrl(card) == card.imageUris.value.large
    ensures ImageUrl(card) != Some(PlaceholderUrl) || card.imageUris.value.normal == Some(PlaceholderUrl)
                                                   || card.imageUris.value.large == Some(PlaceholderUrl)
  {
  }

  /**
    For a formatted card the picture comes from the provider's own images when
    it sent any, else from the first face when that face has images, and is the
    placeholder otherwise.
   */
  lemma FormattedCardImage(raw: RawCard, card: Card)
    requires IsFormatOf(raw, card)
    ensures raw.imageUris.Some? ==> ImageUrl(card) == NormalOrLarge(raw.imageUris.value)
    ensures raw.imageUris.None? && raw.cardFaces.Some? && |raw.cardFaces.value| > 0
            && raw.cardFaces.value[0].imageUris.Some? ==>
              ImageUrl(card) == NormalOrLarge(FaceImages(raw.cardFaces.value[0].imageUris.value))
    ensures raw.imageUris.None? && (raw.cardFaces.None? || |raw.cardFaces.value| == 0
                                    || raw.cardFaces.value[0].imageUris.None?) ==>
              ImageUrl(card) == Some(PlaceholderUrl)
  {
    if raw.imageUris.None? && raw.cardFaces.Some? && |raw.cardFaces.value| > 0 {
      assert card.cardFaces.value[0] == FormatFace(raw.cardFaces.value[0]);
    }
  }

  /** A name whose lookup raised a ValueError is drawn with the placeholder image. */
  lemma NotFoundImage(name: string, message: string)
    ensures ImageUrl(Placeholder(name, message)) == Some(PlaceholderUrl)
  {
  }

  // ----- the stack picture -----

  /**
    The state class of the card drawn at index `idx` of the reversed stack
    when `currentStep` steps are shown. Only "resolved" is ever assigned: the
    "resolving" position already passes the first test, so the top
    `currentStep` cards are resolved, the others carry no class, and at step
    zero nothing does.
   */
  function StateClass(n: int, idx: int, currentStep: int): (r: string)
    ensures r != "resolving"
    ensures r == "resolved" <==> currentStep > 0 && idx < currentStep
    ensures r != "resolved" ==> r == ""
  {
    var position := n - idx;
    if currentStep > 0 then
      if position > n - currentStep then "resolved"
      else if position == n - currentStep + 1 then "resolving"
      else ""
    else ""
  }

  /**
    The card drawn at index `idx` of the reversed stack: the one pushed at
    1-based position `n - idx`, which is also its badge and its z-index. Each
    card sits 80 pixels lower than the one above it, and only the last-pushed
    card carries the top label.
   */
  function CardViewAt(stack: seq<StackItem>, idx: int, currentStep: int): (v: CardView)
    requires 0 <= idx < |stack|
    ensures v.position == |stack| - idx
    ensures 1 <= v.position <= |stack|
    ensures v.zIndex == v.position
    ensures v.stateClass == StateClass(|stack|, idx, currentStep)
    ensures v.name == stack[v.position - 1].card.name
    ensures v.controller == stack[v.position - 1].controller
    ensures v.imageUrl == ImageUrl(stack[v.position - 1].card)
    ensures v.topOffset == OverlapOffset * idx
    ensures v.topLabel <==> v.position == |stack|
  {
    var item := Reverse(stack)[idx];
    var n := |stack|;
    CardView(n - idx, n - idx, idx * OverlapOffset, StateClass(n, idx, currentStep),
             ImageUrl(item.card), idx == 0, item.controller, item.card.name)
  }

  /** A card above another in the stack is drawn higher and in front of it. */
  lemma HigherCardsInFront(stack: seq<StackItem>, i: int, j: int, currentStep: int)
    requires 0 <= i < j < |stack|
    ensures CardViewAt(stack, i, currentStep).zIndex > CardViewAt(stack, j, currentStep).zIndex
    ensures CardViewAt(stack, i, currentStep).topOffset < CardViewAt(stack, j, currentStep).topOffset
  {
  }

  // ----- the two lists -----

  /** ` (target: a, b)` when the item has targets, nothing otherwise. */
  function TargetsText(targets: seq<string>): (r: string)
    ensures targets == [] <==> r == ""
  {
    if targets == [] then "" else " (target: " + Join(targets, ", ") + ")"
  }

  /** The first 80 characters of a card's oracle text (empty when it has none). */
  function Excerpt(card: Card): (r: string)
    ensures |r| <= ExcerptLength
    ensures StartsWith(card.oracleText.GetOr(""), r)
    ensures |card.oracleText.GetOr("")| <= ExcerptLength ==> r == card.oracleText.GetOr("")
    ensures var t := card.oracleText.GetOr(""); r == t[..Min(|t|, ExcerptLength)]
  {
    Take(card.oracleText.GetOr(""), ExcerptLength)
  }

  function PlayEntryOf(item: StackItem): PlayEntry {
    PlayEntry(item.controller, item.card.name, TargetsText(item.targets), Excerpt(item.card))
  }

  /**
    The class of the `stepIndex`-th (1-based) line of the resolution list:
    lines before the current step are done, the current one is marked, the
    rest are plain, and at step zero every line is plain.
   */
  function StepClass(stepIndex: int, currentStep: int): (r: string)
    ensures r == "done" <==> 0 < currentStep && stepIndex < currentStep
    ensures r == "current" <==> 0 < currentStep == stepIndex
    ensures r != "done" && r != "current" ==> r == ""
  {
    if currentStep > 0 then
      if stepIndex < currentStep then "done"
      else if stepIndex == currentStep then "current"
      else ""
    else ""
  }

  /**
    The picture runs one step ahead of the list: the card at index `idx` of the
    reversed stack is drawn resolved exactly when its line (number `idx + 1`)
    is done or current, so the card of the current step already shows as
    resolved.
   */
  lemma PictureAheadOfList(stack: seq<StackItem>, idx: int, currentStep: int)
    requires 0 <= idx < |stack|
    ensures CardViewAt(stack, idx, currentStep).stateClass == "resolved"
            <==> StepClass(idx + 1, currentStep) == "done" || StepClass(idx + 1, currentStep) == "current"
  {
  }

  /** The line of the `i`-th item to resolve. */
  function ResolutionEntryAt(order: seq<StackItem>, i: int, currentStep: int): ResolutionEntry
    requires 0 <= i < |order|
  {
    var card := order[i].card;
    var stepClass := StepClass(i + 1, currentStep);
    if IsCountered(order, i) then CounteredEntry(stepClass, card.name)
    else ResolvedEntry(stepClass, card.name, Excerpt(card))
  }

  /**
    The picture and the resolver agree: a line is shown countered exactly when
    the resolver's step for the same item is a countered step, and both name
    the same card.
   */
  lemma ResolutionAgrees(order: seq<StackItem>, i: int, currentStep: int)
    requires 0 <= i < |order|
    ensures ResolutionEntryAt(order, i, currentStep).name == StepAt(order, i).card.name
    ensures ResolutionEntryAt(order, i, currentStep).CounteredEntry?
            <==> StepAt(order, i).stateAfter == CounteredStateText
  {
    StepAtCard(order, i);
    if IsCountered(order, i) {
      CounteredStepShape(order, i);
    } else {
      ResolvedStepShape(order, i);
    }
  }

  /** `generate_stack_html` without the markup: the picture, the play order and the resolution order. */
  method GenerateStackView(stack: seq<StackItem>, currentStep: int) returns (view: StackView)
    ensures |view.cards| == |stack|
    ensures forall idx :: 0 <= idx < |stack| ==> view.cards[idx] == CardViewAt(stack, idx, currentStep)
    ensures |view.plays| == |stack|
    ensures forall i :: 0 <= i < |stack| ==> view.plays[i] == PlayEntryOf(stack[i])
    ensures |view.resolution| == |stack|
    ensures forall i :: 0 <= i < |stack| ==> view.resolution[i] == ResolutionEntryAt(Reverse(stack), i, currentStep)
  {
    var cards := StackPicture(stack, currentStep);
    var plays := PlayOrder(stack);
    var resolution := ResolutionOrder(stack, currentStep);
    view := StackView(cards, plays, resolution);
  }

  /** The first loop of `generate_stack_html`: the cards from the top of the stack down. */
  method StackPicture(stack: seq<StackItem>, currentStep: int) returns (cards: seq<CardView>)
    ensures |cards| == |stack|
    ensures forall idx :: 0 <= idx < |stack| ==> cards[idx] == CardViewAt(stack, idx, currentStep)
  {
    var order := Reverse(stack);
    var n := |stack|;
    cards := [];
    var idx := 0;
    while idx < n
      invariant 0 <= idx <= n
      invariant |cards| == idx
      invariant forall j :: 0 <= j < idx ==> cards[j] == CardViewAt(stack, j, currentStep)
    {
      var item := order[idx];
      var position := n - idx;
      var zIndex := n - idx;
      var topOffset := idx * OverlapOffset;
      var stateClass := "";
      if currentStep > 0 {
        if position > n - currentStep {
          stateClass := "resolved";
        } else if position == n - currentStep + 1 {
          stateClass := "resolving";
        }
      }
      var imageUrl := ImageUrl(item.card);
      var topLabel := idx == 0;
      cards := cards + [CardView(position, zIndex, topOffset, stateClass, imageUrl, topLabel, item.controller, item.card.name)];
      idx := idx + 1;
    }
  }

  /** The play-order loop of `generate_stack_html`: the items from the bottom of the stack up. */
  method PlayOrder(stack: seq<StackItem>) returns (plays: seq<PlayEntry>)
    ensures |plays| == |stack|
    ensures forall i :: 0 <= i < |stack| ==> plays[i] == PlayEntryOf(stack[i])
  {
    plays := [];
    var i := 0;
    while i < |stack|
      invariant 0 <= i <= |stack|
      invariant |plays| == i
      invariant forall j :: 0 <= j < i ==> plays[j] == PlayEntryOf(stack[j])
    {
      var item := stack[i];
      plays := plays + [PlayEntry(item.controller, item.card.name, TargetsText(item.targets), Excerpt(item.card))];
      i := i + 1;
    }
  }

  /**
    The resolution-order loop of `generate_stack_html`: it grows its own
    countered set exactly as the resolver does and marks each line.
   */
  method ResolutionOrder(stack: seq<StackItem>, currentStep: int) returns (resolution: seq<ResolutionEntry>)
    ensures |resolution| == |stack|
    ensures forall i :: 0 <= i < |stack| ==> resolution[i] == ResolutionEntryAt(Reverse(stack), i, currentStep)
  {
    var order := Reverse(stack);
    resolution := [];
    var countered: set<string> := {};
    var k := 0;
    while k < |order|
      invariant 0 <= k <= |order|
      invariant countered == CounteredAfter(order, k)
      invariant |resolution| == k
      invariant forall j :: 0 <= j < k ==> resolution[j] == ResolutionEntryAt(order, j, currentStep)
    {
      var item := order[k];
      var card := item.card;
      if Counters(item) {
        countered := countered + Elements(item.targets);
        assert countered == CounteredAfter(order, k + 1);
      } else {
        assert countered == CounteredAfter(order, k + 1);
      }
      var stepClass := "";
      if currentStep > 0 {
        if k + 1 < currentStep {
          stepClass := "done";
        } else if k + 1 == currentStep {
          stepClass := "current";
        }
      }
      if card.name in countered {
        resolution := resolution + [CounteredEntry(stepClass, card.name)];
      } else {
        resolution := resolution + [ResolvedEntry(stepClass, card.name, Excerpt(card))];
      }
      k := k + 1;
    }
  }

  /**
    For the same stack, line `i` of the resolution list shows countered
    exactly when the resolver's step `i` is a countered step.
   */
  lemma ViewAgreesWithSteps(stack: seq<StackItem>, currentStep: int, i: int)
    requires 0 <= i < |stack|
    ensures |ResolutionSteps(stack)| == |stack|
    ensures ResolutionEntryAt(Reverse(stack), i, currentStep).CounteredEntry?
            <==> ResolutionSteps(stack)[i].stateAfter == CounteredStateText
  {
    StepOrder(stack, i);
    ResolutionAgrees(Reverse(stack), i, currentStep);
  }
}
