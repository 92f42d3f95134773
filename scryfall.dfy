/**
  Card data: the provider's raw card object, the normalised card the rest of
  the system reads, the type flags of a type line, and the bulk lookup that
  keeps one entry per requested name. The HTTP request, its rate-limit pause
  and the rulings lookup are not modelled: the provider is a function from a
  requested name to a fetched raw card, a not-found answer, a body that is not
  valid JSON, or a failure.
 */
module Scryfall {
  import opened Text

  /** An `image_uris` object (a key absent from it is None). */
  datatype ImageUris = ImageUris(small: Option<string>, normal: Option<string>, large: Option<string>,
                                 png: Option<string>, artCrop: Option<string>, borderCrop: Option<string>)

  /** One face of a multi-faced card. */
  datatype Face = Face(name: Option<string>, manaCost: Option<string>, typeLine: Option<string>,
                       oracleText: Option<string>, imageUris: Option<ImageUris>)

  /** The provider's raw card object; None stands for a key it does not carry. */
  datatype RawCard = RawCard(
    name: string, manaCost: Option<string>, cmc: Option<int>, typeLine: Option<string>,
    oracleText: Option<string>, colors: Option<seq<string>>, colorIdentity: Option<seq<string>>,
    legalities: Option<map<string, string>>, imageUris: Option<ImageUris>, cardFaces: Option<seq<Face>>,
    scryfallUri: Option<string>, rulingsUri: Option<string>,
    power: Option<string>, toughness: Option<string>, loyalty: Option<string>)

  /**
    A card as the stack engine reads it: either a formatted card (`found`
    true) or the placeholder for a name the provider did not find. None
    stands for a key the card dictionary does not carry.
   */
  datatype Card = Card(
    name: string, manaCost: Option<string>, cmc: Option<int>, typeLine: Option<string>,
    oracleText: Option<string>, colors: Option<seq<string>>, colorIdentity: Option<seq<string>>,
    legalities: Option<map<string, string>>, found: bool, error: Option<string>,
    imageUris: Option<ImageUris>, cardFaces: Option<seq<Face>>,
    scryfallUri: Option<string>, rulingsUri: Option<string>,
    power: Option<string>, toughness: Option<string>, loyalty: Option<string>)

  /** An operation that either yields a value or raises an error with a message. */
  datatype Result<T> = Ok(value: T) | Err(error: string)

  /**
    What the provider answers for one requested name: a raw card, the 404
    answer, a body `response.json()` cannot decode (a ValueError with this
    message), or any other failure.
   */
  datatype Fetch = Fetched(raw: RawCard) | NotFound | Malformed(message: string) | Failed(error: string)

  /** The outcome of `search_card` that lets the bulk lookup go on: a card, or a ValueError it catches. */
  datatype Lookup = Found(card: Card) | ValueError(message: string)

  // ----- get_card_types -----

  /** The eight type flags of `get_card_types`. */
  datatype CardTypes = CardTypes(isCreature: bool, isInstant: bool, isSorcery: bool, isEnchantment: bool,
                                 isArtifact: bool, isPlaneswalker: bool, isLand: bool, isTribal: bool)

  /** `get_card_types`: each flag tests its keyword against the lower-cased type line. */
  function GetCardTypes(card: Card): CardTypes {
    var typeLine := Lower(card.typeLine.GetOr(""));
    CardTypes(Contains(typeLine, "creature"), Contains(typeLine, "instant"), Contains(typeLine, "sorcery"),
              Contains(typeLine, "enchantment"), Contains(typeLine, "artifact"), Contains(typeLine, "planeswalker"),
              Contains(typeLine, "land"), Contains(typeLine, "tribal"))
  }

  /** The keyword occurs at some position of the lower-cased type line. */
  ghost predicate HasKeyword(card: Card, keyword: string) {
    exists i :: OccursAt(Lower(card.typeLine.GetOr("")), keyword, i)
  }

  /** Each flag holds exactly when its keyword occurs somewhere in the lower-cased type line. */
  lemma CardTypesByKeyword(card: Card)
    ensures var t := GetCardTypes(card);
      && (t.isCreature <==> HasKeyword(card, "creature"))
      && (t.isInstant <==> HasKeyword(card, "instant"))
      && (t.isSorcery <==> HasKeyword(card, "sorcery"))
      && (t.isEnchantment <==> HasKeyword(card, "enchantment"))
      && (t.isArtifact <==> HasKeyword(card, "artifact"))
      && (t.isPlaneswalker <==> HasKeyword(card, "planeswalker"))
      && (t.isLand <==> HasKeyword(card, "land"))
      && (t.isTribal <==> HasKeyword(card, "tribal"))
  {
    var typeLine := Lower(card.typeLine.GetOr(""));
    ContainsAt(typeLine, "creature");
    ContainsAt(typeLine, "instant");
    ContainsAt(typeLine, "sorcery");
    ContainsAt(typeLine, "enchantment");
    ContainsAt(typeLine, "artifact");
    ContainsAt(typeLine, "planeswalker");
    ContainsAt(typeLine, "land");
    ContainsAt(typeLine, "tribal");
  }

  /** A card without a type line (a not-found placeholder, say) has no type at all. */
  lemma MissingTypeLineNoTypes(card: Card)
    requires card.typeLine.None?
    ensures GetCardTypes(card) == CardTypes(false, false, false, false, false, false, false, false)
  {
    assert Lower("") == "";
  }

  /** The flags ignore letter case. */
  lemma CardTypesIgnoreCase(a: Card, b: Card)
    requires Lower(a.typeLine.GetOr("")) == Lower(b.typeLine.GetOr(""))
    ensures GetCardTypes(a) == GetCardTypes(b)
  {
  }

  // ----- _format_card_data -----

  /** A face's `image_uris` keeps only `small`, `normal`, `large` and `png`. */
  function FaceImages(uris: ImageUris): ImageUris {
    ImageUris(uris.small, uris.normal, uris.large, uris.png, None, None)
  }

  /** One formatted face: text fields default to "", images only if the raw face has them. */
  function FormatFace(face: Face): Face {
    Face(face.name, Some(face.manaCost.GetOr("")), Some(face.typeLine.GetOr("")), Some(face.oracleText.GetOr("")),
         if face.imageUris.Some? then Some(FaceImages(face.imageUris.value)) else None)
  }

  /** The error raised by reading a missing `toughness` key. */
  const ToughnessKeyError := "KeyError: 'toughness'"

  /** Reading `raw["toughness"]` raises when `power` is present without `toughness`. */
  predicate FormatFails(raw: RawCard) {
    raw.power.Some? && raw.toughness.None?
  }

  /** The formatted card `card` is what `_format_card_data` makes of `raw`. */
  ghost predicate IsFormatOf(raw: RawCard, card: Card) {
    // Plain fields, with the defaults of `dict.get`.
    && card.name == raw.name
    && card.manaCost == Some(raw.manaCost.GetOr(""))
    && card.cmc == Some(raw.cmc.GetOr(0))
    && card.typeLine == Some(raw.typeLine.GetOr(""))
    && card.oracleText == Some(raw.oracleText.GetOr(""))
    && card.colors == Some(raw.colors.GetOr([]))
    && card.colorIdentity == Some(raw.colorIdentity.GetOr([]))
    && card.legalities == Some(raw.legalities.GetOr(map[]))
    // Always found, never an error.
    && card.found && card.error.None?
    // Top-level images win; faces only without them.
    && card.imageUris == raw.imageUris
    && (card.cardFaces.Some? <==> raw.imageUris.None? && raw.cardFaces.Some?)
    && (card.cardFaces.Some? ==>
          |card.cardFaces.value| == |raw.cardFaces.value|
          && forall i :: 0 <= i < |card.cardFaces.value| ==>
               card.cardFaces.value[i] == FormatFace(raw.cardFaces.value[i]))
    && card.scryfallUri == raw.scryfallUri && card.rulingsUri == raw.rulingsUri
    // Power and toughness travel together, keyed on power; loyalty on its own.
    && (if raw.power.Some? then card.power == raw.power && card.toughness == raw.toughness
        else card.power.None? && card.toughness.None?)
    && card.loyalty == raw.loyalty
  }

  /** `_format_card_data`: project the provider's object onto the fields the engine reads. */
  method FormatCardData(raw: RawCard) returns (r: Result<Card>)
    ensures r.Err? <==> FormatFails(raw)
    ensures r.Err? ==> r.error == ToughnessKeyError
    ensures r.Ok? ==> IsFormatOf(raw, r.value)
  {
    var faces: Option<seq<Face>> := None;
    if raw.imageUris.None? && raw.cardFaces.Some? {
      var rawFaces := raw.cardFaces.value;
      var formatted: seq<Face> := [];
      var i := 0;
      while i < |rawFaces|
        invariant 0 <= i <= |rawFaces|
        invariant |formatted| == i
        invariant forall j :: 0 <= j < i ==> formatted[j] == FormatFace(rawFaces[j])
      {
        var face := rawFaces[i];
        var faceData := Face(face.name, Some(face.manaCost.GetOr("")), Some(face.typeLine.GetOr("")),
                             Some(face.oracleText.GetOr("")), None);
        if face.imageUris.Some? {
          var uris := face.imageUris.value;
          faceData := faceData.(imageUris := Some(ImageUris(uris.small, uris.normal, uris.large, uris.png, None, None)));
        }
        formatted := formatted + [faceData];
        i := i + 1;
      }
      faces := Some(formatted);
    }
    var power, toughness: Option<string> := None, None;
    if raw.power.Some? {
      if raw.toughness.None? {
        return Err(ToughnessKeyError);
      }
      power, toughness := raw.power, raw.toughness;
    }
    r := Ok(Card(raw.name, Some(raw.manaCost.GetOr("")), Some(raw.cmc.GetOr(0)), Some(raw.typeLine.GetOr("")),
                 Some(raw.oracleText.GetOr("")), Some(raw.colors.GetOr([])), Some(raw.colorIdentity.GetOr([])),
                 Some(raw.legalities.GetOr(map[])), true, None, raw.imageUris, faces,
                 raw.scryfallUri, raw.rulingsUri, power, toughness, raw.loyalty));
  }

  // ----- search_cards_bulk -----

  /** The ValueError message `search_card` raises for a name the provider does not know. */
  function NotFoundMessage(name: string): string {
    "Card '" + name + "' not found"
  }

  /** The placeholder for a requested name whose lookup raised a ValueError with `message`. */
  function Placeholder(name: string, message: string): (c: Card)
    ensures !c.found && c.name == name && c.error == Some(message)
    ensures c.imageUris.None? && c.cardFaces.None? && c.oracleText.None?
  {
    Card(name, None, None, None, None, None, None, None, false, Some(message),
         None, None, None, None, None, None, None)
  }

  /** The answer for this name lets the bulk lookup go on. */
  predicate Usable(f: Fetch) {
    !f.Failed? && !(f.Fetched? && FormatFails(f.raw))
  }

  /** The error a failing answer raises. */
  function FailureOf(f: Fetch): string
    requires !Usable(f)
  {
    if f.Failed? then f.error else ToughnessKeyError
  }

  /** `card` is the bulk lookup's entry for the requested `name`. */
  ghost predicate EntryFor(name: string, f: Fetch, card: Card) {
    match f
    case NotFound => card == Placeholder(name, NotFoundMessage(name))
    case Malformed(message) => card == Placeholder(name, message)
    case Fetched(raw) => IsFormatOf(raw, card)
    case Failed(_) => false
  }

  /**
    `search_card` for the requested `name`: the formatted card, a ValueError
    (the not-found message for a 404, the decoder's message for a body that
    is not JSON), or an error of another kind that propagates.
   */
  method SearchCard(name: string, f: Fetch) returns (r: Result<Lookup>)
    ensures r.Err? <==> !Usable(f)
    ensures r.Err? ==> r.error == FailureOf(f)
    ensures r.Ok? && r.value.ValueError? <==> f.NotFound? || f.Malformed?
    ensures f.NotFound? ==> r == Ok(ValueError(NotFoundMessage(name)))
    ensures f.Malformed? ==> r == Ok(ValueError(f.message))
    ensures r.Ok? && r.value.Found? ==> f.Fetched? && IsFormatOf(f.raw, r.value.card)
  {
    match f {
      case NotFound =>
        r := Ok(ValueError(NotFoundMessage(name)));
      case Malformed(message) =>
        r := Ok(ValueError(message));
      case Failed(e) =>
        r := Err(e);
      case Fetched(raw) =>
        var formatted := FormatCardData(raw);
        if formatted.Err? {
          r := Err(formatted.error);
        } else {
          r := Ok(Found(formatted.value));
        }
    }
  }

  /**
    `search_cards_bulk`: one entry per requested name, in request order; a
    name whose lookup raised a ValueError (not found, or a body that is not
    JSON) becomes a placeholder carrying the requested name and the message.
    Any other error of the lookup propagates.
   */
  method SearchCardsBulk(names: seq<string>, lookup: string -> Fetch) returns (r: Result<seq<Card>>)
    ensures r.Ok? <==> forall i :: 0 <= i < |names| ==> Usable(lookup(names[i]))
    ensures r.Ok? ==> |r.value| == |names|
                      && forall i :: 0 <= i < |names| ==> EntryFor(names[i], lookup(names[i]), r.value[i])
    ensures r.Err? ==> exists i :: 0 <= i < |names| && !Usable(lookup(names[i]))
                                   && (forall j :: 0 <= j < i ==> Usable(lookup(names[j])))
                                   && r.error == FailureOf(lookup(names[i]))
  {
    var cards: seq<Card> := [];
    var i := 0;
    while i < |names|
      invariant 0 <= i <= |names|
      invariant |cards| == i
      invariant forall j :: 0 <= j < i ==> Usable(lookup(names[j]))
      invariant forall j :: 0 <= j < i ==> EntryFor(names[j], lookup(names[j]), cards[j])
    {
      var found := SearchCard(names[i], lookup(names[i]));
      if found.Err? {
        return Err(found.error);
      }
      match found.value {
        case ValueError(message) =>
          cards := cards + [Placeholder(names[i], message)];
        case Found(card) =>
          cards := cards + [card];
      }
      i := i + 1;
    }
    return Ok(cards);
  }
}
