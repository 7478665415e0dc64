/**
 * The data model of the card forge: the two string enumerations, the card
 * record produced by the text generator, the record that pairs it with its
 * illustration, and the session state the controller keeps.
 */
module Types {

  datatype Option<+T> = None | Some(value: T)

  /** The four rarity tiers. At run time a TypeScript string enum member is its label. */
  datatype CardRarity = Common | Uncommon | Rare | Mythic {
    function Label(): (s: string)
      ensures |s| > 0
    {
      match this
      case Common => "Common"
      case Uncommon => "Uncommon"
      case Rare => "Rare"
      case Mythic => "Mythic Rare"
    }
  }

  /** The seven color identities. */
  datatype CardColor = White | Blue | Black | Red | Green | Multicolor | Colorless {
    function Label(): (s: string)
      ensures |s| > 0
    {
      match this
      case White => "White"
      case Blue => "Blue"
      case Black => "Black"
      case Red => "Red"
      case Green => "Green"
      case Multicolor => "Multicolor"
      case Colorless => "Colorless"
    }
  }

  /**
   * The rarity whose label is `s`, if any. The contract makes the label map
   * a bijection between the four members and four distinct strings.
   */
  function RarityFromLabel(s: string): (r: Option<CardRarity>)
    ensures r.Some? ==> r.value.Label() == s
    ensures forall x: CardRarity :: x.Label() == s ==> r == Some(x)
  {
    if s == "Common" then Some(Common)
    else if s == "Uncommon" then Some(Uncommon)
    else if s == "Rare" then Some(Rare)
    else if s == "Mythic Rare" then Some(Mythic)
    else None
  }

  /** The color identity whose label is `s`, if any; likewise a bijection on the seven members. */
  function ColorFromLabel(s: string): (r: Option<CardColor>)
    ensures r.Some? ==> r.value.Label() == s
    ensures forall x: CardColor :: x.Label() == s ==> r == Some(x)
  {
    if s == "White" then Some(White)
    else if s == "Blue" then Some(Blue)
    else if s == "Black" then Some(Black)
    else if s == "Red" then Some(Red)
    else if s == "Green" then Some(Green)
    else if s == "Multicolor" then Some(Multicolor)
    else if s == "Colorless" then Some(Colorless)
    else None
  }

  /** No two rarities share a label, and the mythic label starts with 'M'. */
  lemma RarityLabelsDistinct(a: CardRarity, b: CardRarity)
    ensures a.Label() == b.Label() ==> a == b
    ensures Mythic.Label()[0] == 'M'
  {
  }

  /** No two color identities share a label. */
  lemma ColorLabelsDistinct(a: CardColor, b: CardColor)
    ensures a.Label() == b.Label() ==> a == b
  {
  }

  /**
   * The card record. `rarity` and `colorIdentity` hold the label strings the
   * record carries at run time, since the record is parsed from untrusted JSON
   * without validation; `WellTyped` says they are members of their enums.
   * `flavorText`, `power` and `toughness` are the optional fields.
   */
  datatype MTGCardData = MTGCardData(
    name: string,
    manaCost: string,
    typeLine: string,
    rarity: string,
    rulesText: string,
    flavorText: Option<string>,
    power: Option<string>,
    toughness: Option<string>,
    colorIdentity: string,
    artPrompt: string)

  /** The record has the declared types: both enumerated fields hold a member's label. */
  predicate WellTyped(card: MTGCardData) {
    RarityFromLabel(card.rarity).Some? && ColorFromLabel(card.colorIdentity).Some?
  }

  /** What the generation service hands back: a card together with its image reference. */
  datatype GenerationResult = GenerationResult(data: MTGCardData, imageUrl: string)

  /** The controller's session state; `data`, `imageUrl` and `error` are nullable. */
  datatype CardState = CardState(
    data: Option<MTGCardData>,
    imageUrl: Option<string>,
    loading: bool,
    error: Option<string>)
}
