/**
 * The card renderer's presentation decisions: which frame palette and which
 * rarity icon color a card gets, its rarity glyph, and whether the
 * power/toughness badge, the flavour paragraph and the rare/mythic accent
 * appear. Palettes and colors are opaque tokens standing for the CSS classes.
 */
module MTGCard {
  import opened Types
  import ManaSymbol

  /** The seven frame treatments, one per color identity. */
  datatype Palette = WhiteFrame | BlueFrame | BlackFrame | RedFrame | GreenFrame | GoldFrame | GreyFrame

  /** The reference table: the palette a color identity is drawn with. */
  function PaletteOf(c: CardColor): Palette
  {
    match c
    case White => WhiteFrame
    case Blue => BlueFrame
    case Black => BlackFrame
    case Red => RedFrame
    case Green => GreenFrame
    case Multicolor => GoldFrame
    case Colorless => GreyFrame
  }

  /**
   * The frame palette chosen by a switch on the color-identity label: each of the
   * seven labels gets its color's palette, and any other string falls back to
   * the White palette.
   */
  function FrameColors(colorIdentity: string): (p: Palette)
    ensures forall c: CardColor :: colorIdentity == c.Label() ==> p == PaletteOf(c)
    ensures ColorFromLabel(colorIdentity).None? ==> p == WhiteFrame
  {
    if colorIdentity == White.Label() then WhiteFrame
    else if colorIdentity == Blue.Label() then BlueFrame
    else if colorIdentity == Black.Label() then BlackFrame
    else if colorIdentity == Red.Label() then RedFrame
    else if colorIdentity == Green.Label() then GreenFrame
    else if colorIdentity == Multicolor.Label() then GoldFrame
    else if colorIdentity == Colorless.Label() then GreyFrame
    else WhiteFrame
  }

  /**
   * The seven color identities get seven pairwise distinct palettes; Colorless
   * in particular is not drawn like White.
   */
  lemma FramePalettesDistinct(a: CardColor, b: CardColor)
    ensures FrameColors(a.Label()) == FrameColors(b.Label()) <==> a == b
    ensures FrameColors(Colorless.Label()) != FrameColors(White.Label())
  {
  }

  /** A string outside the enumeration is drawn exactly like White, and like nothing else. */
  lemma FrameFallbackIsWhite(other: string, c: CardColor)
    requires ColorFromLabel(other).None?
    ensures FrameColors(other) == FrameColors(White.Label())
    ensures FrameColors(other) == FrameColors(c.Label()) <==> c == White
  {
  }

  /** The icon colors of the four rarities are pairwise distinct; the fallback is Common's. */
  lemma IconColorsDistinct(a: CardRarity, b: CardRarity, other: string)
    requires RarityFromLabel(other).None?
    ensures RarityIconColor(a.Label()) == RarityIconColor(b.Label()) <==> a == b
    ensures RarityIconColor(other) == RarityIconColor(Common.Label())
  {
  }

  /** The four rarity icon colors. */
  datatype IconColor = BlackIcon | SlateIcon | AmberIcon | OrangeIcon

  /** The reference table: the icon color of each rarity. */
  function IconOf(r: CardRarity): IconColor
  {
    match r
    case Common => BlackIcon
    case Uncommon => SlateIcon
    case Rare => AmberIcon
    case Mythic => OrangeIcon
  }

  /**
   * The icon color chosen by a switch on the rarity label: each of the four
   * labels gets its rarity's color, and any other string gets the Common one.
   */
  function RarityIconColor(rarity: string): (i: IconColor)
    ensures forall r: CardRarity :: rarity == r.Label() ==> i == IconOf(r)
    ensures RarityFromLabel(rarity).None? ==> i == IconOf(Common)
  {
    if rarity == Common.Label() then BlackIcon
    else if rarity == Uncommon.Label() then SlateIcon
    else if rarity == Rare.Label() then AmberIcon
    else if rarity == Mythic.Label() then OrangeIcon
    else BlackIcon
  }

  /**
   * The rarity glyph: "M" for the mythic label, otherwise the label's first
   * character (nothing at all for an empty label, where indexing yields
   * `undefined`).
   */
  function RarityGlyph(rarity: string): (g: string)
    ensures rarity == Mythic.Label() ==> g == "M"
    ensures rarity != Mythic.Label() ==> g == rarity[..if |rarity| > 0 then 1 else 0]
  {
    if rarity == Mythic.Label() then "M"
    else if |rarity| > 0 then [rarity[0]]
    else ""
  }

  /**
   * On the four members the glyph is always the label's first character (the
   * mythic special case agrees with it), namely C, U, R and M, so the glyph
   * identifies the rarity.
   */
  lemma GlyphOfMembers(r: CardRarity, q: CardRarity)
    ensures RarityGlyph(r.Label()) == [r.Label()[0]]
    ensures RarityGlyph(Common.Label()) == "C" && RarityGlyph(Uncommon.Label()) == "U"
    ensures RarityGlyph(Rare.Label()) == "R" && RarityGlyph(Mythic.Label()) == "M"
    ensures RarityGlyph(r.Label()) == RarityGlyph(q.Label()) <==> r == q
  {
  }

  /** JavaScript truthiness of an optional string: present and not empty. */
  predicate Truthy(o: Option<string>) {
    o.Some? && o.value != ""
  }

  /** How an optional string is rendered as text: a missing value renders as nothing. */
  function TextOf(o: Option<string>): (t: string)
    ensures o.Some? ==> t == o.value
    ensures o.None? ==> t == ""
  {
    match o
    case Some(v) => v
    case None => ""
  }

  /**
   * The power/toughness badge: present iff power or toughness is a non-empty
   * string, and then showing power, a slash, and toughness, a missing side
   * rendered as empty.
   */
  function PowerToughness(card: MTGCardData): (badge: Option<string>)
    ensures badge.Some? <==> Truthy(card.power) || Truthy(card.toughness)
    ensures badge.Some? ==> badge.value == TextOf(card.power) + "/" + TextOf(card.toughness)
  {
    if Truthy(card.power) || Truthy(card.toughness) then
      Some(TextOf(card.power) + "/" + TextOf(card.toughness))
    else
      None
  }

  /** When only one side is given the badge is still shown, with the other side empty. */
  lemma OneSidedBadge(card: MTGCardData, p: string)
    requires p != "" && card.power == Some(p) && card.toughness == None
    ensures PowerToughness(card) == Some(p + "/")
  {
    assert p + "/" + "" == p + "/";
  }

  /** The flavour paragraph: present iff the flavour text is a non-empty string, and then that text. */
  function FlavorLine(card: MTGCardData): (line: Option<string>)
    ensures line.Some? <==> Truthy(card.flavorText)
    ensures line.Some? ==> line == card.flavorText
  {
    if Truthy(card.flavorText) then card.flavorText else None
  }

  /** The decorative accent: present iff the rarity label is Rare or Mythic Rare. */
  function ShowsHologram(rarity: string): (shown: bool)
    ensures shown <==> rarity == Rare.Label() || rarity == Mythic.Label()
  {
    rarity == Rare.Label() || rarity == Mythic.Label()
  }

  /** On the members: the accent marks exactly the two highest rarities, not Common or Uncommon. */
  lemma HologramOfMembers(r: CardRarity)
    ensures ShowsHologram(r.Label()) <==> r == Rare || r == Mythic
  {
    RarityLabelsDistinct(r, Rare);
    RarityLabelsDistinct(r, Mythic);
  }

  /** Everything the card face shows, region by region. */
  datatype CardView = CardView(
    frame: Palette,
    name: string,
    cost: seq<ManaSymbol.SymbolView>,
    art: string,
    altText: string,
    typeLine: string,
    glyph: string,
    glyphColor: IconColor,
    rulesText: string,
    flavor: Option<string>,
    badge: Option<string>,
    hologram: bool)

  /** The card face for a card record and its image reference. */
  function RenderCard(card: MTGCardData, imageUrl: string): (v: CardView)
    ensures v.art == imageUrl && v.altText == card.name && v.name == card.name
    ensures v.typeLine == card.typeLine && v.rulesText == card.rulesText
    ensures v.cost == ManaSymbol.ManaCost(card.manaCost)
    ensures v.frame == FrameColors(card.colorIdentity)
    ensures v.glyph == RarityGlyph(card.rarity) && v.glyphColor == RarityIconColor(card.rarity)
    ensures v.badge == PowerToughness(card) && v.flavor == FlavorLine(card)
    ensures v.badge.Some? <==> Truthy(card.power) || Truthy(card.toughness)
    ensures v.flavor.Some? <==> Truthy(card.flavorText)
    ensures v.hologram <==> card.rarity == Rare.Label() || card.rarity == Mythic.Label()
    ensures forall c: CardColor :: card.colorIdentity == c.Label() ==> v.frame == PaletteOf(c)
    ensures forall r: CardRarity :: card.rarity == r.Label() ==>
      v.glyphColor == IconOf(r) && v.glyph == [r.Label()[0]]
  {
    var frame := FrameColors(card.colorIdentity);
    var glyph := RarityGlyph(card.rarity);
    var glyphColor := RarityIconColor(card.rarity);
    assert forall r: CardRarity :: card.rarity == r.Label() ==> glyph == [r.Label()[0]] by {
      forall r: CardRarity | card.rarity == r.Label() ensures glyph == [r.Label()[0]] {
        GlyphOfMembers(r, r);
      }
    }
    CardView(
      frame,
      card.name,
      ManaSymbol.ManaCost(card.manaCost),
      imageUrl,
      card.name,
      card.typeLine,
      glyph,
      glyphColor,
      card.rulesText,
      FlavorLine(card),
      PowerToughness(card),
      ShowsHologram(card.rarity))
  }

  /**
   * A well-typed card takes no fallback branch: its frame, icon color and glyph
   * are those of the members its labels name.
   */
  lemma WellTypedFace(card: MTGCardData, imageUrl: string)
    requires WellTyped(card)
    ensures RenderCard(card, imageUrl).frame == PaletteOf(ColorFromLabel(card.colorIdentity).value)
    ensures RenderCard(card, imageUrl).glyphColor == IconOf(RarityFromLabel(card.rarity).value)
    ensures RenderCard(card, imageUrl).glyph == [card.rarity[0]]
  {
    var c, r := ColorFromLabel(card.colorIdentity).value, RarityFromLabel(card.rarity).value;
    GlyphOfMembers(r, r);
  }

  /**
   * A red card with both power and toughness gets the red frame and a badge
   * reading power/toughness.
   */
  lemma RedCreature(card: MTGCardData, imageUrl: string, p: string, t: string)
    requires card.colorIdentity == Red.Label()
    requires card.power == Some(p) && card.toughness == Some(t) && p != ""
    ensures RenderCard(card, imageUrl).frame == RedFrame
    ensures RenderCard(card, imageUrl).badge == Some(p + "/" + t)
  {
    assert FrameColors(card.colorIdentity) == PaletteOf(Red);
    assert PowerToughness(card) == Some(p + "/" + t);
  }
}
