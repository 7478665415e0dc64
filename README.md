# Mythic Forge card model

Mythic Forge is a single-page React application. A user types a card concept,
and a generation service returns a Magic: The Gathering–style card record
together with an illustration. The page then renders the card face. This
project models the application's own logic in Dafny and proves properties
about it. That logic covers:

- **the data model** (`types.dfy`, module `Types`): the rarity and color
  enumerations, the card record, the generation result and the session state.
  An enumeration member is kept as its label string, because that is all the
  record holds at run time. `Types.WellTyped` says the label belongs to the
  enumeration; `MTGCard.WellTypedFace` shows what that buys.
- **the mana symbols** (`mana_symbol.dfy`, module `ManaSymbol`):
  - the tokenizer that splits a cost such as `{2}{W}{U}` into its brace tokens,
    with the global regular-expression search modelled as a scan;
  - the normalisation of a token to its displayed content;
  - the color of each symbol;
  - the rendered strip of symbols.
- **the card face** (`mtg_card.dfy`, module `MTGCard`):
  - the frame palette chosen by color identity;
  - the rarity glyph and its icon color;
  - the conditional flavour paragraph, the power/toughness badge and the
    rare/mythic accent;
  - the whole card view.
- **the controller** (`app.dfy`, module `App`):
  - the session as a class (`App.Session`) holding the theme, the card state
    and the caption index;
  - the handler's submit, success and failure steps, and the caption timer;
  - what the page shows: the spinner, the card or the placeholder, plus the
    error banner and whether the submit button is enabled;
  - the blank-input test that `String.prototype.trim` performs.

The scan's specification is `ManaSymbol.GlobalMatch`. It says:

- every span is a match of `\{[^}]+\}`;
- the spans are in order and do not overlap;
- no match begins outside every span.

`ManaSymbol.ScanIsGlobalMatch` shows that the scan meets these three
conditions, and `ManaSymbol.ScanIsUnique` shows that no other sequence of spans
does: the three conditions alone determine the token spans of a cost.

JavaScript truthiness is modelled exactly: an empty string is false. This
decides four conditions:

- the flavour paragraph;
- the badge (`power || toughness`);
- the banner (`state.error &&`);
- the choice of card over placeholder (`state.data && state.imageUrl`).

Three behaviours of the code are worth noting:

- **Colorless.** The code draws a Colorless card with its own grey palette
  (`components/MTGCard.tsx:20`). It is not drawn like White; White's palette
  is only the fallback for a string outside the enumeration.
  `MTGCard.FramePalettesDistinct` proves this.
- **Re-entry.** The handler does not itself refuse a submission while one is
  in flight. Only the disabled button does. `App.Session.Submit` therefore has
  no loading guard.
- **Failure.** A failed generation restores the state captured when the
  handler started, with the error set. The previously forged card therefore
  stays on screen beneath the banner. `App.FailureKeepsLastCard` and
  `App.FailedAfterCard` show this.

## Model

| member | source | states |
|---|---|---|
| Types.RarityFromLabel | types.ts:2-7 | the four rarity labels are recognised, each as its own member; any other string is recognised as none |
| Types.ColorFromLabel | types.ts:9-17 | the seven color labels are recognised, each as its own member; any other string is recognised as none |
| Types.RarityLabelsDistinct | types.ts:2-7 | no two rarities share a label; the mythic label begins with `M` |
| Types.ColorLabelsDistinct | types.ts:9-17 | no two color identities share a label |
| ManaSymbol.CloseFrom | components/ManaSymbol.tsx:31 | the position where `[^}]+` must stop: the first `}` at or after `k`, with no `}` before it |
| ManaSymbol.MatchAt | components/ManaSymbol.tsx:31 | one anchored attempt of `\{[^}]+\}`: it returns `e` exactly when `s[i..e]` is a brace token, so an anchored match is unique |
| ManaSymbol.MatchEndsAtFirstClose | components/ManaSymbol.tsx:31 | a token anchored at `i` has a non-empty interior and ends just after the first `}` past `i + 1` |
| ManaSymbol.Scan | components/ManaSymbol.tsx:31 | the `g`-flag search from `i`: try the pattern at `i`, on a match record it and resume at its end, else move on one; every match is at least three characters long, so there are at most a third as many spans as characters left; ScanIsGlobalMatch and ScanIsUnique give its full contract |
| ManaSymbol.ScanIsGlobalMatch | components/ManaSymbol.tsx:31 | the `g`-flag search from `i` (match and resume at its end, else move on one position) finds only matches, in order, without overlap, and skips no match that starts outside them |
| ManaSymbol.ScanIsUnique | components/ManaSymbol.tsx:31 | any sequence of spans meeting those conditions is the scan's result, so the conditions define the tokenizer |
| ManaSymbol.Slices | components/ManaSymbol.tsx:31 | one substring per span, each equal to the span's slice of the input |
| ManaSymbol.CostSymbols | components/ManaSymbol.tsx:31 | the symbols are the substrings at the scan's spans of the whole cost, in source order, duplicates kept; each span lies inside the cost and each symbol is a brace token |
| ManaSymbol.NoSymbolsIffNoMatch | components/ManaSymbol.tsx:31 | with the empty-list fallback, the symbol list is empty exactly when the pattern matches nowhere in the cost |
| ManaSymbol.SymbolsOfJoin | components/ManaSymbol.tsx:31 | concatenating any brace tokens and splitting the result gives back the same tokens (round trip) |
| ManaSymbol.SplitJoinSplit | components/ManaSymbol.tsx:31 | splitting the concatenation of a cost's symbols yields the same symbols (idempotence) |
| ManaSymbol.ExampleCost | components/ManaSymbol.tsx:31 | `{2}{W}{U}` splits into `{2}`, `{W}`, `{U}` |
| ManaSymbol.RepeatedSymbol | components/ManaSymbol.tsx:31 | `{W}{W}` yields both occurrences |
| ManaSymbol.DoubledOpeningBrace | components/ManaSymbol.tsx:31 | `{{W}` yields the single token `{{W}`, because `[^}]` admits `{` |
| ManaSymbol.EmptyBracesSkipped | components/ManaSymbol.tsx:31 | `{}` is not a token, so `{}{W}` yields only `{W}` |
| ManaSymbol.UpperChar | components/ManaSymbol.tsx:10 | an ASCII lower-case letter becomes its capital; every other character is unchanged |
| ManaSymbol.ToUpper | components/ManaSymbol.tsx:10 | upper-casing acts character by character and keeps the length |
| ManaSymbol.StripBraces | components/ManaSymbol.tsx:10 | removing every brace leaves no brace, never lengthens, and leaves a brace-free string unchanged |
| ManaSymbol.StripBracesAppend | components/ManaSymbol.tsx:10 | brace removal distributes over concatenation |
| ManaSymbol.StripBracesToUpper | components/ManaSymbol.tsx:10 | brace removal and upper-casing commute |
| ManaSymbol.Content | components/ManaSymbol.tsx:10 | the displayed content holds no brace and no lower-case letter, and is no longer than the symbol |
| ManaSymbol.ContentOfBraced | components/ManaSymbol.tsx:10 | the content of `{x}`, with no brace in `x`, is `x` upper-cased |
| ManaSymbol.ContentIdempotent | components/ManaSymbol.tsx:10 | normalising a content again leaves it unchanged |
| ManaSymbol.ColorClasses | components/ManaSymbol.tsx:12-21 | each of W, U, B, R and G gets its own color exactly when the content is that letter; every other content gets the neutral default |
| ManaSymbol.SymbolClass | components/ManaSymbol.tsx:10-21 | the class of a symbol is the class ColorClasses picks for its content; ClassByLetter and CaseInsensitive state what that means for the symbol |
| ManaSymbol.ClassByLetter | components/ManaSymbol.tsx:10-21 | a symbol is drawn in a mana color exactly when, braces removed, it is that color's letter in either case |
| ManaSymbol.CaseInsensitive | components/ManaSymbol.tsx:10-21 | symbols equal up to case have the same content and the same color |
| ManaSymbol.ClassOfBracedChar | components/ManaSymbol.tsx:10-21 | `{c}` displays `c` upper-cased, and its color is chosen from that letter |
| ManaSymbol.SymbolClassExamples | components/ManaSymbol.tsx:13-20 | `{w}` and `{W}` are white, `{u}` blue, `{g}` green; `{2}` and `{X}` get the default |
| ManaSymbol.RenderSymbol | components/ManaSymbol.tsx:23-27 | a rendered symbol shows its content, in the color chosen from that content |
| ManaSymbol.RenderAll | components/ManaSymbol.tsx:34-36 | exactly one rendered symbol per token, in token order |
| ManaSymbol.ManaCost | components/ManaSymbol.tsx:30-39 | the rendered cost has one symbol per matched token of the cost, in order |
| ManaSymbol.ExampleCostRendering | components/ManaSymbol.tsx:30-39 | `{2}{W}{U}` renders as a generic 2, a white W and a blue U |
| ManaSymbol.ExampleSymbolsRendering | components/ManaSymbol.tsx:34-36 | the tokens `{2}`, `{W}`, `{U}` render as generic, white and blue |
| MTGCard.FrameColors | components/MTGCard.tsx:12-23 | each color label gets its color's palette; any other string falls back to White's palette |
| MTGCard.FramePalettesDistinct | components/MTGCard.tsx:14-20 | the seven identities get seven distinct palettes; Colorless differs from White |
| MTGCard.FrameFallbackIsWhite | components/MTGCard.tsx:21 | a string outside the enumeration is drawn like White and like no other identity |
| MTGCard.RarityIconColor | components/MTGCard.tsx:25-33 | each rarity label gets its rarity's icon color; any other string gets Common's |
| MTGCard.IconColorsDistinct | components/MTGCard.tsx:26-31 | the four rarities have distinct icon colors; the fallback is Common's |
| MTGCard.RarityGlyph | components/MTGCard.tsx:68 | `M` for the mythic label; otherwise the label's first character, or nothing for an empty label |
| MTGCard.GlyphOfMembers | components/MTGCard.tsx:68 | on the members the glyph is the label's first letter (C, U, R, M), so it identifies the rarity |
| MTGCard.TextOf | components/MTGCard.tsx:87 | a missing value renders as empty text |
| MTGCard.PowerToughness | components/MTGCard.tsx:85-89 | the badge appears exactly when power or toughness is a non-empty string, and then reads power `/` toughness |
| MTGCard.OneSidedBadge | components/MTGCard.tsx:85-87 | with only a power `p`, the badge still appears and reads `p/` |
| MTGCard.FlavorLine | components/MTGCard.tsx:77-81 | the flavour paragraph appears exactly when the flavour text is a non-empty string, and then shows it |
| MTGCard.ShowsHologram | components/MTGCard.tsx:93-95 | the accent appears exactly for the Rare and Mythic Rare labels |
| MTGCard.HologramOfMembers | components/MTGCard.tsx:93 | among the members, exactly Rare and Mythic get the accent |
| MTGCard.RenderCard | components/MTGCard.tsx:35-97 | the face shows the name, the rendered cost strip, the image with the name as its alt text, the type line, the rules text, the frame palette, the rarity glyph and icon color (fallbacks included), the flavour paragraph, the badge and the accent, each as its own member decides; a member label gets its member's palette, color and first-letter glyph |
| MTGCard.WellTypedFace | components/MTGCard.tsx:12-33 | a card whose labels are members takes no fallback branch: its frame, icon color and glyph are those of the members named |
| MTGCard.RedCreature | components/MTGCard.tsx:17 | a red card with power and toughness gets the red frame and a `p/t` badge |
| App.TrimStart | App.tsx:18 | cuts off exactly the leading white space |
| App.TrimEnd | App.tsx:18 | cuts off exactly the trailing white space |
| App.Trim | App.tsx:18 | the result is a contiguous piece of the input that neither starts nor ends with white space, with only white space outside it |
| App.IsBlank | App.tsx:18 | a theme is blank when trimming leaves nothing; BlankIffAllSpace characterises it |
| App.BlankIffAllSpace | App.tsx:18 | a theme is blank exactly when every character of it is white space |
| App.AllSpaceIsBlank | App.tsx:18 | a theme of spaces only is blank |
| App.LetterIsNotBlank | App.tsx:18 | a theme holding a letter is not blank |
| App.DisplayArea | App.tsx:108-134 | the spinner with the current caption exactly while loading; otherwise the card exactly when there is a card and a non-empty image; otherwise the placeholder |
| App.ErrorBanner | App.tsx:99-103 | the banner appears exactly when the error is a non-empty string, and then shows it |
| App.BannerIffError | App.tsx:99 | in a consistent state the banner appears exactly when there is an error, and never while loading |
| App.SubmitEnabled | App.tsx:92 | the button is enabled exactly when nothing is loading and the theme holds a non-space character |
| App.NextMessage | App.tsx:55 | the caption index advances by one and wraps to 0 after the last caption |
| App.Ticks | App.tsx:55 | any number of ticks keeps the index within the captions |
| App.TicksAdvance | App.tsx:55 | `n` ticks move the index `n` captions on, modulo six |
| App.FullCycle | App.tsx:40-55 | six ticks bring the caption back to where it was |
| App.Session.constructor | App.tsx:8-14 | the initial session has an empty theme, no card, no image, no error, is not loading, and shows the first caption |
| App.Session.EditTheme | App.tsx:80-86 | typing replaces the theme unless loading, when the box is disabled |
| App.Session.Submit | App.tsx:16-20 | a blank theme changes nothing; otherwise the state starts loading with no error, and the state as it was is captured |
| App.Session.Succeed | App.tsx:22-29 | the card and image come from the result, and loading and error are cleared |
| App.Session.Fail | App.tsx:30-36 | the captured state comes back with loading cleared and the fixed failure message |
| App.Session.Tick | App.tsx:51-59 | the caption advances only while loading |
| App.Session.Generate | App.tsx:16-38 | a whole run: a blank theme changes nothing; success shows the new card; failure keeps the previous card and image and sets the failure message |
| App.FailureKeepsLastCard | App.tsx:16-38 | a fresh session that forges one card and then fails on a second theme ends with the first card and image, not loading, and the failure message |
| App.FailedAfterCard | App.tsx:99-120 | that state shows the first card in the display area and the failure message in the banner |

## Left out

- The generation service (`services/geminiService.ts`) is not part of this model. It makes the network calls, builds the prompts, parses the JSON and encodes the image as a data URI. Its outcome enters as a parameter: the result passed to `App.Session.Succeed`, or `None` for a thrown error in `App.Session.Generate`.
- JSX layout and CSS are left out: class strings, fonts, the texture overlay, the header, the footer, the designer-notes panel and the button label. Palettes and colors are opaque tokens, one per distinct class string.
- The `key` property of the rendered symbols is left out; it carries no behaviour.
- `console.error` is left out: logging is I/O.
- Asynchrony is left out. The handler's await, the 2500 ms interval and the effect's clean-up are not modelled. One timer tick is the discrete event `App.Session.Tick`, which fires only while loading. `App.Session.Generate` runs one handler to completion with nothing interleaved.
- Overlapping submissions are left out. Two handlers in flight can each restore a different captured state. The model can express this by passing captured states to `App.Session.Fail`, but no property about such runs is proved.
- ManaSymbol.UpperChar: covers ASCII letters only. JavaScript's `toUpperCase` also maps other Unicode letters, including some that expand to several characters. Mana symbols are ASCII.
- App.Trim: strips the white-space code points of ECMAScript. Their list is written out by hand from the standard's WhiteSpace and LineTerminator productions, instead of being computed from the Unicode database.
- ManaSymbol.Scan: models the regular expression's semantics on this one pattern. It is not a general regular-expression engine.
- Strings are modelled as sequences of Unicode code points, while JavaScript strings are sequences of UTF-16 code units. `MTGCard.RarityGlyph` therefore takes a whole character where `rarity[0]` takes one code unit. The two differ only for an off-enumeration label that starts with a character outside the Basic Multilingual Plane: the code shows a lone surrogate, the model the whole character. The regular expression and `trim` are unaffected, because braces and white space are all single code units.
