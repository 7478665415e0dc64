/**
 * The application controller: the session state, the handler that runs one
 * generation (submit, then success or failure), the caption timer, and the
 * pure choices of what the page shows (the spinner, the card or the
 * placeholder; the error banner; whether the submit button is enabled).
 */
module App {
  import opened Types
  import MTGCard

  /** The captions that rotate while a card is being generated. */
  const LoadingMessages: seq<string> := [
    "Channeling Aether...",
    "Consulting the Elder Dragons...",
    "Shuffling the Multiverse...",
    "Igniting the Spark...",
    "Summoning the Great Creator...",
    "Forging Artifacts in the Blind Eternities..."]

  /** The one message every failed generation shows. */
  const FailureMessage: string := "Failed to ignite the spark. Please check your prompt and try again."

  // ---------------------------------------------------------------------------
  // Blank input: String.prototype.trim
  // ---------------------------------------------------------------------------

  /**
   * The code points `trim` removes: ECMAScript WhiteSpace (tab, vertical tab,
   * form feed, space, no-break space, the byte order mark and the other space
   * separators) and LineTerminator (line feed, carriage return, line and
   * paragraph separators).
   */
  predicate IsSpace(c: char) {
    var n := c as int;
    || n == 0x09 || n == 0x0A || n == 0x0B || n == 0x0C || n == 0x0D
    || n == 0x20 || n == 0xA0 || n == 0x1680 || 0x2000 <= n <= 0x200A
    || n == 0x2028 || n == 0x2029 || n == 0x202F || n == 0x205F || n == 0x3000 || n == 0xFEFF
  }

  /** `s` without its leading white space. */
  function TrimStart(s: string): (r: string)
    ensures |r| <= |s| && r == s[|s| - |r|..]
    ensures forall k :: 0 <= k < |s| - |r| ==> IsSpace(s[k])
    ensures r != [] ==> !IsSpace(r[0])
  {
    if s != [] && IsSpace(s[0]) then
      var r := TrimStart(s[1..]);
      assert s[1..][|s| - 1 - |r|..] == s[|s| - |r|..];
      r
    else s
  }

  /** `s` without its trailing white space. */
  function TrimEnd(s: string): (r: string)
    ensures |r| <= |s| && r == s[..|r|]
    ensures forall k :: |r| <= k < |s| ==> IsSpace(s[k])
    ensures r != [] ==> !IsSpace(r[|r| - 1])
  {
    if s != [] && IsSpace(s[|s| - 1]) then TrimEnd(s[..|s| - 1]) else s
  }

  /**
   * `s` without leading and trailing white space: a contiguous piece of `s`
   * that neither starts nor ends with white space, everything cut off on
   * either side being white space.
   */
  function Trim(s: string): (r: string)
    ensures exists i :: TrimmedAt(s, r, i)
    ensures r != [] ==> !IsSpace(r[0]) && !IsSpace(r[|r| - 1])
  {
    var a := TrimStart(s);
    var r := TrimEnd(a);
    assert TrimmedAt(s, r, |s| - |a|) by {
      assert r == a[..|r|];
      forall k | |s| - |a| + |r| <= k < |s| ensures IsSpace(s[k]) {
        assert s[k] == a[k - (|s| - |a|)];
      }
    }
    r
  }

  /** `r` is `s[i..i + |r|]`, and all of `s` outside that piece is white space. */
  ghost predicate TrimmedAt(s: string, r: string, i: int) {
    && 0 <= i && i + |r| <= |s|
    && r == s[i..i + |r|]
    && (forall k :: 0 <= k < i ==> IsSpace(s[k]))
    && (forall k :: i + |r| <= k < |s| ==> IsSpace(s[k]))
  }

  /** The theme is blank when trimming leaves nothing; `!theme.trim()` is true exactly then. */
  predicate IsBlank(theme: string) {
    Trim(theme) == ""
  }

  /** A theme is blank exactly when every character of it is white space. */
  lemma BlankIffAllSpace(theme: string)
    ensures IsBlank(theme) <==> forall k :: 0 <= k < |theme| ==> IsSpace(theme[k])
  {
    var r := Trim(theme);
    var i :| TrimmedAt(theme, r, i);
    if r != [] {
      assert r[0] == theme[i];
    }
  }

  /** A theme made of white space only is blank. */
  lemma AllSpaceIsBlank(theme: string)
    requires forall k :: 0 <= k < |theme| ==> theme[k] == ' '
    ensures IsBlank(theme)
  {
    BlankIffAllSpace(theme);
  }

  /** A theme holding a letter is not blank, whatever surrounds it. */
  lemma LetterIsNotBlank(theme: string, k: nat)
    requires k < |theme| && 'a' <= theme[k] <= 'z'
    ensures !IsBlank(theme)
  {
    BlankIffAllSpace(theme);
  }

  // ---------------------------------------------------------------------------
  // What the page shows
  // ---------------------------------------------------------------------------

  /** The state is internally consistent: the pieces that successful generation sets together agree. */
  predicate Consistent(s: CardState) {
    && (s.data.Some? <==> s.imageUrl.Some?)
    && (s.error == None || s.error == Some(FailureMessage))
    && (s.loading ==> s.error == None)
  }

  /** The three things the display area can show. */
  datatype Display = Spinner(caption: string) | Card(face: MTGCard.CardView) | Placeholder

  /**
   * The display area: the spinner with the current caption while loading;
   * otherwise the card when there is a card and a non-empty image reference;
   * otherwise the placeholder.
   */
  function DisplayArea(s: CardState, idx: nat): (d: Display)
    requires idx < |LoadingMessages|
    ensures d.Spinner? <==> s.loading
    ensures d.Spinner? ==> d.caption == LoadingMessages[idx]
    ensures d.Card? <==> !s.loading && s.data.Some? && MTGCard.Truthy(s.imageUrl)
    ensures d.Card? ==> d.face == MTGCard.RenderCard(s.data.value, s.imageUrl.value)
    ensures d.Placeholder? <==> !s.loading && !(s.data.Some? && MTGCard.Truthy(s.imageUrl))
  {
    if s.loading then Spinner(LoadingMessages[idx])
    else if s.data.Some? && MTGCard.Truthy(s.imageUrl) then Card(MTGCard.RenderCard(s.data.value, s.imageUrl.value))
    else Placeholder
  }

  /** The error banner: shown iff the error is a non-empty string, and then showing it. */
  function ErrorBanner(s: CardState): (banner: Option<string>)
    ensures banner.Some? <==> MTGCard.Truthy(s.error)
    ensures banner.Some? ==> banner == s.error
  {
    if MTGCard.Truthy(s.error) then s.error else None
  }

  /** In a consistent state the banner shows exactly when there is an error, and never while loading. */
  lemma BannerIffError(s: CardState)
    requires Consistent(s)
    ensures ErrorBanner(s).Some? <==> s.error.Some?
    ensures s.loading ==> ErrorBanner(s).None?
  {
  }

  /** The submit button is enabled iff nothing is loading and the theme has a non-space character. */
  function SubmitEnabled(s: CardState, theme: string): (enabled: bool)
    ensures enabled <==> !s.loading && exists k :: 0 <= k < |theme| && !IsSpace(theme[k])
  {
    BlankIffAllSpace(theme);
    !(s.loading || IsBlank(theme))
  }

  // ---------------------------------------------------------------------------
  // The caption timer
  // ---------------------------------------------------------------------------

  /** One timer tick: the caption index advances by one and wraps around after the last caption. */
  function NextMessage(i: nat): (j: nat)
    ensures j < |LoadingMessages|
    ensures i + 1 < |LoadingMessages| ==> j == i + 1
    ensures i + 1 == |LoadingMessages| ==> j == 0
  {
    (i + 1) % |LoadingMessages|
  }

  /** The caption index after `n` ticks from `i`. */
  function Ticks(i: nat, n: nat): (j: nat)
    requires i < |LoadingMessages|
    ensures j < |LoadingMessages|
  {
    if n == 0 then i else NextMessage(Ticks(i, n - 1))
  }

  /** `n` ticks move the index `n` captions on, modulo the number of captions. */
  lemma {:induction false} TicksAdvance(i: nat, n: nat)
    requires i < |LoadingMessages|
    ensures Ticks(i, n) == (i + n) % |LoadingMessages|
  {
    if n > 0 {
      TicksAdvance(i, n - 1);
    }
  }

  /** Six ticks bring the caption back to where it was. */
  lemma FullCycle(i: nat)
    requires i < |LoadingMessages|
    ensures Ticks(i, |LoadingMessages|) == i
  {
    TicksAdvance(i, |LoadingMessages|);
  }

  // ---------------------------------------------------------------------------
  // The session
  // ---------------------------------------------------------------------------

  /** The controller's mutable state: the theme input, the card state, and the caption index. */
  class Session {
    var theme: string
    var state: CardState
    var loadingMessageIdx: nat

    ghost predicate Valid()
      reads this
    {
      loadingMessageIdx < |LoadingMessages| && Consistent(state)
    }

    /** The initial session: empty theme, no card, no image, not loading, no error, first caption. */
    constructor ()
      ensures Valid()
      ensures theme == "" && loadingMessageIdx == 0
      ensures state == CardState(None, None, false, None)
    {
      theme := "";
      state := CardState(None, None, false, None);
      loadingMessageIdx := 0;
    }

    /** Typing into the theme box; the box is disabled while loading. */
    method EditTheme(t: string)
      requires Valid()
      modifies this`theme
      ensures Valid()
      ensures theme == if state.loading then old(theme) else t
    {
      if !state.loading {
        theme := t;
      }
    }

    /**
     * The synchronous start of the handler. A blank theme is ignored;
     * otherwise the state starts loading with its error cleared, keeping the
     * card and image, and the state as it was is returned, since the handler
     * keeps it for its failure path.
     */
    method Submit() returns (captured: Option<CardState>)
      requires Valid()
      modifies this`state
      ensures Valid()
      ensures IsBlank(theme) ==> captured == None && state == old(state)
      ensures !IsBlank(theme) ==>
        captured == Some(old(state)) && state == old(state).(loading := true, error := None)
      ensures captured.Some? ==> Consistent(captured.value)
    {
      if IsBlank(theme) {
        captured := None;
      } else {
        captured := Some(state);
        state := state.(loading := true, error := None);
      }
    }

    /** The generation succeeded: card and image come from the result, loading and error are cleared. */
    method Succeed(result: GenerationResult)
      requires Valid()
      modifies this`state
      ensures Valid()
      ensures state == CardState(Some(result.data), Some(result.imageUrl), false, None)
    {
      state := CardState(Some(result.data), Some(result.imageUrl), false, None);
    }

    /**
     * The generation failed: the state the handler captured at submission comes
     * back with loading cleared and the fixed failure message, so card and
     * image keep their pre-submission values.
     */
    method Fail(captured: CardState)
      requires Valid() && Consistent(captured)
      modifies this`state
      ensures Valid()
      ensures state == captured.(loading := false, error := Some(FailureMessage))
    {
      state := captured.(loading := false, error := Some(FailureMessage));
    }

    /** A tick of the caption timer, which runs only while loading. */
    method Tick()
      requires Valid()
      modifies this`loadingMessageIdx
      ensures Valid()
      ensures loadingMessageIdx == if state.loading then NextMessage(old(loadingMessageIdx)) else old(loadingMessageIdx)
    {
      if state.loading {
        loadingMessageIdx := NextMessage(loadingMessageIdx);
      }
    }

    /**
     * One whole run of the handler with nothing in between: submit, then the
     * generation's outcome (a result, or `None` when it threw).
     */
    method Generate(outcome: Option<GenerationResult>)
      requires Valid()
      modifies this`state
      ensures Valid()
      ensures IsBlank(theme) ==> state == old(state)
      ensures !IsBlank(theme) && outcome.Some? ==>
        state == CardState(Some(outcome.value.data), Some(outcome.value.imageUrl), false, None)
      ensures !IsBlank(theme) && outcome.None? ==>
        state.data == old(state.data) && state.imageUrl == old(state.imageUrl) &&
        !state.loading && state.error == Some(FailureMessage)
    {
      var captured := Submit();
      if captured.Some? {
        match outcome
        case Some(result) => Succeed(result);
        case None => Fail(captured.value);
      }
    }
  }

  /**
   * A session that forged one card and then failed on the next theme still
   * holds the first card and image, now with the failure message; what that
   * state shows is `FailedAfterCard`.
   */
  method FailureKeepsLastCard(first: GenerationResult, concept: string, next: string)
      returns (st: CardState)
    requires !IsBlank(concept) && !IsBlank(next)
    ensures st == CardState(Some(first.data), Some(first.imageUrl), false, Some(FailureMessage))
  {
    var session := new Session();
    session.EditTheme(concept);
    assert !IsBlank(session.theme);
    session.Generate(Some(first));
    assert session.state == CardState(Some(first.data), Some(first.imageUrl), false, None);
    session.EditTheme(next);
    assert !IsBlank(session.theme);
    session.Generate(None);
    st := session.state;
  }

  /** A failure that followed a card leaves that card on display beneath the failure banner. */
  lemma FailedAfterCard(first: GenerationResult, idx: nat)
    requires first.imageUrl != "" && idx < |LoadingMessages|
    ensures var st := CardState(Some(first.data), Some(first.imageUrl), false, Some(FailureMessage));
      DisplayArea(st, idx) == Card(MTGCard.RenderCard(first.data, first.imageUrl)) &&
      ErrorBanner(st) == Some(FailureMessage)
  {
  }
}
