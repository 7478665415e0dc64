/**
 * The mana-cost strip of a card: the cost string is split into its
 * brace-delimited symbols by a global scan with the regular expression
 * `\{[^}]+\}`, and each symbol is shown with its braces removed, upper-cased,
 * and colored by its content.
 */
module ManaSymbol {
  import opened Types

  // ---------------------------------------------------------------------------
  // The language of the pattern and the global scan
  // ---------------------------------------------------------------------------

  /**
   * `t` is a word of `\{[^}]+\}`: an opening brace, at least one character that
   * is not a closing brace (an opening brace is allowed), and a closing brace.
   */
  predicate IsToken(t: string) {
    && |t| >= 3
    && t[0] == '{'
    && t[|t| - 1] == '}'
    && forall k :: 0 < k < |t| - 1 ==> t[k] != '}'
  }

  /** The pattern matches `s[i..e]`. */
  predicate MatchesAt(s: string, i: int, e: int) {
    0 <= i < e <= |s| && IsToken(s[i..e])
  }

  /** The first position at or after `k` holding a closing brace, or `|s|` if there is none. */
  function CloseFrom(s: string, k: nat): (j: nat)
    requires k <= |s|
    ensures k <= j <= |s|
    ensures j < |s| ==> s[j] == '}'
    ensures forall m :: k <= m < j ==> s[m] != '}'
    decreases |s| - k
  {
    if k == |s| then |s|
    else if s[k] == '}' then k
    else CloseFrom(s, k + 1)
  }

  /**
   * One attempt of the pattern anchored at position `i`: the end of the match,
   * if there is one. A match anchored at `i` is unique, because `[^}]+` cannot
   * run past the first closing brace.
   */
  function MatchAt(s: string, i: nat): (r: Option<nat>)
    requires i <= |s|
    ensures forall e :: MatchesAt(s, i, e) <==> r == Some(e)
  {
    if i < |s| && s[i] == '{' then
      var j := CloseFrom(s, i + 1);
      forall e | MatchesAt(s, i, e) ensures e == j + 1 {
        MatchEndsAtFirstClose(s, i, e);
      }
      if j < |s| && i + 1 < j then
        assert IsToken(s[i..j + 1]) by {
          var t := s[i..j + 1];
          forall k | 0 < k < |t| - 1 ensures t[k] != '}' {
            assert t[k] == s[i + k];
          }
        }
        Some(j + 1)
      else
        None
    else
      None
  }

  /** A match anchored at `i` ends just after the first closing brace past `i + 1`. */
  lemma MatchEndsAtFirstClose(s: string, i: nat, e: nat)
    requires MatchesAt(s, i, e)
    ensures i + 2 < e && CloseFrom(s, i + 1) == e - 1
  {
    var t := s[i..e];
    assert s[e - 1] == t[|t| - 1] == '}';
    forall m | i < m < e - 1 ensures s[m] != '}' {
      assert s[m] == t[m - i];
    }
  }

  /** One occurrence found by the scan: the match is `s[start..end]`. */
  datatype Span = Span(start: nat, end: nat)

  /** Every span is a match of the pattern. */
  ghost predicate AllMatch(s: string, spans: seq<Span>) {
    forall k :: 0 <= k < |spans| ==> MatchesAt(s, spans[k].start, spans[k].end)
  }

  /** The spans do not overlap and appear in source order. */
  ghost predicate InOrder(spans: seq<Span>) {
    forall a, b :: 0 <= a < b < |spans| ==> spans[a].end <= spans[b].start
  }

  /** Every span starts at or after `from`. */
  ghost predicate StartFrom(spans: seq<Span>, from: nat) {
    forall k :: 0 <= k < |spans| ==> from <= spans[k].start
  }

  /** Position `p` lies inside one of the spans. */
  ghost predicate Covered(spans: seq<Span>, p: nat) {
    exists k :: 0 <= k < |spans| && spans[k].start <= p < spans[k].end
  }

  /** No match of the pattern begins at a position, at or after `from`, that lies outside every span. */
  ghost predicate NoneSkipped(s: string, from: nat, spans: seq<Span>) {
    forall p, e :: from <= p && MatchesAt(s, p, e) ==> Covered(spans, p)
  }

  /**
   * `spans` is what a global, leftmost-first, non-overlapping search for the
   * pattern in `s`, starting at position `from`, finds.
   */
  ghost predicate GlobalMatch(s: string, from: nat, spans: seq<Span>) {
    AllMatch(s, spans) && InOrder(spans) && StartFrom(spans, from) && NoneSkipped(s, from, spans)
  }

  /**
   * The scan itself, as the regular-expression engine runs it with the `g`
   * flag: try the pattern at `i`; on a match record it and resume at its end,
   * otherwise resume one position later.
   */
  function Scan(s: string, i: nat): (spans: seq<Span>)
    requires i <= |s|
    ensures 3 * |spans| <= |s| - i
    decreases |s| - i
  {
    if i == |s| then []
    else match MatchAt(s, i)
      case Some(e) => [Span(i, e)] + Scan(s, e)
      case None => Scan(s, i + 1)
  }

  /** What the scan finds from `i` is the global match from `i`. */
  lemma {:induction false} ScanIsGlobalMatch(s: string, i: nat)
    requires i <= |s|
    ensures GlobalMatch(s, i, Scan(s, i))
    decreases |s| - i
  {
    if i < |s| {
      match MatchAt(s, i)
      case Some(e) =>
        ScanIsGlobalMatch(s, e);
        ScanAfterMatch(s, i, e);
        MatchThenRest(s, i, e, Scan(s, e));
      case None =>
        ScanIsGlobalMatch(s, i + 1);
        ScanAfterMiss(s, i);
        NoMatchThenRest(s, i, Scan(s, i + 1));
    }
  }

  /** A match at `i` followed by the global match from its end is the global match from `i`. */
  lemma MatchThenRest(s: string, i: nat, e: nat, rest: seq<Span>)
    requires MatchesAt(s, i, e) && GlobalMatch(s, e, rest)
    ensures GlobalMatch(s, i, [Span(i, e)] + rest)
  {
    var spans := [Span(i, e)] + rest;
    PrependOrdered(s, i, e, rest);
    PrependNoneSkipped(s, i, e, rest);
  }

  lemma PrependOrdered(s: string, i: nat, e: nat, rest: seq<Span>)
    requires MatchesAt(s, i, e) && AllMatch(s, rest) && InOrder(rest) && StartFrom(rest, e)
    ensures AllMatch(s, [Span(i, e)] + rest) && InOrder([Span(i, e)] + rest)
    ensures StartFrom([Span(i, e)] + rest, i)
  {
    var spans := [Span(i, e)] + rest;
    assert forall k :: 0 < k < |spans| ==> spans[k] == rest[k - 1];
  }

  lemma PrependNoneSkipped(s: string, i: nat, e: nat, rest: seq<Span>)
    requires i < e && NoneSkipped(s, e, rest)
    ensures NoneSkipped(s, i, [Span(i, e)] + rest)
  {
    var spans := [Span(i, e)] + rest;
    forall p, e' | i <= p && MatchesAt(s, p, e') ensures Covered(spans, p) {
      if p < e {
        assert spans[0].start <= p < spans[0].end;
      } else {
        var k :| 0 <= k < |rest| && rest[k].start <= p < rest[k].end;
        assert spans[k + 1] == rest[k];
      }
    }
  }

  /** With no match at `i`, the global match from `i + 1` is the global match from `i`. */
  lemma NoMatchThenRest(s: string, i: nat, spans: seq<Span>)
    requires i < |s| && MatchAt(s, i).None? && GlobalMatch(s, i + 1, spans)
    ensures GlobalMatch(s, i, spans)
  {
    forall p, e | i <= p && MatchesAt(s, p, e) ensures Covered(spans, p) {
      assert p != i;
    }
  }

  /** The global-match conditions determine the spans: the scan is their only solution. */
  lemma {:induction false} ScanIsUnique(s: string, i: nat, spans: seq<Span>)
    requires i <= |s|
    requires GlobalMatch(s, i, spans)
    ensures spans == Scan(s, i)
    decreases |s| - i, 1
  {
    assert |spans| > 0 ==> MatchesAt(s, spans[0].start, spans[0].end);
    if i < |s| {
      match MatchAt(s, i)
      case Some(e) => UniqueAfterMatch(s, i, e, spans);
      case None => UniqueAfterMiss(s, i, spans);
    }
  }

  lemma {:induction false} UniqueAfterMatch(s: string, i: nat, e: nat, spans: seq<Span>)
    requires i < |s| && MatchAt(s, i) == Some(e)
    requires GlobalMatch(s, i, spans)
    ensures spans == Scan(s, i)
    decreases |s| - i, 0
  {
    FirstSpanIsMatch(s, i, e, spans);
    var rest := spans[1..];
    ScanIsUnique(s, e, rest);
    ScanAfterMatch(s, i, e);
    Recompose(spans, Span(i, e), Scan(s, e));
  }

  lemma Recompose(spans: seq<Span>, first: Span, rest: seq<Span>)
    requires spans != [] && spans[0] == first && spans[1..] == rest
    ensures spans == [first] + rest
  {
    assert spans == [spans[0]] + spans[1..];
  }

  lemma {:induction false} UniqueAfterMiss(s: string, i: nat, spans: seq<Span>)
    requires i < |s| && MatchAt(s, i).None?
    requires GlobalMatch(s, i, spans)
    ensures spans == Scan(s, i)
    decreases |s| - i, 0
  {
    NoSpanAtUnmatched(s, i, spans);
    ScanIsUnique(s, i + 1, spans);
    ScanAfterMiss(s, i);
  }

  /** One step of the scan past a match. */
  lemma ScanAfterMatch(s: string, i: nat, e: nat)
    requires i < |s| && MatchAt(s, i) == Some(e)
    ensures e <= |s| && Scan(s, i) == [Span(i, e)] + Scan(s, e)
  {
  }

  /** One step of the scan past a position where nothing matches. */
  lemma ScanAfterMiss(s: string, i: nat)
    requires i < |s| && MatchAt(s, i).None?
    ensures Scan(s, i) == Scan(s, i + 1)
  {
  }

  /** When the pattern matches at `from`, a global match from `from` begins with that match. */
  lemma FirstSpanIsMatch(s: string, from: nat, e: nat, spans: seq<Span>)
    requires from <= |s| && MatchAt(s, from) == Some(e)
    requires GlobalMatch(s, from, spans)
    ensures spans != [] && spans[0] == Span(from, e)
    ensures GlobalMatch(s, e, spans[1..])
  {
    FirstSpanStarts(s, from, e, spans);
    TailIsGlobalMatch(s, spans);
  }

  lemma FirstSpanStarts(s: string, from: nat, e: nat, spans: seq<Span>)
    requires from <= |s| && MatchAt(s, from) == Some(e)
    requires GlobalMatch(s, from, spans)
    ensures spans != [] && spans[0] == Span(from, e)
  {
    assert MatchesAt(s, from, e);
    assert Covered(spans, from);
    var k :| 0 <= k < |spans| && spans[k].start <= from < spans[k].end;
    assert MatchesAt(s, spans[0].start, spans[0].end);
    assert spans[k].start == from;
    assert k == 0;
    assert MatchesAt(s, from, spans[0].end);
  }

  /** Dropping the first span of a global match leaves the global match from that span's end. */
  lemma TailIsGlobalMatch(s: string, spans: seq<Span>)
    requires spans != [] && GlobalMatch(s, spans[0].start, spans)
    ensures GlobalMatch(s, spans[0].end, spans[1..])
  {
    assert MatchesAt(s, spans[0].start, spans[0].end);
    TailOrdered(s, spans);
    DropFirstSpan(s, spans[0].end, spans);
  }

  /** The spans after the first are matches, in order, and start at or after the first one's end. */
  lemma TailOrdered(s: string, spans: seq<Span>)
    requires spans != [] && AllMatch(s, spans) && InOrder(spans)
    ensures AllMatch(s, spans[1..]) && InOrder(spans[1..]) && StartFrom(spans[1..], spans[0].end)
  {
    var rest := spans[1..];
    forall k | 0 <= k < |rest|
      ensures rest[k] == spans[k + 1] && spans[0].end <= rest[k].start
    {
    }
  }

  /** Past the end of the first span, the remaining spans are all that a global match needs. */
  lemma DropFirstSpan(s: string, e: nat, spans: seq<Span>)
    requires spans != [] && spans[0].end == e && InOrder(spans)
    requires NoneSkipped(s, spans[0].start, spans)
    requires spans[0].start <= e
    ensures NoneSkipped(s, e, spans[1..])
  {
    var rest := spans[1..];
    forall p, e' | e <= p && MatchesAt(s, p, e') ensures Covered(rest, p) {
      var k :| 0 <= k < |spans| && spans[k].start <= p < spans[k].end;
      assert k != 0;
      assert rest[k - 1] == spans[k];
    }
  }

  /** When the pattern does not match at `from`, no span of a global match starts there. */
  lemma NoSpanAtUnmatched(s: string, from: nat, spans: seq<Span>)
    requires from < |s| && MatchAt(s, from).None?
    requires GlobalMatch(s, from, spans)
    ensures GlobalMatch(s, from + 1, spans)
  {
    forall k | 0 <= k < |spans| ensures from + 1 <= spans[k].start {
      assert MatchesAt(s, spans[k].start, spans[k].end);
    }
  }

  // ---------------------------------------------------------------------------
  // The symbols of a cost
  // ---------------------------------------------------------------------------

  /** The substrings of `s` that the spans delimit, in the spans' order. */
  function Slices(s: string, spans: seq<Span>): (r: seq<string>)
    requires forall k :: 0 <= k < |spans| ==> spans[k].start <= spans[k].end <= |s|
    ensures |r| == |spans|
    ensures forall k :: 0 <= k < |r| ==> r[k] == s[spans[k].start..spans[k].end]
  {
    if spans == [] then []
    else [s[spans[0].start..spans[0].end]] + Slices(s, spans[1..])
  }

  /**
   * The symbols the cost is split into: the matched substrings in source
   * order, duplicates kept, the empty sequence when nothing matches. Each is a
   * word of the pattern.
   */
  function CostSymbols(cost: string): (symbols: seq<string>)
    ensures |symbols| == |Scan(cost, 0)|
    ensures forall k :: 0 <= k < |symbols| ==> Scan(cost, 0)[k].start < Scan(cost, 0)[k].end <= |cost|
    ensures forall k :: 0 <= k < |symbols| ==>
      symbols[k] == cost[Scan(cost, 0)[k].start..Scan(cost, 0)[k].end]
    ensures forall k :: 0 <= k < |symbols| ==> IsToken(symbols[k])
  {
    var spans := Scan(cost, 0);
    ScanIsGlobalMatch(cost, 0);
    MatchedSlices(cost, spans);
    Slices(cost, spans)
  }

  /** The slices a sequence of matches delimits are words of the pattern. */
  lemma MatchedSlices(s: string, spans: seq<Span>)
    requires AllMatch(s, spans)
    ensures forall k :: 0 <= k < |spans| ==> spans[k].start <= spans[k].end <= |s|
    ensures forall k :: 0 <= k < |spans| ==> IsToken(Slices(s, spans)[k])
  {
    forall k | 0 <= k < |spans| ensures spans[k].start <= spans[k].end <= |s| {
      assert MatchesAt(s, spans[k].start, spans[k].end);
    }
  }

  /** The cost has no symbols exactly when the pattern matches nowhere in it. */
  lemma NoSymbolsIffNoMatch(cost: string)
    ensures CostSymbols(cost) == [] <==> forall p, e :: !MatchesAt(cost, p, e)
  {
    var spans := Scan(cost, 0);
    ScanIsGlobalMatch(cost, 0);
    if spans != [] {
      assert MatchesAt(cost, spans[0].start, spans[0].end);
    }
  }

  /** The concatenation of a sequence of strings. */
  function Join(ts: seq<string>): string
  {
    if ts == [] then [] else ts[0] + Join(ts[1..])
  }

  /** Spans laid end to end from position `from`, one per string of `ts`. */
  function Tiles(ts: seq<string>, from: nat): (spans: seq<Span>)
    ensures |spans| == |ts|
  {
    if ts == [] then [] else [Span(from, from + |ts[0]|)] + Tiles(ts[1..], from + |ts[0]|)
  }

  /** Laid end to end from `from`, the tiles delimit the strings of `ts` inside `s`. */
  lemma {:induction false} TilesDelimit(s: string, from: nat, ts: seq<string>)
    requires from <= |s| && s[from..] == Join(ts)
    ensures forall k :: 0 <= k < |ts| ==>
      Tiles(ts, from)[k].start <= Tiles(ts, from)[k].end <= |s| &&
      s[Tiles(ts, from)[k].start..Tiles(ts, from)[k].end] == ts[k]
    decreases |ts|
  {
    if ts != [] {
      var t, e := ts[0], from + |ts[0]|;
      JoinCons(s, from, ts);
      TilesDelimit(s, e, ts[1..]);
      var tail := Tiles(ts[1..], e);
      assert Tiles(ts, from) == [Span(from, e)] + tail;
      forall k | 0 < k < |ts|
        ensures Tiles(ts, from)[k] == tail[k - 1] && ts[k] == ts[1..][k - 1]
      {
      }
    }
  }

  /** The first string of `ts` occupies the front of `s[from..]`, the rest follow it. */
  lemma JoinCons(s: string, from: nat, ts: seq<string>)
    requires from <= |s| && s[from..] == Join(ts) && ts != []
    ensures from + |ts[0]| <= |s|
    ensures s[from..from + |ts[0]|] == ts[0]
    ensures s[from + |ts[0]|..] == Join(ts[1..])
  {
    var t, e := ts[0], from + |ts[0]|;
    assert s[from..] == t + Join(ts[1..]);
    assert s[from..e] == s[from..][..|t|];
    assert s[e..] == s[from..][|t|..];
  }

  /** Every string of `ts` is a word of the pattern. */
  predicate AllTokens(ts: seq<string>) {
    forall k :: 0 <= k < |ts| ==> IsToken(ts[k])
  }

  /** The strings after the first of a sequence of words are words too. */
  lemma TokensTail(ts: seq<string>)
    requires ts != [] && AllTokens(ts)
    ensures IsToken(ts[0]) && AllTokens(ts[1..])
  {
    var rest := ts[1..];
    forall k | 0 <= k < |rest| ensures IsToken(rest[k]) {
      assert rest[k] == ts[k + 1];
    }
  }

  /** Scanning a string made of whole symbols from a symbol boundary finds exactly those symbols. */
  lemma {:induction false} ScanOfTiles(s: string, from: nat, ts: seq<string>)
    requires from <= |s| && s[from..] == Join(ts)
    requires AllTokens(ts)
    ensures Scan(s, from) == Tiles(ts, from)
    decreases |ts|
  {
    if ts == [] {
      assert |s[from..]| == 0;
      assert from == |s|;
    } else {
      var e, rest := from + |ts[0]|, ts[1..];
      TokensTail(ts);
      calc {
        Scan(s, from);
      == { TileStep(s, from, ts); }
        [Span(from, e)] + Scan(s, e);
      == { ScanOfTiles(s, e, rest); }
        [Span(from, e)] + Tiles(rest, e);
      ==
        Tiles(ts, from);
      }
    }
  }

  /** On a leading symbol the scan records that symbol and resumes right after it. */
  lemma TileStep(s: string, from: nat, ts: seq<string>)
    requires from <= |s| && s[from..] == Join(ts) && ts != [] && IsToken(ts[0])
    ensures from + |ts[0]| <= |s| && s[from + |ts[0]|..] == Join(ts[1..])
    ensures Scan(s, from) == [Span(from, from + |ts[0]|)] + Scan(s, from + |ts[0]|)
  {
    JoinCons(s, from, ts);
    TokenAt(s, from, from + |ts[0]|);
  }

  /** The scan at a match of the pattern records that match and resumes after it. */
  lemma TokenAt(s: string, from: nat, e: nat)
    requires from < e <= |s| && IsToken(s[from..e])
    ensures Scan(s, from) == [Span(from, e)] + Scan(s, e)
  {
    assert MatchesAt(s, from, e);
    ScanAfterMatch(s, from, e);
  }

  /**
   * Splitting a concatenation of well-formed symbols gives the symbols back:
   * on input that is already symbols only, splitting is the inverse of joining.
   */
  lemma {:induction false} SymbolsOfJoin(ts: seq<string>)
    requires AllTokens(ts)
    ensures CostSymbols(Join(ts)) == ts
  {
    var s := Join(ts);
    assert s[0..] == s;
    ScanOfTiles(s, 0, ts);
    TilesDelimit(s, 0, ts);
  }

  /** Splitting is idempotent: joining the symbols of a cost and splitting again changes nothing. */
  lemma SplitJoinSplit(cost: string)
    ensures CostSymbols(Join(CostSymbols(cost))) == CostSymbols(cost)
  {
    SymbolsOfJoin(CostSymbols(cost));
  }

  /** The example cost of the schema description splits into its three symbols. */
  lemma ExampleCost()
    ensures CostSymbols("{2}{W}{U}") == ["{2}", "{W}", "{U}"]
  {
    var ts := ["{2}", "{W}", "{U}"];
    assert Join(ts) == "{2}{W}{U}" by {
      assert Join(ts[2..]) == "{U}";
      assert Join(ts[1..]) == "{W}{U}";
    }
    SymbolsOfJoin(ts);
  }

  /** A repeated symbol is kept twice. */
  lemma RepeatedSymbol()
    ensures CostSymbols("{W}{W}") == ["{W}", "{W}"]
  {
    var ts := ["{W}", "{W}"];
    assert Join(ts) == "{W}{W}" by {
      assert Join(ts[1..]) == "{W}";
    }
    SymbolsOfJoin(ts);
  }

  /** `[^}]` admits an opening brace, so a doubled opening brace belongs to one symbol. */
  lemma DoubledOpeningBrace()
    ensures CostSymbols("{{W}") == ["{{W}"]
  {
    var ts := ["{{W}"];
    assert Join(ts) == "{{W}" by {
      assert Join(ts[1..]) == "";
    }
    SymbolsOfJoin(ts);
  }

  /** Empty braces match nothing; the search moves on and finds the next symbol. */
  lemma EmptyBracesSkipped()
    ensures CostSymbols("{}{W}") == ["{W}"]
  {
    var s := "{}{W}";
    EmptyBracesScan();
    assert s[2..5] == "{W}";
  }

  /** The scan of `{}{W}` fails at 0 and 1 and matches `{W}` at 2. */
  lemma EmptyBracesScan()
    ensures Scan("{}{W}", 0) == [Span(2, 5)]
  {
    var s := "{}{W}";
    assert CloseFrom(s, 1) == 1;
    assert MatchAt(s, 0) == None;
    assert MatchAt(s, 1) == None;
    assert CloseFrom(s, 3) == 4 by {
      assert CloseFrom(s, 4) == 4;
    }
    assert MatchAt(s, 2) == Some(5);
    ScanAfterMiss(s, 0);
    ScanAfterMiss(s, 1);
    ScanAfterMatch(s, 2, 5);
    assert Scan(s, 5) == [];
  }

  // ---------------------------------------------------------------------------
  // One symbol: its content and its color
  // ---------------------------------------------------------------------------

  predicate IsAsciiLower(c: char) {
    'a' <= c <= 'z'
  }

  /** Upper-casing of one character, restricted to the ASCII letters. */
  function UpperChar(c: char): (u: char)
    ensures !IsAsciiLower(u)
    ensures IsAsciiLower(c) ==> u as int == c as int - 32
    ensures !IsAsciiLower(c) ==> u == c
  {
    if IsAsciiLower(c) then (c as int - 32) as char else c
  }

  /** Upper-casing of a string, character by character. */
  function ToUpper(s: string): (r: string)
    ensures |r| == |s|
    ensures forall k :: 0 <= k < |s| ==> r[k] == UpperChar(s[k])
  {
    if s == [] then [] else [UpperChar(s[0])] + ToUpper(s[1..])
  }

  predicate IsBrace(c: char) {
    c == '{' || c == '}'
  }

  /** `s` with every brace removed, all other characters kept in order. */
  function StripBraces(s: string): (r: string)
    ensures |r| <= |s|
    ensures forall k :: 0 <= k < |r| ==> !IsBrace(r[k])
    ensures (forall k :: 0 <= k < |s| ==> !IsBrace(s[k])) ==> r == s
  {
    if s == [] then []
    else if IsBrace(s[0]) then StripBraces(s[1..])
    else [s[0]] + StripBraces(s[1..])
  }

  /** Removing braces distributes over concatenation. */
  lemma {:induction false} StripBracesAppend(a: string, b: string)
    ensures StripBraces(a + b) == StripBraces(a) + StripBraces(b)
  {
    if a == [] {
      assert a + b == b;
    } else {
      assert (a + b)[0] == a[0];
      assert (a + b)[1..] == a[1..] + b;
      StripBracesAppend(a[1..], b);
    }
  }

  /** Removing braces commutes with upper-casing, since braces are not letters. */
  lemma {:induction false} StripBracesToUpper(s: string)
    ensures StripBraces(ToUpper(s)) == ToUpper(StripBraces(s))
  {
    if s != [] {
      assert ToUpper(s)[1..] == ToUpper(s[1..]);
      StripBracesToUpper(s[1..]);
    }
  }

  /**
   * The displayed content of a symbol: the symbol without braces, upper-cased.
   * It holds no brace and no lower-case ASCII letter.
   */
  function Content(symbol: string): (c: string)
    ensures |c| <= |symbol|
    ensures forall k :: 0 <= k < |c| ==> !IsBrace(c[k]) && !IsAsciiLower(c[k])
  {
    ToUpper(StripBraces(symbol))
  }

  /** The content of a symbol `{x}` with no brace inside `x` is `x` upper-cased. */
  lemma ContentOfBraced(x: string)
    requires forall k :: 0 <= k < |x| ==> !IsBrace(x[k])
    ensures Content("{" + x + "}") == ToUpper(x)
  {
    var open, close := "{", "}";
    assert StripBraces(open) == [] by {
      assert open[1..] == [];
    }
    assert StripBraces(close) == [] by {
      assert close[1..] == [];
    }
    assert StripBraces(x) == x;
    StripBracesAppend(open, x);
    assert StripBraces(open + x) == x;
    StripBracesAppend(open + x, close);
    assert StripBraces(open + x + close) == x + [];
  }

  /** Normalising twice is normalising once. */
  lemma {:induction false} ContentIdempotent(symbol: string)
    ensures Content(Content(symbol)) == Content(symbol)
  {
    var c := Content(symbol);
    assert ToUpper(c) == c by {
      forall k | 0 <= k < |c| ensures ToUpper(c)[k] == c[k] {
      }
    }
  }

  /** The five mana colors a symbol can be drawn in, and the neutral default. */
  datatype SymbolColor = WhiteMana | BlueMana | BlackMana | RedMana | GreenMana | GenericMana

  /** The color classes of a content: a fixed entry for W, U, B, R and G, the neutral default otherwise. */
  function ColorClasses(content: string): (c: SymbolColor)
    ensures c == WhiteMana <==> content == "W"
    ensures c == BlueMana <==> content == "U"
    ensures c == BlackMana <==> content == "B"
    ensures c == RedMana <==> content == "R"
    ensures c == GreenMana <==> content == "G"
  {
    if content == "W" then WhiteMana
    else if content == "U" then BlueMana
    else if content == "B" then BlackMana
    else if content == "R" then RedMana
    else if content == "G" then GreenMana
    else GenericMana
  }

  /** The color a symbol is drawn in. */
  /** The color a symbol is drawn in: the class of its content. */
  function SymbolClass(symbol: string): SymbolColor
  {
    ColorClasses(Content(symbol))
  }

  /**
   * A symbol is drawn in a mana color exactly when, braces removed, it is
   * that color's letter in either case.
   */
  lemma ClassByLetter(symbol: string)
    ensures SymbolClass(symbol) == WhiteMana <==> StripBraces(symbol) == "W" || StripBraces(symbol) == "w"
    ensures SymbolClass(symbol) == BlueMana <==> StripBraces(symbol) == "U" || StripBraces(symbol) == "u"
    ensures SymbolClass(symbol) == BlackMana <==> StripBraces(symbol) == "B" || StripBraces(symbol) == "b"
    ensures SymbolClass(symbol) == RedMana <==> StripBraces(symbol) == "R" || StripBraces(symbol) == "r"
    ensures SymbolClass(symbol) == GreenMana <==> StripBraces(symbol) == "G" || StripBraces(symbol) == "g"
  {
    var x := StripBraces(symbol);
    UpperIsLetter(x, 'W', 'w');
    UpperIsLetter(x, 'U', 'u');
    UpperIsLetter(x, 'B', 'b');
    UpperIsLetter(x, 'R', 'r');
    UpperIsLetter(x, 'G', 'g');
  }

  /** A string upper-cases to a capital letter exactly when it is that letter in either case. */
  lemma UpperIsLetter(x: string, up: char, low: char)
    requires 'A' <= up <= 'Z' && low as int == up as int + 32
    ensures ToUpper(x) == [up] <==> x == [up] || x == [low]
  {
    if ToUpper(x) == [up] {
      assert |x| == 1 && UpperChar(x[0]) == up;
      assert x == [x[0]];
    }
  }

  /** Classification ignores ASCII case: symbols equal up to case get the same color. */
  lemma CaseInsensitive(a: string, b: string)
    requires ToUpper(a) == ToUpper(b)
    ensures Content(a) == Content(b)
    ensures SymbolClass(a) == SymbolClass(b)
  {
    StripBracesToUpper(a);
    StripBracesToUpper(b);
    ToUpperIdempotent(StripBraces(a));
    ToUpperIdempotent(StripBraces(b));
  }

  lemma ToUpperIdempotent(s: string)
    ensures ToUpper(ToUpper(s)) == ToUpper(s)
  {
    assert forall k :: 0 <= k < |s| ==> ToUpper(ToUpper(s))[k] == ToUpper(s)[k];
  }

  /** The color of the one-character symbol `{c}`. */
  lemma ClassOfBracedChar(c: char)
    requires !IsBrace(c)
    ensures Content(['{', c, '}']) == [UpperChar(c)]
    ensures SymbolClass(['{', c, '}']) == ColorClasses([UpperChar(c)])
  {
    ContentOfBraced([c]);
    assert ['{', c, '}'] == "{" + [c] + "}";
  }

  /** `{w}` and `{W}` are both white; a generic symbol such as `{2}` or `{X}` gets the default. */
  lemma SymbolClassExamples()
    ensures SymbolClass("{w}") == WhiteMana && SymbolClass("{W}") == WhiteMana
    ensures SymbolClass("{u}") == BlueMana && SymbolClass("{g}") == GreenMana
    ensures SymbolClass("{2}") == GenericMana && SymbolClass("{X}") == GenericMana
  {
    ClassOfBracedChar('w');
    ClassOfBracedChar('W');
    ClassOfBracedChar('u');
    ClassOfBracedChar('g');
    ClassOfBracedChar('2');
    ClassOfBracedChar('X');
    assert UpperChar('w') == 'W' && UpperChar('u') == 'U' && UpperChar('g') == 'G';
  }

  // ---------------------------------------------------------------------------
  // The rendered strip
  // ---------------------------------------------------------------------------

  /** One rendered symbol: its displayed content and its color. */
  datatype SymbolView = SymbolView(content: string, color: SymbolColor)

  function RenderSymbol(symbol: string): (v: SymbolView)
    ensures v.content == Content(symbol) && v.color == ColorClasses(v.content)
  {
    SymbolView(Content(symbol), SymbolClass(symbol))
  }

  /** One rendered symbol per token, in token order. */
  function RenderAll(symbols: seq<string>): (views: seq<SymbolView>)
    ensures |views| == |symbols|
    ensures forall k :: 0 <= k < |views| ==> views[k] == RenderSymbol(symbols[k])
  {
    seq(|symbols|, k requires 0 <= k < |symbols| => RenderSymbol(symbols[k]))
  }

  /** The rendered cost: exactly one symbol per matched token, in token order. */
  function ManaCost(cost: string): (views: seq<SymbolView>)
    ensures |views| == |CostSymbols(cost)|
    ensures forall k :: 0 <= k < |views| ==> views[k] == RenderSymbol(CostSymbols(cost)[k])
  {
    RenderAll(CostSymbols(cost))
  }

  /** The example cost renders as a generic 2, then white, then blue. */
  lemma ExampleCostRendering()
    ensures ManaCost("{2}{W}{U}") == [
      SymbolView("2", GenericMana), SymbolView("W", WhiteMana), SymbolView("U", BlueMana)]
  {
    ExampleCost();
    ExampleSymbolsRendering();
  }

  lemma ExampleSymbolsRendering()
    ensures RenderAll(["{2}", "{W}", "{U}"]) == [
      SymbolView("2", GenericMana), SymbolView("W", WhiteMana), SymbolView("U", BlueMana)]
  {
    ClassOfBracedChar('2');
    ClassOfBracedChar('W');
    ClassOfBracedChar('U');
  }
}
