/**
 * `searchLocation` in app.js: read "longitude, latitude" from the search
 * box, fall back to the default site on empty input, and validate before
 * moving the map. `parseFloat` is a parameter of the model.
 */
module LocationSearch {
  import opened Opt

  /** The default site used when the box is empty. */
  const DefaultLon: real := 92.74585837
  const DefaultLat: real := 35.07621963

  /** A JavaScript number as `parseFloat` can return it. */
  datatype JsNumber = NaN | PosInfinity | NegInfinity | Finite(value: real)

  datatype SearchError = InvalidFormat | InvalidNumber | OutOfRange

  datatype SearchOutcome = Located(lon: real, lat: real) | Rejected(error: SearchError)

  /** The characters JavaScript's `trim` removes and `\s` matches. */
  predicate IsJsWhitespace(c: char)
    ensures c == ' ' || c == '\t' || c == '\n' || c == '\r' ==> IsJsWhitespace(c)
    ensures ('0' <= c <= '9') || c == '-' || c == '+' || c == '.' || c == ',' ==> !IsJsWhitespace(c)
  {
    var n := c as int;
    (0x09 <= n <= 0x0D) || n == 0x20 || n == 0xA0 || n == 0x1680 ||
    (0x2000 <= n <= 0x200A) || n == 0x2028 || n == 0x2029 || n == 0x202F ||
    n == 0x205F || n == 0x3000 || n == 0xFEFF
  }

  /** The separators of the split pattern `/[,\s]+/`. */
  predicate IsSeparator(c: char)
    ensures c == ',' || c == ' ' ==> IsSeparator(c)
    ensures ('0' <= c <= '9') || c == '-' || c == '+' || c == '.' ==> !IsSeparator(c)
    ensures IsJsWhitespace(c) ==> IsSeparator(c)
  {
    c == ',' || IsJsWhitespace(c)
  }

  function TrimStart(s: string): (r: string)
    ensures |r| <= |s| && r == s[|s| - |r|..]
    ensures r != [] ==> !IsJsWhitespace(r[0])
    ensures forall i | 0 <= i < |s| - |r| :: IsJsWhitespace(s[i])
    decreases |s|
  {
    if s != [] && IsJsWhitespace(s[0]) then TrimStart(s[1..]) else s
  }

  function TrimEnd(s: string): (r: string)
    ensures |r| <= |s| && r == s[..|r|]
    ensures r != [] ==> !IsJsWhitespace(r[|r| - 1])
    ensures forall i | |r| <= i < |s| :: IsJsWhitespace(s[i])
    decreases |s|
  {
    if s != [] && IsJsWhitespace(s[|s| - 1]) then TrimEnd(s[..|s| - 1]) else s
  }

  /**
   * `String.prototype.trim`: `s` without leading and trailing whitespace,
   * empty exactly when `s` is all whitespace.
   */
  function Trim(s: string): (r: string)
    ensures r != [] ==> !IsJsWhitespace(r[0]) && !IsJsWhitespace(r[|r| - 1])
    ensures r == [] <==> forall i | 0 <= i < |s| :: IsJsWhitespace(s[i])
  {
    TrimEnd(TrimStart(s))
  }

  /** The longest separator-free prefix. */
  function LeadingWord(s: string): (w: string)
    ensures |w| <= |s| && w == s[..|w|]
    ensures forall i | 0 <= i < |w| :: !IsSeparator(w[i])
    ensures |w| < |s| ==> IsSeparator(s[|w|])
    decreases |s|
  {
    if s == [] || IsSeparator(s[0]) then [] else [s[0]] + LeadingWord(s[1..])
  }

  /** `s.split(/[,\s]+/).filter(p => p)`: the maximal separator-free runs, in order. */
  function Tokens(s: string): (ts: seq<string>)
    ensures forall k | 0 <= k < |ts| :: ts[k] != [] && forall i | 0 <= i < |ts[k]| :: !IsSeparator(ts[k][i])
    decreases |s|
  {
    if s == [] then []
    else if IsSeparator(s[0]) then Tokens(s[1..])
    else
      var w := LeadingWord(s);
      [w] + Tokens(s[|w|..])
  }

  function Concat(ts: seq<string>): (s: string)
  {
    if ts == [] then [] else ts[0] + Concat(ts[1..])
  }

  /** The input with every separator taken out. */
  function NonSeparators(s: string): (r: string)
  {
    if s == [] then []
    else (if IsSeparator(s[0]) then [] else [s[0]]) + NonSeparators(s[1..])
  }

  lemma {:induction false} NonSeparatorsAppend(a: string, b: string)
    ensures NonSeparators(a + b) == NonSeparators(a) + NonSeparators(b)
    decreases |a|
  {
    if a == [] {
      assert a + b == b;
    } else {
      assert (a + b)[1..] == a[1..] + b;
      NonSeparatorsAppend(a[1..], b);
    }
  }

  lemma {:induction false} NonSeparatorsOfWord(w: string)
    requires forall i | 0 <= i < |w| :: !IsSeparator(w[i])
    ensures NonSeparators(w) == w
    decreases |w|
  {
    if w != [] {
      NonSeparatorsOfWord(w[1..]);
    }
  }

  /** The tokens lose nothing but separators: joined, they are the input without its separators. */
  lemma {:induction false} TokensKeepEverythingElse(s: string)
    ensures Concat(Tokens(s)) == NonSeparators(s)
    decreases |s|
  {
    if s != [] {
      if IsSeparator(s[0]) {
        TokensKeepEverythingElse(s[1..]);
      } else {
        var w := LeadingWord(s);
        var rest := s[|w|..];
        assert s == w + rest;
        TokensKeepEverythingElse(rest);
        NonSeparatorsAppend(w, rest);
        NonSeparatorsOfWord(w);
        assert Tokens(s) == [w] + Tokens(rest);
        assert ([w] + Tokens(rest))[1..] == Tokens(rest);
      }
    }
  }

  /** Every character of `g` is a separator. */
  predicate AllSeparators(g: string)
  {
    forall i | 0 <= i < |g| :: IsSeparator(g[i])
  }

  /** A part of the split: non-empty and free of separators. */
  predicate IsWord(w: string)
  {
    w != [] && forall i | 0 <= i < |w| :: !IsSeparator(w[i])
  }

  /** `gaps[0] + ts[0] + gaps[1] + ... + ts[n - 1] + gaps[n]`: words interleaved with separator runs. */
  function Spaced(ts: seq<string>, gaps: seq<string>): (s: string)
    requires |gaps| == |ts| + 1
    decreases |ts|
  {
    if ts == [] then gaps[0] else gaps[0] + ts[0] + Spaced(ts[1..], gaps[1..])
  }

  /** After a word, the rest of a well-spaced text is empty or starts with a separator. */
  lemma SpacedAfterWord(ts: seq<string>, gaps: seq<string>)
    requires |ts| >= 1 && WellSpaced(ts, gaps)
    ensures var rest := Spaced(ts[1..], gaps[1..]); rest == [] || IsSeparator(rest[0])
  {
    var rest := Spaced(ts[1..], gaps[1..]);
    if |ts| == 1 {
      assert rest == gaps[1];
    } else {
      var g := gaps[1];
      assert rest == g + (ts[1] + Spaced(ts[2..], gaps[2..]));
      assert rest[0] == g[0];
    }
  }

  /** Words, separator runs around them, and a non-empty run between any two words. */
  predicate WellSpaced(ts: seq<string>, gaps: seq<string>)
  {
    && |gaps| == |ts| + 1
    && (forall k | 0 <= k < |ts| :: IsWord(ts[k]))
    && (forall k | 0 <= k < |gaps| :: AllSeparators(gaps[k]))
    && (forall k | 0 < k < |ts| :: gaps[k] != [])
  }

  /** Leading separators do not change the split. */
  lemma {:induction false} SkipSeparators(g: string, rest: string)
    requires AllSeparators(g)
    ensures Tokens(g + rest) == Tokens(rest)
    decreases |g|
  {
    if g == [] {
      assert g + rest == rest;
    } else {
      assert (g + rest)[0] == g[0];
      assert (g + rest)[1..] == g[1..] + rest;
      SkipSeparators(g[1..], rest);
    }
  }

  /** A word followed by a separator (or by nothing) is the leading word. */
  lemma {:induction false} LeadingWordOf(w: string, rest: string)
    requires forall i | 0 <= i < |w| :: !IsSeparator(w[i])
    requires rest == [] || IsSeparator(rest[0])
    ensures LeadingWord(w + rest) == w
    decreases |w|
  {
    if w == [] {
      assert w + rest == rest;
    } else {
      assert (w + rest)[1..] == w[1..] + rest;
      LeadingWordOf(w[1..], rest);
    }
  }

  /** Splitting words interleaved with separator runs gives back exactly those words. */
  lemma {:induction false} TokensOfSpaced(ts: seq<string>, gaps: seq<string>)
    requires WellSpaced(ts, gaps)
    ensures Tokens(Spaced(ts, gaps)) == ts
    decreases |ts|
  {
    if ts == [] {
      SkipSeparators(gaps[0], []);
      assert gaps[0] + [] == gaps[0];
    } else {
      var w := ts[0];
      var rest := Spaced(ts[1..], gaps[1..]);
      assert WellSpaced(ts[1..], gaps[1..]) by {
        forall k | 0 < k < |ts| - 1 ensures gaps[1..][k] != [] {
          assert gaps[1..][k] == gaps[k + 1];
        }
      }
      TokensOfSpaced(ts[1..], gaps[1..]);
      var s' := w + rest;
      assert Spaced(ts, gaps) == gaps[0] + s';
      SkipSeparators(gaps[0], s');
      SpacedAfterWord(ts, gaps);
      LeadingWordOf(w, rest);
      assert s'[0] == w[0];
      assert s'[|w|..] == rest;
      assert Tokens(s') == [w] + ts[1..];
    }
  }

  /** The separator runs around and between the tokens of `s`. */
  function Gaps(s: string): (g: seq<string>)
    ensures |g| == |Tokens(s)| + 1
    decreases |s|
  {
    if s == [] then [[]]
    else if IsSeparator(s[0]) then
      var g := Gaps(s[1..]);
      [[s[0]] + g[0]] + g[1..]
    else
      var w := LeadingWord(s);
      [[]] + Gaps(s[|w|..])
  }

  /** The gaps are separator runs, one more than the tokens, non-empty between two tokens. */
  lemma {:induction false} GapsWellSpaced(s: string)
    ensures WellSpaced(Tokens(s), Gaps(s))
    ensures s != [] && IsSeparator(s[0]) ==> Gaps(s)[0] != []
    decreases |s|
  {
    if s != [] {
      if IsSeparator(s[0]) {
        GapsWellSpaced(s[1..]);
        var g := Gaps(s[1..]);
        assert Tokens(s) == Tokens(s[1..]);
        assert Gaps(s) == [[s[0]] + g[0]] + g[1..];
      } else {
        var w := LeadingWord(s);
        var rest := s[|w|..];
        GapsWellSpaced(rest);
        var ts := Tokens(rest);
        var g := Gaps(rest);
        assert Tokens(s) == [w] + ts;
        assert Gaps(s) == [[]] + g;
        assert rest != [] ==> IsSeparator(rest[0]);
        assert IsWord(w);
        forall k | 0 < k < |ts| + 1 ensures ([[]] + g)[k] != [] {
          assert ([[]] + g)[k] == g[k - 1];
          if k == 1 {
            assert rest != [];
          }
        }
      }
    }
  }

  lemma SpacedConsGap(c: char, ts: seq<string>, g: seq<string>)
    requires |g| == |ts| + 1
    ensures Spaced(ts, [[c] + g[0]] + g[1..]) == [c] + Spaced(ts, g)
  {
    var g' := [[c] + g[0]] + g[1..];
    assert g'[0] == [c] + g[0];
    if ts != [] {
      assert g'[1..] == g[1..];
      var tail := ts[0] + Spaced(ts[1..], g[1..]);
      assert Spaced(ts, g') == ([c] + g[0]) + tail;
      assert Spaced(ts, g) == g[0] + tail;
    }
  }

  /** Every input is its tokens interleaved with its separator runs. */
  lemma {:induction false} SpacedTokensGaps(s: string)
    ensures Spaced(Tokens(s), Gaps(s)) == s
    decreases |s|
  {
    if s != [] {
      if IsSeparator(s[0]) {
        var g := Gaps(s[1..]);
        SpacedTokensGaps(s[1..]);
        assert Tokens(s) == Tokens(s[1..]);
        assert Gaps(s) == [[s[0]] + g[0]] + g[1..];
        SpacedConsGap(s[0], Tokens(s[1..]), g);
        assert s == [s[0]] + s[1..];
      } else {
        var w := LeadingWord(s);
        var rest := s[|w|..];
        SpacedTokensGaps(rest);
        var ts := [w] + Tokens(rest);
        var g := [[]] + Gaps(rest);
        assert Tokens(s) == ts && Gaps(s) == g;
        assert ts[1..] == Tokens(rest) && g[1..] == Gaps(rest);
        assert Spaced(ts, g) == [] + w + rest;
        assert s == w + rest;
      }
    }
  }

  /** `"1, 2"` splits into the two parts `"1"` and `"2"`. */
  lemma TwoPartExample()
    ensures Tokens("1, 2") == ["1", "2"]
  {
    var ts, gaps := ["1", "2"], ["", ", ", ""];
    assert Spaced(ts, gaps) == "1, 2" by {
      assert Spaced(ts[1..], gaps[1..]) == ", 2" by {
        assert Spaced(ts[1..][1..], gaps[1..][1..]) == "";
      }
    }
    TokensOfSpaced(ts, gaps);
  }

  function IsNaN(x: JsNumber): (b: bool) { x.NaN? }

  /** `x < lo || x > hi` on a JavaScript number that is not NaN. */
  predicate OutsideRange(x: JsNumber, lo: real, hi: real)
    requires !x.NaN?
    ensures OutsideRange(x, lo, hi) <==> !(x.Finite? && lo <= x.value <= hi)
  {
    match x
    case PosInfinity => true
    case NegInfinity => true
    case Finite(v) => v < lo || v > hi
  }

  /** The checks after parsing: NaN first, then the longitude and latitude ranges. */
  function Validate(lon: JsNumber, lat: JsNumber): (r: SearchOutcome)
    ensures r.Located? <==>
      lon.Finite? && lat.Finite? &&
      -180.0 <= lon.value <= 180.0 && -90.0 <= lat.value <= 90.0
    ensures r.Located? ==> r == Located(lon.value, lat.value)
    ensures r == Rejected(InvalidNumber) <==> lon.NaN? || lat.NaN?
    ensures r != Rejected(InvalidFormat)
  {
    if IsNaN(lon) || IsNaN(lat) then Rejected(InvalidNumber)
    else if OutsideRange(lon, -180.0, 180.0) || OutsideRange(lat, -90.0, 90.0) then Rejected(OutOfRange)
    else Located(lon.value, lat.value)
  }

  /** The whole decision of `searchLocation` on the text of the box. */
  function Search(input: string, parseFloat: string -> JsNumber): (r: SearchOutcome)
    ensures Trim(input) == [] ==> r == Located(DefaultLon, DefaultLat)
    ensures r == Rejected(InvalidFormat) <==> Trim(input) != [] && |Tokens(Trim(input))| != 2
    ensures r.Located? ==> -180.0 <= r.lon <= 180.0 && -90.0 <= r.lat <= 90.0
  {
    var coords := Trim(input);
    if coords == [] then Validate(Finite(DefaultLon), Finite(DefaultLat))
    else
      var parts := Tokens(coords);
      if |parts| != 2 then Rejected(InvalidFormat)
      else Validate(parseFloat(parts[0]), parseFloat(parts[1]))
  }

  /** A blank box moves the map to the default site. */
  lemma BlankInputUsesDefault(input: string, parseFloat: string -> JsNumber)
    requires forall i | 0 <= i < |input| :: IsJsWhitespace(input[i])
    ensures Search(input, parseFloat) == Located(DefaultLon, DefaultLat)
  {
    assert Trim(input) == [];
    var v := Validate(Finite(DefaultLon), Finite(DefaultLat));
    assert Search(input, parseFloat) == v;
  }

  /**
   * A non-blank box is accepted exactly when it holds two parts that parse to
   * finite numbers with the longitude in [-180, 180] and the latitude in
   * [-90, 90]; the located point is those two numbers.
   */
  lemma AcceptedExactly(input: string, parseFloat: string -> JsNumber)
    requires exists i | 0 <= i < |input| :: !IsJsWhitespace(input[i])
    ensures var parts := Tokens(Trim(input));
      Search(input, parseFloat).Located? <==>
        && |parts| == 2
        && parseFloat(parts[0]).Finite? && parseFloat(parts[1]).Finite?
        && -180.0 <= parseFloat(parts[0]).value <= 180.0
        && -90.0 <= parseFloat(parts[1]).value <= 90.0
    ensures var parts := Tokens(Trim(input));
      Search(input, parseFloat).Located? ==>
        Search(input, parseFloat) == Located(parseFloat(parts[0]).value, parseFloat(parts[1]).value)
  {
  }

  /** The map view the search moves: where it was last centred by a search. */
  class SearchView {
    var center: Option<(real, real)>

    constructor ()
      ensures center.None?
    {
      center := None;
    }

    /** `searchLocation`: a rejected input changes nothing; an accepted one re-centres the view. */
    method SearchLocation(input: string, parseFloat: string -> JsNumber) returns (r: SearchOutcome)
      modifies this
      ensures r == Search(input, parseFloat)
      ensures r.Rejected? ==> center == old(center)
      ensures r.Located? ==> center == Some((r.lon, r.lat))
    {
      r := Search(input, parseFloat);
      if r.Located? {
        center := Some((r.lon, r.lat));
      }
    }
  }
}
