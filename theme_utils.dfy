/** Colour conversion and CSS variable naming used when a theme is applied (src/utils/theme.ts). */
module ThemeUtils {
  import opened Types

  predicate IsHexDigit(c: char) {
    '0' <= c <= '9' || 'a' <= c <= 'f' || 'A' <= c <= 'F'
  }

  /** parseInt(c, 16) for one digit, either case. */
  function HexDigitValue(c: char): (v: nat)
    requires IsHexDigit(c)
    ensures v < 16
  {
    if '0' <= c <= '9' then c as int - '0' as int
    else if 'a' <= c <= 'f' then c as int - 'a' as int + 10
    else c as int - 'A' as int + 10
  }

  /** Exactly six hexadecimal digits. */
  predicate IsHexBody(b: string) {
    |b| == 6 && forall i | 0 <= i < 6 :: IsHexDigit(b[i])
  }

  /** The match of /^#?([a-f\d]{2})([a-f\d]{2})([a-f\d]{2})$/i: the six digits, or None. */
  function MatchHexColor(hex: string): Option<string> {
    if IsHexBody(hex) then Some(hex)
    else if |hex| == 7 && hex[0] == '#' && IsHexBody(hex[1..]) then Some(hex[1..])
    else None
  }

  /** The pattern accepts a string exactly when it is six hex digits with or without one leading '#'. */
  lemma MatchAcceptsExactly(hex: string, body: string)
    ensures MatchHexColor(hex) == Some(body) <==> IsHexBody(body) && (hex == body || hex == "#" + body)
  {
    if IsHexBody(body) && hex == "#" + body {
      assert hex[0] == '#' && hex[1..] == body;
      assert !IsHexDigit(hex[0]);
    }
  }

  /** parseInt of a two-digit hex pair. */
  function HexPairValue(hi: char, lo: char): (v: nat)
    requires IsHexDigit(hi) && IsHexDigit(lo)
    ensures v < 256
  {
    16 * HexDigitValue(hi) + HexDigitValue(lo)
  }

  datatype Rgb = Rgb(r: nat, g: nat, b: nat)

  function Channels(body: string): (c: Rgb)
    requires IsHexBody(body)
    ensures c.r < 256 && c.g < 256 && c.b < 256
  {
    Rgb(HexPairValue(body[0], body[1]), HexPairValue(body[2], body[3]), HexPairValue(body[4], body[5]))
  }

  function DigitChar(d: nat): char
    requires d < 10
  {
    ('0' as int + d) as char
  }

  predicate IsDecimalDigit(c: char) {
    '0' <= c <= '9'
  }

  /** The decimal text of a natural number, as a template literal renders it. */
  function NatToString(n: nat): (s: string)
    ensures |s| > 0 && forall i | 0 <= i < |s| :: IsDecimalDigit(s[i])
    ensures |s| > 1 ==> s[0] != '0'
    decreases n
  {
    if n < 10 then [DigitChar(n)] else NatToString(n / 10) + [DigitChar(n % 10)]
  }

  function ParseDecimal(s: string): nat
    requires forall i | 0 <= i < |s| :: IsDecimalDigit(s[i])
  {
    if |s| == 0 then 0
    else
      var last := s[|s| - 1];
      assert IsDecimalDigit(last);
      10 * ParseDecimal(s[..|s| - 1]) + (last as int - '0' as int)
  }

  lemma {:induction false} DecimalRoundTrip(n: nat)
    ensures ParseDecimal(NatToString(n)) == n
    decreases n
  {
    if n >= 10 {
      var s := NatToString(n);
      assert s[..|s| - 1] == NatToString(n / 10);
      DecimalRoundTrip(n / 10);
    }
  }

  /** The three channels in decimal, joined by single spaces. */
  function RgbText(c: Rgb): string {
    NatToString(c.r) + " " + NatToString(c.g) + " " + NatToString(c.b)
  }

  /** hexToRgb: the channels of a matching colour, or black. */
  function HexToRgb(hex: string): string {
    match MatchHexColor(hex)
    case Some(body) => RgbText(Channels(body))
    case None => "0 0 0"
  }

  /** The lower-case hex digit of a value below 16: the inverse of HexDigitValue. */
  function HexChar(d: nat): (c: char)
    requires d < 16
    ensures IsHexDigit(c) && HexDigitValue(c) == d
    ensures !IsUpper(c)
  {
    if d < 10 then ('0' as int + d) as char else ('a' as int + d - 10) as char
  }

  /** Decoding a digit and encoding it back gives the digit in lower case. */
  lemma HexDigitRoundTrip(c: char)
    requires IsHexDigit(c)
    ensures HexChar(HexDigitValue(c)) == LowerChar(c)
  {
  }

  /** Every byte value is the parse of its own two-digit hex pair. */
  lemma HexPairRoundTrip(n: nat)
    requires n < 256
    ensures HexPairValue(HexChar(n / 16), HexChar(n % 16)) == n
  {
  }

  /** "#rrggbb" in lower case for channels below 256. */
  function HexColour(c: Rgb): (s: string)
    requires c.r < 256 && c.g < 256 && c.b < 256
    ensures |s| == 7 && s[0] == '#' && IsHexBody(s[1..])
  {
    "#" + [HexChar(c.r / 16), HexChar(c.r % 16), HexChar(c.g / 16), HexChar(c.g % 16), HexChar(c.b / 16), HexChar(c.b % 16)]
  }

  /** hexToRgb of the hex form of any colour gives back exactly that colour's channels. */
  lemma HexColourDecodes(c: Rgb)
    requires c.r < 256 && c.g < 256 && c.b < 256
    ensures MatchHexColor(HexColour(c)) == Some(HexColour(c)[1..])
    ensures Channels(HexColour(c)[1..]) == c
    ensures HexToRgb(HexColour(c)) == RgbText(c)
  {
    var s := HexColour(c);
    assert !IsHexDigit(s[0]);
    HexPairRoundTrip(c.r);
    HexPairRoundTrip(c.g);
    HexPairRoundTrip(c.b);
  }

  /** The fields of a string between single spaces. */
  function Split(s: string): (r: seq<string>)
    ensures |r| >= 1
  {
    if |s| == 0 then [""]
    else
      var rest := Split(s[1..]);
      if s[0] == ' ' then [""] + rest else [[s[0]] + rest[0]] + rest[1..]
  }

  lemma {:induction false} SplitWithoutSpace(a: string)
    requires forall i | 0 <= i < |a| :: a[i] != ' '
    ensures Split(a) == [a]
  {
    if |a| > 0 {
      SplitWithoutSpace(a[1..]);
      assert [a[0]] + a[1..] == a;
    }
  }

  lemma {:induction false} SplitAtSpace(a: string, t: string)
    requires forall i | 0 <= i < |a| :: a[i] != ' '
    ensures Split(a + " " + t) == [a] + Split(t)
  {
    var s := a + " " + t;
    if |a| == 0 {
      assert s[1..] == t;
    } else {
      assert s[1..] == a[1..] + " " + t;
      SplitAtSpace(a[1..], t);
      assert [a[0]] + a[1..] == a;
    }
  }

  predicate AllDecimal(s: string) {
    |s| > 0 && forall i | 0 <= i < |s| :: IsDecimalDigit(s[i])
  }

  /** Reads back "r g b" text. */
  function ParseRgb(s: string): Option<Rgb> {
    var f := Split(s);
    if |f| == 3 && AllDecimal(f[0]) && AllDecimal(f[1]) && AllDecimal(f[2])
    then Some(Rgb(ParseDecimal(f[0]), ParseDecimal(f[1]), ParseDecimal(f[2])))
    else None
  }

  lemma RgbTextDecodes(c: Rgb)
    ensures ParseRgb(RgbText(c)) == Some(c)
  {
    var r, g, b := NatToString(c.r), NatToString(c.g), NatToString(c.b);
    assert RgbText(c) == r + " " + (g + " " + b);
    SplitAtSpace(r, g + " " + b);
    SplitAtSpace(g, b);
    SplitWithoutSpace(b);
    DecimalRoundTrip(c.r);
    DecimalRoundTrip(c.g);
    DecimalRoundTrip(c.b);
  }

  /** The output is always three decimal numbers of at most 255; black for a string that does not match. */
  lemma HexToRgbDecodes(hex: string)
    ensures var c := ParseRgb(HexToRgb(hex));
      && c.Some? && c.value.r < 256 && c.value.g < 256 && c.value.b < 256
      && c.value == (if MatchHexColor(hex).Some? then Channels(MatchHexColor(hex).value) else Rgb(0, 0, 0))
  {
    match MatchHexColor(hex)
    case Some(body) => RgbTextDecodes(Channels(body));
    case None =>
      assert NatToString(0) == "0";
      assert RgbText(Rgb(0, 0, 0)) == "0 0 0";
      RgbTextDecodes(Rgb(0, 0, 0));
  }

  lemma DecimalExamples()
    ensures NatToString(0) == "0" && NatToString(94) == "94"
    ensures NatToString(34) == "34" && NatToString(197) == "197" && NatToString(255) == "255"
  {
    assert NatToString(19) == "19";
    assert NatToString(25) == "25";
  }

  /** The examples of the documentation comment. */
  lemma GreenExample()
    ensures HexToRgb("#22c55e") == "34 197 94"
  {
    var h := "#22c55e";
    assert !IsHexBody(h);
    assert h[1..] == "22c55e";
    assert IsHexBody(h[1..]);
    assert Channels(h[1..]) == Rgb(34, 197, 94);
    DecimalExamples();
  }

  lemma WhiteExample()
    ensures HexToRgb("#ffffff") == "255 255 255"
  {
    var h := "#ffffff";
    assert !IsHexBody(h);
    assert h[1..] == "ffffff";
    assert IsHexBody(h[1..]);
    assert Channels(h[1..]) == Rgb(255, 255, 255);
    DecimalExamples();
  }

  lemma ShortColourIsBlack()
    ensures HexToRgb("#22c55") == "0 0 0"
  {
    assert !IsHexDigit("#22c55"[0]);
  }

  /** The leading '#' is optional. */
  lemma HashIsOptional(body: string)
    requires |body| == 0 || body[0] != '#'
    ensures HexToRgb("#" + body) == HexToRgb(body)
  {
    var h := "#" + body;
    assert h[1..] == body;
    assert !IsHexDigit(h[0]);
  }

  predicate IsUpper(c: char) {
    'A' <= c <= 'Z'
  }

  function LowerChar(c: char): char {
    if IsUpper(c) then (c as int + 32) as char else c
  }

  function UpperChar(c: char): char {
    if 'a' <= c <= 'z' then (c as int - 32) as char else c
  }

  /** toLowerCase over ASCII letters. */
  function ToLowerAscii(s: string): string {
    seq(|s|, i requires 0 <= i < |s| => LowerChar(s[i]))
  }

  lemma LowerKeepsHexDigits(c: char)
    ensures IsHexDigit(LowerChar(c)) <==> IsHexDigit(c)
    ensures IsHexDigit(c) ==> HexDigitValue(LowerChar(c)) == HexDigitValue(c)
    ensures LowerChar(c) == '#' <==> c == '#'
  {
  }

  lemma LowerKeepsHexBody(b: string)
    ensures IsHexBody(ToLowerAscii(b)) <==> IsHexBody(b)
    ensures IsHexBody(b) ==> Channels(ToLowerAscii(b)) == Channels(b)
  {
    var l := ToLowerAscii(b);
    forall i | 0 <= i < |b|
      ensures IsHexDigit(l[i]) <==> IsHexDigit(b[i])
      ensures IsHexDigit(b[i]) ==> HexDigitValue(l[i]) == HexDigitValue(b[i])
    {
      LowerKeepsHexDigits(b[i]);
    }
  }

  /** Upper- and lower-case digits give the same result (the /i flag). */
  lemma HexCaseInsensitive(hex: string)
    ensures HexToRgb(ToLowerAscii(hex)) == HexToRgb(hex)
  {
    var l := ToLowerAscii(hex);
    LowerKeepsHexBody(hex);
    if |hex| == 7 {
      assert l[1..] == ToLowerAscii(hex[1..]);
      LowerKeepsHexBody(hex[1..]);
      LowerKeepsHexDigits(hex[0]);
    }
  }

  /** key.replace(/([A-Z])/g, '-$1'): a hyphen before every capital. */
  function Hyphenate(key: string): string {
    if |key| == 0 then ""
    else (if IsUpper(key[0]) then ['-', key[0]] else [key[0]]) + Hyphenate(key[1..])
  }

  /** The custom property a colour key is written to. */
  function CssVariableName(key: string): string {
    "--color-" + ToLowerAscii(Hyphenate(key))
  }

  lemma CssNameHasNoCapitals(key: string)
    ensures forall i | 0 <= i < |CssVariableName(key)| :: !IsUpper(CssVariableName(key)[i])
  {
  }

  lemma {:induction false} HyphenateWithoutCapitals(key: string)
    requires forall i | 0 <= i < |key| :: !IsUpper(key[i])
    ensures Hyphenate(key) == key
  {
    if |key| > 0 {
      HyphenateWithoutCapitals(key[1..]);
      assert [key[0]] + key[1..] == key;
    }
  }

  /** A key without capitals is appended as it is. */
  lemma CssNameWithoutCapitals(key: string)
    requires forall i | 0 <= i < |key| :: !IsUpper(key[i])
    ensures CssVariableName(key) == "--color-" + key
  {
    HyphenateWithoutCapitals(key);
    assert ToLowerAscii(key) == key;
  }

  lemma {:induction false} HyphenateConcat(a: string, b: string)
    ensures Hyphenate(a + b) == Hyphenate(a) + Hyphenate(b)
  {
    if |a| > 0 {
      assert (a + b)[1..] == a[1..] + b;
      HyphenateConcat(a[1..], b);
    } else {
      assert a + b == b;
    }
  }

  /** A capital followed by lower-case letters: the capital gets its hyphen, the rest stays. */
  lemma HyphenateWord(c: char, rest: string)
    requires IsUpper(c) && forall i | 0 <= i < |rest| :: !IsUpper(rest[i])
    ensures Hyphenate([c] + rest) == ['-', c] + rest
  {
    assert ([c] + rest)[1..] == rest;
    HyphenateWithoutCapitals(rest);
  }

  lemma HyphenateSnakeHead()
    ensures Hyphenate("snakeHead") == "snake-Head"
  {
    var tail := ['H'] + "ead";
    assert "snakeHead" == "snake" + tail;
    HyphenateConcat("snake", tail);
    HyphenateWithoutCapitals("snake");
    HyphenateWord('H', "ead");
    assert "snake" + (['-', 'H'] + "ead") == "snake-Head";
  }

  /** The example of the documentation comment. */
  lemma SnakeHeadVariableName()
    ensures CssVariableName("snakeHead") == "--color-snake-head"
  {
    HyphenateSnakeHead();
    var l := ToLowerAscii("snake-Head");
    assert l == "snake-head" by {
      assert |l| == 10;
      assert l[6] == 'h';
      assert forall i | 0 <= i < 10 && i != 6 :: l[i] == "snake-Head"[i];
    }
    assert "--color-" + "snake-head" == "--color-snake-head";
  }

  lemma PrimaryVariableName()
    ensures CssVariableName("primary") == "--color-primary"
  {
    CssNameWithoutCapitals("primary");
  }

  /** Reads a CSS key back: "-x" becomes the capital of x. */
  function CamelCase(s: string): string {
    if |s| == 0 then ""
    else if s[0] == '-' && |s| >= 2 then [UpperChar(s[1])] + CamelCase(s[2..])
    else [s[0]] + CamelCase(s[1..])
  }

  lemma {:induction false} CamelCaseInverts(key: string)
    requires '-' !in key
    ensures CamelCase(ToLowerAscii(Hyphenate(key))) == key
  {
    if |key| > 0 {
      assert key == [key[0]] + key[1..];
      var rest := ToLowerAscii(Hyphenate(key[1..]));
      CamelCaseInverts(key[1..]);
      var s := ToLowerAscii(Hyphenate(key));
      if IsUpper(key[0]) {
        assert s == ['-', LowerChar(key[0])] + rest;
        assert s[2..] == rest;
      } else {
        assert s == [key[0]] + rest;
        assert s[1..] == rest;
      }
      assert key == [key[0]] + key[1..];
    }
  }

  /** Distinct hyphen-free keys are written to distinct custom properties. */
  lemma CssNamesAreInjective(k1: string, k2: string)
    requires '-' !in k1 && '-' !in k2
    ensures CssVariableName(k1) == CssVariableName(k2) <==> k1 == k2
  {
    if CssVariableName(k1) == CssVariableName(k2) {
      assert CssVariableName(k1)[8..] == ToLowerAscii(Hyphenate(k1));
      assert CssVariableName(k2)[8..] == ToLowerAscii(Hyphenate(k2));
      CamelCaseInverts(k1);
      CamelCaseInverts(k2);
    }
  }

  /** The colour keys in declaration order, which Object.entries follows. */
  const COLOR_KEYS: seq<string> := ["primary", "primaryDark", "secondary", "background", "surface",
    "surfaceLight", "text", "textSecondary", "snake", "snakeHead", "food", "board", "boardCell"]

  function ColorValues(c: ThemeColors): seq<string> {
    [c.primary, c.primaryDark, c.secondary, c.background, c.surface, c.surfaceLight, c.text,
     c.textSecondary, c.snake, c.snakeHead, c.food, c.board, c.boardCell]
  }

  /** Every colour of the palette matches, so applying it never falls back to black. */
  predicate PaletteIsValid(c: ThemeColors) {
    forall i | 0 <= i < |ColorValues(c)| :: MatchHexColor(ColorValues(c)[i]).Some?
  }

  lemma HashedColourMatches(h: string)
    requires |h| == 7 && h[0] == '#'
    requires IsHexDigit(h[1]) && IsHexDigit(h[2]) && IsHexDigit(h[3])
    requires IsHexDigit(h[4]) && IsHexDigit(h[5]) && IsHexDigit(h[6])
    ensures MatchHexColor(h) == Some(h[1..])
  {
    assert !IsHexDigit(h[0]);
  }

  /** The style writes of applyTheme, in order: each key's custom property and its "r g b" value. */
  function ThemeVariables(theme: Theme): (w: seq<(string, string)>)
    ensures |w| == |COLOR_KEYS|
  {
    var values := ColorValues(theme.colors);
    seq(|COLOR_KEYS|, i requires 0 <= i < |COLOR_KEYS| => (CssVariableName(COLOR_KEYS[i]), HexToRgb(values[i])))
  }

  /** applyTheme writes thirteen different properties, so no colour overwrites another. */
  lemma ThemeVariablesAreDistinct(theme: Theme)
    ensures forall i, j | 0 <= i < j < |ThemeVariables(theme)| :: ThemeVariables(theme)[i].0 != ThemeVariables(theme)[j].0
  {
    var w := ThemeVariables(theme);
    forall i, j | 0 <= i < j < |w| ensures w[i].0 != w[j].0 {
      assert '-' !in COLOR_KEYS[i] && '-' !in COLOR_KEYS[j];
      assert COLOR_KEYS[i] != COLOR_KEYS[j];
      CssNamesAreInjective(COLOR_KEYS[i], COLOR_KEYS[j]);
    }
  }

  /** For a valid palette each write carries the three channels of its colour. */
  lemma ThemeVariablesCarryChannels(theme: Theme)
    requires PaletteIsValid(theme.colors)
    ensures forall i | 0 <= i < |ThemeVariables(theme)| ::
      ParseRgb(ThemeVariables(theme)[i].1) == Some(Channels(MatchHexColor(ColorValues(theme.colors)[i]).value))
  {
    var w := ThemeVariables(theme);
    var v := ColorValues(theme.colors);
    forall i | 0 <= i < |w|
      ensures ParseRgb(w[i].1) == Some(Channels(MatchHexColor(v[i]).value))
    {
      HexToRgbDecodes(v[i]);
    }
  }
}
