/**
 * The sprite recolouring script (android/assets/sprites/recolor.py).
 *
 * A colour set derives seven RGBA role colours from one base RGB, after checking that every
 * base channel lies in [20, 235] (the script exits with status 1 otherwise). Sprite paths of
 * one set are found by filtering a directory walk, rewritten towards another set's folder, and
 * the pixels of each sprite are recoloured role by role in place.
 *
 * Python tuples of channels are `seq<int>`; the dictionary of roles is a sequence of
 * (key, colour) pairs in insertion order, which is also the dictionary's iteration order.
 */
module Recolor {
  import opened Wrappers
  import Text

  type Rgb = (int, int, int)

  /** A Python tuple of channels: three or four entries, or as many as `hex_to_rgb` parses. */
  type Color = seq<int>

  /** `sidekicks_rgb`. */
  const Palette: seq<Rgb> := [
    (110, 80, 235), (90, 190, 235), (220, 60, 40), (180, 235, 60), (50, 235, 215),
    (215, 50, 100), (220, 235, 160), (40, 50, 60), (180, 200, 220), (100, 110, 170),
    (50, 180, 180), (235, 150, 130), (50, 100, 225), (175, 225, 235), (175, 175, 235),
    (235, 175, 235), (175, 235, 175), (120, 225, 100), (235, 180, 60), (220, 70, 180),
    (75, 75, 115)
  ]

  /** The seven roles of a colour set; the dictionary is keyed by their names. */
  datatype Role = Principal | Outline | Shade | Mouth | FlashFilling | FlashOutline | FlashShade

  function Name(role: Role): string
  {
    match role
    case Principal => "principal"
    case Outline => "outline"
    case Shade => "shade"
    case Mouth => "mouth"
    case FlashFilling => "flash-filling"
    case FlashOutline => "flash-outline"
    case FlashShade => "flash-shade"
  }

  /** The role a dictionary key names, if any. */
  function RoleNamed(key: string): (r: Option<Role>)
    ensures r.Some? ==> Name(r.value) == key
  {
    if key == "principal" then Some(Principal)
    else if key == "outline" then Some(Outline)
    else if key == "shade" then Some(Shade)
    else if key == "mouth" then Some(Mouth)
    else if key == "flash-filling" then Some(FlashFilling)
    else if key == "flash-outline" then Some(FlashOutline)
    else if key == "flash-shade" then Some(FlashShade)
    else None
  }

  /** Every role's name is a key that names it, and no other key does. */
  lemma RoleNamesRoundTrip(role: Role, key: string)
    ensures RoleNamed(Name(role)) == Some(role)
    ensures RoleNamed(key).None? ==> Name(role) != key
  {
    match role
    case Principal =>
    case Outline => assert "outline"[0] != "principal"[0];
    case Shade => assert "shade"[0] != "principal"[0] && "shade"[0] != "outline"[0];
    case Mouth => assert "mouth"[0] != "principal"[0] && "mouth"[0] != "outline"[0] && "mouth"[0] != "shade"[0];
    case FlashFilling =>
      assert "flash-filling"[0] != "principal"[0] && "flash-filling"[0] != "outline"[0];
      assert "flash-filling"[0] != "shade"[0] && "flash-filling"[0] != "mouth"[0];
    case FlashOutline =>
      assert "flash-outline"[0] != "principal"[0] && "flash-outline"[0] != "outline"[0];
      assert "flash-outline"[0] != "shade"[0] && "flash-outline"[0] != "mouth"[0];
      assert "flash-outline"[6] != "flash-filling"[6];
    case FlashShade =>
      assert "flash-shade"[0] != "principal"[0] && "flash-shade"[0] != "outline"[0];
      assert "flash-shade"[0] != "shade"[0] && "flash-shade"[0] != "mouth"[0];
      assert |"flash-shade"| != |"flash-filling"| && |"flash-shade"| != |"flash-outline"|;
  }

  /** The roles in the order `__init__` inserts them. */
  const Roles: seq<Role> := [Principal, Outline, Shade, Mouth, FlashFilling, FlashOutline, FlashShade]

  lemma EveryRoleHasAColor(rgb: Rgb)
    ensures forall role :: role in RoleColors(rgb)
  {
    forall role
      ensures role in RoleColors(rgb)
    {
      match role
      case Principal =>
      case Outline =>
      case Shade =>
      case Mouth =>
      case FlashFilling =>
      case FlashOutline =>
      case FlashShade =>
    }
  }

  lemma EveryRoleIsListed()
    ensures forall role :: role in Roles
  {
    forall role
      ensures role in Roles
    {
      match role
      case Principal => assert Roles[0] == role;
      case Outline => assert Roles[1] == role;
      case Shade => assert Roles[2] == role;
      case Mouth => assert Roles[3] == role;
      case FlashFilling => assert Roles[4] == role;
      case FlashOutline => assert Roles[5] == role;
      case FlashShade => assert Roles[6] == role;
    }
  }

  /** The process exit status of an invalid base colour. */
  const InvalidColorStatus := 1

  const Opaque := 255

  // ---------------------------------------------------------------- colour sets

  /** A colour set: its base, its code and its dictionary of roles, with the dictionary's key order. */
  datatype ColorSet = ColorSet(rgb: Rgb, code: int, colors: map<Role, Color>, order: seq<Role>) {
    /** `folder_name`: "color" followed by the code in decimal. */
    function FolderName(): string
    {
      "color" + Text.IntToString(code)
    }

    function CodeStr(): string
    {
      Text.IntToString(code)
    }

    /** `__iter__`: the keys in insertion order. */
    function Keys(): (r: seq<string>)
      ensures |r| == |order|
    {
      seq(|order|, i requires 0 <= i < |order| => Name(order[i]))
    }

    /** `color(key)`: a dictionary lookup, with Python's KeyError as the failure. */
    function Color(key: string): (r: Result<Color, string>)
      ensures r.Success? <==> RoleNamed(key).Some? && RoleNamed(key).value in colors
      ensures r.Success? ==> r.value == colors[RoleNamed(key).value]
      ensures r.Failure? ==> r.error == key
    {
      match RoleNamed(key)
      case Some(role) => if role in colors then Success(colors[role]) else Failure(key)
      case None => Failure(key)
    }

    /** A Python dictionary: its key order lists every key exactly once. */
    predicate WellFormed() {
      && (forall i, j :: 0 <= i < j < |order| ==> order[i] != order[j])
      && (forall role :: role in order ==> role in colors)
      && (forall role :: role in colors ==> role in order)
    }
  }

  predicate ChannelValid(c: int) {
    20 <= c <= 235
  }

  predicate RgbValid(rgb: Rgb) {
    ChannelValid(rgb.0) && ChannelValid(rgb.1) && ChannelValid(rgb.2)
  }

  function Shifted(rgb: Rgb, d: int): Color
  {
    [rgb.0 + d, rgb.1 + d, rgb.2 + d]
  }

  /** The dictionary before the alpha loop. */
  function RoleColors(rgb: Rgb): map<Role, Color>
  {
    map[
      Principal := Shifted(rgb, 0),
      Outline := Shifted(rgb, -20),
      Shade := Shifted(rgb, -10),
      Mouth := [rgb.0 / 2, rgb.1 / 2, rgb.2 / 2],
      FlashFilling := Shifted(rgb, 20),
      FlashOutline := Shifted(rgb, 0),
      FlashShade := Shifted(rgb, 10)
    ]
  }

  function WithAlpha(colors: map<Role, Color>): map<Role, Color>
  {
    map role | role in colors :: colors[role] + [Opaque]
  }

  /** What `ColorSet(rgb, code)` produces: the set, or the exit status. */
  function ColorSetOf(rgb: Rgb, code: int): Result<ColorSet, int>
  {
    if RgbValid(rgb) then Success(ColorSet(rgb, code, WithAlpha(RoleColors(rgb)), Roles))
    else Failure(InvalidColorStatus)
  }

  /** `ColorSet.__init__`: the channel check, the seven insertions, then the alpha loop over the keys. */
  method NewColorSet(rgb: Rgb, code: int) returns (r: Result<ColorSet, int>)
    ensures r == ColorSetOf(rgb, code)
  {
    var channels := [rgb.0, rgb.1, rgb.2];
    for i := 0 to 3
      invariant forall k :: 0 <= k < i ==> ChannelValid(channels[k])
    {
      if channels[i] < 20 || 235 < channels[i] {
        return Failure(InvalidColorStatus);
      }
    }
    assert RgbValid(rgb) by {
      assert channels[0] == rgb.0 && channels[1] == rgb.1 && channels[2] == rgb.2;
    }
    var colors := RoleColors(rgb);
    var order := Roles;
    for k := 0 to |order|
      invariant colors.Keys == RoleColors(rgb).Keys
      invariant forall m :: 0 <= m < k ==> colors[order[m]] == RoleColors(rgb)[order[m]] + [Opaque]
      invariant forall m :: k <= m < |order| ==> colors[order[m]] == RoleColors(rgb)[order[m]]
    {
      colors := colors[order[k] := colors[order[k]] + [Opaque]];
    }
    EveryRoleIsListed();
    forall role | role in colors
      ensures colors[role] == WithAlpha(RoleColors(rgb))[role]
    {
      assert role in order;
      var m :| 0 <= m < |order| && order[m] == role;
    }
    assert colors == WithAlpha(RoleColors(rgb));
    return Success(ColorSet(rgb, code, colors, order));
  }

  /** The script exits iff some base channel is outside [20, 235]. */
  lemma ColorSetFailsIffChannelOutOfRange(rgb: Rgb, code: int)
    ensures ColorSetOf(rgb, code).Failure? <==>
      (rgb.0 < 20 || rgb.0 > 235 || rgb.1 < 20 || rgb.1 > 235 || rgb.2 < 20 || rgb.2 > 235)
    ensures ColorSetOf(rgb, code).Failure? ==> ColorSetOf(rgb, code).error == 1
  {
  }

  /** A constructed set is a dictionary that iterates over the seven role names in insertion order. */
  lemma ConstructedSetIsWellFormed(rgb: Rgb, code: int)
    requires RgbValid(rgb)
    ensures ColorSetOf(rgb, code).value.Keys()
      == ["principal", "outline", "shade", "mouth", "flash-filling", "flash-outline", "flash-shade"]
    ensures ColorSetOf(rgb, code).value.WellFormed()
  {
    EveryRoleIsListed();
  }

  /** Looking a role's name up in a constructed set gives that role's derived colour. */
  lemma ColorOfRole(rgb: Rgb, code: int, role: Role)
    requires RgbValid(rgb)
    ensures ColorSetOf(rgb, code).value.Color(Name(role)) == Success(RoleColors(rgb)[role] + [255])
  {
    RoleNamesRoundTrip(role, "");
  }

  /** The seven roles of a valid base, each followed by an opaque alpha. */
  lemma RolesOfValidBase(rgb: Rgb, code: int)
    requires RgbValid(rgb)
    ensures ColorSetOf(rgb, code).value.rgb == rgb && ColorSetOf(rgb, code).value.code == code
    ensures ColorSetOf(rgb, code).value.Color("principal") == Success([rgb.0, rgb.1, rgb.2, 255])
    ensures ColorSetOf(rgb, code).value.Color("outline") == Success([rgb.0 - 20, rgb.1 - 20, rgb.2 - 20, 255])
    ensures ColorSetOf(rgb, code).value.Color("shade") == Success([rgb.0 - 10, rgb.1 - 10, rgb.2 - 10, 255])
    ensures ColorSetOf(rgb, code).value.Color("mouth") == Success([rgb.0 / 2, rgb.1 / 2, rgb.2 / 2, 255])
    ensures ColorSetOf(rgb, code).value.Color("flash-filling") == Success([rgb.0 + 20, rgb.1 + 20, rgb.2 + 20, 255])
    ensures ColorSetOf(rgb, code).value.Color("flash-outline") == Success([rgb.0, rgb.1, rgb.2, 255])
    ensures ColorSetOf(rgb, code).value.Color("flash-shade") == Success([rgb.0 + 10, rgb.1 + 10, rgb.2 + 10, 255])
  {
    var m := RoleColors(rgb);
    ColorOfRole(rgb, code, Principal);
    assert m[Principal] + [255] == [rgb.0, rgb.1, rgb.2, 255];
    ColorOfRole(rgb, code, Outline);
    assert m[Outline] + [255] == [rgb.0 - 20, rgb.1 - 20, rgb.2 - 20, 255];
    ColorOfRole(rgb, code, Shade);
    assert m[Shade] + [255] == [rgb.0 - 10, rgb.1 - 10, rgb.2 - 10, 255];
    ColorOfRole(rgb, code, Mouth);
    assert m[Mouth] + [255] == [rgb.0 / 2, rgb.1 / 2, rgb.2 / 2, 255];
    ColorOfRole(rgb, code, FlashFilling);
    assert m[FlashFilling] + [255] == [rgb.0 + 20, rgb.1 + 20, rgb.2 + 20, 255];
    ColorOfRole(rgb, code, FlashOutline);
    assert m[FlashOutline] + [255] == [rgb.0, rgb.1, rgb.2, 255];
    ColorOfRole(rgb, code, FlashShade);
    assert m[FlashShade] + [255] == [rgb.0 + 10, rgb.1 + 10, rgb.2 + 10, 255];
  }

  /** Any other key is a KeyError. */
  lemma OtherKeysFail(rgb: Rgb, code: int, key: string)
    requires RgbValid(rgb)
    requires forall role :: Name(role) != key
    ensures ColorSetOf(rgb, code).value.Color(key) == Failure(key)
  {
  }

  /** Derived channels are bytes exactly when the base passes the check: [20, 235] is what keeps c - 20 >= 0 and c + 20 <= 255. */
  lemma RoleChannelsAreBytesIffValid(rgb: Rgb)
    ensures RgbValid(rgb) <==>
      forall role, i :: role in WithAlpha(RoleColors(rgb)) && 0 <= i < |WithAlpha(RoleColors(rgb))[role]| ==>
        0 <= WithAlpha(RoleColors(rgb))[role][i] <= 255
  {
    var w := WithAlpha(RoleColors(rgb));
    if !RgbValid(rgb) {
      assert Outline in w && FlashFilling in w;
      if rgb.0 < 20 { assert w[Outline][0] < 0; }
      else if rgb.0 > 235 { assert w[FlashFilling][0] > 255; }
      else if rgb.1 < 20 { assert w[Outline][1] < 0; }
      else if rgb.1 > 235 { assert w[FlashFilling][1] > 255; }
      else if rgb.2 < 20 { assert w[Outline][2] < 0; }
      else { assert w[FlashFilling][2] > 255; }
    }
  }

  /** Every key `set1` iterates over can be looked up in both sets. */
  predicate CanRecolor(set1: ColorSet, set2: ColorSet) {
    forall role :: role in set1.order ==> role in set1.colors && role in set2.colors
  }

  /** Any two sets the constructor builds can recolour one another. */
  lemma ConstructedSetsCanRecolor(rgb1: Rgb, code1: int, rgb2: Rgb, code2: int)
    requires RgbValid(rgb1) && RgbValid(rgb2)
    ensures CanRecolor(ColorSetOf(rgb1, code1).value, ColorSetOf(rgb2, code2).value)
  {
    EveryRoleHasAColor(rgb1);
    EveryRoleHasAColor(rgb2);
  }

  // ---------------------------------------------------------------- hexadecimal codes

  function HexDigit(d: nat): (c: char)
    requires d < 16
  {
    if d < 10 then ('0' as int + d) as char else ('a' as int + d - 10) as char
  }

  /** The lower-case hexadecimal digits of `n`, without leading zeros. */
  function HexDigits(n: nat): (r: string)
    ensures |r| >= 1
  {
    if n < 16 then [HexDigit(n)] else HexDigits(n / 16) + [HexDigit(n % 16)]
  }

  /** Python's `'%02x' % n`: zero-padded to two characters; a sign counts towards the width. */
  function Hex02(n: int): (r: string)
    ensures |r| >= 2
  {
    if n < 0 then "-" + HexDigits(-n)
    else var d := HexDigits(n); if |d| < 2 then "0" + d else d
  }

  /** `rgb_to_hexa`: only the first three entries are formatted. */
  function RgbToHexa(c: Color): (r: string)
    requires |c| >= 3
    ensures |r| >= 7 && r[0] == '#'
  {
    "#" + Hex02(c[0]) + Hex02(c[1]) + Hex02(c[2])
  }

  function HexValue(c: char): Option<nat>
  {
    if '0' <= c <= '9' then Some(c as int - '0' as int)
    else if 'a' <= c <= 'f' then Some(c as int - 'a' as int + 10)
    else if 'A' <= c <= 'F' then Some(c as int - 'A' as int + 10)
    else None
  }

  // ---------------------------------------------------------------- int(s, 16)

  /**
   * The characters `int()` skips around a number, among the ASCII ones: those `str.isspace`
   * holds for, that is tab to carriage return, the separators 0x1c to 0x1f, and the blank.
   */
  predicate IsSpace(c: char)
  {
    c == ' ' || 9 <= c as int <= 13 || 28 <= c as int <= 31
  }

  predicate AllSpace(s: string)
  {
    forall i :: 0 <= i < |s| ==> IsSpace(s[i])
  }

  /** `s.strip()`: `s` without its leading and trailing blanks. */
  function Trim(s: string): (r: string)
    ensures |r| <= |s|
    decreases |s|
  {
    if s == [] then s
    else if IsSpace(s[0]) then Trim(s[1..])
    else if IsSpace(s[|s| - 1]) then Trim(s[..|s| - 1])
    else s
  }

  /** A blank string trims to nothing. */
  lemma {:induction false} TrimBlanks(s: string)
    requires AllSpace(s)
    ensures Trim(s) == []
    decreases |s|
  {
    if s != [] {
      TrimBlanks(s[1..]);
    }
  }

  /** A string without blanks at its ends is its own trim. */
  lemma TrimmedAlready(s: string)
    requires s != [] && !IsSpace(s[0]) && !IsSpace(s[|s| - 1])
    ensures Trim(s) == s
  {
  }

  /**
   * The value of hexadecimal digits with single underscores between them, as `int()` reads
   * them after the sign and the prefix; None for an empty string, a leading, trailing or doubled
   * underscore, or any other character.
   */
  function GroupedValue(s: string): (r: Option<nat>)
    decreases |s|
  {
    if s == [] then None
    else
      match HexValue(s[|s| - 1])
      case None => None
      case Some(d) =>
        if |s| == 1 then Some(d)
        else
          var rest := if s[|s| - 2] == '_' then s[..|s| - 2] else s[..|s| - 1];
          if rest == [] then None
          else
            match GroupedValue(rest)
            case None => None
            case Some(high) => Some(high * 16 + d)
  }

  /** The digits of a literal as PEP 515 allows them: digits, with single underscores between. */
  predicate WellGrouped(s: string)
  {
    s != [] && s[0] != '_' && s[|s| - 1] != '_'
    && (forall i :: 0 <= i < |s| ==> s[i] == '_' || HexValue(s[i]).Some?)
    && (forall i :: 0 <= i < |s| - 1 ==> s[i] == '_' ==> s[i + 1] != '_')
  }

  /** `s` without its underscores. */
  function Digits(s: string): (r: string)
    ensures '_' !in r && |r| <= |s|
  {
    if s == [] then [] else Digits(s[..|s| - 1]) + (if s[|s| - 1] == '_' then [] else [s[|s| - 1]])
  }

  /** A digit's value; a character that is no digit counts as 0. */
  function DigitValue(c: char): (d: nat)
    ensures d < 16
    ensures HexValue(c).Some? ==> d == HexValue(c).value
  {
    match HexValue(c)
    case Some(d) => d
    case None => 0
  }

  /** The positional value of a string of hexadecimal digits, most significant first. */
  function PlainValue(s: string): nat
  {
    if s == [] then 0 else PlainValue(s[..|s| - 1]) * 16 + DigitValue(s[|s| - 1])
  }

  /** The `0x` or `0X` prefix `int(s, 16)` allows, and the one underscore allowed after it, dropped. */
  function DropPrefix(b: string): (r: string)
    ensures |r| <= |b|
  {
    if |b| >= 2 && b[0] == '0' && (b[1] == 'x' || b[1] == 'X') then
      if |b| >= 3 && b[2] == '_' then b[3..] else b[2..]
    else b
  }

  /** Python's `repr` of one character inside the given quotes. */
  function ReprChar(c: char, quote: char): string
  {
    if c == quote || c == '\\' then ['\\', c]
    else if c == '\t' then "\\t"
    else if c == '\n' then "\\n"
    else if c == '\r' then "\\r"
    else if c as int < 32 || c as int == 127 then "\\x" + [HexDigit(c as int / 16), HexDigit(c as int % 16)]
    else [c]
  }

  function ReprBody(s: string, quote: char): (r: string)
    ensures |r| >= |s|
  {
    if s == [] then [] else ReprChar(s[0], quote) + ReprBody(s[1..], quote)
  }

  /**
   * Python's `repr` of a string: in single quotes, or in double quotes when it holds a single
   * quote and no double quote, with the quote, the backslash and the ASCII control characters
   * escaped.
   */
  function Repr(s: string): (r: string)
    ensures |r| >= |s| + 2 && r[0] == r[|r| - 1] && (r[0] == '\'' || r[0] == '"')
  {
    var quote := if '\'' in s && '"' !in s then '"' else '\'';
    [quote] + ReprBody(s, quote) + [quote]
  }

  /** Printable ASCII other than the quote and the backslash is shown as it is, in single quotes. */
  lemma {:induction false} ReprOfPlain(s: string)
    requires forall i :: 0 <= i < |s| ==> 32 <= s[i] as int <= 126 && s[i] != '\'' && s[i] != '\\'
    ensures Repr(s) == "'" + s + "'"
  {
    ReprBodyOfPlain(s);
  }

  lemma {:induction false} ReprBodyOfPlain(s: string)
    requires forall i :: 0 <= i < |s| ==> 32 <= s[i] as int <= 126 && s[i] != '\'' && s[i] != '\\'
    ensures ReprBody(s, '\'') == s
    decreases |s|
  {
    if s != [] {
      ReprBodyOfPlain(s[1..]);
      assert s == [s[0]] + s[1..];
    }
  }

  /** The ValueError `int(s, 16)` raises. */
  const InvalidLiteralPrefix: string := "invalid literal for int() with base 16: "

  /** The longest part of the argument's `repr` the message shows (CPython formats it with `%.200R`). */
  const ReprLimit: nat := 200

  /** The message quotes the argument's `repr`, cut after its first ReprLimit characters. */
  function InvalidLiteral(s: string): (r: string)
    ensures |r| == |InvalidLiteralPrefix| + if |Repr(s)| <= ReprLimit then |Repr(s)| else ReprLimit
    ensures r[..|InvalidLiteralPrefix|] == InvalidLiteralPrefix
    ensures r[|InvalidLiteralPrefix|..] == Repr(s)[..|r| - |InvalidLiteralPrefix|]
  {
    var shown := Repr(s);
    InvalidLiteralPrefix + if |shown| <= ReprLimit then shown else shown[..ReprLimit]
  }

  /** A short literal is quoted whole, closing quote included. */
  lemma ShortLiteralQuotedWhole(s: string)
    requires |Repr(s)| <= ReprLimit
    ensures InvalidLiteral(s) == InvalidLiteralPrefix + Repr(s)
  {
    var r := InvalidLiteral(s);
    assert r == r[..|InvalidLiteralPrefix|] + r[|InvalidLiteralPrefix|..];
  }

  /**
   * A long plain literal is cut: the message ends with the opening quote and the first 199
   * characters of the literal, with no closing quote.
   */
  lemma LongLiteralCut(s: string)
    requires |s| >= ReprLimit
    requires forall i :: 0 <= i < |s| ==> 32 <= s[i] as int <= 126 && s[i] != '\'' && s[i] != '\\'
    ensures InvalidLiteral(s) == InvalidLiteralPrefix + "'" + s[..ReprLimit - 1]
    ensures InvalidLiteral(s)[|InvalidLiteral(s)| - 1] != '\''
  {
    ReprOfPlain(s);
    var q := "'" + s + "'";
    assert q[..ReprLimit] == "'" + s[..ReprLimit - 1];
  }

  /**
   * `int(s, 16)`: surrounding blanks, then an optional '+' or '-', an optional `0x` prefix with
   * one optional underscore, and hexadecimal digits with single underscores between them;
   * anything else is the ValueError quoting the string.
   */
  function ParseHex(s: string): (r: Result<int, string>)
    ensures r.Failure? ==> r.error == InvalidLiteral(s)
  {
    var t := Trim(s);
    var sign := if t != [] && t[0] == '-' then -1 else 1;
    var body := if t != [] && (t[0] == '-' || t[0] == '+') then t[1..] else t;
    match GroupedValue(DropPrefix(body))
    case None => Failure(InvalidLiteral(s))
    case Some(n) => Success(sign * n)
  }

  /** A literal's digits parse exactly when they are well grouped. */
  lemma {:induction false} GroupedValueIffWellGrouped(s: string)
    ensures GroupedValue(s).Some? <==> WellGrouped(s)
    decreases |s|
  {
    if s == [] || HexValue(s[|s| - 1]).None? {
      if s != [] && s[|s| - 1] != '_' {
        assert !(s[|s| - 1] == '_' || HexValue(s[|s| - 1]).Some?);
      }
    } else if |s| >= 2 {
      var rest := if s[|s| - 2] == '_' then s[..|s| - 2] else s[..|s| - 1];
      GroupedPrefix(s, rest);
      if rest != [] {
        GroupedValueIffWellGrouped(rest);
      }
    }
  }

  /** Well-grouped digits are worth the digits left once the underscores are dropped. */
  lemma {:induction false} GroupedValueIsDigits(s: string)
    requires WellGrouped(s)
    ensures GroupedValue(s) == Some(PlainValue(Digits(s)))
    decreases |s|
  {
    var last := s[|s| - 1];
    assert last != '_' && HexValue(last).Some?;
    var d := HexValue(last).value;
    if |s| == 1 {
      assert Digits(s) == Digits([]) + [last];
    } else {
      var rest := if s[|s| - 2] == '_' then s[..|s| - 2] else s[..|s| - 1];
      GroupedPrefixDown(s, rest);
      GroupedValueIsDigits(rest);
      assert GroupedValue(s) == Some(PlainValue(Digits(rest)) * 16 + d);
      DigitsOfPrefix(s, rest);
      var ds := Digits(s);
      assert ds[..|ds| - 1] == Digits(rest) && ds[|ds| - 1] == last;
    }
  }

  /** Dropping the underscores of digits and underscores leaves only digits. */
  lemma {:induction false} DigitsAreHex(s: string)
    requires forall i :: 0 <= i < |s| ==> s[i] == '_' || HexValue(s[i]).Some?
    ensures forall i :: 0 <= i < |Digits(s)| ==> HexValue(Digits(s)[i]).Some?
    decreases |s|
  {
    if s != [] {
      DigitsAreHex(s[..|s| - 1]);
    }
  }

  /** Well-grouped digits stay well grouped without their last digit and the underscore before it. */
  lemma GroupedPrefix(s: string, rest: string)
    requires |s| >= 2 && HexValue(s[|s| - 1]).Some?
    requires rest == if s[|s| - 2] == '_' then s[..|s| - 2] else s[..|s| - 1]
    ensures WellGrouped(s) <==> rest != [] && WellGrouped(rest)
  {
    if rest != [] && WellGrouped(rest) {
      GroupedPrefixUp(s, rest);
    }
    if WellGrouped(s) {
      GroupedPrefixDown(s, rest);
    }
  }

  lemma GroupedPrefixUp(s: string, rest: string)
    requires |s| >= 2 && HexValue(s[|s| - 1]).Some?
    requires rest == if s[|s| - 2] == '_' then s[..|s| - 2] else s[..|s| - 1]
    requires rest != [] && WellGrouped(rest)
    ensures WellGrouped(s)
  {
    forall i | 0 <= i < |s| - 1 && s[i] == '_'
      ensures s[i + 1] != '_'
    {
      if i + 1 < |rest| {
        assert rest[i] == s[i] && rest[i + 1] == s[i + 1];
      }
    }
    assert s[0] == rest[0];
  }

  lemma GroupedPrefixDown(s: string, rest: string)
    requires |s| >= 2 && HexValue(s[|s| - 1]).Some?
    requires rest == if s[|s| - 2] == '_' then s[..|s| - 2] else s[..|s| - 1]
    requires WellGrouped(s)
    ensures rest != [] && WellGrouped(rest)
  {
    if |s| == 2 {
      assert s[|s| - 2] == s[0];
    }
    assert rest != [];
    assert rest[|rest| - 1] != '_' by {
      if s[|s| - 2] == '_' {
        assert rest[|rest| - 1] == s[|s| - 3];
      }
    }
  }

  /** The digits of `s` are those of its prefix `rest` followed by its last digit. */
  lemma DigitsOfPrefix(s: string, rest: string)
    requires |s| >= 2 && HexValue(s[|s| - 1]).Some? && s[|s| - 1] != '_'
    requires rest == if s[|s| - 2] == '_' then s[..|s| - 2] else s[..|s| - 1]
    ensures Digits(s) == Digits(rest) + [s[|s| - 1]]
  {
    var u := s[..|s| - 1];
    assert Digits(s) == Digits(u) + [s[|s| - 1]];
    if s[|s| - 2] == '_' {
      assert u[..|u| - 1] == rest;
      assert Digits(u) == Digits(rest);
    }
  }

  /** The ASCII blanks around a literal change nothing. */
  lemma {:induction false} ParseHexIgnoresBlanks(before: string, s: string, after: string)
    requires AllSpace(before) && AllSpace(after)
    ensures ParseHex(before + s + after).Success? <==> ParseHex(s).Success?
    ensures ParseHex(s).Success? ==> ParseHex(before + s + after) == ParseHex(s)
  {
    TrimAround(before, s, after);
  }

  lemma {:induction false} TrimAround(before: string, s: string, after: string)
    requires AllSpace(before) && AllSpace(after)
    ensures Trim(before + s + after) == Trim(s)
    decreases |before| + |s| + |after|
  {
    var w := before + s + after;
    if before != [] {
      assert w[0] == before[0] && w[1..] == before[1..] + s + after;
      TrimAround(before[1..], s, after);
    } else if s == [] {
      assert w == after;
      TrimBlanks(after);
    } else if IsSpace(s[0]) {
      assert w[0] == s[0] && w[1..] == [] + s[1..] + after;
      TrimAround([], s[1..], after);
    } else if after != [] {
      var a := after[..|after| - 1];
      assert w[0] == s[0] && w[|w| - 1] == after[|after| - 1];
      assert w[..|w| - 1] == [] + s + a;
      TrimAround([], s, a);
    } else {
      assert w == s;
    }
  }

  /** A sign is read before the digits: '-' negates, '+' changes nothing. */
  lemma SignedLiteral(u: string)
    requires u != [] && !IsSpace(u[0]) && u[0] != '+' && u[0] != '-' && !IsSpace(u[|u| - 1])
    requires ParseHex(u).Success?
    ensures ParseHex("-" + u) == Success(-ParseHex(u).value)
    ensures ParseHex("+" + u) == ParseHex(u)
  {
    TrimmedAlready(u);
    TrimmedAlready("-" + u);
    TrimmedAlready("+" + u);
    assert ("-" + u)[1..] == u && ("+" + u)[1..] == u;
  }

  /** Without blanks around it or a sign, a literal is read from its digits after the prefix. */
  lemma ReadUnsigned(s: string)
    requires Trim(s) == s && s != [] && s[0] != '-' && s[0] != '+'
    ensures GroupedValue(DropPrefix(s)).Some? ==> ParseHex(s) == Success(GroupedValue(DropPrefix(s)).value)
  {
  }

  /** Well-grouped digits alone are read as they are. */
  lemma PlainLiteral(u: string)
    requires WellGrouped(u)
    ensures ParseHex(u) == Success(PlainValue(Digits(u)))
  {
    assert !IsSpace(u[0]) && !IsSpace(u[|u| - 1]) && u[0] != '+' && u[0] != '-';
    TrimmedAlready(u);
    assert DropPrefix(u) == u by {
      if |u| >= 2 && u[0] == '0' {
        assert u[1] == '_' || HexValue(u[1]).Some?;
      }
    }
    GroupedValueIsDigits(u);
    ReadUnsigned(u);
  }

  /** `0x` before the digits changes nothing. */
  lemma PrefixedLiteral(u: string)
    requires WellGrouped(u)
    ensures ParseHex("0x" + u) == ParseHex(u)
  {
    var x := "0x" + u;
    assert x[0] == '0' && x[1] == 'x' && x[|x| - 1] == u[|u| - 1] && x[2..] == u;
    assert !IsSpace(u[|u| - 1]) && u[0] != '_';
    TrimmedAlready(x);
    assert DropPrefix(x) == u;
    GroupedValueIsDigits(u);
    ReadUnsigned(x);
    PlainLiteral(u);
  }

  /** `0X` and one underscore before the digits change nothing either. */
  lemma PrefixedUnderscoreLiteral(u: string)
    requires WellGrouped(u)
    ensures ParseHex("0X_" + u) == ParseHex(u)
  {
    var y := "0X_" + u;
    assert y[0] == '0' && y[1] == 'X' && y[2] == '_' && y[|y| - 1] == u[|u| - 1] && y[3..] == u;
    assert !IsSpace(u[|u| - 1]);
    TrimmedAlready(y);
    assert DropPrefix(y) == u;
    GroupedValueIsDigits(u);
    ReadUnsigned(y);
    PlainLiteral(u);
  }

  /** `int(s, 16)` refuses every string of blanks only, the empty one included, and a lone prefix. */
  lemma RefusedEmptyLiterals(s: string)
    requires AllSpace(s)
    ensures ParseHex(s) == Failure(InvalidLiteral(s))
    ensures ParseHex("0x").Failure?
  {
    TrimBlanks(s);
    TrimmedAlready("0x");
    assert DropPrefix("0x") == [];
  }

  /** `int(s, 16)` refuses a stray underscore and a blank after the sign. */
  lemma RefusedMisplacedLiterals()
    ensures ParseHex("_f").Failure? && ParseHex("f_").Failure?
    ensures ParseHex("- f").Failure?
  {
    TrimmedAlready("_f");
    assert "_f"[..0] == [];
    TrimmedAlready("f_");
    TrimmedAlready("- f");
    assert "- f"[1..] == " f" && " f"[..1] == " ";
  }

  /** `s.lstrip(c)`. */
  function LStrip(s: string, c: char): (r: string)
    ensures |r| <= |s| && r == s[|s| - |r|..]
    ensures r != [] ==> r[0] != c
  {
    if s != [] && s[0] == c then LStrip(s[1..], c) else s
  }

  /** `[v[i:i + step] for i in range(0, len(v), step)]`: the last chunk may be shorter. */
  function Chunks(v: string, step: nat): (r: seq<string>)
    requires step > 0
    decreases |v|
  {
    if v == [] then []
    else if |v| <= step then [v]
    else [v[..step]] + Chunks(v[step..], step)
  }

  /** The error is `int()`'s refusal of one of the chunks. */
  predicate RefusesSomeChunk(error: string, chunks: seq<string>)
  {
    exists c :: c in chunks && error == InvalidLiteral(c)
  }

  /** Parses the chunks in order; the first chunk `int()` refuses is named in the error. */
  function ParseAll(chunks: seq<string>): (r: Result<seq<int>, string>)
    ensures r.Success? ==> |r.value| == |chunks|
    ensures r.Failure? ==> RefusesSomeChunk(r.error, chunks)
  {
    if chunks == [] then Success([])
    else
      match ParseHex(chunks[0])
      case Failure(e) => Failure(e)
      case Success(first) =>
        match ParseAll(chunks[1..])
        case Failure(e) => Failure(e)
        case Success(rest) => Success([first] + rest)
  }

  /**
   * `hex_to_rgb`: strips the leading '#'s, cuts the rest into chunks of a third of its length,
   * parses each chunk and appends an opaque alpha. Fewer than three characters make the
   * `range` step 0, which Python rejects.
   */
  function HexToRgb(value: string): (r: Result<Color, string>)
    ensures var v := LStrip(value, '#');
      && (|v| < 3 ==> r == Failure("range() arg 3 must not be zero"))
      && (r.Failure? && |v| >= 3 ==> RefusesSomeChunk(r.error, Chunks(v, |v| / 3)))
    ensures r.Success? ==> |r.value| >= 2 && r.value[|r.value| - 1] == Opaque
  {
    var v := LStrip(value, '#');
    if |v| < 3 then Failure("range() arg 3 must not be zero")
    else
      var parsed := ParseAll(Chunks(v, |v| / 3));
      if parsed.Failure? then Failure(parsed.error) else Success(parsed.value + [Opaque])
  }

  lemma Hex02OfByte(n: int)
    requires 0 <= n <= 255
    ensures Hex02(n) == [HexDigit(n / 16), HexDigit(n % 16)]
  {
    if n >= 16 {
      assert HexDigits(n) == HexDigits(n / 16) + [HexDigit(n % 16)];
    }
  }

  lemma ParseTwoHexDigits(a: nat, b: nat)
    requires a < 16 && b < 16
    ensures ParseHex([HexDigit(a), HexDigit(b)]) == Success(a * 16 + b)
  {
    var s := [HexDigit(a), HexDigit(b)];
    assert HexValue(s[0]) == Some(a) && HexValue(s[1]) == Some(b);
    TrimmedAlready(s);
    assert DropPrefix(s) == s;
    assert s[..1] == [HexDigit(a)];
    assert GroupedValue(s[..1]) == Some(a);
  }

  lemma StripOneHash(digits: string)
    requires digits != [] && digits[0] != '#'
    ensures LStrip("#" + digits, '#') == digits
  {
    assert ("#" + digits)[1..] == digits;
  }

  /** A chunk of `step` characters followed by the chunks of the rest. */
  lemma ChunksCons(head: string, rest: string, step: nat)
    requires step > 0 && |head| == step && rest != []
    ensures Chunks(head + rest, step) == [head] + Chunks(rest, step)
  {
    var v := head + rest;
    assert v[..step] == head && v[step..] == rest;
  }

  /** Three chunks of one length are cut apart again. */
  lemma CutIntoThirds(a: string, b: string, c: string)
    requires |a| == |b| == |c| > 0
    ensures Chunks(a + b + c, |a|) == [a, b, c]
  {
    var k := |a|;
    assert Chunks(c, k) == [c];
    ChunksCons(b, c, k);
    assert Chunks(b + c, k) == [b, c];
    ChunksCons(a, b + c, k);
    assert a + b + c == a + (b + c);
  }

  lemma ParseAllCons(x: string, rest: seq<string>, u: int, parsed: seq<int>)
    requires ParseHex(x) == Success(u) && ParseAll(rest) == Success(parsed)
    ensures ParseAll([x] + rest) == Success([u] + parsed)
  {
    assert ([x] + rest)[0] == x && ([x] + rest)[1..] == rest;
  }

  lemma ParseThree(x: string, y: string, z: string, u: int, v: int, w: int)
    requires ParseHex(x) == Success(u) && ParseHex(y) == Success(v) && ParseHex(z) == Success(w)
    ensures ParseAll([x, y, z]) == Success([u, v, w])
  {
    ParseAllCons(z, [], w, []);
    assert [z] + [] == [z] && [w] + [] == [w];
    ParseAllCons(y, [z], v, [w]);
    assert [y] + [z] == [y, z] && [v] + [w] == [v, w];
    ParseAllCons(x, [y, z], u, [v, w]);
    assert [x] + [y, z] == [x, y, z] && [u] + [v, w] == [u, v, w];
  }

  /** One channel formats as two hex digits that parse back to it. */
  lemma ByteAsPair(n: int)
    requires 0 <= n <= 255
    ensures |Hex02(n)| == 2 && Hex02(n)[0] != '#' && ParseHex(Hex02(n)) == Success(n)
  {
    Hex02OfByte(n);
    ParseTwoHexDigits(n / 16, n % 16);
  }

  /**
   * Three chunks of one length, after one '#' or none, decode to their three values and an
   * opaque alpha.
   */
  lemma DecodeThirds(x: string, y: string, z: string, u: int, v: int, w: int)
    requires |x| == |y| == |z| > 0 && x[0] != '#'
    requires ParseHex(x) == Success(u) && ParseHex(y) == Success(v) && ParseHex(z) == Success(w)
    ensures HexToRgb("#" + (x + y + z)) == Success([u, v, w, 255])
    ensures HexToRgb(x + y + z) == Success([u, v, w, 255])
  {
    var digits := x + y + z;
    StripOneHash(digits);
    assert LStrip(digits, '#') == digits;
    assert |digits| / 3 == |x|;
    CutIntoThirds(x, y, z);
    ParseThree(x, y, z, u, v, w);
    assert ParseAll(Chunks(digits, |x|)) == Success([u, v, w]);
    assert [u, v, w] + [Opaque] == [u, v, w, 255];
  }

  /** Decoding a formatted colour gives back its three channels with an opaque alpha. */
  lemma HexRoundTrip(c: Color)
    requires |c| >= 3 && forall i :: 0 <= i < 3 ==> 0 <= c[i] <= 255
    ensures HexToRgb(RgbToHexa(c)) == Success([c[0], c[1], c[2], 255])
  {
    ByteAsPair(c[0]);
    ByteAsPair(c[1]);
    ByteAsPair(c[2]);
    var x, y, z := Hex02(c[0]), Hex02(c[1]), Hex02(c[2]);
    assert RgbToHexa(c) == "#" + (x + y + z);
    DecodeThirds(x, y, z, c[0], c[1], c[2]);
  }

  /** `int(s, 16)` reads a sign, so a chunk may carry one. */
  lemma PlusSignedChannels()
    ensures HexToRgb("+ff+ff+ff") == Success([255, 255, 255, 255])
  {
    ParseTwoHexDigits(15, 15);
    assert [HexDigit(15), HexDigit(15)] == "ff";
    SignedLiteral("ff");
    assert "+ff" + "+ff" + "+ff" == "+ff+ff+ff";
    DecodeThirds("+ff", "+ff", "+ff", 255, 255, 255);
  }

  /** A '-' sign gives a negative channel, which `hex_to_rgb` passes on. */
  lemma MinusSignedChannels()
    ensures HexToRgb("#-0f-0f-0f") == Success([-15, -15, -15, 255])
  {
    ParseTwoHexDigits(0, 15);
    assert [HexDigit(0), HexDigit(15)] == "0f";
    SignedLiteral("0f");
    assert "#" + ("-0f" + "-0f" + "-0f") == "#-0f-0f-0f";
    DecodeThirds("-0f", "-0f", "-0f", -15, -15, -15);
  }

  // ---------------------------------------------------------------- paths

  /** `new_path`'s segment rule: a segment containing "color" becomes the folder name. */
  function RenamedSegment(segment: string, folder: string): string
  {
    if Text.Contains(segment, "color") then folder else segment
  }

  function RenamedSegments(segments: seq<string>, folder: string): (r: seq<string>)
    ensures |r| == |segments|
  {
    seq(|segments|, i requires 0 <= i < |segments| => RenamedSegment(segments[i], folder))
  }

  /** `new_path(path, color_set)`. */
  function NewPath(path: string, cs: ColorSet): string
  {
    Text.Join(RenamedSegments(Text.Split(path, '/'), cs.FolderName()), '/')
  }

  lemma FolderNameShape(cs: ColorSet)
    ensures '/' !in cs.FolderName()
    ensures Text.Contains(cs.FolderName(), "color")
  {
    var n := Text.IntToString(cs.code);
    var digits := Text.NatToString(if cs.code < 0 then -cs.code else cs.code);
    assert '/' !in digits by {
      forall i | 0 <= i < |digits| ensures digits[i] != '/' {
        assert '0' <= digits[i] <= '9';
      }
    }
    assert n == (if cs.code < 0 then "-" else "") + digits;
    assert cs.FolderName()[..5] == "color";
    Text.ContainsAt(cs.FolderName(), "color", 0);
  }

  /** The segments of a rewritten path are the rewritten segments of the original. */
  lemma NewPathSegments(path: string, cs: ColorSet)
    ensures Text.Split(NewPath(path, cs), '/') == RenamedSegments(Text.Split(path, '/'), cs.FolderName())
  {
    var segments := Text.Split(path, '/');
    var renamed := RenamedSegments(segments, cs.FolderName());
    Text.JoinSplit(path, '/');
    FolderNameShape(cs);
    assert forall i :: 0 <= i < |renamed| ==> '/' !in renamed[i];
    Text.SplitJoin(renamed, '/');
  }

  /** `new_path` keeps the number of segments, keeps segments without "color" and replaces the others. */
  lemma NewPathRewritesSegments(path: string, cs: ColorSet)
    ensures |Text.Split(NewPath(path, cs), '/')| == |Text.Split(path, '/')|
    ensures forall i :: 0 <= i < |Text.Split(path, '/')| ==>
      Text.Split(NewPath(path, cs), '/')[i] ==
        if Text.Contains(Text.Split(path, '/')[i], "color") then cs.FolderName() else Text.Split(path, '/')[i]
  {
    NewPathSegments(path, cs);
  }

  /** Rewriting towards B then towards A is rewriting towards A; in particular `new_path` is idempotent. */
  lemma NewPathOverwrites(path: string, a: ColorSet, b: ColorSet)
    ensures NewPath(NewPath(path, b), a) == NewPath(path, a)
    ensures NewPath(NewPath(path, a), a) == NewPath(path, a)
  {
    var segments := Text.Split(path, '/');
    NewPathSegments(path, b);
    FolderNameShape(b);
    assert RenamedSegments(RenamedSegments(segments, b.FolderName()), a.FolderName())
        == RenamedSegments(segments, a.FolderName());
    NewPathSegments(path, a);
    FolderNameShape(a);
    assert RenamedSegments(RenamedSegments(segments, a.FolderName()), a.FolderName())
        == RenamedSegments(segments, a.FolderName());
  }

  /** The directory test of `all_paths_of_set`: `"" in root.split(folder_name)`. */
  predicate Selected(root: string, folder: string)
    requires |folder| > 0
  {
    "" in Text.SplitOn(root, folder)
  }

  /**
   * A root in which the folder name occurs once, after a non-empty prefix, is selected iff it
   * ends there: "./caps/color1" is selected for color1, but "./caps/color10" and
   * "./caps/color1/small" are not.
   */
  lemma SelectedIffFolderEndsRoot(prefix: string, folder: string, tail: string)
    requires |folder| > 0 && prefix != []
    requires forall j :: 0 <= j < |prefix| ==> !Text.OccursAt(prefix + folder + tail, folder, j)
    requires !Text.Contains(tail, folder)
    ensures Text.SplitOn(prefix + folder + tail, folder) == [prefix, tail]
    ensures Selected(prefix + folder + tail, folder) <==> tail == ""
  {
    var root := prefix + folder + tail;
    assert root[|prefix|..|prefix| + |folder|] == folder;
    assert Text.OccursAt(root, folder, |prefix|);
    var found := Text.IndexOf(root, folder);
    assert found == Some(|prefix|);
    assert root[..|prefix|] == prefix;
    assert root[|prefix| + |folder|..] == tail;
    assert Text.SplitOn(tail, folder) == [tail];
  }

  /** `os.path.join(root, file)` on a POSIX system. */
  function PathJoin(root: string, file: string): string
  {
    if file != [] && file[0] == '/' then file
    else if root == [] || root[|root| - 1] == '/' then root + file
    else root + "/" + file
  }

  /** `s.replace("\\", "/")`. */
  function Slashed(s: string): (r: string)
    ensures |r| == |s| && '\\' !in r
  {
    seq(|s|, i requires 0 <= i < |s| => if s[i] == '\\' then '/' else s[i])
  }

  function FilePath(root: string, file: string): string
  {
    Slashed(PathJoin(root, file))
  }

  /** The paths `all_paths_of_set` collects from a walk of (root, files) entries. */
  function SelectedPaths(walk: seq<(string, seq<string>)>, folder: string): seq<string>
    requires |folder| > 0
  {
    if walk == [] then []
    else
      var last := walk[|walk| - 1];
      SelectedPaths(walk[..|walk| - 1], folder)
        + (if Selected(last.0, folder) then seq(|last.1|, k requires 0 <= k < |last.1| => FilePath(last.0, last.1[k])) else [])
  }

  /** A path is collected iff it is a file of a selected root. */
  lemma {:induction false} SelectedPathsMembership(walk: seq<(string, seq<string>)>, folder: string, p: string)
    requires |folder| > 0
    ensures p in SelectedPaths(walk, folder) <==>
      exists i, k :: 0 <= i < |walk| && Selected(walk[i].0, folder) && 0 <= k < |walk[i].1| && p == FilePath(walk[i].0, walk[i].1[k])
    decreases |walk|
  {
    if walk != [] {
      var init := walk[..|walk| - 1];
      SelectedPathsMembership(init, folder, p);
      assert forall i :: 0 <= i < |init| ==> init[i] == walk[i];
    }
  }

  /**
   * `all_paths_of_set(path, color_set)` over the entries the directory walk of "./" + path yields.
   * The folder name is never empty, so the split is well defined.
   */
  method AllPathsOfSet(walk: seq<(string, seq<string>)>, cs: ColorSet) returns (paths: seq<string>)
    ensures |cs.FolderName()| > 0
    ensures paths == SelectedPaths(walk, cs.FolderName())
  {
    var folder := cs.FolderName();
    paths := [];
    for i := 0 to |walk|
      invariant paths == SelectedPaths(walk[..i], folder)
    {
      var (root, files) := walk[i];
      assert walk[..i + 1][..i] == walk[..i];
      if Selected(root, folder) {
        ghost var before := paths;
        for k := 0 to |files|
          invariant paths == before + seq(k, m requires 0 <= m < k => FilePath(root, files[m]))
        {
          paths := paths + [FilePath(root, files[k])];
        }
      }
    }
    assert walk[..|walk|] == walk;
  }

  // ---------------------------------------------------------------- pixels

  /** The pixel after the key loop of `replace_colors`, from the `k`-th key of `set1` on. */
  function ReplacedFrom(p: Color, set1: ColorSet, set2: ColorSet, k: nat): Color
    requires CanRecolor(set1, set2)
    decreases |set1.order| - k
  {
    if k >= |set1.order| then p
    else
      var key := set1.order[k];
      var next := if set1.colors[key] == p then set2.colors[key] else p;
      ReplacedFrom(next, set1, set2, k + 1)
  }

  /** The pixel after all keys: each key compares against the value left by the previous ones. */
  function ReplacedPixel(p: Color, set1: ColorSet, set2: ColorSet): Color
    requires CanRecolor(set1, set2)
  {
    ReplacedFrom(p, set1, set2, 0)
  }

  /** The inner key loop on one pixel, writing to the image at every match. */
  method ReplacePixel(pix: array2<Color>, i: nat, j: nat, set1: ColorSet, set2: ColorSet)
    requires i < pix.Length0 && j < pix.Length1
    requires CanRecolor(set1, set2)
    modifies pix
    ensures pix[i, j] == ReplacedPixel(old(pix[i, j]), set1, set2)
    ensures forall a, b :: 0 <= a < pix.Length0 && 0 <= b < pix.Length1 && (a != i || b != j) ==> pix[a, b] == old(pix[a, b])
  {
    for k := 0 to |set1.order|
      invariant ReplacedFrom(pix[i, j], set1, set2, k) == ReplacedPixel(old(pix[i, j]), set1, set2)
      invariant forall a, b :: 0 <= a < pix.Length0 && 0 <= b < pix.Length1 && (a != i || b != j) ==> pix[a, b] == old(pix[a, b])
    {
      var key := Name(set1.order[k]);
      RoleNamesRoundTrip(set1.order[k], key);
      if set1.Color(key).value == pix[i, j] {
        pix[i, j] := set2.Color(key).value;
      }
    }
  }

  /** `replace_colors`: every pixel of the 64 x 64 corner is recoloured on its own; the rest of the image is untouched. */
  method ReplaceColors(pix: array2<Color>, set1: ColorSet, set2: ColorSet)
    requires pix.Length0 >= 64 && pix.Length1 >= 64
    requires CanRecolor(set1, set2)
    modifies pix
    ensures forall a, b :: 0 <= a < pix.Length0 && 0 <= b < pix.Length1 ==>
      pix[a, b] == if a < 64 && b < 64 then ReplacedPixel(old(pix[a, b]), set1, set2) else old(pix[a, b])
  {
    for i := 0 to 64
      invariant forall a, b :: 0 <= a < pix.Length0 && 0 <= b < pix.Length1 ==>
        pix[a, b] == if a < i && b < 64 then ReplacedPixel(old(pix[a, b]), set1, set2) else old(pix[a, b])
    {
      for j := 0 to 64
        invariant forall a, b :: 0 <= a < pix.Length0 && 0 <= b < pix.Length1 ==>
          pix[a, b] == if (a < i && b < 64) || (a == i && b < j) then ReplacedPixel(old(pix[a, b]), set1, set2) else old(pix[a, b])
      {
        ReplacePixel(pix, i, j, set1, set2);
      }
    }
  }

  /** A pixel matching no colour of `set1` is left as it is. */
  lemma {:induction false} UnmatchedPixelUnchanged(p: Color, set1: ColorSet, set2: ColorSet, k: nat)
    requires CanRecolor(set1, set2)
    requires forall role :: role in set1.colors ==> set1.colors[role] != p
    ensures ReplacedFrom(p, set1, set2, k) == p
    decreases |set1.order| - k
  {
    if k < |set1.order| {
      UnmatchedPixelUnchanged(p, set1, set2, k + 1);
    }
  }

  /** Recolouring towards a set with the same colours changes nothing. */
  lemma {:induction false} SameColorsChangeNothing(p: Color, set1: ColorSet, set2: ColorSet, k: nat)
    requires set2.colors == set1.colors
    requires CanRecolor(set1, set2)
    ensures ReplacedFrom(p, set1, set2, k) == p
    decreases |set1.order| - k
  {
    if k < |set1.order| {
      SameColorsChangeNothing(p, set1, set2, k + 1);
    }
  }

  /** Two sets built from the same base colour have the same colours, whatever their codes. */
  lemma SameBaseSameColors(rgb: Rgb, code1: int, code2: int)
    requires RgbValid(rgb)
    ensures ColorSetOf(rgb, code1).value.colors == ColorSetOf(rgb, code2).value.colors
    ensures CanRecolor(ColorSetOf(rgb, code1).value, ColorSetOf(rgb, code2).value)
  {
    ConstructedSetsCanRecolor(rgb, code1, rgb, code2);
  }

  /** The position in `order`, from `k` on, of the first key whose `colors` entry is `p`. */
  function FirstMatch(p: Color, colors: map<Role, Color>, order: seq<Role>, k: nat): (r: Option<nat>)
    requires forall role :: role in order ==> role in colors
    ensures r.Some? ==> k <= r.value < |order| && colors[order[r.value]] == p
    ensures r.Some? ==> forall m :: k <= m < r.value ==> colors[order[m]] != p
    ensures r.None? ==> forall m :: k <= m < |order| ==> colors[order[m]] != p
    decreases |order| - k
  {
    if k >= |order| then None
    else if colors[order[k]] == p then Some(k)
    else FirstMatch(p, colors, order, k + 1)
  }

  /**
   * The recolouring the comment of `replace_colors` describes: a pixel of some role of `set1`
   * takes the colour of the same role in `set2`, once, and is not compared again.
   */
  function ReplacedPixelOnce(p: Color, set1: ColorSet, set2: ColorSet): (r: Color)
    requires CanRecolor(set1, set2)
    ensures (forall m :: 0 <= m < |set1.order| ==> set1.colors[set1.order[m]] != p) ==> r == p
    ensures forall k ::
      (0 <= k < |set1.order| && set1.colors[set1.order[k]] == p && forall m :: 0 <= m < k ==> set1.colors[set1.order[m]] != p)
      ==> r == set2.colors[set1.order[k]]
  {
    match FirstMatch(p, set1.colors, set1.order, 0)
    case None => p
    case Some(k) => set2.colors[set1.order[k]]
  }

  /**
   * As written, the key loop compares each later key with the already replaced value, so a
   * replacement can be replaced again: with bases (100, 100, 100) and (110, 110, 110), a
   * principal-coloured pixel ends with the second set's flash-shade colour instead of its principal.
   */
  lemma ReplacementChains()
    ensures CanRecolor(ColorSetOf((100, 100, 100), 1).value, ColorSetOf((110, 110, 110), 2).value)
    ensures ReplacedPixel([100, 100, 100, 255], ColorSetOf((100, 100, 100), 1).value, ColorSetOf((110, 110, 110), 2).value)
      == [120, 120, 120, 255]
    ensures ReplacedPixelOnce([100, 100, 100, 255], ColorSetOf((100, 100, 100), 1).value, ColorSetOf((110, 110, 110), 2).value)
      == [110, 110, 110, 255]
  {
    var set1, set2 := ColorSetOf((100, 100, 100), 1).value, ColorSetOf((110, 110, 110), 2).value;
    ConstructedSetsCanRecolor((100, 100, 100), 1, (110, 110, 110), 2);
    ChainAfterPrincipal();
    PrincipalStep(set1, set2);
  }

  lemma PrincipalStep(set1: ColorSet, set2: ColorSet)
    requires set1 == ColorSetOf((100, 100, 100), 1).value && set2 == ColorSetOf((110, 110, 110), 2).value
    requires CanRecolor(set1, set2)
    ensures ReplacedFrom([100, 100, 100, 255], set1, set2, 0) == ReplacedFrom([110, 110, 110, 255], set1, set2, 1)
    ensures ReplacedPixelOnce([100, 100, 100, 255], set1, set2) == [110, 110, 110, 255]
  {
    assert set1.order[0] == Principal;
    assert set1.colors[Principal] == [100, 100, 100, 255];
    assert set2.colors[Principal] == [110, 110, 110, 255];
  }

  /** After the principal key, the pixel holds the second set's principal, which is the first set's flash shade. */
  lemma ChainAfterPrincipal()
    requires CanRecolor(ColorSetOf((100, 100, 100), 1).value, ColorSetOf((110, 110, 110), 2).value)
    ensures ReplacedFrom([110, 110, 110, 255], ColorSetOf((100, 100, 100), 1).value, ColorSetOf((110, 110, 110), 2).value, 1)
      == [120, 120, 120, 255]
  {
    var set1, set2 := ColorSetOf((100, 100, 100), 1).value, ColorSetOf((110, 110, 110), 2).value;
    FirstSetColors();
    assert set2.colors[FlashShade] == [120, 120, 120, 255];
    ChainFromOutline([110, 110, 110, 255], [120, 120, 120, 255], set1, set2);
  }

  /** The colours of the set built from (100, 100, 100) that a (110, 110, 110) pixel meets after the principal. */
  lemma FirstSetColors()
    ensures ColorSetOf((100, 100, 100), 1).Success?
    ensures var set1 := ColorSetOf((100, 100, 100), 1).value;
      set1.order == Roles && Outline in set1.colors && Shade in set1.colors && Mouth in set1.colors
      && FlashFilling in set1.colors && FlashOutline in set1.colors && FlashShade in set1.colors
      && set1.colors[Outline] == [80, 80, 80, 255] && set1.colors[Shade] == [90, 90, 90, 255]
      && set1.colors[Mouth] == [50, 50, 50, 255] && set1.colors[FlashFilling] == [120, 120, 120, 255]
      && set1.colors[FlashOutline] == [100, 100, 100, 255] && set1.colors[FlashShade] == [110, 110, 110, 255]
  {
  }

  /** A pixel that only the last key matches takes that key's replacement, and nothing after it. */
  lemma ChainFromOutline(q: Color, t: Color, set1: ColorSet, set2: ColorSet)
    requires CanRecolor(set1, set2) && set1.order == Roles
    requires set1.colors[Outline] != q && set1.colors[Shade] != q && set1.colors[Mouth] != q
    requires set1.colors[FlashFilling] != q && set1.colors[FlashOutline] != q
    requires set1.colors[FlashShade] == q && set2.colors[FlashShade] == t
    ensures ReplacedFrom(q, set1, set2, 1) == t
  {
    assert ReplacedFrom(t, set1, set2, 7) == t;
    assert ReplacedFrom(q, set1, set2, 6) == t;
    assert ReplacedFrom(q, set1, set2, 5) == t;
    assert ReplacedFrom(q, set1, set2, 4) == t;
    assert ReplacedFrom(q, set1, set2, 3) == t;
    assert ReplacedFrom(q, set1, set2, 2) == t;
  }

  // ---------------------------------------------------------------- the script's entry point

  /** The sets `__main__` builds: the default set with code 1, and palette entries 12 to 20 with codes 13 to 21. */
  function ScriptSets(): Result<(ColorSet, seq<ColorSet>), int>
  {
    if exists i :: 0 <= i < |Palette| && !RgbValid(Palette[i]) then Failure(InvalidColorStatus)
    else
      var all := seq(|Palette|, i requires 0 <= i < |Palette| => ColorSetOf(Palette[i], i + 1).value);
      Success((ColorSetOf(Palette[0], 1).value, all[12..]))
  }

  lemma PaletteIsValid()
    ensures forall i :: 0 <= i < |Palette| ==> RgbValid(Palette[i])
  {
  }

  lemma ScriptSetsSelection()
    ensures ScriptSets().Success?
    ensures var (default, output) := ScriptSets().value;
      && default.code == 1 && default.rgb == Palette[0]
      && |output| == 9
      && forall k :: 0 <= k < 9 ==> output[k].code == k + 13 && output[k].rgb == Palette[k + 12]
  {
    PaletteIsValid();
  }
}
