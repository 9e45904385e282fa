/** hexToRgba: split a `#RRGGBB` colour (section 5.2 of CSS Color Module
    Level 4) into its channels with JavaScript's parseInt in radix 16. */
module Couleur {
  import opened RealMath

  datatype Option<T> = None | Some(value: T)

  /** The components hexToRgba writes into its `rgba(r, g, b, alpha)` text;
      None stands for a channel that parseInt turned into NaN. */
  datatype Rgba = Rgba(r: Option<int>, g: Option<int>, b: Option<int>, alpha: real)

  predicate EstChiffreHex(c: char)
  {
    '0' <= c <= '9' || 'a' <= c <= 'f' || 'A' <= c <= 'F'
  }

  function ValeurChiffre(c: char): (v: nat)
    requires EstChiffreHex(c)
    ensures v < 16
  {
    if '0' <= c <= '9' then c as int - '0' as int
    else if 'a' <= c <= 'f' then c as int - 'a' as int + 10
    else c as int - 'A' as int + 10
  }

  /** The lower-case digit of a value below 16. */
  function ChiffreHex(v: nat): (c: char)
    requires v < 16
    ensures EstChiffreHex(c) && ValeurChiffre(c) == v
  {
    if v < 10 then ('0' as int + v) as char else ('a' as int + v - 10) as char
  }

  /** The characters parseInt skips at the start: ECMAScript's WhiteSpace
      (tab, vertical tab, form feed, the byte order mark and every space
      separator) and LineTerminator. */
  predicate EstBlanc(c: char)
  {
    c == '\t' || c == '\U{000B}' || c == '\U{000C}' || c == ' ' || c == '\U{00A0}' || c == '\U{FEFF}'
    || c == '\U{1680}' || '\U{2000}' <= c <= '\U{200A}' || c == '\U{202F}' || c == '\U{205F}' || c == '\U{3000}'
    || c == '\n' || c == '\r' || c == '\U{2028}' || c == '\U{2029}'
  }

  /** The string with its leading white space removed. */
  function SansBlancs(s: string): (t: string)
    ensures |t| <= |s|
    ensures t == [] || !EstBlanc(t[0])
  {
    if s != [] && EstBlanc(s[0]) then SansBlancs(s[1..]) else s
  }

  /** SansBlancs only removes characters from the front. */
  lemma {:induction false} SansBlancsSuffixe(s: string)
    ensures SansBlancs(s) == s[|s| - |SansBlancs(s)|..]
  {
    if s != [] && EstBlanc(s[0]) {
      SansBlancsSuffixe(s[1..]);
      assert s[1..][|s| - 1 - |SansBlancs(s)|..] == s[|s| - |SansBlancs(s)|..];
    }
  }

  /** Everything SansBlancs removes is white space. */
  lemma {:induction false} SansBlancsPrefixe(s: string)
    ensures forall i :: 0 <= i < |s| - |SansBlancs(s)| ==> EstBlanc(s[i])
  {
    if s != [] && EstBlanc(s[0]) {
      SansBlancsPrefixe(s[1..]);
      forall i | 0 <= i < |s| - |SansBlancs(s)|
        ensures EstBlanc(s[i])
      {
        if i > 0 {
          assert s[i] == s[1..][i - 1];
        }
      }
    }
  }

  /** The number a string of hexadecimal digits denotes, most significant
      digit first. */
  function Valeur(ds: string): nat
    requires forall i :: 0 <= i < |ds| ==> EstChiffreHex(ds[i])
  {
    if ds == [] then 0 else Valeur(ds[..|ds| - 1]) * 16 + ValeurChiffre(ds[|ds| - 1])
  }

  /** The digit loop of parseInt: starting from acc, each hexadecimal digit
      is appended to the number read so far, up to the first character that
      is not one. */
  function Lire(v: string, acc: nat): (n: nat)
    ensures n >= acc
    decreases |v|
  {
    if v == [] || !EstChiffreHex(v[0]) then acc
    else Lire(v[1..], acc * 16 + ValeurChiffre(v[0]))
  }

  /** Whether parseInt reads a minus sign after the white space. */
  predicate Negatif(t: string)
  {
    |t| > 0 && t[0] == '-'
  }

  /** What follows the white space, an optional sign and an optional `0x`
      or `0X` prefix: where parseInt in radix 16 starts reading digits. */
  function Corps(s: string): (v: string)
    ensures |v| <= |s|
  {
    var t := SansBlancs(s);
    var u := if |t| > 0 && (t[0] == '+' || t[0] == '-') then t[1..] else t;
    if |u| >= 2 && u[0] == '0' && (u[1] == 'x' || u[1] == 'X') then u[2..] else u
  }

  /** parseInt(s, 16) as ECMA-262 defines it: skip leading white space, read
      an optional sign, drop a `0x` or `0X` prefix, then read the longest run
      of hexadecimal digits; no digit at all gives NaN (None). A negative
      zero is returned as 0. */
  function ParseIntHex(s: string): (n: Option<int>)
    ensures n == None <==> Corps(s) == [] || !EstChiffreHex(Corps(s)[0])
    ensures n.Some? && Negatif(SansBlancs(s)) ==> n.value <= 0
    ensures n.Some? && !Negatif(SansBlancs(s)) ==> n.value >= 0
  {
    var v := Corps(s);
    if v == [] || !EstChiffreHex(v[0]) then None
    else var n: int := Lire(v, 0); Some(if Negatif(SansBlancs(s)) then -n else n)
  }

  /** Appending a digit to p multiplies its value by 16 and adds the digit. */
  lemma ValeurAjout(p: string, c: char)
    requires forall i :: 0 <= i < |p| ==> EstChiffreHex(p[i])
    requires EstChiffreHex(c)
    ensures forall i :: 0 <= i < |p + [c]| ==> EstChiffreHex((p + [c])[i])
    ensures Valeur(p + [c]) == Valeur(p) * 16 + ValeurChiffre(c)
  {
    assert (p + [c])[..|p|] == p;
  }

  /** Reading the digits of s after the digits of p yields the number that
      p + s denotes. */
  lemma {:induction false} LireValeur(p: string, s: string)
    requires forall i :: 0 <= i < |p| ==> EstChiffreHex(p[i])
    requires forall i :: 0 <= i < |s| ==> EstChiffreHex(s[i])
    ensures Lire(s, Valeur(p)) == Valeur(p + s)
    decreases |s|
  {
    if s == [] {
      assert p + s == p;
    } else {
      var q := p + [s[0]];
      ValeurAjout(p, s[0]);
      assert Lire(s, Valeur(p)) == Lire(s[1..], Valeur(q));
      LireValeur(q, s[1..]);
      assert q + s[1..] == p + s;
    }
  }

  /** A non-empty run of hexadecimal digits parses to the number it denotes. */
  lemma ParseIntChiffres(s: string)
    requires |s| > 0 && forall i :: 0 <= i < |s| ==> EstChiffreHex(s[i])
    ensures ParseIntHex(s) == Some(Valeur(s))
  {
    assert !EstBlanc(s[0]);
    assert SansBlancs(s) == s;
    assert |s| >= 2 ==> s[1] != 'x' && s[1] != 'X';
    assert Corps(s) == s;
    LireValeur([], s);
    assert [] + s == s;
  }

  /** String.prototype.slice for non-negative bounds, counted in code
      points: both are clamped to the length, and an empty range gives the
      empty string. */
  function Slice(s: string, debut: nat, fin: nat): (t: string)
    ensures debut < fin <= |s| ==> t == s[debut..fin]
    ensures debut < |s| < fin ==> t == s[debut..]
    ensures fin <= debut || |s| <= debut ==> t == []
  {
    var a := Min(debut, |s|);
    var b := Min(fin, |s|);
    if a < b then s[a..b] else []
  }

  /** hexToRgba: channels read from positions 1-2, 3-4 and 5-6, whatever
      the first character is and whatever follows position 6. Positions
      count characters (code points), not UTF-16 code units. */
  function HexToRgba(hex: string, alpha: real): (c: Rgba)
    ensures c.alpha == alpha
  {
    Rgba(ParseIntHex(Slice(hex, 1, 3)), ParseIntHex(Slice(hex, 3, 5)), ParseIntHex(Slice(hex, 5, 7)), alpha)
  }

  /** Two hexadecimal digits denote a byte, the first one weighing 16. */
  lemma ValeurDeuxChiffres(s: string)
    requires |s| == 2 && EstChiffreHex(s[0]) && EstChiffreHex(s[1])
    ensures Valeur(s) == 16 * ValeurChiffre(s[0]) + ValeurChiffre(s[1]) <= 255
  {
    assert s[..1][..0] == [];
    assert Valeur(s[..1]) == ValeurChiffre(s[0]);
  }

  /** The `#RRGGBB` notation: a hash sign and six hexadecimal digits. */
  predicate EstCouleurHex(s: string)
  {
    && |s| == 7 && s[0] == '#'
    && EstChiffreHex(s[1]) && EstChiffreHex(s[2]) && EstChiffreHex(s[3])
    && EstChiffreHex(s[4]) && EstChiffreHex(s[5]) && EstChiffreHex(s[6])
  }

  /** Each channel of a `#RRGGBB` colour is the byte its two digits denote. */
  lemma HexToRgbaCouleur(hex: string, alpha: real)
    requires EstCouleurHex(hex)
    ensures HexToRgba(hex, alpha) == Rgba(
      Some(16 * ValeurChiffre(hex[1]) + ValeurChiffre(hex[2])),
      Some(16 * ValeurChiffre(hex[3]) + ValeurChiffre(hex[4])),
      Some(16 * ValeurChiffre(hex[5]) + ValeurChiffre(hex[6])),
      alpha)
  {
    Canal(hex, 1, hex[1], hex[2]);
    Canal(hex, 3, hex[3], hex[4]);
    Canal(hex, 5, hex[5], hex[6]);
  }

  /** The channel read from the two hexadecimal digits at positions i, i + 1. */
  lemma Canal(hex: string, i: nat, a: char, b: char)
    requires i + 2 <= |hex| && hex[i] == a && hex[i + 1] == b && EstChiffreHex(a) && EstChiffreHex(b)
    ensures ParseIntHex(Slice(hex, i, i + 2)) == Some(16 * ValeurChiffre(a) + ValeurChiffre(b))
  {
    ParseIntOctet(Slice(hex, i, i + 2), a, b);
  }

  /** A two-character string of hexadecimal digits a, b parses to 16 a + b. */
  lemma ParseIntOctet(s: string, a: char, b: char)
    requires |s| == 2 && s[0] == a && s[1] == b && EstChiffreHex(a) && EstChiffreHex(b)
    ensures ParseIntHex(s) == Some(16 * ValeurChiffre(a) + ValeurChiffre(b))
  {
    var v := 16 * ValeurChiffre(a) + ValeurChiffre(b);
    assert Valeur(s) == v by { ValeurDeuxChiffres(s); }
    ParseIntChiffres(s);
  }

  /** The `#rrggbb` text of three bytes, in lower-case digits. */
  function FormatHex(r: nat, g: nat, b: nat): (s: string)
    requires r < 256 && g < 256 && b < 256
    ensures EstCouleurHex(s)
  {
    ['#', ChiffreHex(r / 16), ChiffreHex(r % 16), ChiffreHex(g / 16), ChiffreHex(g % 16),
     ChiffreHex(b / 16), ChiffreHex(b % 16)]
  }

  /** hexToRgba reads back the three bytes a `#rrggbb` colour was written from. */
  lemma HexToRgbaFormatHex(r: nat, g: nat, b: nat, alpha: real)
    requires r < 256 && g < 256 && b < 256
    ensures HexToRgba(FormatHex(r, g, b), alpha) == Rgba(Some(r), Some(g), Some(b), alpha)
  {
    HexToRgbaCouleur(FormatHex(r, g, b), alpha);
  }

  /** The three-digit shorthand `#RGB` is not expanded: "#abc" gives the
      channels 0xab and 0xc and a NaN blue. */
  lemma HexToRgbaFormeCourte(alpha: real)
    ensures HexToRgba("#abc", alpha) == Rgba(Some(0xab), Some(0xc), None, alpha)
  {
    var hex := "#abc";
    ParseIntChiffres(Slice(hex, 1, 3));
    ValeurDeuxChiffres(Slice(hex, 1, 3));
    ParseIntChiffres(Slice(hex, 3, 5));
    assert Slice(hex, 3, 5)[..0] == [];
    assert Slice(hex, 5, 7) == [];
    assert Corps([]) == [];
  }

  /** The tint of the capital series, hexToRgba('#8b5cf6', 0.1), is
      rgba(139, 92, 246, 0.1). */
  lemma HexToRgbaCapital()
    ensures HexToRgba("#8b5cf6", 0.1) == Rgba(Some(139), Some(92), Some(246), 0.1)
  {
    HexToRgbaCouleur("#8b5cf6", 0.1);
  }
}
