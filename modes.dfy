/** The bit-packed style descriptor `Mode` and its constructors.

    Layout of a 64-bit mode, as the constants give it:
      bits 0-3   basic foreground colour,   bit 4  foreground set
      bits 5-8   basic background colour,   bit 9  background set
      bits 10-17 XTerm foreground colour,   bit 18 XTerm foreground set
      bits 19-26 XTerm background colour,   bit 27 XTerm background set
      bits 28-37 decorations Reset .. CrossedOut
      bit 63     NoResetAfter */
module Modes {

  type Mode = bv64

  /** A basic colour selector: Go `int`, so any integer is accepted and
      only its low four bits survive the constructors. */
  type Color = int

  const Black: Color := 0
  const Red: Color := 1
  const Green: Color := 2
  const Yellow: Color := 3
  const Blue: Color := 4
  const Magenta: Color := 5
  const Cyan: Color := 6
  const LightGray: Color := 7
  const Gray: Color := 8
  const BoldRed: Color := 9
  const BoldGreen: Color := 10
  const BoldYellow: Color := 11
  const BoldBlue: Color := 12
  const BoldMagenta: Color := 13
  const BoldCyan: Color := 14
  const White: Color := 15

  // Field widths, and the masks they give. The widths are shift amounts,
  // kept as 64-bit values like the modes they shift; the masks are written
  // out as numbers and ConstantsAsDerived proves each equals its derivation
  // from the widths.
  const ColorWidth: bv64 := 5
  const ColorSet: Mode := 0x10         // 1 << (ColorWidth - 1)
  const ColorMask: Mode := 0xf         // ColorSet - 1

  const XTermColorWidth: bv64 := 9
  const XTermColorSet: Mode := 0x100   // 1 << (XTermColorWidth - 1)
  const XTermColorMask: Mode := 0xff   // XTermColorSet - 1

  /** Bits taken by the four colour fields: Fg + Bg + XTermFg + XTermBg. */
  const ColorBits: bv64 := 2 * ColorWidth + 2 * XTermColorWidth

  // Decorations: bit ColorBits + k for k = 0 .. 9.
  const Reset: Mode := 0x1000_0000
  const Bold: Mode := 0x2000_0000
  const Faint: Mode := 0x4000_0000
  const Italic: Mode := 0x8000_0000
  const Underline: Mode := 0x1_0000_0000
  const BlinkSlow: Mode := 0x2_0000_0000
  const BlinkRapid: Mode := 0x4_0000_0000
  const Negative: Mode := 0x8_0000_0000
  const Conceal: Mode := 0x10_0000_0000
  const CrossedOut: Mode := 0x20_0000_0000
  const NoResetAfter: Mode := 0x8000_0000_0000_0000

  /** Number of decoration flags, Reset .. CrossedOut. */
  const Decorations: nat := 10

  /** The bits that make a mode render at all: every set bit and every bit
      from 28 up, except NoResetAfter. */
  const ActiveBits: Mode := 0x7fff_ffff_f804_0210

  /** The bits that give an SGR parameter: the four set bits and the ten
      decorations. The active bits 38-62 give none. */
  const ParameterBits: Mode := 0x3f_f804_0210

  // Regions of the layout, for stating what a constructor touches.
  const FgRegion: Mode := 0x1f
  const BgRegion: Mode := 0x3e0
  const XTermFgRegion: Mode := 0x7_fc00
  const XTermBgRegion: Mode := 0xff8_0000
  const DecorationRegion: Mode := 0x3f_f000_0000

  /** The constants are what the widths make of them. */
  lemma ConstantsAsDerived()
    ensures ColorSet == 1 << (ColorWidth - 1) && ColorMask == ColorSet - 1
    ensures XTermColorSet == 1 << (XTermColorWidth - 1) && XTermColorMask == XTermColorSet - 1
    ensures ColorBits == 28
    ensures Reset == 1 << ColorBits && Bold == 1 << (ColorBits + 1) && Faint == 1 << (ColorBits + 2)
    ensures Italic == 1 << (ColorBits + 3) && Underline == 1 << (ColorBits + 4)
    ensures BlinkSlow == 1 << (ColorBits + 5) && BlinkRapid == 1 << (ColorBits + 6)
    ensures Negative == 1 << (ColorBits + 7) && Conceal == 1 << (ColorBits + 8)
    ensures CrossedOut == 1 << (ColorBits + 9) && NoResetAfter == 1 << 63
    ensures ActiveBits ==
      ((!(0 as Mode) & !((1 << ColorBits) - 1)) & !NoResetAfter) |
      ColorSet | (ColorSet << ColorWidth) |
      (XTermColorSet << (2 * ColorWidth)) | (XTermColorSet << (2 * ColorWidth + XTermColorWidth))
    ensures FgRegion == ColorSet | ColorMask && BgRegion == FgRegion << ColorWidth
    ensures XTermFgRegion == (XTermColorSet | XTermColorMask) << (2 * ColorWidth)
    ensures XTermBgRegion == (XTermColorSet | XTermColorMask) << (2 * ColorWidth + XTermColorWidth)
    ensures DecorationRegion == ((1 << Decorations) - 1) << ColorBits
  {
    assert ColorBits == 28;
  }

  /** A mode with its fields read out: the colour indexes as numbers, the
      set bits and the ten decoration flags (Reset first) as booleans. */
  datatype Fields = Fields(
    fgSet: bool, fg: bv4,
    bgSet: bool, bg: bv4,
    xtermFgSet: bool, xtermFg: bv8,
    xtermBgSet: bool, xtermBg: bv8,
    decorations: seq<bool>)

  /** The decoration flags, Reset .. CrossedOut, in bit order. */
  const DecorationFlags: seq<Mode> :=
    [Reset, Bold, Faint, Italic, Underline, BlinkSlow, BlinkRapid, Negative, Conceal, CrossedOut]

  /** Reads every field of a mode through its mask. */
  function Decode(m: Mode): (f: Fields)
    ensures |f.decorations| == Decorations
  {
    Fields(
      m & ColorSet != 0, (m & ColorMask) as bv4,
      m & (ColorSet << ColorWidth) != 0, ((m >> ColorWidth) & ColorMask) as bv4,
      m & (XTermColorSet << (2 * ColorWidth)) != 0, ((m >> (2 * ColorWidth)) & XTermColorMask) as bv8,
      m & (XTermColorSet << (2 * ColorWidth + XTermColorWidth)) != 0,
      ((m >> (2 * ColorWidth + XTermColorWidth)) & XTermColorMask) as bv8,
      Flags(m >> ColorBits, |DecorationFlags|))
  }

  /** The `n` bits of `d` from the lowest up, as booleans. */
  function Flags(d: Mode, n: nat): (s: seq<bool>)
    ensures |s| == n
  {
    if n == 0 then [] else [d & 1 != 0] + Flags(d >> 1, n - 1)
  }

  /** Reading one flag and shifting once. */
  lemma FlagsStep(d: Mode, n: nat)
    requires n > 0
    ensures Flags(d, n)[0] == (d & 1 != 0) && Flags(d, n)[1..] == Flags(d >> 1, n - 1)
  {
  }

  /** Decoration k of a decoded mode is the named flag at bit ColorBits + k. */
  lemma DecorationNames(m: Mode)
    ensures var d := Decode(m).decorations;
      d[0] == (m & Reset != 0) && d[1] == (m & Bold != 0) && d[2] == (m & Faint != 0) &&
      d[3] == (m & Italic != 0) && d[4] == (m & Underline != 0) && d[5] == (m & BlinkSlow != 0) &&
      d[6] == (m & BlinkRapid != 0) && d[7] == (m & Negative != 0) && d[8] == (m & Conceal != 0) &&
      d[9] == (m & CrossedOut != 0)
  {
    WalkedNames(m, |DecorationFlags|);
  }

  lemma WalkedNames(m: Mode, n: nat)
    requires n == |DecorationFlags|
    ensures var d := Flags(m >> ColorBits, n);
      d[0] == (m & Reset != 0) && d[1] == (m & Bold != 0) && d[2] == (m & Faint != 0) &&
      d[3] == (m & Italic != 0) && d[4] == (m & Underline != 0) && d[5] == (m & BlinkSlow != 0) &&
      d[6] == (m & BlinkRapid != 0) && d[7] == (m & Negative != 0) && d[8] == (m & Conceal != 0) &&
      d[9] == (m & CrossedOut != 0)
  {
    var x0 := m >> ColorBits;
    var x5 := x0 >> 1 >> 1 >> 1 >> 1 >> 1;
    FiveFlags(x0, n);
    FiveFlags(x5, n - 5);
    var d := Flags(x0, n);
    assert d[5..] == Flags(x5, n - 5);
    assert d[5] == d[5..][0] && d[6] == d[5..][1] && d[7] == d[5..][2] && d[8] == d[5..][3] && d[9] == d[5..][4];
    WalkedBits(m);
  }

  /** Five rounds of the walk: five flags, then the rest from the shifted copy. */
  lemma FiveFlags(x0: Mode, n: nat)
    requires n >= 5
    ensures var d := Flags(x0, n);
      var x1 := x0 >> 1; var x2 := x1 >> 1; var x3 := x2 >> 1; var x4 := x3 >> 1;
      d[0] == (x0 & 1 != 0) && d[1] == (x1 & 1 != 0) && d[2] == (x2 & 1 != 0) &&
      d[3] == (x3 & 1 != 0) && d[4] == (x4 & 1 != 0) && d[5..] == Flags(x4 >> 1, n - 5)
  {
    var x1 := x0 >> 1;
    var x2 := x1 >> 1;
    var x3 := x2 >> 1;
    var x4 := x3 >> 1;
    FlagsStep(x0, n);
    FlagsStep(x1, n - 1);
    FlagsStep(x2, n - 2);
    FlagsStep(x3, n - 3);
    FlagsStep(x4, n - 4);
    UnconsFive(Flags(x0, n), Flags(x1, n - 1), Flags(x2, n - 2), Flags(x3, n - 3), Flags(x4, n - 4), Flags(x4 >> 1, n - 5));
  }

  /** Five heads peeled off a sequence, one at a time. */
  lemma UnconsFive(d0: seq<bool>, d1: seq<bool>, d2: seq<bool>, d3: seq<bool>, d4: seq<bool>, d5: seq<bool>)
    requires |d0| > 0 && d0[1..] == d1 && |d1| > 0 && d1[1..] == d2 && |d2| > 0 && d2[1..] == d3
    requires |d3| > 0 && d3[1..] == d4 && |d4| > 0 && d4[1..] == d5
    ensures d0[1] == d1[0] && d0[2] == d2[0] && d0[3] == d3[0] && d0[4] == d4[0] && d0[5..] == d5
  {
    assert d0[2..] == d2;
    assert d0[3..] == d3;
    assert d0[4..] == d4;
  }

  /** The walked copies' low bits are the decoration flags. */
  lemma WalkedBits(m: Mode)
    ensures var x0 := m >> ColorBits; var x1 := x0 >> 1; var x2 := x1 >> 1; var x3 := x2 >> 1;
      var x4 := x3 >> 1; var x5 := x4 >> 1; var x6 := x5 >> 1; var x7 := x6 >> 1; var x8 := x7 >> 1;
      var x9 := x8 >> 1;
      (x0 & 1 != 0) == (m & Reset != 0) && (x1 & 1 != 0) == (m & Bold != 0) &&
      (x2 & 1 != 0) == (m & Faint != 0) && (x3 & 1 != 0) == (m & Italic != 0) &&
      (x4 & 1 != 0) == (m & Underline != 0) && (x5 & 1 != 0) == (m & BlinkSlow != 0) &&
      (x6 & 1 != 0) == (m & BlinkRapid != 0) && (x7 & 1 != 0) == (m & Negative != 0) &&
      (x8 & 1 != 0) == (m & Conceal != 0) && (x9 & 1 != 0) == (m & CrossedOut != 0)
  {
  }

  /** NoResetAfter is read by no field: a mode decodes the same with or
      without it. */
  lemma NoResetAfterUnread(m: Mode)
    ensures Decode(m | NoResetAfter) == Decode(m)
  {
    NoResetAfterColors(m);
    NoResetAfterDecorations(m);
  }

  lemma NoResetAfterColors(m: Mode)
    ensures var f, g := Decode(m), Decode(m | NoResetAfter);
      f.fgSet == g.fgSet && f.fg == g.fg && f.bgSet == g.bgSet && f.bg == g.bg &&
      f.xtermFgSet == g.xtermFgSet && f.xtermFg == g.xtermFg &&
      f.xtermBgSet == g.xtermBgSet && f.xtermBg == g.xtermBg
  {
  }

  lemma NoResetAfterDecorations(m: Mode)
    ensures Decode(m | NoResetAfter).decorations == Decode(m).decorations
  {
    DecorationNames(m);
    DecorationNames(m | NoResetAfter);
    NoResetAfterFlags(m);
    SameTen(Decode(m | NoResetAfter).decorations, Decode(m).decorations);
  }

  lemma NoResetAfterFlags(m: Mode)
    ensures (m | NoResetAfter) & Reset == m & Reset && (m | NoResetAfter) & Bold == m & Bold
    ensures (m | NoResetAfter) & Faint == m & Faint && (m | NoResetAfter) & Italic == m & Italic
    ensures (m | NoResetAfter) & Underline == m & Underline && (m | NoResetAfter) & BlinkSlow == m & BlinkSlow
    ensures (m | NoResetAfter) & BlinkRapid == m & BlinkRapid && (m | NoResetAfter) & Negative == m & Negative
    ensures (m | NoResetAfter) & Conceal == m & Conceal && (m | NoResetAfter) & CrossedOut == m & CrossedOut
  {
  }

  /** A mode whose only active bit is Reset decodes to no colour and the
      single decoration Reset. */
  lemma ResetAlone(m: Mode)
    requires m & ActiveBits == Reset
    ensures var f := Decode(m);
      !f.fgSet && !f.bgSet && !f.xtermFgSet && !f.xtermBgSet &&
      f.decorations[0] && forall k :: 1 <= k < Decorations ==> !f.decorations[k]
  {
    DecorationNames(m);
    ResetAloneBits(m);
  }

  lemma ResetAloneBits(m: Mode)
    requires m & ActiveBits == Reset
    ensures m & ColorSet == 0 && m & (ColorSet << ColorWidth) == 0
    ensures m & (XTermColorSet << (2 * ColorWidth)) == 0
    ensures m & (XTermColorSet << (2 * ColorWidth + XTermColorWidth)) == 0
    ensures m & Reset != 0 && m & Bold == 0 && m & Faint == 0 && m & Italic == 0
    ensures m & Underline == 0 && m & BlinkSlow == 0 && m & BlinkRapid == 0
    ensures m & Negative == 0 && m & Conceal == 0 && m & CrossedOut == 0
  {
  }

  /** A mode has no parameter bit exactly when every set bit and every
      decoration is off. */
  lemma ParameterBitsSplit(m: Mode)
    ensures (m & ParameterBits == 0) ==
      (m & ColorSet == 0 && m & (ColorSet << ColorWidth) == 0 &&
       m & (XTermColorSet << (2 * ColorWidth)) == 0 &&
       m & (XTermColorSet << (2 * ColorWidth + XTermColorWidth)) == 0 &&
       m & Reset == 0 && m & Bold == 0 && m & Faint == 0 && m & Italic == 0 &&
       m & Underline == 0 && m & BlinkSlow == 0 && m & BlinkRapid == 0 &&
       m & Negative == 0 && m & Conceal == 0 && m & CrossedOut == 0)
  {
  }

  /** Bits 38-62: active, yet read by no field. */
  const IdleBits: Mode := 0x7fff_ffc0_0000_0000

  /** Bits 38-62 are active but change no field: a mode decodes the same
      with or without any of them. */
  lemma IdleBitsUnread(m: Mode, x: Mode)
    requires x & !IdleBits == 0
    ensures Decode(m | x) == Decode(m)
    ensures x & ActiveBits == x
  {
    IdleBitsColors(m, x);
    IdleBitsDecorations(m, x);
  }

  lemma IdleBitsColors(m: Mode, x: Mode)
    requires x & !IdleBits == 0
    ensures var f, g := Decode(m), Decode(m | x);
      f.fgSet == g.fgSet && f.fg == g.fg && f.bgSet == g.bgSet && f.bg == g.bg &&
      f.xtermFgSet == g.xtermFgSet && f.xtermFg == g.xtermFg &&
      f.xtermBgSet == g.xtermBgSet && f.xtermBg == g.xtermBg
  {
  }

  lemma IdleBitsDecorations(m: Mode, x: Mode)
    requires x & !IdleBits == 0
    ensures Decode(m | x).decorations == Decode(m).decorations
  {
    DecorationNames(m);
    DecorationNames(m | x);
    IdleBitsFlags(m, x);
    SameTen(Decode(m | x).decorations, Decode(m).decorations);
  }

  /** Two ten-flag sequences that agree flag by flag are equal. */
  lemma SameTen(d: seq<bool>, e: seq<bool>)
    requires |d| == |e| == 10
    requires d[0] == e[0] && d[1] == e[1] && d[2] == e[2] && d[3] == e[3] && d[4] == e[4]
    requires d[5] == e[5] && d[6] == e[6] && d[7] == e[7] && d[8] == e[8] && d[9] == e[9]
    ensures d == e
  {
    assert forall k :: 0 <= k < 10 ==> d[k] == e[k];
  }

  lemma IdleBitsFlags(m: Mode, x: Mode)
    requires x & !IdleBits == 0
    ensures (m | x) & Reset == m & Reset && (m | x) & Bold == m & Bold
    ensures (m | x) & Faint == m & Faint && (m | x) & Italic == m & Italic
    ensures (m | x) & Underline == m & Underline && (m | x) & BlinkSlow == m & BlinkSlow
    ensures (m | x) & BlinkRapid == m & BlinkRapid && (m | x) & Negative == m & Negative
    ensures (m | x) & Conceal == m & Conceal && (m | x) & CrossedOut == m & CrossedOut
  {
  }

  /** Setting Bold changes no field but decoration 1. */
  lemma BoldOnlyTouchesBold(m: Mode)
    ensures var f := Decode(m); Decode(m | Bold) == f.(decorations := f.decorations[1 := true])
  {
    BoldColors(m);
    BoldFlags(m, |DecorationFlags|);
    SetSecond(Decode(m).decorations, Decode(m | Bold).decorations);
  }

  lemma BoldColors(m: Mode)
    ensures var f, g := Decode(m), Decode(m | Bold);
      f.fgSet == g.fgSet && f.fg == g.fg && f.bgSet == g.bgSet && f.bg == g.bg &&
      f.xtermFgSet == g.xtermFgSet && f.xtermFg == g.xtermFg &&
      f.xtermBgSet == g.xtermBgSet && f.xtermBg == g.xtermBg
  {
  }

  lemma BoldFlags(m: Mode, n: nat)
    requires n == |DecorationFlags|
    ensures var dx, dy := Flags(m >> ColorBits, n), Flags((m | Bold) >> ColorBits, n);
      dy[0] == dx[0] && dy[1] && dy[2..] == dx[2..]
  {
    var x, y := m >> ColorBits, (m | Bold) >> ColorBits;
    BoldBits(m);
    FlagsStep(x, n); FlagsStep(x >> 1, n - 1);
    FlagsStep(y, n); FlagsStep(y >> 1, n - 1);
  }

  lemma BoldBits(m: Mode)
    ensures ((m | Bold) >> ColorBits) & 1 == (m >> ColorBits) & 1
    ensures (((m | Bold) >> ColorBits) >> 1) & 1 == 1
    ensures (((m | Bold) >> ColorBits) >> 1) >> 1 == ((m >> ColorBits) >> 1) >> 1
  {
  }

  lemma SetSecond(dx: seq<bool>, dy: seq<bool>)
    requires |dx| == |dy| >= 2 && dy[0] == dx[0] && dy[1] && dy[2..] == dx[2..]
    ensures dy == dx[1 := true]
  {
    forall i | 2 <= i < |dx| ensures dy[i] == dx[i] {
      assert dy[i] == dy[2..][i - 2] && dx[i] == dx[2..][i - 2];
    }
  }

  /** The mode renders: some set bit or some bit from 28 to 62 is on. */
  predicate Active(m: Mode)
    ensures Active(m) == (m & ParameterBits != 0 || m & IdleBits != 0)
  {
    m & ActiveBits != 0
  }

  /** Go's `Mode(c)` keeps a colour's two's complement bits; its low four
      bits are the Euclidean remainder modulo 16. */
  function LowBits(c: Color): (m: Mode)
    ensures m < 16
    ensures (m as bv4) as int == c % 16
  {
    ((c % 16) as bv4) as Mode
  }

  /** Foreground colour `c`: the set bit plus the low four bits of `c`
      (Go's uint64 conversion keeps two's complement bits, which for the
      low four is the Euclidean remainder). */
  function Fg(c: Color): (m: Mode)
    ensures m & !FgRegion == 0
    ensures Decode(m).fgSet && Decode(m).fg == (c % 16) as bv4
  {
    ColorSet | (LowBits(c) & ColorMask)
  }

  /** Background colour `c`: the foreground fragment moved up one field. */
  function Bg(c: Color): (m: Mode)
    ensures m & !BgRegion == 0
    ensures m == Fg(c) << ColorWidth
    ensures Decode(m).bgSet && Decode(m).bg == (c % 16) as bv4
  {
    (ColorSet | (LowBits(c) & ColorMask)) << ColorWidth
  }

  /** XTerm (256-colour) foreground `c`. */
  function XTermFg(c: bv8): (m: Mode)
    ensures m & !XTermFgRegion == 0
    ensures Decode(m).xtermFgSet && Decode(m).xtermFg == c
  {
    (XTermColorSet | (c as Mode)) << (2 * ColorWidth)
  }

  /** XTerm (256-colour) background `c`. */
  function XTermBg(c: bv8): (m: Mode)
    ensures m & !XTermBgRegion == 0
    ensures Decode(m).xtermBgSet && Decode(m).xtermBg == c
  {
    (XTermColorSet | (c as Mode)) << (2 * ColorWidth + XTermColorWidth)
  }

  /** The regions are pairwise disjoint and NoResetAfter lies outside all
      of them, so OR-ing fragments never mixes two fields. */
  lemma RegionsDisjoint()
    ensures FgRegion & BgRegion == 0 && FgRegion & XTermFgRegion == 0
    ensures FgRegion & XTermBgRegion == 0 && FgRegion & DecorationRegion == 0
    ensures BgRegion & XTermFgRegion == 0 && BgRegion & XTermBgRegion == 0
    ensures BgRegion & DecorationRegion == 0
    ensures XTermFgRegion & XTermBgRegion == 0 && XTermFgRegion & DecorationRegion == 0
    ensures XTermBgRegion & DecorationRegion == 0
    ensures NoResetAfter & (FgRegion | BgRegion | XTermFgRegion | XTermBgRegion | DecorationRegion) == 0
    ensures FgRegion | BgRegion | XTermFgRegion | XTermBgRegion == (1 << ColorBits) - 1
  {
  }

  /** Decoration k is the single bit 28 + k, inside the decoration region. */
  lemma DecorationBits(k: nat)
    requires k < Decorations
    ensures DecorationFlags[k] == 1 << (ColorBits + k as bv64)
    ensures DecorationFlags[k] & DecorationRegion == DecorationFlags[k]
  {
    if k < 5 {
      LowDecorationBits(k);
    } else {
      HighDecorationBits(k);
    }
  }

  lemma LowDecorationBits(k: nat)
    requires k < 5
    ensures DecorationFlags[k] == 1 << (ColorBits + k as bv64)
    ensures DecorationFlags[k] & DecorationRegion == DecorationFlags[k]
  {
    if k == 0 {} else if k == 1 {} else if k == 2 {} else if k == 3 {} else {}
  }

  lemma HighDecorationBits(k: nat)
    requires 5 <= k < Decorations
    ensures DecorationFlags[k] == 1 << (ColorBits + k as bv64)
    ensures DecorationFlags[k] & DecorationRegion == DecorationFlags[k]
  {
    if k == 5 {} else if k == 6 {} else if k == 7 {} else if k == 8 {} else {}
  }

  /** A composed mode keeps every fragment intact in its own region:
      OR-ing the fragments of four colours and some decorations mixes
      nothing, whatever the order of the operands. */
  lemma ComposeReadsBack(fg: Color, bg: Color, xfg: bv8, xbg: bv8, deco: Mode)
    requires deco & !DecorationRegion == 0
    ensures var m := Fg(fg) | Bg(bg) | XTermFg(xfg) | XTermBg(xbg) | deco;
      m & FgRegion == Fg(fg) && m & BgRegion == Bg(bg) &&
      m & XTermFgRegion == XTermFg(xfg) && m & XTermBgRegion == XTermBg(xbg) &&
      m & DecorationRegion == deco && m & NoResetAfter == 0
  {
    var a, b, x, y := Fg(fg), Bg(bg), XTermFg(xfg), XTermBg(xbg);
    assert a & !0x1f == 0 && b & !0x3e0 == 0;
    assert x & !0x7_fc00 == 0 && y & !0xff8_0000 == 0;
  }

  /** `ActiveBits` is the four set bits and bits 28-62: no colour value bit
      and not NoResetAfter. */
  lemma ActiveBitsContents()
    ensures ActiveBits == ColorSet | (ColorSet << ColorWidth) | (XTermColorSet << (2 * ColorWidth))
                          | (XTermColorSet << (2 * ColorWidth + XTermColorWidth))
                          | (((1 << 35) - 1) << ColorBits)
    ensures ActiveBits & NoResetAfter == 0
    ensures ActiveBits & (ColorMask | (ColorMask << ColorWidth)) == 0
    ensures ActiveBits & ((XTermColorMask << (2 * ColorWidth)) | (XTermColorMask << (2 * ColorWidth + XTermColorWidth))) == 0
    ensures DecorationRegion & ActiveBits == DecorationRegion
    ensures ParameterBits == ColorSet | (ColorSet << ColorWidth) | (XTermColorSet << (2 * ColorWidth))
                             | (XTermColorSet << (2 * ColorWidth + XTermColorWidth)) | DecorationRegion
    ensures ParameterBits & ActiveBits == ParameterBits
  {
  }

  /** Colour values without their set bits, and NoResetAfter, do not make a
      mode render; each set bit and Reset alone does. */
  lemma InactiveExamples()
    ensures !Active(0) && !Active(NoResetAfter)
    ensures !Active(0xf) && !Active(0xf << ColorWidth)
    ensures !Active(0xff << (2 * ColorWidth)) && !Active(0xff << (2 * ColorWidth + XTermColorWidth))
    ensures Active(Reset) && Active(Fg(Black)) && Active(Bg(Black))
    ensures Active(XTermFg(0)) && Active(XTermBg(0))
  {
  }

  /** Bright white on red, composed. */
  lemma WhiteOnRed()
    ensures Fg(White) | Bg(Red) == 0x23f
  {
    assert LowBits(White) == 0xf && LowBits(Red) == 1;
  }

  /** XTerm colours 21 on 196 with Underline and Bold, composed. */
  lemma XTermUnderlineBold()
    ensures XTermFg(21) | XTermBg(196) | Underline | Bold == 0x1_2e24_5400
  {
  }
}
