/** The ANSI backend: a mode becomes an SGR control sequence (ECMA-48
    section 8.3.117) in the control-sequence form of ECMA-48 section 5.4,
    CSI `ESC [`, parameters separated by `;`, final byte `m`. */
module Ansi {
  import opened Modes
  import opened Strings

  const Esc: char := 27 as char
  const Csi: string := [Esc, '[']
  const ResetSgr: string := Csi + "0m"

  /** SGR parameter of decoration k: Reset 0, Bold 1, ..., CrossedOut 9. */
  const ModeTable: seq<nat> := [0, 1, 2, 3, 4, 5, 6, 7, 8, 9]

  /** A set basic foreground in the bright half of the palette (index 8-15)
      is shown as bold. */
  predicate ForcesBold(f: Fields) { f.fgSet && f.fg & 8 != 0 }

  /** The fields of a mode as rendered: decoration 1 (Bold) switched on when
      the foreground forces it. */
  function Rendered(m: Mode): (f: Fields)
    ensures |f.decorations| == |ModeTable|
  {
    var f := Decode(m);
    if ForcesBold(f) then f.(decorations := f.decorations[1 := true]) else f
  }

  /** The low three bits of a basic colour index: its place among the
      eight SGR colours. */
  function Low3(c: bv4): (n: nat)
    ensures n < 8
  {
    (c & 7) as int
  }

  // Parameter groups, one per field, in the order they are written.

  function FgGroup(f: Fields): seq<string>
  {
    if f.fgSet then [Decimal(30 + Low3(f.fg))] else []
  }

  function BgGroup(f: Fields): seq<string>
  {
    if f.bgSet then [Decimal(40 + Low3(f.bg))] else []
  }

  function XTermFgGroup(f: Fields): seq<string>
  {
    if f.xtermFgSet then [Decimal(38) + ";5;" + Decimal(f.xtermFg as int)] else []
  }

  function XTermBgGroup(f: Fields): seq<string>
  {
    if f.xtermBgSet then [Decimal(48) + ";5;" + Decimal(f.xtermBg as int)] else []
  }

  function ColorGroups(f: Fields): (g: seq<string>)
    ensures |g| <= 4
  {
    FgGroup(f) + BgGroup(f) + XTermFgGroup(f) + XTermBgGroup(f)
  }

  /** Parameters of the decorations that are on among the first `k`, in
      bit order. */
  function DecorationGroups(d: seq<bool>, k: nat): (g: seq<string>)
    requires k <= |d| && k <= |ModeTable|
    ensures |g| <= k
  {
    if k == 0 then []
    else DecorationGroups(d, k - 1) + (if d[k - 1] then [Decimal(ModeTable[k - 1])] else [])
  }

  /** All parameter groups of a mode: basic fg, basic bg, XTerm fg, XTerm bg,
      then decorations in ascending bit order. */
  function Groups(m: Mode): (g: seq<string>)
    ensures |g| <= 4 + |ModeTable|
  {
    FieldGroups(Rendered(m))
  }

  /** The parameter groups of rendered fields. */
  function FieldGroups(f: Fields): seq<string>
    requires |f.decorations| == |ModeTable|
  {
    ColorGroups(f) + DecorationGroups(f.decorations, |ModeTable|)
  }

  /** The SGR control sequence for a mode. */
  function Sgr(m: Mode): (s: string)
    ensures |s| >= 3 && s[..2] == Csi && s[|s| - 1] == 'm'
  {
    Csi + Join(Groups(m), ";") + "m"
  }

  /** `out` is the sequence so far, holding `groups`; `printed` says whether
      a group has been written, so that the next one needs a `;`. */
  ghost predicate Wrote(out: string, printed: bool, groups: seq<string>)
  {
    out == Csi + Join(groups, ";") && printed == (groups != [])
  }

  /** Writes the SGR sequence for `mode`: the bright-foreground test, then
      the basic colours, the XTerm colours and the decorations, each walking
      a shifted copy of the mode and writing `;` before every group but the
      first. */
  method Set(mode: Mode) returns (out: string)
    ensures out == Sgr(mode)
  {
    var m := mode;
    if (m & (ColorSet | ColorMask)) >> (ColorWidth - 2) == 0x3 {
      m := m | Bold;
    }
    BoldedFields(mode, m);
    ghost var b, f := m, Decode(m);
    var printed;
    out, printed, m := BasicColors(m);
    BasicsRead(b);
    BasicsShift(b);
    out, printed, m := XTermColors(m, out, printed, FgGroup(f) + BgGroup(f));
    XTermsRead(b);
    XTermsShift(b);
    DecorationsRead(b);
    ColorGroupsSplit(f);
    out, printed := DecorationParams(m, out, printed, f.decorations, ColorGroups(f));
    out := out + "m";
  }

  /** What the basic colour loop leaves in `m` after `n` more rounds. */
  ghost function BasicTail(m: Mode, n: nat): Mode
  {
    if n == 0 then m else BasicTail(m >> ColorWidth, n - 1)
  }

  /** What the XTerm colour loop leaves in `m` after `n` more rounds. */
  ghost function XTermTail(m: Mode, n: nat): Mode
  {
    if n == 0 then m else XTermTail(m >> XTermColorWidth, n - 1)
  }

  lemma Advance(groups: seq<string>, add: seq<string>, rest: seq<string>, total: seq<string>)
    requires groups + (add + rest) == total
    ensures (groups + add) + rest == total
  {
  }

  /** The basic colour group the first loop writes for the field at the
      bottom of `m`, with parameter base `code`. */
  function BasicGroupAt(m: Mode, code: Mode): seq<string>
  {
    if m & ColorSet != 0 then [Decimal(((m & (ColorMask >> 1)) + code) as int)] else []
  }

  /** The groups the basic colour loop still writes from `m`, one field per
      entry of `codes`. */
  ghost function BasicPending(m: Mode, codes: seq<Mode>): seq<string>
  {
    if codes == [] then [] else BasicGroupAt(m, codes[0]) + BasicPending(m >> ColorWidth, codes[1..])
  }

  lemma BasicPendingStep(m: Mode, codes: seq<Mode>, i: nat)
    requires i < |codes|
    ensures BasicPending(m, codes[i..]) == BasicGroupAt(m, codes[i]) + BasicPending(m >> ColorWidth, codes[i + 1..])
  {
    assert codes[i..][1..] == codes[i + 1..];
  }

  /** The basic colour loop: foreground then background, each written as
      30 or 40 plus the low three bits of its index when its set bit is on. */
  method BasicColors(b: Mode) returns (out: string, printed: bool, m: Mode)
    ensures m == BasicTail(b, 2)
    ensures Wrote(out, printed, BasicPending(b, [30, 40]))
  {
    ghost var groups: seq<string> := [];
    ghost var total := BasicPending(b, [30, 40]);
    out, printed, m := Csi, false, b;
    var basics: seq<Mode> := [30, 40];
    assert basics[0..] == basics;
    for i := 0 to |basics|
      invariant BasicTail(m, |basics| - i) == BasicTail(b, 2)
      invariant groups + BasicPending(m, basics[i..]) == total
      invariant Wrote(out, printed, groups)
    {
      BasicPendingStep(m, basics, i);
      Advance(groups, BasicGroupAt(m, basics[i]), BasicPending(m >> ColorWidth, basics[i + 1..]), total);
      out, printed := BasicRound(m, basics[i], out, printed, groups);
      groups := groups + BasicGroupAt(m, basics[i]);
      m := m >> ColorWidth;
    }
    assert basics[|basics|..] == [];
    assert BasicPending(m, basics[|basics|..]) == [];
    assert groups + [] == groups;
  }

  /** One round of the basic colour loop: the field at the bottom of `m`
      is written, as `code` plus its low three bits, when its set bit is
      on. */
  method BasicRound(m: Mode, code: Mode, out0: string, printed0: bool, ghost groups: seq<string>)
    returns (out: string, printed: bool)
    requires Wrote(out0, printed0, groups)
    ensures Wrote(out, printed, groups + BasicGroupAt(m, code))
  {
    out, printed := out0, printed0;
    if m & ColorSet != 0 {
      var g := Decimal(((m & (ColorMask >> 1)) + code) as int);
      BasicGroupSet(m, code);
      out, printed := WriteParam(out, printed, g, groups);
    } else {
      BasicGroupUnset(m, code, groups);
    }
  }

  lemma BasicGroupSet(m: Mode, code: Mode)
    requires m & ColorSet != 0
    ensures BasicGroupAt(m, code) == [Decimal(((m & (ColorMask >> 1)) + code) as int)]
  {
  }

  lemma BasicGroupUnset(m: Mode, code: Mode, groups: seq<string>)
    requires m & ColorSet == 0
    ensures groups + BasicGroupAt(m, code) == groups
  {
  }

  /** Before the basic colour loop: its two rounds read the basic
      foreground and background and leave the mode shifted past them. */
  lemma BasicsRead(b: Mode)
    ensures BasicPending(b, [30, 40]) == FgGroup(Decode(b)) + BgGroup(Decode(b))
  {
    var basics: seq<Mode> := [30, 40];
    BasicPendingStep(b, basics, 0);
    BasicPendingStep(b >> ColorWidth, basics, 1);
    assert basics[0..] == basics && basics[2..] == [];
    BasicGroups(b);
  }

  /** The basic colour loop leaves the mode shifted past both basic
      colours. */
  lemma BasicsShift(b: Mode)
    ensures BasicTail(b, 2) == b >> (2 * ColorWidth)
  {
    assert BasicTail(b, 2) == BasicTail(b >> ColorWidth, 1) == (b >> ColorWidth) >> ColorWidth;
    BgField(b);
  }

  /** The two rounds of the basic colour loop write the basic foreground
      and background groups. */
  lemma BasicGroups(b: Mode)
    ensures BasicGroupAt(b, 30) == FgGroup(Decode(b))
    ensures BasicGroupAt(b >> ColorWidth, 40) == BgGroup(Decode(b))
  {
    FgField(b);
    BgField(b);
  }

  /** The XTerm colour group the second loop writes for the field at the
      bottom of `m`, with parameter `code`. */
  function XTermGroupAt(m: Mode, code: nat): seq<string>
  {
    if m & XTermColorSet != 0 then [Decimal(code) + ";5;" + Decimal((m & XTermColorMask) as int)] else []
  }

  /** The groups the XTerm colour loop still writes from `m`. */
  ghost function XTermPending(m: Mode, codes: seq<nat>): seq<string>
  {
    if codes == [] then [] else XTermGroupAt(m, codes[0]) + XTermPending(m >> XTermColorWidth, codes[1..])
  }

  lemma XTermPendingStep(m: Mode, codes: seq<nat>, i: nat)
    requires i < |codes|
    ensures XTermPending(m, codes[i..]) == XTermGroupAt(m, codes[i]) + XTermPending(m >> XTermColorWidth, codes[i + 1..])
  {
    assert codes[i..][1..] == codes[i + 1..];
  }

  /** The XTerm colour loop: foreground then background, each written as
      `38;5;n` or `48;5;n` when its set bit is on. */
  method XTermColors(m0: Mode, out0: string, printed0: bool, ghost groups0: seq<string>)
    returns (out: string, printed: bool, m: Mode)
    requires Wrote(out0, printed0, groups0)
    ensures m == XTermTail(m0, 2)
    ensures Wrote(out, printed, groups0 + XTermPending(m0, [38, 48]))
  {
    ghost var groups := groups0;
    ghost var total := groups0 + XTermPending(m0, [38, 48]);
    out, printed, m := out0, printed0, m0;
    var xterms: seq<nat> := [38, 48];
    assert xterms[0..] == xterms;
    for i := 0 to |xterms|
      invariant XTermTail(m, |xterms| - i) == XTermTail(m0, 2)
      invariant groups + XTermPending(m, xterms[i..]) == total
      invariant Wrote(out, printed, groups)
    {
      XTermPendingStep(m, xterms, i);
      var code := xterms[i];
      Advance(groups, XTermGroupAt(m, code), XTermPending(m >> XTermColorWidth, xterms[i + 1..]), total);
      if m & XTermColorSet != 0 {
        var g := Decimal(code) + ";5;" + Decimal((m & XTermColorMask) as int);
        XTermGroupSet(m, code);
        out, printed := WriteParam(out, printed, g, groups);
        groups := groups + [g];
      } else {
        XTermGroupUnset(m, code, groups);
      }
      m := m >> XTermColorWidth;
    }
    assert xterms[|xterms|..] == [];
    assert XTermPending(m, xterms[|xterms|..]) == [];
    assert groups + [] == groups;
  }

  lemma XTermGroupSet(m: Mode, code: nat)
    requires m & XTermColorSet != 0
    ensures XTermGroupAt(m, code) == [Decimal(code) + ";5;" + Decimal((m & XTermColorMask) as int)]
  {
  }

  lemma XTermGroupUnset(m: Mode, code: nat, groups: seq<string>)
    requires m & XTermColorSet == 0
    ensures groups + XTermGroupAt(m, code) == groups
  {
  }

  /** Before the XTerm colour loop: its two rounds read the XTerm
      foreground and background. */
  lemma XTermsRead(b: Mode)
    ensures XTermPending(b >> (2 * ColorWidth), [38, 48]) == XTermFgGroup(Decode(b)) + XTermBgGroup(Decode(b))
  {
    XTermTwoRounds(b >> (2 * ColorWidth));
    XTermGroups(b);
  }

  /** Two rounds of the XTerm loop write the group at the bottom and the
      group one field up. */
  lemma XTermTwoRounds(m0: Mode)
    ensures XTermPending(m0, [38, 48]) == XTermGroupAt(m0, 38) + XTermGroupAt(m0 >> XTermColorWidth, 48)
  {
    var xterms: seq<nat> := [38, 48];
    XTermPendingStep(m0, xterms, 0);
    XTermPendingStep(m0 >> XTermColorWidth, xterms, 1);
    assert xterms[0..] == xterms && xterms[2..] == [];
  }

  /** The XTerm colour loop leaves the mode at the decorations. */
  lemma XTermsShift(b: Mode)
    ensures XTermTail(b >> (2 * ColorWidth), 2) == b >> ColorBits
  {
    var m0 := b >> (2 * ColorWidth);
    assert XTermTail(m0, 2) == XTermTail(m0 >> XTermColorWidth, 1) == (m0 >> XTermColorWidth) >> XTermColorWidth;
    XTermFields(b);
  }

  /** The two rounds of the XTerm colour loop write the XTerm foreground
      and background groups. */
  lemma XTermGroups(b: Mode)
    ensures XTermGroupAt(b >> (2 * ColorWidth), 38) == XTermFgGroup(Decode(b))
    ensures XTermGroupAt((b >> (2 * ColorWidth)) >> XTermColorWidth, 48) == XTermBgGroup(Decode(b))
  {
    XTermFields(b);
  }

  lemma ColorGroupsSplit(f: Fields)
    ensures ColorGroups(f) == (FgGroup(f) + BgGroup(f)) + (XTermFgGroup(f) + XTermBgGroup(f))
  {
  }

  /** The decoration loop reads the decorations of the mode it starts
      from. */
  lemma DecorationsRead(b: Mode)
    ensures Flags(b >> ColorBits, |ModeTable|) == Decode(b).decorations
  {
  }

  /** The decoration loop: one flag per bit from Reset upward, each written
      as its table entry when on. */
  method DecorationParams(m0: Mode, out0: string, printed0: bool, ghost d: seq<bool>, ghost groups0: seq<string>)
    returns (out: string, printed: bool)
    requires |d| == |ModeTable| && Flags(m0, |ModeTable|) == d
    requires Wrote(out0, printed0, groups0)
    ensures Wrote(out, printed, groups0 + DecorationGroups(d, |ModeTable|))
  {
    ghost var groups := groups0;
    out, printed := out0, printed0;
    var m := m0;
    for k := 0 to |ModeTable|
      invariant Flags(m, |ModeTable| - k) == d[k..]
      invariant groups == groups0 + DecorationGroups(d, k)
      invariant Wrote(out, printed, groups)
    {
      DecorationStep(m, k, d);
      ghost var g := if d[k] then [Decimal(ModeTable[k])] else [];
      out, printed := DecorationRound(m, k, out, printed, d[k], groups);
      assert groups + g == groups0 + DecorationGroups(d, k + 1);
      groups := groups + g;
      m := m >> 1;
    }
  }

  /** One round of the decoration loop: the table entry for bit k is
      written when the bit is on. */
  method DecorationRound(m: Mode, k: nat, out0: string, printed0: bool, ghost on: bool, ghost groups: seq<string>)
    returns (out: string, printed: bool)
    requires k < |ModeTable| && (m & 1 != 0) == on
    requires Wrote(out0, printed0, groups)
    ensures Wrote(out, printed, groups + if on then [Decimal(ModeTable[k])] else [])
  {
    out, printed := out0, printed0;
    if m & 1 != 0 {
      out, printed := WriteParam(out, printed, Decimal(ModeTable[k]), groups);
    } else {
      assert groups + [] == groups;
    }
  }

  /** One round of the decoration loop reads flag k and moves to flag k + 1. */
  lemma DecorationStep(m: Mode, k: nat, d: seq<bool>)
    requires k < |d| == |ModeTable| && Flags(m, |ModeTable| - k) == d[k..]
    ensures (m & 1 != 0) == d[k] && Flags(m >> 1, |ModeTable| - (k + 1)) == d[k + 1..]
  {
    FlagsStep(m, |ModeTable| - k);
    assert d[k..][0] == d[k];
    assert d[k..][1..] == d[k + 1..];
  }

  /** The mode the loops of Set walk reads as the rendered fields. */
  lemma BoldedFields(mode: Mode, b: Mode)
    requires b == if (mode & (ColorSet | ColorMask)) >> (ColorWidth - 2) == 0x3 then mode | Bold else mode
    ensures Decode(b) == Rendered(mode)
  {
    ForcedBoldTest(mode);
    if (mode & (ColorSet | ColorMask)) >> (ColorWidth - 2) == 0x3 {
      BoldOnlyTouchesBold(mode);
    }
  }

  /** Writes one parameter group, preceded by `;` unless it is the first. */
  method WriteParam(out0: string, printed0: bool, g: string, ghost groups: seq<string>)
    returns (out: string, printed: bool)
    requires Wrote(out0, printed0, groups)
    ensures Wrote(out, printed, groups + [g])
  {
    out := out0;
    if printed0 {
      out := out + ";";
    }
    out := out + g;
    printed := true;
    JoinSnoc(groups, g, ";");
  }

  /** Writes the fixed SGR reset sequence: what rendering a bare Reset
      writes. */
  method WriteReset() returns (out: string)
    ensures out == [Esc, '[', '0', 'm']
    ensures out == Sgr(Reset)
  {
    BareResetSgr(Reset);
    out := ResetSgr;
  }

  // ---------------------------------------------------------------------
  // Bit-level facts the loops of Set rely on.

  /** The source's bold test is the ForcesBold condition. */
  lemma ForcedBoldTest(m: Mode)
    ensures ((m & (ColorSet | ColorMask)) >> (ColorWidth - 2) == 0x3) == ForcesBold(Decode(m))
  {
  }

  /** The basic foreground as the first loop sees it in round 0. */
  lemma FgField(b: Mode)
    ensures (b & ColorSet != 0) == Decode(b).fgSet
    ensures ((b & (ColorMask >> 1)) + 30) as int == 30 + Low3(Decode(b).fg)
  {
  }

  /** The basic background as the first loop sees it in round 1. */
  lemma BgField(b: Mode)
    ensures ((b >> ColorWidth) & ColorSet != 0) == Decode(b).bgSet
    ensures (((b >> ColorWidth) & (ColorMask >> 1)) + 40) as int == 40 + Low3(Decode(b).bg)
    ensures (b >> ColorWidth) >> ColorWidth == b >> (2 * ColorWidth)
  {
  }

  /** The XTerm colours as the second loop sees them, starting from the
      mode shifted past the basic colours. */
  lemma XTermFields(b: Mode)
    ensures var m0 := b >> (2 * ColorWidth); var f := Decode(b);
      (m0 & XTermColorSet != 0) == f.xtermFgSet && (m0 & XTermColorMask) as bv8 == f.xtermFg &&
      ((m0 >> XTermColorWidth) & XTermColorSet != 0) == f.xtermBgSet &&
      ((m0 >> XTermColorWidth) & XTermColorMask) as bv8 == f.xtermBg &&
      (m0 >> XTermColorWidth) >> XTermColorWidth == b >> ColorBits
  {
  }

  // ---------------------------------------------------------------------
  // What the sequence says about the mode.

  /** Every decoration parameter is a single digit, every colour parameter
      at least two characters. */
  lemma {:induction false} DecorationGroupsDigits(d: seq<bool>, k: nat)
    requires k <= |d| && k <= |ModeTable|
    ensures forall g :: g in DecorationGroups(d, k) ==> |g| == 1
  {
    if k > 0 {
      DecorationGroupsDigits(d, k - 1);
      assert ModeTable[k - 1] < 10;
    }
  }

  lemma ColorGroupsWide(f: Fields)
    ensures forall g :: g in ColorGroups(f) ==> |g| >= 2
  {
  }

  /** Decoration k's parameter is among the first `k'` groups exactly when
      k < k' and the decoration is on. */
  lemma {:induction false} DecorationGroupsHas(d: seq<bool>, k: nat, j: nat)
    requires k <= |d| && k <= |ModeTable| && j < |ModeTable|
    ensures (Decimal(j) in DecorationGroups(d, k)) == (j < k && d[j])
  {
    if k > 0 {
      DecorationGroupsHas(d, k - 1, j);
      assert ModeTable[k - 1] == k - 1;
      if j != k - 1 && Decimal(j) == Decimal(k - 1) {
        DecimalInjective(j, k - 1);
      }
    }
  }

  /** Decoration parameter k (Reset 0 ... CrossedOut 9) is written exactly
      when decoration k is on, or, for Bold, when a bright foreground forces
      it. */
  lemma DecorationIff(m: Mode, k: nat)
    requires k < |ModeTable|
    ensures (Decimal(k) in Groups(m)) == (Decode(m).decorations[k] || (k == 1 && ForcesBold(Decode(m))))
  {
    var f := Rendered(m);
    ColorGroupsWide(f);
    DecorationGroupsHas(f.decorations, |ModeTable|, k);
  }

  /** Bold is written exactly when the Bold bit is set or the foreground is
      a set bright colour. */
  lemma BoldIff(m: Mode)
    ensures (Decimal(1) in Groups(m)) == (m & Bold != 0 || (m & ColorSet != 0 && m & 8 != 0))
  {
    DecorationIff(m, 1);
    DecorationNames(m);
    ForcedBoldTest(m);
  }

  /** A two-digit number renders in two characters. */
  lemma TwoDigits(n: nat)
    requires 10 <= n < 100
    ensures |Decimal(n)| == 2
  {
  }

  /** A basic foreground group never equals a basic background group. */
  lemma BasicGroupsDiffer(n: nat, k: nat)
    requires (30 <= n < 38 && 40 <= k < 48) || (40 <= n < 48 && 30 <= k < 38)
    ensures Decimal(n) != Decimal(k)
  {
    if Decimal(n) == Decimal(k) {
      DecimalInjective(n, k);
    }
  }

  /** An XTerm foreground group never equals an XTerm background group:
      they differ in their first character. */
  lemma XTermGroupsDiffer(x: nat, y: nat)
    ensures Decimal(38) + ";5;" + Decimal(x) != Decimal(48) + ";5;" + Decimal(y)
  {
    LeadingDigit(38);
    LeadingDigit(48);
    HeadsDiffer(Decimal(38), ";5;", Decimal(x), Decimal(48), ";5;", Decimal(y));
  }

  /** A two-digit numeral starts with the tens digit. */
  lemma LeadingDigit(n: nat)
    requires 10 <= n < 100
    ensures Decimal(n)[0] == DigitChar(n / 10)
  {
  }

  lemma HeadsDiffer(a: string, s: string, u: string, b: string, t: string, v: string)
    requires |a| > 0 && |b| > 0 && a[0] != b[0]
    ensures a + s + u != b + t + v
  {
    assert (a + s + u)[0] == a[0];
    assert (b + t + v)[0] == b[0];
  }


  /** Forcing bold leaves the colour fields as decoded. */
  lemma RenderedColors(m: Mode)
    ensures var f, r := Decode(m), Rendered(m);
      r.fgSet == f.fgSet && r.fg == f.fg && r.bgSet == f.bgSet && r.bg == f.bg &&
      r.xtermFgSet == f.xtermFgSet && r.xtermFg == f.xtermFg &&
      r.xtermBgSet == f.xtermBgSet && r.xtermBg == f.xtermBg
  {
  }

  /** In the groups of fields `f`, the basic parameters are the only
      two-character groups: one-character groups are decorations and XTerm
      groups are longer. */
  lemma BasicGroupsOnly(f: Fields, g: string)
    requires |f.decorations| == |ModeTable| && |g| == 2
    ensures (g in FieldGroups(f)) == (g in FgGroup(f) || g in BgGroup(f))
  {
    DecorationGroupsDigits(f.decorations, |ModeTable|);
    TwoDigits(38);
    TwoDigits(48);
  }

  /** In the groups of fields `f`, the XTerm groups are the only ones
      holding `;`. */
  lemma XTermGroupsOnly(f: Fields, g: string)
    requires |f.decorations| == |ModeTable| && |g| > 2 && g[2] == ';'
    ensures (g in FieldGroups(f)) == (g in XTermFgGroup(f) || g in XTermBgGroup(f))
  {
    DecorationGroupsDigits(f.decorations, |ModeTable|);
    if f.fgSet { TwoDigits(30 + Low3(f.fg)); }
    if f.bgSet { TwoDigits(40 + Low3(f.bg)); }
  }

  /** The basic foreground parameter, 30 plus the low three bits of the
      index, is among the groups exactly when the foreground is set. */
  lemma FieldsFgIff(f: Fields)
    requires |f.decorations| == |ModeTable|
    ensures (Decimal(30 + Low3(f.fg)) in FieldGroups(f)) == f.fgSet
  {
    var n, k := 30 + Low3(f.fg), 40 + Low3(f.bg);
    TwoDigits(n);
    BasicGroupsOnly(f, Decimal(n));
    BasicGroupsDiffer(n, k);
  }

  /** The basic background parameter likewise. */
  lemma FieldsBgIff(f: Fields)
    requires |f.decorations| == |ModeTable|
    ensures (Decimal(40 + Low3(f.bg)) in FieldGroups(f)) == f.bgSet
  {
    var n, k := 40 + Low3(f.bg), 30 + Low3(f.fg);
    TwoDigits(n);
    BasicGroupsOnly(f, Decimal(n));
    BasicGroupsDiffer(n, k);
  }

  /** The XTerm foreground parameter `38;5;n` is among the groups exactly
      when the XTerm foreground is set, with n its index. */
  lemma FieldsXTermFgIff(f: Fields)
    requires |f.decorations| == |ModeTable|
    ensures (Decimal(38) + ";5;" + Decimal(f.xtermFg as int) in FieldGroups(f)) == f.xtermFgSet
  {
    TwoDigits(38);
    XTermGroupsOnly(f, Decimal(38) + ";5;" + Decimal(f.xtermFg as int));
    XTermGroupsDiffer(f.xtermFg as int, f.xtermBg as int);
  }

  /** The XTerm background parameter `48;5;n` likewise. */
  lemma FieldsXTermBgIff(f: Fields)
    requires |f.decorations| == |ModeTable|
    ensures (Decimal(48) + ";5;" + Decimal(f.xtermBg as int) in FieldGroups(f)) == f.xtermBgSet
  {
    TwoDigits(48);
    XTermGroupsOnly(f, Decimal(48) + ";5;" + Decimal(f.xtermBg as int));
    XTermGroupsDiffer(f.xtermFg as int, f.xtermBg as int);
  }

  /** The SGR sequence of a mode holds its basic foreground parameter
      exactly when the foreground is set. */
  lemma FgIff(m: Mode)
    ensures var f := Decode(m); (Decimal(30 + Low3(f.fg)) in Groups(m)) == f.fgSet
  {
    var d, r := Decode(m), Rendered(m);
    RenderedColors(m);
    FieldsFgIff(r);
    assert r.fg == d.fg && r.fgSet == d.fgSet;
    assert Groups(m) == FieldGroups(r);
  }

  /** ... and its basic background parameter exactly when the background is
      set. */
  lemma BgIff(m: Mode)
    ensures var f := Decode(m); (Decimal(40 + Low3(f.bg)) in Groups(m)) == f.bgSet
  {
    RenderedColors(m);
    FieldsBgIff(Rendered(m));
  }

  /** ... and `38;5;n` exactly when the XTerm foreground is set to n. */
  lemma XTermFgIff(m: Mode)
    ensures var f := Decode(m); (Decimal(38) + ";5;" + Decimal(f.xtermFg as int) in Groups(m)) == f.xtermFgSet
  {
    RenderedColors(m);
    FieldsXTermFgIff(Rendered(m));
  }

  /** ... and `48;5;n` exactly when the XTerm background is set to n. */
  lemma XTermBgIff(m: Mode)
    ensures var f := Decode(m); (Decimal(48) + ";5;" + Decimal(f.xtermBg as int) in Groups(m)) == f.xtermBgSet
  {
    RenderedColors(m);
    FieldsXTermBgIff(Rendered(m));
  }

  // ---------------------------------------------------------------------
  // The reset sequence, NoResetAfter, and the shape of the sequence.

  /** No decoration among the first `k` is on: no decoration group. */
  lemma {:induction false} DecorationGroupsEmpty(d: seq<bool>, k: nat)
    requires k <= |d| && k <= |ModeTable|
    ensures (DecorationGroups(d, k) == []) == (forall i :: 0 <= i < k ==> !d[i])
  {
    if k > 0 {
      DecorationGroupsEmpty(d, k - 1);
    }
  }

  /** With decoration j the only one on, its parameter is the only
      decoration group. */
  lemma {:induction false} OneDecorationGroup(d: seq<bool>, j: nat, k: nat)
    requires j < k <= |d| && k <= |ModeTable|
    requires d[j] && forall i :: 0 <= i < |d| && i != j ==> !d[i]
    ensures DecorationGroups(d, k) == [Decimal(j)]
  {
    if k == j + 1 {
      DecorationGroupsEmpty(d, j);
      assert ModeTable[j] == j;
    } else {
      OneDecorationGroup(d, j, k - 1);
    }
  }

  /** Decorations `j..k-1` all off: they add no group. */
  lemma {:induction false} DecorationGroupsFrom(d: seq<bool>, j: nat, k: nat)
    requires j <= k <= |d| && k <= |ModeTable|
    requires forall i :: j <= i < k ==> !d[i]
    ensures DecorationGroups(d, k) == DecorationGroups(d, j)
  {
    if k > j {
      DecorationGroupsFrom(d, j, k - 1);
    }
  }

  /** A mode whose only active bit is Reset renders as the reset sequence
      `ESC [ 0 m`, the same bytes the reset operation writes. */
  lemma BareResetSgr(m: Mode)
    requires m & ActiveBits == Reset
    ensures Sgr(m) == ResetSgr
  {
    ResetAlone(m);
    OneDecorationGroup(Rendered(m).decorations, 0, |ModeTable|);
    assert Groups(m) == [Decimal(0)];
  }

  /** NoResetAfter changes nothing in the SGR sequence. */
  lemma NoResetAfterSgr(m: Mode)
    ensures Sgr(m | NoResetAfter) == Sgr(m)
  {
    NoResetAfterUnread(m);
  }

  /** The active bits 38-62 change nothing in the SGR sequence. */
  lemma IdleBitsSgr(m: Mode, x: Mode)
    requires x & !IdleBits == 0
    ensures Sgr(m | x) == Sgr(m)
  {
    IdleBitsUnread(m, x);
  }

  /** The sequence has parameters exactly when some set bit or decoration
      is on; the active bits 38-62 alone give `ESC [ m`. */
  lemma GroupsEmptyIff(m: Mode)
    ensures (Groups(m) == []) == (m & ParameterBits == 0)
  {
    var f := Rendered(m);
    DecorationNames(m);
    ParameterBitsSplit(m);
    DecorationGroupsEmpty(f.decorations, |ModeTable|);
  }

  /** An inactive mode has no parameters. */
  lemma InactiveNoGroups(m: Mode)
    requires !Active(m)
    ensures Groups(m) == []
  {
    ActiveBitsContents();
    GroupsEmptyIff(m);
    assert m & ParameterBits == (m & ActiveBits) & ParameterBits;
  }

  /** No two parameter groups of a sequence are equal; in particular Bold's
      `1` is written at most once, requested and forced alike. */
  predicate Distinct(s: seq<string>)
  {
    forall i, j :: 0 <= i < j < |s| ==> s[i] != s[j]
  }

  lemma DistinctConcat(a: seq<string>, b: seq<string>)
    requires Distinct(a) && Distinct(b)
    requires forall x :: x in a ==> x !in b
    ensures Distinct(a + b)
  {
    forall i, j | 0 <= i < j < |a + b|
      ensures (a + b)[i] != (a + b)[j]
    {
      if j < |a| {
      } else if i < |a| {
        assert (a + b)[i] in a && (a + b)[j] == b[j - |a|];
      } else {
        assert (a + b)[i] == b[i - |a|] && (a + b)[j] == b[j - |a|];
      }
    }
  }

  lemma {:induction false} DecorationGroupsDistinct(d: seq<bool>, k: nat)
    requires k <= |d| && k <= |ModeTable|
    ensures Distinct(DecorationGroups(d, k))
  {
    if k > 0 {
      DecorationGroupsDistinct(d, k - 1);
      DecorationGroupsHas(d, k - 1, k - 1);
      assert ModeTable[k - 1] == k - 1;
      DistinctConcat(DecorationGroups(d, k - 1), if d[k - 1] then [Decimal(ModeTable[k - 1])] else []);
    }
  }

  lemma ColorGroupsDistinct(f: Fields)
    ensures Distinct(ColorGroups(f))
  {
    BasicPairDistinct(f);
    XTermPairDistinct(f);
    DistinctConcat(FgGroup(f) + BgGroup(f), XTermFgGroup(f) + XTermBgGroup(f));
    ColorGroupsSplit(f);
  }

  lemma BasicPairDistinct(f: Fields)
    ensures Distinct(FgGroup(f) + BgGroup(f))
    ensures forall g :: g in FgGroup(f) + BgGroup(f) ==> |g| == 2
  {
    var n, k := 30 + Low3(f.fg), 40 + Low3(f.bg);
    TwoDigits(n);
    TwoDigits(k);
    BasicGroupsDiffer(n, k);
    var a, b := FgGroup(f), BgGroup(f);
    assert a == (if f.fgSet then [Decimal(n)] else []);
    assert b == (if f.bgSet then [Decimal(k)] else []);
    DistinctConcat(a, b);
  }

  lemma XTermPairDistinct(f: Fields)
    ensures Distinct(XTermFgGroup(f) + XTermBgGroup(f))
    ensures forall g :: g in XTermFgGroup(f) + XTermBgGroup(f) ==> |g| > 2
  {
    XTermGroupsDiffer(f.xtermFg as int, f.xtermBg as int);
  }

  lemma GroupsDistinct(m: Mode)
    ensures Distinct(Groups(m))
  {
    var f := Rendered(m);
    ColorGroupsDistinct(f);
    DecorationGroupsDistinct(f.decorations, |ModeTable|);
    ColorGroupsWide(f);
    DecorationGroupsDigits(f.decorations, |ModeTable|);
    DistinctConcat(ColorGroups(f), DecorationGroups(f.decorations, |ModeTable|));
  }

  /** A numeral holds no `;`. */
  lemma DecimalClean(n: nat)
    ensures Clean(Decimal(n), ';')
  {
  }

  /** An XTerm group `38;5;n` has its two `;` apart and digits at both
      ends. */
  lemma XTermGroupClean(code: nat, n: nat)
    requires code == 38 || code == 48
    ensures Clean(Decimal(code) + ";5;" + Decimal(n), ';')
  {
    var s := Decimal(code) + ";5;" + Decimal(n);
    TwoDigits(code);
    forall i | 0 <= i < |s| - 1
      ensures !(s[i] == ';' && s[i + 1] == ';')
    {
      if i >= 5 {
        assert s[i] == Decimal(n)[i - 5];
      } else if i == 4 {
        assert s[i + 1] == Decimal(n)[0];
      }
    }
  }

  lemma GroupsClean(m: Mode)
    ensures forall k :: 0 <= k < |Groups(m)| ==> |Groups(m)[k]| > 0 && Clean(Groups(m)[k], ';')
  {
    var f := Rendered(m);
    var g := Groups(m);
    forall k | 0 <= k < |g|
      ensures |g[k]| > 0 && Clean(g[k], ';')
    {
      assert g[k] in g;
      if g[k] in XTermFgGroup(f) {
        XTermGroupClean(38, f.xtermFg as int);
      } else if g[k] in XTermBgGroup(f) {
        XTermGroupClean(48, f.xtermBg as int);
      } else {
        GroupIsNumeral(f, g[k]);
        var n :| g[k] == Decimal(n);
        DecimalClean(n);
      }
    }
  }

  /** Every group but the XTerm ones is a numeral. */
  lemma GroupIsNumeral(f: Fields, g: string)
    requires |f.decorations| == |ModeTable|
    requires g in FieldGroups(f) && g !in XTermFgGroup(f) && g !in XTermBgGroup(f)
    ensures exists n: nat :: g == Decimal(n)
  {
    if g in DecorationGroups(f.decorations, |ModeTable|) {
      DecorationGroupsNumerals(f.decorations, |ModeTable|, g);
    } else if g in FgGroup(f) {
      assert g == Decimal(30 + Low3(f.fg));
    } else {
      assert g == Decimal(40 + Low3(f.bg));
    }
  }

  lemma {:induction false} DecorationGroupsNumerals(d: seq<bool>, k: nat, g: string)
    requires k <= |d| && k <= |ModeTable| && g in DecorationGroups(d, k)
    ensures exists n: nat :: g == Decimal(n)
  {
    if g in DecorationGroups(d, k - 1) {
      DecorationGroupsNumerals(d, k - 1, g);
    } else {
      assert g == Decimal(ModeTable[k - 1]);
    }
  }

  /** Every SGR sequence is `ESC [`, parameters joined by single `;` with
      none leading, trailing or doubled, then `m`; the parameter text is
      empty exactly when there are no groups. */
  lemma SgrShape(m: Mode)
    ensures var s := Sgr(m);
      |s| >= 3 && s[..2] == Csi && s[|s| - 1] == 'm' &&
      Clean(s[2..|s| - 1], ';') && (s[2..|s| - 1] == []) == (Groups(m) == [])
  {
    var s := Sgr(m);
    var j := Join(Groups(m), ";");
    GroupsClean(m);
    JoinClean(Groups(m), ';');
    assert s == Csi + j + "m";
    assert s[2..|s| - 1] == j;
  }

  // ---------------------------------------------------------------------
  // Worked examples.

  /** White on red: bright white forces bold, so `37;41;1`. */
  lemma WhiteOnRedSgr()
    ensures Sgr(Fg(White) | Bg(Red)) == Csi + "37;41;1m"
  {
    WhiteOnRed();
    WhiteOnRedSgrOf(Fg(White) | Bg(Red));
  }

  lemma WhiteOnRedSgrOf(m: Mode)
    requires m == 0x23f
    ensures Sgr(m) == Csi + "37;41;1m"
  {
    WhiteOnRedFields(m);
    WhiteOnRedGroups(Rendered(m));
    WhiteOnRedJoin();
  }

  lemma WhiteOnRedJoin()
    ensures Csi + Join(["37", "41", "1"], ";") + "m" == Csi + "37;41;1m"
  {
    assert Join(["37", "41", "1"], ";") == "37;41;1";
  }

  lemma WhiteOnRedGroups(f: Fields)
    requires |f.decorations| == |ModeTable|
    requires f.fgSet && Low3(f.fg) == 7 && f.bgSet && Low3(f.bg) == 1 && !f.xtermFgSet && !f.xtermBgSet
    requires f.decorations[1] && forall i :: 0 <= i < |f.decorations| && i != 1 ==> !f.decorations[i]
    ensures FieldGroups(f) == ["37", "41", "1"]
  {
    OneDecorationGroup(f.decorations, 1, |ModeTable|);
    assert Decimal(37) == "37" && Decimal(41) == "41" && Decimal(1) == "1";
  }

  lemma WhiteOnRedFields(m: Mode)
    requires m == 0x23f
    ensures var f := Rendered(m);
      f.fgSet && Low3(f.fg) == 7 && f.bgSet && Low3(f.bg) == 1 && !f.xtermFgSet && !f.xtermBgSet &&
      f.decorations[1] && forall i :: 0 <= i < |f.decorations| && i != 1 ==> !f.decorations[i]
  {
    DecorationNames(m);
    ForcedBoldTest(m);
  }

  /** XTerm 21 on XTerm 196, underlined and bold: the XTerm groups, then
      the decorations in bit order, `38;5;21;48;5;196;1;4`. */
  lemma XTermUnderlineBoldSgr()
    ensures Sgr(XTermFg(21) | XTermBg(196) | Underline | Bold) == Csi + "38;5;21;48;5;196;1;4m"
  {
    XTermUnderlineBold();
    XTermUnderlineBoldSgrOf(XTermFg(21) | XTermBg(196) | Underline | Bold);
  }

  lemma XTermUnderlineBoldSgrOf(m: Mode)
    requires m == 0x1_2e24_5400
    ensures Sgr(m) == Csi + "38;5;21;48;5;196;1;4m"
  {
    XTermUnderlineBoldFields(m);
    XTermUnderlineBoldGroups(Rendered(m));
    XTermUnderlineBoldJoin();
  }

  lemma XTermUnderlineBoldJoin()
    ensures Csi + Join(["38;5;21", "48;5;196", "1", "4"], ";") + "m" == Csi + "38;5;21;48;5;196;1;4m"
  {
    var a, b, c, d := "38;5;21", "48;5;196", "1", "4";
    JoinSnoc([a], b, ";");
    assert [a] + [b] == [a, b];
    JoinSnoc([a, b], c, ";");
    assert [a, b] + [c] == [a, b, c];
    JoinSnoc([a, b, c], d, ";");
    assert [a, b, c] + [d] == [a, b, c, d];
  }

  lemma XTermUnderlineBoldGroups(f: Fields)
    requires |f.decorations| == |ModeTable|
    requires !f.fgSet && !f.bgSet && f.xtermFgSet && f.xtermFg == 21 && f.xtermBgSet && f.xtermBg == 196
    requires f.decorations[1] && f.decorations[4]
    requires forall i :: 0 <= i < |f.decorations| && i != 1 && i != 4 ==> !f.decorations[i]
    ensures FieldGroups(f) == ["38;5;21", "48;5;196", "1", "4"]
  {
    TwoDecorationGroups(f.decorations);
    assert f.xtermFg as int == 21 && f.xtermBg as int == 196;
    assert Decimal(38) == "38" && Decimal(48) == "48" && Decimal(21) == "21" && Decimal(196) == "196";
    assert Decimal(38) + ";5;" + Decimal(21) == "38;5;21";
    assert Decimal(48) + ";5;" + Decimal(196) == "48;5;196";
    assert XTermFgGroup(f) == ["38;5;21"] && XTermBgGroup(f) == ["48;5;196"];
    assert ColorGroups(f) == ["38;5;21", "48;5;196"];
    assert Decimal(1) == "1" && Decimal(4) == "4";
  }

  lemma TwoDecorationGroups(d: seq<bool>)
    requires |d| == |ModeTable| && d[1] && d[4]
    requires forall i :: 0 <= i < |d| && i != 1 && i != 4 ==> !d[i]
    ensures DecorationGroups(d, |ModeTable|) == [Decimal(1), Decimal(4)]
  {
    assert !d[0] && !d[2] && !d[3];
    assert ModeTable[1] == 1 && ModeTable[4] == 4;
    DecorationGroupsFrom(d, 0, 1);
    assert DecorationGroups(d, 2) == DecorationGroups(d, 1) + [Decimal(1)];
    DecorationGroupsFrom(d, 2, 4);
    assert DecorationGroups(d, 5) == DecorationGroups(d, 4) + [Decimal(4)];
    DecorationGroupsFrom(d, 5, |ModeTable|);
  }

  lemma XTermUnderlineBoldFields(m: Mode)
    requires m == 0x1_2e24_5400
    ensures var f := Rendered(m);
      !f.fgSet && !f.bgSet && f.xtermFgSet && f.xtermFg == 21 && f.xtermBgSet && f.xtermBg == 196 &&
      f.decorations[1] && f.decorations[4] &&
      forall i :: 0 <= i < |f.decorations| && i != 1 && i != 4 ==> !f.decorations[i]
  {
    DecorationNames(m);
    ForcedBoldTest(m);
  }
}
