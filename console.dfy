/** The Windows console backend: a mode becomes a 16-bit console text
    attribute word, written through SetConsoleTextAttribute, and a
    registry remembers each console's attribute from before the first
    styled write so that a reset can restore it. */
module Console {
  import opened Modes
  import opened Options

  /** A console text attribute word. */
  type Attr = bv16

  /** A console handle. */
  type Handle = nat

  /** The writer set and reset receive: either a hooked console state,
      carrying the console and its attribute word at hook time, or any
      other writer. */
  datatype Sink = Plain | State(console: Handle, attr: Attr)

  const Reverse: Attr := 0x4000
  const Underscore: Attr := 0x8000
  /** What Bold turns on: bit 4, `1 << (ColorWidth - 1)`. */
  const BoldAttr: Attr := 0x0010

  /** The background set bit, `colorSet << colorWidth`. */
  const BgSet: Mode := 0x200
  /** The background index bits, `colorMask << colorWidth`. */
  const BgMask: Mode := 0x1e0
  /** The attribute's foreground nibble, `colorMask` as a word. */
  const FgNibbleMask: Attr := 0xf
  /** The attribute's background nibble, `colorMask << (colorWidth - 1)`. */
  const BgNibbleMask: Attr := 0xf0

  /** The mode bits set acts on: the two basic set bits, Reset, Bold,
      Negative and Underline. */
  const SetBits: Mode := 0x9_3000_0210
  /** The mode bits reset acts on: the same without Reset. */
  const ResetBits: Mode := 0x9_2000_0210

  lemma ConsoleConstants()
    ensures SetBits == ColorSet | (ColorSet << ColorWidth) | Reset | Bold | Negative | Underline
    ensures ResetBits == ColorSet | (ColorSet << ColorWidth) | Bold | Negative | Underline
    ensures BoldAttr == 1 << (ColorWidth as bv16 - 1)
    ensures BgSet == ColorSet << ColorWidth && BgMask == ColorMask << ColorWidth
    ensures FgNibbleMask == ColorMask as Attr && BgNibbleMask == (ColorMask as Attr) << (ColorWidth as Attr - 1)
  {
  }

  // ---------------------------------------------------------------------
  // The attribute word a mode produces.

  /** The attribute word set writes: the foreground step, then the
      background step, then the emphasis step. What each nibble and bit
      ends up as is stated by the lemmas further down. */
  function Applied(m: Mode, attr: Attr): (r: Attr)
    ensures r & 0x3f00 == attr & 0x3f00
  {
    WithEmphasis(m, WithBg(m, WithFg(m, attr)))
  }

  /** The foreground index as an attribute word, `uint16(m & colorMask)`. */
  function FgIndex(m: Mode): (a: Attr)
    ensures a & !FgNibbleMask == 0
  {
    (m & ColorMask) as Attr
  }

  /** The background index moved down to bits 4-7,
      `uint16(m & (colorMask << colorWidth)) >> 1`. */
  function BgIndex(m: Mode): (a: Attr)
    ensures a & !BgNibbleMask == 0
  {
    ((m & BgMask) as Attr) >> 1
  }

  /** The foreground step: a set foreground replaces bits 0-3. */
  function WithFg(m: Mode, attr: Attr): (r: Attr)
    ensures r & !FgNibbleMask == attr & !FgNibbleMask
  {
    if m & ColorSet != 0 then (attr & !FgNibbleMask) | FgIndex(m) else attr
  }

  /** The background step: a set background replaces bits 4-7. */
  function WithBg(m: Mode, attr: Attr): (r: Attr)
    ensures r & !BgNibbleMask == attr & !BgNibbleMask
  {
    if m & BgSet != 0 then (attr & !BgNibbleMask) | BgIndex(m) else attr
  }

  /** The emphasis step: Bold, Negative and Underline turn bits on. */
  function WithEmphasis(m: Mode, attr: Attr): (r: Attr)
    ensures r & attr == attr
  {
    attr
      | (if m & Bold != 0 then BoldAttr else 0)
      | (if m & Negative != 0 then Reverse else 0)
      | (if m & Underline != 0 then Underscore else 0)
  }

  /** The registry after hooking console `c` with attribute `attr`: the
      first attribute seen is kept. */
  function Captured(baselines: map<Handle, Attr>, c: Handle, attr: Attr): (r: map<Handle, Attr>)
    ensures c in r && baselines.Keys <= r.Keys
  {
    if c in baselines then baselines else baselines[c := attr]
  }

  /** A registry lookup that yields the zero word when the console has no
      entry, like a Go map read. */
  function Baseline(baselines: map<Handle, Attr>, c: Handle): Attr
  {
    if c in baselines then baselines[c] else 0
  }

  /** The writes set makes and the registry after it. */
  function SetEffect(m: Mode, w: Sink, baselines: map<Handle, Attr>): (r: (seq<Attr>, map<Handle, Attr>))
    ensures |r.0| <= 2 && r.1.Keys <= baselines.Keys
  {
    if m & SetBits == 0 || w.Plain? then ([], baselines)
    else
      var restore := if m & Reset != 0 then [Baseline(baselines, w.console)] else [];
      var after := if m & Reset != 0 && m & ActiveBits == Reset then baselines - {w.console} else baselines;
      (restore + [Applied(m, w.attr)], after)
  }

  /** The writes reset makes and the registry after it. */
  function ResetEffect(m: Mode, w: Sink, baselines: map<Handle, Attr>): (r: (seq<Attr>, map<Handle, Attr>))
    ensures |r.0| <= 1 && r.1.Keys <= baselines.Keys
  {
    if m & ResetBits == 0 || w.Plain? || w.console !in baselines then ([], baselines)
    else ([baselines[w.console]], baselines - {w.console})
  }

  /** The process-wide registry of baseline attributes. */
  class Consoles {
    var baselines: map<Handle, Attr>

    constructor()
      ensures baselines == map[]
    {
      baselines := map[];
    }

    /** Hooks a console: without screen-buffer information the writer is
      left plain; otherwise its attribute is recorded as the baseline
      unless one is already there. */
    method Hook(c: Handle, info: Option<Attr>) returns (s: Sink)
      modifies this
      ensures info.None? ==> s == Plain && baselines == old(baselines)
      ensures info.Some? ==> s == State(c, info.value) && baselines == Captured(old(baselines), c, info.value)
    {
      if info.None? {
        return Plain;
      }
      s := State(c, info.value);
      if c !in baselines {
        baselines := baselines[c := info.value];
      }
    }

    /** Sets the console attribute for `m`, returning the words written:
      with Reset the baseline first (and the entry dropped when Reset is
      the only active bit), then the attribute word built from the hooked
      one, field by field. */
    method Set(m: Mode, w: Sink) returns (writes: seq<Attr>)
      modifies this
      ensures writes == SetEffect(m, w, old(baselines)).0
      ensures baselines == SetEffect(m, w, old(baselines)).1
    {
      writes := [];
      if m & SetBits == 0 {
        return;
      }
      if w.Plain? {
        return;
      }
      if m & Reset != 0 {
        writes := writes + [Baseline(baselines, w.console)];
        if m & ActiveBits == Reset {
          baselines := baselines - {w.console};
        }
      }
      var attr := Build(m, w.attr);
      writes := writes + [attr];
      assert writes == (if m & Reset != 0 then [Baseline(old(baselines), w.console)] else []) + [Applied(m, w.attr)];
    }

    /** Restores a console's baseline and forgets it; a console without
      one is left alone. */
    method Restore(m: Mode, w: Sink) returns (writes: seq<Attr>)
      modifies this
      ensures writes == ResetEffect(m, w, old(baselines)).0
      ensures baselines == ResetEffect(m, w, old(baselines)).1
    {
      writes := [];
      if m & ResetBits == 0 {
        return;
      }
      if w.State? && w.console in baselines {
        writes := [baselines[w.console]];
        baselines := baselines - {w.console};
      }
    }
  }

  /** The read-modify-write steps of set on the hooked attribute word. */
  method Build(m: Mode, attr0: Attr) returns (attr: Attr)
    ensures attr == Applied(m, attr0)
  {
    attr := SetFg(m, attr0);
    attr := SetBg(m, attr);
    attr := SetEmphasis(m, attr);
  }

  /** `s.attr &^= colorMask; s.attr |= uint16(m & colorMask)` when the
      foreground is set. */
  method SetFg(m: Mode, attr0: Attr) returns (attr: Attr)
    ensures attr == WithFg(m, attr0)
  {
    attr := attr0;
    if m & ColorSet != 0 {
      attr := attr & !FgNibbleMask;
      attr := attr | FgIndex(m);
    }
  }

  /** The same for the background nibble, one bit lower than in the mode. */
  method SetBg(m: Mode, attr0: Attr) returns (attr: Attr)
    ensures attr == WithBg(m, attr0)
  {
    attr := attr0;
    if m & BgSet != 0 {
      attr := attr & !BgNibbleMask;
      attr := attr | BgIndex(m);
    }
  }

  /** The three `|=` steps for Bold, Negative and Underline. */
  method SetEmphasis(m: Mode, attr0: Attr) returns (attr: Attr)
    ensures attr == WithEmphasis(m, attr0)
  {
    attr := attr0;
    if m & Bold != 0 {
      attr := attr | BoldAttr;
    }
    if m & Negative != 0 {
      attr := attr | Reverse;
    }
    if m & Underline != 0 {
      attr := attr | Underscore;
    }
  }

  // ---------------------------------------------------------------------
  // What the attribute word keeps and changes.

  /** The foreground nibble is the mode's foreground index when its set
      bit is on, and the old nibble otherwise. */
  lemma AppliedFg(m: Mode, attr: Attr)
    ensures Applied(m, attr) & FgNibbleMask == if m & ColorSet != 0 then FgIndex(m) else attr & FgNibbleMask
  {
  }

  /** The background nibble is the mode's background index when its set
      bit is on, and the old nibble otherwise; Bold adds bit 4 on top. */
  lemma AppliedBg(m: Mode, attr: Attr)
    ensures Applied(m, attr) & BgNibbleMask ==
      (if m & BgSet != 0 then BgIndex(m) else attr & BgNibbleMask)
      | (if m & Bold != 0 then BoldAttr else 0)
  {
  }

  /** The background index in bits 4-7 is the mode's bits 5-8. */
  lemma BgIndexIsBackground(m: Mode)
    ensures BgIndex(m) == (((m >> ColorWidth) & ColorMask) as Attr) << 4
  {
  }

  /** Bits 8-13 are never touched; bits 14 and 15 are only ever turned on,
      by Negative and Underline. */
  lemma AppliedHighBits(m: Mode, attr: Attr)
    ensures Applied(m, attr) & 0x3f00 == attr & 0x3f00
    ensures Applied(m, attr) & Reverse == (attr | (if m & Negative != 0 then Reverse else 0)) & Reverse
    ensures Applied(m, attr) & Underscore == (attr | (if m & Underline != 0 then Underscore else 0)) & Underscore
  {
  }

  /** Without a colour, set only turns bits on. */
  lemma AppliedOnlySets(m: Mode, attr: Attr)
    requires m & ColorSet == 0 && m & BgSet == 0
    ensures Applied(m, attr) & attr == attr
  {
  }

  /** A mode without any of the attribute bits leaves the word as it was. */
  lemma AppliedIdentity(m: Mode, attr: Attr)
    requires m & ResetBits == 0
    ensures Applied(m, attr) == attr
  {
  }

  // ---------------------------------------------------------------------
  // The registry.

  /** Hooking keeps the first attribute seen: a second hook changes
      nothing, and no other console's entry is touched. */
  lemma CaptureFirstWins(baselines: map<Handle, Attr>, c: Handle, a1: Attr, a2: Attr)
    ensures Captured(Captured(baselines, c, a1), c, a2) == Captured(baselines, c, a1)
    ensures c in Captured(baselines, c, a1)
    ensures Captured(baselines, c, a1)[c] == if c in baselines then baselines[c] else a1
    ensures forall d :: d != c ==> (d in Captured(baselines, c, a1) <==> d in baselines)
    ensures forall d :: d != c && d in baselines ==> Captured(baselines, c, a1)[d] == baselines[d]
  {
  }

  /** Hook then reset: the attribute seen at the first hook is written
      back and the registry is as before. */
  lemma HookResetRoundTrip(baselines: map<Handle, Attr>, c: Handle, a: Attr, x: Attr, m: Mode)
    requires c !in baselines
    requires m & ResetBits != 0
    ensures ResetEffect(m, State(c, x), Captured(baselines, c, a)) == ([a], baselines)
  {
    assert Captured(baselines, c, a) - {c} == baselines;
  }

  /** Reset on a console with no baseline writes nothing. */
  lemma ResetMissSilent(baselines: map<Handle, Attr>, m: Mode, w: Sink)
    requires w.State? ==> w.console !in baselines
    ensures ResetEffect(m, w, baselines) == ([], baselines)
  {
  }

  /** Hook then a bare Reset: the baseline is written, then the hooked
      attribute unchanged, and the registry is as before. */
  lemma BareResetRestores(baselines: map<Handle, Attr>, c: Handle, a: Attr, x: Attr)
    requires c !in baselines
    ensures SetEffect(Reset, State(c, x), Captured(baselines, c, a)) == ([a, x], baselines)
  {
    var b := Captured(baselines, c, a);
    assert b - {c} == baselines;
    assert Baseline(b, c) == a;
    AppliedIdentity(Reset, x);
    assert Reset & SetBits != 0 && Reset & ActiveBits == Reset;
    assert [Baseline(b, c)] + [Applied(Reset, x)] == [a, x];
  }

  /** When set acts, its last write is the attribute built from the
      hooked word, whatever the registry holds: the baseline is written
      before it but never built on. */
  lemma SetBuildsOnHooked(m: Mode, w: Sink, b1: map<Handle, Attr>, b2: map<Handle, Attr>)
    requires m & SetBits != 0 && w.State?
    ensures var ws1, ws2 := SetEffect(m, w, b1).0, SetEffect(m, w, b2).0;
      |ws1| == |ws2| > 0 && ws1[|ws1| - 1] == ws2[|ws2| - 1] == Applied(m, w.attr)
  {
  }

  /** The entry is dropped by set only when Reset is the only active bit. */
  lemma SetDropsIff(m: Mode, c: Handle, x: Attr, baselines: map<Handle, Attr>)
    requires c in baselines
    ensures (c !in SetEffect(m, State(c, x), baselines).1) == (m & ActiveBits == Reset)
  {
    if m & ActiveBits == Reset {
      ResetInSetBits(m);
    }
  }

  lemma ResetInSetBits(m: Mode)
    requires m & ActiveBits == Reset
    ensures m & SetBits != 0 && m & Reset != 0
  {
  }

  /** XTerm colours and the decorations set ignores write nothing. */
  lemma IgnoredModes(x: bv8, y: bv8, w: Sink, baselines: map<Handle, Attr>)
    ensures var m := XTermFg(x) | XTermBg(y) | Faint | Italic | BlinkSlow | BlinkRapid | Conceal | CrossedOut | NoResetAfter;
      SetEffect(m, w, baselines) == ([], baselines) && ResetEffect(m, w, baselines) == ([], baselines)
  {
    var m := XTermFg(x) | XTermBg(y) | Faint | Italic | BlinkSlow | BlinkRapid | Conceal | CrossedOut | NoResetAfter;
    IgnoredBits(XTermFg(x), XTermBg(y), m);
  }

  lemma IgnoredBits(a: Mode, b: Mode, m: Mode)
    requires a & !XTermFgRegion == 0 && b & !XTermBgRegion == 0
    requires m == a | b | Faint | Italic | BlinkSlow | BlinkRapid | Conceal | CrossedOut | NoResetAfter
    ensures m & SetBits == 0 && m & ResetBits == 0
  {
  }

  /** Bright white on red from a zero attribute: `0x001f`. */
  lemma WhiteOnRedAttr()
    ensures Applied(Fg(White) | Bg(Red), 0) == 0x001f
  {
    WhiteOnRed();
  }

  /** XTerm colours with Underline and Bold from a zero attribute: only
      Underline and Bold act, `0x8010`. */
  lemma XTermUnderlineBoldAttr()
    ensures Applied(XTermFg(21) | XTermBg(196) | Underline | Bold, 0) == 0x8010
  {
    XTermUnderlineBold();
  }
}
