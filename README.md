# ct — terminal text styling, modelled in Dafny

`ct` (Go) describes a terminal text style as a `Mode`, a 64-bit word.

- Four fragments of it are colours: a basic foreground and a basic background (a 4-bit index plus a "set" bit each), and an XTerm 256-colour foreground and background (an 8-bit index plus a "set" bit each).
- Above the colours are ten decoration flags: Reset, Bold, Faint, Italic, Underline, BlinkSlow, BlinkRapid, Negative, Conceal and CrossedOut.
- The top bit is `NoResetAfter`.

`Mode.Paint(values...)` returns a value whose `Format` method writes three things: the mode's start sequence, the values formatted with the same `%` directive the caller used, and, when needed, a trailing reset. Two back ends render a mode:

- **The ANSI back end** writes an SGR control sequence. Its shape is `ESC [`, then `;`-separated parameters, then `m` (ECMA-48 sections 5.4 and 8.3.117). The parameters are:
  - `30+i` and `40+i` for the basic colours;
  - `38;5;n` and `48;5;n` for XTerm colours;
  - `0`..`9` for the decorations.
- **The Windows back end** rewrites a 16-bit console attribute word. It keeps a process-wide registry of each console's baseline attribute, captures the first one seen, and restores and forgets it on reset.

The Dafny project has six modules, one file each:

- `Options` (`options.dfy`): the `Option` datatype shared by the formatter state and the console query.
- `Modes` (`modes.dfy`): the `Mode` word as `bv64`, its constants and colour constructors. Also `Decode`, the field view that the rest of the model reasons about.
- `Strings` (`strings.dfy`): `Decimal`, which models Go's `%d` of a natural number, and `Join`.
- `Ansi` (`ansi.dfy`): the SGR renderer.
  - `Sgr(m)` is a pure specification: the prefix, the parameter groups joined by `;`, then `m`.
  - `Set` is the imperative renderer. It walks a shifted copy of the mode with a `printed` flag and is proved equal to `Sgr`.
- `Paint` (`paint.dfy`): `Format`. It has three parts:
  - the `%` directive rebuilt from the formatter state, with a parser proved to invert it;
  - the value loop with its space rule;
  - the prefix and reset conditions.
- `Console` (`console.dfy`): the Windows attribute arithmetic and the baseline registry. The registry is a class `Consoles` that holds a `map` field. Each call takes the console handle and its current attribute word and returns the list of attribute words it writes.

Where the code and its own documentation disagree, the model follows the code:

- The layout comment at `ct.go:66-78` places the background colour at bits 5-7 and its set bit at bit 8. The constants (`ct.go:49-57, 82-93`) give:
  - bits 0-3: foreground; bit 4: its set bit;
  - bits 5-8: background; bit 9: its set bit;
  - bits 10-17 and 18: XTerm foreground and its set bit;
  - bits 19-26 and 27: XTerm background and its set bit;
  - bits 28-37: decorations;
  - bit 63: `NoResetAfter`.

  `Modes.ConstantsAsDerived` and `Modes.RegionsDisjoint` prove this layout.
- On Windows, Bold ORs in `1 << (colorWidth-1)`, which is `0x0010`. That is attribute bit 4, the lowest background bit, not an intensity bit of the foreground.

## Model

| member | source | states |
|---|---|---|
| Modes.ConstantsAsDerived | ct.go:48-93 | The literal constants equal the Go constant expressions: set bits, masks, `colorBits = 28`, each decoration `1 << (28+k)`, `NoResetAfter = 1 << 63`, and `activeBits` as built from them |
| Modes.Decode | ct.go:48-93 | Reading a mode's fields yields exactly ten decoration flags, one per decoration constant |
| Modes.DecorationNames | ct.go:82-92 | Decoration flag k of a decoded mode is on exactly when the mode has the k-th decoration constant (Reset, Bold, …, CrossedOut) |
| Modes.WalkedNames | mode.go:60-69 | The ten low bits of the mode shifted right by `colorBits` are Reset..CrossedOut, in table order |
| Modes.WalkedBits | mode.go:60-69 | After `colorBits + k` right shifts, the low bit is the k-th decoration constant of the original mode |
| Modes.NoResetAfterUnread | ct.go:93 | Setting `NoResetAfter` changes no decoded field |
| Modes.NoResetAfterColors | ct.go:93 | Setting `NoResetAfter` leaves all four colours and their set bits unchanged |
| Modes.NoResetAfterDecorations | ct.go:93 | Setting `NoResetAfter` leaves every decoration flag unchanged |
| Modes.NoResetAfterFlags | ct.go:82-93 | Setting `NoResetAfter` leaves each of the ten decoration bits unchanged |
| Modes.ResetAlone | ct.go:59-60 | When Reset is the only active bit, no colour is set and Reset is the only decoration on |
| Modes.ResetAloneBits | ct.go:59-60 | When Reset is the only active bit, every colour set bit and every decoration other than Reset is clear |
| Modes.ParameterBitsSplit | mode.go:39-69 | A mode has no bit that yields an SGR parameter iff its four set bits and ten decoration bits are all clear |
| Modes.BoldOnlyTouchesBold | mode.go:36-38 | `m OR Bold` decodes to the fields of `m` with only the Bold flag switched on |
| Modes.BoldColors | mode.go:36-38 | Forcing Bold leaves every colour field unchanged |
| Modes.BoldFlags | mode.go:36-38 | Forcing Bold sets the walked Bold flag and keeps the other walked flags |
| Modes.BoldBits | mode.go:36-38 | ORing Bold keeps the Reset bit and the bits above Bold, and sets the Bold bit |
| Modes.LowBits | ct.go:37 | Go's `Mode(c) & colorMask` of a signed colour is the Euclidean remainder of `c` modulo 16 |
| Modes.Fg | ct.go:37 | `Fg(c)` has no bits outside bits 0-4, sets the foreground set bit, and reads back `c mod 16` as the foreground |
| Modes.Bg | ct.go:40 | `Bg(c)` equals `Fg(c) << 5`, has no bits outside bits 5-9, and reads back `c mod 16` as the background |
| Modes.XTermFg | ct.go:43 | `XTermFg(c)` lies in bits 10-18, sets bit 18, and reads back the full 8-bit index |
| Modes.XTermBg | ct.go:46 | `XTermBg(c)` lies in bits 19-27, sets bit 27, and reads back the full 8-bit index |
| Modes.RegionsDisjoint | ct.go:37-57 | The four colour regions, the decoration region and `NoResetAfter` are pairwise disjoint, and the four colour regions fill bits 0-27 |
| Modes.DecorationBits | ct.go:82-92 | The k-th decoration constant is the single bit `28 + k` and lies in the decoration region |
| Modes.LowDecorationBits | ct.go:82-87 | Reset..Underline are the single bits 28-32 |
| Modes.HighDecorationBits | ct.go:88-92 | BlinkSlow..CrossedOut are the single bits 33-37 |
| Modes.ComposeReadsBack | ct.go:37-46 | OR-ing the four colour constructors and any decorations keeps each fragment recoverable by its region mask, and `NoResetAfter` stays clear |
| Modes.ActiveBitsContents | ct.go:59-60 | `activeBits` is the four set bits plus bits 28-62. It excludes the colour-index bits and `NoResetAfter`, and contains every parameter-producing bit |
| Modes.InactiveExamples | ct_test.go:27-33 | `0`, `NoResetAfter`, `0xf`, `0xf<<5`, `0xff<<10` and `0xff<<19` are inactive; Reset and each colour constructor are active |
| Modes.Active | ct.go:139 | A mode renders iff it has a parameter-producing bit or one of the idle active bits 38-62 |
| Modes.IdleBitsUnread | ct.go:59-60 | Bits 38-62 are active, yet adding any of them changes no decoded field |
| Modes.WhiteOnRed | ct_test.go:34 | `Fg(White) OR Bg(Red)` is `0x23f` |
| Modes.XTermUnderlineBold | ct_test.go:38 | `XTermFg(21) OR XTermBg(196) OR Underline OR Bold` is `0x1_2e24_5400` |
| Strings.Decimal | mode.go:45 | `%d` of a natural number is a non-empty digit string with no leading zero, and it has one digit exactly below 10 |
| Strings.DecimalRoundTrip | mode.go:45 | Reading the digits of `Decimal(n)` back gives `n` |
| Strings.DecimalInjective | mode.go:45 | Distinct numbers print differently |
| Strings.JoinSnoc | mode.go:42-46 | Appending a group writes `;` before it exactly when something was written already |
| Strings.JoinClean | mode.go:42-66 | Joining non-empty `;`-free groups gives a string with no empty field and no leading or trailing `;`, and it is empty iff there are no groups |
| Ansi.Rendered | mode.go:36-38 | The rendered fields have exactly one flag per `modeTable` entry |
| Ansi.Sgr | mode.go:34-71 | The reference SGR sequence: at least three characters, starting with `ESC [` and ending with `m` |
| Ansi.Groups | mode.go:36-69 | The reference parameter list of a mode has at most 14 groups (four colours and ten decorations) |
| Ansi.ColorGroups | mode.go:40-59 | At most four colour groups are written |
| Ansi.DecorationGroups | mode.go:60-69 | At most one group per decoration walked |
| Ansi.Low3 | mode.go:45 | The basic colour offset `idx & 7` is below 8 |
| Ansi.Set | mode.go:34-71 | The imperative renderer writes exactly `Sgr(mode)`: `ESC [`, the groups joined by `;`, then `m` |
| Ansi.BasicColors | mode.go:40-49 | The basic-colour loop writes the groups for codes 30 and 40 in order and leaves the mode shifted by 10 |
| Ansi.BasicRound | mode.go:41-48 | One basic-colour round writes `;` only when something was printed, then `idx&7 + code` when the set bit is on |
| Ansi.BasicsRead | mode.go:40-49 | The two basic rounds write the foreground group, then the background group, of the decoded mode |
| Ansi.BasicsShift | mode.go:48 | After the two basic rounds the walked mode is the original shifted right by 10 |
| Ansi.BasicGroups | mode.go:40-49 | The round for code 30 reads the foreground, and the round for code 40 reads the background after one shift |
| Ansi.XTermColors | mode.go:50-59 | The XTerm loop writes the groups for codes 38 and 48 in order and leaves the mode shifted by 18 |
| Ansi.XTermsRead | mode.go:50-59 | The two XTerm rounds write the XTerm foreground group, then the XTerm background group, of the decoded mode |
| Ansi.XTermTwoRounds | mode.go:50-59 | The XTerm loop runs exactly two rounds, for 38 and then 48 |
| Ansi.XTermsShift | mode.go:58 | After the XTerm rounds the walked mode is the original shifted right by `colorBits` |
| Ansi.XTermGroups | mode.go:50-59 | The round for 38 reads the XTerm foreground, and the round for 48 reads the XTerm background |
| Ansi.DecorationParams | mode.go:60-69 | The decoration loop writes `modeTable[k]` for each set flag k, in ascending order, with `;` separators |
| Ansi.DecorationRound | mode.go:61-67 | One decoration round writes `modeTable[k]` (with a separator when needed) exactly when the low bit is set |
| Ansi.DecorationStep | mode.go:61-68 | Round k reads flag k from the low bit, and the shifted mode carries the remaining flags |
| Ansi.BoldedFields | mode.go:36-38 | The mode after the forced-bold test decodes to the rendered fields |
| Ansi.WriteParam | mode.go:42-46 | Writing a parameter adds `;` before it exactly when one was printed already, and then records it as printed |
| Ansi.WriteReset | mode.go:73 | `reset` writes exactly `ESC [ 0 m`, which is the SGR of bare Reset |
| Ansi.ForcedBoldTest | mode.go:36 | The shifted mask test `== 0x3` holds iff the foreground is set and its index has bit 3 |
| Ansi.FgField | mode.go:41-45 | The first round's set bit and `m&7 + 30` are the decoded foreground's set bit and `30 + (fg & 7)` |
| Ansi.BgField | mode.go:41-48 | After one shift, the set bit and `m&7 + 40` are the decoded background's set bit and `40 + (bg & 7)` |
| Ansi.XTermFields | mode.go:51-58 | The XTerm rounds read the decoded XTerm set bits and full indices, and end at the decorations |
| Ansi.DecorationGroupsDigits | mode.go:60-69 | Every decoration parameter is one digit |
| Ansi.ColorGroupsWide | mode.go:40-59 | Every colour parameter is at least two characters |
| Ansi.DecorationGroupsHas | mode.go:60-69 | Decoration code j is written iff flag j is among those walked and is on |
| Ansi.DecorationIff | mode.go:36-69 | Parameter k in 0..9 appears iff decoration k is set, or k is 1 and the foreground forces bold |
| Ansi.BoldIff | mode.go:36-69 | `1` appears iff Bold is set, or the foreground set bit and index bit 3 are both on |
| Ansi.BasicGroupsDiffer | mode.go:45 | A `3x` code is never equal to a `4x` code |
| Ansi.XTermGroupsDiffer | mode.go:55 | A `38;5;x` group never equals a `48;5;y` group |
| Ansi.RenderedColors | mode.go:36-38 | Forcing bold changes no colour field |
| Ansi.BasicGroupsOnly | mode.go:39-69 | A two-character parameter appears iff it is the basic foreground or basic background group |
| Ansi.XTermGroupsOnly | mode.go:39-69 | A parameter with `;` at position 2 appears iff it is an XTerm foreground or background group |
| Ansi.FieldsFgIff | mode.go:40-49 | Over decoded fields, `30 + (fg&7)` appears iff the foreground is set |
| Ansi.FieldsBgIff | mode.go:40-49 | Over decoded fields, `40 + (bg&7)` appears iff the background is set |
| Ansi.FieldsXTermFgIff | mode.go:50-59 | Over decoded fields, `38;5;n` appears iff the XTerm foreground is set |
| Ansi.FieldsXTermBgIff | mode.go:50-59 | Over decoded fields, `48;5;n` appears iff the XTerm background is set |
| Ansi.FgIff | mode.go:40-49 | `30 + (fg&7)` is among the mode's parameters iff the foreground set bit is on |
| Ansi.BgIff | mode.go:40-49 | `40 + (bg&7)` is among the mode's parameters iff the background set bit is on |
| Ansi.XTermFgIff | mode.go:50-59 | `38;5;n` is among the mode's parameters iff the XTerm foreground set bit is on |
| Ansi.XTermBgIff | mode.go:50-59 | `48;5;n` is among the mode's parameters iff the XTerm background set bit is on |
| Ansi.DecorationGroupsEmpty | mode.go:60-69 | No decoration parameter is written iff no walked flag is on |
| Ansi.OneDecorationGroup | mode.go:60-69 | With exactly one flag j on, the decorations write just `j` |
| Ansi.BareResetSgr | mode.go:60-70 | A mode whose only active bit is Reset renders as `ESC [ 0 m` |
| Ansi.NoResetAfterSgr | mode.go:60-69 | `NoResetAfter` contributes nothing to the rendered sequence |
| Ansi.IdleBitsSgr | mode.go:60-69 | Bits 38-62 contribute nothing: adding any of them leaves the SGR sequence unchanged |
| Ansi.GroupsEmptyIff | mode.go:39-69 | The parameter list is empty iff no set bit and no decoration bit is on |
| Ansi.InactiveNoGroups | ct.go:59-60 | An inactive mode produces no parameters |
| Ansi.DecorationGroupsDistinct | mode.go:60-69 | Decoration parameters are pairwise distinct |
| Ansi.ColorGroupsDistinct | mode.go:40-59 | Colour parameters are pairwise distinct |
| Ansi.BasicPairDistinct | mode.go:40-49 | The basic fg and bg parameters differ and are two characters each |
| Ansi.XTermPairDistinct | mode.go:50-59 | The XTerm fg and bg parameters differ and are longer than two characters |
| Ansi.GroupsDistinct | mode.go:36-69 | No parameter appears twice; in particular Bold is written once even when it is both requested and forced |
| Ansi.DecimalClean | mode.go:45 | A decimal parameter contains no `;` |
| Ansi.XTermGroupClean | mode.go:55 | `38;5;n` and `48;5;n` have no empty field and no leading or trailing `;` |
| Ansi.GroupsClean | mode.go:39-69 | Every parameter is non-empty and has no empty `;` field |
| Ansi.GroupIsNumeral | mode.go:45-65 | Every parameter that is not an XTerm group is the decimal of some number |
| Ansi.DecorationGroupsNumerals | mode.go:65 | Every decoration parameter is the decimal of some number |
| Ansi.SgrShape | mode.go:34-71 | Every rendered sequence starts with `ESC [` and ends with `m`. The body has no empty field and no stray `;`, and it is empty iff there are no parameters |
| Ansi.WhiteOnRedSgr | ct_test.go:34 | `Fg(White) OR Bg(Red)` renders `ESC [37;41;1m`, with bold forced by the bright white |
| Ansi.WhiteOnRedSgrOf | ct_test.go:34 | The mode `0x23f` renders `ESC [37;41;1m` |
| Ansi.WhiteOnRedFields | ct_test.go:34 | `0x23f` renders foreground 7, background 1 and the forced Bold, and nothing else |
| Ansi.WhiteOnRedGroups | mode.go:39-69 | Those fields give exactly the parameters `37`, `41`, `1` |
| Ansi.XTermUnderlineBoldSgr | ct_test.go:38 | `XTermFg(21) OR XTermBg(196) OR Underline OR Bold` renders `ESC [38;5;21;48;5;196;1;4m` |
| Ansi.XTermUnderlineBoldSgrOf | ct_test.go:38 | The mode `0x1_2e24_5400` renders `ESC [38;5;21;48;5;196;1;4m` |
| Ansi.XTermUnderlineBoldFields | ct_test.go:38 | That mode has XTerm foreground 21, XTerm background 196, Bold and Underline, and nothing else |
| Ansi.XTermUnderlineBoldGroups | mode.go:50-69 | Those fields give exactly the parameters `38;5;21`, `48;5;196`, `1`, `4` |
| Paint.SetFlagsContents | ct.go:150-154 | The flags written are exactly the set ones among `+-# 0`, each once, in that order |
| Paint.Directive | ct.go:149-163 | The reference directive starts with `%` and ends with the verb |
| Paint.SetFlags | ct.go:150-154 | At most one character per candidate flag is written |
| Paint.BuildDirective | ct.go:149-163 | The imperative flag loop builds exactly the directive: `%`, flags, width, `.precision`, verb |
| Paint.SetFlagsChars | ct.go:150-154 | The characters written are the intersection of the given flags with `+-# 0` |
| Paint.PrecisionRoundTrip | ct.go:158-162 | Parsing `.precision` and the verb back recovers the precision and the verb |
| Paint.WidthRoundTrip | ct.go:155-162 | Parsing the width, precision and verb back recovers them |
| Paint.FlagsRoundTrip | ct.go:150-162 | Parsing the ordered flags back recovers the flag set restricted to `+-# 0` |
| Paint.DirectiveRoundTrip | ct.go:149-163 | Parsing the rebuilt directive recovers the flags, width, precision and verb (for a verb that is not a flag, digit or `.`, and a width other than 0) |
| Paint.Format | ct.go:138-177 | Format writes the prefix, then the values under the rebuilt directive, then the suffix |
| Paint.Painted | ct.go:138-177 | The reference output of Format: prefix, then the values under the rebuilt directive, then the suffix |
| Paint.Prefix | ct.go:139-141 | The prefix is empty iff the mode is inactive |
| Paint.ResetsAfter | ct.go:174 | When the reset follows, some active bit other than Reset is on and `NoResetAfter` is clear |
| Paint.Suffix | ct.go:174-176 | The suffix is non-empty iff the reset condition holds |
| Paint.WritePrefix | ct.go:139-141 | The SGR sequence is written iff the mode is active |
| Paint.WriteSuffix | ct.go:174-176 | The reset is written iff the mode is active, is not bare Reset, and lacks `NoResetAfter` |
| Paint.WriteValues | ct.go:165-172 | The value loop and its `prevString` flag write each value's text, with a space before it exactly when it and its predecessor are non-nil strings |
| Paint.Piece | ct.go:166-171 | One value as written: its formatted text, preceded by at most one extra character (the space) |
| Paint.Pieces | ct.go:165-172 | The reference text of the first k values, each written as its Piece, in order |
| Paint.Outputs | ct.go:171 | One formatted text per value, in order |
| Paint.NoSpacesBetween | ct.go:165-172 | When no two consecutive values are both string-like, the values are written back to back (`4, 2` gives `42`) |
| Paint.SpacesBetweenStrings | ct.go:165-172 | When every value is string-like, the texts are joined by single spaces |
| Paint.InactivePassthrough | ct.go:139-176 | An inactive mode writes only the formatted values: no prefix and no reset |
| Paint.ActivePrefix | ct.go:139-141 | An active mode's output starts with its SGR sequence |
| Paint.BareResetOutput | ct.go:174-176 | Bare Reset writes `ESC [0m` and then the values, with no trailing reset |
| Paint.NoResetAfterDropsReset | ct.go:174-176 | For an active, non-bare-Reset mode, adding `NoResetAfter` removes exactly the trailing `ESC [0m` |
| Paint.NoResetAfterActive | ct.go:59-60 | `NoResetAfter` does not change which active bits are on |
| Paint.AnswerExample | ct_test.go:40 | A Stringer, three strings and the numbers 4 and 2 write `{s0} s1 s2 s3` followed by `42` |
| Paint.AnswerPieces | ct_test.go:40 | The same six values, held in a sequence, write that text |
| Paint.AnswerPiece | ct_test.go:40 | Each of the six values writes its text, with a space only before strings that follow a string |
| Console.ConsoleConstants | mode_windows.go:98-144 | The guard masks of set and reset, Bold's `0x0010`, and the background mask and nibble are the Go expressions they come from |
| Console.FgIndex | mode_windows.go:123 | The foreground index occupies only attribute bits 0-3 |
| Console.BgIndex | mode_windows.go:127 | The background index occupies only attribute bits 4-7 |
| Console.Applied | mode_windows.go:121-138 | The reference attribute word set writes; it never changes attribute bits 8-13 |
| Console.WithFg | mode_windows.go:121-124 | The foreground step changes nothing outside attribute bits 0-3 |
| Console.WithBg | mode_windows.go:125-128 | The background step changes nothing outside attribute bits 4-7 |
| Console.WithEmphasis | mode_windows.go:130-138 | The emphasis step only sets bits and never clears one |
| Console.Captured | mode_windows.go:89-93 | After a capture the console has an entry and no entry was removed |
| Console.Baseline | mode_windows.go:114 | The registry read of set: the stored baseline, or the zero word on a miss |
| Console.SetEffect | mode_windows.go:103-141 | The reference effect of set: at most two writes, and the registry only loses entries |
| Console.ResetEffect | mode_windows.go:143-155 | The reference effect of reset: at most one write, and the registry only loses entries |
| Console.Consoles.constructor | mode_windows.go:50 | The registry starts empty |
| Console.Consoles.Hook | mode_windows.go:83-96 | Without buffer info the writer is left plain and the registry is unchanged. Otherwise the console and its attribute are recorded, and the baseline is captured only if none exists |
| Console.Consoles.Set | mode_windows.go:103-141 | set writes the stored baseline (0 on a miss) first when Reset is set, then exactly one attribute word. It drops the entry only when Reset is the only active bit |
| Console.Consoles.Restore | mode_windows.go:143-155 | reset writes the baseline and deletes it when one exists; on a registry miss it writes nothing |
| Console.Build | mode_windows.go:121-138 | The attribute word is the pre-call word with the foreground, background and emphasis steps applied in order |
| Console.SetFg | mode_windows.go:121-124 | The foreground step replaces bits 0-3 with the mode's index when the fg set bit is on |
| Console.SetBg | mode_windows.go:125-128 | The background step replaces bits 4-7 with mode bits 5-8 shifted right by one when the bg set bit is on |
| Console.SetEmphasis | mode_windows.go:130-138 | The emphasis step ORs in `0x0010`, `0x4000` and `0x8000` for Bold, Negative and Underline |
| Console.AppliedFg | mode_windows.go:121-124 | Attribute bits 0-3 afterwards are the mode's foreground index when it is set, and are unchanged otherwise |
| Console.AppliedBg | mode_windows.go:125-132 | Attribute bits 4-7 afterwards are the background index (or unchanged), with bit 4 forced on by Bold |
| Console.BgIndexIsBackground | mode_windows.go:127 | The shifted background bits are the mode's background colour placed in attribute bits 4-7 |
| Console.AppliedHighBits | mode_windows.go:130-138 | Bits 8-13 never change; bit 14 and bit 15 are only ever set, by Negative and Underline |
| Console.AppliedOnlySets | mode_windows.go:130-138 | Without colour set bits, the emphasis steps never clear a bit |
| Console.AppliedIdentity | mode_windows.go:121-138 | A mode with none of the guarded bits leaves the attribute unchanged |
| Console.CaptureFirstWins | mode_windows.go:89-93 | A second capture of the same console changes nothing. The first capture stores the attribute only on a miss, and other consoles' entries are untouched |
| Console.HookResetRoundTrip | mode_windows.go:143-155 | After a fresh capture of attribute a, reset writes exactly a and returns the registry to its state before the capture |
| Console.ResetMissSilent | mode_windows.go:148-153 | reset on a console with no baseline writes nothing and changes nothing |
| Console.BareResetRestores | mode_windows.go:112-140 | After a fresh capture of a, bare Reset writes a and then the hooked word, and removes the entry |
| Console.SetBuildsOnHooked | mode_windows.go:112-140 | Whatever the registry holds, the final word written is built from the pre-call attribute, not from the baseline |
| Console.SetDropsIff | mode_windows.go:115-117 | set removes a console's entry iff Reset is the only active bit |
| Console.ResetInSetBits | mode_windows.go:104-115 | A bare Reset passes set's guard and takes the Reset branch |
| Console.IgnoredModes | mode_windows.go:104-106 | XTerm colours, Faint, Italic, the blinks, Conceal, CrossedOut and `NoResetAfter` alone make set and reset no-ops |
| Console.IgnoredBits | mode_windows.go:104-106 | Such modes have none of the bits the two guards test |
| Console.WhiteOnRedAttr | ct_windows_test.go:78 | `Fg(White) OR Bg(Red)` applied to attribute 0 gives `0x001f` |
| Console.XTermUnderlineBoldAttr | ct_windows_test.go:82 | `XTermFg(21) OR XTermBg(196) OR Underline OR Bold` applied to 0 gives `0x8010` |

## Left out

- Go's `fmt` machinery is a parameter, not modelled:
  - the per-value output of `fmt.Fprintf` is a function `fprintf(format, value)`;
  - the `reflect`-based `doesString` (`ct.go:121-133`) is a predicate `doesString`;
  - `fmt.State` is reduced to its flags, width and precision.
- Writers are modelled as the string, or the list of attribute words, that an operation returns. Partial writes and write errors are not modelled.
- The Win32 plumbing is not modelled:
  - the `kernel32` procedures, `GetStdHandle` and the `panic` in `hook`;
  - `unsafe` pointers.

  A console is a natural-number handle plus its current attribute word.
- `GetConsoleScreenBufferInfo` is not modelled. Its result is an `Option` parameter of `Consoles.Hook`; `None` stands for the nil fallback.
- The `w.(state)` type assertion is modelled as the `Sink` datatype. A plain writer is `Plain`, and set and reset do nothing for it.
- `attrLock` and all concurrency are left out. On a registry miss, `reset` returns with the mutex still locked (`mode_windows.go:148-153`). That is a concurrency defect, and the sequential model only shows that nothing is written.
- The Windows build of `Format` never calls `hook`, so its writer is never a console state. The model does not wire the two together: the console back end takes the console and its attribute explicitly.
- `gopher.go` is not part of this model. It is an example program doing image and file I/O.
- `example_test.go` is not part of this model. It calls a `Mode.Render` that does not exist.
- `Mode.Paint` only pairs a mode with its values. It is the `Text` datatype, not a separate operation.
- Paint.Directive: the verb is a Dafny `char`, but Go passes a `rune`, which can be any 32-bit value; the model does not capture `WriteRune` writing U+FFFD for an invalid rune.
- Paint.DirectiveRoundTrip: proved only for a verb that is not a flag character, a digit or `.`, and for a width other than 0. Outside those, the rebuilt string does not parse uniquely. For example, width 0 prints as the `0` flag.
- Bits 38-62 are active but produce no SGR parameter. A mode whose only active bits lie there renders as `ESC [m`, and it still gets a trailing reset. The model states this through `Ansi.GroupsEmptyIff` and `Ansi.IdleBitsSgr`, and does not treat it as an error.
