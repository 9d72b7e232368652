/** The Paint/Format decorator: a mode and a list of values, written as
    the mode's prefix, the values formatted one by one with the directive
    they were printed with, and the reset suffix. Go's `fmt` machinery is
    a parameter: `doesString` classifies a value, `fprintf` formats one. */
module Paint {
  import opened Modes
  import opened Strings
  import Ansi
  import opened Options

  /** A value handed to Paint: Go's untyped nil, or a value of type V. */
  datatype Arg<V> = Nil | Val(v: V)

  /** The styled-value unit Paint returns: the mode and its values. */
  datatype Text<V> = Text(mode: Mode, values: seq<Arg<V>>)

  /** What Format reads of `fmt.State`: which flag characters were given,
      and the width and precision when present (fmt never reports a
      negative one). */
  datatype FmtState = FmtState(flags: set<char>, width: Option<nat>, precision: Option<nat>)

  /** The flags Format asks about, in the order it writes them back. */
  const FlagOrder: string := "+-# 0"

  /** The place of a flag character in FlagOrder. */
  function FlagRank(c: char): nat
  {
    if c == '+' then 0 else if c == '-' then 1 else if c == '#' then 2 else if c == ' ' then 3 else 4
  }

  // ---------------------------------------------------------------------
  // Rebuilding the directive.

  /** The flags among the first `k` of FlagOrder that are set, in FlagOrder
      order. */
  function SetFlags(flags: set<char>, k: nat): (r: string)
    requires k <= |FlagOrder|
    ensures |r| <= k
  {
    if k == 0 then []
    else
      var c := FlagOrder[k - 1];
      SetFlags(flags, k - 1) + (if c in flags then [c] else [])
  }

  /** The flags written are exactly the set ones among the first `k` of
      FlagOrder, each once, in FlagOrder order. */
  lemma {:induction false} SetFlagsContents(flags: set<char>, k: nat)
    requires k <= |FlagOrder|
    ensures var r := SetFlags(flags, k);
      (forall c :: c in r <==> c in flags && c in FlagOrder[..k]) &&
      (forall i :: 0 <= i < |r| ==> FlagRank(r[i]) < k) &&
      (forall i, j :: 0 <= i < j < |r| ==> FlagRank(r[i]) < FlagRank(r[j]))
  {
    if k > 0 {
      SetFlagsContents(flags, k - 1);
      var c := FlagOrder[k - 1];
      assert FlagOrder[..k] == FlagOrder[..k - 1] + [c];
      assert FlagRank(c) == k - 1;
    }
  }

  /** The `%` directive Format hands to `fprintf` for each value: `%`, the
      set flags, the width, `.` and the precision, then the verb. */
  function Directive(st: FmtState, verb: char): (d: string)
    ensures |d| >= 2 && d[0] == '%' && d[|d| - 1] == verb
  {
    "%" + SetFlags(st.flags, |FlagOrder|)
    + (if st.width.Some? then Decimal(st.width.value) else [])
    + (if st.precision.Some? then "." + Decimal(st.precision.value) else [])
    + [verb]
  }

  /** Writes the directive into a buffer: `%`, a loop over FlagOrder
      asking for each flag, the width, the precision and the verb. */
  method BuildDirective(st: FmtState, verb: char) returns (format: string)
    ensures format == Directive(st, verb)
  {
    format := "%";
    for k := 0 to |FlagOrder|
      invariant format == "%" + SetFlags(st.flags, k)
    {
      var f := FlagOrder[k];
      if f in st.flags {
        format := format + [f];
      }
    }
    if st.width.Some? {
      format := format + Decimal(st.width.value);
    }
    if st.precision.Some? {
      format := format + "." + Decimal(st.precision.value);
    }
    format := format + [verb];
  }

  // ---------------------------------------------------------------------
  // Reading a directive back, as `fmt` does.

  predicate IsDigit(c: char) { '0' <= c <= '9' }

  /** Length of the leading run of flag characters. */
  function FlagSpan(s: string): (n: nat)
    ensures n <= |s|
  {
    if s != [] && s[0] in FlagOrder then 1 + FlagSpan(s[1..]) else 0
  }

  /** Length of the leading run of digits. */
  function DigitSpan(s: string): (n: nat)
    ensures n <= |s|
  {
    if s != [] && IsDigit(s[0]) then 1 + DigitSpan(s[1..]) else 0
  }

  /** A directive read back: its flags, width, precision and verb, or None
      when it is not a single directive. A width starts with a non-zero
      digit, since a leading `0` is the zero flag; `.` without digits is
      precision 0. */
  function ParseDirective(s: string): Option<(set<char>, Option<nat>, Option<nat>, char)>
  {
    if s == [] || s[0] != '%' then None else ParseFlags(s[1..])
  }

  function ParseFlags(r: string): Option<(set<char>, Option<nat>, Option<nat>, char)>
  {
    var nf := FlagSpan(r);
    ParseWidth(set i | 0 <= i < nf :: r[i], r[nf..])
  }

  function ParseWidth(flags: set<char>, r: string): Option<(set<char>, Option<nat>, Option<nat>, char)>
  {
    var nw := DigitSpan(r);
    ParsePrecision(flags, if nw == 0 then None else Some(DigitsValue(r[..nw])), r[nw..])
  }

  function ParsePrecision(flags: set<char>, width: Option<nat>, r: string): Option<(set<char>, Option<nat>, Option<nat>, char)>
  {
    if r != [] && r[0] == '.' then
      var np := DigitSpan(r[1..]);
      ParseVerb(flags, width, Some(DigitsValue(r[1..][..np])), r[1..][np..])
    else ParseVerb(flags, width, None, r)
  }

  function ParseVerb(flags: set<char>, width: Option<nat>, precision: Option<nat>, r: string): Option<(set<char>, Option<nat>, Option<nat>, char)>
  {
    if |r| == 1 then Some((flags, width, precision, r[0])) else None
  }

  lemma {:induction false} FlagSpanOf(p: string, rest: string)
    requires forall i :: 0 <= i < |p| ==> p[i] in FlagOrder
    requires rest == [] || rest[0] !in FlagOrder
    ensures FlagSpan(p + rest) == |p|
  {
    if p != [] {
      assert (p + rest)[1..] == p[1..] + rest;
      FlagSpanOf(p[1..], rest);
    }
  }

  lemma {:induction false} DigitSpanOf(p: string, rest: string)
    requires forall i :: 0 <= i < |p| ==> IsDigit(p[i])
    requires rest == [] || !IsDigit(rest[0])
    ensures DigitSpan(p + rest) == |p|
  {
    if p != [] {
      assert (p + rest)[1..] == p[1..] + rest;
      DigitSpanOf(p[1..], rest);
    }
  }

  /** The flags written are the set ones among FlagOrder. */
  lemma SetFlagsChars(flags: set<char>)
    ensures var p := SetFlags(flags, |FlagOrder|);
      (set i | 0 <= i < |p| :: p[i]) == flags * (set c | c in FlagOrder)
  {
    var p := SetFlags(flags, |FlagOrder|);
    SetFlagsContents(flags, |FlagOrder|);
    assert FlagOrder[..|FlagOrder|] == FlagOrder;
    forall c | c in flags && c in FlagOrder
      ensures c in (set i | 0 <= i < |p| :: p[i])
    {
      assert c in p;
      var i :| 0 <= i < |p| && p[i] == c;
    }
  }

  /** The digits and the rest after a numeral. */
  lemma NumeralSplit(n: nat, rest: string)
    requires rest == [] || !IsDigit(rest[0])
    ensures DigitSpan(Decimal(n) + rest) == |Decimal(n)|
    ensures (Decimal(n) + rest)[..|Decimal(n)|] == Decimal(n)
    ensures (Decimal(n) + rest)[|Decimal(n)|..] == rest
  {
    DigitSpanOf(Decimal(n), rest);
  }

  /** The text the directive holds after its flags. */
  function AfterFlags(st: FmtState, verb: char): string
  {
    (if st.width.Some? then Decimal(st.width.value) else [])
    + (if st.precision.Some? then "." + Decimal(st.precision.value) else [])
    + [verb]
  }

  /** The text the directive holds after its width. */
  function AfterWidth(st: FmtState, verb: char): string
  {
    (if st.precision.Some? then "." + Decimal(st.precision.value) else []) + [verb]
  }

  lemma PrecisionRoundTrip(flags: set<char>, st: FmtState, verb: char)
    requires !IsDigit(verb) && verb != '.'
    ensures ParsePrecision(flags, st.width, AfterWidth(st, verb)) == Some((flags, st.width, st.precision, verb))
  {
    if st.precision.Some? {
      var r := AfterWidth(st, verb);
      assert r[1..] == Decimal(st.precision.value) + [verb];
      NumeralSplit(st.precision.value, [verb]);
      DecimalRoundTrip(st.precision.value);
    }
  }

  lemma WidthRoundTrip(flags: set<char>, st: FmtState, verb: char)
    requires !IsDigit(verb) && verb != '.'
    ensures ParseWidth(flags, AfterFlags(st, verb)) == Some((flags, st.width, st.precision, verb))
  {
    var r := AfterWidth(st, verb);
    assert !IsDigit(r[0]);
    if st.width.Some? {
      assert AfterFlags(st, verb) == Decimal(st.width.value) + r;
      NumeralSplit(st.width.value, r);
      DecimalRoundTrip(st.width.value);
    } else {
      assert AfterFlags(st, verb) == r;
      assert DigitSpan(r) == 0;
    }
    PrecisionRoundTrip(flags, st, verb);
  }

  lemma FlagsRoundTrip(st: FmtState, verb: char)
    requires verb !in FlagOrder
    requires st.width != Some(0)
    ensures ParseFlags(SetFlags(st.flags, |FlagOrder|) + AfterFlags(st, verb)) ==
      ParseWidth(st.flags * (set c | c in FlagOrder), AfterFlags(st, verb))
  {
    var p, tail := SetFlags(st.flags, |FlagOrder|), AfterFlags(st, verb);
    SetFlagsContents(st.flags, |FlagOrder|);
    assert FlagOrder[..|FlagOrder|] == FlagOrder;
    assert tail[0] !in FlagOrder by {
      if st.width.Some? {
        assert tail[0] == Decimal(st.width.value)[0];
      }
    }
    FlagSpanOf(p, tail);
    assert (p + tail)[..|p|] == p && (p + tail)[|p|..] == tail;
    SetFlagsChars(st.flags);
    assert (set i | 0 <= i < |p| :: (p + tail)[i]) == (set i | 0 <= i < |p| :: p[i]);
  }

  /** Reading the rebuilt directive gives back the flags Format asked
      about, the width, the precision and the verb: `fprintf` sees the
      directive Format was called with. The verb must not be a flag, a
      digit or `.`, and a present width must not be 0 (`%0d` would read
      as the zero flag). */
  lemma DirectiveRoundTrip(st: FmtState, verb: char)
    requires verb !in FlagOrder && !IsDigit(verb) && verb != '.'
    requires st.width != Some(0)
    ensures ParseDirective(Directive(st, verb)) ==
      Some((st.flags * (set c | c in FlagOrder), st.width, st.precision, verb))
  {
    var body := SetFlags(st.flags, |FlagOrder|) + AfterFlags(st, verb);
    DirectiveBody(st, verb);
    assert ParseDirective(Directive(st, verb)) == ParseFlags(body);
    FlagsRoundTrip(st, verb);
    WidthRoundTrip(st.flags * (set c | c in FlagOrder), st, verb);
  }

  /** After its `%`, the directive is the flags and then the rest. */
  lemma DirectiveBody(st: FmtState, verb: char)
    ensures Directive(st, verb) != [] && Directive(st, verb)[0] == '%'
    ensures Directive(st, verb)[1..] == SetFlags(st.flags, |FlagOrder|) + AfterFlags(st, verb)
  {
    var d := Directive(st, verb);
    assert d == "%" + (SetFlags(st.flags, |FlagOrder|) + AfterFlags(st, verb));
  }

  // ---------------------------------------------------------------------
  // The values.

  /** A value counts as a string when it is not nil and `doesString` says
      so. */
  predicate StringLike<V>(a: Arg<V>, doesString: V -> bool)
  {
    a.Val? && doesString(a.v)
  }

  /** Value i as written: a space when it and the value before it are both
      string-like, then its formatted text. */
  function Piece<V>(values: seq<Arg<V>>, i: nat, format: string, doesString: V -> bool,
                    fprintf: (string, Arg<V>) -> string): (r: string)
    requires i < |values|
    ensures var v := fprintf(format, values[i]); |v| <= |r| <= |v| + 1 && r[|r| - |v|..] == v
  {
    (if 0 < i && StringLike(values[i - 1], doesString) && StringLike(values[i], doesString) then " " else "")
    + fprintf(format, values[i])
  }

  /** The first `k` values as written. */
  function Pieces<V>(values: seq<Arg<V>>, k: nat, format: string, doesString: V -> bool,
                     fprintf: (string, Arg<V>) -> string): string
    requires k <= |values|
  {
    if k == 0 then [] else Pieces(values, k - 1, format, doesString, fprintf) + Piece(values, k - 1, format, doesString, fprintf)
  }

  /** The prefix: the mode's SGR sequence when it is active. */
  function Prefix(m: Mode): (r: string)
    ensures (r == []) == (m & ActiveBits == 0)
  {
    if m & ActiveBits != 0 then Ansi.Sgr(m) else []
  }

  /** The reset follows when the mode is active, is not a bare Reset and
      does not carry NoResetAfter. */
  predicate ResetsAfter(m: Mode)
    ensures ResetsAfter(m) ==> (m & ActiveBits) & !Reset != 0 && m & NoResetAfter == 0
  {
    m & ActiveBits != 0 && m & ActiveBits != Reset && m & NoResetAfter == 0
  }

  /** The suffix: the reset sequence when the mode asks for it. */
  function Suffix(m: Mode): (r: string)
    ensures (r != []) == ResetsAfter(m)
  {
    if ResetsAfter(m) then Ansi.ResetSgr else []
  }

  /** Everything Format writes for text `t`. */
  function Painted<V>(t: Text<V>, st: FmtState, verb: char, doesString: V -> bool,
                      fprintf: (string, Arg<V>) -> string): string
  {
    Prefix(t.mode) + Pieces(t.values, |t.values|, Directive(st, verb), doesString, fprintf) + Suffix(t.mode)
  }

  /** Format: the prefix, the directive, the values, then the reset. */
  method Format<V>(t: Text<V>, st: FmtState, verb: char, doesString: V -> bool,
                   fprintf: (string, Arg<V>) -> string) returns (out: string)
    ensures out == Painted(t, st, verb, doesString, fprintf)
  {
    var prefix := WritePrefix(t.mode);
    var format := BuildDirective(st, verb);
    var body := WriteValues(t.values, format, doesString, fprintf);
    var suffix := WriteSuffix(t.mode);
    out := prefix + body + suffix;
  }

  /** The first step of Format: the SGR sequence of an active mode. */
  method WritePrefix(m: Mode) returns (out: string)
    ensures out == Prefix(m)
  {
    out := [];
    if m & ActiveBits != 0 {
      out := Ansi.Set(m);
    }
  }

  /** The last step of Format: the reset, under its three conditions. */
  method WriteSuffix(m: Mode) returns (out: string)
    ensures out == Suffix(m)
  {
    out := [];
    if m & ActiveBits != 0 && m & ActiveBits != Reset && m & NoResetAfter == 0 {
      out := Ansi.WriteReset();
    }
  }

  /** The value loop of Format: a `prevString` flag decides the space
      before each value. */
  method WriteValues<V>(values: seq<Arg<V>>, format: string, doesString: V -> bool,
                        fprintf: (string, Arg<V>) -> string) returns (out: string)
    ensures out == Pieces(values, |values|, format, doesString, fprintf)
  {
    out := [];
    var prevString := false;
    for i := 0 to |values|
      invariant out == Pieces(values, i, format, doesString, fprintf)
      invariant prevString == (0 < i && StringLike(values[i - 1], doesString))
    {
      var v := values[i];
      var isString := v != Nil && doesString(v.v);
      ghost var piece := (if isString && prevString then " " else "") + fprintf(format, v);
      assert Pieces(values, i + 1, format, doesString, fprintf) == out + piece;
      if isString && prevString {
        out := out + " ";
      }
      prevString := isString;
      out := out + fprintf(format, v);
    }
  }

  // ---------------------------------------------------------------------
  // What the output says.

  /** The values' texts, in order. */
  function Outputs<V>(values: seq<Arg<V>>, format: string, fprintf: (string, Arg<V>) -> string): (r: seq<string>)
    ensures |r| == |values|
    ensures forall i :: 0 <= i < |values| ==> r[i] == fprintf(format, values[i])
  {
    if values == [] then [] else Outputs(values[..|values| - 1], format, fprintf) + [fprintf(format, values[|values| - 1])]
  }

  /** `parts` run together with nothing between them. */
  function Concat(parts: seq<string>): string
  {
    if parts == [] then [] else Concat(parts[..|parts| - 1]) + parts[|parts| - 1]
  }

  /** Where no two neighbours are both string-like, the values are run
      together: `4, 2` gives `42`. */
  lemma {:induction false} NoSpacesBetween<V>(values: seq<Arg<V>>, k: nat, format: string, doesString: V -> bool,
                                              fprintf: (string, Arg<V>) -> string)
    requires k <= |values|
    requires forall i :: 0 < i < k ==> !(StringLike(values[i - 1], doesString) && StringLike(values[i], doesString))
    ensures Pieces(values, k, format, doesString, fprintf) == Concat(Outputs(values[..k], format, fprintf))
  {
    if k > 0 {
      NoSpacesBetween(values, k - 1, format, doesString, fprintf);
      var o := Outputs(values[..k], format, fprintf);
      assert values[..k][..k - 1] == values[..k - 1];
      assert o[..k - 1] == Outputs(values[..k - 1], format, fprintf);
      assert Concat(o) == Concat(o[..k - 1]) + o[k - 1];
      assert Piece(values, k - 1, format, doesString, fprintf) == o[k - 1];
    }
  }

  /** Where every value is string-like, they are joined by single spaces,
      as `fmt.Print` does for strings. */
  lemma {:induction false} SpacesBetweenStrings<V>(values: seq<Arg<V>>, k: nat, format: string, doesString: V -> bool,
                                                   fprintf: (string, Arg<V>) -> string)
    requires k <= |values|
    requires forall i :: 0 <= i < k ==> StringLike(values[i], doesString)
    ensures Pieces(values, k, format, doesString, fprintf) == Join(Outputs(values[..k], format, fprintf), " ")
  {
    if k > 0 {
      SpacesBetweenStrings(values, k - 1, format, doesString, fprintf);
      var o := Outputs(values[..k], format, fprintf);
      assert values[..k][..k - 1] == values[..k - 1];
      assert o[..k - 1] == Outputs(values[..k - 1], format, fprintf);
      assert o == o[..k - 1] + [o[k - 1]];
      JoinSnoc(o[..k - 1], o[k - 1], " ");
    }
  }

  /** An inactive mode writes the values and nothing else. */
  lemma InactivePassthrough<V>(t: Text<V>, st: FmtState, verb: char, doesString: V -> bool,
                               fprintf: (string, Arg<V>) -> string)
    requires !Active(t.mode)
    ensures Painted(t, st, verb, doesString, fprintf) == Pieces(t.values, |t.values|, Directive(st, verb), doesString, fprintf)
  {
  }

  /** An active mode starts the output with its SGR sequence. */
  lemma ActivePrefix<V>(t: Text<V>, st: FmtState, verb: char, doesString: V -> bool,
                        fprintf: (string, Arg<V>) -> string)
    requires Active(t.mode)
    ensures var out := Painted(t, st, verb, doesString, fprintf);
      |Ansi.Sgr(t.mode)| <= |out| && out[..|Ansi.Sgr(t.mode)|] == Ansi.Sgr(t.mode)
  {
  }

  /** A bare Reset writes the reset sequence before the values and no
      reset after them. */
  lemma BareResetOutput<V>(t: Text<V>, st: FmtState, verb: char, doesString: V -> bool,
                           fprintf: (string, Arg<V>) -> string)
    requires t.mode & ActiveBits == Reset
    ensures Painted(t, st, verb, doesString, fprintf) ==
      Ansi.ResetSgr + Pieces(t.values, |t.values|, Directive(st, verb), doesString, fprintf)
  {
    Ansi.BareResetSgr(t.mode);
  }

  /** NoResetAfter removes exactly the trailing reset: the output with it
      plus the reset sequence is the output without it, for an active mode
      that is not a bare Reset. */
  lemma NoResetAfterDropsReset<V>(t: Text<V>, st: FmtState, verb: char, doesString: V -> bool,
                                  fprintf: (string, Arg<V>) -> string)
    requires Active(t.mode) && t.mode & ActiveBits != Reset && t.mode & NoResetAfter == 0
    ensures Painted(t, st, verb, doesString, fprintf) ==
      Painted(t.(mode := t.mode | NoResetAfter), st, verb, doesString, fprintf) + Ansi.ResetSgr
  {
    Ansi.NoResetAfterSgr(t.mode);
    NoResetAfterActive(t.mode);
  }

  lemma NoResetAfterActive(m: Mode)
    ensures (m | NoResetAfter) & ActiveBits == m & ActiveBits
    ensures (m | NoResetAfter) & NoResetAfter != 0
  {
  }

  // ---------------------------------------------------------------------
  // A worked example: strings, a Stringer and two integers.

  /** Sample values: a string, a value with a String method, an integer. */
  datatype Sample = Str(s: string) | Stringer(s: string) | Int(n: nat)

  /** Strings and Stringers are string-like; integers are not. */
  predicate SampleDoesString(v: Sample) { !v.Int? }

  /** `%v` of a sample: the string, the Stringer's braced text, the
      numeral; nil prints as `<nil>`. */
  function SamplePrint(format: string, a: Arg<Sample>): string
  {
    match a
    case Nil => "<nil>"
    case Val(Str(s)) => s
    case Val(Stringer(s)) => "{" + s + "}"
    case Val(Int(n)) => Decimal(n)
  }

  /** A Stringer, three strings and two integers, as in
      `{fmt.Stringer} simple text and the answer is:42`: a space between
      neighbouring string-like values only, so the integers run
      together. */
  lemma AnswerExample(s0: string, s1: string, s2: string, s3: string, n4: nat, n5: nat)
    ensures Pieces([Val(Stringer(s0)), Val(Str(s1)), Val(Str(s2)), Val(Str(s3)), Val(Int(n4)), Val(Int(n5))],
                   6, "%v", SampleDoesString, SamplePrint)
            == "{" + s0 + "}" + (" " + s1) + (" " + s2) + (" " + s3) + Decimal(n4) + Decimal(n5)
  {
    AnswerPieces([Val(Stringer(s0)), Val(Str(s1)), Val(Str(s2)), Val(Str(s3)), Val(Int(n4)), Val(Int(n5))],
                 s0, s1, s2, s3, n4, n5);
  }

  lemma AnswerPieces(vs: seq<Arg<Sample>>, s0: string, s1: string, s2: string, s3: string, n4: nat, n5: nat)
    requires vs == [Val(Stringer(s0)), Val(Str(s1)), Val(Str(s2)), Val(Str(s3)), Val(Int(n4)), Val(Int(n5))]
    ensures Pieces(vs, 6, "%v", SampleDoesString, SamplePrint)
            == "{" + s0 + "}" + (" " + s1) + (" " + s2) + (" " + s3) + Decimal(n4) + Decimal(n5)
  {
    var f, d, o := "%v", SampleDoesString, SamplePrint;
    AnswerPiece(vs, s0, s1, s2, s3, n4, n5);
    assert Pieces(vs, 1, f, d, o) == "{" + s0 + "}";
    assert Pieces(vs, 2, f, d, o) == "{" + s0 + "}" + (" " + s1);
    assert Pieces(vs, 3, f, d, o) == "{" + s0 + "}" + (" " + s1) + (" " + s2);
    assert Pieces(vs, 4, f, d, o) == "{" + s0 + "}" + (" " + s1) + (" " + s2) + (" " + s3);
    assert Pieces(vs, 5, f, d, o) == "{" + s0 + "}" + (" " + s1) + (" " + s2) + (" " + s3) + Decimal(n4);
  }

  lemma AnswerPiece(vs: seq<Arg<Sample>>, s0: string, s1: string, s2: string, s3: string, n4: nat, n5: nat)
    requires vs == [Val(Stringer(s0)), Val(Str(s1)), Val(Str(s2)), Val(Str(s3)), Val(Int(n4)), Val(Int(n5))]
    ensures Piece(vs, 0, "%v", SampleDoesString, SamplePrint) == "{" + s0 + "}"
    ensures Piece(vs, 1, "%v", SampleDoesString, SamplePrint) == " " + s1
    ensures Piece(vs, 2, "%v", SampleDoesString, SamplePrint) == " " + s2
    ensures Piece(vs, 3, "%v", SampleDoesString, SamplePrint) == " " + s3
    ensures Piece(vs, 4, "%v", SampleDoesString, SamplePrint) == Decimal(n4)
    ensures Piece(vs, 5, "%v", SampleDoesString, SamplePrint) == Decimal(n5)
  {
    assert vs[0] == Val(Stringer(s0)) && vs[1] == Val(Str(s1)) && vs[2] == Val(Str(s2));
    assert vs[3] == Val(Str(s3)) && vs[4] == Val(Int(n4)) && vs[5] == Val(Int(n5));
  }
}
