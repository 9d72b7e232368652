/** Decimal rendering and separator joining: the two pieces of text
    handling that both the SGR builder and the format decorator rely on. */
module Strings {

  /** The ASCII digit for `d`. */
  function DigitChar(d: nat): (ch: char)
    requires d < 10
    ensures '0' <= ch <= '9'
    ensures DigitValue(ch) == d
  {
    (('0' as int) + d) as char
  }

  /** The value of a digit character. */
  function DigitValue(ch: char): int
  {
    (ch as int) - ('0' as int)
  }

  /** Go's `%d` (and `fmt.Print`) rendering of a non-negative integer:
      the shortest decimal numeral, without sign or leading zeros. */
  function Decimal(n: nat): (s: string)
    ensures 1 <= |s|
    ensures forall i :: 0 <= i < |s| ==> '0' <= s[i] <= '9'
    ensures (|s| == 1) == (n < 10)
    ensures n > 0 ==> s[0] != '0'
  {
    if n < 10 then [DigitChar(n)] else Decimal(n / 10) + [DigitChar(n % 10)]
  }

  /** The number a string of decimal digits denotes (reference reading of
      a numeral, most significant digit first). */
  function DigitsValue(s: string): nat
  {
    if s == [] then 0
    else
      var d := DigitValue(s[|s| - 1]);
      DigitsValue(s[..|s| - 1]) * 10 + (if 0 <= d < 10 then d else 0)
  }

  /** Reading back a rendered number gives the number. */
  lemma {:induction false} DecimalRoundTrip(n: nat)
    ensures DigitsValue(Decimal(n)) == n
  {
    var s := Decimal(n);
    if n >= 10 {
      DecimalRoundTrip(n / 10);
      assert s[..|s| - 1] == Decimal(n / 10);
    }
  }

  /** Different numbers are rendered differently. */
  lemma DecimalInjective(a: nat, b: nat)
    requires Decimal(a) == Decimal(b)
    ensures a == b
  {
    DecimalRoundTrip(a);
    DecimalRoundTrip(b);
  }

  /** `parts` joined by `sep`, as a writer that emits `sep` before every
      part but the first produces it. */
  function Join(parts: seq<string>, sep: string): string
  {
    if |parts| == 0 then []
    else if |parts| == 1 then parts[0]
    else Join(parts[..|parts| - 1], sep) + sep + parts[|parts| - 1]
  }

  /** Appending one part: the step a separator-tracking writer takes. */
  lemma JoinSnoc(parts: seq<string>, p: string, sep: string)
    ensures Join(parts + [p], sep) == if |parts| == 0 then p else Join(parts, sep) + sep + p
  {
    assert (parts + [p])[..|parts|] == parts;
  }

  /** `s` has no `ch` at either end and never two in a row. */
  predicate Clean(s: string, ch: char)
  {
    (|s| > 0 ==> s[0] != ch && s[|s| - 1] != ch) &&
    forall i :: 0 <= i < |s| - 1 ==> !(s[i] == ch && s[i + 1] == ch)
  }

  /** Joining non-empty parts that are themselves clean with a one-character
      separator gives a clean string: no leading, trailing or doubled
      separator. */
  lemma {:induction false} JoinClean(parts: seq<string>, ch: char)
    requires forall k :: 0 <= k < |parts| ==> |parts[k]| > 0 && Clean(parts[k], ch)
    ensures Clean(Join(parts, [ch]), ch)
    ensures (Join(parts, [ch]) == []) == (parts == [])
  {
    if |parts| > 1 {
      var init := parts[..|parts| - 1];
      var last := parts[|parts| - 1];
      JoinClean(init, ch);
      var a := Join(init, [ch]);
      var s := a + [ch] + last;
      assert s == Join(parts, [ch]);
      forall i | 0 <= i < |s| - 1
        ensures !(s[i] == ch && s[i + 1] == ch)
      {
        if i < |a| - 1 {
          assert s[i] == a[i] && s[i + 1] == a[i + 1];
        } else if i == |a| - 1 {
          assert s[i] == a[|a| - 1];
        } else if i == |a| {
          assert s[i + 1] == last[0];
        } else {
          assert s[i] == last[i - |a| - 1] && s[i + 1] == last[i - |a|];
        }
      }
    }
  }
}
