/**
 * common.py: the ANSI colour codes, `colorize`, and the outcome of a unit of
 * work run under `time_limit` (which either returns or raises TimeoutException).
 */
module Common {
  import opened Strings

  // The `Color` class: SGR foreground colour codes.
  const Gray: int := 30
  const Red: int := 31
  const Green: int := 32
  const Yellow: int := 33
  const Blue: int := 34
  const Magenta: int := 35
  const Cyan: int := 36
  const White: int := 37
  const Crimson: int := 38

  const Colors: seq<int> := [Gray, Red, Green, Yellow, Blue, Magenta, Cyan, White, Crimson]

  /** The nine colour constants are the distinct codes 30 to 38, in declaration order. */
  lemma ColorCodes()
    ensures |Colors| == 9
    ensures forall k :: 0 <= k < |Colors| ==> Colors[k] == 30 + k
    ensures forall i, j :: 0 <= i < j < |Colors| ==> Colors[i] != Colors[j]
  {
  }

  const Esc: char := '\U{1B}'

  /** The reset suffix `\x1b[0m`. */
  const Reset: string := [Esc, '[', '0', 'm']

  /** The SGR code used: a highlight moves a foreground colour to its background one. */
  function ColorCode(num: int, highlight: bool): int {
    if highlight then num + 10 else num
  }

  /** The SGR parameter text `';'.join(attr)`: the code, then `1` for bold. */
  function AttrText(code: int, bold: bool): string {
    IntToString(code) + (if bold then ";1" else "")
  }

  /** What `colorize(num, s, bold, highlight)` returns. */
  function Colorized(num: int, s: string, bold: bool, highlight: bool): string {
    [Esc, '['] + AttrText(ColorCode(num, highlight), bold) + "m" + s + Reset
  }

  /** Lines 19-25: builds the attribute list by appending, then formats it. */
  method Colorize(num: int, s: string, bold: bool, highlight: bool) returns (r: string)
    ensures r == Colorized(num, s, bold, highlight)
    ensures |r| == |s| + |IntToString(ColorCode(num, highlight))| + (if bold then 2 else 0) + 7
  {
    var n := num;
    var attr: seq<string> := [];
    if highlight {
      n := n + 10;
    }
    attr := attr + [IntToString(n)];
    if bold {
      attr := attr + ["1"];
    }
    assert 1 <= |attr| <= 2;
    assert Join(";", attr) == AttrText(n, bold) by {
      if bold {
        assert attr[..1] == [IntToString(n)];
      }
    }
    r := [Esc, '['] + Join(";", attr) + "m" + s + Reset;
  }

  /**
   * Reads a coloured string back: the SGR parameter text of its opening sequence,
   * whether it ends in `;1`, and the text between the opening and the reset suffix.
   */
  function ParseColorized(r: string): (p: Option<(string, bool, string)>)
    ensures p.Some? ==> |p.value.2| <= |r|
  {
    if |r| < 2 || r[0] != Esc || r[1] != '[' || !EndsWith(r, Reset) then None
    else match IndexOf(r, 'm', 2)
      case None => None
      case Some(k) =>
        if k + 1 > |r| - 4 then None
        else
          var attrs := r[2..k];
          var body := r[k + 1..|r| - 4];
          if EndsWith(attrs, ";1") then Some((attrs[..|attrs| - 2], true, body))
          else Some((attrs, false, body))
  }

  /**
   * The input string appears verbatim between the opening sequence and the reset
   * suffix, and the opening carries the colour code and at most the bold flag.
   */
  lemma ParseColorize(num: int, s: string, bold: bool, highlight: bool)
    ensures ParseColorized(Colorized(num, s, bold, highlight))
            == Some((IntToString(ColorCode(num, highlight)), bold, s))
  {
    var code := IntToString(ColorCode(num, highlight));
    var a := AttrText(ColorCode(num, highlight), bold);
    var r := Colorized(num, s, bold, highlight);
    var p := 2 + |a|;
    assert r[p] == 'm';
    assert forall k :: 2 <= k < p ==> r[k] == a[k - 2];
    assert forall k :: 0 <= k < |a| ==> a[k] != 'm';
    assert IndexOf(r, 'm', 2) == Some(p);
    assert r[2..p] == a;
    assert r[p + 1..|r| - 4] == s;
    assert EndsWith(r, Reset);
    if bold {
      assert a[..|a| - 2] == code;
    } else {
      assert a == code;
      assert !EndsWith(a, ";1") by {
        assert |a| >= 2 ==> a[|a| - 2..][0] == a[|a| - 2] != ';';
      }
    }
  }

  /** Different inputs give different coloured strings (up to the code the highlight produces). */
  lemma ColorizedInjective(n1: int, s1: string, b1: bool, h1: bool, n2: int, s2: string, b2: bool, h2: bool)
    requires Colorized(n1, s1, b1, h1) == Colorized(n2, s2, b2, h2)
    ensures ColorCode(n1, h1) == ColorCode(n2, h2) && b1 == b2 && s1 == s2
  {
    ParseColorize(n1, s1, b1, h1);
    ParseColorize(n2, s2, b2, h2);
    IntToStringInjective(ColorCode(n1, h1), ColorCode(n2, h2));
  }

  /** With neither flag the result is `\x1b[<num>m<s>\x1b[0m`; highlight uses `num + 10`. */
  lemma ColorizedPlain(num: int, s: string)
    ensures Colorized(num, s, false, false) == [Esc, '['] + IntToString(num) + "m" + s + Reset
    ensures Colorized(num, s, false, true) == [Esc, '['] + IntToString(num + 10) + "m" + s + Reset
    ensures Colorized(num, s, true, false) == [Esc, '['] + IntToString(num) + ";1m" + s + Reset
  {
  }

  /** The message TimeoutException carries: red highlighted, so code 41. */
  function TimedOutMessage(): (m: string)
    ensures m == [Esc] + "[41m   *** Timed out!" + Reset
  {
    Colorized(Red, "   *** Timed out!", false, true)
  }

  /** How a unit of work run under `time_limit` can end, when it does not return normally. */
  datatype Failure = TimeoutException(message: string) | OtherException
}
