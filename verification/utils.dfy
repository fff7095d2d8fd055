/**
 * String helpers of Utils.kt: the JVM major-version parser and `ellipsize`.
 * (`IntRange.size`, also defined there, is `Ranges.Size`.)
 */
module Utils {
  import opened Wrappers
  import Text
  import Ranges

  /**
   * `parseJvmVersion()`: drop a leading "1.", keep the leading digits and
   * parse them; `toInt()` throws NumberFormatException when there are none
   * or the number does not fit in an `Int`.
   */
  function ParseJvmVersion(s: string): (r: Result<int, string>)
    ensures r.Ok? ==> 0 <= r.value <= Ranges.INT_MAX
  {
    var digits := Text.TakeDigits(Text.RemovePrefix(s, "1."));
    if |digits| == 0 then Err("NumberFormatException: For input string: \"\"")
    else if Text.DigitsValue(digits) > Ranges.INT_MAX then Err("NumberFormatException: For input string: \"" + digits + "\"")
    else Ok(Text.DigitsValue(digits))
  }

  /** The digits followed by a non-digit (or nothing) are the leading digits. */
  lemma {:induction false} TakeDigitsOfDigits(d: string, rest: string)
    requires Text.AllDigits(d)
    requires |rest| == 0 || !Text.IsDigit(rest[0])
    ensures Text.TakeDigits(d + rest) == d
    decreases |d|
  {
    if |d| > 0 {
      assert (d + rest)[1..] == d[1..] + rest;
      TakeDigitsOfDigits(d[1..], rest);
    } else {
      assert d + rest == rest;
    }
  }

  /** Whatever remains after the "1." prefix is dropped is parsed from its leading number. */
  lemma ParsesRemainder(s: string, n: nat, rest: string)
    requires n <= Ranges.INT_MAX
    requires |rest| == 0 || !Text.IsDigit(rest[0])
    requires Text.RemovePrefix(s, "1.") == Text.NatToString(n) + rest
    ensures ParseJvmVersion(s) == Ok(n)
  {
    TakeDigitsOfDigits(Text.NatToString(n), rest);
    Text.NatToStringRoundTrip(n);
  }

  /** A version string that starts with the number `n` (and not with "1.") parses to `n`. */
  lemma ParseJvmVersionOfNumber(n: nat, rest: string)
    requires n <= Ranges.INT_MAX
    requires |rest| == 0 || !Text.IsDigit(rest[0])
    requires !Text.StartsWith(Text.NatToString(n) + rest, "1.")
    ensures ParseJvmVersion(Text.NatToString(n) + rest) == Ok(n)
  {
    ParsesRemainder(Text.NatToString(n) + rest, n, rest);
  }

  /** "1." followed by the number `n`, as the old version scheme writes it, parses to `n`. */
  lemma ParseJvmVersionOfLegacy(n: nat, rest: string)
    requires n <= Ranges.INT_MAX
    requires |rest| == 0 || !Text.IsDigit(rest[0])
    ensures ParseJvmVersion("1." + Text.NatToString(n) + rest) == Ok(n)
  {
    var t := Text.NatToString(n) + rest;
    LegacyRemainder(t);
    assert "1." + Text.NatToString(n) + rest == "1." + t;
    ParsesRemainder("1." + t, n, rest);
  }

  /** Dropping the "1." of "1." followed by `t` leaves `t`. */
  lemma LegacyRemainder(t: string)
    ensures Text.RemovePrefix("1." + t, "1.") == t
  {
    assert ("1." + t)[..2] == "1.";
  }

  /** A version string of the old scheme: Java 8 reports "1.8.0_211". */
  lemma ParseJvmVersionOfJava8()
    ensures ParseJvmVersion("1.8.0_211") == Ok(8)
  {
    assert Text.RemovePrefix("1.8.0_211", "1.") == "8.0_211";
    TakeDigitsOfDigits("8", ".0_211");
    assert "8" + ".0_211" == "8.0_211";
    assert Text.DigitsValue("8") == 8;
  }

  /** A version string of the new scheme: Java 11 reports "11.0.4". */
  lemma ParseJvmVersionOfJava11()
    ensures ParseJvmVersion("11.0.4") == Ok(11)
  {
    assert !Text.StartsWith("11.0.4", "1.") by {
      assert "11.0.4"[..2][1] == '1';
    }
    TakeDigitsOfDigits("11", ".0.4");
    assert "11" + ".0.4" == "11.0.4";
    assert Text.DigitsValue("11") == 11 by {
      assert "11"[..1] == "1";
    }
  }

  /**
   * `ellipsize(maxLength, ellipsize)`: requires room for the marker; a
   * string that fits is kept, a longer one is cut to `maxLength` characters
   * ending with the marker.
   */
  function Ellipsize(s: string, maxLength: int, marker: string): (r: Result<string, string>)
    ensures r.Err? <==> maxLength < |marker|
    ensures r.Ok? && |s| <= maxLength ==> r.value == s
    ensures r.Ok? && |s| > maxLength ==>
              |r.value| == maxLength && Text.EndsWith(r.value, marker)
              && Text.StartsWith(s, r.value[..maxLength - |marker|])
  {
    if maxLength < |marker| then
      Err("maxLength must be at least the size of ellipsize " + marker + " but it was " + Text.IntToString(maxLength))
    else if |s| <= maxLength || |s| <= |marker| then Ok(s)
    else
      var r := s[..maxLength - |marker|] + marker;
      assert r[..maxLength - |marker|] == s[..maxLength - |marker|];
      Ok(r)
  }

  /** The result never exceeds `maxLength`, and ellipsizing it again changes nothing. */
  lemma EllipsizeIdempotent(s: string, maxLength: int, marker: string)
    requires Ellipsize(s, maxLength, marker).Ok?
    ensures |Ellipsize(s, maxLength, marker).value| <= maxLength
    ensures Ellipsize(Ellipsize(s, maxLength, marker).value, maxLength, marker) == Ellipsize(s, maxLength, marker)
  {
  }
}
