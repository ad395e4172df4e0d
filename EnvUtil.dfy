/**
 * The JDK version test of logback's `EnvUtil`: the scan that turns a
 * `java.version` string into a major version number, and the threshold
 * tests built on it. The system property is read by the caller and passed
 * in; a missing property is the empty string, the default that
 * `System.getProperty("java.version", "")` supplies.
 */
module EnvUtil {
  import opened JavaLang

  /** `Character.isDigit`, restricted to the ASCII digits. */
  predicate IsDigit(c: char) {
    '0' <= c <= '9'
  }

  /** What the scan adds for a digit: the character code minus 48. */
  function DigitValue(c: char): int {
    c as int - 48
  }

  predicate AllDigits(s: string) {
    forall k :: 0 <= k < |s| ==> IsDigit(s[k])
  }

  /** The length of the longest prefix of `s` made of digits. */
  function DigitRunLength(s: string): (n: nat)
    ensures n <= |s|
    ensures n < |s| ==> !IsDigit(s[n])
  {
    if s != [] && IsDigit(s[0]) then 1 + DigitRunLength(s[1..]) else 0
  }

  /** The leading run is made of digits. */
  lemma {:induction false} DigitRunIsDigits(s: string)
    ensures AllDigits(s[..DigitRunLength(s)])
  {
    if s != [] && IsDigit(s[0]) {
      DigitRunIsDigits(s[1..]);
      assert s[..DigitRunLength(s)] == [s[0]] + s[1..][..DigitRunLength(s[1..])];
    }
  }

  /** The exact decimal value of a digit string, most significant digit first. */
  function DecimalValue(digits: string): int {
    if digits == [] then 0
    else DecimalValue(digits[..|digits| - 1]) * 10 + DigitValue(digits[|digits| - 1])
  }

  /**
   * What the scan's `version * 10 + (ch - 48)` steps accumulate over a digit
   * string, each step wrapping as Java `int` arithmetic does.
   */
  function Accumulate(digits: string): Int32 {
    if digits == [] then 0
    else ToInt(Accumulate(digits[..|digits| - 1]) * 10 + DigitValue(digits[|digits| - 1]))
  }

  /**
   * The version a `java.version` string denotes, stated run by run: the value
   * of its leading digit run, except that a run worth exactly 1 followed by a
   * non-digit (the legacy "1." prefix) is dropped together with that character
   * and the rest of the string is read the same way.
   */
  function JdkVersion(s: string): Int32
    decreases |s|
  {
    var n := DigitRunLength(s);
    if n < |s| && Accumulate(s[..n]) == 1 then JdkVersion(s[n + 1..]) else Accumulate(s[..n])
  }

  /**
   * What the scan of `getJDKVersion` returns when `rest` is still to be read
   * and the running value is `version`: a digit extends the value, a non-digit
   * after a value of exactly 1 resets it, any other non-digit stops the scan.
   */
  function ScanRest(rest: string, version: Int32): Int32 {
    if rest == [] then version
    else if IsDigit(rest[0]) then ScanRest(rest[1..], ToInt(version * 10 + DigitValue(rest[0])))
    else if version == 1 then ScanRest(rest[1..], 0)
    else version
  }

  /** `getJDKVersion`: scans the string one character at a time. */
  method GetJdkVersion(javaVersionStr: string) returns (version: Int32)
    ensures version == JdkVersion(javaVersionStr)
  {
    version := 0;
    for i := 0 to |javaVersionStr|
      invariant ScanRest(javaVersionStr[i..], version) == ScanRest(javaVersionStr, 0)
    {
      var ch := javaVersionStr[i];
      assert javaVersionStr[i..][1..] == javaVersionStr[i + 1..];
      if IsDigit(ch) {
        version := ToInt(version * 10 + DigitValue(ch));
      } else if version == 1 {
        version := 0;
      } else {
        assert version == ScanRest(javaVersionStr, 0);
        break;
      }
    }
    assert javaVersionStr[|javaVersionStr|..] == [];
    ScanIsJdkVersion(javaVersionStr);
  }

  lemma ScanIsJdkVersion(s: string)
    ensures ScanRest(s, 0) == JdkVersion(s)
  {
    assert Accumulate("") == 0 && "" + s == s;
    ScanMatchesRuns("", s);
  }

  /**
   * The character-by-character scan and the run-by-run reading agree: having
   * read the digit run `run`, the scan of `rest` gives the version of `run + rest`.
   */
  lemma {:induction false} ScanMatchesRuns(run: string, rest: string)
    requires AllDigits(run)
    ensures ScanRest(rest, Accumulate(run)) == JdkVersion(run + rest)
    decreases |rest|
  {
    if rest == [] {
      assert run + rest == run;
      AllDigitsValue(run);
    } else {
      var c, tail := rest[0], rest[1..];
      assert run + rest == run + [c] + tail;
      if IsDigit(c) {
        AccumulateStep(run, c);
        ScanMatchesRuns(run + [c], tail);
        assert run + [c] + tail == run + rest;
      } else if Accumulate(run) == 1 {
        ResetAtOne(run, c, tail);
        assert Accumulate([]) == 0 && [] + tail == tail;
        ScanMatchesRuns([], tail);
      } else {
        StopsAtNonDigit(run, c, tail);
      }
    }
  }

  /** One more digit is one more step of the scan. */
  lemma AccumulateStep(run: string, c: char)
    requires AllDigits(run) && IsDigit(c)
    ensures AllDigits(run + [c])
    ensures Accumulate(run + [c]) == ToInt(Accumulate(run) * 10 + DigitValue(c))
  {
    assert (run + [c])[..|run|] == run;
  }

  /** A digit run of length `n` ended by a non-digit is the leading run. */
  lemma RunThenNonDigit(s: string, n: nat)
    requires n < |s| && AllDigits(s[..n]) && !IsDigit(s[n])
    ensures DigitRunLength(s) == n
  {
    DigitRunIsDigits(s);
  }

  /** A string made only of digits is one run. */
  lemma WholeRun(s: string)
    requires AllDigits(s)
    ensures DigitRunLength(s) == |s|
  {
    DigitRunIsDigits(s);
  }

  /**
   * `isJDK_N_OrHigher(n)` for a given `java.version` value: false for the
   * empty string, otherwise whether the parsed version is positive and at
   * least `n`.
   */
  function IsJdkNOrHigher(javaVersionStr: string, n: Int32): (r: bool)
    ensures javaVersionStr == "" ==> !r
    ensures r <==> 0 < JdkVersion(javaVersionStr) && n <= JdkVersion(javaVersionStr)
  {
    if javaVersionStr == "" then false
    else
      var version := JdkVersion(javaVersionStr);
      version > 0 && n <= version
  }

  /** `isJDK5`, which despite its name also holds for every later JDK. */
  function IsJdk5(javaVersionStr: string): (r: bool)
    ensures r <==> 5 <= JdkVersion(javaVersionStr)
  {
    IsJdkNOrHigher(javaVersionStr, 5)
  }

  function IsJdk6OrHigher(javaVersionStr: string): (r: bool)
    ensures r <==> 6 <= JdkVersion(javaVersionStr)
  {
    IsJdkNOrHigher(javaVersionStr, 6)
  }

  function IsJdk7OrHigher(javaVersionStr: string): (r: bool)
    ensures r <==> 7 <= JdkVersion(javaVersionStr)
  {
    IsJdkNOrHigher(javaVersionStr, 7)
  }

  function IsJdk9OrHigher(javaVersionStr: string): (r: bool)
    ensures r <==> 9 <= JdkVersion(javaVersionStr)
  {
    IsJdkNOrHigher(javaVersionStr, 9)
  }

  function IsJdk16OrHigher(javaVersionStr: string): (r: bool)
    ensures r <==> 16 <= JdkVersion(javaVersionStr)
  {
    IsJdkNOrHigher(javaVersionStr, 16)
  }

  function IsJdk18OrHigher(javaVersionStr: string): (r: bool)
    ensures r <==> 18 <= JdkVersion(javaVersionStr)
  {
    IsJdkNOrHigher(javaVersionStr, 18)
  }

  function IsJdk21OrHigher(javaVersionStr: string): (r: bool)
    ensures r <==> 21 <= JdkVersion(javaVersionStr)
  {
    IsJdkNOrHigher(javaVersionStr, 21)
  }

  // Properties of the scan

  /** The empty string and a string that starts with a non-digit give 0. */
  lemma LeadingNonDigitGivesZero(s: string)
    requires s == [] || !IsDigit(s[0])
    ensures JdkVersion(s) == 0
  {
    assert DigitRunLength(s) == 0;
    assert s[..0] == [];
  }

  /** Up to nine digits accumulate to their exact decimal value. */
  lemma {:induction false} AccumulateExact(digits: string)
    requires AllDigits(digits) && |digits| <= 9
    ensures Accumulate(digits) == DecimalValue(digits)
    ensures 0 <= DecimalValue(digits) < Pow10(|digits|)
  {
    if digits != [] {
      var init := digits[..|digits| - 1];
      assert AllDigits(init) by {
        forall k | 0 <= k < |init| ensures IsDigit(init[k]) {
          assert init[k] == digits[k];
        }
      }
      AccumulateExact(init);
      assert IsDigit(digits[|digits| - 1]);
      Pow10UpToNine(|digits|);
    }
  }

  /** Any number of digits accumulates to their decimal value wrapped to a Java `int`. */
  lemma {:induction false} AccumulateWraps(digits: string)
    ensures Accumulate(digits) == ToInt(DecimalValue(digits))
  {
    if digits != [] {
      var init, last := digits[..|digits| - 1], digits[|digits| - 1];
      AccumulateWraps(init);
      ToIntMulAdd(DecimalValue(init), 10, DigitValue(last));
    }
  }

  function Pow10(k: nat): nat {
    if k == 0 then 1 else 10 * Pow10(k - 1)
  }

  lemma {:induction false} Pow10UpToNine(k: nat)
    requires k <= 9
    ensures Pow10(k) <= 1_000_000_000
    decreases 9 - k
  {
    if k < 9 {
      Pow10UpToNine(k + 1);
    }
  }

  /** A string made only of digits yields the value of those digits (its exact decimal value when at most nine). */
  lemma AllDigitsValue(s: string)
    requires AllDigits(s)
    ensures JdkVersion(s) == Accumulate(s)
    ensures |s| <= 9 ==> JdkVersion(s) == DecimalValue(s)
  {
    WholeRun(s);
    assert s[..|s|] == s;
    if |s| <= 9 {
      AccumulateExact(s);
    }
  }

  /** A non-digit read while the value is exactly 1 restarts the scan: "1.8.0_292" reads as "8.0_292". */
  lemma LegacyPrefixDropped(c: char, rest: string)
    requires !IsDigit(c)
    ensures JdkVersion(['1', c] + rest) == JdkVersion(rest)
  {
    assert Accumulate("1") == 1 by {
      assert "1"[..0] == [];
    }
    ResetAtOne("1", c, rest);
    assert ['1', c] + rest == "1" + [c] + rest;
  }

  /** More generally, any digit run worth exactly 1 (such as "01") followed by a non-digit is dropped. */
  lemma ResetAtOne(run: string, c: char, rest: string)
    requires AllDigits(run) && !IsDigit(c) && Accumulate(run) == 1
    ensures JdkVersion(run + [c] + rest) == JdkVersion(rest)
  {
    var s := run + [c] + rest;
    assert s[..|run|] == run;
    assert s[|run|] == c;
    assert s[|run| + 1..] == rest;
    RunThenNonDigit(s, |run|);
  }

  /** A non-digit read while the value is not 1 ends the scan: "17.0.2" reads as 17. */
  lemma StopsAtNonDigit(run: string, c: char, rest: string)
    requires AllDigits(run) && !IsDigit(c) && Accumulate(run) != 1
    ensures JdkVersion(run + [c] + rest) == Accumulate(run)
  {
    var s := run + [c] + rest;
    assert s[..|run|] == run;
    assert s[|run|] == c;
    RunThenNonDigit(s, |run|);
  }

  /** No digit run of `s` is longer than nine digits. */
  predicate ShortRuns(s: string) {
    forall i, j :: 0 <= i <= j <= |s| && AllDigits(s[i..j]) ==> j - i <= 9
  }

  /** When no digit run overflows an `int`, the version is a non-negative number below 10^9. */
  lemma {:induction false} NonNegativeVersion(s: string)
    requires ShortRuns(s)
    ensures 0 <= JdkVersion(s) < 1_000_000_000
    decreases |s|
  {
    var n := DigitRunLength(s);
    DigitRunIsDigits(s);
    assert s[0..n] == s[..n];
    AccumulateExact(s[..n]);
    Pow10UpToNine(n);
    if n < |s| && Accumulate(s[..n]) == 1 {
      var rest := s[n + 1..];
      forall i, j | 0 <= i <= j <= |rest| && AllDigits(rest[i..j]) ensures j - i <= 9 {
        assert rest[i..j] == s[n + 1 + i..n + 1 + j];
      }
      NonNegativeVersion(rest);
    }
  }

  /** A legacy `java.version` value: "1.8.0_292" is JDK 8. */
  lemma LegacyVersionString()
    ensures JdkVersion("1.8.0_292") == 8
  {
    var tail := "8.0_292";
    assert "1.8.0_292" == ['1', '.'] + tail;
    LegacyPrefixDropped('.', tail);
    SingleDigitThenNonDigit('8', '.', "0_292");
    assert tail == ['8', '.'] + "0_292";
  }

  /** A one-digit version followed by a separator. */
  lemma SingleDigitThenNonDigit(d: char, c: char, rest: string)
    requires IsDigit(d) && d != '1' && !IsDigit(c)
    ensures JdkVersion([d, c] + rest) == DigitValue(d)
  {
    assert [d][..0] == [];
    assert [d, c] + rest == [d] + [c] + rest;
    StopsAtNonDigit([d], c, rest);
  }

  /** A two-digit version followed by a separator. */
  lemma TwoDigitsThenNonDigit(d1: char, d2: char, c: char, rest: string)
    requires IsDigit(d1) && d1 != '0' && IsDigit(d2) && !IsDigit(c)
    ensures JdkVersion([d1, d2, c] + rest) == DigitValue(d1) * 10 + DigitValue(d2)
  {
    assert [d1, d2][..1] == [d1] && [d1][..0] == [];
    assert Accumulate([d1]) == DigitValue(d1);
    assert Accumulate([d1, d2]) == DigitValue(d1) * 10 + DigitValue(d2);
    assert [d1, d2, c] + rest == [d1, d2] + [c] + rest;
    StopsAtNonDigit([d1, d2], c, rest);
  }

  /** Modern `java.version` values: "17.0.2" is JDK 17 and "11-ea" is JDK 11. */
  lemma ModernVersionStrings()
    ensures JdkVersion("17.0.2") == 17
    ensures JdkVersion("11-ea") == 11
  {
    assert "17.0.2" == ['1', '7', '.'] + "0.2";
    TwoDigitsThenNonDigit('1', '7', '.', "0.2");
    assert "11-ea" == ['1', '1', '-'] + "ea";
    TwoDigitsThenNonDigit('1', '1', '-', "ea");
  }

  // Properties of the threshold tests

  /** A version that passes threshold `n` passes every lower threshold. */
  lemma ThresholdMonotone(javaVersionStr: string, m: Int32, n: Int32)
    requires m <= n && IsJdkNOrHigher(javaVersionStr, n)
    ensures IsJdkNOrHigher(javaVersionStr, m)
  {
  }

  /** The fixed-threshold tests are nested: each implies the one below it. */
  lemma FixedThresholdsNested(javaVersionStr: string)
    ensures IsJdk21OrHigher(javaVersionStr) ==> IsJdk18OrHigher(javaVersionStr)
    ensures IsJdk18OrHigher(javaVersionStr) ==> IsJdk16OrHigher(javaVersionStr)
    ensures IsJdk16OrHigher(javaVersionStr) ==> IsJdk9OrHigher(javaVersionStr)
    ensures IsJdk9OrHigher(javaVersionStr) ==> IsJdk7OrHigher(javaVersionStr)
    ensures IsJdk7OrHigher(javaVersionStr) ==> IsJdk6OrHigher(javaVersionStr)
    ensures IsJdk6OrHigher(javaVersionStr) ==> IsJdk5(javaVersionStr)
  {
  }
}
