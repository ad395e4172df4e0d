# logback-core: JDK version test, byte-counting stream, archive-removal metrics

A Dafny model of four small pieces of logback-core:

- `EnvUtil`'s JDK version test. `getJDKVersion` scans a `java.version` string
  character by character, so "1.8.0_292" gives 8, "17.0.2" gives 17 and
  "11-ea" gives 11. `isJDK_N_OrHigher` and its fixed-threshold wrappers
  (`isJDK5` … `isJDK21OrHigher`) are built on it. The scan is an imperative
  method (`EnvUtil.GetJdkVersion`), proved equal to a run-by-run reading of
  the string (`EnvUtil.JdkVersion`). The threshold tests are functions of
  that reading.
- `ByteCountingOutputStream`, a `FilterOutputStream` that forwards every
  write to the stream it wraps and adds the number of bytes written to a
  Java `long` counter. It is a class over an abstract wrapped stream
  (`ByteCounting.Sink`). The invariant `Valid()` says the counter equals
  the number of bytes it forwarded successfully, wrapped to 64 bits.
- The enum `ArchiveRemoverReason` (`MAX_HISTORY`, `TOTAL_SIZE_CAP`), with
  `name()`, `ordinal()`, `values()` and `valueOf`.
- The metric keys `LogbackMetrics` builds for deleted archive files: owner
  class, metric name, and the `reason` / `fileNamePattern` tags.

Java `int` and `long` arithmetic wraps around. The model writes that out
with `JavaLang.ToInt` and `JavaLang.ToLong`.

## Model

| member | source | states |
|---|---|---|
| EnvUtil.GetJdkVersion | logback-core/src/main/java/ch/qos/logback/core/util/EnvUtil.java:84-97 | the digit / reset-at-1 / break loop returns exactly the run-by-run version `JdkVersion` of the string |
| EnvUtil.ScanIsJdkVersion | logback-core/src/main/java/ch/qos/logback/core/util/EnvUtil.java:84-97 | the character-by-character scan started at 0 equals the run-by-run reading of the whole string |
| EnvUtil.ScanMatchesRuns | logback-core/src/main/java/ch/qos/logback/core/util/EnvUtil.java:87-95 | having read a digit run, scanning the rest gives the version of run plus rest (each loop branch preserves the reading) |
| EnvUtil.AccumulateStep | logback-core/src/main/java/ch/qos/logback/core/util/EnvUtil.java:88-89 | one more digit is one `version * 10 + (ch - 48)` step with `int` wrap-around, and the run stays all digits |
| EnvUtil.DigitRunLength | logback-core/src/main/java/ch/qos/logback/core/util/EnvUtil.java:87-88 | the leading digit run fits in the string and is ended by a non-digit or by the end of the string |
| EnvUtil.DigitRunIsDigits | logback-core/src/main/java/ch/qos/logback/core/util/EnvUtil.java:87-88 | every character of the leading run is a digit |
| EnvUtil.RunThenNonDigit | logback-core/src/main/java/ch/qos/logback/core/util/EnvUtil.java:87-93 | a digit prefix followed by a non-digit is exactly the leading run |
| EnvUtil.WholeRun | logback-core/src/main/java/ch/qos/logback/core/util/EnvUtil.java:87-89 | a string of digits only is read as one run |
| EnvUtil.AllDigitsValue | logback-core/src/main/java/ch/qos/logback/core/util/EnvUtil.java:87-89 | a string of digits only gives its accumulated value, which is its exact decimal value when it has at most nine digits |
| EnvUtil.AccumulateExact | logback-core/src/main/java/ch/qos/logback/core/util/EnvUtil.java:89 | up to nine digits never overflow: the value is exact, non-negative and below 10^length |
| EnvUtil.AccumulateWraps | logback-core/src/main/java/ch/qos/logback/core/util/EnvUtil.java:89 | any digit run gives its exact decimal value wrapped to a Java `int` |
| EnvUtil.LeadingNonDigitGivesZero | logback-core/src/main/java/ch/qos/logback/core/util/EnvUtil.java:85-96 | the empty string and a string starting with a non-digit give 0 |
| EnvUtil.LegacyPrefixDropped | logback-core/src/main/java/ch/qos/logback/core/util/EnvUtil.java:90-91 | "1" followed by any non-digit is skipped: the version is that of the remainder |
| EnvUtil.ResetAtOne | logback-core/src/main/java/ch/qos/logback/core/util/EnvUtil.java:90-91 | a digit run worth exactly 1 followed by a non-digit resets the scan to the rest of the string |
| EnvUtil.StopsAtNonDigit | logback-core/src/main/java/ch/qos/logback/core/util/EnvUtil.java:92-93 | a digit run not worth 1 followed by a non-digit ends the scan with that run's value, whatever follows |
| EnvUtil.SingleDigitThenNonDigit | logback-core/src/main/java/ch/qos/logback/core/util/EnvUtil.java:87-93 | a single digit other than 1 followed by a separator is the version |
| EnvUtil.TwoDigitsThenNonDigit | logback-core/src/main/java/ch/qos/logback/core/util/EnvUtil.java:87-93 | two digits (not starting with 0) followed by a separator give their two-digit value |
| EnvUtil.NonNegativeVersion | logback-core/src/main/java/ch/qos/logback/core/util/EnvUtil.java:84-97 | when no digit run is longer than nine digits, the version is between 0 and 10^9 |
| EnvUtil.LegacyVersionString | logback-core/src/main/java/ch/qos/logback/core/util/EnvUtil.java:84-97 | "1.8.0_292" is version 8 |
| EnvUtil.ModernVersionStrings | logback-core/src/main/java/ch/qos/logback/core/util/EnvUtil.java:84-97 | "17.0.2" is version 17 and "11-ea" is version 11 |
| EnvUtil.IsJdkNOrHigher | logback-core/src/main/java/ch/qos/logback/core/util/EnvUtil.java:99-106 | false for an empty (missing) property; otherwise true exactly when the version is positive and at least `n` |
| EnvUtil.IsJdk5 | logback-core/src/main/java/ch/qos/logback/core/util/EnvUtil.java:108-110 | true exactly when the version is at least 5 |
| EnvUtil.IsJdk6OrHigher | logback-core/src/main/java/ch/qos/logback/core/util/EnvUtil.java:112-114 | true exactly when the version is at least 6 |
| EnvUtil.IsJdk7OrHigher | logback-core/src/main/java/ch/qos/logback/core/util/EnvUtil.java:116-118 | true exactly when the version is at least 7 |
| EnvUtil.IsJdk9OrHigher | logback-core/src/main/java/ch/qos/logback/core/util/EnvUtil.java:120-122 | true exactly when the version is at least 9 |
| EnvUtil.IsJdk16OrHigher | logback-core/src/main/java/ch/qos/logback/core/util/EnvUtil.java:124-126 | true exactly when the version is at least 16 |
| EnvUtil.IsJdk18OrHigher | logback-core/src/main/java/ch/qos/logback/core/util/EnvUtil.java:128-130 | true exactly when the version is at least 18 |
| EnvUtil.IsJdk21OrHigher | logback-core/src/main/java/ch/qos/logback/core/util/EnvUtil.java:136-138 | true exactly when the version is at least 21 |
| EnvUtil.ThresholdMonotone | logback-core/src/main/java/ch/qos/logback/core/util/EnvUtil.java:104-105 | passing threshold `n` implies passing every lower threshold |
| EnvUtil.FixedThresholdsNested | logback-core/src/main/java/ch/qos/logback/core/util/EnvUtil.java:108-138 | each fixed-threshold test implies the next lower one (21 ⇒ 18 ⇒ 16 ⇒ 9 ⇒ 7 ⇒ 6 ⇒ 5) |
| JavaLang.ToInt | logback-core/src/main/java/ch/qos/logback/core/util/EnvUtil.java:89 | a value already in `int` range is unchanged by the wrap |
| JavaLang.ToIntMulAdd | logback-core/src/main/java/ch/qos/logback/core/util/EnvUtil.java:89 | wrapping after every `* 10 + d` step gives the same `int` as wrapping once at the end |
| JavaLang.ToLong | logback-core/src/main/java/ch/qos/logback/core/recovery/ByteCountingOutputStream.java:22 | a value in `long` range is unchanged; otherwise the result differs from it by a multiple of 2^64 |
| JavaLang.ToLongAdd | logback-core/src/main/java/ch/qos/logback/core/recovery/ByteCountingOutputStream.java:22 | adding to a wrapped `long` gives the same `long` as adding to the exact value |
| JavaLang.LowByte | logback-core/src/main/java/ch/qos/logback/core/recovery/ByteCountingOutputStream.java:26-27 | `write(int)` writes the low eight bits, so a value in 0..255 is written as itself |
| ByteCounting.ByteCountingOutputStream.constructor | logback-core/src/main/java/ch/qos/logback/core/recovery/ByteCountingOutputStream.java:11-13 | wraps the given stream with a count of 0 and nothing forwarded |
| ByteCounting.ByteCountingOutputStream.GetByteCount | logback-core/src/main/java/ch/qos/logback/core/recovery/ByteCountingOutputStream.java:15-17 | returns the count without changing anything; below 2^63 bytes it is the number of bytes forwarded successfully |
| ByteCounting.ByteCountingOutputStream.Write | logback-core/src/main/java/ch/qos/logback/core/recovery/ByteCountingOutputStream.java:20-23 | forwards the slice first; only when that returns normally does it add `len` to the count (wrapping as a `long`), so a throwing write leaves the count unchanged; bounds errors and the wrapped stream's exceptions propagate; the invariant is kept |
| ByteCounting.ByteCountingOutputStream.WriteByte | logback-core/src/main/java/ch/qos/logback/core/recovery/ByteCountingOutputStream.java:26-29 | forwards the low byte, then adds one to the count (wrapping as a `long`); a throwing write leaves the count unchanged, whether or not the wrapped stream took the byte; the invariant is kept |
| ByteCounting.ByteCountingOutputStream.Close | logback-core/src/main/java/ch/qos/logback/core/recovery/ByteCountingOutputStream.java:32-34 | closes the wrapped stream once; the count and the written data are unchanged |
| ByteCounting.Sink.Write | logback-core/src/main/java/ch/qos/logback/core/recovery/ByteCountingOutputStream.java:21 | the wrapped stream's `write(byte[], int, int)`: out-of-range `off`/`len` throw before anything is written; success appends the slice; `IOException` may leave a prefix written |
| ByteCounting.Sink.WriteByte | logback-core/src/main/java/ch/qos/logback/core/recovery/ByteCountingOutputStream.java:27 | the wrapped stream's `write(int)`: success appends the low byte; `IOException` may or may not have written it |
| ByteCounting.Sink.Close | logback-core/src/main/java/ch/qos/logback/core/recovery/ByteCountingOutputStream.java:33 | the wrapped stream's `close()`: one more call; the stream is closed on success (a throwing close may or may not have closed it); data unchanged |
| ArchiveRemoverReasons.Values | logback-core/src/main/java/ch/qos/logback/core/rolling/helper/ArchiveRemoverReason.java:3-6 | two distinct constants |
| ArchiveRemoverReasons.ValuesComplete | logback-core/src/main/java/ch/qos/logback/core/rolling/helper/ArchiveRemoverReason.java:3-6 | every reason is among `values()` |
| ArchiveRemoverReasons.Ordinal | logback-core/src/main/java/ch/qos/logback/core/rolling/helper/ArchiveRemoverReason.java:3-6 | the ordinal is the reason's position in `values()` |
| ArchiveRemoverReasons.OrdinalsInDeclarationOrder | logback-core/src/main/java/ch/qos/logback/core/rolling/helper/ArchiveRemoverReason.java:4-5 | `MAX_HISTORY` is 0, `TOTAL_SIZE_CAP` is 1, and `ordinal(values()[k]) == k` |
| ArchiveRemoverReasons.NameInjective | logback-core/src/main/java/ch/qos/logback/core/rolling/helper/ArchiveRemoverReason.java:4-5 | two reasons have the same `name()` exactly when they are the same reason |
| ArchiveRemoverReasons.ValueOf | logback-core/src/main/java/ch/qos/logback/core/rolling/helper/ArchiveRemoverReason.java:3-6 | a result has the name looked up; no result means no constant has that name |
| ArchiveRemoverReasons.ValueOfName | logback-core/src/main/java/ch/qos/logback/core/rolling/helper/ArchiveRemoverReason.java:4-5 | looking up a reason's own name gives that reason back |
| LogbackMetrics.Tags | logback-core/src/main/java/ch/qos/logback/core/LogbackMetrics.java:17 | exactly the two keys `reason` and `fileNamePattern`, mapped to the reason's name and the pattern |
| LogbackMetrics.DeletedLogFilesCounterName | logback-core/src/main/java/ch/qos/logback/core/LogbackMetrics.java:12-20 | the counter key: owner `LogbackMetrics`, name `log-files-deleted`, tags `reason` = reason name and `fileNamePattern` = pattern |
| LogbackMetrics.DeletedLogFileSizeHistogramName | logback-core/src/main/java/ch/qos/logback/core/LogbackMetrics.java:21-28 | the histogram key: owner `LogbackMetrics`, name `deleted-log-file-size`, same two tags |
| LogbackMetrics.CounterNameInjective | logback-core/src/main/java/ch/qos/logback/core/LogbackMetrics.java:12-20 | two deletions share a counter exactly when reason and pattern are both equal |
| LogbackMetrics.HistogramNameInjective | logback-core/src/main/java/ch/qos/logback/core/LogbackMetrics.java:21-28 | two deletions share a histogram exactly when reason and pattern are both equal |
| LogbackMetrics.CounterAndHistogramDistinct | logback-core/src/main/java/ch/qos/logback/core/LogbackMetrics.java:16-25 | no counter key equals any histogram key |

## Left out

- `EnvUtil.logbackVersion` and `logbackVersionByModule`: they read package metadata and use reflection on `java.lang.Module`, which has no counterpart here.
- `EnvUtil.isJaninoAvailable` and `isClassAvailable`: they depend on what a class loader can load.
- `EnvUtil.isWindows`: it only reads the `os.name` property.
- `System.getProperty("java.version", "")` is not modelled. The property's value is a parameter, and a missing property is the empty string, as the source's default is.
- IsDigit: `Character.isDigit` also accepts non-ASCII Unicode digits, for which the source adds `ch - 48` (a value far above 9). The model accepts only '0'–'9'.
- GetJdkVersion: Java iterates over UTF-16 code units, and a Dafny `char` is a whole Unicode scalar value. A supplementary character is one step here and two in Java. Neither is a digit, so the result differs only when such a character follows a run worth 1.
- ByteCountingOutputStream: the inherited `FilterOutputStream.flush()` and `write(byte[])` are not modelled. `write(byte[])` reaches the `write(byte[], int, int)` override with the whole array.
- ByteCounting.Sink: the wrapped stream is a stand-in for any `OutputStream`. Whether each call succeeds is left nondeterministic. A call that throws `IOException` may still have taken effect: a `write` may have accepted some or all of its bytes, and a `close` may have closed the stream. Its behaviour after `close()` is left open too (the source adds no check of its own).
- ByteCountingOutputStream.GetByteCount: exactness is stated only below 2^63 bytes. Above that, the `long` counter has wrapped, and the contract states the wrapped value.
- Null arguments and the resulting `NullPointerException` are not modelled: Dafny references here are non-null.
- Thread safety is not modelled: the unsynchronised `count` updates are taken one call at a time.
- `Metrics.newCounter` / `newHistogram` are not modelled. These are the yammer registry's get-or-create and the counter and histogram values. Only the `MetricName` key is modelled.
- `MetricName`'s derivation of group and type from the owner class is not modelled: the owner is its qualified class name. `ImmutableMap` ordering is not modelled either: the tags are a map.
- `FileNamePattern` is not part of this model. Only its `getPattern()` string enters the key, and it is a parameter.
- ArchiveRemoverReasons.Name has no contract of its own. Its two strings, "MAX_HISTORY" and "TOTAL_SIZE_CAP", are fixed only by `ValueOfName` together with the body of `ValueOf`, which compares against those two literals; `NameInjective` and the metric keys speak of `Name(reason)` without fixing its value.
