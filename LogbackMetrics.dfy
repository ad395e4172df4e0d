/**
 * The metric identities `LogbackMetrics` registers for deleted archive files.
 * Only the key is modelled: the registry call that looks it up (or creates the
 * counter or histogram) belongs to the metrics library.
 */
module LogbackMetrics {
  import opened ArchiveRemoverReasons

  /** A metric key: the class that owns the metric, its name and its tags. */
  datatype MetricName = MetricName(owner: string, name: string, tags: map<string, string>)

  /** The owning class, `LogbackMetrics.class`, by its qualified name. */
  const Owner: string := "ch.qos.logback.core.LogbackMetrics"

  const DeletedFilesMetric: string := "log-files-deleted"
  const DeletedSizeMetric: string := "deleted-log-file-size"

  const ReasonTag: string := "reason"
  const PatternTag: string := "fileNamePattern"

  /**
   * The tag map both keys carry: the reason's `name()` and the file name
   * pattern's `getPattern()` string, both taken verbatim.
   */
  function Tags(reason: ArchiveRemoverReason, pattern: string): (t: map<string, string>)
    ensures t.Keys == {ReasonTag, PatternTag} && |t| == 2
    ensures t[ReasonTag] == Name(reason) && t[PatternTag] == pattern
  {
    var t := map[ReasonTag := Name(reason), PatternTag := pattern];
    assert ReasonTag != PatternTag;
    assert |t.Keys| == 2;
    t
  }

  /** The key of the counter `getDeletedLogFilesCounter` returns. */
  function DeletedLogFilesCounterName(reason: ArchiveRemoverReason, pattern: string): (m: MetricName)
    ensures m.owner == Owner && m.name == "log-files-deleted"
    ensures m.tags.Keys == {"reason", "fileNamePattern"}
    ensures m.tags["reason"] == Name(reason) && m.tags["fileNamePattern"] == pattern
  {
    MetricName(Owner, DeletedFilesMetric, Tags(reason, pattern))
  }

  /** The key of the histogram `getDeletedLogFileSizeHistogram` returns. */
  function DeletedLogFileSizeHistogramName(reason: ArchiveRemoverReason, pattern: string): (m: MetricName)
    ensures m.owner == Owner && m.name == "deleted-log-file-size"
    ensures m.tags.Keys == {"reason", "fileNamePattern"}
    ensures m.tags["reason"] == Name(reason) && m.tags["fileNamePattern"] == pattern
  {
    MetricName(Owner, DeletedSizeMetric, Tags(reason, pattern))
  }

  /**
   * Two deletions share a counter exactly when they have the same reason and
   * the same pattern; a different reason or a different pattern is a
   * different counter.
   */
  lemma CounterNameInjective(r1: ArchiveRemoverReason, p1: string, r2: ArchiveRemoverReason, p2: string)
    ensures DeletedLogFilesCounterName(r1, p1) == DeletedLogFilesCounterName(r2, p2) <==> r1 == r2 && p1 == p2
  {
    var m1, m2 := DeletedLogFilesCounterName(r1, p1), DeletedLogFilesCounterName(r2, p2);
    if m1 == m2 {
      assert m1.tags[ReasonTag] == m2.tags[ReasonTag];
      NameInjective(r1, r2);
    }
  }

  /** The same holds of the size histogram. */
  lemma HistogramNameInjective(r1: ArchiveRemoverReason, p1: string, r2: ArchiveRemoverReason, p2: string)
    ensures DeletedLogFileSizeHistogramName(r1, p1) == DeletedLogFileSizeHistogramName(r2, p2) <==> r1 == r2 && p1 == p2
  {
    var m1, m2 := DeletedLogFileSizeHistogramName(r1, p1), DeletedLogFileSizeHistogramName(r2, p2);
    if m1 == m2 {
      assert m1.tags[ReasonTag] == m2.tags[ReasonTag];
      NameInjective(r1, r2);
    }
  }

  /** No counter key is ever a histogram key, whatever the reasons and patterns. */
  lemma CounterAndHistogramDistinct(r1: ArchiveRemoverReason, p1: string, r2: ArchiveRemoverReason, p2: string)
    ensures DeletedLogFilesCounterName(r1, p1) != DeletedLogFileSizeHistogramName(r2, p2)
  {
    assert DeletedFilesMetric[0] != DeletedSizeMetric[0];
  }
}
