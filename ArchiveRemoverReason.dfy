/**
 * Why the archive remover deleted an archived log file. A Java enum with two
 * constants; its `name()` strings become metric tag values, so they are
 * stated exactly here, together with the members every Java enum has:
 * `ordinal()`, `values()` and `valueOf(String)`.
 */
module ArchiveRemoverReasons {
  import opened JavaLang

  datatype ArchiveRemoverReason =
    | MaxHistory    // the file is older than the configured maximum history
    | TotalSizeCap  // the archived files together exceed the configured size cap

  /** `values()`: the constants in declaration order. */
  function Values(): (vs: seq<ArchiveRemoverReason>)
    ensures |vs| == 2 && vs[0] != vs[1]
  {
    [MaxHistory, TotalSizeCap]
  }

  /** `name()`: the identifier the constant is declared with. */
  function Name(r: ArchiveRemoverReason): (s: string) {
    match r
    case MaxHistory => "MAX_HISTORY"
    case TotalSizeCap => "TOTAL_SIZE_CAP"
  }

  /** `ordinal()`: the position of the constant in its declaration. */
  function Ordinal(r: ArchiveRemoverReason): (k: nat)
    ensures k < |Values()| && Values()[k] == r
  {
    match r
    case MaxHistory => 0
    case TotalSizeCap => 1
  }

  /** `valueOf(name)`: the constant with that name, or none where Java throws `IllegalArgumentException`. */
  function ValueOf(name: string): (o: Option<ArchiveRemoverReason>)
    ensures o.Some? ==> Name(o.value) == name
    ensures o.None? ==> forall r :: Name(r) != name
  {
    if name == "MAX_HISTORY" then Some(MaxHistory)
    else if name == "TOTAL_SIZE_CAP" then Some(TotalSizeCap)
    else None
  }

  /** The enum is closed: every reason is one of the two constants. */
  lemma ValuesComplete(r: ArchiveRemoverReason)
    ensures r in Values()
  {
    assert Values()[Ordinal(r)] == r;
  }

  /** Distinct reasons have distinct names, so a name identifies its reason. */
  lemma NameInjective(a: ArchiveRemoverReason, b: ArchiveRemoverReason)
    ensures Name(a) == Name(b) <==> a == b
  {
  }

  /** Looking a reason up by its own name gives it back. */
  lemma ValueOfName(r: ArchiveRemoverReason)
    ensures ValueOf(Name(r)) == Some(r)
  {
  }

  /** The ordinals are distinct and follow declaration order. */
  lemma OrdinalsInDeclarationOrder()
    ensures Ordinal(MaxHistory) == 0 && Ordinal(TotalSizeCap) == 1
    ensures forall k :: 0 <= k < |Values()| ==> Ordinal(Values()[k]) == k
  {
  }
}
