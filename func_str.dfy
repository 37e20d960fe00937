/**
 * The `startswith` and `endswith` simple functions of filterx: both take an
 * argument list of exactly two strings, the haystack and the needle, and
 * compare bytes of the needle with the start or the end of the haystack.
 */
module FuncStr {
  import opened Wrappers
  import opened FilterXObjects

  /** The largest gssize. */
  const G_MAXINT64: nat := 0x7fff_ffff_ffff_ffff

  /** The two messages filterx_simple_function_argument_error reports here. */
  datatype ArgError = RequiresExactlyTwoArguments | ObjectMustBeString

  /** The length reported for an extracted string: `(gssize) MIN(inner_len, G_MAXINT64)`. */
  function ReportedLength(n: nat): (r: nat)
    ensures r <= n && r <= G_MAXINT64
    ensures n <= G_MAXINT64 ==> r == n
  {
    if n < G_MAXINT64 then n else G_MAXINT64
  }

  /** The argument list is present and holds exactly two values. */
  predicate HasTwoArgs(args: Option<seq<Value>>) {
    args.Some? && |args.value| == 2
  }

  /** Argument `i` of a two-element list can be extracted as a string. */
  predicate IsStringArg(args: Option<seq<Value>>, i: nat)
    requires HasTwoArgs(args) && i < 2
  {
    ExtractString(args.value[i]).Some?
  }

  /** The bytes of string argument `i`. */
  function StringArg(args: Option<seq<Value>>, i: nat): seq<byte>
    requires HasTwoArgs(args) && i < 2 && IsStringArg(args, i)
  {
    ExtractString(args.value[i]).value
  }

  /**
   * The prefix test the `startswith` loop performs, on the reported lengths:
   * the needle is no longer than the haystack and each of its bytes equals
   * the haystack's byte at the same position.
   */
  predicate PrefixMatches(haystack: seq<byte>, needle: seq<byte>) {
    var hl, nl := ReportedLength(|haystack|), ReportedLength(|needle|);
    nl <= hl && forall i :: 0 <= i < nl ==> haystack[i] == needle[i]
  }

  /**
   * The suffix test: the needle is no longer than the haystack and each byte
   * `needle[i]` equals `haystack[haystack_len - needle_len + i]`.
   */
  predicate SuffixMatches(haystack: seq<byte>, needle: seq<byte>) {
    var hl, nl := ReportedLength(|haystack|), ReportedLength(|needle|);
    nl <= hl && forall i :: 0 <= i < nl ==> haystack[hl - nl + i] == needle[i]
  }

  /** What `endswith` computes as written: only the length check decides. */
  predicate EndsWithAsWritten(haystack: seq<byte>, needle: seq<byte>) {
    ReportedLength(|needle|) <= ReportedLength(|haystack|)
  }

  /** `_extract_haystack_arg`: argument 0 as a string, its length through `len`. */
  method ExtractHaystackArg(args: Option<seq<Value>>) returns (r: Result<seq<byte>, ArgError>, len: int)
    ensures !HasTwoArgs(args) ==> r == Failure(RequiresExactlyTwoArguments)
    ensures HasTwoArgs(args) && !IsStringArg(args, 0) ==> r == Failure(ObjectMustBeString)
    ensures HasTwoArgs(args) && IsStringArg(args, 0) ==> r == Success(StringArg(args, 0))
    ensures r.Success? ==> len == ReportedLength(|r.value|) && 0 <= len
  {
    len := 0;
    if args.None? || |args.value| != 2 {
      return Failure(RequiresExactlyTwoArguments), len;
    }
    var str := ExtractString(args.value[0]);
    if str.None? {
      return Failure(ObjectMustBeString), len;
    }
    len := ReportedLength(|str.value|);
    r := Success(str.value);
  }

  /** `_extract_needle_arg`: argument 1 as a string, its length through `len`. */
  method ExtractNeedleArg(args: Option<seq<Value>>) returns (r: Result<seq<byte>, ArgError>, len: int)
    ensures !HasTwoArgs(args) ==> r == Failure(RequiresExactlyTwoArguments)
    ensures HasTwoArgs(args) && !IsStringArg(args, 1) ==> r == Failure(ObjectMustBeString)
    ensures HasTwoArgs(args) && IsStringArg(args, 1) ==> r == Success(StringArg(args, 1))
    ensures r.Success? ==> len == ReportedLength(|r.value|) && 0 <= len
  {
    len := 0;
    if args.None? || |args.value| != 2 {
      return Failure(RequiresExactlyTwoArguments), len;
    }
    var str := ExtractString(args.value[1]);
    if str.None? {
      return Failure(ObjectMustBeString), len;
    }
    len := ReportedLength(|str.value|);
    r := Success(str.value);
  }

  /** filterx_simple_function_startswith */
  method StartsWith(args: Option<seq<Value>>) returns (r: Result<Value, ArgError>)
    ensures !HasTwoArgs(args) ==> r == Failure(RequiresExactlyTwoArguments)
    ensures HasTwoArgs(args) && !(IsStringArg(args, 0) && IsStringArg(args, 1)) ==> r == Failure(ObjectMustBeString)
    ensures HasTwoArgs(args) && IsStringArg(args, 0) && IsStringArg(args, 1) ==>
              r == Success(Boolean(PrefixMatches(StringArg(args, 0), StringArg(args, 1))))
  {
    var haystack, haystackLen := ExtractHaystackArg(args);
    if haystack.Failure? {
      return Failure(haystack.error);
    }
    var needle, needleLen := ExtractNeedleArg(args);
    if needle.Failure? {
      return Failure(needle.error);
    }
    if needleLen > haystackLen {
      return Success(Boolean(false));
    }
    var i := 0;
    while i < needleLen
      invariant 0 <= i <= needleLen
      invariant forall k :: 0 <= k < i ==> haystack.value[k] == needle.value[k]
    {
      if haystack.value[i] != needle.value[i] {
        return Success(Boolean(false));
      }
      i := i + 1;
    }
    return Success(Boolean(true));
  }

  /**
   * The condition of the suffix comparison loop: `i > needle_len` as the
   * source has it, or `i < needle_len` as the comparison in its body needs.
   */
  datatype LoopCondition = AsWritten | Intended

  predicate Continues(cond: LoopCondition, i: int, needleLen: int) {
    match cond
    case AsWritten => i > needleLen
    case Intended => i < needleLen
  }

  /**
   * The loop of filterx_simple_function_endswith, under either loop
   * condition. As written its body never runs and every needle matches.
   */
  method CompareSuffix(haystack: seq<byte>, haystackLen: int, needle: seq<byte>, needleLen: int,
                       cond: LoopCondition) returns (matched: bool)
    requires 0 <= needleLen <= haystackLen <= |haystack| && needleLen <= |needle|
    ensures cond == AsWritten ==> matched
    ensures cond == Intended ==>
              (matched <==> forall k :: 0 <= k < needleLen ==> haystack[haystackLen - needleLen + k] == needle[k])
  {
    var i := 0;
    while Continues(cond, i, needleLen)
      invariant 0 <= i <= needleLen
      invariant forall k :: 0 <= k < i ==> haystack[haystackLen - needleLen + k] == needle[k]
      decreases needleLen - i
    {
      if haystack[haystackLen - needleLen + i] != needle[i] {
        return false;
      }
      i := i + 1;
    }
    return true;
  }

  /**
   * filterx_simple_function_endswith, with its loop condition as written
   * (`AsWritten`) or corrected (`Intended`).
   */
  method EndsWith(args: Option<seq<Value>>, cond: LoopCondition) returns (r: Result<Value, ArgError>)
    ensures !HasTwoArgs(args) ==> r == Failure(RequiresExactlyTwoArguments)
    ensures HasTwoArgs(args) && !(IsStringArg(args, 0) && IsStringArg(args, 1)) ==> r == Failure(ObjectMustBeString)
    ensures HasTwoArgs(args) && IsStringArg(args, 0) && IsStringArg(args, 1) && cond == AsWritten ==>
              r == Success(Boolean(EndsWithAsWritten(StringArg(args, 0), StringArg(args, 1))))
    ensures HasTwoArgs(args) && IsStringArg(args, 0) && IsStringArg(args, 1) && cond == Intended ==>
              r == Success(Boolean(SuffixMatches(StringArg(args, 0), StringArg(args, 1))))
  {
    var haystack, haystackLen := ExtractHaystackArg(args);
    if haystack.Failure? {
      return Failure(haystack.error);
    }
    var needle, needleLen := ExtractNeedleArg(args);
    if needle.Failure? {
      return Failure(needle.error);
    }
    if needleLen > haystackLen {
      return Success(Boolean(false));
    }
    var matched := CompareSuffix(haystack.value, haystackLen, needle.value, needleLen, cond);
    return Success(Boolean(matched));
  }

  // ---------------------------------------------------------------------------
  // The comparisons against the plain prefix and suffix relations
  // ---------------------------------------------------------------------------

  /** For strings of any realistic length, `startswith` is exactly "is a prefix". */
  lemma PrefixMatchesIsPrefix(haystack: seq<byte>, needle: seq<byte>)
    requires |haystack| <= G_MAXINT64 && |needle| <= G_MAXINT64
    ensures PrefixMatches(haystack, needle) <==> |needle| <= |haystack| && haystack[..|needle|] == needle
  {
  }

  /** For strings of any realistic length, the corrected `endswith` is exactly "is a suffix". */
  lemma SuffixMatchesIsSuffix(haystack: seq<byte>, needle: seq<byte>)
    requires |haystack| <= G_MAXINT64 && |needle| <= G_MAXINT64
    ensures SuffixMatches(haystack, needle) <==> |needle| <= |haystack| && haystack[|haystack| - |needle|..] == needle
  {
  }

  /** An empty needle matches every haystack, at either end. */
  lemma EmptyNeedleMatches(haystack: seq<byte>)
    ensures PrefixMatches(haystack, []) && SuffixMatches(haystack, []) && EndsWithAsWritten(haystack, [])
  {
  }

  /** A needle longer than the haystack never matches, at either end. */
  lemma LongerNeedleNeverMatches(haystack: seq<byte>, needle: seq<byte>)
    requires |haystack| < |needle| <= G_MAXINT64
    ensures !PrefixMatches(haystack, needle) && !SuffixMatches(haystack, needle)
    ensures !EndsWithAsWritten(haystack, needle)
  {
  }

  /**
   * As written, `endswith` answers only whether the needle is no longer than
   * the haystack; a true suffix always passes that test, but so does any
   * other needle that is short enough.
   */
  lemma EndsWithAsWrittenIsLengthCheck(haystack: seq<byte>, needle: seq<byte>)
    requires |haystack| <= G_MAXINT64 && |needle| <= G_MAXINT64
    ensures EndsWithAsWritten(haystack, needle) <==> |needle| <= |haystack|
    ensures SuffixMatches(haystack, needle) ==> EndsWithAsWritten(haystack, needle)
  {
  }

  /** `endswith("a", "b")` is true as written, although "b" is no suffix of "a". */
  lemma EndsWithAsWrittenAcceptsNonSuffix()
    ensures var a, b: seq<byte> := [0x61], [0x62]; EndsWithAsWritten(a, b) && !SuffixMatches(a, b)
  {
    var a, b: seq<byte> := [0x61], [0x62];
    assert a[0] != b[0];
  }
}
