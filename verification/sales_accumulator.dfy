/**
 * Aggregating the sales files (CalculateSales.main, second half): each file
 * must hold a registered branch code and a digit-only amount; the amount is
 * added to that branch's total unless the total would reach 10^10 (eleven digits).
 * The first failing file stops the run.
 */
module SalesAccumulator {
  import opened Wrappers
  import opened Text
  import opened Types

  /** Totals must stay below `10000000000L` = 10^10, so at most ten digits. */
  const SalesCap: nat := 10000000000

  /** `Long.MAX_VALUE`. */
  const LongMax: nat := 0x7fff_ffff_ffff_ffff

  /** `Long.MIN_VALUE`. */
  const LongMin: int := -0x8000_0000_0000_0000

  /** The branch code a sales file names, if it has the expected two lines. */
  function RecordCode(f: DirEntry): string {
    if |f.lines| == 2 then f.lines[0] else ""
  }

  /** The amount a sales file carries, 0 when its second line is not a number. */
  function RecordAmount(f: DirEntry): nat {
    if |f.lines| == 2 && AllDigits(f.lines[1]) then DecimalValue(f.lines[1]) else 0
  }

  /**
   * A sales file every check accepts: two lines, a registered code, and an
   * amount `Long.parseLong` can read (digits only, not empty, at most `Long.MAX_VALUE`).
   */
  predicate WellFormedRecord(f: DirEntry, codes: set<string>) {
    && |f.lines| == 2
    && f.lines[0] in codes
    && AllDigits(f.lines[1])
    && f.lines[1] != ""
    && DecimalValue(f.lines[1]) <= LongMax
  }

  /** Every total is below the cap. */
  predicate WithinCap(totals: map<string, nat>) {
    forall k :: k in totals ==> totals[k] < SalesCap
  }

  /**
   * One iteration of the aggregation loop. The checks run in the program's
   * order; a success commits only the named branch's new total.
   */
  function ApplyRecord(totals: map<string, nat>, f: DirEntry): (r: Result<map<string, nat>, ErrorKind>)
    ensures r.Success? <==> WellFormedRecord(f, totals.Keys) && totals[RecordCode(f)] + RecordAmount(f) < SalesCap
    ensures r.Success? ==> r.value.Keys == totals.Keys
    ensures r.Success? ==> r.value[RecordCode(f)] == totals[RecordCode(f)] + RecordAmount(f)
    ensures r.Success? ==> forall k :: k in totals && k != RecordCode(f) ==> r.value[k] == totals[k]
    ensures r.Failure? ==> r.error in {SalesFileInvalid(f.name), UnknownBranchCode(f.name), UnknownError, AmountNotParsable, TotalTooLarge}
  {
    var lines := f.lines;
    if |lines| != 2 then Failure(SalesFileInvalid(f.name))
    else if lines[0] !in totals then Failure(UnknownBranchCode(f.name))
    else if !AllDigits(lines[1]) then Failure(UnknownError)
    else if lines[1] == "" || DecimalValue(lines[1]) > LongMax then Failure(AmountNotParsable)
    else
      var saleAmount := totals[lines[0]] + DecimalValue(lines[1]);
      if saleAmount >= SalesCap then Failure(TotalTooLarge)
      else Success(totals[lines[0] := saleAmount])
  }

  /** Which check rejects a file: the first one in the program's order. */
  lemma FirstFailingCheckIsReported(totals: map<string, nat>, f: DirEntry)
    ensures |f.lines| != 2 ==> ApplyRecord(totals, f) == Failure(SalesFileInvalid(f.name))
    ensures |f.lines| == 2 && f.lines[0] !in totals ==> ApplyRecord(totals, f) == Failure(UnknownBranchCode(f.name))
    ensures |f.lines| == 2 && f.lines[0] in totals && !AllDigits(f.lines[1]) ==>
      ApplyRecord(totals, f) == Failure(UnknownError)
    ensures |f.lines| == 2 && f.lines[0] in totals && AllDigits(f.lines[1]) && !WellFormedRecord(f, totals.Keys) ==>
      ApplyRecord(totals, f) == Failure(AmountNotParsable)
    ensures WellFormedRecord(f, totals.Keys) && totals[RecordCode(f)] + RecordAmount(f) >= SalesCap ==>
      ApplyRecord(totals, f) == Failure(TotalTooLarge)
  {
  }

  /** The overflow boundary: 9,999,999,998 + 1 is committed, 9,999,999,999 + 1 is refused. */
  lemma OverflowBoundary(totals: map<string, nat>, f: DirEntry)
    requires WellFormedRecord(f, totals.Keys) && RecordAmount(f) == 1
    ensures totals[RecordCode(f)] == 9999999998 ==>
      ApplyRecord(totals, f) == Success(totals[RecordCode(f) := 9999999999])
    ensures totals[RecordCode(f)] == 9999999999 ==> ApplyRecord(totals, f) == Failure(TotalTooLarge)
  {
  }

  /** The sum of the amounts of the files that name branch `code`. */
  function SalesFor(code: string, files: seq<DirEntry>): nat {
    if |files| == 0 then 0
    else (if RecordCode(files[0]) == code then RecordAmount(files[0]) else 0) + SalesFor(code, files[1..])
  }

  /** The aggregation loop over the sorted sales files; the first failure ends it. */
  function Accumulate(totals: map<string, nat>, files: seq<DirEntry>): (r: Result<map<string, nat>, ErrorKind>)
    ensures r.Success? ==> r.value.Keys == totals.Keys
    ensures r.Success? ==> forall k :: k in totals ==> r.value[k] == totals[k] + SalesFor(k, files)
    ensures r.Success? ==> forall i :: 0 <= i < |files| ==> WellFormedRecord(files[i], totals.Keys)
    ensures r.Success? && WithinCap(totals) ==> WithinCap(r.value)
  {
    if |files| == 0 then Success(totals)
    else
      var next :- ApplyRecord(totals, files[0]);
      var r := Accumulate(next, files[1..]);
      assert forall i :: 0 <= i < |files[1..]| ==> files[1..][i] == files[i + 1];
      r
  }

  /**
   * The aggregation succeeds exactly when every file passes its checks and
   * no branch's grand total reaches the cap: amounts are never negative, so
   * no intermediate total is larger than the final one.
   */
  lemma {:induction false} AccumulateSucceedsIff(totals: map<string, nat>, files: seq<DirEntry>)
    requires WithinCap(totals)
    ensures Accumulate(totals, files).Success? <==>
      (forall i :: 0 <= i < |files| ==> WellFormedRecord(files[i], totals.Keys)) &&
      (forall k :: k in totals ==> totals[k] + SalesFor(k, files) < SalesCap)
  {
    if |files| > 0 {
      var f := files[0];
      var rest := files[1..];
      assert forall i :: 1 <= i < |files| ==> files[i] == rest[i - 1];
      var step := ApplyRecord(totals, f);
      if step.Success? {
        AccumulateSucceedsIff(step.value, rest);
        assert Accumulate(totals, files) == Accumulate(step.value, rest);
        forall k | k in totals
          ensures totals[k] + SalesFor(k, files) == step.value[k] + SalesFor(k, rest)
        {
        }
        assert step.value.Keys == totals.Keys;
        assert WellFormedRecord(f, totals.Keys);
        assert (forall i :: 0 <= i < |files| ==> WellFormedRecord(files[i], totals.Keys)) <==>
          (forall i :: 0 <= i < |rest| ==> WellFormedRecord(rest[i], totals.Keys));
        assert (forall k :: k in totals ==> totals[k] + SalesFor(k, files) < SalesCap) <==>
          (forall k :: k in step.value ==> step.value[k] + SalesFor(k, rest) < SalesCap);
      } else if (forall i :: 0 <= i < |files| ==> WellFormedRecord(files[i], totals.Keys)) {
        assert WellFormedRecord(f, totals.Keys);
        var c := RecordCode(f);
        assert c in totals;
        assert totals[c] + SalesFor(c, files) >= SalesCap;
        assert Accumulate(totals, files).Failure?;
      } else {
        assert Accumulate(totals, files).Failure?;
      }
    }
  }

  /** Processing a concatenation processes the first part, then the second from where it left off. */
  lemma {:induction false} AccumulateAppend(totals: map<string, nat>, a: seq<DirEntry>, b: seq<DirEntry>)
    ensures Accumulate(totals, a + b) ==
      match Accumulate(totals, a)
      case Success(m) => Accumulate(m, b)
      case Failure(e) => Failure(e)
  {
    if |a| == 0 {
      assert a + b == b;
    } else {
      assert (a + b)[0] == a[0] && (a + b)[1..] == a[1..] + b;
      var step := ApplyRecord(totals, a[0]);
      if step.Success? {
        AccumulateAppend(step.value, a[1..], b);
      }
    }
  }

  /** The error reported is the one of the first file that fails, whatever comes after it. */
  lemma FirstFailureIsReported(totals: map<string, nat>, files: seq<DirEntry>, i: nat, m: map<string, nat>, e: ErrorKind)
    requires i < |files|
    requires Accumulate(totals, files[..i]) == Success(m)
    requires ApplyRecord(m, files[i]) == Failure(e)
    ensures Accumulate(totals, files) == Failure(e)
  {
    assert files == files[..i] + files[i..];
    AccumulateAppend(totals, files[..i], files[i..]);
    assert files[i..][0] == files[i];
  }

  /** A failure that names a file names one of the processed files. */
  lemma {:induction false} ErrorNamesProcessedFile(totals: map<string, nat>, files: seq<DirEntry>)
    requires Accumulate(totals, files).Failure?
    ensures Accumulate(totals, files).error.SalesFileInvalid? || Accumulate(totals, files).error.UnknownBranchCode? ==>
      exists f :: f in files && f.name == Accumulate(totals, files).error.file
  {
    var step := ApplyRecord(totals, files[0]);
    if step.Success? {
      ErrorNamesProcessedFile(step.value, files[1..]);
      var e := Accumulate(totals, files).error;
      if e.SalesFileInvalid? || e.UnknownBranchCode? {
        var f :| f in files[1..] && f.name == e.file;
        assert f in files;
      }
    }
  }

  // ---------------------------------------------------------------------------
  // The addition as the program writes it, in 64-bit two's complement

  /** Java `long` addition: the exact sum wrapped into [Long.MIN_VALUE, Long.MAX_VALUE]. */
  function LongAdd(a: int, b: int): (r: int)
    requires LongMin <= a <= LongMax && LongMin <= b <= LongMax
    ensures LongMin <= r <= LongMax
    ensures (a + b - r) % 0x1_0000_0000_0000_0000 == 0
  {
    var s := a + b;
    if s > LongMax then s - 0x1_0000_0000_0000_0000
    else if s < LongMin then s + 0x1_0000_0000_0000_0000
    else s
  }

  /** One aggregation step exactly as written: the cap test sees the wrapped sum. */
  function ApplyRecordAsWritten(totals: map<string, int>, f: DirEntry): (r: Result<map<string, int>, ErrorKind>)
    requires forall k :: k in totals ==> LongMin <= totals[k] <= LongMax
    ensures r.Success? ==> r.value.Keys == totals.Keys
  {
    var lines := f.lines;
    if |lines| != 2 then Failure(SalesFileInvalid(f.name))
    else if lines[0] !in totals then Failure(UnknownBranchCode(f.name))
    else if !AllDigits(lines[1]) then Failure(UnknownError)
    else if lines[1] == "" || DecimalValue(lines[1]) > LongMax then Failure(AmountNotParsable)
    else
      var saleAmount := LongAdd(totals[lines[0]], DecimalValue(lines[1]));
      if saleAmount >= SalesCap then Failure(TotalTooLarge)
      else Success(totals[lines[0] := saleAmount])
  }

  /**
   * When the exact sum passes `Long.MAX_VALUE` the written code wraps it to a
   * negative number, which passes the cap test and is committed; the
   * corrected step refuses the same file.
   */
  lemma WrappedSumIsCommitted(totals: map<string, nat>, f: DirEntry)
    requires WellFormedRecord(f, totals.Keys) && WithinCap(totals)
    requires totals[RecordCode(f)] + RecordAmount(f) > LongMax
    ensures ApplyRecordAsWritten(totals, f).Success?
    ensures ApplyRecordAsWritten(totals, f).value[RecordCode(f)] < 0
    ensures ApplyRecord(totals, f) == Failure(TotalTooLarge)
  {
  }

  /** An instance: a total of 1 plus an amount reading 9223372036854775807 commits `Long.MIN_VALUE`. */
  lemma WrapExample(f: DirEntry)
    requires |f.lines| == 2 && f.lines[0] == "001"
    requires AllDigits(f.lines[1]) && DecimalValue(f.lines[1]) == LongMax
    ensures ApplyRecordAsWritten(map["001" := 1], f) == Success(map["001" := LongMin])
    ensures ApplyRecord(map["001" := 1], f) == Failure(TotalTooLarge)
  {
    var totals: map<string, nat> := map["001" := 1];
    WrappedSumIsCommitted(totals, f);
    assert LongAdd(1, LongMax) == LongMin;
    var wide: map<string, int> := totals;
    assert ApplyRecordAsWritten(wide, f) == Success(wide["001" := LongMin]);
    assert wide["001" := LongMin] == map["001" := LongMin];
  }

  /** Below the wrap the written step and the corrected step agree. */
  lemma AsWrittenAgreesWithoutWrap(totals: map<string, nat>, f: DirEntry)
    requires WithinCap(totals)
    requires WellFormedRecord(f, totals.Keys) ==> totals[RecordCode(f)] + RecordAmount(f) <= LongMax
    ensures ApplyRecord(totals, f).Failure? <==> ApplyRecordAsWritten(totals, f).Failure?
    ensures ApplyRecord(totals, f).Failure? ==> ApplyRecord(totals, f).error == ApplyRecordAsWritten(totals, f).error
    ensures ApplyRecord(totals, f).Success? ==> ApplyRecord(totals, f).value == ApplyRecordAsWritten(totals, f).value
  {
  }
}
