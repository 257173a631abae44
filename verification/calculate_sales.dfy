/**
 * The whole run (CalculateSales.main): check the argument count, load the
 * branch definitions, pick and sort the sales files, check their serial
 * numbers, aggregate, and write the summary. The first failure ends the
 * run and no summary is written.
 */
module CalculateSales {
  import opened Text
  import opened Types
  import opened BranchMaster
  import opened SalesFiles
  import opened SalesAccumulator
  import opened Report

  /** How a run ends: a reported error, or the summary lines written to `branch.out`. */
  datatype Outcome = Aborted(error: ErrorKind) | Written(report: seq<string>)

  /**
   * `report` lists, once each and in some order, the line of every branch in
   * `names` with the sum of the amounts of the files that name it.
   */
  ghost predicate Summarizes(report: seq<string>, names: map<string, string>, files: seq<DirEntry>) {
    && (forall k :: k in names ==> ReportLine(k, names[k], SalesFor(k, files)) in report)
    && (forall i :: 0 <= i < |report| ==> IsSummaryLine(report[i], names, files))
    && (forall i, j :: 0 <= i < j < |report| ==> report[i] != report[j])
  }

  /** `line` is the summary line of some branch in `names`. */
  ghost predicate IsSummaryLine(line: string, names: map<string, string>, files: seq<DirEntry>) {
    exists k :: k in names && line == ReportLine(k, names[k], SalesFor(k, files))
  }

  /** The lines of the write loop over the final totals summarise the sales files. */
  lemma WrittenLinesSummarize(names: map<string, string>, totals: map<string, nat>, files: seq<DirEntry>,
                              keys: seq<string>, lines: seq<string>)
    requires forall k :: k in names ==> IsBranchCode(k) && IsBranchName(names[k])
    requires forall k :: k in names ==> k in totals && totals[k] == SalesFor(k, files)
    requires |keys| == |lines|
    requires forall k :: k in names <==> k in keys
    requires forall i, j :: 0 <= i < j < |keys| ==> keys[i] != keys[j]
    requires forall i :: 0 <= i < |keys| ==>
      keys[i] in names && lines[i] == ReportLine(keys[i], names[keys[i]], totals[keys[i]])
    ensures Summarizes(lines, names, files)
  {
    forall k | k in names
      ensures ReportLine(k, names[k], SalesFor(k, files)) in lines
    {
      var i :| 0 <= i < |keys| && keys[i] == k;
      assert lines[i] == ReportLine(k, names[k], SalesFor(k, files));
    }
    forall i | 0 <= i < |lines|
      ensures IsSummaryLine(lines[i], names, files)
    {
      var k := keys[i];
      assert k in names && lines[i] == ReportLine(k, names[k], SalesFor(k, files));
    }
    forall i, j | 0 <= i < j < |lines| ensures lines[i] != lines[j] {
      LinesOfDistinctKeysDiffer(names, totals, keys[i], keys[j]);
    }
  }

  lemma LinesOfDistinctKeysDiffer(names: map<string, string>, totals: map<string, nat>, a: string, b: string)
    requires a in names && b in names && a in totals && b in totals && a != b
    requires IsBranchCode(a) && IsBranchCode(b) && ',' !in names[a] && ',' !in names[b]
    ensures ReportLine(a, names[a], totals[a]) != ReportLine(b, names[b], totals[b])
  {
    DigitsHaveNoComma(a);
    DigitsHaveNoComma(b);
    if ReportLine(a, names[a], totals[a]) == ReportLine(b, names[b], totals[b]) {
      ReportLineInjective(a, names[a], totals[a], b, names[b], totals[b]);
    }
  }

  /**
   * Everything after the load: the serial-number check, the aggregation
   * and the write, on the loaded branches and the sorted sales files.
   */
  method ProcessSales(ledger: Ledger, files: seq<DirEntry>) returns (out: Outcome)
    requires Consistent(ledger) && AllSalesFiles(files)
    requires forall k :: k in ledger.sales ==> ledger.sales[k] == 0
    requires forall k :: k in ledger.names ==> IsBranchCode(k) && IsBranchName(ledger.names[k])
    ensures !Consecutive(files) ==> out == Aborted(NotSerial)
    ensures Consecutive(files) ==>
      var totals := Accumulate(ledger.sales, files);
      (totals.Failure? ==> out == Aborted(totals.error)) && (totals.Success? ==> out.Written?)
    ensures out.Written? ==>
      && Summarizes(out.report, ledger.names, files)
      && forall k :: k in ledger.names ==> SalesFor(k, files) < SalesCap
  {
    var serial := CheckSerialNumbers(files);
    ConsecutiveIsRun(files);
    if !serial {
      return Aborted(NotSerial);
    }
    var totals := Accumulate(ledger.sales, files);
    if totals.Failure? {
      return Aborted(totals.error);
    }
    assert WithinCap(ledger.sales);
    assert forall k :: k in ledger.names ==>
      k in totals.value && totals.value[k] == SalesFor(k, files) && SalesFor(k, files) < SalesCap;
    var keys, lines := FormatReport(Ledger(ledger.names, totals.value));
    WrittenLinesSummarize(ledger.names, totals.value, files, keys, lines);
    return Written(lines);
  }

  /** The program run on `argCount` arguments against the listing `dir` of the named directory. */
  method Run(argCount: nat, dir: seq<DirEntry>) returns (out: Outcome)
    ensures argCount != 1 ==> out == Aborted(UnknownError)
    ensures argCount == 1 && LoadMaster(dir).Failure? ==> out == Aborted(LoadMaster(dir).error)
    ensures argCount == 1 && LoadMaster(dir).Success? && !Consecutive(SalesFilesOf(dir)) ==>
      out == Aborted(NotSerial)
    ensures argCount == 1 && LoadMaster(dir).Success? && Consecutive(SalesFilesOf(dir)) ==>
      var totals := Accumulate(LoadMaster(dir).value.sales, SalesFilesOf(dir));
      (totals.Failure? ==> out == Aborted(totals.error)) && (totals.Success? ==> out.Written?)
    ensures out.Written? ==>
      && argCount == 1 && LoadMaster(dir).Success?
      && Summarizes(out.report, LoadMaster(dir).value.names, SalesFilesOf(dir))
      && forall k :: k in LoadMaster(dir).value.names ==> SalesFor(k, SalesFilesOf(dir)) < SalesCap
  {
    if argCount != 1 {
      return Aborted(UnknownError);
    }
    var loaded := LoadMaster(dir);
    if loaded.Failure? {
      return Aborted(loaded.error);
    }
    out := ProcessSales(loaded.value, SalesFilesOf(dir));
  }
}
