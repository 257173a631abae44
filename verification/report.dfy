/**
 * Writing `branch.out` (CalculateSales.writeFile): one line
 * `code,name,total` per registered branch, in the hash map's key order.
 */
module Report {
  import opened Wrappers
  import opened Text
  import opened Types

  /** A summary line read back into its parts. */
  datatype Row = Row(code: string, name: string, total: nat)

  /** Reads a summary line: three fields, the last a decimal number. */
  function ParseReportLine(line: string): Option<Row> {
    var f := SplitOnComma(line);
    if |f| == 3 && f[2] != "" && AllDigits(f[2]) then Some(Row(f[0], f[1], DecimalValue(f[2])))
    else None
  }

  /**
   * One summary line: `key + "," + name + "," + total`. With a comma-free
   * code and name it reads back as exactly that code, name and total.
   */
  function ReportLine(code: string, name: string, total: nat): (line: string)
    ensures ',' !in code && ',' !in name ==> ParseReportLine(line) == Some(Row(code, name, total))
  {
    var digits := Decimal(total);
    var fs := [code, name, digits];
    assert Join(fs) == code + "," + name + "," + digits by {
      assert Join(fs[2..]) == digits;
      assert Join(fs[1..]) == name + "," + digits;
    }
    assert ',' !in code && ',' !in name ==> SplitOnComma(Join(fs)) == fs by {
      if ',' !in code && ',' !in name {
        DigitsHaveNoComma(digits);
        SplitOnCommaJoin(fs);
      }
    }
    DecimalRoundTrip(total);
    code + "," + name + "," + digits
  }

  /** Different branches never share a summary line. */
  lemma ReportLineInjective(c1: string, n1: string, t1: nat, c2: string, n2: string, t2: nat)
    requires ',' !in c1 && ',' !in n1 && ',' !in c2 && ',' !in n2
    requires ReportLine(c1, n1, t1) == ReportLine(c2, n2, t2)
    ensures c1 == c2 && n1 == n2 && t1 == t2
  {
  }

  /**
   * The write loop over `branchNames.keySet()`. Hash map order is not
   * specified, so the keys come out in some order, each exactly once,
   * and `lines[i]` is the summary line of `keys[i]`.
   */
  method FormatReport(ledger: Ledger) returns (keys: seq<string>, lines: seq<string>)
    requires ledger.names.Keys <= ledger.sales.Keys
    ensures |keys| == |lines|
    ensures forall k :: k in ledger.names <==> k in keys
    ensures forall i, j :: 0 <= i < j < |keys| ==> keys[i] != keys[j]
    ensures forall i :: 0 <= i < |keys| ==>
      keys[i] in ledger.names && lines[i] == ReportLine(keys[i], ledger.names[keys[i]], ledger.sales[keys[i]])
  {
    var remaining := ledger.names.Keys;
    keys, lines := [], [];
    while remaining != {}
      invariant remaining <= ledger.names.Keys
      invariant |keys| == |lines|
      invariant forall k :: k in ledger.names ==> (k in keys <==> k !in remaining)
      invariant forall i :: 0 <= i < |keys| ==> keys[i] in ledger.names && keys[i] !in remaining
      invariant forall i, j :: 0 <= i < j < |keys| ==> keys[i] != keys[j]
      invariant forall i :: 0 <= i < |keys| ==>
        lines[i] == ReportLine(keys[i], ledger.names[keys[i]], ledger.sales[keys[i]])
      decreases remaining
    {
      var k :| k in remaining;
      keys := keys + [k];
      lines := lines + [ReportLine(k, ledger.names[k], ledger.sales[k])];
      remaining := remaining - {k};
    }
  }
}
