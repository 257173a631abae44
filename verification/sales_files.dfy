/**
 * Choosing the daily sales files (CalculateSales.main, first half): regular
 * files named `NNNNNNNN.rcd`, sorted by name, whose eight-digit serial
 * numbers must run without gap or repetition.
 */
module SalesFiles {
  import opened Text
  import opened Types

  /** The pattern `^[0-9]{8}[.]rcd$` under `String.matches`. */
  predicate IsSalesFileName(name: string) {
    |name| == 12 && AllDigits(name[..8]) && name[8..] == ".rcd"
  }

  /** A directory entry the program picks up as a sales file. */
  predicate IsSalesFile(e: DirEntry) {
    e.isFile && IsSalesFileName(e.name)
  }

  predicate AllSalesFiles(s: seq<DirEntry>) {
    forall i :: 0 <= i < |s| ==> IsSalesFileName(s[i].name)
  }

  /** `Integer.parseInt(name.substring(0, 8))`. */
  function Serial(name: string): (n: nat)
    requires IsSalesFileName(name)
    ensures n < 100000000
  {
    assert Pow10(8) == 100000000;
    DecimalValue(name[..8])
  }

  /**
   * Sorting by serial number is sorting by name: `File.compareTo` compares
   * the names as strings, and for two names of this shape that order is the
   * numeric order of their prefixes.
   */
  lemma NameOrderIsSerialOrder(a: string, b: string)
    requires IsSalesFileName(a) && IsSalesFileName(b)
    ensures LexLess(a, b) <==> Serial(a) < Serial(b)
  {
    assert a == a[..8] + ".rcd" && b == b[..8] + ".rcd";
    LexLessCommonSuffix(a[..8], b[..8], ".rcd");
    LexLessIsNumericLess(a[..8], b[..8]);
  }

  /** Two sales file names with the same serial number are the same name. */
  lemma SerialIsInjective(a: string, b: string)
    requires IsSalesFileName(a) && IsSalesFileName(b) && Serial(a) == Serial(b)
    ensures a == b
  {
    NameOrderIsSerialOrder(a, b);
    NameOrderIsSerialOrder(b, a);
    LexLessTotal(a, b);
  }

  /** Keeps the sales files of the listing, in listing order. */
  function SelectSalesFiles(dir: seq<DirEntry>): (r: seq<DirEntry>)
    ensures AllSalesFiles(r)
    ensures forall e :: e in r ==> IsSalesFile(e)
    ensures forall e :: multiset(r)[e] == if IsSalesFile(e) then multiset(dir)[e] else 0
  {
    if |dir| == 0 then []
    else
      var rest := SelectSalesFiles(dir[1..]);
      assert dir == [dir[0]] + dir[1..];
      if IsSalesFile(dir[0]) then [dir[0]] + rest else rest
  }

  predicate SortedBySerial(s: seq<DirEntry>)
    requires AllSalesFiles(s)
  {
    forall i, j :: 0 <= i < j < |s| ==> Serial(s[i].name) <= Serial(s[j].name)
  }

  /** Putting a file no later than the head in front keeps the order. */
  lemma PrependSorted(x: DirEntry, s: seq<DirEntry>)
    requires IsSalesFileName(x.name) && AllSalesFiles(s) && SortedBySerial(s)
    requires |s| > 0 ==> Serial(x.name) <= Serial(s[0].name)
    ensures AllSalesFiles([x] + s) && SortedBySerial([x] + s)
  {
    var r := [x] + s;
    forall i | 0 < i < |r| ensures r[i] == s[i - 1] { }
  }

  function InsertBySerial(e: DirEntry, s: seq<DirEntry>): (r: seq<DirEntry>)
    requires IsSalesFileName(e.name) && AllSalesFiles(s) && SortedBySerial(s)
    ensures multiset(r) == multiset(s) + multiset{e}
    ensures AllSalesFiles(r) && SortedBySerial(r)
    ensures |r| == |s| + 1 && (r[0] == e || (|s| > 0 && r[0] == s[0]))
  {
    if |s| == 0 || Serial(e.name) <= Serial(s[0].name) then
      PrependSorted(e, s);
      [e] + s
    else
      var tail := s[1..];
      assert AllSalesFiles(tail) && SortedBySerial(tail) by {
        forall i | 0 <= i < |tail| ensures tail[i] == s[i + 1] { }
      }
      var rest := InsertBySerial(e, tail);
      assert Serial(s[0].name) <= Serial(rest[0].name) by {
        if rest[0] != e {
          assert rest[0] == s[1];
        }
      }
      PrependSorted(s[0], rest);
      assert multiset(s) == multiset{s[0]} + multiset(tail) by {
        assert s == [s[0]] + tail;
      }
      [s[0]] + rest
  }

  /** `Collections.sort` on the selected files: ascending serial numbers, same files. */
  function SortBySerial(s: seq<DirEntry>): (r: seq<DirEntry>)
    requires AllSalesFiles(s)
    ensures multiset(r) == multiset(s)
    ensures AllSalesFiles(r) && SortedBySerial(r)
  {
    if |s| == 0 then []
    else
      assert s == [s[0]] + s[1..];
      InsertBySerial(s[0], SortBySerial(s[1..]))
  }

  /** The sales files of a directory listing, in processing order. */
  function SalesFilesOf(dir: seq<DirEntry>): (r: seq<DirEntry>)
    ensures AllSalesFiles(r) && SortedBySerial(r)
    ensures forall e :: multiset(r)[e] == if IsSalesFile(e) then multiset(dir)[e] else 0
  {
    SortBySerial(SelectSalesFiles(dir))
  }

  /** Every neighbour's serial number is exactly one more. */
  predicate Consecutive(s: seq<DirEntry>)
    requires AllSalesFiles(s)
  {
    forall i :: 0 <= i < |s| - 1 ==> Serial(s[i + 1].name) - Serial(s[i].name) == 1
  }

  /** The serial-number loop: stops at the first neighbour pair whose difference is not 1. */
  method CheckSerialNumbers(s: seq<DirEntry>) returns (ok: bool)
    requires AllSalesFiles(s)
    ensures ok <==> forall i :: 0 <= i < |s| ==> Serial(s[i].name) == Serial(s[0].name) + i
  {
    var i := 0;
    while i < |s| - 1
      invariant 0 <= i <= |s|
      invariant forall j :: 0 <= j <= i && j < |s| ==> Serial(s[j].name) == Serial(s[0].name) + j
    {
      var former: int := Serial(s[i].name);
      var latter: int := Serial(s[i + 1].name);
      if latter - former != 1 {
        return false;
      }
      i := i + 1;
    }
    return true;
  }

  /** The neighbour rule holds exactly when the serials count up from the first one. */
  lemma {:induction false} ConsecutiveIsRun(s: seq<DirEntry>)
    requires AllSalesFiles(s)
    ensures Consecutive(s) <==> forall i :: 0 <= i < |s| ==> Serial(s[i].name) == Serial(s[0].name) + i
  {
    if |s| > 1 {
      var t := s[1..];
      assert forall i :: 0 <= i < |t| ==> t[i] == s[i + 1];
      ConsecutiveIsRun(t);
      if Consecutive(s) {
        assert Consecutive(t);
        forall i | 0 <= i < |s| ensures Serial(s[i].name) == Serial(s[0].name) + i {
          if i > 0 {
            assert Serial(s[i].name) == Serial(t[0].name) + (i - 1);
          }
        }
      }
    }
  }

  /** No serial number occurs twice. */
  predicate NoRepeatedSerial(s: seq<DirEntry>)
    requires AllSalesFiles(s)
  {
    forall i, j :: 0 <= i < j < |s| ==> Serial(s[i].name) != Serial(s[j].name)
  }

  /** Some file carries serial number `n`. */
  predicate HasSerial(s: seq<DirEntry>, n: int)
    requires AllSalesFiles(s)
  {
    exists i :: 0 <= i < |s| && Serial(s[i].name) == n
  }

  /** Every serial number between the first and the last occurs. */
  predicate NoMissingSerial(s: seq<DirEntry>)
    requires AllSalesFiles(s)
  {
    forall n :: |s| > 0 && Serial(s[0].name) <= n <= Serial(s[|s| - 1].name) ==> HasSerial(s, n)
  }

  /** On sorted files the neighbour rule means: no repeated and no missing serial number. */
  lemma ConsecutiveIffNoRepeatNoGap(s: seq<DirEntry>)
    requires AllSalesFiles(s) && SortedBySerial(s)
    ensures Consecutive(s) <==> NoRepeatedSerial(s) && NoMissingSerial(s)
  {
    if Consecutive(s) {
      ConsecutiveHasNoRepeatNoGap(s);
    } else if NoRepeatedSerial(s) && NoMissingSerial(s) {
      NoRepeatNoGapIsConsecutive(s);
    }
  }

  lemma ConsecutiveHasNoRepeatNoGap(s: seq<DirEntry>)
    requires AllSalesFiles(s) && Consecutive(s)
    ensures NoRepeatedSerial(s) && NoMissingSerial(s)
  {
    ConsecutiveIsRun(s);
    forall n | |s| > 0 && Serial(s[0].name) <= n <= Serial(s[|s| - 1].name)
      ensures HasSerial(s, n)
    {
      var i := n - Serial(s[0].name);
      assert Serial(s[i].name) == n;
    }
  }

  lemma NoRepeatNoGapIsConsecutive(s: seq<DirEntry>)
    requires AllSalesFiles(s) && SortedBySerial(s)
    requires NoRepeatedSerial(s) && NoMissingSerial(s)
    ensures Consecutive(s)
  {
    forall i | 0 <= i < |s| - 1 ensures Serial(s[i + 1].name) - Serial(s[i].name) == 1 {
      var a, b := Serial(s[i].name), Serial(s[i + 1].name);
      assert a < b;
      if b - a != 1 {
        assert Serial(s[0].name) <= a + 1 <= Serial(s[|s| - 1].name);
        assert HasSerial(s, a + 1);
        var j :| 0 <= j < |s| && Serial(s[j].name) == a + 1;
        assert false;
      }
    }
  }
}
