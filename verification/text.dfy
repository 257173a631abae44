/**
 * String facilities the program borrows from the Java library: the ASCII
 * digit class `[0-9]`, decimal parsing and printing of non-negative numbers,
 * `String.split(",")` and the lexicographic order of `String.compareTo`.
 */
module Text {

  /** Membership in the regular-expression class `[0-9]`. */
  predicate IsDigit(c: char) {
    '0' <= c <= '9'
  }

  /** The whole string matches `[0-9]*`. */
  predicate AllDigits(s: string) {
    forall i :: 0 <= i < |s| ==> IsDigit(s[i])
  }

  lemma DigitsHaveNoComma(s: string)
    requires AllDigits(s)
    ensures ',' !in s
  {
  }

  function DigitValue(c: char): (d: nat)
    requires IsDigit(c)
    ensures d < 10
  {
    c as int - '0' as int
  }

  function DigitChar(d: nat): (c: char)
    requires d < 10
    ensures IsDigit(c) && DigitValue(c) == d
  {
    ('0' as int + d) as char
  }

  function Pow10(n: nat): (p: nat)
    ensures p >= 1
  {
    if n == 0 then 1 else 10 * Pow10(n - 1)
  }

  /** The number a digit string denotes, read left to right as `Long.parseLong` does. */
  function DecimalValue(s: string): (v: nat)
    requires AllDigits(s)
    ensures v < Pow10(|s|)
  {
    if |s| == 0 then 0
    else DecimalValue(s[..|s| - 1]) * 10 + DigitValue(s[|s| - 1])
  }

  /** The decimal rendering of `n` used when a `long` is concatenated to a string. */
  function Decimal(n: nat): (s: string)
    ensures AllDigits(s) && |s| >= 1
    ensures |s| == 1 || s[0] != '0'
  {
    if n < 10 then [DigitChar(n)]
    else Decimal(n / 10) + [DigitChar(n % 10)]
  }

  /** Printing a number and reading it back yields the number. */
  lemma {:induction false} DecimalRoundTrip(n: nat)
    ensures DecimalValue(Decimal(n)) == n
  {
    if n >= 10 {
      var s := Decimal(n);
      assert s[..|s| - 1] == Decimal(n / 10);
      DecimalRoundTrip(n / 10);
    }
  }

  /** The leading digit weighs `10^(|s|-1)`. */
  lemma {:induction false} DecimalValueFront(s: string)
    requires AllDigits(s) && |s| > 0
    ensures DecimalValue(s) == DigitValue(s[0]) * Pow10(|s| - 1) + DecimalValue(s[1..])
  {
    if |s| > 1 {
      var t := s[..|s| - 1];
      var u := s[1..];
      DecimalValueFront(t);
      assert t[1..] == u[..|u| - 1];
      assert u[|u| - 1] == s[|s| - 1];
      assert t[0] == s[0];
      ShiftLeadingDigit(DigitValue(s[0]), Pow10(|s| - 2), DecimalValue(t[1..]), DigitValue(s[|s| - 1]));
    } else {
      assert s[..0] == [];
    }
  }

  /** Moving one decimal place: `(d * p + a) * 10 + c == d * (10 * p) + (a * 10 + c)`. */
  lemma ShiftLeadingDigit(d: nat, p: nat, a: nat, c: nat)
    ensures (d * p + a) * 10 + c == d * (10 * p) + (a * 10 + c)
  {
  }

  // ---------------------------------------------------------------------------
  // Lexicographic order

  /** `a.compareTo(b) < 0` for Java strings: the first differing character decides, else the shorter is smaller. */
  predicate LexLess(a: string, b: string)
    ensures LexLess(a, b) ==> a != b
  {
    if |a| == 0 then |b| > 0
    else if |b| == 0 then false
    else if a[0] != b[0] then a[0] < b[0]
    else LexLess(a[1..], b[1..])
  }

  lemma {:induction false} LexLessIrreflexive(a: string)
    ensures !LexLess(a, a)
  {
    if |a| > 0 {
      LexLessIrreflexive(a[1..]);
    }
  }

  /** Of two different strings, one is smaller. */
  lemma {:induction false} LexLessTotal(a: string, b: string)
    ensures a == b || LexLess(a, b) || LexLess(b, a)
  {
    if |a| > 0 && |b| > 0 && a[0] == b[0] {
      LexLessTotal(a[1..], b[1..]);
      if a[1..] == b[1..] {
        assert a == [a[0]] + a[1..] && b == [b[0]] + b[1..];
      }
    }
  }

  /** A smaller leading digit outweighs any tail shorter than the digit's weight. */
  lemma LeadingDigitDominates(x: nat, rx: nat, y: nat, ry: nat, p: nat)
    requires x < y && rx < p
    ensures x * p + rx < y * p + ry
  {
    assert (x + 1) * p <= y * p;
  }

  /** On digit strings of equal width, lexicographic order is numeric order. */
  lemma {:induction false} LexLessIsNumericLess(a: string, b: string)
    requires AllDigits(a) && AllDigits(b) && |a| == |b|
    ensures LexLess(a, b) <==> DecimalValue(a) < DecimalValue(b)
  {
    if |a| > 0 {
      DecimalValueFront(a);
      DecimalValueFront(b);
      var p := Pow10(|a| - 1);
      var da, db := DigitValue(a[0]), DigitValue(b[0]);
      if da < db {
        LeadingDigitDominates(da, DecimalValue(a[1..]), db, DecimalValue(b[1..]), p);
      } else if db < da {
        LeadingDigitDominates(db, DecimalValue(b[1..]), da, DecimalValue(a[1..]), p);
      } else {
        assert a[0] == b[0];
        LexLessIsNumericLess(a[1..], b[1..]);
      }
    }
  }

  /** A common suffix after equal-width prefixes does not change the order. */
  lemma {:induction false} LexLessCommonSuffix(p: string, q: string, s: string)
    requires |p| == |q|
    ensures LexLess(p + s, q + s) <==> LexLess(p, q)
  {
    if |p| == 0 {
      assert p + s == s && q + s == s;
      LexLessIrreflexive(s);
    } else {
      assert (p + s)[0] == p[0] && (q + s)[0] == q[0];
      if p[0] == q[0] {
        assert (p + s)[1..] == p[1..] + s;
        assert (q + s)[1..] == q[1..] + s;
        LexLessCommonSuffix(p[1..], q[1..], s);
      }
    }
  }

  // ---------------------------------------------------------------------------
  // String.split(",")

  /** The string split at every comma, empty fields kept: `n` commas give `n + 1` fields. */
  function Fields(s: string): (r: seq<string>)
    ensures |r| >= 1
    ensures forall i :: 0 <= i < |r| ==> ',' !in r[i]
  {
    if |s| == 0 then [""]
    else
      var rest := Fields(s[1..]);
      if s[0] == ',' then [""] + rest
      else [[s[0]] + rest[0]] + rest[1..]
  }

  /** Fields glued back together with commas. */
  function Join(fs: seq<string>): string
    requires |fs| >= 1
  {
    if |fs| == 1 then fs[0] else fs[0] + "," + Join(fs[1..])
  }

  /** A string of `k` commas. */
  function Commas(k: nat): (s: string)
    ensures |s| == k && forall i :: 0 <= i < k ==> s[i] == ','
  {
    seq(k, _ => ',')
  }

  /** Drops the empty fields at the end, as `split` with limit 0 does. */
  function StripTrailingEmpty(fs: seq<string>): (r: seq<string>)
    ensures |r| <= |fs| && r == fs[..|r|]
    ensures forall i :: |r| <= i < |fs| ==> fs[i] == ""
    ensures |r| > 0 ==> r[|r| - 1] != ""
  {
    if |fs| > 0 && fs[|fs| - 1] == "" then StripTrailingEmpty(fs[..|fs| - 1]) else fs
  }

  /** Stripping stops at the last non-empty field. */
  lemma {:induction false} StripUpToLastNonEmpty(fs: seq<string>, m: nat)
    requires 1 <= m <= |fs| && fs[m - 1] != ""
    requires forall i :: m <= i < |fs| ==> fs[i] == ""
    ensures StripTrailingEmpty(fs) == fs[..m]
  {
    if m == |fs| {
      assert fs[..m] == fs;
    } else {
      StripUpToLastNonEmpty(fs[..|fs| - 1], m);
      assert fs[..|fs| - 1][..m] == fs[..m];
    }
  }

  /**
   * Java's `s.split(",")`: a string without a comma is its own single field;
   * otherwise the fields between commas, trailing empty fields dropped.
   */
  function SplitOnComma(s: string): (r: seq<string>)
    ensures forall i :: 0 <= i < |r| ==> ',' !in r[i]
    ensures ',' !in s ==> r == [s]
    ensures ',' in s && |r| > 0 ==> r[|r| - 1] != ""
  {
    if ',' in s then
      var fs := Fields(s);
      var r := StripTrailingEmpty(fs);
      assert forall i :: 0 <= i < |r| ==> r[i] == fs[i];
      r
    else [s]
  }

  /**
   * Nothing but commas is lost: the fields joined with commas, followed by
   * `k` commas, give back the string; no field at all means the string was
   * made of commas only.
   */
  lemma SplitOnCommaRestores(s: string) returns (k: nat)
    ensures |SplitOnComma(s)| > 0 ==> s == Join(SplitOnComma(s)) + Commas(k)
    ensures |SplitOnComma(s)| == 0 ==> |s| > 0 && s == Commas(|s|)
  {
    if ',' !in s {
      k := 0;
      assert s == s + Commas(0);
    } else {
      var fs := Fields(s);
      var r := StripTrailingEmpty(fs);
      JoinFields(s);
      k := |fs| - |r|;
      if |r| > 0 {
        JoinTrailingEmpty(fs, |r|);
      } else {
        JoinOfEmpties(fs);
      }
    }
  }

  /** Comma-free fields whose last one is not empty split back out of their join. */
  lemma SplitOnCommaJoin(fs: seq<string>)
    requires |fs| >= 2 && fs[|fs| - 1] != ""
    requires forall i :: 0 <= i < |fs| ==> ',' !in fs[i]
    ensures SplitOnComma(Join(fs)) == fs
  {
    FieldsJoin(fs);
    assert Join(fs)[|fs[0]|] == ',';
    assert fs[..|fs|] == fs;
  }

  /** Splitting at commas and joining again gives back the string. */
  lemma {:induction false} JoinFields(s: string)
    ensures Join(Fields(s)) == s
  {
    if |s| > 0 {
      var rest := Fields(s[1..]);
      JoinFields(s[1..]);
      if s[0] == ',' {
        assert Fields(s) == [""] + rest;
        assert ([""] + rest)[1..] == rest;
        assert s == "," + s[1..];
      } else if |rest| == 1 {
        assert s == [s[0]] + s[1..];
      } else {
        var fs := Fields(s);
        assert fs[1..] == rest[1..];
        assert s == [s[0]] + s[1..];
        assert Join(fs) == [s[0]] + rest[0] + "," + Join(rest[1..]);
      }
    }
  }

  lemma {:induction false} FieldsWithoutComma(a: string)
    requires ',' !in a
    ensures Fields(a) == [a]
  {
    if |a| > 0 {
      assert ',' !in a[1..] by {
        forall i | 0 <= i < |a[1..]| ensures a[1..][i] != ',' {
          assert a[1..][i] == a[i + 1];
        }
      }
      FieldsWithoutComma(a[1..]);
      assert [a[0]] + a[1..] == a;
    }
  }

  lemma {:induction false} FieldsAfterComma(a: string, b: string)
    requires ',' !in a
    ensures Fields(a + "," + b) == [a] + Fields(b)
  {
    var s := a + "," + b;
    if |a| == 0 {
      assert s == "," + b;
      assert s[1..] == b;
    } else {
      assert s[0] == a[0];
      assert s[1..] == a[1..] + "," + b;
      assert ',' !in a[1..] by {
        forall i | 0 <= i < |a[1..]| ensures a[1..][i] != ',' {
          assert a[1..][i] == a[i + 1];
        }
      }
      FieldsAfterComma(a[1..], b);
      assert [a[0]] + a[1..] == a;
    }
  }

  /** Joining comma-free fields and splitting again gives back the fields. */
  lemma {:induction false} FieldsJoin(fs: seq<string>)
    requires |fs| >= 1
    requires forall i :: 0 <= i < |fs| ==> ',' !in fs[i]
    ensures Fields(Join(fs)) == fs
  {
    if |fs| == 1 {
      FieldsWithoutComma(fs[0]);
    } else {
      FieldsJoin(fs[1..]);
      FieldsAfterComma(fs[0], Join(fs[1..]));
      assert [fs[0]] + fs[1..] == fs;
    }
  }

  /** The fields of `Commas(k)` are `k + 1` empty strings. */
  lemma {:induction false} FieldsOfCommas(k: nat)
    ensures Fields(Commas(k)) == seq(k + 1, _ => "")
  {
    if k > 0 {
      FieldsOfCommas(k - 1);
      assert Commas(k) == "" + "," + Commas(k - 1);
      FieldsAfterComma("", Commas(k - 1));
    }
  }

  /** Trailing empty fields reappear as trailing commas when joined. */
  lemma {:induction false} JoinTrailingEmpty(fs: seq<string>, m: nat)
    requires 1 <= m <= |fs|
    requires forall i :: m <= i < |fs| ==> fs[i] == ""
    ensures Join(fs) == Join(fs[..m]) + Commas(|fs| - m)
    decreases |fs|
  {
    if m == |fs| {
      assert fs[..m] == fs;
    } else if m == 1 {
      JoinOfEmpties(fs[1..]);
      assert fs[..1] == [fs[0]];
      assert Commas(|fs| - 1) == "," + Commas(|fs| - 2);
    } else {
      JoinTrailingEmpty(fs[1..], m - 1);
      assert fs[1..][..m - 1] == fs[..m][1..];
    }
  }

  lemma {:induction false} JoinOfEmpties(fs: seq<string>)
    requires |fs| >= 1
    requires forall i :: 0 <= i < |fs| ==> fs[i] == ""
    ensures Join(fs) == Commas(|fs| - 1)
  {
    if |fs| > 1 {
      JoinOfEmpties(fs[1..]);
      assert Commas(|fs| - 1) == "" + "," + Commas(|fs| - 2);
    }
  }
}
