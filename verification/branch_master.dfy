/**
 * Loading the branch definition file `branch.lst` (CalculateSales.readFile):
 * every line must read `code,name`, the code being exactly three digits;
 * each accepted line registers its branch with a running total of zero.
 */
module BranchMaster {
  import opened Wrappers
  import opened Text
  import opened Types

  /** One accepted line of the branch definition file. */
  datatype Branch = Branch(code: string, name: string)

  /** The pattern `^[0-9]{3}` under `String.matches`, which must consume the whole string. */
  predicate IsBranchCode(s: string) {
    |s| == 3 && AllDigits(s)
  }

  /** What `split(",")` can leave as the second of exactly two fields. */
  predicate IsBranchName(s: string) {
    s != "" && ',' !in s
  }

  /** Validates one line: exactly two fields after `split(",")`, the first a branch code. */
  function ParseBranchLine(line: string): (r: Option<Branch>)
    ensures r.Some? ==> IsBranchCode(r.value.code) && IsBranchName(r.value.name)
  {
    var item := SplitOnComma(line);
    if |item| != 2 || !IsBranchCode(item[0]) then None
    else Some(Branch(item[0], item[1]))
  }

  /** An accepted line is its code, a comma, its name, and nothing but commas after that. */
  lemma BranchLineShape(line: string) returns (k: nat)
    requires ParseBranchLine(line).Some?
    ensures var b := ParseBranchLine(line).value; line == b.code + "," + b.name + Commas(k)
  {
    var b := ParseBranchLine(line).value;
    var fs := Fields(line);
    assert ',' in line;
    assert SplitOnComma(line) == fs[..2];
    JoinFields(line);
    JoinTrailingEmpty(fs, 2);
    k := |fs| - 2;
    assert fs[..2] == [b.code, b.name];
    assert Join(fs[..2]) == b.code + "," + b.name;
  }

  /** Conversely, every line of that shape is accepted with that code and name. */
  lemma BranchLineAccepted(b: Branch, k: nat)
    requires IsBranchCode(b.code) && IsBranchName(b.name)
    ensures ParseBranchLine(b.code + "," + b.name + Commas(k)) == Some(b)
  {
    var line := b.code + "," + b.name + Commas(k);
    var empties := seq(k, _ => "");
    assert line == b.code + "," + (b.name + Commas(k));
    FieldsAfterComma(b.code, b.name + Commas(k));
    if k == 0 {
      assert b.name + Commas(k) == b.name;
      FieldsWithoutComma(b.name);
    } else {
      assert b.name + Commas(k) == b.name + "," + Commas(k - 1);
      FieldsAfterComma(b.name, Commas(k - 1));
      FieldsOfCommas(k - 1);
    }
    var fs := Fields(line);
    assert fs == [b.code, b.name] + empties;
    assert line[3] == ',';
    StripUpToLastNonEmpty(fs, 2);
  }

  /** Every accepted line in `parsed` carries a well-formed code and name. */
  predicate WellFormedBranches(parsed: seq<Option<Branch>>) {
    forall i :: 0 <= i < |parsed| && parsed[i].Some? ==>
      IsBranchCode(parsed[i].value.code) && IsBranchName(parsed[i].value.name)
  }

  /** The verdict of the line check on each line of the file, in order. */
  function ParseLines(lines: seq<string>): (r: seq<Option<Branch>>)
    ensures |r| == |lines| && WellFormedBranches(r)
    ensures forall i :: 0 <= i < |lines| ==> r[i] == ParseBranchLine(lines[i])
  {
    seq(|lines|, i requires 0 <= i < |lines| => ParseBranchLine(lines[i]))
  }

  /**
   * The `readFile` loop over the checked lines: the first rejected line
   * aborts the load; each accepted line (re)defines its code's name and
   * resets its total to 0.
   */
  function Register(parsed: seq<Option<Branch>>): (r: Result<Ledger, ErrorKind>)
    requires WellFormedBranches(parsed)
    ensures r.Failure? ==> r.error == BranchFileInvalid
    ensures r.Success? ==> Consistent(r.value)
    ensures r.Success? ==> forall k :: k in r.value.sales ==> r.value.sales[k] == 0
    ensures r.Success? ==> forall k :: k in r.value.names ==> IsBranchCode(k) && IsBranchName(r.value.names[k])
  {
    if |parsed| == 0 then Success(Ledger(map[], map[]))
    else
      var prev :- Register(parsed[..|parsed| - 1]);
      match parsed[|parsed| - 1]
      case None => Failure(BranchFileInvalid)
      case Some(b) => Success(Ledger(prev.names[b.code := b.name], prev.sales[b.code := 0]))
  }

  /** Loads the lines of `branch.lst`. */
  function LoadBranches(lines: seq<string>): (r: Result<Ledger, ErrorKind>)
    ensures r.Failure? ==> r.error == BranchFileInvalid
    ensures r.Success? ==> Consistent(r.value)
    ensures r.Success? ==> forall k :: k in r.value.sales ==> r.value.sales[k] == 0
    ensures r.Success? ==> forall k :: k in r.value.names ==> IsBranchCode(k) && IsBranchName(r.value.names[k])
  {
    Register(ParseLines(lines))
  }

  /** Registration succeeds exactly when no line was rejected. */
  lemma {:induction false} RegisterSucceedsIff(parsed: seq<Option<Branch>>)
    requires WellFormedBranches(parsed)
    ensures Register(parsed).Success? <==> forall i :: 0 <= i < |parsed| ==> parsed[i].Some?
  {
    if |parsed| > 0 {
      var init := parsed[..|parsed| - 1];
      assert forall i :: 0 <= i < |init| ==> init[i] == parsed[i];
      RegisterSucceedsIff(init);
      assert Register(parsed).Success? <==> Register(init).Success? && parsed[|parsed| - 1].Some?;
    }
  }

  /** The load succeeds exactly when every line is accepted. */
  lemma LoadSucceedsIff(lines: seq<string>)
    ensures LoadBranches(lines).Success? <==> forall i :: 0 <= i < |lines| ==> ParseBranchLine(lines[i]).Some?
  {
    RegisterSucceedsIff(ParseLines(lines));
  }

  /** The codes of the accepted entries. */
  ghost function CodesOf(parsed: seq<Option<Branch>>): set<string> {
    set i | 0 <= i < |parsed| && parsed[i].Some? :: parsed[i].value.code
  }

  /** The registered branches are exactly the codes of the accepted entries. */
  lemma {:induction false} RegisteredCodes(parsed: seq<Option<Branch>>)
    requires WellFormedBranches(parsed) && Register(parsed).Success?
    ensures Register(parsed).value.names.Keys == CodesOf(parsed)
  {
    if |parsed| > 0 {
      var init := parsed[..|parsed| - 1];
      assert forall i :: 0 <= i < |init| ==> init[i] == parsed[i];
      RegisteredCodes(init);
      CodesOfSnoc(parsed);
    }
  }

  lemma CodesOfSnoc(parsed: seq<Option<Branch>>)
    requires |parsed| > 0 && parsed[|parsed| - 1].Some?
    ensures CodesOf(parsed) == CodesOf(parsed[..|parsed| - 1]) + {parsed[|parsed| - 1].value.code}
  {
    var init := parsed[..|parsed| - 1];
    forall c | c in CodesOf(parsed) ensures c in CodesOf(init) + {parsed[|parsed| - 1].value.code} {
      var i :| 0 <= i < |parsed| && parsed[i].Some? && parsed[i].value.code == c;
      if i < |init| {
        assert init[i] == parsed[i];
      }
    }
    forall c | c in CodesOf(init) ensures c in CodesOf(parsed) {
      var i :| 0 <= i < |init| && init[i].Some? && init[i].value.code == c;
      assert init[i] == parsed[i];
    }
  }

  /** The loaded branches are exactly the codes on the accepted lines of the file. */
  lemma LoadedCodes(lines: seq<string>)
    requires LoadBranches(lines).Success?
    ensures forall c :: c in LoadBranches(lines).value.names <==>
      exists i :: 0 <= i < |lines| && ParseBranchLine(lines[i]).Some? && ParseBranchLine(lines[i]).value.code == c
  {
    var parsed := ParseLines(lines);
    RegisteredCodes(parsed);
    forall c ensures c in CodesOf(parsed) <==>
      exists i :: 0 <= i < |lines| && ParseBranchLine(lines[i]).Some? && ParseBranchLine(lines[i]).value.code == c
    {
      if c in CodesOf(parsed) {
        var i :| 0 <= i < |parsed| && parsed[i].Some? && parsed[i].value.code == c;
        assert parsed[i] == ParseBranchLine(lines[i]);
      }
    }
  }

  /** A code's name is the one on the last entry that carries the code. */
  lemma {:induction false} LastEntryWins(parsed: seq<Option<Branch>>, i: nat, b: Branch)
    requires i < |parsed| && parsed[i] == Some(b)
    requires forall j :: i < j < |parsed| ==> parsed[j].Some? && parsed[j].value.code != b.code
    requires WellFormedBranches(parsed) && Register(parsed).Success?
    ensures b.code in Register(parsed).value.names
    ensures Register(parsed).value.names[b.code] == b.name
  {
    if i < |parsed| - 1 {
      var init := parsed[..|parsed| - 1];
      assert forall j :: 0 <= j < |init| ==> init[j] == parsed[j];
      LastEntryWins(init, i, b);
    }
  }

  /** A code's name is the one on the last line that carries the code. */
  lemma LastLineWins(lines: seq<string>, i: nat, b: Branch)
    requires i < |lines| && ParseBranchLine(lines[i]) == Some(b)
    requires forall j :: i < j < |lines| ==> ParseBranchLine(lines[j]).Some? && ParseBranchLine(lines[j]).value.code != b.code
    requires LoadBranches(lines).Success?
    ensures b.code in LoadBranches(lines).value.names
    ensures LoadBranches(lines).value.names[b.code] == b.name
  {
    LastEntryWins(ParseLines(lines), i, b);
  }

  /** Looks a name up in the directory listing. */
  function FindEntry(dir: seq<DirEntry>, name: string): (r: Option<DirEntry>)
    ensures r.None? <==> forall i :: 0 <= i < |dir| ==> dir[i].name != name
    ensures r.Some? ==> r.value in dir && r.value.name == name
  {
    if |dir| == 0 then None
    else if dir[0].name == name then Some(dir[0])
    else FindEntry(dir[1..], name)
  }

  /** `e` is the one entry of the listing called `name`. */
  predicate OnlyEntryNamed(dir: seq<DirEntry>, name: string, e: DirEntry) {
    && e in dir && e.name == name
    && forall i :: 0 <= i < |dir| && dir[i].name == name ==> dir[i] == e
  }

  /**
   * Loads `branch.lst` from the directory: missing → BranchFileMissing;
   * present but not a readable regular file → UnknownError (the reader throws).
   */
  function LoadMaster(dir: seq<DirEntry>): (r: Result<Ledger, ErrorKind>)
    ensures r == Failure(BranchFileMissing) <==> forall i :: 0 <= i < |dir| ==> dir[i].name != BranchListName
    ensures r.Success? ==> exists e :: e in dir && e.name == BranchListName && e.isFile && LoadBranches(e.lines) == r
    ensures forall e :: OnlyEntryNamed(dir, BranchListName, e) ==>
      r == (if e.isFile then LoadBranches(e.lines) else Failure(UnknownError))
  {
    match FindEntry(dir, BranchListName)
    case None => Failure(BranchFileMissing)
    case Some(e) => if e.isFile then LoadBranches(e.lines) else Failure(UnknownError)
  }
}
