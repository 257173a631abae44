/**
 * The entities the sales aggregation works on: the error kinds it reports,
 * the directory it reads, and the two branch maps it keeps.
 */
module Types {

  /**
   * Why a run stops. Each kind but the last stands for one of the fixed
   * console messages; the two that name a sales file carry its name.
   */
  datatype ErrorKind =
    | UnknownError                   // wrong argument count, an I/O fault, or a non-digit amount
    | BranchFileMissing              // the branch definition file does not exist
    | BranchFileInvalid              // a line of the branch definition file is malformed
    | NotSerial                      // sales file numbers are not consecutive
    | TotalTooLarge                  // a branch total would reach 10^10 (eleven digits)
    | UnknownBranchCode(file: string) // a sales file names an unregistered branch
    | SalesFileInvalid(file: string)  // a sales file does not hold exactly two lines
    | AmountNotParsable              // `Long.parseLong` throws: empty amount or beyond `Long.MAX_VALUE`

  /**
   * One entry of the target directory: its name, whether it is a regular
   * file, and the lines `readLine` would return for it.
   */
  datatype DirEntry = DirEntry(name: string, isFile: bool, lines: seq<string>)

  /** The two hash maps of the program: branch code to name and branch code to running total. */
  datatype Ledger = Ledger(names: map<string, string>, sales: map<string, nat>)

  /** Both maps know the same branches. */
  predicate Consistent(l: Ledger) {
    l.names.Keys == l.sales.Keys
  }

  /** The fixed name of the branch definition file. */
  const BranchListName: string := "branch.lst"
}
