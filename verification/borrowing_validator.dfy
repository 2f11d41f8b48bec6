/**
 * The validation chains in front of borrowing creation and status updates. The ISO 8601
 * format check and the date parser are library calls, passed in as functions; the
 * parser gives None for an invalid date. `todayMidnight` is the start of the current day.
 */
module BorrowingValidator {
  import opened Wrappers
  import opened Text
  import opened Validation
  import opened Schema

  datatype BorrowingFields = BorrowingFields(
    itemId: Option<string>,
    quantity: Option<string>,
    returnDate: Option<string>,
    notes: Option<string>)

  /** The custom check: a date that parses and falls before today's midnight is refused. */
  predicate ReturnDateInPast(returnDate: string, parseDate: string -> Option<int>, todayMidnight: int) {
    parseDate(returnDate).Some? && parseDate(returnDate).value < todayMidnight
  }

  /** `createBorrowingValidator`. */
  function CreateBorrowingErrors(f: BorrowingFields, isISO8601: string -> bool,
                                 parseDate: string -> Option<int>, todayMidnight: int): (errs: seq<string>)
    ensures errs == [] <==>
      && !Blank(f.itemId)
      && IsIntAtLeast(Field(f.quantity), 1)
      && Field(f.returnDate) != ""
      && isISO8601(Field(f.returnDate))
      && !ReturnDateInPast(Field(f.returnDate), parseDate, todayMidnight)
    ensures Blank(f.itemId) ==> "Item ID tidak boleh kosong" in errs
    ensures !IsIntAtLeast(Field(f.quantity), 1) ==> "Quantity harus minimal 1" in errs
    ensures Field(f.returnDate) == "" ==> "Tanggal pengembalian harus diisi" in errs
    ensures !isISO8601(Field(f.returnDate)) ==> "Format tanggal tidak valid" in errs
    ensures ReturnDateInPast(Field(f.returnDate), parseDate, todayMidnight) ==>
      "Tanggal pengembalian tidak boleh di masa lalu" in errs
  {
    var date := Field(f.returnDate);
    Check(!Blank(f.itemId), "Item ID tidak boleh kosong")
    + Check(IsIntAtLeast(Field(f.quantity), 1), "Quantity harus minimal 1")
    + Check(date != "", "Tanggal pengembalian harus diisi")
    + Check(isISO8601(date), "Format tanggal tidak valid")
    + Check(!ReturnDateInPast(date, parseDate, todayMidnight), "Tanggal pengembalian tidak boleh di masa lalu")
  }

  /** A return date falling exactly at today's midnight is not in the past. */
  lemma ReturnTodayAccepted(f: BorrowingFields, isISO8601: string -> bool,
                            parseDate: string -> Option<int>, todayMidnight: int)
    requires !Blank(f.itemId) && IsIntAtLeast(Field(f.quantity), 1)
    requires Field(f.returnDate) != "" && isISO8601(Field(f.returnDate))
    requires parseDate(Field(f.returnDate)) == Some(todayMidnight)
    ensures CreateBorrowingErrors(f, isISO8601, parseDate, todayMidnight) == []
  {
    assert !ReturnDateInPast(Field(f.returnDate), parseDate, todayMidnight);
  }

  const AcceptedStatuses: seq<string> := ["PENDING", "APPROVED", "REJECTED", "RETURNED", "OVERDUE"]

  /** `updateBorrowingStatusValidator`. */
  function UpdateStatusErrors(status: Option<string>): (errs: seq<string>)
    ensures errs == [] <==> Field(status) in AcceptedStatuses
    ensures errs == [] ==> ParseStatus(Field(status)).Some? && ParseStatus(Field(status)).value != Active
  {
    Check(Field(status) in AcceptedStatuses,
          "Status harus PENDING, APPROVED, REJECTED, RETURNED, atau OVERDUE")
  }

  /** ACTIVE, the status every borrowing starts in, cannot be written back through the API. */
  lemma ActiveRejected()
    ensures UpdateStatusErrors(Some(StatusName(Active))) != []
  {
  }
}
