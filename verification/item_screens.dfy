/**
 * The item-facing logic of the mobile client: the borrow request guards and quantity
 * stepper of the detail screen, the admin list filter and edit guard, the add-item form
 * check, and the labels an item card shows.
 */
module ItemScreens {
  import opened Wrappers
  import opened Seqs
  import opened Text
  import opened Schema

  // ---- Item detail ----

  datatype BorrowDecision =
    | Refuse(title: string, message: string)
    | Confirm(quantity: int)

  /**
   * `handleBorrow` before the confirmation dialog: an item with nothing available, a
   * quantity that does not parse or is below 1, and a quantity above what is available
   * are refused, in that order.
   */
  function BorrowRequest(available: int, quantity: string): (r: BorrowDecision)
    ensures available == 0 ==> r == Refuse("Tidak Tersedia", "Maaf, barang ini sedang tidak tersedia.")
    ensures r.Confirm? <==> (available != 0 && ParseInt(quantity).Some?
      && 1 <= ParseInt(quantity).value <= available)
    ensures r.Confirm? ==> r.quantity == ParseInt(quantity).value && 1 <= r.quantity <= available
    ensures available != 0 && (ParseInt(quantity).None? || ParseInt(quantity).value < 1) ==>
      r == Refuse("Invalid", "Jumlah harus minimal 1")
    ensures (available != 0 && ParseInt(quantity).Some? && ParseInt(quantity).value > available
      && ParseInt(quantity).value >= 1) ==>
      r == Refuse("Invalid", "Hanya tersedia " + IntToString(available) + " unit")
  {
    if available == 0 then Refuse("Tidak Tersedia", "Maaf, barang ini sedang tidak tersedia.")
    else
      var qty := ParseInt(quantity);
      if qty.None? || qty.value < 1 then Refuse("Invalid", "Jumlah harus minimal 1")
      else if qty.value > available then Refuse("Invalid", "Hanya tersedia " + IntToString(available) + " unit")
      else Confirm(qty.value)
  }

  /** A confirmed request always satisfies the server's stock check for the same item. */
  lemma ConfirmedWithinStock(item: Item, quantity: string)
    requires BorrowRequest(item.available, quantity).Confirm?
    ensures item.available >= BorrowRequest(item.available, quantity).quantity >= 1
  {
  }

  const MillisPerDay: int := 24 * 60 * 60 * 1000

  /** A local calendar date and time of day, the part of a JavaScript `Date` the screen changes. */
  class CalendarDate {
    var day: int
    var millisOfDay: int

    constructor(day: int, millisOfDay: int)
      ensures this.day == day && this.millisOfDay == millisOfDay
    {
      this.day := day;
      this.millisOfDay := millisOfDay;
    }

    /** `setDate(getDate() + n)`: moves the date by `n` days and keeps the time of day. */
    method AddDays(n: int)
      modifies this
      ensures day == old(day) + n && millisOfDay == old(millisOfDay)
    {
      day := day + n;
    }
  }

  /** The return date sent with a request: seven days after today, at the current time of day. */
  method DefaultReturnDate(today: int, millisOfDay: int) returns (day: int, time: int)
    ensures day == today + 7 && time == millisOfDay
  {
    var date := new CalendarDate(today, millisOfDay);
    date.AddDays(7);
    day, time := date.day, date.millisOfDay;
  }

  /** `String(n)`, where a failed `parseInt` has left NaN. */
  function NumberText(n: Option<int>): (r: string)
    ensures n.Some? ==> ParseInt(r) == n
    ensures n.None? ==> ParseInt(r).None?
  {
    if n.Some? then ParseIntOfIntToString(n.value); IntToString(n.value)
    else assert LeadingDigits("NaN") == []; "NaN"
  }

  /** `Math.max(1, q - 1)`, NaN staying NaN. */
  function Decrement(q: Option<int>): (r: Option<int>)
    ensures q.None? <==> r.None?
    ensures q.Some? ==> r.value >= 1 && r.value >= q.value - 1 && (r.value == 1 || r.value == q.value - 1)
  {
    if q.None? then None else Some(if q.value - 1 >= 1 then q.value - 1 else 1)
  }

  /** `Math.min(available, q + 1)`, NaN staying NaN. */
  function Increment(available: int, q: Option<int>): (r: Option<int>)
    ensures q.None? <==> r.None?
    ensures q.Some? ==> r.value <= available && r.value <= q.value + 1 && (r.value == available || r.value == q.value + 1)
  {
    if q.None? then None else Some(Min(available, q.value + 1))
  }

  /** The minus button: `String(Math.max(1, parseInt(quantity) - 1))`. */
  function StepDown(quantity: string): (r: string)
    ensures ParseInt(r) == Decrement(ParseInt(quantity))
  {
    NumberText(Decrement(ParseInt(quantity)))
  }

  /** The plus button: `String(Math.min(available, parseInt(quantity) + 1))`. */
  function StepUp(available: int, quantity: string): (r: string)
    ensures ParseInt(r) == Increment(available, ParseInt(quantity))
  {
    NumberText(Increment(available, ParseInt(quantity)))
  }

  /** Starting inside [1, available], neither button leaves that range. */
  lemma StepperStaysInRange(available: int, quantity: string)
    requires ParseInt(quantity).Some? && 1 <= ParseInt(quantity).value <= available
    ensures ParseInt(StepDown(quantity)).Some? && 1 <= ParseInt(StepDown(quantity)).value <= available
    ensures ParseInt(StepUp(available, quantity)).Some? && 1 <= ParseInt(StepUp(available, quantity)).value <= available
  {
  }

  /** Once the field holds something that is not a number, the buttons keep it that way. */
  lemma StepperKeepsNaN(available: int, quantity: string)
    requires ParseInt(quantity).None?
    ensures ParseInt(StepDown(quantity)).None? && ParseInt(StepUp(available, quantity)).None?
  {
  }

  /** The stepper never moves the request past the guards: an in-range quantity stays confirmable. */
  lemma SteppedRequestConfirmed(available: int, quantity: string)
    requires BorrowRequest(available, quantity).Confirm?
    ensures BorrowRequest(available, StepDown(quantity)).Confirm?
    ensures BorrowRequest(available, StepUp(available, quantity)).Confirm?
  {
    StepperStaysInRange(available, quantity);
  }

  /** The three availability figures: available, borrowed (`total - available`) and total. */
  function AvailabilityFigures(item: Item): (r: (int, int, int))
    ensures r.0 == item.available && r.2 == item.total
    ensures r.0 + r.1 == r.2
  {
    (item.available, item.total - item.available, item.total)
  }

  /** `getConditionLabel`. */
  function ConditionLabel(condition: string): (r: string)
    ensures condition == "BAIK" ==> r == "Baik"
    ensures condition == "CUKUP" ==> r == "Cukup"
    ensures condition == "RUSAK" ==> r == "Rusak"
    ensures condition !in {"BAIK", "CUKUP", "RUSAK"} ==> r == condition
  {
    if condition == "BAIK" then "Baik"
    else if condition == "CUKUP" then "Cukup"
    else if condition == "RUSAK" then "Rusak"
    else condition
  }

  /** The raw condition is shown exactly when it is not one of the three known ones. */
  lemma ConditionShownRaw(condition: string)
    ensures ConditionLabel(condition) == condition <==> condition !in {"BAIK", "CUKUP", "RUSAK"}
  {
    if condition in {"BAIK", "CUKUP", "RUSAK"} {
      assert ConditionLabel(condition)[1] != condition[1];
    }
  }

  // ---- Manage items ----

  /** The admin list's search and category tabs, applied on the client. */
  predicate Listed(item: Item, query: string, selected: string) {
    && (Contains(Lower(item.name), Lower(query)) || Contains(Lower(item.category), Lower(query)))
    && (selected == "Semua" || item.category == selected)
  }

  function ListedBy(query: string, selected: string): Item -> bool {
    (item: Item) => Listed(item, query, selected)
  }

  /** `filteredItems`; the header shows its length as the number of items found. */
  function FilteredItems(items: seq<Item>, query: string, selected: string): (r: seq<Item>)
    ensures IsSubsequence(r, items)
    ensures forall item :: item in r <==> item in items && Listed(item, query, selected)
    ensures |r| == Count(items, ListedBy(query, selected)) <= |items|
  {
    KeepIsSubsequence(items, ListedBy(query, selected));
    Keep(items, ListedBy(query, selected))
  }

  /** With an empty query and the 'Semua' tab every item is listed, in order. */
  lemma EmptyFilterListsAll(items: seq<Item>)
    ensures FilteredItems(items, "", "Semua") == items
  {
    forall item: Item ensures ListedBy("", "Semua")(item) {
      ContainsEmpty(Lower(item.name));
    }
    KeepAll(items, ListedBy("", "Semua"));
  }

  datatype EditAction =
    | NoAction
    | RejectEdit(message: string)
    | SendQuantity(id: Id, quantity: int)

  /**
   * `confirmEdit`: nothing without a selected item; a total that does not parse or is
   * negative is refused; anything else, 0 included, is sent as `{ quantity }`.
   */
  function ConfirmEdit(selected: Option<Item>, editedTotal: string): (r: EditAction)
    ensures selected.None? <==> r.NoAction?
    ensures selected.Some? && (ParseInt(editedTotal).None? || ParseInt(editedTotal).value < 0) ==>
      r == RejectEdit("Total unit harus berupa angka positif")
    ensures r.SendQuantity? <==> selected.Some? && ParseInt(editedTotal).Some? && ParseInt(editedTotal).value >= 0
    ensures r.SendQuantity? ==> r.id == selected.value.id && r.quantity == ParseInt(editedTotal).value
  {
    if selected.None? then NoAction
    else
      var total := ParseInt(editedTotal);
      if total.None? || total.value < 0 then RejectEdit("Total unit harus berupa angka positif")
      else SendQuantity(selected.value.id, total.value)
  }

  /** A total of zero is accepted. */
  lemma ZeroTotalSent(item: Item)
    ensures ConfirmEdit(Some(item), "0") == SendQuantity(item.id, 0)
  {
    ParseIntOfDigits("0");
  }

  // ---- Add item ----

  /** `CATEGORIES`: the tab list, whose first entry means "every category". */
  const Categories: seq<string> :=
    ["Semua", "Elektronik", "Olahraga", "Laboratorium", "Multimedia", "Furniture", "Alat Tulis"]

  function NotAll(): string -> bool {
    (c: string) => c != "Semua"
  }

  /** The add-item category picker: the tab list without 'Semua', in order. */
  function PickerCategories(): (r: seq<string>)
    ensures IsSubsequence(r, Categories)
    ensures forall i :: 0 <= i < |r| ==> r[i] != "Semua"
    ensures forall i :: 0 <= i < |Categories| && Categories[i] != "Semua" ==> Categories[i] in r
  {
    KeepIsSubsequence(Categories, NotAll());
    Keep(Categories, NotAll())
  }

  /** A positive whole quantity: non-blank, parses, and above zero. */
  predicate PositiveQuantity(quantity: string) {
    Trim(quantity) != "" && ParseInt(quantity).Some? && ParseInt(quantity).value > 0
  }

  /**
   * `validateForm` of the add-item screen: the first failing check names the message;
   * None means every check passed.
   */
  function AddItemError(name: string, category: string, location: string, quantity: string): (r: Option<string>)
    ensures r.None? <==> Trim(name) != "" && category != "" && Trim(location) != "" && PositiveQuantity(quantity)
    ensures Trim(name) == "" ==> r == Some("Nama barang tidak boleh kosong")
    ensures Trim(name) != "" && category == "" ==> r == Some("Pilih kategori barang")
    ensures Trim(name) != "" && category != "" && Trim(location) == "" ==> r == Some("Lokasi tidak boleh kosong")
    ensures Trim(name) != "" && category != "" && Trim(location) != "" && !PositiveQuantity(quantity) ==>
      r == Some("Jumlah unit harus berupa angka positif")
  {
    if Trim(name) == "" then Some("Nama barang tidak boleh kosong")
    else if category == "" then Some("Pilih kategori barang")
    else if Trim(location) == "" then Some("Lokasi tidak boleh kosong")
    else if Trim(quantity) == "" || ParseInt(quantity).None? || ParseInt(quantity).value <= 0 then
      Some("Jumlah unit harus berupa angka positif")
    else None
  }

  /** A quantity with trailing text still passes, since only its leading digits are read. */
  lemma TrailingTextQuantity()
    ensures PositiveQuantity("3 unit")
  {
    assert !IsSpace("3 unit"[0]);
    assert Trim("3 unit") != "";
    assert TrimStart("3 unit") == "3 unit";
    assert LeadingDigits("3 unit") == "3" by {
      assert "3 unit"[0] == '3' && "3 unit"[1] == ' ';
    }
  }

  // ---- Item card ----

  /** `getCategoryIcon`: the six known categories have their own icon, anything else a cube. */
  function CategoryIcon(category: string): (r: string)
    ensures category == "Elektronik" ==> r == "laptop-outline"
    ensures category == "Olahraga" ==> r == "basketball-outline"
    ensures category == "Laboratorium" ==> r == "flask-outline"
    ensures category == "Multimedia" ==> r == "videocam-outline"
    ensures category == "Furniture" ==> r == "bed-outline"
    ensures category == "Alat Tulis" ==> r == "pencil-outline"
    ensures category !in Categories[1..] ==> r == "cube-outline"
  {
    if category == "Elektronik" then "laptop-outline"
    else if category == "Olahraga" then "basketball-outline"
    else if category == "Laboratorium" then "flask-outline"
    else if category == "Multimedia" then "videocam-outline"
    else if category == "Furniture" then "bed-outline"
    else if category == "Alat Tulis" then "pencil-outline"
    else "cube-outline"
  }

  /** The card's badge: `"<available> Tersedia"` when something is available, else 'Habis'. */
  function AvailabilityBadge(item: Item): (r: string)
    ensures item.available > 0 ==> r == IntToString(item.available) + " Tersedia"
    ensures item.available <= 0 ==> r == "Habis"
  {
    if item.available > 0 then IntToString(item.available) + " Tersedia" else "Habis"
  }

  /** The badge reads 'Habis' exactly when nothing is available. */
  lemma BadgeSoldOut(item: Item)
    ensures AvailabilityBadge(item) == "Habis" <==> item.available <= 0
  {
    if item.available > 0 {
      assert |AvailabilityBadge(item)| > 9;
    }
  }

  /** The card's total line: `item.total` between "Total: " and " unit", read back unchanged. */
  function TotalLine(item: Item): (r: string)
    ensures |r| == 12 + |IntToString(item.total)|
    ensures r[7..|r| - 5] == IntToString(item.total)
    ensures ParseInt(r[7..|r| - 5]) == Some(item.total)
  {
    ParseIntOfIntToString(item.total);
    "Total: " + IntToString(item.total) + " unit"
  }
}
