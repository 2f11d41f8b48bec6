/** The validation chains in front of item creation and item update. */
module ItemValidator {
  import opened Wrappers
  import opened Text
  import opened Validation

  /** The body of an item request; every field as the validators see it. */
  datatype ItemFields = ItemFields(
    name: Option<string>,
    category: Option<string>,
    description: Option<string>,
    image: Option<string>,
    total: Option<string>,
    available: Option<string>,
    condition: Option<string>,
    location: Option<string>)

  const Conditions: seq<string> := ["BAIK", "CUKUP", "RUSAK"]

  const ConditionMessage := "Condition harus BAIK, CUKUP, atau RUSAK"

  /** A condition that is given must be one of the three grades. */
  predicate ConditionAccepted(condition: Option<string>) {
    condition.None? || condition.value in Conditions
  }

  /** The custom check: both stock numbers are integers and `available` is the larger. */
  predicate AvailableExceedsTotal(f: ItemFields) {
    IntOf(Field(f.available)).Some? && IntOf(Field(f.total)).Some?
    && IntOf(Field(f.available)).value > IntOf(Field(f.total)).value
  }

  /** `createItemValidator`: the messages of every failing check, field by field. */
  function CreateItemErrors(f: ItemFields): (errs: seq<string>)
    ensures errs == [] <==>
      && !Blank(f.name) && !Blank(f.category) && !Blank(f.location)
      && IsIntAtLeast(Field(f.total), 0) && IsIntAtLeast(Field(f.available), 0)
      && !AvailableExceedsTotal(f)
      && ConditionAccepted(f.condition)
    ensures Blank(f.name) ==> "Nama barang tidak boleh kosong" in errs
    ensures Blank(f.category) ==> "Kategori tidak boleh kosong" in errs
    ensures Blank(f.location) ==> "Lokasi tidak boleh kosong" in errs
    ensures !IsIntAtLeast(Field(f.total), 0) ==> "Total harus berupa angka positif" in errs
    ensures !IsIntAtLeast(Field(f.available), 0) ==> "Available harus berupa angka positif" in errs
    ensures AvailableExceedsTotal(f) ==> "Available tidak boleh lebih besar dari total" in errs
    ensures !ConditionAccepted(f.condition) ==> ConditionMessage in errs
  {
    Check(!Blank(f.name), "Nama barang tidak boleh kosong")
    + Check(!Blank(f.category), "Kategori tidak boleh kosong")
    + Check(IsIntAtLeast(Field(f.total), 0), "Total harus berupa angka positif")
    + Check(IsIntAtLeast(Field(f.available), 0), "Available harus berupa angka positif")
    + Check(!AvailableExceedsTotal(f), "Available tidak boleh lebih besar dari total")
    + Check(ConditionAccepted(f.condition), ConditionMessage)
    + Check(!Blank(f.location), "Lokasi tidak boleh kosong")
  }

  /** A check that applies only to a field that is present (`optional()`). */
  function WhenPresent(v: Option<string>, ok: bool, message: string): (errs: seq<string>)
    ensures errs == [] <==> v.None? || ok
  {
    if v.None? then [] else Check(ok, message)
  }

  /**
   * `updateItemValidator`: the same rules, each only for a field that is sent; the
   * custom comparison of `available` with `total` is not part of this chain.
   */
  function UpdateItemErrors(f: ItemFields): (errs: seq<string>)
    ensures errs == [] <==>
      && (f.name.None? || !Blank(f.name))
      && (f.category.None? || !Blank(f.category))
      && (f.total.None? || IsIntAtLeast(Field(f.total), 0))
      && (f.available.None? || IsIntAtLeast(Field(f.available), 0))
      && ConditionAccepted(f.condition)
      && (f.location.None? || !Blank(f.location))
  {
    WhenPresent(f.name, !Blank(f.name), "Nama barang tidak boleh kosong")
    + WhenPresent(f.category, !Blank(f.category), "Kategori tidak boleh kosong")
    + WhenPresent(f.total, IsIntAtLeast(Field(f.total), 0), "Total harus berupa angka positif")
    + WhenPresent(f.available, IsIntAtLeast(Field(f.available), 0), "Available harus berupa angka positif")
    + Check(ConditionAccepted(f.condition), ConditionMessage)
    + WhenPresent(f.location, !Blank(f.location), "Lokasi tidak boleh kosong")
  }

  /** An update may leave more available than in total: 5 available of 3 passes. */
  lemma UpdateAllowsAvailableAboveTotal()
    ensures UpdateItemErrors(ItemFields(None, None, None, None, Some("3"), Some("5"), None, None)) == []
  {
    assert IntOf("3") == Some(3);
    assert IntOf("5") == Some(5);
  }
}
