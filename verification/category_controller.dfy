/**
 * Categories: the ordered listing, creation, and the delete guarded by item usage.
 * Category names are unique in the table (the seed upserts categories by name), and an
 * item refers to its category by writing the category's name in `Item.category`.
 */
module CategoryController {
  import opened Wrappers
  import opened Seqs
  import opened Text
  import opened ErrorMiddleware
  import opened Schema

  /** `orderBy: { name: 'asc' }`. */
  function ByName(): (Category, Category) -> bool {
    (a: Category, b: Category) => LexLeq(a.name, b.name)
  }

  lemma ByNameTotal()
    ensures Total(ByName())
  {
    forall a: Category, b: Category
      ensures ByName()(a, b) || ByName()(b, a)
    {
      LexLeqTotal(a.name, b.name);
    }
  }

  /** `getAllCategories`: every category, once each, in ascending name order. */
  function GetAllCategories(rows: seq<Category>): (r: seq<Category>)
    ensures multiset(r) == multiset(rows)
    ensures forall i :: 0 < i < |r| ==> LexLeq(r[i - 1].name, r[i].name)
  {
    ByNameTotal();
    var r := SortBy(rows, ByName());
    assert forall i :: 0 < i < |r| ==> ByName()(r[i - 1], r[i]);
    r
  }

  /** A category with that name is already stored. */
  predicate NameTaken(categories: seq<Category>, name: string) {
    exists i :: 0 <= i < |categories| && categories[i].name == name
  }

  /** `createCategory`: one new row; a second category of the same name breaks uniqueness (409). */
  method CreateCategory(db: Database, name: string, icon: string, newId: Id) returns (r: Outcome<Category>)
    requires db.Valid()
    requires FindCategory(db.categories, newId).None?
    modifies db
    ensures db.Valid()
    ensures db.items == old(db.items) && db.users == old(db.users) && db.borrowings == old(db.borrowings)
    ensures NameTaken(old(db.categories), name) ==>
      FailsWith(r, 409, "Data sudah ada. Silakan gunakan data yang berbeda.") && db.categories == old(db.categories)
    ensures !NameTaken(old(db.categories), name) ==>
      r == Ok(Category(newId, name, icon)) && db.categories == old(db.categories) + [r.value]
  {
    var k := IndexWhere(db.categories, (c: Category) => c.name == name);
    if k.Some? {
      return Thrown(KnownRequestError(UniqueViolation, "Unique constraint failed on the fields: (`name`)"));
    }
    var c := Category(newId, name, icon);
    db.categories := db.categories + [c];
    r := Ok(c);
  }

  /** Some item names `category` as its category. */
  predicate UsedBy(items: seq<Item>, category: string) {
    exists i :: 0 <= i < |items| && items[i].category == category
  }

  const InUseMessage := "Tidak dapat menghapus kategori yang masih digunakan oleh barang"

  /**
   * `deleteCategory` as written: the usage guard compares each item's category with the
   * category's id, then the row is deleted (a missing row is the ORM's not-found error).
   */
  method DeleteCategory(db: Database, id: Id) returns (r: Outcome<()>)
    requires db.Valid()
    modifies db
    ensures db.Valid()
    ensures db.items == old(db.items) && db.users == old(db.users) && db.borrowings == old(db.borrowings)
    ensures UsedBy(old(db.items), id) ==> FailsWith(r, 400, InUseMessage) && db.categories == old(db.categories)
    ensures !UsedBy(old(db.items), id) && FindCategory(old(db.categories), id).None? ==>
      FailsWith(r, 404, "Data tidak ditemukan") && db.categories == old(db.categories)
    ensures !UsedBy(old(db.items), id) && FindCategory(old(db.categories), id).Some? ==>
      && r == Ok(())
      && db.categories == RemoveAt(old(db.categories), FindCategory(old(db.categories), id).value)
      && FindCategory(db.categories, id).None?
  {
    var user := IndexWhere(db.items, (item: Item) => item.category == id);
    if user.Some? {
      return Throw(InUseMessage, 400);
    }
    var k := FindCategory(db.categories, id);
    if k.None? {
      return RowNotFound();
    }
    RemoveKeepsKeys(db.categories, CategoryId, k.value);
    db.categories := RemoveAt(db.categories, k.value);
    r := Ok(());
  }

  /**
   * The guard as written lets a category go while an item still carries its name:
   * deleting "Elektronik" by its id succeeds although a laptop is filed under it.
   */
  method DeleteCategoryInUseByName() returns (deleted: bool, stillNamed: bool)
    ensures deleted && stillNamed
  {
    var db := new Database();
    db.categories := [Category("cat-1", "Elektronik", "laptop-outline")];
    db.items := [Item("item-1", "Laptop", "Elektronik", None, "💻", 3, 3, "BAIK", "Lab Komputer", "admin-1")];
    assert !UsedBy(db.items, "cat-1") by {
      assert db.items[0].category != "cat-1";
    }
    FindUnique(db.categories, CategoryId, 0);
    var r := DeleteCategory(db, "cat-1");
    deleted := r.Ok? && |db.categories| == 0;
    stillNamed := db.items[0].category == "Elektronik";
  }

  /**
   * `deleteCategory` with the guard it evidently intends: the category is looked up first
   * and refused while any item is filed under its name.
   */
  method DeleteCategoryByName(db: Database, id: Id) returns (r: Outcome<()>)
    requires db.Valid()
    modifies db
    ensures db.Valid()
    ensures db.items == old(db.items) && db.users == old(db.users) && db.borrowings == old(db.borrowings)
    ensures FindCategory(old(db.categories), id).None? ==>
      FailsWith(r, 404, "Data tidak ditemukan") && db.categories == old(db.categories)
    ensures var k := FindCategory(old(db.categories), id);
      k.Some? && UsedBy(old(db.items), old(db.categories)[k.value].name) ==>
      FailsWith(r, 400, InUseMessage) && db.categories == old(db.categories)
    ensures var k := FindCategory(old(db.categories), id);
      k.Some? && !UsedBy(old(db.items), old(db.categories)[k.value].name) ==>
      && r == Ok(())
      && db.categories == RemoveAt(old(db.categories), k.value)
      && FindCategory(db.categories, id).None?
      && !UsedBy(db.items, old(db.categories)[k.value].name)
  {
    var k := FindCategory(db.categories, id);
    if k.None? {
      return RowNotFound();
    }
    var name := db.categories[k.value].name;
    var user := IndexWhere(db.items, (item: Item) => item.category == name);
    if user.Some? {
      return Throw(InUseMessage, 400);
    }
    RemoveKeepsKeys(db.categories, CategoryId, k.value);
    db.categories := RemoveAt(db.categories, k.value);
    r := Ok(());
  }
}
