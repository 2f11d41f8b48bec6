/**
 * The item catalog: the filtered, paginated listing, lookup by id, creation with
 * defaults, the partial update, the guarded delete and the "popular" query.
 */
module ItemController {
  import opened Wrappers
  import opened Seqs
  import opened Text
  import opened ErrorMiddleware
  import opened Schema

  /** The query string of `GET /api/items`; each parameter may be absent. */
  datatype ItemQuery = ItemQuery(
    search: Option<string>,
    category: Option<string>,
    available: Option<string>,
    page: Option<string>,
    limit: Option<string>)

  /** The `where` object the handler assembles, one optional condition per field. */
  datatype Where = Where(search: Option<string>, category: Option<string>, inStock: bool)

  /** Case-insensitive `contains`. */
  predicate ContainsInsensitive(s: string, pat: string) {
    Contains(Lower(s), Lower(pat))
  }

  /** How the database reads a `where` object. A missing description never matches. */
  predicate Satisfies(item: Item, w: Where) {
    && (w.search.Some? ==>
          ContainsInsensitive(item.name, w.search.value)
          || (item.description.Some? && ContainsInsensitive(item.description.value, w.search.value)))
    && (w.category.Some? ==> item.category == w.category.value)
    && (w.inStock ==> item.available > 0)
  }

  function InWhere(w: Where): Item -> bool {
    (item: Item) => Satisfies(item, w)
  }

  /** (a) of the listing filter: no search term, or the name or description contains it. */
  predicate MatchesSearch(item: Item, search: Option<string>) {
    !Truthy(search) || ContainsInsensitive(item.name, search.value)
    || (item.description.Some? && ContainsInsensitive(item.description.value, search.value))
  }

  /** (b): no category, the pseudo-category 'Semua' ("all"), or exactly the item's. */
  predicate MatchesCategory(item: Item, category: Option<string>) {
    !Truthy(category) || category.value == "Semua" || item.category == category.value
  }

  /** (c): unless `available` is the string 'true', stock does not matter. */
  predicate MatchesAvailability(item: Item, available: Option<string>) {
    available != Some("true") || item.available > 0
  }

  /** The `where` object built field by field from the query. */
  function BuildWhere(q: ItemQuery): (w: Where)
    ensures forall item :: Satisfies(item, w) <==>
      MatchesSearch(item, q.search) && MatchesCategory(item, q.category) && MatchesAvailability(item, q.available)
  {
    Where(
      if Truthy(q.search) then Some(q.search.value) else None,
      if Truthy(q.category) && q.category.value != "Semua" then Some(q.category.value) else None,
      q.available == Some("true"))
  }

  /** `Math.ceil(total / limit)`; JSON has no infinity, so a zero limit gives `null`. */
  function TotalPages(total: nat, limit: int): (r: Option<int>)
    requires limit >= 0
    ensures limit == 0 <==> r.None?
    ensures r.Some? ==> r.value >= 0 && (r.value - 1) * limit < total <= r.value * limit
  {
    if limit == 0 then None
    else
      var pages := (total + limit - 1) / limit;
      assert pages * limit <= total + limit - 1 < (pages + 1) * limit;
      Some(pages)
  }

  datatype Pagination = Pagination(page: int, limit: int, total: nat, totalPages: Option<int>)
  datatype ItemPage = ItemPage(data: seq<Item>, pagination: Pagination)

  /** `parseInt(page)` with the default '1'. */
  function PageNumber(q: ItemQuery): Option<int> {
    ParseInt(q.page.GetOr("1"))
  }

  /** `parseInt(limit)` with the default '50'. */
  function PageLimit(q: ItemQuery): Option<int> {
    ParseInt(q.limit.GetOr("50"))
  }

  /** Numbers for both, a skip that is not negative and a non-negative take. */
  predicate AcceptedPaging(page: Option<int>, limit: Option<int>) {
    page.Some? && limit.Some? && limit.value >= 0 && (page.value - 1) * limit.value >= 0
  }

  /** `(pageNum - 1) * limitNum`. */
  function Skip(page: int, limit: int): nat
    requires (page - 1) * limit >= 0
  {
    (page - 1) * limit
  }

  /** The items matching the query, newest first. */
  function Matching(rows: seq<Item>, q: ItemQuery): (r: seq<Item>)
    ensures |r| == Count(rows, InWhere(BuildWhere(q)))
    ensures forall i :: 0 <= i < |r| ==>
      r[i] in rows && MatchesSearch(r[i], q.search) && MatchesCategory(r[i], q.category)
      && MatchesAvailability(r[i], q.available)
    ensures forall j :: (0 <= j < |rows| && MatchesSearch(rows[j], q.search)
      && MatchesCategory(rows[j], q.category) && MatchesAvailability(rows[j], q.available)) ==>
      rows[j] in r
    ensures IsSubsequence(Reverse(r), rows)
  {
    var p := InWhere(BuildWhere(q));
    ReversedKeepSound(rows, p);
    ReversedKeepComplete(rows, p);
    ReversedKeepInOrder(rows, p);
    Reverse(Keep(rows, p))
  }

  /** The window of `all` that starts at `skip` and holds at most `limit` rows. */
  function Page(all: seq<Item>, skip: nat, limit: nat): (r: seq<Item>)
    ensures |r| == Min(limit, if skip <= |all| then |all| - skip else 0)
    ensures forall i :: 0 <= i < |r| ==> r[i] == all[skip + i]
  {
    Take(Drop(all, skip), limit)
  }

  /**
   * `getAllItems` once `page` and `limit` are read: one page of the matching items,
   * newest first, and the size of the whole match. A page or limit that is not a
   * number, or paging that would skip a negative number of rows, makes the query fail.
   */
  function Paginate(rows: seq<Item>, q: ItemQuery, page: Option<int>, limit: Option<int>): (r: Outcome<ItemPage>)
    ensures r.Thrown? <==> !AcceptedPaging(page, limit)
    ensures r.Thrown? ==> StatusCode(r.error) == 500
    ensures r.Ok? ==>
      var p := r.value.pagination;
      && p.page == page.value && p.limit == limit.value
      && p.total == Count(rows, InWhere(BuildWhere(q)))
      && p.totalPages == TotalPages(p.total, limit.value)
    ensures r.Ok? ==> r.value.data == Page(Matching(rows, q), Skip(page.value, limit.value), limit.value)
  {
    if !AcceptedPaging(page, limit) then
      Thrown(Unexpected("Invalid value for argument `skip` or `take`"))
    else
      var total := Count(rows, InWhere(BuildWhere(q)));
      var data := Page(Matching(rows, q), Skip(page.value, limit.value), limit.value);
      Ok(ItemPage(data, Pagination(page.value, limit.value, total, TotalPages(total, limit.value))))
  }

  /** Whatever the window, every row of a page of the match is a table row that matches the query. */
  lemma PageMatches(rows: seq<Item>, q: ItemQuery)
    ensures forall skip: nat, limit: nat, i :: 0 <= i < |Page(Matching(rows, q), skip, limit)| ==>
      var x := Page(Matching(rows, q), skip, limit)[i];
      x in rows && MatchesSearch(x, q.search) && MatchesCategory(x, q.category) && MatchesAvailability(x, q.available)
  {
    var all := Matching(rows, q);
    forall skip: nat, limit: nat, i | 0 <= i < |Page(all, skip, limit)|
      ensures Page(all, skip, limit)[i] == all[skip + i]
    {
    }
  }

  /**
   * `getAllItems`: `page` and `limit` are read with the defaults '1' and '50'; the answer
   * is a window of at most `limit` matching items, with the size of the whole match.
   */
  function ListItems(rows: seq<Item>, q: ItemQuery): (r: Outcome<ItemPage>)
    ensures r.Thrown? <==> !AcceptedPaging(PageNumber(q), PageLimit(q))
    ensures r.Thrown? ==> StatusCode(r.error) == 500
    ensures r.Ok? ==>
      && r.value.pagination.page == PageNumber(q).value
      && r.value.pagination.limit == PageLimit(q).value
      && r.value.pagination.total == Count(rows, InWhere(BuildWhere(q)))
      && |r.value.data| <= r.value.pagination.limit
    ensures r.Ok? ==> forall i :: 0 <= i < |r.value.data| ==>
      r.value.data[i] in rows && MatchesSearch(r.value.data[i], q.search)
      && MatchesCategory(r.value.data[i], q.category) && MatchesAvailability(r.value.data[i], q.available)
  {
    PageMatches(rows, q);
    Paginate(rows, q, PageNumber(q), PageLimit(q))
  }

  /** With neither page nor limit given, the first 50 matches come back. */
  lemma ListItemsDefaults(rows: seq<Item>, q: ItemQuery)
    requires q.page.None? && q.limit.None?
    ensures ListItems(rows, q).Ok?
    ensures ListItems(rows, q).value.pagination.page == 1
    ensures ListItems(rows, q).value.pagination.limit == 50
    ensures ListItems(rows, q).value.data == Take(Matching(rows, q), 50)
  {
    ParseIntOfDigits("1");
    ParseIntOfDigits("50");
    assert DigitsValue("50") == 50 by {
      assert DigitsValue("5") == 5;
    }
    var d := ListItems(rows, q).value.data;
    assert |d| == |Take(Matching(rows, q), 50)|;
  }

  /** `getItemById`. */
  function GetItemById(items: seq<Item>, id: Id): (r: Outcome<Item>)
    ensures r.Ok? ==> r.value in items && r.value.id == id
    ensures r.Thrown? <==> forall i :: 0 <= i < |items| ==> items[i].id != id
    ensures r.Thrown? ==> FailsWith(r, 404, "Barang tidak ditemukan")
  {
    match FindItem(items, id)
    case None => Throw("Barang tidak ditemukan", 404)
    case Some(k) => Ok(items[k])
  }

  /** The body of `POST /api/items`; the optional fields may be missing. */
  datatype NewItemBody = NewItemBody(
    name: string,
    category: string,
    description: Option<string>,
    image: Option<string>,
    total: int,
    available: int,
    condition: Option<string>,
    location: string)

  const DefaultImage := "📦"
  const DefaultCondition := "BAIK"

  /** The row `createItem` stores: falsy image and condition take their defaults. */
  function ItemFromBody(body: NewItemBody, id: Id, createdById: Id): (item: Item)
    ensures item.id == id && item.createdById == createdById
    ensures item.name == body.name && item.category == body.category && item.location == body.location
    ensures item.description == body.description
    ensures item.total == body.total && item.available == body.available
    ensures Truthy(body.image) ==> item.image == body.image.value
    ensures !Truthy(body.image) ==> item.image == DefaultImage
    ensures Truthy(body.condition) ==> item.condition == body.condition.value
    ensures !Truthy(body.condition) ==> item.condition == DefaultCondition
  {
    Item(id, body.name, body.category, body.description,
         if Truthy(body.image) then body.image.value else DefaultImage,
         body.total, body.available,
         if Truthy(body.condition) then body.condition.value else DefaultCondition,
         body.location, createdById)
  }

  /**
   * `createItem`: stores one new row made by `ItemFromBody`. The creator is the caller,
   * whose row the new item references.
   */
  method CreateItem(db: Database, body: NewItemBody, createdById: Id, newId: Id) returns (r: Outcome<Item>)
    requires db.Valid()
    requires FindItem(db.items, newId).None?
    modifies db
    ensures db.Valid()
    ensures db.users == old(db.users) && db.borrowings == old(db.borrowings) && db.categories == old(db.categories)
    ensures FindUser(old(db.users), createdById).None? ==>
      r.Thrown? && StatusCode(r.error) == 500 && db.items == old(db.items)
    ensures FindUser(old(db.users), createdById).Some? ==>
      r == Ok(ItemFromBody(body, newId, createdById)) && db.items == old(db.items) + [r.value]
  {
    if FindUser(db.users, createdById).None? {
      return Thrown(KnownRequestError("P2003", "Foreign key constraint failed on the field: `createdById`"));
    }
    var item := ItemFromBody(body, newId, createdById);
    db.items := db.items + [item];
    r := Ok(item);
  }

  /**
   * The body of `PUT /api/items/:id`. `description` distinguishes a missing field
   * (None) from an explicit `null` (Some(None)).
   */
  datatype ItemPatch = ItemPatch(
    name: Option<string>,
    category: Option<string>,
    description: Option<Option<string>>,
    image: Option<string>,
    total: Option<int>,
    available: Option<int>,
    condition: Option<string>,
    location: Option<string>)

  const EmptyPatch := ItemPatch(None, None, None, None, None, None, None, None)

  /**
   * The spread-built `data` of `updateItem` applied to a row: name, category, condition
   * and location change only to a truthy value, the other four whenever they are given.
   */
  function MergeItem(item: Item, patch: ItemPatch): (r: Item)
    ensures r.id == item.id && r.createdById == item.createdById
    ensures r.name == (if Truthy(patch.name) then patch.name.value else item.name)
    ensures r.category == (if Truthy(patch.category) then patch.category.value else item.category)
    ensures r.condition == (if Truthy(patch.condition) then patch.condition.value else item.condition)
    ensures r.location == (if Truthy(patch.location) then patch.location.value else item.location)
    ensures r.description == patch.description.GetOr(item.description)
    ensures r.image == patch.image.GetOr(item.image)
    ensures r.total == patch.total.GetOr(item.total)
    ensures r.available == patch.available.GetOr(item.available)
  {
    var name := if Truthy(patch.name) then patch.name.value else item.name;
    var category := if Truthy(patch.category) then patch.category.value else item.category;
    var condition := if Truthy(patch.condition) then patch.condition.value else item.condition;
    var location := if Truthy(patch.location) then patch.location.value else item.location;
    item.(name := name, category := category, condition := condition, location := location,
          description := patch.description.GetOr(item.description),
          image := patch.image.GetOr(item.image),
          total := patch.total.GetOr(item.total),
          available := patch.available.GetOr(item.available))
  }

  /** Sending the same update twice has the effect of sending it once. */
  lemma MergeItemIdempotent(item: Item, patch: ItemPatch)
    ensures MergeItem(MergeItem(item, patch), patch) == MergeItem(item, patch)
  {
  }

  /**
   * A body with none of the eight fields, such as `{ quantity }` from the admin screen's
   * stock editor, leaves the row as it was.
   */
  lemma MergeEmptyPatch(item: Item)
    ensures MergeItem(item, EmptyPatch) == item
  {
  }

  /** `updateItem`. */
  method UpdateItem(db: Database, id: Id, patch: ItemPatch) returns (r: Outcome<Item>)
    requires db.Valid()
    modifies db
    ensures db.Valid()
    ensures db.users == old(db.users) && db.borrowings == old(db.borrowings) && db.categories == old(db.categories)
    ensures FindItem(old(db.items), id).None? ==>
      FailsWith(r, 404, "Barang tidak ditemukan") && db.items == old(db.items)
    ensures FindItem(old(db.items), id).Some? ==>
      var k := FindItem(old(db.items), id).value;
      r == Ok(MergeItem(old(db.items)[k], patch)) && db.items == old(db.items)[k := r.value]
  {
    var k := FindItem(db.items, id);
    if k.None? {
      return Throw("Barang tidak ditemukan", 404);
    }
    var merged := MergeItem(db.items[k.value], patch);
    db.items := db.items[k.value := merged];
    r := Ok(merged);
  }

  /** A borrowing that keeps its item from being deleted: APPROVED or OVERDUE (not ACTIVE). */
  predicate HoldsItem(b: Borrowing, itemId: Id) {
    b.itemId == itemId && (b.status == Approved || b.status == Overdue)
  }

  function Holding(itemId: Id): Borrowing -> bool {
    (b: Borrowing) => HoldsItem(b, itemId)
  }

  /** Some borrowing still holds the item. */
  predicate InUse(borrowings: seq<Borrowing>, itemId: Id) {
    exists j :: 0 <= j < |borrowings| && HoldsItem(borrowings[j], itemId)
  }

  /** Some borrowing, whatever its status, still refers to the item. */
  predicate Referenced(borrowings: seq<Borrowing>, itemId: Id) {
    exists j :: 0 <= j < |borrowings| && borrowings[j].itemId == itemId
  }

  function RefersTo(itemId: Id): Borrowing -> bool {
    (b: Borrowing) => b.itemId == itemId
  }

  /**
   * `deleteItem`. The handler refuses an item lent out (APPROVED or OVERDUE); any other
   * borrowing of it makes the ORM's delete fail on the foreign key (a restricting
   * referential action), so no borrowing is ever left without its item.
   */
  method DeleteItem(db: Database, id: Id) returns (r: Outcome<()>)
    requires db.Valid()
    modifies db
    ensures db.Valid()
    ensures db.users == old(db.users) && db.borrowings == old(db.borrowings) && db.categories == old(db.categories)
    ensures FindItem(old(db.items), id).None? ==>
      FailsWith(r, 404, "Barang tidak ditemukan") && db.items == old(db.items)
    ensures FindItem(old(db.items), id).Some? && InUse(old(db.borrowings), id) ==>
      FailsWith(r, 400, "Tidak dapat menghapus barang yang sedang dipinjam") && db.items == old(db.items)
    ensures FindItem(old(db.items), id).Some? && !InUse(old(db.borrowings), id) && Referenced(old(db.borrowings), id) ==>
      && r.Thrown? && r.error.KnownRequestError? && r.error.code == ForeignKeyViolation
      && StatusCode(r.error) == 500 && db.items == old(db.items)
    ensures FindItem(old(db.items), id).Some? && !Referenced(old(db.borrowings), id) ==>
      && r == Ok(())
      && db.items == RemoveAt(old(db.items), FindItem(old(db.items), id).value)
      && FindItem(db.items, id).None?
    ensures r.Ok? ==> !Referenced(db.borrowings, id)
  {
    var k := FindItem(db.items, id);
    if k.None? {
      return Throw("Barang tidak ditemukan", 404);
    }
    var holder := IndexWhere(db.borrowings, Holding(id));
    if holder.Some? {
      assert HoldsItem(db.borrowings[holder.value], id);
      return Throw("Tidak dapat menghapus barang yang sedang dipinjam", 400);
    }
    assert !InUse(db.borrowings, id) by {
      forall j | 0 <= j < |db.borrowings|
        ensures !HoldsItem(db.borrowings[j], id)
      {
        assert !Holding(id)(db.borrowings[j]);
      }
    }
    var referrer := IndexWhere(db.borrowings, RefersTo(id));
    if referrer.Some? {
      assert db.borrowings[referrer.value].itemId == id;
      return Thrown(KnownRequestError(ForeignKeyViolation, "Foreign key constraint failed on the field: `itemId`"));
    }
    assert !Referenced(db.borrowings, id) by {
      forall j | 0 <= j < |db.borrowings|
        ensures db.borrowings[j].itemId != id
      {
        assert !RefersTo(id)(db.borrowings[j]);
      }
    }
    RemoveKeepsKeys(db.items, ItemId, k.value);
    db.items := RemoveAt(db.items, k.value);
    r := Ok(());
  }

  /** Items with stock to lend. */
  function Stocked(): Item -> bool {
    (item: Item) => item.total > 0
  }

  /** `orderBy: { available: 'asc' }`. */
  function ByAvailable(): (Item, Item) -> bool {
    (a: Item, b: Item) => a.available <= b.available
  }

  function Available(item: Item): int { item.available }

  /**
   * `getPopularItems`: the stocked items with the fewest available units, at most
   * `limit` of them (default '4'), fewest first.
   */
  function GetPopularItems(rows: seq<Item>, limit: Option<string>): (r: Outcome<seq<Item>>)
    ensures r.Thrown? <==> ParseInt(limit.GetOr("4")).None? || ParseInt(limit.GetOr("4")).value < 0
    ensures r.Thrown? ==> StatusCode(r.error) == 500
    ensures r.Ok? ==> |r.value| == Min(ParseInt(limit.GetOr("4")).value, Count(rows, Stocked()))
    ensures r.Ok? ==> forall i :: 0 <= i < |r.value| ==> r.value[i] in rows && r.value[i].total > 0
    ensures r.Ok? ==> SortedBy(r.value, ByAvailable())
    ensures r.Ok? ==> multiset(r.value) <= multiset(Keep(rows, Stocked()))
    ensures r.Ok? ==> forall x, i :: x in multiset(Keep(rows, Stocked())) - multiset(r.value) && 0 <= i < |r.value| ==>
      r.value[i].available <= x.available
  {
    var n := ParseInt(limit.GetOr("4"));
    if n.None? || n.value < 0 then
      Thrown(Unexpected("Invalid value for argument `take`"))
    else
      var eligible := Keep(rows, Stocked());
      var sorted := SortBy(eligible, ByAvailable());
      var top := Take(sorted, n.value);
      TakeOfSorted(sorted, n.value);
      assert forall i :: 0 <= i < |top| ==> top[i] in multiset(sorted);
      Ok(top)
  }

  /** The first `n` of a sequence sorted by availability are sorted, and none exceeds the rest. */
  lemma TakeOfSorted(sorted: seq<Item>, n: nat)
    requires SortedBy(sorted, ByAvailable())
    ensures SortedBy(Take(sorted, n), ByAvailable())
    ensures multiset(Take(sorted, n)) <= multiset(sorted)
    ensures forall x, i :: x in multiset(sorted) - multiset(Take(sorted, n)) && 0 <= i < |Take(sorted, n)| ==>
      Take(sorted, n)[i].available <= x.available
  {
    var m := Min(n, |sorted|);
    assert sorted == sorted[..m] + sorted[m..];
    assert Take(sorted, n) == sorted[..m];
    assert multiset(sorted) - multiset(sorted[..m]) == multiset(sorted[m..]);
    PrefixBelowRest(sorted, m);
  }

  /** In a sequence sorted by availability, every row before `m` has no more stock than any row from `m` on. */
  lemma PrefixBelowRest(sorted: seq<Item>, m: nat)
    requires SortedBy(sorted, ByAvailable()) && m <= |sorted|
    ensures forall x, i :: x in multiset(sorted[m..]) && 0 <= i < m ==> sorted[i].available <= x.available
  {
    forall x, i | x in multiset(sorted[m..]) && 0 <= i < m
      ensures sorted[i].available <= x.available
    {
      var j :| m <= j < |sorted| && sorted[j] == x;
      SortedByKey(sorted, Available, ByAvailable(), i, j);
    }
  }
}
