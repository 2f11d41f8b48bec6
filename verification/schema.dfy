/**
 * The four tables of the API (items, users, borrowings, categories) and the borrowing
 * status enum. A table is a sequence of rows in creation order, so "newest first"
 * (`orderBy: { createdAt: 'desc' }`) is the reverse of the table.
 */
module Schema {
  import opened Wrappers
  import opened Seqs

  type Id = string

  /** All six values of the status enum; the status validator accepts only five of them. */
  datatype Status = Pending | Approved | Rejected | Returned | Overdue | Active

  function StatusName(s: Status): string {
    match s
    case Pending => "PENDING"
    case Approved => "APPROVED"
    case Rejected => "REJECTED"
    case Returned => "RETURNED"
    case Overdue => "OVERDUE"
    case Active => "ACTIVE"
  }

  /** How the ORM reads an enum value from a string: an exact match of one of the names. */
  function ParseStatus(name: string): (r: Option<Status>)
    ensures r.Some? ==> StatusName(r.value) == name
    ensures r.None? ==> forall s: Status :: StatusName(s) != name
  {
    if name == "PENDING" then Some(Pending)
    else if name == "APPROVED" then Some(Approved)
    else if name == "REJECTED" then Some(Rejected)
    else if name == "RETURNED" then Some(Returned)
    else if name == "OVERDUE" then Some(Overdue)
    else if name == "ACTIVE" then Some(Active)
    else None
  }

  /** Reading back a status's own name gives that status. */
  lemma ParseStatusName(s: Status)
    ensures ParseStatus(StatusName(s)) == Some(s)
  {
  }

  datatype Item = Item(
    id: Id,
    name: string,
    category: string,
    description: Option<string>,
    image: string,
    total: int,
    available: int,
    condition: string,
    location: string,
    createdById: Id)

  datatype User = User(
    id: Id,
    name: string,
    nim: string,
    email: string,
    password: string,  // the stored hash
    phone: Option<string>,
    faculty: Option<string>,
    program: Option<string>,
    role: string,
    totalBorrowings: int,
    activeBorrowings: int)

  /** Times (`borrowDate`, `returnDate`, `actualReturnDate`) are epoch milliseconds. */
  datatype Borrowing = Borrowing(
    id: Id,
    userId: Id,
    itemId: Id,
    quantity: int,
    borrowDate: int,
    returnDate: int,
    actualReturnDate: Option<int>,
    status: Status,
    notes: Option<string>)

  datatype Category = Category(id: Id, name: string, icon: string)

  function ItemId(i: Item): Id { i.id }
  function UserId(u: User): Id { u.id }
  function BorrowingId(b: Borrowing): Id { b.id }
  function CategoryId(c: Category): Id { c.id }

  /** No two rows share a primary key. */
  predicate UniqueKeys<T>(s: seq<T>, key: T -> Id) {
    forall i, j :: 0 <= i < j < |s| ==> key(s[i]) != key(s[j])
  }

  /** The position of the first row whose key is `id`. */
  function FindBy<T>(s: seq<T>, key: T -> Id, id: Id): (r: Option<nat>)
    ensures r.Some? ==> r.value < |s| && key(s[r.value]) == id
    ensures r.None? <==> forall i :: 0 <= i < |s| ==> key(s[i]) != id
  {
    if s == [] then None
    else if key(s[0]) == id then Some(0)
    else match FindBy(s[1..], key, id)
      case None => None
      case Some(i) => Some(i + 1)
  }

  /** With unique keys, looking a row up by its own key finds exactly that row. */
  lemma FindUnique<T>(s: seq<T>, key: T -> Id, k: nat)
    requires UniqueKeys(s, key) && k < |s|
    ensures FindBy(s, key, key(s[k])) == Some(k)
  {
  }

  /** `findUnique({ where: { id } })`, as a position in the table: the row with that id, if any. */
  function FindItem(items: seq<Item>, id: Id): (r: Option<nat>)
    ensures r.Some? ==> r.value < |items| && items[r.value].id == id
    ensures r.None? <==> forall i :: 0 <= i < |items| ==> items[i].id != id
  {
    FindBy(items, ItemId, id)
  }

  function FindUser(users: seq<User>, id: Id): (r: Option<nat>)
    ensures r.Some? ==> r.value < |users| && users[r.value].id == id
    ensures r.None? <==> forall i :: 0 <= i < |users| ==> users[i].id != id
  {
    FindBy(users, UserId, id)
  }

  function FindBorrowing(borrowings: seq<Borrowing>, id: Id): (r: Option<nat>)
    ensures r.Some? ==> r.value < |borrowings| && borrowings[r.value].id == id
    ensures r.None? <==> forall i :: 0 <= i < |borrowings| ==> borrowings[i].id != id
  {
    FindBy(borrowings, BorrowingId, id)
  }

  function FindCategory(categories: seq<Category>, id: Id): (r: Option<nat>)
    ensures r.Some? ==> r.value < |categories| && categories[r.value].id == id
    ensures r.None? <==> forall i :: 0 <= i < |categories| ==> categories[i].id != id
  {
    FindBy(categories, CategoryId, id)
  }

  /** Rewriting one row without touching its key keeps every key distinct. */
  lemma UpdateKeepsKeys<T>(s: seq<T>, key: T -> Id, k: nat, x: T)
    requires UniqueKeys(s, key) && k < |s| && key(x) == key(s[k])
    ensures UniqueKeys(s[k := x], key)
  {
    var r := s[k := x];
    forall i, j | 0 <= i < j < |r|
      ensures key(r[i]) != key(r[j])
    {
      assert key(r[i]) == key(s[i]) && key(r[j]) == key(s[j]);
    }
  }

  /** Removing one row keeps every key distinct and drops the removed row's key. */
  lemma RemoveKeepsKeys<T>(s: seq<T>, key: T -> Id, k: nat)
    requires UniqueKeys(s, key) && k < |s|
    ensures UniqueKeys(RemoveAt(s, k), key)
    ensures forall i :: 0 <= i < |RemoveAt(s, k)| ==> key(RemoveAt(s, k)[i]) != key(s[k])
  {
    var r := RemoveAt(s, k);
    forall i, j | 0 <= i < j < |r|
      ensures key(r[i]) != key(r[j])
    {
      var i', j' := if i < k then i else i + 1, if j < k then j else j + 1;
      assert r[i] == s[i'] && r[j] == s[j'];
    }
    forall i | 0 <= i < |r|
      ensures key(r[i]) != key(s[k])
    {
      assert r[i] == s[if i < k then i else i + 1];
    }
  }

  /** The whole database; each handler below is one atomic step on it. */
  class Database {
    var items: seq<Item>
    var users: seq<User>
    var borrowings: seq<Borrowing>
    var categories: seq<Category>

    ghost predicate Valid()
      reads this
    {
      && UniqueKeys(items, ItemId)
      && UniqueKeys(users, UserId)
      && UniqueKeys(borrowings, BorrowingId)
      && UniqueKeys(categories, CategoryId)
    }

    constructor ()
      ensures Valid()
      ensures items == [] && users == [] && borrowings == [] && categories == []
    {
      items, users, borrowings, categories := [], [], [], [];
    }
  }
}
