/**
 * The borrowing ledger: creating a borrowing against an item's stock, changing a
 * borrowing's status (only the step onto RETURNED gives stock back), the overdue sweep,
 * the status-filtered listings and the admin counters.
 */
module BorrowingController {
  import opened Wrappers
  import opened Seqs
  import opened Text
  import opened ErrorMiddleware
  import opened Schema

  /** `status && status !== 'all'`: the query narrows the listing by status. */
  predicate NarrowsByStatus(status: Option<string>) {
    status.Some? && status.value != "" && status.value != "all"
  }

  /** The row belongs to `owner` (when given) and has the `wanted` status (when given). */
  predicate Selected(b: Borrowing, owner: Option<Id>, wanted: Option<Status>) {
    (owner.Some? ==> b.userId == owner.value) && (wanted.Some? ==> b.status == wanted.value)
  }

  function Selector(owner: Option<Id>, wanted: Option<Status>): Borrowing -> bool {
    (b: Borrowing) => Selected(b, owner, wanted)
  }

  /** What the caller asked for: the owner's rows, with the named status when one is named. */
  predicate Requested(b: Borrowing, owner: Option<Id>, status: Option<string>) {
    (owner.Some? ==> b.userId == owner.value) && (NarrowsByStatus(status) ==> StatusName(b.status) == status.value)
  }

  /** Once the status is read, the `where` object selects exactly the requested rows. */
  lemma SelectedIffRequested(b: Borrowing, owner: Option<Id>, status: Option<string>, wanted: Option<Status>)
    requires wanted == if NarrowsByStatus(status) then ParseStatus(status.value) else None
    requires NarrowsByStatus(status) ==> wanted.Some?
    ensures Selected(b, owner, wanted) <==> Requested(b, owner, status)
  {
    if NarrowsByStatus(status) {
      ParseStatusName(b.status);
    }
  }

  /** Every listed row is in the table and was asked for. */
  lemma ListedAreSound(rows: seq<Borrowing>, owner: Option<Id>, status: Option<string>, wanted: Option<Status>)
    requires wanted == if NarrowsByStatus(status) then ParseStatus(status.value) else None
    requires NarrowsByStatus(status) ==> wanted.Some?
    ensures var r := Reverse(Keep(rows, Selector(owner, wanted)));
      forall i :: 0 <= i < |r| ==> r[i] in rows && Requested(r[i], owner, status)
  {
    var p := Selector(owner, wanted);
    var r := Reverse(Keep(rows, p));
    ReversedKeepSound(rows, p);
    forall i | 0 <= i < |r|
      ensures Requested(r[i], owner, status)
    {
      assert p(r[i]);
      SelectedIffRequested(r[i], owner, status, wanted);
    }
  }

  /** Every row that was asked for is listed. */
  lemma ListedAreComplete(rows: seq<Borrowing>, owner: Option<Id>, status: Option<string>, wanted: Option<Status>)
    requires wanted == if NarrowsByStatus(status) then ParseStatus(status.value) else None
    requires NarrowsByStatus(status) ==> wanted.Some?
    ensures var r := Reverse(Keep(rows, Selector(owner, wanted)));
      forall j :: 0 <= j < |rows| && Requested(rows[j], owner, status) ==> rows[j] in r
  {
    var p := Selector(owner, wanted);
    var kept := Keep(rows, p);
    ReverseSameElements(kept);
    forall j | 0 <= j < |rows| && Requested(rows[j], owner, status)
      ensures rows[j] in kept
    {
      SelectedIffRequested(rows[j], owner, status, wanted);
      assert p(rows[j]);
    }
  }

  /** Read back to front, the listing keeps the table's order. */
  lemma ListedInTableOrder(rows: seq<Borrowing>, p: Borrowing -> bool)
    ensures IsSubsequence(Reverse(Reverse(Keep(rows, p))), rows)
  {
    KeepIsSubsequence(rows, p);
    ReverseReverse(Keep(rows, p));
  }

  /**
   * `getMyBorrowings` (owner = the caller) and `getAllBorrowings` (no owner): the rows
   * selected by the `where` object, newest first. A status that is not one of the enum's
   * names makes the query itself fail.
   */
  function ListBorrowings(rows: seq<Borrowing>, owner: Option<Id>, status: Option<string>): (r: Outcome<seq<Borrowing>>)
    ensures r.Thrown? <==> NarrowsByStatus(status) && ParseStatus(status.value).None?
    ensures r.Thrown? ==> StatusCode(r.error) == 500
    ensures r.Ok? ==> forall i :: 0 <= i < |r.value| ==> r.value[i] in rows && Requested(r.value[i], owner, status)
    ensures r.Ok? ==> forall j :: 0 <= j < |rows| && Requested(rows[j], owner, status) ==> rows[j] in r.value
    ensures r.Ok? ==> IsSubsequence(Reverse(r.value), rows)
  {
    var wanted := if NarrowsByStatus(status) then ParseStatus(status.value) else None;
    if NarrowsByStatus(status) && wanted.None? then
      Thrown(Unexpected("Invalid value for argument `status`"))
    else
      ListedAreSound(rows, owner, status, wanted);
      ListedAreComplete(rows, owner, status, wanted);
      ListedInTableOrder(rows, Selector(owner, wanted));
      Ok(Reverse(Keep(rows, Selector(owner, wanted))))
  }

  function HasStatus(s: Status): Borrowing -> bool {
    (b: Borrowing) => b.status == s
  }

  datatype BorrowingCounts = BorrowingCounts(total: nat, active: nat, overdue: nat, returned: nat)

  /** `getBorrowingStats`: all rows, and the ACTIVE, OVERDUE and RETURNED ones. */
  function GetBorrowingStats(rows: seq<Borrowing>): (r: BorrowingCounts)
    ensures r.total == |rows|
    ensures r.active == Count(rows, HasStatus(Active))
    ensures r.overdue == Count(rows, HasStatus(Overdue))
    ensures r.returned == Count(rows, HasStatus(Returned))
    ensures r.active + r.overdue + r.returned <= r.total
  {
    CountExclusive(rows, HasStatus(Active), HasStatus(Overdue), HasStatus(Returned));
    BorrowingCounts(|rows|, Count(rows, HasStatus(Active)), Count(rows, HasStatus(Overdue)),
                    Count(rows, HasStatus(Returned)))
  }

  function StockMessage(available: int): string {
    "Stok tidak cukup. Tersedia: " + IntToString(available) + " unit"
  }

  /**
   * `createBorrowing`. The item must exist and have at least `quantity` available; then,
   * atomically, a new ACTIVE borrowing is stored, the item's stock drops by `quantity` and
   * the caller's two counters rise by one. The caller's row is referenced by the new
   * borrowing, so a missing caller makes the transaction fail as a whole.
   */
  method CreateBorrowing(db: Database, userId: Id, itemId: Id, quantity: int, returnDate: int,
                         notes: Option<string>, newId: Id, now: int) returns (r: Outcome<Borrowing>)
    requires db.Valid()
    requires FindBorrowing(db.borrowings, newId).None?
    modifies db
    ensures db.Valid()
    ensures db.categories == old(db.categories)
    ensures FindItem(old(db.items), itemId).None? ==>
      FailsWith(r, 404, "Barang tidak ditemukan") && unchanged(db)
    ensures var k := FindItem(old(db.items), itemId);
      k.Some? && old(db.items)[k.value].available < quantity ==>
      FailsWith(r, 400, StockMessage(old(db.items)[k.value].available)) && unchanged(db)
    ensures var k := FindItem(old(db.items), itemId);
      k.Some? && old(db.items)[k.value].available >= quantity && FindUser(old(db.users), userId).None? ==>
      r.Thrown? && StatusCode(r.error) == 500 && unchanged(db)
    ensures var k, u := FindItem(old(db.items), itemId), FindUser(old(db.users), userId);
      k.Some? && old(db.items)[k.value].available >= quantity && u.Some? ==>
      var item, user := old(db.items)[k.value], old(db.users)[u.value];
      && r == Ok(Borrowing(newId, userId, itemId, quantity, now, returnDate, None, Active, notes))
      && db.borrowings == old(db.borrowings) + [r.value]
      && db.items == old(db.items)[k.value := item.(available := item.available - quantity)]
      && db.items[k.value].available >= 0
      && db.users == old(db.users)[u.value := user.(totalBorrowings := user.totalBorrowings + 1,
                                                   activeBorrowings := user.activeBorrowings + 1)]
  {
    var k := FindItem(db.items, itemId);
    if k.None? {
      return Throw("Barang tidak ditemukan", 404);
    }
    var item := db.items[k.value];
    if item.available < quantity {
      return Throw(StockMessage(item.available), 400);
    }
    var u := FindUser(db.users, userId);
    if u.None? {
      return Thrown(KnownRequestError(ForeignKeyViolation, "Foreign key constraint failed on the field: `userId`"));
    }
    var user := db.users[u.value];
    r := Ok(Borrowing(newId, userId, itemId, quantity, now, returnDate, None, Active, notes));
    UpdateKeepsKeys(db.items, ItemId, k.value, item.(available := item.available - quantity));
    UpdateKeepsKeys(db.users, UserId, u.value, user.(totalBorrowings := user.totalBorrowings + 1,
                                                     activeBorrowings := user.activeBorrowings + 1));
    db.borrowings, db.items, db.users :=
      db.borrowings + [r.value],
      db.items[k.value := item.(available := item.available - quantity)],
      db.users[u.value := user.(totalBorrowings := user.totalBorrowings + 1,
                                activeBorrowings := user.activeBorrowings + 1)];
  }

  /** The one edge with side effects: onto RETURNED from any other status. */
  predicate RestoresStock(b: Borrowing, status: Status) {
    status == Returned && b.status != Returned
  }

  /**
   * `updateBorrowingStatus`: any status is written, with no check of the current one.
   * Moving onto RETURNED also stamps the return time, gives the quantity back to the
   * item and lowers the borrower's active counter, all in one transaction; if the item or
   * the borrower has gone, that transaction fails as an update of a missing row.
   */
  method UpdateBorrowingStatus(db: Database, id: Id, status: Status, now: int) returns (r: Outcome<Borrowing>)
    requires db.Valid()
    modifies db
    ensures db.Valid()
    ensures db.categories == old(db.categories)
    ensures FindBorrowing(old(db.borrowings), id).None? ==>
      FailsWith(r, 404, "Peminjaman tidak ditemukan") && unchanged(db)
    ensures var n := FindBorrowing(old(db.borrowings), id);
      n.Some? && RestoresStock(old(db.borrowings)[n.value], status)
      && (FindItem(old(db.items), old(db.borrowings)[n.value].itemId).None?
          || FindUser(old(db.users), old(db.borrowings)[n.value].userId).None?) ==>
      FailsWith(r, 404, "Data tidak ditemukan") && unchanged(db)
    ensures var n := FindBorrowing(old(db.borrowings), id);
      n.Some? && RestoresStock(old(db.borrowings)[n.value], status) ==>
      var b := old(db.borrowings)[n.value];
      var k, u := FindItem(old(db.items), b.itemId), FindUser(old(db.users), b.userId);
      k.Some? && u.Some? ==>
      var item, user := old(db.items)[k.value], old(db.users)[u.value];
      && r == Ok(b.(status := Returned, actualReturnDate := Some(now)))
      && db.borrowings == old(db.borrowings)[n.value := r.value]
      && db.items == old(db.items)[k.value := item.(available := item.available + b.quantity)]
      && db.users == old(db.users)[u.value := user.(activeBorrowings := user.activeBorrowings - 1)]
    ensures var n := FindBorrowing(old(db.borrowings), id);
      n.Some? && !RestoresStock(old(db.borrowings)[n.value], status) ==>
      && r == Ok(old(db.borrowings)[n.value].(status := status))
      && db.borrowings == old(db.borrowings)[n.value := r.value]
      && db.items == old(db.items)
      && db.users == old(db.users)
  {
    var n := FindBorrowing(db.borrowings, id);
    if n.None? {
      return Throw("Peminjaman tidak ditemukan", 404);
    }
    var b := db.borrowings[n.value];
    if !RestoresStock(b, status) {
      r := Ok(b.(status := status));
      UpdateKeepsKeys(db.borrowings, BorrowingId, n.value, r.value);
      db.borrowings := db.borrowings[n.value := r.value];
      return;
    }
    r := ReturnBorrowing(db, n.value, now);
  }

  /**
   * The RETURNED branch of `updateBorrowingStatus` for the row at position `n`: one
   * transaction over the borrowing, its item and its borrower.
   */
  method ReturnBorrowing(db: Database, n: nat, now: int) returns (r: Outcome<Borrowing>)
    requires db.Valid() && n < |db.borrowings|
    modifies db
    ensures db.Valid()
    ensures db.categories == old(db.categories)
    ensures var b := old(db.borrowings)[n];
      FindItem(old(db.items), b.itemId).None? || FindUser(old(db.users), b.userId).None? ==>
      FailsWith(r, 404, "Data tidak ditemukan") && unchanged(db)
    ensures var b := old(db.borrowings)[n];
      var k, u := FindItem(old(db.items), b.itemId), FindUser(old(db.users), b.userId);
      k.Some? && u.Some? ==>
      var item, user := old(db.items)[k.value], old(db.users)[u.value];
      && r == Ok(b.(status := Returned, actualReturnDate := Some(now)))
      && db.borrowings == old(db.borrowings)[n := r.value]
      && db.items == old(db.items)[k.value := item.(available := item.available + b.quantity)]
      && db.users == old(db.users)[u.value := user.(activeBorrowings := user.activeBorrowings - 1)]
  {
    var b := db.borrowings[n];
    var k := FindItem(db.items, b.itemId);
    var u := FindUser(db.users, b.userId);
    if k.None? || u.None? {
      return RowNotFound();
    }
    var item, user := db.items[k.value], db.users[u.value];
    r := Ok(b.(status := Returned, actualReturnDate := Some(now)));
    UpdateKeepsKeys(db.borrowings, BorrowingId, n, r.value);
    UpdateKeepsKeys(db.items, ItemId, k.value, item.(available := item.available + b.quantity));
    UpdateKeepsKeys(db.users, UserId, u.value, user.(activeBorrowings := user.activeBorrowings - 1));
    db.borrowings, db.items, db.users :=
      db.borrowings[n := r.value],
      db.items[k.value := item.(available := item.available + b.quantity)],
      db.users[u.value := user.(activeBorrowings := user.activeBorrowings - 1)];
  }

  /** Due before today's midnight and still ACTIVE. */
  predicate IsOverdue(b: Borrowing, todayMidnight: int) {
    b.status == Active && b.returnDate < todayMidnight
  }

  function OverdueAt(todayMidnight: int): Borrowing -> bool {
    (b: Borrowing) => IsOverdue(b, todayMidnight)
  }

  /** The table after the sweep: exactly the overdue rows become OVERDUE. */
  function MarkOverdue(rows: seq<Borrowing>, todayMidnight: int): (r: seq<Borrowing>)
    ensures |r| == |rows|
    ensures forall i :: 0 <= i < |rows| && IsOverdue(rows[i], todayMidnight) ==>
      r[i] == rows[i].(status := Overdue)
    ensures forall i :: 0 <= i < |rows| && !IsOverdue(rows[i], todayMidnight) ==> r[i] == rows[i]
    ensures forall i :: 0 <= i < |r| ==> !IsOverdue(r[i], todayMidnight)
  {
    seq(|rows|, i requires 0 <= i < |rows| =>
      if IsOverdue(rows[i], todayMidnight) then rows[i].(status := Overdue) else rows[i])
  }

  /** A second sweep on the same day changes nothing. */
  lemma MarkOverdueIdempotent(rows: seq<Borrowing>, todayMidnight: int)
    ensures MarkOverdue(MarkOverdue(rows, todayMidnight), todayMidnight) == MarkOverdue(rows, todayMidnight)
  {
    var once := MarkOverdue(rows, todayMidnight);
    assert forall i :: 0 <= i < |once| ==> MarkOverdue(once, todayMidnight)[i] == once[i];
  }

  /** The sweep touches statuses only: ids, quantities, dates and owners stay. */
  lemma MarkOverdueKeepsIdentity(rows: seq<Borrowing>, todayMidnight: int)
    ensures var r := MarkOverdue(rows, todayMidnight);
      forall i :: 0 <= i < |rows| ==> r[i] == rows[i].(status := r[i].status)
  {
  }

  /**
   * `checkOverdueBorrowings`: one `updateMany` over the table, returning how many rows
   * it changed; the new table is written in a single step.
   */
  method CheckOverdueBorrowings(db: Database, todayMidnight: int) returns (updated: nat)
    requires db.Valid()
    modifies db
    ensures db.Valid()
    ensures db.borrowings == MarkOverdue(old(db.borrowings), todayMidnight)
    ensures updated == Count(old(db.borrowings), OverdueAt(todayMidnight))
    ensures db.items == old(db.items) && db.users == old(db.users) && db.categories == old(db.categories)
  {
    var original := db.borrowings;
    var rows := original;
    var i := 0;
    updated := 0;
    while i < |rows|
      invariant |rows| == |original|
      invariant 0 <= i <= |original|
      invariant forall j :: 0 <= j < i && IsOverdue(original[j], todayMidnight) ==>
        rows[j] == original[j].(status := Overdue)
      invariant forall j :: 0 <= j < i && !IsOverdue(original[j], todayMidnight) ==> rows[j] == original[j]
      invariant forall j :: i <= j < |original| ==> rows[j] == original[j]
      invariant updated == Count(original[..i], OverdueAt(todayMidnight))
      invariant UniqueKeys(rows, BorrowingId)
      modifies {}
    {
      CountSnoc(original[..i], original[i], OverdueAt(todayMidnight));
      assert original[..i + 1] == original[..i] + [original[i]];
      if IsOverdue(rows[i], todayMidnight) {
        var marked := rows[i].(status := Overdue);
        UpdateKeepsKeys(rows, BorrowingId, i, marked);
        rows := rows[i := marked];
        updated := updated + 1;
      }
      i := i + 1;
    }
    assert original[..i] == original;
    assert rows == MarkOverdue(original, todayMidnight);
    db.borrowings := rows;
  }

  /**
   * No transition guard: RETURNED, then APPROVED, then RETURNED again on one borrowing
   * gives its quantity back twice, so an item of 5 units with 2 on the shelf and 3 lent
   * out ends with 8 available.
   */
  method ReturnTwiceRestoresTwice() returns (total: int, available: int)
    ensures total == 5 && available == 8
    ensures available > total
  {
    var db := new Database();
    var item := Item("item-1", "Proyektor", "Multimedia", None, "📦", 5, 2, "BAIK", "Gedung A", "admin-1");
    var user := User("user-1", "Budi", "12345", "budi@kampus.ac.id", "hash", None, None, None, "USER", 1, 1);
    var lent := Borrowing("borrow-1", "user-1", "item-1", 3, 0, 100, None, Active, None);
    db.items, db.users, db.borrowings := [item], [user], [lent];
    FindUnique(db.borrowings, BorrowingId, 0);
    FindUnique(db.items, ItemId, 0);
    FindUnique(db.users, UserId, 0);
    var first := UpdateBorrowingStatus(db, "borrow-1", Returned, 200);
    assert db.items == [item.(available := 5)];
    assert db.users == [user.(activeBorrowings := 0)];
    assert db.borrowings == [lent.(status := Returned, actualReturnDate := Some(200))];
    ReapproveThenReturn(db, item.(available := 5), user.(activeBorrowings := 0),
                        lent.(status := Returned, actualReturnDate := Some(200)));
    total, available := db.items[0].total, db.items[0].available;
  }

  /** The second half of the scenario above, from the state the first return leaves. */
  method ReapproveThenReturn(db: Database, item: Item, user: User, lent: Borrowing)
    requires db.Valid() && db.items == [item] && db.users == [user] && db.borrowings == [lent]
    requires lent.status == Returned && lent.itemId == item.id && lent.userId == user.id
    modifies db
    ensures db.items == [item.(available := item.available + lent.quantity)]
  {
    FindUnique(db.borrowings, BorrowingId, 0);
    var second := UpdateBorrowingStatus(db, lent.id, Approved, 300);
    assert db.items == [item] && db.users == [user] && db.borrowings == [lent.(status := Approved)];
    FindUnique(db.borrowings, BorrowingId, 0);
    FindUnique(db.items, ItemId, 0);
    FindUnique(db.users, UserId, 0);
    var third := UpdateBorrowingStatus(db, lent.id, Returned, 400);
  }
  const AlreadyReturned := "Peminjaman sudah dikembalikan"

  /**
   * The status update with RETURNED kept terminal: a returned borrowing accepts no other
   * status, so its quantity can be given back only once. Every other request is the
   * update above.
   */
  method UpdateBorrowingStatusFinal(db: Database, id: Id, status: Status, now: int) returns (r: Outcome<Borrowing>)
    requires db.Valid()
    modifies db
    ensures db.Valid()
    ensures db.categories == old(db.categories)
    ensures FindBorrowing(old(db.borrowings), id).None? ==>
      FailsWith(r, 404, "Peminjaman tidak ditemukan") && unchanged(db)
    ensures var n := FindBorrowing(old(db.borrowings), id);
      n.Some? && old(db.borrowings)[n.value].status == Returned && status != Returned ==>
      FailsWith(r, 400, AlreadyReturned) && unchanged(db)
    ensures var n := FindBorrowing(old(db.borrowings), id);
      n.Some? && old(db.borrowings)[n.value].status == Returned ==>
      db.items == old(db.items) && db.users == old(db.users)
    ensures var n := FindBorrowing(old(db.borrowings), id);
      n.Some? && !(old(db.borrowings)[n.value].status == Returned && status != Returned) ==>
      var b := old(db.borrowings)[n.value];
      var k, u := FindItem(old(db.items), b.itemId), FindUser(old(db.users), b.userId);
      if !RestoresStock(b, status) then
        && r == Ok(b.(status := status))
        && db.borrowings == old(db.borrowings)[n.value := r.value]
        && db.items == old(db.items) && db.users == old(db.users)
      else if k.None? || u.None? then
        FailsWith(r, 404, "Data tidak ditemukan") && unchanged(db)
      else
        var item, user := old(db.items)[k.value], old(db.users)[u.value];
        && r == Ok(b.(status := Returned, actualReturnDate := Some(now)))
        && db.borrowings == old(db.borrowings)[n.value := r.value]
        && db.items == old(db.items)[k.value := item.(available := item.available + b.quantity)]
        && db.users == old(db.users)[u.value := user.(activeBorrowings := user.activeBorrowings - 1)]
  {
    var n := FindBorrowing(db.borrowings, id);
    if n.Some? && db.borrowings[n.value].status == Returned && status != Returned {
      return Throw(AlreadyReturned, 400);
    }
    r := UpdateBorrowingStatus(db, id, status, now);
  }

  /**
   * The scenario of `ReturnTwiceRestoresTwice` under the terminal RETURNED: the
   * re-approval is refused, the second return gives nothing back, and the shelf holds
   * exactly the item's 5 units.
   */
  method ReturnOnceRestoresOnce() returns (total: int, available: int)
    ensures total == 5 && available == 5
    ensures available <= total
  {
    var db := new Database();
    var item := Item("item-1", "Proyektor", "Multimedia", None, "📦", 5, 2, "BAIK", "Gedung A", "admin-1");
    var user := User("user-1", "Budi", "12345", "budi@kampus.ac.id", "hash", None, None, None, "USER", 1, 1);
    var lent := Borrowing("borrow-1", "user-1", "item-1", 3, 0, 100, None, Active, None);
    db.items, db.users, db.borrowings := [item], [user], [lent];
    FindUnique(db.borrowings, BorrowingId, 0);
    FindUnique(db.items, ItemId, 0);
    FindUnique(db.users, UserId, 0);
    var first := UpdateBorrowingStatusFinal(db, "borrow-1", Returned, 200);
    assert db.items == [item.(available := 5)];
    assert db.borrowings == [lent.(status := Returned, actualReturnDate := Some(200))];
    FindUnique(db.borrowings, BorrowingId, 0);
    var second := UpdateBorrowingStatusFinal(db, "borrow-1", Approved, 300);
    assert db.items == [item.(available := 5)];
    FindUnique(db.borrowings, BorrowingId, 0);
    var third := UpdateBorrowingStatusFinal(db, "borrow-1", Returned, 400);
    total, available := db.items[0].total, db.items[0].available;
  }
}
