/**
 * Dashboard figures for a user and for the administrator, and the "recent activity"
 * feed, which relabels the newest borrowings by their current status.
 */
module StatsController {
  import opened Wrappers
  import opened Seqs
  import opened Text
  import opened ErrorMiddleware
  import opened Schema

  function ItemTotal(item: Item): int { item.total }
  function ItemAvailable(item: Item): int { item.available }
  function ItemLent(item: Item): int { item.total - item.available }

  /** Summing what is lent is summing totals less summing what is available. */
  lemma SumLent(items: seq<Item>)
    ensures Sum(items, ItemLent) == Sum(items, ItemTotal) - Sum(items, ItemAvailable)
  {
    SumDifference(items, ItemTotal, ItemAvailable, ItemLent);
  }

  function InStock(): Item -> bool {
    (item: Item) => item.available > 0
  }

  /** `aggregate({ _sum })`: no rows give `null` rather than 0. */
  function AggregateSum(items: seq<Item>, f: Item -> int): (r: Option<int>)
    ensures r.None? <==> items == []
    ensures r.Some? ==> r.value == Sum(items, f)
  {
    if items == [] then None else Some(Sum(items, f))
  }

  /** `sum || 0`. */
  function OrZero(sum: Option<int>): (r: int)
    ensures sum.None? ==> r == 0
    ensures sum.Some? ==> r == sum.value
  {
    sum.GetOr(0)
  }

  function OwnedBy(userId: Id): Borrowing -> bool {
    (b: Borrowing) => b.userId == userId
  }

  function OwnedWith(userId: Id, s: Status): Borrowing -> bool {
    (b: Borrowing) => b.userId == userId && b.status == s
  }

  function WithStatus(s: Status): Borrowing -> bool {
    (b: Borrowing) => b.status == s
  }

  datatype UserStats = UserStats(
    totalItems: nat,
    availableItems: nat,
    borrowedItems: int,
    totalBorrowings: nat,
    activeBorrowings: nat,
    overdueItems: nat,
    completedBorrowings: nat)

  /** `getUserDashboardStats`: catalog figures plus the caller's own borrowings by status. */
  function UserDashboardStats(items: seq<Item>, borrowings: seq<Borrowing>, userId: Id): (r: UserStats)
    ensures r.totalItems == |items|
    ensures r.availableItems == Count(items, InStock())
    ensures r.borrowedItems == Sum(items, ItemTotal) - Sum(items, ItemAvailable)
    ensures r.borrowedItems == Sum(items, ItemLent)
    ensures r.totalBorrowings == Count(borrowings, OwnedBy(userId))
    ensures r.activeBorrowings == Count(borrowings, OwnedWith(userId, Active))
    ensures r.completedBorrowings == Count(borrowings, OwnedWith(userId, Returned))
    ensures r.overdueItems == Count(borrowings, OwnedWith(userId, Overdue))
    ensures r.activeBorrowings + r.completedBorrowings + r.overdueItems <= |borrowings|
  {
    SumDifference(items, ItemTotal, ItemAvailable, ItemLent);
    CountExclusive(borrowings, OwnedWith(userId, Active), OwnedWith(userId, Returned), OwnedWith(userId, Overdue));
    UserStats(
      |items|,
      Count(items, InStock()),
      OrZero(AggregateSum(items, ItemTotal)) - OrZero(AggregateSum(items, ItemAvailable)),
      Count(borrowings, OwnedBy(userId)),
      Count(borrowings, OwnedWith(userId, Active)),
      Count(borrowings, OwnedWith(userId, Overdue)),
      Count(borrowings, OwnedWith(userId, Returned)))
  }

  /** A user's active, returned and overdue borrowings are among that user's borrowings. */
  lemma OwnStatusesWithinOwn(borrowings: seq<Borrowing>, userId: Id)
    ensures Count(borrowings, OwnedWith(userId, Active)) + Count(borrowings, OwnedWith(userId, Returned))
      + Count(borrowings, OwnedWith(userId, Overdue)) <= Count(borrowings, OwnedBy(userId))
  {
    var own := Keep(borrowings, OwnedBy(userId));
    CountExclusive(own, WithStatus(Active), WithStatus(Returned), WithStatus(Overdue));
    KeepOwnedWith(borrowings, userId, Active);
    KeepOwnedWith(borrowings, userId, Returned);
    KeepOwnedWith(borrowings, userId, Overdue);
  }

  /** Picking a user's rows with a status is picking the user's rows, then the status. */
  lemma {:induction false} KeepOwnedWith(borrowings: seq<Borrowing>, userId: Id, s: Status)
    ensures Keep(borrowings, OwnedWith(userId, s)) == Keep(Keep(borrowings, OwnedBy(userId)), WithStatus(s))
  {
    if borrowings != [] {
      KeepOwnedWith(borrowings[1..], userId, s);
    }
  }

  datatype AdminStats = AdminStats(
    totalItems: nat,
    totalStock: int,
    availableStock: int,
    borrowedStock: int,
    activeBorrowings: nat,
    overdueBorrowings: nat)

  /** `getAdminDashboardStats`. */
  function AdminDashboardStats(items: seq<Item>, borrowings: seq<Borrowing>): (r: AdminStats)
    ensures r.totalItems == |items|
    ensures r.totalStock == Sum(items, ItemTotal) && r.availableStock == Sum(items, ItemAvailable)
    ensures r.borrowedStock == r.totalStock - r.availableStock
    ensures r.borrowedStock == Sum(items, ItemLent)
    ensures r.activeBorrowings == Count(borrowings, WithStatus(Active))
    ensures r.overdueBorrowings == Count(borrowings, WithStatus(Overdue))
  {
    SumDifference(items, ItemTotal, ItemAvailable, ItemLent);
    var totalStock := OrZero(AggregateSum(items, ItemTotal));
    var availableStock := OrZero(AggregateSum(items, ItemAvailable));
    AdminStats(|items|, totalStock, availableStock, totalStock - availableStock,
               Count(borrowings, WithStatus(Active)), Count(borrowings, WithStatus(Overdue)))
  }

  datatype ActivityType = Borrow | Return | Approve | Reject

  /** The type and wording of an activity, chosen by the borrowing's current status. */
  function ActionOf(s: Status): (r: (ActivityType, string))
    ensures s == Active ==> r == (Approve, "meminjam")
    ensures s == Returned ==> r == (Return, "mengembalikan")
    ensures s == Overdue ==> r == (Borrow, "terlambat mengembalikan")
    ensures s != Active && s != Returned && s != Overdue ==> r == (Borrow, "mengajukan peminjaman")
  {
    if s == Active then (Approve, "meminjam")
    else if s == Returned then (Return, "mengembalikan")
    else if s == Overdue then (Borrow, "terlambat mengembalikan")
    else (Borrow, "mengajukan peminjaman")
  }

  /** The feed never reports a rejection, even for a REJECTED borrowing. */
  lemma NoRejectActivity(s: Status)
    ensures ActionOf(s).0 != Reject
  {
  }

  datatype Activity = Activity(
    id: Id,
    kind: ActivityType,
    description: string,
    userId: Id,
    userName: string,
    itemId: Id,
    itemName: string)

  /** One borrowing, joined with its user's and its item's names, as an activity. */
  function ActivityOf(b: Borrowing, userName: string, itemName: string): (a: Activity)
    ensures a.id == b.id && a.kind == ActionOf(b.status).0
    ensures a.userId == b.userId && a.itemId == b.itemId
    ensures a.userName == userName && a.itemName == itemName
    ensures a.description == userName + " " + ActionOf(b.status).1 + " " + itemName
    ensures |a.description| > |userName| + |itemName| + 1
    ensures a.description[..|userName|] == userName
    ensures a.description[|a.description| - |itemName|..] == itemName
  {
    var (kind, text) := ActionOf(b.status);
    var description := userName + " " + text + " " + itemName;
    assert description[|description| - |itemName|..] == itemName;
    Activity(b.id, kind, description, b.userId, userName, b.itemId, itemName)
  }

  /** The borrowing's user or item has no row. */
  predicate MissingJoin(b: Borrowing, users: seq<User>, items: seq<Item>) {
    FindUser(users, b.userId).None? || FindItem(items, b.itemId).None?
  }

  /** Some row of `rows` lacks its user or its item. */
  predicate AnyMissingJoin(rows: seq<Borrowing>, users: seq<User>, items: seq<Item>) {
    exists i :: 0 <= i < |rows| && MissingJoin(rows[i], users, items)
  }

  /** The activity of `b` with the names of the user and the item it refers to; None when either is missing. */
  function JoinOf(b: Borrowing, users: seq<User>, items: seq<Item>): (r: Option<Activity>)
    ensures r.None? <==> MissingJoin(b, users, items)
    ensures r.Some? ==>
      r.value == ActivityOf(b, users[FindUser(users, b.userId).value].name, items[FindItem(items, b.itemId).value].name)
  {
    var u, it := FindUser(users, b.userId), FindItem(items, b.itemId);
    if u.None? || it.None? then None
    else Some(ActivityOf(b, users[u.value].name, items[it.value].name))
  }

  /** The activities of `rows`, joined with users and items; None when a join finds no row. */
  function Activities(rows: seq<Borrowing>, users: seq<User>, items: seq<Item>): (r: Option<seq<Activity>>)
    ensures r.Some? ==> |r.value| == |rows|
    ensures r.Some? ==> forall i :: 0 <= i < |rows| ==> JoinOf(rows[i], users, items) == Some(r.value[i])
    ensures r.None? <==> AnyMissingJoin(rows, users, items)
  {
    if rows == [] then Some([])
    else
      var head := JoinOf(rows[0], users, items);
      var rest := Activities(rows[1..], users, items);
      if head.None? then None
      else if rest.None? then
        MissingJoinInTail(rows, users, items);
        None
      else
        MapsCons(rows, head.value, rest.value, JoinIn(users, items));
        Some([head.value] + rest.value)
  }

  function JoinIn(users: seq<User>, items: seq<Item>): Borrowing -> Option<Activity> {
    (b: Borrowing) => JoinOf(b, users, items)
  }

  /** A missing join in the tail of `rows` is a missing join in `rows`. */
  lemma MissingJoinInTail(rows: seq<Borrowing>, users: seq<User>, items: seq<Item>)
    requires |rows| > 0
    requires AnyMissingJoin(rows[1..], users, items)
    ensures AnyMissingJoin(rows, users, items)
  {
    var j :| 0 <= j < |rows[1..]| && MissingJoin(rows[1..][j], users, items);
    assert rows[1..][j] == rows[j + 1];
  }

  /**
   * `getRecentActivities`: the newest `limit` borrowings (default '10') as activities,
   * newest first.
   */
  function RecentActivities(borrowings: seq<Borrowing>, users: seq<User>, items: seq<Item>,
                            limit: Option<string>): (r: Outcome<seq<Activity>>)
    ensures ParseInt(limit.GetOr("10")).None? || ParseInt(limit.GetOr("10")).value < 0 ==>
      r.Thrown? && StatusCode(r.error) == 500
    ensures ParseInt(limit.GetOr("10")).Some? && ParseInt(limit.GetOr("10")).value >= 0 ==>
      var n := ParseInt(limit.GetOr("10")).value;
      r.Thrown? <==> AnyMissingJoin(Newest(borrowings, n), users, items)
    ensures r.Thrown? ==> StatusCode(r.error) == 500
    ensures r.Ok? ==> var n := ParseInt(limit.GetOr("10")).value;
      && |r.value| == Min(n, |borrowings|)
      && forall i :: 0 <= i < |r.value| ==> JoinOf(borrowings[|borrowings| - 1 - i], users, items) == Some(r.value[i])
  {
    var n := ParseInt(limit.GetOr("10"));
    if n.None? || n.value < 0 then Thrown(Unexpected("Invalid value for argument `take`"))
    else
      var newest := Newest(borrowings, n.value);
      match Activities(newest, users, items)
      case None => Thrown(Unexpected("Inconsistent query result: a required relation is missing"))
      case Some(a) => Ok(a)
  }
}
