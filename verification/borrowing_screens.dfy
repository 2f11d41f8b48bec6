/**
 * The borrowing-facing logic of the mobile client: the status badge of a borrowing card,
 * the status tabs and counters of the two borrowing lists, and the figures of the home
 * and admin dashboards.
 */
module BorrowingScreens {
  import opened Wrappers
  import opened Seqs
  import opened Text
  import opened Schema
  import StatsController

  // ---- Borrowing card ----

  const Primary := "#6366F1"
  const Success := "#10B981"
  const Warning := "#F59E0B"
  const ErrorColor := "#EF4444"
  const Gray := "#94A3B8"
  const LightGray := "#E2E8F0"

  datatype StatusInfo = StatusInfo(caption: string, color: string, icon: string, bgColor: string)

  /** `getStatusInfo`: the badge of a borrowing, chosen by its status string. */
  function GetStatusInfo(status: string): (r: StatusInfo)
    ensures status == "APPROVED" ==> r == StatusInfo("Sedang Dipinjam", Primary, "time-outline", "#EEF2FF")
    ensures status == "RETURNED" ==> r == StatusInfo("Dikembalikan", Success, "checkmark-circle-outline", "#DCFCE7")
    ensures status == "OVERDUE" ==> r == StatusInfo("Terlambat", ErrorColor, "alert-circle-outline", "#FEE2E2")
    ensures status == "PENDING" ==> r == StatusInfo("Menunggu Persetujuan", Warning, "hourglass-outline", "#FEF3C7")
    ensures status == "REJECTED" ==> r == StatusInfo("Ditolak", ErrorColor, "close-circle-outline", "#FEE2E2")
    ensures status !in {"APPROVED", "RETURNED", "OVERDUE", "PENDING", "REJECTED"} ==>
      r == StatusInfo(status, Gray, "help-circle-outline", LightGray)
  {
    if status == "APPROVED" then StatusInfo("Sedang Dipinjam", Primary, "time-outline", "#EEF2FF")
    else if status == "RETURNED" then StatusInfo("Dikembalikan", Success, "checkmark-circle-outline", "#DCFCE7")
    else if status == "OVERDUE" then StatusInfo("Terlambat", ErrorColor, "alert-circle-outline", "#FEE2E2")
    else if status == "PENDING" then StatusInfo("Menunggu Persetujuan", Warning, "hourglass-outline", "#FEF3C7")
    else if status == "REJECTED" then StatusInfo("Ditolak", ErrorColor, "close-circle-outline", "#FEE2E2")
    else StatusInfo(status, Gray, "help-circle-outline", LightGray)
  }

  /**
   * The server creates borrowings as ACTIVE, a status the card does not know: such a
   * borrowing shows its raw status in gray.
   */
  lemma ActiveShownRaw()
    ensures GetStatusInfo(StatusName(Active)) == StatusInfo("ACTIVE", Gray, "help-circle-outline", LightGray)
  {
    assert StatusName(Active) == "ACTIVE";
    assert "ACTIVE"[0] == 'A' && "ACTIVE"[1] == 'C';
  }

  /** `borrowing.item?.name || 'Item'`. */
  function CardItemName(itemName: Option<string>): (r: string)
    ensures Truthy(itemName) ==> r == itemName.value
    ensures !Truthy(itemName) ==> r == "Item"
    ensures r != ""
  {
    if Truthy(itemName) then itemName.value else "Item"
  }

  // ---- Borrowing lists ----

  /** A borrowing as the client lists hold it, with the status as a plain string. */
  datatype ListedBorrowing = ListedBorrowing(id: Id, status: string, itemName: string)

  function StatusIs(status: string): ListedBorrowing -> bool {
    (b: ListedBorrowing) => b.status == status
  }

  function AnyStatus(): ListedBorrowing -> bool {
    (b: ListedBorrowing) => true
  }

  /** The status tabs of both borrowing lists: 'all' keeps everything, any other tab its status. */
  function FilterByTab(rows: seq<ListedBorrowing>, tab: string): (r: seq<ListedBorrowing>)
    ensures tab == "all" ==> r == rows
    ensures IsSubsequence(r, rows)
    ensures tab != "all" ==> forall b :: b in r <==> b in rows && b.status == tab
    ensures tab != "all" ==> |r| == Count(rows, StatusIs(tab))
  {
    if tab == "all" then
      KeepAll(rows, AnyStatus());
      KeepIsSubsequence(rows, AnyStatus());
      rows
    else
      KeepIsSubsequence(rows, StatusIs(tab));
      Keep(rows, StatusIs(tab))
  }

  /** Choosing a tab twice is the same as choosing it once. */
  lemma FilterByTabIdempotent(rows: seq<ListedBorrowing>, tab: string)
    ensures FilterByTab(FilterByTab(rows, tab), tab) == FilterByTab(rows, tab)
  {
    if tab != "all" {
      KeepKeep(rows, StatusIs(tab));
    }
  }

  datatype ListCounts = ListCounts(all: nat, active: nat, overdue: nat, returned: nat)

  /** The admin list's counters: every row, and the 'active', 'overdue' and 'returned' ones. */
  function ManageCounts(rows: seq<ListedBorrowing>): (r: ListCounts)
    ensures r.all == |rows|
    ensures r.active == |FilterByTab(rows, "active")|
    ensures r.overdue == |FilterByTab(rows, "overdue")|
    ensures r.returned == |FilterByTab(rows, "returned")|
    ensures r.active + r.overdue + r.returned <= r.all
  {
    CountExclusive(rows, StatusIs("active"), StatusIs("overdue"), StatusIs("returned"));
    ListCounts(|rows|, Count(rows, StatusIs("active")), Count(rows, StatusIs("overdue")),
               Count(rows, StatusIs("returned")))
  }

  datatype RowAction = ApproveReturn | SendReminder | NoRowAction

  /** The button under a row of the admin list. */
  function ActionFor(status: string): (r: RowAction)
    ensures r == ApproveReturn <==> status == "active"
    ensures r == SendReminder <==> status == "overdue"
  {
    if status == "active" then ApproveReturn
    else if status == "overdue" then SendReminder
    else NoRowAction
  }

  /** The user's list: the number of 'active' rows and the total. */
  function MyCounts(rows: seq<ListedBorrowing>): (r: (nat, nat))
    ensures r.0 == |FilterByTab(rows, "active")| && r.1 == |FilterByTab(rows, "all")|
    ensures r.0 <= r.1
  {
    (Count(rows, StatusIs("active")), |rows|)
  }

  // ---- Dashboards ----

  datatype AdminFigures = AdminFigures(
    totalItems: nat, totalStock: int, availableStock: int, borrowedStock: int,
    activeBorrowings: nat, overdueBorrowings: nat)

  /** The admin dashboard's figures, summed with `reduce` over the item list. */
  function AdminDashboard(items: seq<Item>, rows: seq<ListedBorrowing>): (r: AdminFigures)
    ensures r.totalItems == |items|
    ensures r.totalStock == Sum(items, StatsController.ItemTotal)
    ensures r.availableStock == Sum(items, StatsController.ItemAvailable)
    ensures r.borrowedStock == r.totalStock - r.availableStock
    ensures r.activeBorrowings == |FilterByTab(rows, "active")|
    ensures r.overdueBorrowings == |FilterByTab(rows, "overdue")|
  {
    StatsController.SumLent(items);
    AdminFigures(|items|, Sum(items, StatsController.ItemTotal), Sum(items, StatsController.ItemAvailable),
                 Sum(items, StatsController.ItemLent),
                 Count(rows, StatusIs("active")), Count(rows, StatusIs("overdue")))
  }

  /** The dashboard and the server compute the same stock figures from the same items. */
  lemma AdminDashboardAgreesWithServer(items: seq<Item>, rows: seq<ListedBorrowing>, borrowings: seq<Borrowing>)
    ensures var client, server := AdminDashboard(items, rows), StatsController.AdminDashboardStats(items, borrowings);
      && client.totalItems == server.totalItems && client.totalStock == server.totalStock
      && client.availableStock == server.availableStock && client.borrowedStock == server.borrowedStock
  {
  }

  /** The label under a recent activity. */
  function ActivityLabel(status: string): (r: string)
    ensures status == "active" ==> r == "Sedang dipinjam"
    ensures status == "overdue" ==> r == "Terlambat"
    ensures status != "active" && status != "overdue" ==> r == "Dikembalikan"
  {
    if status == "active" then "Sedang dipinjam"
    else if status == "overdue" then "Terlambat"
    else "Dikembalikan"
  }

  /** The dot beside a recent activity. */
  function ActivityDot(status: string): (r: string)
    ensures status == "active" ==> r == Primary
    ensures status == "overdue" ==> r == ErrorColor
    ensures status != "active" && status != "overdue" ==> r == Success
  {
    if status == "active" then Primary
    else if status == "overdue" then ErrorColor
    else Success
  }

  /** The admin dashboard's recent activity: the first three rows, each with its label. */
  function RecentActivity(rows: seq<ListedBorrowing>): (r: seq<(string, string)>)
    ensures |r| == Min(3, |rows|)
    ensures forall i :: 0 <= i < |r| ==> r[i] == (rows[i].itemName, ActivityLabel(rows[i].status))
  {
    var shown := Take(rows, 3);
    seq(|shown|, i requires 0 <= i < |shown| => (shown[i].itemName, ActivityLabel(shown[i].status)))
  }

  datatype HomeFigures = HomeFigures(totalItems: nat, available: nat, borrowed: int)

  /** The home screen's figures. */
  function HomeStats(items: seq<Item>): (r: HomeFigures)
    ensures r.totalItems == |items|
    ensures r.available == Count(items, StatsController.InStock()) <= |items|
    ensures r.borrowed == Sum(items, StatsController.ItemTotal) - Sum(items, StatsController.ItemAvailable)
  {
    StatsController.SumLent(items);
    HomeFigures(|items|, Count(items, StatsController.InStock()), Sum(items, StatsController.ItemLent))
  }

  /** The home screen's figures are the catalog part of the server's user dashboard. */
  lemma HomeAgreesWithServer(items: seq<Item>, borrowings: seq<Borrowing>, userId: Id)
    ensures var client, server := HomeStats(items), StatsController.UserDashboardStats(items, borrowings, userId);
      && client.totalItems == server.totalItems && client.available == server.availableItems
      && client.borrowed == server.borrowedItems
  {
  }

  /** The home screen's featured items: the first four, or all when there are fewer. */
  function PopularItems(items: seq<Item>): (r: seq<Item>)
    ensures |r| == Min(4, |items|)
    ensures r == items[..|r|]
  {
    Take(items, 4)
  }
}
