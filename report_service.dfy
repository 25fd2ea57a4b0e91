/** `ReportServiceImpl`: the day list of a report and the per-day order and
    user counts with their totals. Day `d` runs from minute `DayStart(d)`
    (`LocalTime.MIN`) up to, but not including, `DayStart(d + 1)`; at the
    granularity of minutes that is the source's `LocalTime.MAX` bound. */
module ReportService {
  import opened Common
  import opened Entities

  /** The first minute of day `d`. */
  function DayStart(d: int): int
  {
    d * MINUTES_PER_DAY
  }

  /** The condition of `orderMapper.countByMap`: placed from the start of day
      `first` to the end of day `last`, and completed when `completedOnly`
      (the `status` entry of the map). */
  predicate Counted(o: Order, first: int, last: int, completedOnly: bool)
  {
    && DayStart(first) <= o.orderTime < DayStart(last + 1)
    && (completedOnly ==> o.status == Completed)
  }

  /** `orderMapper.countByMap`: `select count(id)` over the orders that meet
      the condition; it is zero exactly when no order meets it. */
  function CountOrders(orders: seq<Order>, first: int, last: int, completedOnly: bool): (r: nat)
    ensures r <= |orders|
    ensures r == 0 <==> forall o :: o in orders ==> !Counted(o, first, last, completedOnly)
  {
    var counted := Filter(orders, (o: Order) => Counted(o, first, last, completedOnly));
    assert |counted| > 0 ==> counted[0] in counted;
    |counted|
  }

  /** The condition of `userMapper.countByMap`: created before the end of day
      `last` and, when `first` is given, from the start of day `first` on. */
  predicate Registered(u: User, first: Option<int>, last: int)
  {
    && (first.Some? ==> DayStart(first.value) <= u.createTime)
    && u.createTime < DayStart(last + 1)
  }

  /** `userMapper.countByMap`: `select count(id)` over the users that meet
      the condition; it is zero exactly when no user meets it. */
  function CountUsers(users: seq<User>, first: Option<int>, last: int): (r: nat)
    ensures r <= |users|
    ensures r == 0 <==> forall u :: u in users ==> !Registered(u, first, last)
  {
    var registered := Filter(users, (u: User) => Registered(u, first, last));
    assert |registered| > 0 ==> registered[0] in registered;
    |registered|
  }

  /** `OrderReportVO` before its lists are joined into strings. */
  datatype OrderReport = OrderReport(
    dateList: seq<int>,
    orderCountList: seq<int>,
    validOrderCountList: seq<int>,
    totalOrderCount: int,
    validOrderCount: int,
    orderCompletionRate: real)

  /** `UserReportVO` before its lists are joined into strings. */
  datatype UserReport = UserReport(dateList: seq<int>, totalUserList: seq<int>, newUserList: seq<int>)

  /** `getLocalDateList`: every day from `begin` to `end`, both included, in
      order. The loop only stops on reaching `end`, so `begin` must not be
      after it. */
  method GetLocalDateList(begin: int, end: int) returns (dateList: seq<int>)
    requires begin <= end
    ensures |dateList| == end - begin + 1
    ensures dateList[0] == begin && dateList[|dateList| - 1] == end
    ensures forall i :: 0 <= i < |dateList| ==> dateList[i] == begin + i
    ensures forall i :: 0 < i < |dateList| ==> dateList[i] == dateList[i - 1] + 1
  {
    var day := begin;
    dateList := [day];
    while day != end
      invariant begin <= day <= end
      invariant |dateList| == day - begin + 1
      invariant forall i :: 0 <= i < |dateList| ==> dateList[i] == begin + i
      decreases end - day
    {
      day := day + 1;
      dateList := dateList + [day];
    }
  }

  /** The daily counts of a range of days add up to the count over the whole
      range: no order is counted on two days and none is lost between them. */
  lemma {:induction false} DailyOrderCountsSum(orders: seq<Order>, begin: int, end: int, completedOnly: bool)
    requires begin <= end + 1
    ensures Sum(seq(end - begin + 1, i => CountOrders(orders, begin + i, begin + i, completedOnly)))
            == CountOrders(orders, begin, end, completedOnly)
    decreases end - begin
  {
    var xs := seq(end - begin + 1, i => CountOrders(orders, begin + i, begin + i, completedOnly));
    if begin == end + 1 {
      FilterKeepsNone(orders, (o: Order) => Counted(o, begin, end, completedOnly));
    } else {
      var ys := seq(end - begin, i => CountOrders(orders, begin + 1 + i, begin + 1 + i, completedOnly));
      assert xs[1..] == ys;
      assert Sum(xs) == CountOrders(orders, begin, begin, completedOnly) + Sum(ys);
      DailyOrderCountsSum(orders, begin + 1, end, completedOnly);
      FilterLengthSplit(orders,
        (o: Order) => Counted(o, begin, end, completedOnly),
        (o: Order) => Counted(o, begin, begin, completedOnly),
        (o: Order) => Counted(o, begin + 1, end, completedOnly));
    }
  }

  /** A completed order is an order: the valid count never exceeds the count. */
  lemma ValidAtMostAll(orders: seq<Order>, first: int, last: int)
    ensures CountOrders(orders, first, last, true) <= CountOrders(orders, first, last, false)
  {
    FilterLengthMonotone(orders,
      (o: Order) => Counted(o, first, last, true),
      (o: Order) => Counted(o, first, last, false));
  }

  /** The order completion rate: 0 when there are no orders, otherwise the
      share of valid orders, which lies between 0 and 1. */
  function CompletionRate(valid: int, total: int): (r: real)
    ensures total <= 0 ==> r == 0.0
    ensures 0 <= valid <= total && total > 0 ==> 0.0 <= r <= 1.0 && r * total as real == valid as real
  {
    if total > 0 then valid as real / total as real else 0.0
  }

  /** `getOrdersStatistics`: one order count and one valid (completed) order
      count per day of the range, their totals, and the completion rate. */
  method GetOrdersStatistics(db: Database, begin: int, end: int) returns (report: OrderReport)
    requires begin <= end
    ensures |report.dateList| == end - begin + 1
    ensures forall i :: 0 <= i < |report.dateList| ==> report.dateList[i] == begin + i
    ensures |report.orderCountList| == |report.validOrderCountList| == |report.dateList|
    ensures forall i :: 0 <= i < |report.dateList| ==>
      && report.orderCountList[i] == CountOrders(db.orders, begin + i, begin + i, false)
      && report.validOrderCountList[i] == CountOrders(db.orders, begin + i, begin + i, true)
    ensures report.totalOrderCount == Sum(report.orderCountList)
    ensures report.validOrderCount == Sum(report.validOrderCountList)
    ensures report.totalOrderCount == CountOrders(db.orders, begin, end, false)
    ensures report.validOrderCount == CountOrders(db.orders, begin, end, true)
    ensures 0 <= report.validOrderCount <= report.totalOrderCount
    ensures report.orderCompletionRate == CompletionRate(report.validOrderCount, report.totalOrderCount)
    ensures 0.0 <= report.orderCompletionRate <= 1.0
  {
    var orders := db.orders;
    var dateList := GetLocalDateList(begin, end);
    var orderCountList := [];
    var validOrderCountList := [];
    for i := 0 to |dateList|
      invariant |orderCountList| == |validOrderCountList| == i
      invariant forall j :: 0 <= j < i ==> orderCountList[j] == CountOrders(orders, begin + j, begin + j, false)
      invariant forall j :: 0 <= j < i ==> validOrderCountList[j] == CountOrders(orders, begin + j, begin + j, true)
    {
      var date := dateList[i];
      var orderCount := CountOrders(orders, date, date, false);
      var validOrderCount := CountOrders(orders, date, date, true);
      orderCountList := orderCountList + [orderCount];
      validOrderCountList := validOrderCountList + [validOrderCount];
    }
    var totalOrders := ReduceSum(orderCountList);
    var totalValid := ReduceSum(validOrderCountList);
    assert orderCountList == seq(end - begin + 1, i => CountOrders(orders, begin + i, begin + i, false));
    assert validOrderCountList == seq(end - begin + 1, i => CountOrders(orders, begin + i, begin + i, true));
    DailyOrderCountsSum(orders, begin, end, false);
    DailyOrderCountsSum(orders, begin, end, true);
    ValidAtMostAll(orders, begin, end);
    var total := totalOrders.value;
    var valid := totalValid.value;
    var rate := 0.0;
    if total > 0 {
      rate := valid as real / total as real;
    }
    report := OrderReport(dateList, orderCountList, validOrderCountList, total, valid, rate);
  }

  /** The users registered by the end of a day are those registered by the end
      of the day before plus those new on that day. */
  lemma RunningUserTotal(users: seq<User>, day: int)
    ensures CountUsers(users, None, day) == CountUsers(users, None, day - 1) + CountUsers(users, Some(day), day)
  {
    FilterLengthSplit(users,
      (u: User) => Registered(u, None, day),
      (u: User) => Registered(u, None, day - 1),
      (u: User) => Registered(u, Some(day), day));
  }

  /** `getUserStatistics`: per day of the range, the users registered by the
      end of that day and the users registered on it. */
  method GetUserStatistics(db: Database, begin: int, end: int) returns (report: UserReport)
    requires begin <= end
    ensures |report.dateList| == end - begin + 1
    ensures forall i :: 0 <= i < |report.dateList| ==> report.dateList[i] == begin + i
    ensures |report.totalUserList| == |report.newUserList| == |report.dateList|
    ensures forall i :: 0 <= i < |report.dateList| ==>
      && report.totalUserList[i] == CountUsers(db.users, None, begin + i)
      && report.newUserList[i] == CountUsers(db.users, Some(begin + i), begin + i)
    ensures forall i :: 0 <= i < |report.dateList| ==> 0 <= report.newUserList[i] <= report.totalUserList[i]
    ensures forall i :: 0 < i < |report.dateList| ==>
      report.totalUserList[i] == report.totalUserList[i - 1] + report.newUserList[i]
  {
    var users := db.users;
    var dateList := GetLocalDateList(begin, end);
    var totalUserList := [];
    var newUserList := [];
    for i := 0 to |dateList|
      invariant |totalUserList| == |newUserList| == i
      invariant forall j :: 0 <= j < i ==> totalUserList[j] == CountUsers(users, None, begin + j)
      invariant forall j :: 0 <= j < i ==> newUserList[j] == CountUsers(users, Some(begin + j), begin + j)
      invariant forall j :: 0 <= j < i ==> newUserList[j] <= totalUserList[j]
      invariant forall j :: 0 < j < i ==> totalUserList[j] == totalUserList[j - 1] + newUserList[j]
    {
      var date := dateList[i];
      var totalUser := CountUsers(users, None, date);
      var newUser := CountUsers(users, Some(date), date);
      RunningUserTotal(users, date);
      totalUserList := totalUserList + [totalUser];
      newUserList := newUserList + [newUser];
    }
    report := UserReport(dateList, totalUserList, newUserList);
  }
}
