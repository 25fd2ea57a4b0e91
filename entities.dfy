/** The records of the take-out back end and the in-memory store that stands
    for its database tables. Every mapper call of the services becomes a read
    or a write of one field of `Database`.

    Time is counted in whole numbers: a `LocalDateTime` is a number of minutes,
    a `LocalDate` a number of days, and day `d` covers the minutes
    `d * MINUTES_PER_DAY` up to, but not including, `(d + 1) * MINUTES_PER_DAY`. */
module Entities {
  import opened Common

  const MINUTES_PER_DAY: int := 1440

  /** `StatusConstant.ENABLE` (on sale) and `StatusConstant.DISABLE` (off sale).
      Dish and setmeal statuses are plain integers in the source, so any other
      value can be stored as well. */
  const ENABLE: int := 1
  const DISABLE: int := 0

  /** The order states of `Orders`. */
  datatype OrderStatus =
    | PendingPayment
    | ToBeConfirmed
    | Confirmed
    | DeliveryInProgress
    | Completed
    | Cancelled

  /** A row of the `orders` table, restricted to the columns the scheduled
      tasks and the order statistics read or write. */
  datatype Order = Order(
    id: int,
    userId: int,
    status: OrderStatus,
    orderTime: int,
    cancelReason: Option<string>,
    cancelTime: Option<int>)

  /** A row of the `user` table; only its creation time is counted. */
  datatype User = User(id: int, createTime: int)

  /** A row of the `dish` table; `price` is in the smallest currency unit. */
  datatype Dish = Dish(
    id: int,
    name: string,
    categoryId: int,
    price: int,
    image: string,
    description: string,
    status: int)

  /** A row of the `dish_flavor` table. */
  datatype DishFlavor = DishFlavor(dishId: int, name: string, value: string)

  /** A row of the `setmeal` table (a combo meal). */
  datatype Setmeal = Setmeal(
    id: int,
    categoryId: int,
    name: string,
    price: int,
    status: int,
    description: string,
    image: string)

  /** A row of the `setmeal_dish` table: one dish of a setmeal. */
  datatype SetmealDish = SetmealDish(setmealId: int, dishId: int, name: string, price: int, copies: int)

  /** A row of the `shopping_cart` table. The item is named by `dishId` (with an
      optional `dishFlavor`) or by `setmealId`; `name`, `image` and `amount`
      are copied from the catalog when the line is inserted. */
  datatype CartLine = CartLine(
    userId: int,
    dishId: Option<int>,
    setmealId: Option<int>,
    dishFlavor: Option<string>,
    name: string,
    image: string,
    amount: int,
    number: int,
    createTime: int)

  /** Columns the services select, update or delete by. */
  function OrderKey(o: Order): int { o.id }
  function DishKey(d: Dish): int { d.id }
  function FlavorDish(f: DishFlavor): int { f.dishId }
  function SetmealKey(s: Setmeal): int { s.id }
  function LinkSetmeal(l: SetmealDish): int { l.setmealId }
  function LineUser(c: CartLine): int { c.userId }

  /** The exceptions the services throw: `DeletionNotAllowedException` and
      `SetmealEnableFailedException` with their `MessageConstant`, and the
      `NullPointerException` a missing row leads to. */
  datatype Failure =
    | DishOnSale
    | DishBeRelatedBySetmeal
    | SetmealOnSale
    | SetmealEnableFailed
    | NullPointer

  /** How a `void` service method ends: normally, or by throwing. */
  datatype Outcome = Pass | Fail(error: Failure)

  /** `dishMapper.getById`: the dish with that id, or null. */
  function FindDish(dishes: seq<Dish>, id: int): (r: Option<Dish>)
    ensures r.Some? ==> r.value in dishes && r.value.id == id
    ensures r.None? ==> forall d :: d in dishes ==> d.id != id
  {
    if dishes == [] then None
    else if dishes[0].id == id then Some(dishes[0])
    else FindDish(dishes[1..], id)
  }

  /** `setmealMapper.getById`: the setmeal with that id, or null. */
  function FindSetmeal(setmeals: seq<Setmeal>, id: int): (r: Option<Setmeal>)
    ensures r.Some? ==> r.value in setmeals && r.value.id == id
    ensures r.None? ==> forall s :: s in setmeals ==> s.id != id
  {
    if setmeals == [] then None
    else if setmeals[0].id == id then Some(setmeals[0])
    else FindSetmeal(setmeals[1..], id)
  }

  /** Looking up the key of a dish appended to a table that does not hold
      that key finds the appended dish. */
  lemma {:induction false} FindDishAppended(dishes: seq<Dish>, d: Dish)
    requires forall x :: x in dishes ==> x.id != d.id
    ensures FindDish(dishes + [d], d.id) == Some(d)
  {
    if dishes != [] {
      assert (dishes + [d])[1..] == dishes[1..] + [d];
      FindDishAppended(dishes[1..], d);
    }
  }

  /** Looking up the key of a setmeal appended to a table that does not hold
      that key finds the appended setmeal. */
  lemma {:induction false} FindSetmealAppended(setmeals: seq<Setmeal>, s: Setmeal)
    requires forall x :: x in setmeals ==> x.id != s.id
    ensures FindSetmeal(setmeals + [s], s.id) == Some(s)
  {
    if setmeals != [] {
      assert (setmeals + [s])[1..] == setmeals[1..] + [s];
      FindSetmealAppended(setmeals[1..], s);
    }
  }

  /** The database: one field per table, plus the next value of the
      auto-increment keys of `dish` and `setmeal`. */
  class Database {
    var orders: seq<Order>
    var users: seq<User>
    var dishes: seq<Dish>
    var flavors: seq<DishFlavor>
    var setmeals: seq<Setmeal>
    var setmealDishes: seq<SetmealDish>
    var cart: seq<CartLine>
    var nextDishId: int
    var nextSetmealId: int

    constructor ()
      ensures orders == [] && users == [] && dishes == [] && flavors == []
      ensures setmeals == [] && setmealDishes == [] && cart == []
      ensures nextDishId == 1 && nextSetmealId == 1
      ensures OrderIdsUnique() && CatalogKeysValid()
    {
      orders, users, dishes, flavors := [], [], [], [];
      setmeals, setmealDishes, cart := [], [], [];
      nextDishId, nextSetmealId := 1, 1;
    }

    /** `id` is the primary key of `orders`. */
    predicate OrderIdsUnique()
      reads this
    {
      KeysDistinct(orders, OrderKey)
    }

    /** `id` is the primary key of `dish` and of `setmeal`, and each table's
        auto-increment counter lies above every key the table holds, so the
        next insert draws a fresh key. */
    predicate CatalogKeysValid()
      reads this
    {
      && KeysDistinct(dishes, DishKey) && (forall d :: d in dishes ==> d.id < nextDishId)
      && KeysDistinct(setmeals, SetmealKey) && (forall s :: s in setmeals ==> s.id < nextSetmealId)
    }
  }
}
