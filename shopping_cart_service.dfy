/** `ShoppingCartServiceImpl`: a user's cart lines. Adding an item merges into
    an existing line, removing one takes a line down by one and deletes it at
    one, and a user's cart can be cleared and listed. The acting user and the
    clock are the parameters `userId` and `now`. */
module ShoppingCartService {
  import opened Common
  import opened Entities

  /** What the client sends (`ShoppingCartDTO`): the item, as nullable fields. */
  datatype CartItem = CartItem(dishId: Option<int>, setmealId: Option<int>, dishFlavor: Option<string>)

  /** The condition of `shoppingCartMapper.list` for the user and the item:
      the user id always, and each of the item's fields that is not null. */
  predicate Matches(line: CartLine, userId: int, item: CartItem)
  {
    && line.userId == userId
    && (item.dishId.Some? ==> line.dishId == item.dishId)
    && (item.setmealId.Some? ==> line.setmealId == item.setmealId)
    && (item.dishFlavor.Some? ==> line.dishFlavor == item.dishFlavor)
  }

  /** The position of `list.get(0)`: the first line that matches, if any. */
  function FirstMatch(cart: seq<CartLine>, userId: int, item: CartItem): (r: Option<nat>)
    ensures r.Some? ==> r.value < |cart| && Matches(cart[r.value], userId, item)
    ensures r.Some? ==> forall j :: 0 <= j < r.value ==> !Matches(cart[j], userId, item)
    ensures r.None? ==> forall j :: 0 <= j < |cart| ==> !Matches(cart[j], userId, item)
  {
    if cart == [] then None
    else if Matches(cart[0], userId, item) then Some(0)
    else match FirstMatch(cart[1..], userId, item)
      case None => None
      case Some(i) => Some(i + 1)
  }

  /** The line inserted for an item not yet in the cart, with the catalog's
      name, image and price copied in. */
  function NewLine(userId: int, item: CartItem, name: string, image: string, amount: int, now: int): CartLine
  {
    CartLine(userId, item.dishId, item.setmealId, item.dishFlavor, name, image, amount, 1, now)
  }

  /** Reference definition of `addShoppingCart`: the new cart, or the
      exception thrown when the dish or setmeal to copy from is missing
      (a null `setmealId` finds no setmeal either). */
  function Add(cart: seq<CartLine>, dishes: seq<Dish>, setmeals: seq<Setmeal>,
               userId: int, item: CartItem, now: int): Result<seq<CartLine>, Failure>
  {
    match FirstMatch(cart, userId, item)
    case Some(i) => Success(cart[i := cart[i].(number := cart[i].number + 1)])
    case None =>
      if item.dishId.Some? then
        match FindDish(dishes, item.dishId.value)
        case None => Failure(NullPointer)
        case Some(d) => Success(cart + [NewLine(userId, item, d.name, d.image, d.price, now)])
      else if item.setmealId.None? then Failure(NullPointer)
      else
        match FindSetmeal(setmeals, item.setmealId.value)
        case None => Failure(NullPointer)
        case Some(s) => Success(cart + [NewLine(userId, item, s.name, s.image, s.price, now)])
  }

  /** Reference definition of `subShoppingCart`. */
  function Sub(cart: seq<CartLine>, userId: int, item: CartItem): seq<CartLine>
  {
    match FirstMatch(cart, userId, item)
    case None => cart
    case Some(i) =>
      if cart[i].number == 1 then cart[..i] + cart[i + 1..]
      else cart[i := cart[i].(number := cart[i].number - 1)]
  }

  /** `addShoppingCart` for user `userId` at minute `now`. */
  method AddShoppingCart(db: Database, userId: int, item: CartItem, now: int) returns (r: Outcome)
    modifies db`cart
    ensures r.Pass? <==> Add(old(db.cart), db.dishes, db.setmeals, userId, item, now).Success?
    ensures r.Pass? ==> db.cart == Add(old(db.cart), db.dishes, db.setmeals, userId, item, now).value
    ensures r.Fail? ==> r.error == Add(old(db.cart), db.dishes, db.setmeals, userId, item, now).error
    ensures r.Fail? ==> db.cart == old(db.cart)
  {
    var found := FirstMatch(db.cart, userId, item);
    if found.Some? {
      var i := found.value;
      var line := db.cart[i];
      line := line.(number := line.number + 1);
      db.cart := db.cart[i := line];
      return Pass;
    }
    var name, image, amount;
    if item.dishId.Some? {
      var dish := FindDish(db.dishes, item.dishId.value);
      if dish.None? {
        return Fail(NullPointer);
      }
      name, image, amount := dish.value.name, dish.value.image, dish.value.price;
    } else {
      var setmeal := if item.setmealId.Some? then FindSetmeal(db.setmeals, item.setmealId.value) else None;
      if setmeal.None? {
        return Fail(NullPointer);
      }
      name, image, amount := setmeal.value.name, setmeal.value.image, setmeal.value.price;
    }
    db.cart := db.cart + [CartLine(userId, item.dishId, item.setmealId, item.dishFlavor, name, image, amount, 1, now)];
    r := Pass;
  }

  /** `subShoppingCart` for user `userId`. */
  method SubShoppingCart(db: Database, userId: int, item: CartItem)
    modifies db`cart
    ensures db.cart == Sub(old(db.cart), userId, item)
  {
    var found := FirstMatch(db.cart, userId, item);
    if found.Some? {
      var i := found.value;
      var line := db.cart[i];
      if line.number == 1 {
        db.cart := db.cart[..i] + db.cart[i + 1..];
      } else {
        line := line.(number := line.number - 1);
        db.cart := db.cart[i := line];
      }
    }
  }

  /** `cleanShoppingCart` for user `userId`: deletes the user's lines, and
      only those. */
  method CleanShoppingCart(db: Database, userId: int)
    modifies db`cart
    ensures db.cart == DeleteWhereIn(old(db.cart), LineUser, [userId])
    ensures SelectWhere(db.cart, LineUser, userId) == []
    ensures forall other :: other != userId ==> SelectWhere(db.cart, LineUser, other) == SelectWhere(old(db.cart), LineUser, other)
  {
    db.cart := DeleteWhereIn(db.cart, LineUser, [userId]);
    ReplaceWhere(old(db.cart), LineUser, userId, []);
    assert db.cart + [] == db.cart;
  }

  /** `showShoppingCart` for user `userId`: exactly the user's lines, in table order. */
  method ShowShoppingCart(db: Database, userId: int) returns (list: seq<CartLine>)
    ensures forall c :: c in list <==> c in db.cart && c.userId == userId
    ensures list == SelectWhere(db.cart, LineUser, userId)
  {
    list := SelectWhere(db.cart, LineUser, userId);
  }

  /** Two lines stand for the same item of the same user. */
  predicate SameItem(a: CartLine, b: CartLine)
  {
    a.userId == b.userId && a.dishId == b.dishId && a.setmealId == b.setmealId && a.dishFlavor == b.dishFlavor
  }

  /** The cart invariant: every line holds at least one unit, and no user has
      two lines for the same item. */
  predicate WellFormed(cart: seq<CartLine>)
  {
    && (forall i :: 0 <= i < |cart| ==> cart[i].number >= 1)
    && (forall i, j :: 0 <= i < j < |cart| ==> !SameItem(cart[i], cart[j]))
  }

  /** The number of units in a cart. */
  function TotalNumber(cart: seq<CartLine>): int
  {
    if cart == [] then 0 else cart[0].number + TotalNumber(cart[1..])
  }

  /** Adding an item the user already has raises the first matching line by
      exactly one unit and leaves its name, image, price and every other line
      as they were; no line is inserted. */
  lemma AddMergesIntoExistingLine(cart: seq<CartLine>, dishes: seq<Dish>, setmeals: seq<Setmeal>,
                                  userId: int, item: CartItem, now: int, i: nat)
    requires FirstMatch(cart, userId, item) == Some(i)
    ensures Add(cart, dishes, setmeals, userId, item, now).Success?
    ensures var c := Add(cart, dishes, setmeals, userId, item, now).value;
      && |c| == |cart|
      && c[i].number == cart[i].number + 1
      && c[i] == cart[i].(number := c[i].number)
      && forall j :: 0 <= j < |c| && j != i ==> c[j] == cart[j]
  {
  }

  /** Adding an item the user does not have appends one line with one unit
      whose name, image and price come from the dish when a dish id is given
      and from the setmeal otherwise; it fails, changing nothing, when that
      dish or setmeal is missing. */
  lemma AddInsertsNewLine(cart: seq<CartLine>, dishes: seq<Dish>, setmeals: seq<Setmeal>,
                          userId: int, item: CartItem, now: int)
    requires FirstMatch(cart, userId, item).None?
    ensures var r := Add(cart, dishes, setmeals, userId, item, now);
      r.Success? <==>
        if item.dishId.Some? then FindDish(dishes, item.dishId.value).Some?
        else item.setmealId.Some? && FindSetmeal(setmeals, item.setmealId.value).Some?
    ensures var r := Add(cart, dishes, setmeals, userId, item, now);
      r.Success? ==>
        && |r.value| == |cart| + 1
        && r.value[..|cart|] == cart
        && r.value[|cart|].number == 1
        && r.value[|cart|].userId == userId
        && r.value[|cart|].createTime == now
        && (item.dishId.Some? ==>
              var d := FindDish(dishes, item.dishId.value).value;
              r.value[|cart|].name == d.name && r.value[|cart|].image == d.image && r.value[|cart|].amount == d.price)
        && (item.dishId.None? ==>
              var s := FindSetmeal(setmeals, item.setmealId.value).value;
              r.value[|cart|].name == s.name && r.value[|cart|].image == s.image && r.value[|cart|].amount == s.price)
  {
    var r := Add(cart, dishes, setmeals, userId, item, now);
    if r.Success? {
      assert r.value[..|cart|] == cart;
    }
  }

  /** `addShoppingCart` keeps the cart invariant. */
  lemma AddKeepsWellFormed(cart: seq<CartLine>, dishes: seq<Dish>, setmeals: seq<Setmeal>,
                           userId: int, item: CartItem, now: int)
    requires WellFormed(cart)
    requires Add(cart, dishes, setmeals, userId, item, now).Success?
    ensures WellFormed(Add(cart, dishes, setmeals, userId, item, now).value)
  {
    var c := Add(cart, dishes, setmeals, userId, item, now).value;
    match FirstMatch(cart, userId, item)
    case Some(i) =>
      forall a, b | 0 <= a < b < |c|
        ensures !SameItem(c[a], c[b])
      {
        assert SameItem(c[a], c[b]) == SameItem(cart[a], cart[b]);
      }
    case None =>
      var line := c[|cart|];
      forall a | 0 <= a < |cart|
        ensures !SameItem(c[a], line)
      {
        assert c[a] == cart[a];
        assert !Matches(cart[a], userId, item);
      }
  }

  /** `subShoppingCart` keeps the cart invariant: a line is deleted at one
      unit, so every line left holds at least one. */
  lemma SubKeepsWellFormed(cart: seq<CartLine>, userId: int, item: CartItem)
    requires WellFormed(cart)
    ensures WellFormed(Sub(cart, userId, item))
  {
    var c := Sub(cart, userId, item);
    match FirstMatch(cart, userId, item)
    case None =>
    case Some(i) =>
      if cart[i].number == 1 {
        assert forall a :: 0 <= a < |c| ==> c[a] == cart[if a < i then a else a + 1];
      } else {
        forall a, b | 0 <= a < b < |c|
          ensures !SameItem(c[a], c[b])
        {
          assert SameItem(c[a], c[b]) == SameItem(cart[a], cart[b]);
        }
      }
  }

  /** Removing one unit of an item just added undoes the add. */
  lemma SubUndoesAdd(cart: seq<CartLine>, dishes: seq<Dish>, setmeals: seq<Setmeal>,
                     userId: int, item: CartItem, now: int)
    requires WellFormed(cart)
    requires Add(cart, dishes, setmeals, userId, item, now).Success?
    ensures Sub(Add(cart, dishes, setmeals, userId, item, now).value, userId, item) == cart
  {
    var c := Add(cart, dishes, setmeals, userId, item, now).value;
    match FirstMatch(cart, userId, item)
    case Some(i) =>
      assert forall j :: 0 <= j < |c| ==> (Matches(c[j], userId, item) <==> Matches(cart[j], userId, item));
      assert FirstMatch(c, userId, item) == Some(i);
      assert c[i].number != 1;
      assert c[i := c[i].(number := c[i].number - 1)] == cart;
    case None =>
      assert Matches(c[|cart|], userId, item);
      assert FirstMatch(c, userId, item) == Some(|cart|);
      assert c[..|cart|] + c[|cart| + 1..] == cart;
  }

  /** Adding the same new item twice leaves one line with two units, not two lines. */
  lemma AddTwiceMerges(cart: seq<CartLine>, dishes: seq<Dish>, setmeals: seq<Setmeal>,
                       userId: int, item: CartItem, now: int, later: int)
    requires FirstMatch(cart, userId, item).None?
    requires Add(cart, dishes, setmeals, userId, item, now).Success?
    ensures var once := Add(cart, dishes, setmeals, userId, item, now).value;
      && Add(once, dishes, setmeals, userId, item, later).Success?
      && Add(once, dishes, setmeals, userId, item, later).value == once[|cart| := once[|cart|].(number := 2)]
  {
    var once := Add(cart, dishes, setmeals, userId, item, now).value;
    assert Matches(once[|cart|], userId, item);
    assert forall j :: 0 <= j < |cart| ==> once[j] == cart[j];
    assert FirstMatch(once, userId, item) == Some(|cart|);
  }

  /** The number of units of a cart is additive over concatenation. */
  lemma {:induction false} TotalNumberConcat(a: seq<CartLine>, b: seq<CartLine>)
    ensures TotalNumber(a + b) == TotalNumber(a) + TotalNumber(b)
  {
    if a == [] {
      assert a + b == b;
    } else {
      assert (a + b)[1..] == a[1..] + b;
      TotalNumberConcat(a[1..], b);
    }
  }

  /** Every add raises the number of units in the cart by exactly one. */
  lemma AddAddsOneUnit(cart: seq<CartLine>, dishes: seq<Dish>, setmeals: seq<Setmeal>,
                       userId: int, item: CartItem, now: int)
    requires Add(cart, dishes, setmeals, userId, item, now).Success?
    ensures TotalNumber(Add(cart, dishes, setmeals, userId, item, now).value) == TotalNumber(cart) + 1
  {
    var c := Add(cart, dishes, setmeals, userId, item, now).value;
    match FirstMatch(cart, userId, item)
    case Some(i) =>
      assert cart == cart[..i] + [cart[i]] + cart[i + 1..];
      assert c == cart[..i] + [c[i]] + cart[i + 1..];
      TotalNumberConcat(cart[..i] + [cart[i]], cart[i + 1..]);
      TotalNumberConcat(cart[..i], [cart[i]]);
      TotalNumberConcat(cart[..i] + [c[i]], cart[i + 1..]);
      TotalNumberConcat(cart[..i], [c[i]]);
    case None =>
      TotalNumberConcat(cart, [c[|cart|]]);
  }

  /** A remove with a matching line lowers the number of units by exactly
      one; without one it changes nothing. */
  lemma SubRemovesOneUnit(cart: seq<CartLine>, userId: int, item: CartItem)
    ensures FirstMatch(cart, userId, item).None? ==> Sub(cart, userId, item) == cart
    ensures FirstMatch(cart, userId, item).Some? ==> TotalNumber(Sub(cart, userId, item)) == TotalNumber(cart) - 1
  {
    match FirstMatch(cart, userId, item)
    case None =>
    case Some(i) =>
      var c := Sub(cart, userId, item);
      assert cart == cart[..i] + [cart[i]] + cart[i + 1..];
      TotalNumberConcat(cart[..i] + [cart[i]], cart[i + 1..]);
      TotalNumberConcat(cart[..i], [cart[i]]);
      if cart[i].number == 1 {
        TotalNumberConcat(cart[..i], cart[i + 1..]);
      } else {
        assert c == cart[..i] + [c[i]] + cart[i + 1..];
        TotalNumberConcat(cart[..i] + [c[i]], cart[i + 1..]);
        TotalNumberConcat(cart[..i], [c[i]]);
      }
  }
}
