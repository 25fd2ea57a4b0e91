/** `DishServiceImpl`: creating and editing dishes together with their
    flavors, the guarded batch delete, switching a dish on or off sale, and the
    per-category listing. */
module DishService {
  import opened Common
  import opened Entities

  /** What the client sends to create or edit a dish (`DishDTO`); a null flavor
      list is `None`. */
  datatype DishDto = DishDto(
    id: int,
    name: string,
    categoryId: int,
    price: int,
    image: string,
    description: string,
    status: int,
    flavors: Option<seq<DishFlavor>>)

  /** The dish row built from the client's fields and the key `id`. */
  function DishOf(dto: DishDto, id: int): Dish
  {
    Dish(id, dto.name, dto.categoryId, dto.price, dto.image, dto.description, dto.status)
  }

  /** The flavors that get inserted: the client's list when it is non-null and
      non-empty, nothing otherwise. */
  function SuppliedFlavors(dto: DishDto): seq<DishFlavor>
  {
    if dto.flavors.Some? && |dto.flavors.value| > 0 then dto.flavors.value else []
  }

  /** A flavor list with `dishId` written into every flavor. */
  function WithDishId(fs: seq<DishFlavor>, dishId: int): seq<DishFlavor>
  {
    seq(|fs|, i requires 0 <= i < |fs| => fs[i].(dishId := dishId))
  }

  /** `setMealDishMapper.getSetMealIdsByDishId`: the setmeal-dish rows that
      name one of the dishes, whatever the status of their setmeal. */
  function LinksOfDishes(links: seq<SetmealDish>, ids: seq<int>): (r: seq<SetmealDish>)
    ensures forall l :: l in r <==> l in links && l.dishId in ids
  {
    Filter(links, (l: SetmealDish) => l.dishId in ids)
  }

  /** The first check of `deleteBatch`, id by id in the given order: a missing
      dish throws a null pointer exception, a dish on sale `DISH_ON_SALE`. */
  function StatusCheck(dishes: seq<Dish>, ids: seq<int>): Outcome
  {
    if ids == [] then Pass
    else match FindDish(dishes, ids[0])
      case None => Fail(NullPointer)
      case Some(d) => if d.status == ENABLE then Fail(DishOnSale) else StatusCheck(dishes, ids[1..])
  }

  /** Both checks of `deleteBatch`, in their order. */
  function DeleteCheck(dishes: seq<Dish>, links: seq<SetmealDish>, ids: seq<int>): Outcome
  {
    var c := StatusCheck(dishes, ids);
    if c.Fail? then c
    else if |LinksOfDishes(links, ids)| > 0 then Fail(DishBeRelatedBySetmeal)
    else Pass
  }

  /** `flavors.forEach(flavor -> flavor.setDishId(dishId))`. */
  method StampDishId(flavors: seq<DishFlavor>, dishId: int) returns (r: seq<DishFlavor>)
    ensures |r| == |flavors|
    ensures forall i :: 0 <= i < |r| ==>
      r[i].dishId == dishId && r[i].name == flavors[i].name && r[i].value == flavors[i].value
  {
    r := [];
    for i := 0 to |flavors|
      invariant |r| == i
      invariant forall k :: 0 <= k < i ==>
        r[k].dishId == dishId && r[k].name == flavors[k].name && r[k].value == flavors[k].value
    {
      r := r + [flavors[i].(dishId := dishId)];
    }
  }

  /** `saveWithFlavor`: inserts the dish under the next key and its flavors,
      each carrying that key; returns the key. */
  method SaveWithFlavor(db: Database, dto: DishDto) returns (dishId: int)
    requires db.CatalogKeysValid()
    modifies db`dishes, db`flavors, db`nextDishId
    ensures db.CatalogKeysValid()
    ensures dishId == old(db.nextDishId) && db.nextDishId == dishId + 1
    ensures FindDish(old(db.dishes), dishId).None?
    ensures FindDish(db.dishes, dishId) == Some(DishOf(dto, dishId))
    ensures db.dishes == old(db.dishes) + [DishOf(dto, dishId)]
    ensures db.flavors == old(db.flavors) + WithDishId(SuppliedFlavors(dto), dishId)
  {
    dishId := db.nextDishId;
    db.nextDishId := db.nextDishId + 1;
    FindDishAppended(db.dishes, DishOf(dto, dishId));
    db.dishes := db.dishes + [DishOf(dto, dishId)];
    if dto.flavors.Some? && |dto.flavors.value| > 0 {
      var flavors := StampDishId(dto.flavors.value, dishId);
      assert flavors == WithDishId(dto.flavors.value, dishId);
      db.flavors := db.flavors + flavors;
    }
  }

  /** The first loop of `deleteBatch`. */
  method CheckNotOnSale(db: Database, ids: seq<int>) returns (r: Outcome)
    ensures r == StatusCheck(db.dishes, ids)
  {
    var i := 0;
    while i < |ids|
      invariant 0 <= i <= |ids|
      invariant StatusCheck(db.dishes, ids) == StatusCheck(db.dishes, ids[i..])
    {
      assert ids[i..][1..] == ids[i + 1..];
      var dish := FindDish(db.dishes, ids[i]);
      if dish.None? {
        return Fail(NullPointer);
      }
      if dish.value.status == ENABLE {
        return Fail(DishOnSale);
      }
      i := i + 1;
    }
    return Pass;
  }

  /** `deleteBatch`: all checks first; only when they pass are the dishes and
      their flavors deleted. */
  method DeleteBatch(db: Database, ids: seq<int>) returns (r: Outcome)
    requires db.CatalogKeysValid()
    modifies db`dishes, db`flavors
    ensures db.CatalogKeysValid()
    ensures r == DeleteCheck(old(db.dishes), db.setmealDishes, ids)
    ensures r.Pass? ==> db.dishes == DeleteWhereIn(old(db.dishes), DishKey, ids)
    ensures r.Pass? ==> db.flavors == DeleteWhereIn(old(db.flavors), FlavorDish, ids)
    ensures r.Fail? ==> db.dishes == old(db.dishes) && db.flavors == old(db.flavors)
  {
    r := CheckNotOnSale(db, ids);
    if r.Fail? {
      return;
    }
    var setMealIds := LinksOfDishes(db.setmealDishes, ids);
    if |setMealIds| > 0 {
      return Fail(DishBeRelatedBySetmeal);
    }
    DeleteWhereInKeepsKeys(db.dishes, DishKey, ids);
    db.dishes := DeleteWhereIn(db.dishes, DishKey, ids);
    db.flavors := DeleteWhereIn(db.flavors, FlavorDish, ids);
  }

  /** `updateWithFlavor`: rewrites the dish, deletes its flavors and inserts the
      supplied ones. Afterwards the dish's flavors are exactly the supplied
      list and every other dish keeps its flavors. */
  method UpdateWithFlavor(db: Database, dto: DishDto)
    requires db.CatalogKeysValid()
    modifies db`dishes, db`flavors
    ensures db.CatalogKeysValid()
    ensures db.dishes == UpdateWhere(old(db.dishes), DishKey, dto.id, (d: Dish) => DishOf(dto, dto.id))
    ensures db.flavors == DeleteWhereIn(old(db.flavors), FlavorDish, [dto.id]) + WithDishId(SuppliedFlavors(dto), dto.id)
    ensures SelectWhere(db.flavors, FlavorDish, dto.id) == WithDishId(SuppliedFlavors(dto), dto.id)
    ensures forall other :: other != dto.id ==> SelectWhere(db.flavors, FlavorDish, other) == SelectWhere(old(db.flavors), FlavorDish, other)
  {
    UpdateWhereKeepsOthers(db.dishes, DishKey, dto.id, (d: Dish) => DishOf(dto, dto.id));
    db.dishes := UpdateWhere(db.dishes, DishKey, dto.id, (d: Dish) => DishOf(dto, dto.id));
    KeysBelowAfterRewrite(old(db.dishes), db.dishes, DishKey, db.nextDishId);
    db.flavors := DeleteWhereIn(db.flavors, FlavorDish, [dto.id]);
    if dto.flavors.Some? && |dto.flavors.value| > 0 {
      var flavors := StampDishId(dto.flavors.value, dto.id);
      assert flavors == WithDishId(dto.flavors.value, dto.id);
      db.flavors := db.flavors + flavors;
    } else {
      assert db.flavors + [] == db.flavors;
    }
    ReplaceWhere(old(db.flavors), FlavorDish, dto.id, WithDishId(SuppliedFlavors(dto), dto.id));
  }

  /** The dish table with the status of dish `id` set; every other column and
      every other row stays as it was. */
  function WithDishStatus(dishes: seq<Dish>, id: int, status: int): (r: seq<Dish>)
    ensures |r| == |dishes|
    ensures forall i :: 0 <= i < |r| ==> r[i] == dishes[i].(status := r[i].status)
    ensures forall i :: 0 <= i < |r| ==> r[i].status == if dishes[i].id == id then status else dishes[i].status
  {
    UpdateWhere(dishes, DishKey, id, (d: Dish) => d.(status := status))
  }

  /** `updateStatus`: sets the status of dish `id` and nothing else; setmeals
      that contain the dish are not touched. */
  method UpdateStatus(db: Database, status: int, id: int)
    requires db.CatalogKeysValid()
    modifies db`dishes
    ensures db.CatalogKeysValid()
    ensures db.dishes == WithDishStatus(old(db.dishes), id, status)
  {
    db.dishes := WithDishStatus(db.dishes, id, status);
    KeysBelowAfterRewrite(old(db.dishes), db.dishes, DishKey, db.nextDishId);
  }

  /** `list(categoryId)`: the dishes of the category that are on sale. */
  function List(dishes: seq<Dish>, categoryId: int): (r: seq<Dish>)
    ensures forall d :: d in r <==> d in dishes && d.categoryId == categoryId && d.status == ENABLE
  {
    Filter(dishes, (d: Dish) => d.categoryId == categoryId && d.status == ENABLE)
  }

  /** The status check passes exactly when every id names a dish that is not on sale. */
  lemma {:induction false} StatusCheckPassIff(dishes: seq<Dish>, ids: seq<int>)
    ensures StatusCheck(dishes, ids) == Pass <==>
      forall id :: id in ids ==> FindDish(dishes, id).Some? && FindDish(dishes, id).value.status != ENABLE
  {
    if ids != [] {
      StatusCheckPassIff(dishes, ids[1..]);
      assert forall id :: id in ids <==> id == ids[0] || id in ids[1..];
      var found := FindDish(dishes, ids[0]);
      if found.Some? && found.value.status != ENABLE {
        assert StatusCheck(dishes, ids) == StatusCheck(dishes, ids[1..]);
      } else {
        assert StatusCheck(dishes, ids) != Pass;
        assert ids[0] in ids;
      }
    }
  }

  /** When every id names a dish and one of them is on sale, the status check
      reports `DISH_ON_SALE`. */
  lemma {:induction false} StatusCheckOnSale(dishes: seq<Dish>, ids: seq<int>)
    requires forall id :: id in ids ==> FindDish(dishes, id).Some?
    requires exists id :: id in ids && FindDish(dishes, id).value.status == ENABLE
    ensures StatusCheck(dishes, ids) == Fail(DishOnSale)
  {
    assert ids != [];
    if FindDish(dishes, ids[0]).value.status != ENABLE {
      assert forall id :: id in ids <==> id == ids[0] || id in ids[1..];
      StatusCheckOnSale(dishes, ids[1..]);
    }
  }

  /** `deleteBatch` checks sale status before setmeal references: a batch of
      existing dishes with one on sale fails with `DISH_ON_SALE` even when its
      dishes are also referenced by a setmeal. */
  lemma DeleteCheckOnSaleFirst(dishes: seq<Dish>, links: seq<SetmealDish>, ids: seq<int>)
    requires forall id :: id in ids ==> FindDish(dishes, id).Some?
    requires exists id :: id in ids && FindDish(dishes, id).value.status == ENABLE
    ensures DeleteCheck(dishes, links, ids) == Fail(DishOnSale)
  {
    StatusCheckOnSale(dishes, ids);
  }

  /** A batch of existing dishes that are off sale fails with
      `DISH_BE_RELATED_BY_SETMEAL` as soon as one setmeal-dish row names one of
      them; the status of that setmeal plays no part. */
  lemma DeleteCheckReferenced(dishes: seq<Dish>, links: seq<SetmealDish>, ids: seq<int>, l: SetmealDish)
    requires forall id :: id in ids ==> FindDish(dishes, id).Some? && FindDish(dishes, id).value.status != ENABLE
    requires l in links && l.dishId in ids
    ensures DeleteCheck(dishes, links, ids) == Fail(DishBeRelatedBySetmeal)
  {
    StatusCheckPassIff(dishes, ids);
    assert l in LinksOfDishes(links, ids);
  }

  /** `deleteBatch` deletes exactly when every id names an off-sale dish and no
      setmeal-dish row names any of them. */
  lemma DeleteCheckPassIff(dishes: seq<Dish>, links: seq<SetmealDish>, ids: seq<int>)
    ensures DeleteCheck(dishes, links, ids) == Pass <==>
      (forall id :: id in ids ==> FindDish(dishes, id).Some? && FindDish(dishes, id).value.status != ENABLE) &&
      (forall l :: l in links ==> l.dishId !in ids)
  {
    StatusCheckPassIff(dishes, ids);
    var refs := LinksOfDishes(links, ids);
    if |refs| > 0 {
      assert refs[0] in refs;
    }
  }
}
