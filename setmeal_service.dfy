/** `SetmealServiceImpl`: creating and editing setmeals (combo meals) together
    with their setmeal-dish rows, the guarded batch delete, and switching a
    setmeal on or off sale. */
module SetmealService {
  import opened Common
  import opened Entities
  import DishService

  /** What the client sends to create or edit a setmeal (`SetmealDTO`); a null
      list of setmeal dishes is `None`. */
  datatype SetmealDto = SetmealDto(
    id: int,
    categoryId: int,
    name: string,
    price: int,
    status: int,
    description: string,
    image: string,
    setmealDishes: Option<seq<SetmealDish>>)

  /** The setmeal row built from the client's fields and the key `id`. */
  function SetmealOf(dto: SetmealDto, id: int): Setmeal
  {
    Setmeal(id, dto.categoryId, dto.name, dto.price, dto.status, dto.description, dto.image)
  }

  /** A list of setmeal-dish rows with `setmealId` written into every row. */
  function WithSetmealId(links: seq<SetmealDish>, setmealId: int): seq<SetmealDish>
  {
    seq(|links|, i requires 0 <= i < |links| => links[i].(setmealId := setmealId))
  }

  /** `setmealDishes.forEach(setmealDish -> setmealDish.setSetmealId(setmealId))`. */
  method StampSetmealId(links: seq<SetmealDish>, setmealId: int) returns (r: seq<SetmealDish>)
    ensures |r| == |links|
    ensures forall i :: 0 <= i < |r| ==> r[i].setmealId == setmealId && r[i] == links[i].(setmealId := r[i].setmealId)
  {
    r := [];
    for i := 0 to |links|
      invariant |r| == i
      invariant forall k :: 0 <= k < i ==> r[k].setmealId == setmealId && r[k] == links[k].(setmealId := r[k].setmealId)
    {
      r := r + [links[i].(setmealId := setmealId)];
    }
  }

  /** `saveWithDish`: inserts the setmeal under the next key and its
      setmeal-dish rows, each carrying that key. A null list throws after the
      insert; the transaction then undoes the insert, but the auto-increment
      key it drew stays used. */
  method SaveWithDish(db: Database, dto: SetmealDto) returns (r: Outcome)
    requires db.CatalogKeysValid()
    modifies db`setmeals, db`setmealDishes, db`nextSetmealId
    ensures db.CatalogKeysValid()
    ensures db.nextSetmealId == old(db.nextSetmealId) + 1
    ensures FindSetmeal(old(db.setmeals), old(db.nextSetmealId)).None?
    ensures r.Pass? ==> FindSetmeal(db.setmeals, old(db.nextSetmealId)) == Some(SetmealOf(dto, old(db.nextSetmealId)))
    ensures r.Pass? <==> dto.setmealDishes.Some?
    ensures r.Fail? ==> r.error == NullPointer
    ensures r.Pass? ==> db.setmeals == old(db.setmeals) + [SetmealOf(dto, old(db.nextSetmealId))]
    ensures r.Pass? ==> db.setmealDishes == old(db.setmealDishes) + WithSetmealId(dto.setmealDishes.value, old(db.nextSetmealId))
    ensures r.Fail? ==> db.setmeals == old(db.setmeals) && db.setmealDishes == old(db.setmealDishes)
  {
    var setmealId := db.nextSetmealId;
    db.nextSetmealId := db.nextSetmealId + 1;
    if dto.setmealDishes.None? {
      return Fail(NullPointer);
    }
    FindSetmealAppended(db.setmeals, SetmealOf(dto, setmealId));
    db.setmeals := db.setmeals + [SetmealOf(dto, setmealId)];
    var links := StampSetmealId(dto.setmealDishes.value, setmealId);
    assert links == WithSetmealId(dto.setmealDishes.value, setmealId);
    db.setmealDishes := db.setmealDishes + links;
    r := Pass;
  }

  /** The check of `deleteBatch`, id by id in the given order: a missing
      setmeal throws a null pointer exception, one on sale `SETMEAL_ON_SALE`. */
  function StatusCheck(setmeals: seq<Setmeal>, ids: seq<int>): Outcome
  {
    if ids == [] then Pass
    else match FindSetmeal(setmeals, ids[0])
      case None => Fail(NullPointer)
      case Some(s) => if s.status == ENABLE then Fail(SetmealOnSale) else StatusCheck(setmeals, ids[1..])
  }

  /** The check loop of `deleteBatch`. */
  method CheckNotOnSale(db: Database, ids: seq<int>) returns (r: Outcome)
    ensures r == StatusCheck(db.setmeals, ids)
  {
    var i := 0;
    while i < |ids|
      invariant 0 <= i <= |ids|
      invariant StatusCheck(db.setmeals, ids) == StatusCheck(db.setmeals, ids[i..])
    {
      assert ids[i..][1..] == ids[i + 1..];
      var setmeal := FindSetmeal(db.setmeals, ids[i]);
      if setmeal.None? {
        return Fail(NullPointer);
      }
      if setmeal.value.status == ENABLE {
        return Fail(SetmealOnSale);
      }
      i := i + 1;
    }
    return Pass;
  }

  /** `deleteBatch`: the whole check runs before any write; when it passes the
      setmeals and all their setmeal-dish rows are deleted. */
  method DeleteBatch(db: Database, ids: seq<int>) returns (r: Outcome)
    requires db.CatalogKeysValid()
    modifies db`setmeals, db`setmealDishes
    ensures db.CatalogKeysValid()
    ensures r == StatusCheck(old(db.setmeals), ids)
    ensures r.Pass? ==> db.setmeals == DeleteWhereIn(old(db.setmeals), SetmealKey, ids)
    ensures r.Pass? ==> db.setmealDishes == DeleteWhereIn(old(db.setmealDishes), LinkSetmeal, ids)
    ensures r.Fail? ==> db.setmeals == old(db.setmeals) && db.setmealDishes == old(db.setmealDishes)
  {
    r := CheckNotOnSale(db, ids);
    if r.Fail? {
      return;
    }
    DeleteWhereInKeepsKeys(db.setmeals, SetmealKey, ids);
    db.setmeals := DeleteWhereIn(db.setmeals, SetmealKey, ids);
    db.setmealDishes := DeleteWhereIn(db.setmealDishes, LinkSetmeal, ids);
  }

  /** The check of `deleteBatch` passes exactly when every id names a setmeal
      that is not on sale. */
  lemma {:induction false} StatusCheckPassIff(setmeals: seq<Setmeal>, ids: seq<int>)
    ensures StatusCheck(setmeals, ids) == Pass <==>
      forall id :: id in ids ==> FindSetmeal(setmeals, id).Some? && FindSetmeal(setmeals, id).value.status != ENABLE
  {
    if ids != [] {
      StatusCheckPassIff(setmeals, ids[1..]);
      assert forall id :: id in ids <==> id == ids[0] || id in ids[1..];
      var found := FindSetmeal(setmeals, ids[0]);
      if found.Some? && found.value.status != ENABLE {
        assert StatusCheck(setmeals, ids) == StatusCheck(setmeals, ids[1..]);
      } else {
        assert StatusCheck(setmeals, ids) != Pass;
        assert ids[0] in ids;
      }
    }
  }

  /** When every id names a setmeal and one of them is on sale, the check
      reports `SETMEAL_ON_SALE` and `deleteBatch` deletes nothing. */
  lemma {:induction false} StatusCheckOnSale(setmeals: seq<Setmeal>, ids: seq<int>)
    requires forall id :: id in ids ==> FindSetmeal(setmeals, id).Some?
    requires exists id :: id in ids && FindSetmeal(setmeals, id).value.status == ENABLE
    ensures StatusCheck(setmeals, ids) == Fail(SetmealOnSale)
  {
    assert ids != [];
    if FindSetmeal(setmeals, ids[0]).value.status != ENABLE {
      assert forall id :: id in ids <==> id == ids[0] || id in ids[1..];
      StatusCheckOnSale(setmeals, ids[1..]);
    }
  }

  /** A batch that names a missing setmeal before any setmeal on sale throws
      the null pointer exception; its position in the batch decides. */
  lemma {:induction false} StatusCheckMissingFirst(setmeals: seq<Setmeal>, ids: seq<int>, k: int)
    requires 0 <= k < |ids| && FindSetmeal(setmeals, ids[k]).None?
    requires forall i :: 0 <= i < k ==> FindSetmeal(setmeals, ids[i]).Some? && FindSetmeal(setmeals, ids[i]).value.status != ENABLE
    ensures StatusCheck(setmeals, ids) == Fail(NullPointer)
    decreases k
  {
    if k > 0 {
      StatusCheckMissingFirst(setmeals, ids[1..], k - 1);
    }
  }

  /** `update`: rewrites the setmeal, deletes its setmeal-dish rows and inserts
      the supplied ones, so that afterwards its rows are exactly the supplied
      list and every other setmeal keeps its rows. The method is not
      transactional: with a null list it throws after the rewrite and the
      delete, which stay done. */
  method Update(db: Database, dto: SetmealDto) returns (r: Outcome)
    requires db.CatalogKeysValid()
    modifies db`setmeals, db`setmealDishes
    ensures db.CatalogKeysValid()
    ensures r.Pass? <==> dto.setmealDishes.Some?
    ensures r.Fail? ==> r.error == NullPointer
    ensures db.setmeals == UpdateWhere(old(db.setmeals), SetmealKey, dto.id, (s: Setmeal) => SetmealOf(dto, dto.id))
    ensures r.Pass? ==>
      db.setmealDishes == DeleteWhereIn(old(db.setmealDishes), LinkSetmeal, [dto.id]) + WithSetmealId(dto.setmealDishes.value, dto.id)
    ensures r.Fail? ==> db.setmealDishes == DeleteWhereIn(old(db.setmealDishes), LinkSetmeal, [dto.id])
    ensures r.Pass? ==> SelectWhere(db.setmealDishes, LinkSetmeal, dto.id) == WithSetmealId(dto.setmealDishes.value, dto.id)
    ensures forall other :: other != dto.id ==>
      SelectWhere(db.setmealDishes, LinkSetmeal, other) == SelectWhere(old(db.setmealDishes), LinkSetmeal, other)
  {
    UpdateWhereKeepsOthers(db.setmeals, SetmealKey, dto.id, (s: Setmeal) => SetmealOf(dto, dto.id));
    db.setmeals := UpdateWhere(db.setmeals, SetmealKey, dto.id, (s: Setmeal) => SetmealOf(dto, dto.id));
    KeysBelowAfterRewrite(old(db.setmeals), db.setmeals, SetmealKey, db.nextSetmealId);
    var setmealId := dto.id;
    db.setmealDishes := DeleteWhereIn(db.setmealDishes, LinkSetmeal, [setmealId]);
    if dto.setmealDishes.None? {
      ReplaceWhere(old(db.setmealDishes), LinkSetmeal, setmealId, []);
      assert db.setmealDishes + [] == db.setmealDishes;
      return Fail(NullPointer);
    }
    var links := StampSetmealId(dto.setmealDishes.value, setmealId);
    assert links == WithSetmealId(dto.setmealDishes.value, setmealId);
    ReplaceWhere(old(db.setmealDishes), LinkSetmeal, setmealId, links);
    db.setmealDishes := db.setmealDishes + links;
    r := Pass;
  }

  /** `dishMapper.getBySetmealId`: the dishes that some setmeal-dish row of
      setmeal `id` names. */
  function DishesOfSetmeal(dishes: seq<Dish>, links: seq<SetmealDish>, id: int): (r: seq<Dish>)
    ensures forall d :: d in r <==> d in dishes && exists l :: l in links && l.setmealId == id && l.dishId == d.id
  {
    Filter(dishes, (d: Dish) => exists l :: l in links && l.setmealId == id && l.dishId == d.id)
  }

  /** The `forEach` check of `startOrStop`: whether a dish of the list is off sale. */
  method ContainsDisabledDish(dishList: seq<Dish>) returns (found: bool)
    ensures found <==> exists d :: d in dishList && d.status == DISABLE
  {
    for i := 0 to |dishList|
      invariant forall k :: 0 <= k < i ==> dishList[k].status != DISABLE
    {
      if dishList[i].status == DISABLE {
        return true;
      }
    }
    return false;
  }

  /** Whether enabling setmeal `id` is refused: one of its dishes is off sale. */
  predicate EnableBlocked(dishes: seq<Dish>, links: seq<SetmealDish>, id: int)
  {
    exists d :: d in DishesOfSetmeal(dishes, links, id) && d.status == DISABLE
  }

  /** `startOrStop`: enabling is refused with `SETMEAL_ENABLE_FAILED` while a
      dish of the setmeal is off sale, and then nothing changes; any other
      status is written without a check. On success only the status of setmeal
      `id` changes. */
  method StartOrStop(db: Database, status: int, id: int) returns (r: Outcome)
    requires db.CatalogKeysValid()
    modifies db`setmeals
    ensures db.CatalogKeysValid()
    ensures r.Fail? <==> status == ENABLE && EnableBlocked(db.dishes, db.setmealDishes, id)
    ensures r.Fail? ==> r.error == SetmealEnableFailed && db.setmeals == old(db.setmeals)
    ensures r.Pass? ==> db.setmeals == UpdateWhere(old(db.setmeals), SetmealKey, id, (s: Setmeal) => s.(status := status))
    ensures r.Pass? ==> forall i :: 0 <= i < |db.setmeals| ==>
      && db.setmeals[i] == old(db.setmeals)[i].(status := db.setmeals[i].status)
      && db.setmeals[i].status == if old(db.setmeals)[i].id == id then status else old(db.setmeals)[i].status
  {
    if status == ENABLE {
      var dishList := DishesOfSetmeal(db.dishes, db.setmealDishes, id);
      if |dishList| > 0 {
        var blocked := ContainsDisabledDish(dishList);
        if blocked {
          return Fail(SetmealEnableFailed);
        }
      }
    }
    UpdateWhereKeepsOthers(db.setmeals, SetmealKey, id, (s: Setmeal) => s.(status := status));
    db.setmeals := UpdateWhere(db.setmeals, SetmealKey, id, (s: Setmeal) => s.(status := status));
    KeysBelowAfterRewrite(old(db.setmeals), db.setmeals, SetmealKey, db.nextSetmealId);
    r := Pass;
  }

  /** Enabling is refused exactly when some setmeal-dish row of the setmeal
      names a dish that is off sale; a setmeal without dishes can always be
      enabled. */
  lemma EnableBlockedIff(dishes: seq<Dish>, links: seq<SetmealDish>, id: int)
    ensures EnableBlocked(dishes, links, id) <==>
      exists l, d :: l in links && d in dishes && l.setmealId == id && l.dishId == d.id && d.status == DISABLE
    ensures (forall l :: l in links ==> l.setmealId != id) ==> !EnableBlocked(dishes, links, id)
  {
    if exists l, d :: l in links && d in dishes && l.setmealId == id && l.dishId == d.id && d.status == DISABLE {
      var l, d :| l in links && d in dishes && l.setmealId == id && l.dishId == d.id && d.status == DISABLE;
      assert d in DishesOfSetmeal(dishes, links, id);
    }
  }

  /** Putting the one off-sale dish of a setmeal back on sale (`updateStatus`
      of the dish service) lets the setmeal be enabled. */
  lemma EnableAfterDishEnabled(dishes: seq<Dish>, links: seq<SetmealDish>, id: int, dishId: int)
    requires forall d :: d in DishesOfSetmeal(dishes, links, id) && d.status == DISABLE ==> d.id == dishId
    ensures !EnableBlocked(DishService.WithDishStatus(dishes, dishId, ENABLE), links, id)
  {
    var after := DishService.WithDishStatus(dishes, dishId, ENABLE);
    forall d | d in DishesOfSetmeal(after, links, id)
      ensures d.status != DISABLE
    {
      var i :| 0 <= i < |after| && after[i] == d;
      if dishes[i].id != dishId {
        assert dishes[i] in DishesOfSetmeal(dishes, links, id);
      }
    }
  }
}
