# sky-take-out back-end services in Dafny

This project models the business rules of the sky-take-out food-ordering back end. It covers five parts:

- the two scheduled order sweeps of `OrderTask`;
- the dish and setmeal (combo meal) catalog services;
- the shopping-cart service;
- the day list and the per-day counts of the report service.

Every database table is a `seq` field of one `Entities.Database` object. Every mapper call is a read or a write of such a field:

- A query is a filter over the table, in table order (`Common.SelectWhere`).
- A batch delete keeps the rows whose column is not in the given ids (`Common.DeleteWhereIn`).
- An update by id rewrites the rows that carry that id (`Common.UpdateWhere`).

Each service operation is a method over the database. Each method is proved against a function that defines the operation on values (`OrderTask.Sweep`, `ShoppingCartService.Add`, `DishService.DeleteCheck`, ...). Lemmas then state what the services promise about those functions.

Modelling conventions:

- **Time.** A `LocalDateTime` is a whole number of minutes and a `LocalDate` a whole number of days. Day `d` covers the minutes `d * 1440` up to `(d + 1) * 1440`, end excluded.
- **Clock and user.** The clock (`now`) and the current user (`userId`) are parameters.
- **Statuses.** Dish and setmeal statuses are integers with `ENABLE = 1` and `DISABLE = 0`. Order statuses are an enumeration.
- **Exceptions.** An exception is an `Outcome` of `Fail(...)`. That includes the `NullPointerException` that follows a `getById` that finds nothing.
- **Transactions.** A `@Transactional` method that throws leaves every table as it was. A non-transactional one keeps what it wrote before the throw.
- **Keys.** The auto-increment keys of `dish` and `setmeal` are the fields `nextDishId` and `nextSetmealId`. `Database.CatalogKeysValid` says that `id` is a key of both tables and that each counter lies above every key its table holds. Every method that writes `dish` or `setmeal` requires it and keeps it. `id` is likewise a key of `orders` (`Database.OrderIdsUnique`).
- **Mapper SQL.** It is not part of this model.
  - Queries are modelled after their names and the conditions the services pass in.
  - `getByStatusAndOrderTimeLT` compares strictly.
  - `countByMap` counts from the start of `begin`'s day to the end of `end`'s day.
  - The shopping-cart `list` query uses the user id and every non-null field of the item as conditions.

The order sweeps select orders placed strictly before `now` minus the window, as the mapper name `...OrderTimeLT` says. The model follows this strict comparison.

The cart query ignores null item fields. As a result, adding a dish with a null flavor increments the first line of that dish, whatever that line's flavor. `ShoppingCartService.FirstMatch` states exactly which line is chosen.

## Model

| member | source | states |
|---|---|---|
| OrderTask.SelectByStatusAndOrderTimeLT | sky-server/src/main/java/com/sky/task/OrderTask.java:26-27 | the candidate query returns exactly the orders with the given status placed strictly before the bound |
| OrderTask.ProcessTimeoutOrder | sky-server/src/main/java/com/sky/task/OrderTask.java:24-36 | writing each fetched pending-payment order back by id leaves the table equal to the timeout sweep of the old table, and ids stay unique |
| OrderTask.ProcessDeliveryOrder | sky-server/src/main/java/com/sky/task/OrderTask.java:42-52 | writing each fetched in-delivery order back by id leaves the table equal to the delivery sweep of the old table, and ids stay unique |
| OrderTask.SweepMatchesWriteBack | sky-server/src/main/java/com/sky/task/OrderTask.java:29-34 | once every fetched candidate has been updated by id, the table is the reference sweep |
| OrderTask.SweepChangesExactlySelected | sky-server/src/main/java/com/sky/task/OrderTask.java:27-35 | an order changes if and only if the sweep selects it, and a changed order leaves the selected status |
| OrderTask.TimeoutSweepCancels | sky-server/src/main/java/com/sky/task/OrderTask.java:29-33 | every selected unpaid order ends cancelled, with the timeout reason and cancel time `now`, and its other fields unchanged |
| OrderTask.DeliverySweepOnlySetsStatus | sky-server/src/main/java/com/sky/task/OrderTask.java:44-50 | the delivery sweep changes only the status, to completed, on exactly the in-delivery orders placed more than 60 minutes before `now` |
| OrderTask.SweepWithoutCandidates | sky-server/src/main/java/com/sky/task/OrderTask.java:27-28 | when the candidate query is empty the sweep leaves the table as it was |
| OrderTask.SweepIdempotent | sky-server/src/main/java/com/sky/task/OrderTask.java:27-33 | a second sweep at the same `now` changes nothing |
| OrderTask.SweepFollowsLifecycle | sky-server/src/main/java/com/sky/task/OrderTask.java:29-33 | an order stays as it is or moves pending-payment to cancelled (timeout) or in-delivery to completed (delivery); completed and cancelled orders are never touched |
| OrderTask.SweepKeepsCancelFieldsConsistent | sky-server/src/main/java/com/sky/task/OrderTask.java:30-32 | if cancel reason and cancel time are set exactly on cancelled orders before a sweep, they are after it |
| Entities.FindDish | sky-server/src/main/java/com/sky/service/impl/DishServiceImpl.java:97 | `getById` returns a dish of the table with that id, or nothing when no dish has it |
| Entities.FindSetmeal | sky-server/src/main/java/com/sky/service/impl/SetmealServiceImpl.java:85 | `getById` returns a setmeal of the table with that id, or nothing when no setmeal has it |
| Common.SelectWhere | sky-server/src/main/java/com/sky/service/impl/ShoppingCartServiceImpl.java:83-86 | a select by column returns exactly the rows whose column has the value |
| Common.DeleteWhereIn | sky-server/src/main/java/com/sky/service/impl/DishServiceImpl.java:120-123 | a batch delete by column leaves exactly the rows whose column is not among the ids |
| Common.UpdateWhereKeepsOthers | sky-server/src/main/java/com/sky/service/impl/DishServiceImpl.java:170-173 | an update by id that keeps the id of the rows it rewrites keeps every row's id, keeps the id a key, and leaves the rows under every other id exactly as they were |
| OrderTask.WriteBackStep | sky-server/src/main/java/com/sky/task/OrderTask.java:29-33 | writing one fetched candidate back by id changes exactly the row it was read from, since ids are a key |
| Common.DeleteWhereInKeepsKeys | sky-server/src/main/java/com/sky/service/impl/DishServiceImpl.java:120 | a batch delete keeps a key column a key |
| Common.ReduceSum | sky-server/src/main/java/com/sky/service/impl/ReportServiceImpl.java:139-140 | `reduce(Integer::sum)` is empty exactly on an empty list |
| DishService.StampDishId | sky-server/src/main/java/com/sky/service/impl/DishServiceImpl.java:64-66 | every flavor gets the dish id, and its name and value are kept |
| DishService.SaveWithFlavor | sky-server/src/main/java/com/sky/service/impl/DishServiceImpl.java:47-71 | the dish is appended under the next key, which no dish held before and under which `getById` then finds the new dish; the supplied flavors are appended with that key, and with a null or empty list no flavor is added; the key invariant is kept |
| DishService.LinksOfDishes | sky-server/src/main/java/com/sky/service/impl/DishServiceImpl.java:106 | the reference query returns exactly the setmeal-dish rows of the given dishes |
| DishService.CheckNotOnSale | sky-server/src/main/java/com/sky/service/impl/DishServiceImpl.java:96-102 | the check loop ends with the outcome of the status check, stopping at the first missing or on-sale dish |
| DishService.DeleteBatch | sky-server/src/main/java/com/sky/service/impl/DishServiceImpl.java:93-124 | on success the dishes with the ids and their flavors are gone and every other row remains; on failure nothing changes; the key invariant is kept |
| DishService.UpdateWithFlavor | sky-server/src/main/java/com/sky/service/impl/DishServiceImpl.java:147-162 | afterwards the dish's flavors are exactly the supplied list, stamped with its id, and every other dish keeps its flavors; the key invariant is kept |
| DishService.WithDishStatus | sky-server/src/main/java/com/sky/service/impl/DishServiceImpl.java:170-173 | only the status column of dish `id` changes |
| DishService.UpdateStatus | sky-server/src/main/java/com/sky/service/impl/DishServiceImpl.java:168-174 | only the dish table changes, and in it only the status of dish `id`; setmeals are not touched; the key invariant is kept |
| DishService.List | sky-server/src/main/java/com/sky/service/impl/DishServiceImpl.java:181-188 | returns exactly the on-sale dishes of the category |
| DishService.StatusCheckPassIff | sky-server/src/main/java/com/sky/service/impl/DishServiceImpl.java:96-102 | the status check passes if and only if every id names an existing dish that is not on sale |
| DishService.StatusCheckOnSale | sky-server/src/main/java/com/sky/service/impl/DishServiceImpl.java:96-101 | when every id exists and one is on sale, the check fails with `DISH_ON_SALE` |
| DishService.DeleteCheckOnSaleFirst | sky-server/src/main/java/com/sky/service/impl/DishServiceImpl.java:96-110 | a batch that is both on sale and referenced by a setmeal reports `DISH_ON_SALE` |
| DishService.DeleteCheckReferenced | sky-server/src/main/java/com/sky/service/impl/DishServiceImpl.java:106-110 | a batch of off-sale dishes one of which is in any setmeal-dish row fails with `DISH_BE_RELATED_BY_SETMEAL`, whatever that setmeal's status |
| DishService.DeleteCheckPassIff | sky-server/src/main/java/com/sky/service/impl/DishServiceImpl.java:94-111 | the delete goes ahead if and only if every id names an existing off-sale dish that no setmeal-dish row refers to |
| SetmealService.StampSetmealId | sky-server/src/main/java/com/sky/service/impl/SetmealServiceImpl.java:69-71 | every relation row gets the setmeal id, and its other columns are kept |
| SetmealService.SaveWithDish | sky-server/src/main/java/com/sky/service/impl/SetmealServiceImpl.java:58-75 | the setmeal and its relation rows are appended under the next key, which no setmeal held before and under which `getById` then finds the new setmeal; a null list fails and, being transactional, changes no table, though the key is used up; the key invariant is kept |
| SetmealService.CheckNotOnSale | sky-server/src/main/java/com/sky/service/impl/SetmealServiceImpl.java:84-90 | the check loop ends with the outcome of the status check, stopping at the first missing or on-sale setmeal |
| SetmealService.DeleteBatch | sky-server/src/main/java/com/sky/service/impl/SetmealServiceImpl.java:82-96 | on success the setmeals with the ids and their relation rows are gone and every other row remains; on failure nothing changes; the key invariant is kept |
| SetmealService.StatusCheckPassIff | sky-server/src/main/java/com/sky/service/impl/SetmealServiceImpl.java:84-90 | the check passes if and only if every id names an existing setmeal that is not on sale |
| SetmealService.StatusCheckOnSale | sky-server/src/main/java/com/sky/service/impl/SetmealServiceImpl.java:84-89 | when every id exists and one is on sale, the check fails with `SETMEAL_ON_SALE` |
| SetmealService.StatusCheckMissingFirst | sky-server/src/main/java/com/sky/service/impl/SetmealServiceImpl.java:84-86 | a missing setmeal reached before any on-sale one makes the check throw the null pointer exception |
| SetmealService.Update | sky-server/src/main/java/com/sky/service/impl/SetmealServiceImpl.java:121-142 | afterwards the setmeal's relation rows are exactly the supplied list with its id and other setmeals keep theirs; a null list fails after the setmeal row and the delete were written; the key invariant is kept |
| SetmealService.DishesOfSetmeal | sky-server/src/main/java/com/sky/service/impl/SetmealServiceImpl.java:153 | returns exactly the dishes some relation row of the setmeal refers to |
| SetmealService.ContainsDisabledDish | sky-server/src/main/java/com/sky/service/impl/SetmealServiceImpl.java:154-160 | reports whether some dish of the list is off sale |
| SetmealService.StartOrStop | sky-server/src/main/java/com/sky/service/impl/SetmealServiceImpl.java:149-169 | fails with `SETMEAL_ENABLE_FAILED` if and only if enabling a setmeal with an off-sale dish, leaving the status; otherwise only that setmeal's status changes; the key invariant is kept |
| SetmealService.EnableBlockedIff | sky-server/src/main/java/com/sky/service/impl/SetmealServiceImpl.java:151-160 | enabling is refused exactly when a relation row of the setmeal names an off-sale dish; a setmeal with no dishes can always be enabled |
| SetmealService.EnableAfterDishEnabled | sky-server/src/main/java/com/sky/service/impl/SetmealServiceImpl.java:153-160 | once the only off-sale dish of a setmeal is put on sale, enabling the setmeal is no longer refused |
| ShoppingCartService.FirstMatch | sky-server/src/main/java/com/sky/service/impl/ShoppingCartServiceImpl.java:43-46 | `list(...).get(0)` is the first line of the user matching the item's non-null fields, or there is none |
| ShoppingCartService.AddShoppingCart | sky-server/src/main/java/com/sky/service/impl/ShoppingCartServiceImpl.java:37-73 | the cart becomes the reference add, or the call fails and changes nothing when the dish or setmeal is missing |
| ShoppingCartService.SubShoppingCart | sky-server/src/main/java/com/sky/service/impl/ShoppingCartServiceImpl.java:100-123 | the cart becomes the reference remove |
| ShoppingCartService.CleanShoppingCart | sky-server/src/main/java/com/sky/service/impl/ShoppingCartServiceImpl.java:91-97 | every line of the user is deleted and every other user's lines remain as they were |
| ShoppingCartService.ShowShoppingCart | sky-server/src/main/java/com/sky/service/impl/ShoppingCartServiceImpl.java:80-88 | returns exactly the user's lines, in table order |
| ShoppingCartService.AddMergesIntoExistingLine | sky-server/src/main/java/com/sky/service/impl/ShoppingCartServiceImpl.java:43-48 | adding an item the user has raises the matched line by exactly one and changes nothing else, name, image and price included |
| ShoppingCartService.AddInsertsNewLine | sky-server/src/main/java/com/sky/service/impl/ShoppingCartServiceImpl.java:53-70 | a new item is appended as one line with one unit, time `now`, and name, image and price copied from the dish when a dish id is given and from the setmeal otherwise; it fails exactly when that row is missing |
| ShoppingCartService.AddKeepsWellFormed | sky-server/src/main/java/com/sky/service/impl/ShoppingCartServiceImpl.java:43-70 | adding keeps at most one line per user and item, each with at least one unit |
| ShoppingCartService.SubKeepsWellFormed | sky-server/src/main/java/com/sky/service/impl/ShoppingCartServiceImpl.java:108-119 | removing keeps at most one line per user and item, each with at least one unit, since a line is deleted at one |
| ShoppingCartService.SubUndoesAdd | sky-server/src/main/java/com/sky/service/impl/ShoppingCartServiceImpl.java:100-119 | on a well-formed cart, removing an item just added gives back the cart before the add |
| ShoppingCartService.AddTwiceMerges | sky-server/src/main/java/com/sky/service/impl/ShoppingCartServiceImpl.java:43-70 | adding a new item twice yields one line with two units, not two lines |
| ShoppingCartService.AddAddsOneUnit | sky-server/src/main/java/com/sky/service/impl/ShoppingCartServiceImpl.java:45-70 | every successful add raises the cart's number of units by exactly one |
| ShoppingCartService.SubRemovesOneUnit | sky-server/src/main/java/com/sky/service/impl/ShoppingCartServiceImpl.java:108-119 | a remove with a matching line lowers the number of units by exactly one, and without one changes nothing |
| ReportService.GetLocalDateList | sky-server/src/main/java/com/sky/service/impl/ReportServiceImpl.java:237-246 | the list starts at `begin`, ends at `end`, has `end - begin + 1` days and consecutive days differ by one |
| ReportService.CountOrders | sky-server/src/main/java/com/sky/service/impl/ReportServiceImpl.java:126-133 | the order count of a range never exceeds the number of orders, and is zero exactly when no order of the range (completed, when the status is given) exists |
| ReportService.DailyOrderCountsSum | sky-server/src/main/java/com/sky/service/impl/ReportServiceImpl.java:122-140 | the per-day counts of a range add up to the count over the whole range |
| ReportService.ValidAtMostAll | sky-server/src/main/java/com/sky/service/impl/ReportServiceImpl.java:129-133 | the valid (completed) order count never exceeds the order count |
| ReportService.CompletionRate | sky-server/src/main/java/com/sky/service/impl/ReportServiceImpl.java:142-146 | the rate is 0 without orders, and otherwise the exact share of valid orders, between 0 and 1 |
| ReportService.GetOrdersStatistics | sky-server/src/main/java/com/sky/service/impl/ReportServiceImpl.java:117-155 | one order and one valid count per day; the totals are their sums and equal the counts over the whole range; valid never exceeds total; the rate is `CompletionRate` and lies in [0, 1] |
| ReportService.CountUsers | sky-server/src/main/java/com/sky/service/impl/ReportServiceImpl.java:91-97 | the user count never exceeds the number of users, and is zero exactly when no user registered in the range exists |
| ReportService.RunningUserTotal | sky-server/src/main/java/com/sky/service/impl/ReportServiceImpl.java:89-97 | the users registered by the end of a day are those registered by the end of the previous day plus that day's new users |
| ReportService.GetUserStatistics | sky-server/src/main/java/com/sky/service/impl/ReportServiceImpl.java:81-107 | one total and one new-user count per day; new users never exceed the total, and each day's total is the previous total plus that day's new users |

## Left out

- Mapper SQL, `ORDER BY` clauses and paging (`pageQuery` in both catalog services): the SQL is not part of this model. Queries return rows in table order.
- `getByIdWithFlavor` and `getByIdWithDish`: plain reads that copy a row and its related rows into a view object; they hold no rule.
- `getTurnoverStatistics`, `getSalesTop10` and `exportBusinessData`: floating-point sums, a grouped top-10 query, and Excel and servlet output.
- `StringUtils.join`: the reports keep their lists as sequences instead of comma-joined strings.
- `UserServiceImpl` (the WeChat login call and JSON parsing) and `AutoFillAspect` (reflection that stamps audit fields): external I/O and reflection.
- Cron scheduling, logging and the wall clock: the clock is the parameter `now`.
- OrderTask.ProcessTimeoutOrder: the source reads the clock once for the bound (OrderTask.java:27) and again for every cancelled order inside the loop (OrderTask.java:32). Each order's cancel time is thus its own reading, no earlier than the bound's. The model uses the single reading `now` for the bound and for every cancel time.
- The full order state machine: it is not part of this model, so only the two edges the sweeps apply are modelled.
- Transactions, row locks and concurrent runs: each call is one atomic sequential step.
- Java `Integer` overflow of counts and sums: the integers are unbounded.
- The mapper SQL of a batch statement with an empty list is an `in ()` or an empty `values` list, which the database rejects. The model treats such a statement as writing nothing, so four calls pass here where the source throws:
- SetmealService.SaveWithDish: with an empty dish list the batch insert (SetmealServiceImpl.java:73) throws and the transaction undoes the setmeal insert. The model returns `Pass` and keeps the new setmeal.
- SetmealService.Update: with an empty dish list the batch insert (SetmealServiceImpl.java:140) throws after the setmeal update and the delete, which stay done. The model returns `Pass` with the same writes.
- DishService.DeleteBatch: with no ids the reference query (DishServiceImpl.java:106) throws. The model passes and deletes nothing.
- SetmealService.DeleteBatch: with no ids the batch delete (SetmealServiceImpl.java:93) throws. The model passes and deletes nothing.
- Cart line ids and flavor ids: a cart line is identified by its position, and flavors have no id of their own.
- DishService.UpdateWithFlavor: the dish row is rewritten whole. A dynamic `SET` that skips null fields of the client's dish is not modelled.
- SetmealService.Update: the setmeal row is rewritten whole, for the same reason.
- ReportService.GetLocalDateList: requires `begin <= end`. With `begin` after `end` the source loop never stops, and the model does not describe that case.
- ReportService.GetOrdersStatistics: the completion rate is an exact rational, not a `Double`.
