# Orders service: bulk dispatch, listing and transactional status reconciliation

A Dafny model of `OrdersService` (`src/orders/orders.service.ts`) of the
margaritas-manager-service order service. The service:

- creates orders in bulk and publishes one `ORDER_DISPATCHED` event to the kitchen;
- lists orders page by page, newest first, optionally filtered by status;
- looks up one order by id;
- consumes `ORDER_STATUS_CHANGED` messages. It applies the batch of status updates in one
  database transaction, then acks the message on commit or nacks it on failure. The query
  runner is released on every path.

The database, the query runner and the RabbitMQ channel are replaced by in-memory stand-ins
(`collaborators.dfy`). Their contracts are assumptions about those systems. Each call that
can throw takes a flag, and each service operation takes the set of calls that throw on this
run. That makes every exit path of the `try`/`catch`/`finally` blocks something a
postcondition can talk about.

Files:

- `wrappers.dfy`: `Option` and `Result`.
- `orders.dfy` (module `Orders`): the order row and the status-update command. Also the update
  built for one command (`UpdateData`), the keyed update (`UpdateWhereId`) and the batch as a
  fold over the commands (`ApplyAll`). The lemmas prove the batch against a per-order reference
  description: the last command for an id sets its status, and the last non-empty recipe name
  sets its recipe. The same module has the bulk insert (`NewOrders`, `Inserted`).
- `listing.dfy` (module `Listing`): `getAllOrders` as pure functions. This covers the truthy
  status filter, `skip = (page - 1) * limit`, `take(limit)` and `totalPages = ceil(total / limit)`.
- `collaborators.dfy` (module `Collaborators`): the order table, the query runner (connection,
  transaction flag, snapshot taken at `startTransaction`, released flag), the broker channel
  (a log of acks and nacks that returned) and the kitchen client (a log of emitted events).
- `orders_service.dfy` (module `Service`): the `OrdersService` class. It has
  `CreateBulkOrders`, `GetOrderById` and `HandleOrderChangeStatus`, plus a client method
  `Redelivery` showing what at-least-once redelivery leaves in the table.

Three behaviours of the code are worth knowing; the model keeps them as written:

- A failed batch is meant to be nacked so that the broker redelivers it. When
  `rollbackTransaction` throws, though, the code skips `nack`: the exception leaves the
  `catch` block and only the `finally` release runs, so the message is neither acked nor
  nacked.
- `createBulkOrders` wraps the `emit` call in its `try`. An `emit` that throws synchronously
  therefore turns into `InternalServerErrorException('Failed to dispatch orders')`, even though
  the rows are already saved.
- The listing filter applies only when `statusId` is truthy. A status value of `0` disables it.

## Model

| member | source | states |
|---|---|---|
| Orders.RecipeGiven | src/orders/orders.service.ts:92 | definition without a contract: the truthiness test on the command's recipeName (present and non-empty); used by UpdateData and the recipe lemmas |
| Orders.UpdateData | src/orders/orders.service.ts:89-94 | the update always sets the command's statusId; it sets recipeName exactly when the command's recipeName is present and non-empty, and then to that value |
| Orders.UpdateWhereId | src/orders/orders.service.ts:96-101 | an update keyed by id changes at most the row with that id; the set of ids is unchanged; an unknown id leaves the table as it was |
| Orders.UnknownIdIsNoOp | src/orders/orders.service.ts:96-103 | a command whose id matches no order changes nothing (and raises nothing) |
| Orders.Patched | src/orders/orders.service.ts:99 | definition without a contract: `.set(updateData)` on one row (statusId replaced, recipeName replaced only when the update carries one); used by UpdateWhereId |
| Orders.ApplyUpdate | src/orders/orders.service.ts:89-101 | definition without a contract: one loop iteration, the command's update keyed by its id; used by ApplyAll and UnknownIdIsNoOp, whose contracts state its effect |
| Orders.ApplyAll | src/orders/orders.service.ts:88-104 | applying a batch keeps the set of orders, and every order's id, createdAt and content |
| Orders.ApplyAllConcat | src/orders/orders.service.ts:88-104 | commands take effect in list order: a batch is its prefix followed by its suffix |
| Orders.UntouchedOrder | src/orders/orders.service.ts:88-101 | an order that no command names is left exactly as it was |
| Orders.LastStatusWins | src/orders/orders.service.ts:88-101 | an order's final statusId is that of the last command naming it |
| Orders.LastRecipeWins | src/orders/orders.service.ts:88-101 | an order's final recipeName is the last non-empty one supplied for it |
| Orders.RecipeKept | src/orders/orders.service.ts:92-94 | with no non-empty recipeName for an order in the batch, its stored recipeName stays |
| Orders.ApplyAllIdempotent | src/orders/orders.service.ts:88-104 | applying the same batch twice gives the same table as applying it once |
| Orders.ApplyAllKeyedById | src/orders/orders.service.ts:96-101 | after a batch every row is still stored under its own id |
| Orders.TwoCommandExample | src/orders/orders.service.ts:88-101 | batch [A to status 2, B to status 3 with recipe "spicy"]: A gets status 2 and keeps its recipe, B gets status 3 and recipe "spicy" |
| Orders.NewOrders | src/orders/orders.service.ts:28-29 | definition without a contract: the rows `create` + `save` produce, one per input, with the store's id, the insert time and the column defaults; used by OrderTable.Save and NewOrdersKeyedById |
| Orders.Inserted | src/orders/orders.service.ts:29 | definition without a contract: the table after inserting a batch; its meaning is stated by InsertedSpec |
| Orders.InsertedSpec | src/orders/orders.service.ts:28-29 | inserting a batch with fresh distinct ids adds exactly one row per element under its id and keeps every existing row |
| Orders.NewOrdersKeyedById | src/orders/orders.service.ts:28-29 | the saved batch adds exactly one row per input and keeps the table keyed by id |
| Listing.FilterActive | src/orders/orders.service.ts:49 | definition without a contract: the truthiness test on statusId (present and not 0); used by Matching and GetAllOrders |
| Listing.Offset | src/orders/orders.service.ts:46 | definition without a contract: `skip = (page - 1) * limit`; used by GetAllOrders, whose contract states the window from it, and by OffsetPastPages |
| Listing.Matching | src/orders/orders.service.ts:49-53 | a row is kept iff it is a row of the table and, when the filter is truthy, has the filter's status; without a truthy filter every row is kept; multiplicities are stated by MatchingMultiset |
| Listing.MatchingMultiset | src/orders/orders.service.ts:49-59 | each matching row appears in the filtered rows exactly as often as in the table, and no other row appears, so totalItems counts the matching rows exactly |
| Listing.CeilDiv | src/orders/orders.service.ts:60 | the page count is the least number of pages of `limit` rows that holds `total` rows |
| Listing.Window | src/orders/orders.service.ts:57-58 | `take(limit).skip(skip)` returns the rows from offset skip on, at most limit of them |
| Listing.PageOf | src/orders/orders.service.ts:57-58 | definition without a contract: the window of page `page` over the filtered rows; used by GetAllOrders and PagesUpTo |
| Listing.GetAllOrders | src/orders/orders.service.ts:44-69 | echoes page and limit; totalItems is the number of matching rows; totalPages is their ceiling division by limit; data holds at most limit rows, the matching rows from offset (page-1)*limit on, each matching the filter |
| Listing.MatchingNewestFirst | src/orders/orders.service.ts:49-56 | filtering keeps the newest-first order |
| Listing.PageNewestFirst | src/orders/orders.service.ts:55-59 | every page is newest first |
| Listing.PagesUpToPrefix | src/orders/orders.service.ts:46-58 | for one fixed order of the matching rows, the first p pages laid end to end are the first p*limit of them (see Left out on ties) |
| Listing.PagesCoverMatching | src/orders/orders.service.ts:46-60 | for one fixed order of the matching rows, pages 1 to totalPages laid end to end are exactly those rows (see Left out on ties) |
| Listing.PastLastPageEmpty | src/orders/orders.service.ts:46-60 | a page past totalPages is empty |
| Listing.SecondPageOfTwentyFive | src/orders/orders.service.ts:44-69 | 25 rows with limit 10: page 2 is rows 11 to 20, totalPages 3, totalItems 25 |
| Collaborators.OrderTable.Save | src/orders/orders.service.ts:28-29 | save inserts the whole batch under the ids the store assigns, or nothing when it throws |
| Collaborators.QueryRunner.Connect | src/orders/orders.service.ts:85 | connect either succeeds or throws, changing nothing else |
| Collaborators.QueryRunner.StartTransaction | src/orders/orders.service.ts:86 | a started transaction is active and snapshots the table; a failed start leaves none active |
| Collaborators.QueryRunner.UpdateWhereId | src/orders/orders.service.ts:96-101 | the update statement changes the table as Orders.UpdateWhereId, or not at all when it throws |
| Collaborators.QueryRunner.CommitTransaction | src/orders/orders.service.ts:106 | a commit ends the transaction; a failed commit leaves it active |
| Collaborators.QueryRunner.RollbackTransaction | src/orders/orders.service.ts:112-114 | a rollback restores the snapshot and ends the transaction; a failed one leaves both as they were |
| Collaborators.QueryRunner.Release | src/orders/orders.service.ts:118-120 | release marks the runner released, even when it throws |
| Collaborators.BrokerChannel.Ack | src/orders/orders.service.ts:108 | an ack that returns is recorded; one that throws is not |
| Collaborators.BrokerChannel.Nack | src/orders/orders.service.ts:116 | a nack that returns is recorded; one that throws is not |
| Collaborators.KitchenClient.Emit | src/orders/orders.service.ts:31 | an emit that returns publishes exactly the given event |
| Service.AckOnlyAfterCommit | src/orders/orders.service.ts:106-116 | a message that is neither acked nor nacked means the handler throws (never acked and nacked, and acked only after a commit, hold by definition) |
| Service.OrdersService.CreateBulkOrders | src/orders/orders.service.ts:26-42 | on success: the batch is saved, exactly one ORDER_DISPATCHED event with the saved rows is emitted, and 'Order dispatched successfully' is returned with them; if create or save throws, nothing is saved or emitted; any failure returns InternalServerError('Failed to dispatch orders') |
| Service.OrdersService.GetOrderById | src/orders/orders.service.ts:71-73 | returns the order with that id, or nothing exactly when there is none |
| Service.OrdersService.HandleOrderChangeStatus | src/orders/orders.service.ts:75-122 | the runner is released exactly once on every path; rollback is attempted exactly when the catch block finds the transaction active; the message is acked iff everything through ack succeeded, otherwise nacked unless the rollback or the nack threw; the durable table is the batch applied in order when committed and the old table otherwise; the handler throws iff rollback, nack or release threw |
| Service.Redelivery | src/orders/orders.service.ts:75-122 | any first delivery whose rollback did not throw (rolled back, failed before the transaction, or committed and then failed to ack), then a successful redelivery and a duplicate delivery, leave the table as one successful delivery would |

## Left out

- `src/main.ts`: bootstrap, validation pipe, port and RabbitMQ wiring (queue name, durability, prefetch) are outside the service.
- The `kitchenClient.connect()` call in the constructor, `console.log`/`console.error` logging, and `RmqContext.getMessage()`. A channel stands for the one message it delivered.
- Concurrency between messages and requests, and transaction isolation. These belong to the broker and the database.
- TypeORM internals: SQL generation, id and `createdAt` generation, and the atomicity of `save`. The store's ids and insert time are parameters. Their uniqueness and freshness are a precondition (`FreshIds`).
- Service.OrdersService.CreateBulkOrders: an `emit` failure that happens asynchronously, after the call returned, is not observed. Only a synchronous throw is modelled. The source returns the entities `create` built, which `save` filled in place, so the model returns the saved rows.
- Listing.GetAllOrders: the rows are taken already ordered by `createdAt` descending, because the ordering is the database's. A missing query object (a TypeError in the source) is excluded by taking the query as a value. `page` and `limit` are required to be positive, as the request validation guarantees.
- Listing.CeilDiv: `Math.ceil` over a floating-point quotient is modelled as integer ceiling division, which is exact for these integer operands.
- Collaborators.QueryRunner.StartTransaction: a `startTransaction` that throws is taken to leave no transaction active. Whether a driver has already set its flag before failing is not modelled.
- Collaborators.QueryRunner.RollbackTransaction: after a rollback that throws, the model keeps the uncommitted rows visible through the runner. Its durable view stays the pre-batch table. What the database does with a transaction left open on a released connection is not modelled.
- Exception values: only whether the handler throws is modelled, not which error propagates.
- Entity and DTO fields the service does not read are folded into one opaque `details` string.
- Listing.PagesUpToPrefix: every page is cut from one shared order of the matching rows. In the source each page is its own query with `ORDER BY createdAt DESC`, and the database fixes no order among rows with equal `createdAt` (every row of one bulk insert shares it), so separate page queries may overlap or skip such rows.
- Listing.PagesCoverMatching: holds only when every page query sees the same order of the matching rows; for rows sharing a `createdAt` the database does not promise that, so pages may overlap or skip rows.
- Listing.GetAllOrders: `getAllOrders` has no `try`; a failing `getManyAndCount` propagates to the caller unhandled. Store failures on this read are not modelled.
- Service.OrdersService.GetOrderById: `getOrderById` has no `try`; a failing `findOne` propagates to the caller unhandled. Store failures on this read are not modelled.
