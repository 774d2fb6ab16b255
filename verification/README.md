# A verified model of the shop backend

This project models the parts of the shop backend that carry state, concurrency or meaning, and proves laws about
them. `dafny verify dfyconfig.toml` checks everything.

## What is modelled

**Carts, lines and the life of an order** (`Tables`, `ShopSpec`, `Records`, `OrderDetailService`, `OrderService`,
`CartService`). The orders, order lines, shippings and histories live in one `Database` object. The service classes
change it with the source's own steps: rows are loaded as copies, fields are assigned in the copy, the copy is saved,
and the `options.model` object is shared between caller and callees. `ShopSpec` says what each operation does to the
tables as a function of the tables; every service method is proved equal to its function and to keep the invariant.
What the environment decides (which row a lookup by a code finds, what the code generator answers, the order in which
concurrent inserts land, price changes between operations) is an argument or a ghost result, so the laws hold for all
of it. A transaction wrapper is a plain call: the source's callback never uses the transaction's manager.

- `ShopRuns`: runs of any length, and the invariant: ids, one row for each key of an order, no soft-deleted line, costs
  and totals that add up, one open cart for each customer, shippings only on placed orders.
- `CartRefinement`: the rows and row ids implement a plain map from (product, variant, unit) to (quantity, price).
- `OrderLifecycle`: creating again, checkout, and what stays frozen afterwards.
- `StatusWalk`: the two transition tables, the history log and its replay, bounds on every walk.
- `Shop`: every call of a service is one enabled step of such a run.
- `CheckoutFanOut`: the `Promise.all` of checkout as interleaved tasks, and its confluence.

**The log masker** (`EmailPattern`, `EmailMasking`, `PiiMask`, `PiiLeak`). The e-mail pattern is matched by a backtracking engine that
is proved sound and complete for the pattern's language. The walk runs over a graph of objects that may share and may be
cyclic; how often it meets each object decides, exactly, what a masked record still shows.

**Request and reply over the message broker** (`RpcProtocol`, `RabbitMQService`). Callbacks are the steps of a protocol
with any number of concurrent requests, consumers, timeouts and late replies; each callback is also a method on a
channel object, proved to be its step. The end of a handler's turn is kept apart from what it does to the delivery, since
the one does not always lead to the other.

**The query layer** (`WhereCompiler`, `WhereMeaning`, `Paging`, `Dataloader`): where-objects, sort orders, pages, batched
loads. The laws of the compiler hold for any meaning of its conditions; `WhereMeaning` gives them SQL's and tells which
values each operator finds.

**The input sanitiser** (`Sanitizer`): a heap of objects and arrays rewritten in place, with footprints.

**Order codes** (`CodeGenerator`): base-36 times that can be read back and that sort.

## What the proofs brought to light

The model follows the code where code and intention differ. Each line names the theorem that says exactly when.

- `createCart` finds its own cart again only if the client asked for status CART and gave a customer or a code; the
  input's default status is PENDING, and then every call adds an order (`OrderLifecycle.RepeatedCreate`).
- `shippedOrder` completes exactly on a PROCESSING order whose shipping is CONFIRMED. On a PROCESSING order with any
  other shipping status it throws after its first write, which stays and is not logged (`StatusWalk.ShipCompletes`,
  `StatusWalk.HistoryReplays`).
- No named operation ever confirms a shipment, so an order that starts with the default shipping status can never be
  shipped completely (`StatusWalk.ShipmentNeverStarts`); and none ever puts an order on hold
  (`StatusWalk.NamedRunBounded`).
- Adding a line that exists as a soft-deleted row writes to that row and leaves it deleted: the code resets
  `deletedAt`, the column is `deleted_at` (`CartRefinement.AddShowsUp`, and the contract of
  `OrderDetails.OrderDetailService.CreateOrderDetail`). Cart operations never create such a row.
- A line update for an unknown unit fails after it has changed the caller's model, though no table
  (`OrderDetails.OrderDetailService.UpdateOrderDetail`).
- `createOrderDetail` called without an order fails even when the order exists
  (`OrderDetails.OrderDetailService.CreateOrderDetail`).
- A log record that holds one object twice, or itself, comes out with the second occurrence unmasked, and property
  names are never masked (`PiiLeak.AddressAsName`). A masked record shows personal data if and only if a visible object
  has an address in a property's name, or an object that the walk comes to twice leads to personal data
  (`PiiLeak.LeaksExactlyWhen`); it is free of the input's own objects exactly on trees (`PiiMask.FreshOnlyOnTrees`).
- A where-object with two operators under one key keeps only the last, and entries that name no operator (a misspelt
  one, a nested relation) are dropped. The compiled filter is exact if and only if every entry is known, no object is
  empty, and no key names two different conditions (`WhereCompiler.ExactExactlyWhen`).
- A row whose column is empty is found by `$null` only: `$ne`, `$nIn` and the other negated operators pass it over
  (`WhereMeaning.OnlyNullFindsEmpty`).
- Client sort columns other than `created_at` and `id` never matter, because the unique `id` stands before them
  (`Paging.TieBreakerDecides`).
- Strings in an array in a field are left alone by the sanitiser, but strings in an array inside that array are
  cleaned; the rule is the parity of the nesting (`Sanitizer.SanitizedEverywhere`). An object without a constructor
  makes the walk throw half way (`Sanitizer.CompletesWhenClassed`).
- A page or limit that the client sends as null is not replaced by the default (`Paging.Query.HandlePagination`).
- A remote handler that returns undefined is answered with an error message; one that throws null or undefined, or
  something whose message cannot be serialised, leaves a delivery that asked for a reply neither answered nor acked, for
  good (`RpcProtocol.DeliveriesSettleOnce`, `RpcProtocol.StrandedForGood`, `RpcProtocol.StrandedRun`).
- An event handler is not awaited, and every registered one is asynchronous, so a failing event handler is acked all the
  same; only a body that is not JSON is nacked (`RpcProtocol.EventsSettleOnce`).

## Model

| member | source | states |
|---|---|---|
| ShopSpec.SumCostsSplit | src/modules/orders/order.service.ts:259-272 | a sum of line costs does not depend on which row is taken first |
| ShopSpec.SumCostsFrame | src/modules/orders/order.service.ts:259-272 | a sum of line costs depends on the summed lines' two costs only |
| ShopRuns.FindsMeans | src/modules/carts/cart.service.ts:32-42 | what a lookup may find and when it may find nothing, told by status, customer and code alone |
| OrderDetails.OrderDetailService.GetOne | src/modules/order-details/order-detail.service.ts:52-60 | finds a row of the order with the key, soft-deleted ones only on request, and none only if there is none |
| OrderDetails.OrderDetailService.GetMany | src/modules/carts/cart.service.ts:172-174 | returns every live line of the order exactly once, in an order nobody promises |
| OrderDetails.OrderDetailService.Summarise | src/modules/order-details/order-detail.service.ts:123-142 | price, costs and fees of the record in place: total and final are price times quantity, every fee zero, nothing else touched |
| OrderDetails.OrderDetailService.UpdateOrderDetail | src/modules/order-details/order-detail.service.ts:90-119 | overwrites one row with the client's quantity, note and statuses at the current price, through the shared model; every failure leaves the tables as they were, but an unknown unit leaves the model changed |
| OrderDetails.OrderDetailService.CreateOrderDetail | src/modules/order-details/order-detail.service.ts:39-88 | find or overwrite: the row with the key in the given order is replaced, else one is inserted there; without an order always an error; failures change nothing; the line shows in the order if and only if no soft-deleted row was hit |
| OrderDetails.OrderDetailService.HardDelete | src/common/abstracts/service.abstract.ts:274-289 | the row of the shared model, or else the live row with the id, is gone; a missing or foreign model is an error without effect |
| OrderDetails.OrderDetailService.BulkHardDelete | src/common/abstracts/service.abstract.ts:291-298 | a row stays exactly when none of the given rows has its id, and then unchanged |
| Orders.OrderService.Load | src/common/abstracts/service.abstract.ts:137-144 | a given model is kept as it is, a missing one is loaded |
| Orders.OrderService.Update | src/common/abstracts/service.abstract.ts:132-164 | the patch is assigned into the shared model and that whole model is the saved row; a missing or foreign model is an error without effect |
| StatusWalk.LogOfLogged | src/modules/orders/order.service.ts:346-356 | an entry ends its own order's log and shows in no other's |
| StatusWalk.GuardIsExact | src/common/abstracts/status-service.abstract.ts:26-69 | a change is refused exactly off the table or without the order; a refusal changes nothing, a change touches the one status and at most the log |
| Orders.OrderService.LoadAndValidate | src/common/abstracts/status-service.abstract.ts:32-42 | the model is the caller's or the stored row; a missing row is an error, and so is a target off the table unless validation is skipped; nothing is written |
| Orders.OrderService.ChangeStatus | src/common/abstracts/status-service.abstract.ts:26-59 | the guarded change: refused without effect off the table, else the row saved and every target but SHIPPED logged |
| Orders.OrderService.ChangeShippingStatus | src/modules/orders/order.service.ts:215-245 | the same for shipping, every change logged |
| Orders.OrderService.ShippedOrder | src/modules/orders/order.service.ts:150-153 | both changes through one model; succeeds exactly from PROCESSING with shipping CONFIRMED, and the first change stays when the second is refused |
| Orders.OrderService.PeddingOrder | src/modules/orders/order.service.ts:132-134 | succeeds exactly from CART |
| Orders.OrderService.ConfirmedOrder | src/modules/orders/order.service.ts:136-141 | succeeds exactly from PENDING |
| Orders.OrderService.ProcessingOrder | src/modules/orders/order.service.ts:143-148 | succeeds exactly from CONFIRMED or ON_HOLD |
| Orders.OrderService.CompletedOrder | src/modules/orders/order.service.ts:176-181 | succeeds exactly from SHIPPED |
| Orders.OrderService.RefundedOrder | src/modules/orders/order.service.ts:183-188 | succeeds exactly from COMPLETED |
| Orders.OrderService.CancelledOrder | src/modules/orders/order.service.ts:190-195 | succeeds exactly from PENDING, CONFIRMED, PROCESSING or ON_HOLD |
| Orders.OrderService.InTransitOrder | src/modules/orders/order.service.ts:155-160 | succeeds exactly from shipping SHIPPED |
| Orders.OrderService.DeliveredOrder | src/modules/orders/order.service.ts:162-167 | succeeds exactly from shipping IN_TRANSIT |
| Orders.OrderService.ReturnedOrder | src/modules/orders/order.service.ts:169-174 | succeeds exactly from shipping SHIPPED, IN_TRANSIT or DELIVERED |
| Orders.OrderService.SummaryOrder | src/modules/orders/order.service.ts:259-272 | the record's totals become the sums over the order's live lines, whatever order they come in |
| Orders.AddUpIsSum | src/modules/orders/order.service.ts:268-271 | the reduce over any listing of the lines is their sum |
| Orders.OrderService.RefreshOrder | src/modules/orders/order.service.ts:274-284 | the order's stored totals become the sums, nothing else changes |
| Orders.OrderService.CreateOrder | src/modules/orders/order.service.ts:84-105 | one fresh row with the client's data and totals of zero, whatever totals the client sent |
| Carts.CartService.GetCart | src/modules/carts/cart.service.ts:30-47 | with a customer, an open cart of that customer; without one, an open cart under that very code, and none for the empty code; nothing only if no stored cart has the customer or the code |
| Carts.CartService.CreateCart | src/modules/carts/cart.service.ts:49-65 | returns the open cart and changes nothing, or adds one order under the client's or a generated code; keeps the invariant |
| Carts.CartService.AddToCart | src/modules/carts/cart.service.ts:85-116 | has its specified effect on all tables, keeps the invariant, and changes nothing on failure |
| Carts.CartService.RemoveFromCart | src/modules/carts/cart.service.ts:118-158 | has its specified effect on all tables, keeps the invariant, and changes nothing on failure |
| Carts.CartService.LineIds | src/modules/carts/cart.service.ts:172-176 | the ids of exactly the cart's live lines |
| Carts.CartService.ClearCart | src/modules/carts/cart.service.ts:160-185 | has its specified effect on all tables, keeps the invariant, and changes nothing on failure |
| Carts.CartService.RunStatement | src/modules/orders/order.service.ts:327-344 | one database statement of one line's task is one step of the interleaving |
| Carts.CartService.CreateShippings | src/modules/carts/cart.service.ts:210-217 | whatever task the scheduler picks at every turn, it ends, and in a fan-out over all lines for some order of insertion |
| Carts.CartService.CheckoutCart | src/modules/carts/cart.service.ts:187-253 | has its specified effect on all tables for the order in which inserts landed, keeps the invariant, and changes nothing on failure |
| Shop.CallCart | src/modules/carts/cart.service.ts:49-253 | a call of any cart operation moves the tables by exactly one enabled step that describes it, and keeps the invariant |
| Shop.CallStatus | src/modules/orders/order.service.ts:199-245 | so does a call of the status engine with any target |
| Shop.CallNamed | src/modules/orders/order.service.ts:132-195 | and of any named status operation |
| ShopRuns.ApplyKeepsInv | src/modules/carts/cart.service.ts:30-253 | every cart and status operation keeps unique keys, one open cart for each customer, no soft-deleted line, and sums that add up |
| ShopRuns.RunKeepsInv | src/modules/carts/cart.service.ts:30-253 | so does every run of them |
| ShopRuns.EveryRunIsGood | src/modules/carts/cart.service.ts:30-253 | from an empty database every run leads to tables with these properties |
| CartRefinement.EveryOrderIsAMap | src/modules/carts/cart.service.ts:85-185 | the rows of an order stand for exactly one map, an order without lines for the empty one |
| CartRefinement.AddRefines | src/modules/order-details/order-detail.service.ts:62-82 | an add is map update at the current price: it replaces the quantity |
| CartRefinement.RemoveRefines | src/modules/carts/cart.service.ts:118-158 | a removal is key deletion |
| CartRefinement.ClearRefines | src/modules/carts/cart.service.ts:160-185 | a clear is the empty map |
| CartRefinement.RunRefines | src/modules/carts/cart.service.ts:85-253 | over every run and for every order, rows and row ids implement the plain map's run |
| CartRefinement.FailsExactlyWhen | src/modules/carts/cart.service.ts:91-185 | an add fails exactly for an unknown unit, a removal exactly for a key the map does not hold, clear and checkout of a cart never; failures change nothing |
| CartRefinement.SumIsWorth | src/modules/orders/order.service.ts:259-272 | the sums over an order's rows are the worth of its map |
| CartRefinement.TotalsAreWorth | src/modules/orders/order.service.ts:259-284 | stored total and final cost are the worth of the map |
| CartRefinement.MoneyConserved | src/modules/order-details/order-detail.service.ts:123-142 | after any run each line costs price times quantity and each order's totals are the worth of the map the plain run reaches |
| CartRefinement.MoneyFromNothing | src/modules/carts/cart.service.ts:85-185 | from an empty database, each order's totals are the worth of what its adds, removals and clears alone describe |
| CartRefinement.AddMovesTotal | src/modules/carts/cart.service.ts:85-116 | an add moves the total by the new line's cost minus the old one's |
| CartRefinement.AddWrites | src/modules/order-details/order-detail.service.ts:62-82 | the row that an add leaves behind, column by column, and that nothing else changes but the order's totals |
| CartRefinement.AddThenRemove | src/modules/carts/cart.service.ts:85-158 | adding a fresh key and removing it restores every table but the used-up row id |
| CartRefinement.AddShowsUp | src/modules/order-details/order-detail.service.ts:52-68 | an add shows in the cart if and only if it does not hit a soft-deleted row |
| OrderLifecycle.CreateAgainFindsIt | src/modules/carts/cart.service.ts:49-65 | as long as a customer's cart is open, creating again finds that cart and changes nothing |
| OrderLifecycle.CreateAddsOne | src/modules/carts/cart.service.ts:52-59 | a create that finds no cart adds one order under the next id: the client's code or else the generated one, its customer, statuses and note, totals of zero |
| OrderLifecycle.RepeatedCreate | src/modules/carts/cart.service.ts:49-65 | a second create changes nothing if and only if the input has status CART and a customer or a code |
| OrderLifecycle.CheckoutEndsTheCart | src/modules/carts/cart.service.ts:187-253 | checkout changes the order to PENDING under the new code, with the client's note and the same totals, logs once, marks its lines, and the cart is not found again |
| OrderLifecycle.ReachesTheNamedCart | src/modules/carts/cart.service.ts:91-248 | adding, removing, clearing and checking out resolve to an open cart that has the given code, exactly if there is one, and leave every other order as it is; without one they change nothing |
| OrderLifecycle.StepFreezes | src/modules/carts/cart.service.ts:30-47 | no operation changes the lines, totals, customer or code of an order that is no cart, or makes it a cart |
| OrderLifecycle.RunFreezes | src/modules/orders/order.service.ts:35-43 | nor does any run |
| StatusWalk.ApplySteps | src/modules/orders/order.service.ts:132-257 | every operation moves one order's two statuses, and logs it, as the walk on pairs says |
| StatusWalk.NamedOperations | src/modules/orders/order.service.ts:132-257 | each named operation, on any tables: the pairs on which it succeeds, the pair it leads to, its one log entry, and that nothing else changes; a failure changes nothing but where shippedOrder stops half way |
| StatusWalk.ShipCompletes | src/modules/orders/order.service.ts:150-153 | shippedOrder succeeds if and only if PROCESSING and shipping CONFIRMED; failing, it leaves a write behind if and only if PROCESSING |
| StatusWalk.HistoryReplays | src/modules/orders/order.service.ts:199-245 | after any run, replaying the entries logged since its start gives the stored pair, except exactly in orders left half way by shippedOrder, where the log says PROCESSING and the row SHIPPED |
| StatusWalk.UnbornSteps | src/modules/orders/order.service.ts:199-245 | nothing is logged for an order that does not exist yet |
| StatusWalk.WholeLogReplays | src/modules/orders/order.service.ts:199-245 | over every run from an empty database, an order's whole log replays from the pair it was created with to the stored one, with the same exception |
| StatusWalk.StepFollowsTables | src/modules/orders/order.service.ts:35-56 | each operation moves each status along one edge of its table or not at all |
| StatusWalk.WalkBounded | src/modules/orders/order.service.ts:35-56 | changes along any walk on the tables are bounded by ranks and entries into ON_HOLD |
| StatusWalk.StoredIsTrail | src/modules/orders/order.service.ts:132-257 | at every point of a run the stored pair is the one the walk has reached |
| StatusWalk.RunBounded | src/modules/orders/order.service.ts:35-56 | over any run the stored shipping status changes at most 6 times, and the stored order status 6 times plus 2 for each entry into ON_HOLD |
| StatusWalk.NamedRunBounded | src/modules/orders/order.service.ts:132-195 | over any run of the named operations the stored order status changes at most 6 times, and is never ON_HOLD unless it was at the start |
| StatusWalk.RefundTakesTheRoad | src/modules/orders/order.service.ts:35-43 | in a run from before SHIPPED that reaches REFUNDED, the tables held SHIPPED and after it COMPLETED |
| StatusWalk.ShippedIsNeverCancelled | src/modules/orders/order.service.ts:35-43 | once SHIPPED, every run leaves the order SHIPPED, COMPLETED or REFUNDED |
| StatusWalk.ShipmentNeverStarts | src/modules/orders/order.service.ts:132-195 | an order whose shipping is NOT_REQUIRED or PENDING keeps that status through every run, and shippedOrder fails on it |
| CheckoutFanOut.StepBetween | src/modules/orders/order.service.ts:327-344 | what every statement of every task keeps |
| CheckoutFanOut.CheckoutConfluence | src/modules/carts/cart.service.ts:210-217 | every finished interleaving ends where the sequential loop ends, up to a one-to-one renaming of the new shipping ids |
| CheckoutFanOut.CheckoutCoversEveryLine | src/modules/carts/cart.service.ts:210-217 | after it each line is NOT_REQUIRED and has exactly one new shipping row, NOT_REQUIRED and with the client's data, and there are no other new rows |
| EmailPattern.EmailFromShape | src/common/logger/formats/pii-mask.format.ts:4 | local characters, '@', domain characters, a dot and two letters or more are always an address |
| EmailMasking.EmailIs | src/common/logger/formats/pii-mask.format.ts:4 | a text is an address exactly when it reads so character by character |
| EmailPattern.TriesSound | src/common/logger/formats/pii-mask.format.ts:4 | every end the backtracking engine tries is a match of the pattern |
| EmailPattern.TriesComplete | src/common/logger/formats/pii-mask.format.ts:4 | every match is among the ends it tries |
| EmailPattern.GreedyIsLongest | src/common/logger/formats/pii-mask.format.ts:4 | the first end it tries is the end of the longest match at that position, and conversely |
| EmailPattern.MaskedIsFree | src/common/logger/formats/pii-mask.format.ts:7 | for every string, no substring of the masked string is an e-mail address |
| EmailPattern.MaskChangesOnlyEmails | src/common/logger/formats/pii-mask.format.ts:7 | masking changes a string if and only if it holds an address; masking twice is masking once |
| EmailMasking.MaskIsStarred | src/common/logger/formats/pii-mask.format.ts:7 | a masked text is the original with three stars for what stands behind the '@' of each leftmost longest match, and everything else kept |
| PiiMask.PiiFieldIs | src/common/logger/formats/pii-mask.format.ts:3-14 | a key is personal exactly when one of the six words is spelled in it, at increasing positions, each letter in either case, with nothing but punctuation in between |
| PiiMask.CaseDoesNotMatter | src/common/logger/formats/pii-mask.format.ts:9 | keys that differ in case only are equally personal |
| PiiMask.WordsArePersonal | src/common/logger/formats/pii-mask.format.ts:3-14 | each of the six words is personal in any case and with anything around it |
| PiiMask.WeakSet.Add | src/common/logger/formats/pii-mask.format.ts:27 | an object enters the set of seen objects once |
| PiiMask.VisitValue | src/common/logger/formats/pii-mask.format.ts:16-38 | on every finite graph, cyclic or not, the walk ends, enters each object at most once, writes only to its set, and computes Visit |
| PiiMask.MaskRecord | src/common/logger/formats/pii-mask.format.ts:40-44 | the format is one walk with nothing seen |
| PiiMask.VisitTree | src/common/logger/formats/pii-mask.format.ts:16-38 | on trees the walk is the pure recursive masker |
| PiiMask.MaskedEverywhere | src/common/logger/formats/pii-mask.format.ts:16-38 | at every depth of a tree: "[REDACTED]" under every personal key, addresses masked in every other string, all else the same |
| PiiMask.FreshOnlyOnTrees | src/common/logger/formats/pii-mask.format.ts:26-27 | the result is free of the input's own objects if and only if what lies outside personal keys is a tree |
| PiiMask.SharedObjectEscapes | src/common/logger/formats/pii-mask.format.ts:26 | an object listed twice comes out unmasked the second time |
| PiiMask.VisitIsSafe | src/common/logger/formats/pii-mask.format.ts:16-38 | on every graph, no value that the walk built holds an address, and a redaction stands under every personal key |
| PiiMask.MaskerIsIdempotent | src/common/logger/formats/pii-mask.format.ts:16-44 | on trees, masking a masked record returns it unchanged |
| PiiLeak.EntersTheVisible | src/common/logger/formats/pii-mask.format.ts:26-37 | the walk enters exactly the objects that the record leads to outside personal keys |
| PiiLeak.OriginalsAreRepeats | src/common/logger/formats/pii-mask.format.ts:26-27 | conservation: an object stands in the result as itself exactly once less often than the walk comes to it |
| PiiLeak.NamesAreKept | src/common/logger/formats/pii-mask.format.ts:33-36 | a built object has its entries' names as they are |
| PiiLeak.LeaksExactlyWhen | src/common/logger/formats/pii-mask.format.ts:16-44 | a masked record shows personal data if and only if a visible object has an address in a property's name, or an object met at least twice leads to personal data in the input |
| PiiLeak.AddressAsName | src/common/logger/formats/pii-mask.format.ts:33-36 | one such record, in which no object repeats |
| RpcProtocol.NextKeepsInv | src/common/rabbitmq/rabbitmq.service.ts:120-248 | every callback, in every interleaving, keeps reply queues private, messages with their senders and each delivery's account |
| RpcProtocol.RpcIsolation | src/common/rabbitmq/rabbitmq.service.ts:120-175 | a request is resolved only with what a handler made of that request's own message: the very text it returned, or the error of its body, its throw or its result's serialisation |
| RpcProtocol.AnswersExactly | src/common/rabbitmq/rabbitmq.service.ts:226-245 | the end of a handler's turn sends exactly the answer that its result calls for, to the queue and under the id that the message names, and nothing else |
| RpcProtocol.NextKeepsSubscribed | src/common/rabbitmq/rabbitmq.service.ts:144-173 | a first reply or the timer settles a request only while it is pending, and each closes the door on the other |
| RpcProtocol.SettledAtMostOnce | src/common/rabbitmq/rabbitmq.service.ts:138-174 | over every run a request is settled at most once, and once exactly if it is no longer pending |
| RpcProtocol.OutcomeIsFinal | src/common/rabbitmq/rabbitmq.service.ts:138-174 | nothing changes how a request ended, and a reply queue that was torn down never comes back |
| RpcProtocol.EndRpcEffect | src/common/rabbitmq/rabbitmq.service.ts:223-247 | what a handler's end adds to the delivery's account, told from its message and result alone |
| RpcProtocol.DeliveriesSettleOnce | src/common/rabbitmq/rabbitmq.service.ts:223-247 | an RPC delivery is acked once, and answered once when it names a reply queue, if and only if its handler's turn has ended and not both a reply was asked for and what was thrown cannot be told of; else it is neither acked nor answered |
| RpcProtocol.StrandedForGood | src/common/rabbitmq/rabbitmq.service.ts:237-246 | a delivery left so is never acked or answered later |
| RpcProtocol.StrandedRun | src/common/rabbitmq/rabbitmq.service.ts:237-246 | one such run: the handler throws null, and the caller learns of nothing but the timeout |
| RpcProtocol.EventsSettleOnce | src/common/rabbitmq/rabbitmq.service.ts:193-204 | an event delivery is acked exactly when its handler has returned, even if its promise fails later, and nacked exactly when the body is not JSON or the handler threw something readable at once |
| RpcProtocol.SendKeepsMail | src/common/rabbitmq/rabbitmq.service.ts:156-159 | a published message names its own request's queue and id, and every message still belongs to a request |
| RpcProtocol.AnswerKeepsReplies | src/common/rabbitmq/rabbitmq.service.ts:230-244 | an answer reaches the reply queue of the one request that sent the message, and no other's |
| RpcProtocol.OpenKeepsMail | src/common/rabbitmq/rabbitmq.service.ts:129-136 | a new request shares neither id nor reply queue with an earlier one, and no message changes hands |
| RpcProtocol.ReceiveKeepsMail | src/common/rabbitmq/rabbitmq.service.ts:144-150 | a reply that resolves a request answers that request's own message |
| RabbitMQ.RabbitMQService.OnRpcHandled | src/common/rabbitmq/rabbitmq.service.ts:223-247 | whatever the handler did: one answer, which is the one its result calls for, and one ack, and neither of them exactly where the error branch itself throws |
| WhereCompiler.ApplyKey | src/common/abstracts/repository.abstract.ts:338-347 | the last recognised operator of a key wins; a refused argument fails the whole compilation |
| WhereCompiler.ApplyWhere | src/common/abstracts/repository.abstract.ts:335-351 | the compiled options, or a refusal exactly when some operator refuses its argument |
| WhereCompiler.CompiledMeansLast | src/common/abstracts/repository.abstract.ts:335-351 | for any meaning of the operators, the options mean the conjunction of each key's last condition |
| WhereCompiler.NeverRejects | src/common/abstracts/repository.abstract.ts:335-351 | a row that meets everything the client asked for, unknown entries included, is never turned away |
| WhereCompiler.ExactExactlyWhen | src/common/abstracts/repository.abstract.ts:338-347 | the options mean what the client asked for if and only if every entry is known, no object is empty and no key names two different conditions |
| WhereCompiler.IgnoredRow | src/common/abstracts/repository.abstract.ts:341-343 | a row that fails only an unknown entry is accepted |
| WhereCompiler.DroppedRow | src/common/abstracts/repository.abstract.ts:338-344 | a row that fails only an overwritten condition is accepted |
| WhereMeaning.NumbersEqual | src/common/abstracts/repository.abstract.ts:32-33 | the numbers that $eq and $ne find |
| WhereMeaning.NumbersLess | src/common/abstracts/repository.abstract.ts:34-35 | the numbers that $lt and $lte find |
| WhereMeaning.NumbersMore | src/common/abstracts/repository.abstract.ts:36-37 | the numbers that $gt and $gte find |
| WhereMeaning.NumbersListed | src/common/abstracts/repository.abstract.ts:38-39 | the numbers that $in and $nIn find |
| WhereMeaning.OneNumberListed | src/common/abstracts/repository.abstract.ts:38-39 | a value alone is a list of one |
| WhereMeaning.NumbersBetween | src/common/abstracts/repository.abstract.ts:46-54 | $between includes both bounds; any other number of bounds is refused |
| WhereMeaning.OnlyNullFindsEmpty | src/common/abstracts/repository.abstract.ts:44-45 | a row without a value is found by $null and by no other operator, negated ones included |
| WhereMeaning.AnyValueIsFound | src/common/abstracts/repository.abstract.ts:44-45 | a value is always found by $nNull and never by $null |
| WhereMeaning.TextsContaining | src/common/abstracts/repository.abstract.ts:40-41 | $contains and $nContains test against the argument with a percent sign on either side |
| WhereMeaning.TextsContainingInAnyCase | src/common/abstracts/repository.abstract.ts:42-43 | $iContains and $nIContains do so with the test that ignores case |
| WhereMeaning.ArraysWithAll | src/common/abstracts/repository.abstract.ts:55-80 | the "all" operators find the arrays that hold every named value |
| WhereMeaning.ArraysWithAny | src/common/abstracts/repository.abstract.ts:62-87 | the "any" operators find those that hold one of them |
| WhereMeaning.ArraysWithOne | src/common/abstracts/repository.abstract.ts:69-90 | the "value" operators find those that hold the value |
| WhereMeaning.PlainValues | src/common/abstracts/repository.abstract.ts:345-347 | plain values find the rows that hold each of them in its column |
| Paging.Query.HandlePagination | src/common/interceptors/query-many.interceptor.ts:31-37 | an absent page or limit becomes 1 or 50, and any other stays, null included |
| Paging.Query.HandleOrder | src/common/interceptors/query-many.interceptor.ts:39-43 | the client's columns written over the two defaults leave those first in place, even where their direction is overridden, and the rest in the client's order |
| Paging.TieBreakerDecides | src/common/interceptors/query-many.interceptor.ts:39-43 | for every client order, created_at and id alone decide between any two rows, and always decide |
| Paging.EffectiveIs | src/common/interceptors/query-many.interceptor.ts:39-43 | the sort order, entry by entry: created_at, id, and behind them exactly the client's other columns |
| Paging.NewestFirst | src/common/interceptors/query-many.interceptor.ts:39-43 | newest first, then largest id first, each reversed exactly when the client asked for ascending |
| Paging.SortedIsUnique | src/common/interceptors/query-many.interceptor.ts:39-43 | a set of rows has one sorted arrangement only |
| Paging.OtherColumnsNeverMatter | src/common/interceptors/query-many.interceptor.ts:39-43 | an arrangement is sorted by the effective order if and only if it is sorted by created_at and id |
| Paging.ResponseMetadata | src/common/abstracts/service.abstract.ts:366-385 | page and size, the configured ones where absent, null where null; just enough pages for all items, one without items or a usable limit or when all rows were asked for |
| Paging.PagesPartition | src/common/abstracts/repository.abstract.ts:169-178 | pages 1 to total_pages together are the sorted result; all but the last are full, the last is not empty unless the result is, later pages are empty |
| Dataloader.Dedup | src/common/abstracts/service.abstract.ts:76-86 | the same ids, each once |
| Dataloader.DedupKeepsOrder | src/common/abstracts/service.abstract.ts:78 | in the order in which they first appear |
| Dataloader.ListFieldIsExact | src/modules/bookings/booking.resolver.ts:158-181 | a list field shows the rows at exactly those positions of the stored ids that exist, in increasing order, whatever the database's order and the rest of the batch; if all exist, row k is that of id k |
| Dataloader.GroupByParent | src/common/dataloader/dataloader.service.ts:61-80 | each parent's array is the order-preserving filter of the rows, and only parents with rows have one |
| Dataloader.BatchAgreesWithSingle | src/common/dataloader/dataloader.service.ts:61-80 | a parent's group in any batch has the same rows, as often, as loading that parent alone |
| Dataloader.GroupKeepsOrder | src/common/dataloader/dataloader.service.ts:69-76 | a group keeps the order in which its rows came |
| Sanitizer.Node.SanitizeAt | src/common/interceptors/sanitize.interceptor.ts:80-95 | one field is rewritten as specified, every other field is untouched |
| Sanitizer.Node.SanitizeElements | src/common/interceptors/sanitize.interceptor.ts:87-92 | forEach: strings stay, objects and nested arrays are walked as records |
| Sanitizer.Node.SanitizeObject | src/common/interceptors/sanitize.interceptor.ts:73-97 | in place and inside the tree only, the tree becomes the specified one, also when the walk throws half way |
| Sanitizer.Intercept | src/common/interceptors/sanitize.interceptor.ts:58-71 | input, then data, and data not at all if input threw |
| Sanitizer.CompletesWhenClassed | src/common/interceptors/sanitize.interceptor.ts:76-78 | the walk gets through if and only if every object at every depth has a constructor |
| Sanitizer.SanitizedEverywhere | src/common/interceptors/sanitize.interceptor.ts:73-97 | at every depth, each string becomes its rich form if its own object's class lists the field, and its plain form otherwise, in arrays always; it is left alone exactly under odd array nesting; all else is the same |
| CodeGenerator.ParsePrint | src/common/utils/string.util.ts:11 | base-36 print then parse is the identity |
| CodeGenerator.DigitsAre | src/common/utils/string.util.ts:10 | the 36 digits are those of the alphabet, in its order |
| CodeGenerator.CodeDecodes | src/common/utils/string.util.ts:9-15 | a code determines prefix, time and tail, for every prefix |
| CodeGenerator.PrintSorts | src/common/utils/string.util.ts:11 | numbers with equally many digits sort as their digits do |
| CodeGenerator.CodesSort | src/common/utils/string.util.ts:9-15 | with one prefix and equally many digits, codes sort by time, then by tail, and only so |
| CodeGenerator.CodesOfOurTimeSort | src/common/utils/string.util.ts:9-15 | from 1972 to 2059 a later time always gives a larger code |

## Left out

Carts and orders:

- StatusWalk.HistoryReplays: covers runs in which a change to SHIPPED is made by `shippedOrder`, its only caller in the source; a direct change to SHIPPED would not be logged at all.
- Carts.CartService.CheckoutCart: payment status and the amounts paid and remaining are not columns of the model.
- OrderDetails.OrderDetailService.CreateOrderDetail: payment status is not a column of the model, and a status is given or absent, never null.
- OrderDetails.OrderDetailService.UpdateOrderDetail: the same.
- Concurrent operations: operations run one after another, except for the tasks inside checkout.
- Orders created with nested lines, and updates with arbitrary client data, whose effect rests on the mapper's cascading saves; deleting and restoring orders; a caller that skips validation, other than checkout.
- Product, price and unit management beyond the fact that prices change between operations.
- Storage failures, database constraints and their cascades, 32-bit column overflow, timestamps, audit ids, published events, cache invalidation and log output.

Log masker:

- Lone surrogates (characters are Unicode scalar values), an own property named `__proto__`, getters, and what a date, map or error keeps outside its own entries.

Message broker:

- What the process does when a callback throws (the model stops at the delivery that is then neither acked nor nacked).
- Broker failures, redelivery, prefetch, connection and reconnection, channel calls that throw, replies forged by other publishers, the parsing of a reply's body.
- A request refused because its queue has no consumer, which leaves its empty reply queue behind.
- `requestRabbitMQRPC`, a thin wrapper around `request`.

Query layer:

- undefined or null as a where-value, parsing of the client's JSON, the database's two pattern tests (any tests will do), and the type that the string array operators cast to.
- The order of integer-like property names in a client's sort object; what the database does with a null page, a page below 1 or a limit below 1; a pagination type of null.
- The loader library's own cache and scheduling, and a failed batch query, which the source turns into an empty list.

Sanitiser and codes:

- `sanitizeHtml` itself: two arbitrary string functions stand for its two settings. Arguments that share objects or are cyclic, getters and frozen objects.
- The clock and the random generator are arguments of the code generator.

Not modelled, as they would only add easy members or are foreign: bookings and appointments (the same status engine
with smaller tables), resolvers and input validation, guards, sessions and hashing, the cache, file storage, health
checks and metrics.
