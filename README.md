# tut-rest payroll and bookmarks, modelled in Dafny

This is a model of the small amount of real logic in the Spring REST tutorial
(spring-guides/tut-rest). The logic sits behind its web controllers. Every
Spring Data repository is treated as an abstract store: a finite map from
identifier to stored row, plus an identifier generator. `save` on an entity
without an identifier allocates a fresh one and writes it into the entity
itself. `save` on an entity with an identifier stores it under that identifier.

- **Orders** (links variant). An order has an id, a description and a status.
  - `newOrder` forces the status to `IN_PROGRESS` before saving.
  - `cancel` moves `IN_PROGRESS` to `CANCELLED`; `complete` moves `IN_PROGRESS` to `COMPLETED`.
  - Any other transition is refused with a "Method not allowed" error whose detail names the current status.
  - An unknown id fails with `OrderNotFound`.
  - One pure function, `OrderControl.Apply`, states the transition rule. The
    controller's `Cancel` and `Complete` are proved to do exactly what it
    says, and the lifecycle lemmas are proved about `Apply` and about `Run`,
    its iteration over a request sequence.
  - Two assemblers, `toResource` and `toModel`, wrap an order with links.
    `self` and `orders` are always present; `cancel` and `complete` appear
    exactly while the order is in progress. This is proved to match the
    controller's guards.
- **Employees** (links and evolution variants). `getName` joins the first and
  last name with a space. `setName` splits its argument the way Java's
  `String.split(" ")` does and assigns pieces 0 and 1.
  - A string without a space comes back whole; otherwise trailing empty pieces are dropped.
  - A null name field prints as `null`.
  - With fewer than two pieces, `setName` throws an index-out-of-bounds error. With one piece, the first name has already been overwritten when it throws.
  - `replaceEmployee` is an upsert, stated once by the pure `EmployeeControl.Replace`.
  - The links and evolution controllers have the same code for `all`, `newEmployee`, `one`, `replaceEmployee` and `deleteEmployee`; they differ only in an unused order assembler field and line positions (`ReplaceEmployee` cites the evolution file's lines 78-97, the same handler is at lines 74-93 of the links file). One class models both.
- **Bookmarks** (rest variant). Every handler first checks that some account
  has the username in the path. `readBookmarks` filters by the owner's
  username. `add` builds a bookmark from the request's uri and description and
  the looked-up account. `readBookmark` returns whatever is stored under the
  id, whoever owns it.

Entities whose fields the source updates in place (`Order`, `Employee`) are
classes with setters. The store keeps their values (`OrderRow`, `EmployeeRow`);
handlers that load an entity build a fresh object from the stored row, as
`findById` does. `Bookmark` and `Account` are never changed after construction
and are datatypes.

Two consequences of the code are easy to miss:
- `newOrder` with a client-supplied id overwrites the order stored under it, because the store merges. A terminal order therefore stays terminal under `cancel` and `complete` (`TerminalIsAbsorbing`), but not under a `newOrder` that names its id.
- `replaceEmployee` is idempotent only as `ReplaceIdempotent` states (see below).

Files: `common.dfy` (Option, Result), `repository.dfy` (the store),
`order.dfy`, `order_resource_assembler.dfy`, `order_model_assembler.dfy`,
`order_controller.dfy`, `employee.dfy`, `employee_controller.dfy`,
`bookmark.dfy`, `bookmark_controller.dfy`.

## Model

| member | source | states |
|---|---|---|
| `Store.Repository.constructor` | links/src/main/java/payroll/LoadDatabase.java:14-15 | a new store is empty and valid |
| `Store.Repository.FindById` | links/src/main/java/payroll/OrderController.java:50-51 | returns a row exactly when the id is stored, and then the stored row |
| `Store.Repository.FreshId` | links/src/main/java/payroll/Order.java:14 | a generated id is not in use and is larger than every stored id |
| `Store.Repository.Put` | links/src/main/java/payroll/OrderController.java:58 | `save` stores the row under its id and changes no other entry; the store stays valid |
| `Store.Repository.DeleteById` | links/src/main/java/payroll/EmployeeController.java:98 | the id is absent afterwards and every other entry is unchanged |
| `Store.Repository.FindAll` | links/src/main/java/payroll/OrderController.java:39 | `findAll` lists every stored row exactly once |
| `OrderEntity.StatusName` | links/src/main/java/payroll/OrderController.java:79 | a status prints as its enum constant's name: non-empty, upper-case letters and underscores, no space |
| `OrderEntity.StatusNameInjective` | links/src/main/java/payroll/OrderController.java:79 | different statuses print differently, so the message identifies the status |
| `OrderEntity.Order.constructor` | links/src/main/java/payroll/Order.java:21-25 | description and status as given, id unset |
| `OrderEntity.Order.FromRow` | links/src/main/java/payroll/OrderController.java:70 | the loaded object holds exactly the stored values |
| `OrderEntity.Order.SetId` | links/src/main/java/payroll/Order.java:39-41 | only the id changes |
| `OrderEntity.Order.SetDescription` | links/src/main/java/payroll/Order.java:43-45 | only the description changes |
| `OrderEntity.Order.SetStatus` | links/src/main/java/payroll/Order.java:47-49 | only the status changes |
| `OrderEntity.Order.Equals` | links/src/main/java/payroll/Order.java:51-61 | true exactly when the other object is an `Order` with the same id, description and status; false for null and non-orders |
| `OrderEntity.EqualsIsEquivalence` | links/src/main/java/payroll/Order.java:51-61 | `equals` is reflexive, symmetric and transitive, and false against null |
| `OrderResourceAssembly.Resource.Add` | links/src/main/java/payroll/OrderResourceAssembler.java:25-30 | `add` appends the link at the end, adds exactly its relation to the relation set and keeps the content |
| `OrderResourceAssembly.ToResource` | links/src/main/java/payroll/OrderResourceAssembler.java:13-34 | content is the order unchanged; relations are {self, orders}, plus {cancel, complete} exactly when in progress; each link points at its handler for this order; no relation twice |
| `OrderResourceAssembly.AlwaysSelfAndOrders` | links/src/main/java/payroll/OrderResourceAssembler.java:17-20 | `self` and `orders` are present for every order |
| `OrderResourceAssembly.ActionLinksIffInProgress` | links/src/main/java/payroll/OrderResourceAssembler.java:24-31 | `cancel` and `complete` are each present if and only if the status is in progress |
| `OrderModelAssembly.EntityModel.Add` | links/src/main/java/payroll/OrderModelAssembler.java:25-30 | `add` appends the link at the end, adds exactly its relation to the relation set and keeps the content |
| `OrderModelAssembly.ToModel` | links/src/main/java/payroll/OrderModelAssembler.java:13-34 | the same content and relation rule, and the very same links as `toResource` |
| `OrderModelAssembly.TerminalModelHasOnlyNavigation` | links/src/main/java/payroll/OrderModelAssembler.java:17-31 | a completed or cancelled order carries exactly {self, orders} |
| `OrderControl.NotAllowedDetail` | links/src/main/java/payroll/OrderController.java:79 | the refusal detail starts with "You can't " and the action's verb and ends with the current status's name followed by " status" |
| `OrderControl.DetailNamesStatus` | links/src/main/java/payroll/OrderController.java:94-96 | for one action, different statuses give different details, so the detail identifies the status |
| `OrderControl.NotAllowed` | links/src/main/java/payroll/OrderController.java:77-79 | the refusal is a "Method not allowed" error whose detail starts with "You can't " and the refused action's verb and ends with the current status's name followed by " status" |
| `OrderControl.Apply` | links/src/main/java/payroll/OrderController.java:67-97 | success iff the order exists and is in progress, then only its status changes, to the action's target; unknown id gives `OrderNotFound(id)`; a terminal order gives the not-allowed error naming its status; on failure nothing changes |
| `OrderControl.TerminalIsAbsorbing` | links/src/main/java/payroll/OrderController.java:70-92 | a completed or cancelled order is unchanged by any sequence of cancel/complete requests |
| `OrderControl.NoTransitionAfterSuccess` | links/src/main/java/payroll/OrderController.java:67-97 | after one transition succeeds, any later cancel or complete of that order, after any requests, is refused naming the status reached |
| `OrderControl.CancelTwice` | links/src/main/java/payroll/OrderController.java:70-79 | cancelling an in-progress order succeeds once, and a second cancel is refused with status `CANCELLED` |
| `OrderControl.LinksMatchGuards` | links/src/main/java/payroll/OrderResourceAssembler.java:24-31 | a cancel (complete) link is offered exactly when the cancel (complete) request would succeed |
| `OrderControl.PreloadedScenario` | links/src/main/java/payroll/LoadDatabase.java:25-26 | on the preloaded orders, cancelling the completed MacBook Pro is refused, completing the iPhone succeeds, order 3 is not found |
| `OrderControl.OrderController.constructor` | links/src/main/java/payroll/OrderController.java:29-34 | the controller uses the given store |
| `OrderControl.OrderController.All` | links/src/main/java/payroll/OrderController.java:36-45 | one representation per stored order, each that order's `toResource` |
| `OrderControl.OrderController.One` | links/src/main/java/payroll/OrderController.java:47-52 | the stored order's representation, or `OrderNotFound(id)` |
| `OrderControl.OrderController.Save` | links/src/main/java/payroll/OrderController.java:58 | an order without id gets the fresh id written into it; the store changes only at that id |
| `OrderControl.OrderController.NewOrder` | links/src/main/java/payroll/OrderController.java:54-63 | the stored order is in progress whatever status it carried, description kept; without an id it is added under a fresh id and nothing else changes |
| `OrderControl.OrderController.Transit` | links/src/main/java/payroll/OrderController.java:67-97 | the store and the answer are exactly those `Apply` gives |
| `OrderControl.OrderController.Cancel` | links/src/main/java/payroll/OrderController.java:67-80 | the store and the answer are exactly those `Apply` gives for a cancel |
| `OrderControl.OrderController.Complete` | links/src/main/java/payroll/OrderController.java:84-97 | the store and the answer are exactly those `Apply` gives for a complete |
| `EmployeeEntity.Pieces` | links/src/main/java/payroll/Employee.java:32 | splitting on single spaces yields at least one piece |
| `EmployeeEntity.Split` | links/src/main/java/payroll/Employee.java:32 | `split(" ")`: a string without a space is returned whole; otherwise the pieces between spaces with only the trailing empty pieces dropped; no piece contains a space |
| `EmployeeEntity.DropTrailingEmpty` | links/src/main/java/payroll/Employee.java:32 | the result is a prefix, ends with a non-empty piece (or is empty), and only empty pieces were dropped |
| `EmployeeEntity.JoinPieces` | links/src/main/java/payroll/Employee.java:32 | joining the raw pieces with spaces gives back the string |
| `EmployeeEntity.PiecesHaveNoSpace` | links/src/main/java/payroll/Employee.java:32 | no piece contains a space |
| `EmployeeEntity.PiecesOfWord` | links/src/main/java/payroll/Employee.java:32 | a word without a space is one piece |
| `EmployeeEntity.PiecesAfterWord` | links/src/main/java/payroll/Employee.java:32 | a word, a space and a rest split into the word followed by the pieces of the rest |
| `EmployeeEntity.PiecesOfJoin` | links/src/main/java/payroll/Employee.java:26-35 | space-free pieces joined with spaces split back into the same pieces |
| `EmployeeEntity.SplitTwoWords` | links/src/main/java/payroll/Employee.java:26-35 | two non-empty space-free words joined by a space split into exactly those two |
| `EmployeeEntity.SplitKeepsFirstTwo` | links/src/main/java/payroll/Employee.java:32-34 | pieces after the second do not affect the first two |
| `EmployeeEntity.SplitSingleWord` | links/src/main/java/payroll/Employee.java:32-34 | a single word, with or without a trailing space, gives fewer than two pieces |
| `EmployeeEntity.Name` | links/src/main/java/payroll/Employee.java:26-28 | the rendered first name, one space, the rendered last name (null as "null"); plain names split back into exactly those two |
| `EmployeeEntity.WithName` | links/src/main/java/payroll/Employee.java:30-35 | succeeds iff the split has at least two pieces, then the names are pieces 0 and 1 and id and role are kept; otherwise throws index out of bounds at the split's length |
| `EmployeeEntity.NameRoundTrip` | links/src/main/java/payroll/Employee.java:26-35 | with non-empty space-free names, `setName(getName())` changes nothing |
| `EmployeeEntity.NullFirstNameBecomesText` | links/src/main/java/payroll/Employee.java:26-27 | a null first name comes back from `setName(getName())` as the text "null" |
| `EmployeeEntity.Employee.Blank` | links/src/main/java/payroll/Employee.java:17 | every field null |
| `EmployeeEntity.Employee.constructor` | links/src/main/java/payroll/Employee.java:19-24 | names and role as given, id unset |
| `EmployeeEntity.Employee.FromRow` | links/src/main/java/payroll/EmployeeController.java:77 | the loaded object holds exactly the stored values |
| `EmployeeEntity.Employee.GetName` | links/src/main/java/payroll/Employee.java:26-28 | the object's rendered first name, one space, its rendered last name; plain names split back into exactly those two |
| `EmployeeEntity.Employee.SetName` | links/src/main/java/payroll/Employee.java:30-35 | id and role kept; no piece: nothing changes, index 0 thrown; one piece: first name set, index 1 thrown; otherwise the fields become exactly `WithName`'s result |
| `EmployeeEntity.Employee.SetId` | links/src/main/java/payroll/Employee.java:53-55 | only the id changes |
| `EmployeeEntity.Employee.SetFirstName` | links/src/main/java/payroll/Employee.java:57-59 | only the first name changes |
| `EmployeeEntity.Employee.SetLastName` | links/src/main/java/payroll/Employee.java:61-63 | only the last name changes |
| `EmployeeEntity.Employee.SetRole` | links/src/main/java/payroll/Employee.java:65-67 | only the role changes |
| `EmployeeEntity.Employee.Equals` | links/src/main/java/payroll/Employee.java:69-79 | true exactly when the other object is an `Employee` with the same four fields |
| `EmployeeControl.Replace` | links/src/main/java/payroll/EmployeeController.java:77-86 | other records unchanged; fails iff the id exists and the request's name splits into fewer than two pieces, then nothing changes and the error is index out of bounds at the split's length; an existing record becomes that record with first name piece 0, last name piece 1 and the request's role; an absent id stores the request with the path id |
| `EmployeeControl.ReplaceKeepsPlainNames` | links/src/main/java/payroll/EmployeeController.java:77-82 | with plain request names, an existing record takes exactly the request's names and role |
| `EmployeeControl.ReplaceIdempotent` | evolution/src/main/java/payroll/EmployeeController.java:81-90 | a second identical request leaves the store as the first did, when the id existed or the names are plain |
| `EmployeeControl.ReplaceTwiceCanRename` | evolution/src/main/java/payroll/EmployeeController.java:81-90 | a first name with a space, inserted by one request, is re-split by the next: idempotence needs its proviso |
| `EmployeeControl.EmployeeController.constructor` | links/src/main/java/payroll/EmployeeController.java:30-37 | the controller uses the given store |
| `EmployeeControl.EmployeeController.All` | links/src/main/java/payroll/EmployeeController.java:42-51 | one entry per stored employee |
| `EmployeeControl.EmployeeController.Save` | links/src/main/java/payroll/EmployeeController.java:56 | an employee without id gets the fresh id written into it; the store changes only at that id |
| `EmployeeControl.EmployeeController.NewEmployee` | evolution/src/main/java/payroll/EmployeeController.java:53-61 | without an id exactly one record is added, under a fresh id, and nothing else changes; with an id that record is replaced; the request object ends holding exactly the saved row |
| `EmployeeControl.EmployeeController.One` | links/src/main/java/payroll/EmployeeController.java:65-72 | the stored employee, or `EmployeeNotFound(id)` |
| `EmployeeControl.EmployeeController.ReplaceEmployee` | evolution/src/main/java/payroll/EmployeeController.java:78-97 | the store and the answer are exactly those `Replace` gives; the request object gets the path id only when nothing was stored there |
| `EmployeeControl.EmployeeController.DeleteEmployee` | links/src/main/java/payroll/EmployeeController.java:95-101 | the id is absent afterwards and every other record is unchanged |
| `BookmarkEntity.NewBookmark` | model/src/main/java/bookmarks/Bookmark.java:27-32 | account, uri and description as given, id unset |
| `BookmarkEntity.From` | model/src/main/java/bookmarks/Bookmark.java:34-36 | the given account with the source's uri and description, id unset |
| `BookmarkEntity.FromOwnAccountForgetsId` | model/src/main/java/bookmarks/Bookmark.java:34-36 | copying a bookmark for its own account drops only its id |
| `BookmarkEntity.FromReadsOnlyUriAndDescription` | model/src/main/java/bookmarks/Bookmark.java:34-36 | `from` depends on the source only through its uri and description |
| `BookmarkControl.FindByUsername` | rest/src/main/java/bookmarks/BookmarkRestController.java:59-60 | nothing exactly when no account has the username, otherwise a stored account with it |
| `BookmarkControl.OwnedBy` | rest/src/main/java/bookmarks/BookmarkRestController.java:52 | a stored bookmark is included exactly when its account has the username, and nothing else is included |
| `BookmarkControl.BookmarkRestController.constructor` | rest/src/main/java/bookmarks/BookmarkRestController.java:42-47 | the controller uses the two given stores |
| `BookmarkControl.BookmarkRestController.ValidateUser` | rest/src/main/java/bookmarks/BookmarkRestController.java:81-84 | fails with `UserNotFound(userId)` exactly when no account has the username |
| `BookmarkControl.BookmarkRestController.ReadBookmarks` | rest/src/main/java/bookmarks/BookmarkRestController.java:49-53 | the user's bookmarks for a known user, `UserNotFound` otherwise; nothing changes |
| `BookmarkControl.BookmarkRestController.Add` | rest/src/main/java/bookmarks/BookmarkRestController.java:55-73 | unknown user: `UserNotFound`, nothing changes; known user: always `Created` (never no-content), one bookmark added under a fresh id with the request's uri and description and an account of that username, nothing else changed |
| `BookmarkControl.BookmarkRestController.ReadBookmark` | rest/src/main/java/bookmarks/BookmarkRestController.java:75-79 | for a known user, whatever is stored under the id (or nothing), whoever owns it; `UserNotFound` otherwise |

## Left out

- HTTP itself is not modelled: status codes, `Location` headers, link hrefs and URI building, and JSON. An answer is a `Result`, and a link records only its relation and the handler and order id it points at.
- The `Resources` wrapper, with its own self link, that `all` returns is not modelled. `All` returns the sequence of representations.
- `EmployeeResourceAssembler` is not part of this model, so the employee handlers return the stored employee rather than its representation.
- `toString` and `hashCode` of `Order` and `Employee` are left out. They are formatting and `Objects.hash` values.
- The `Status` enum file is not part of this model. Its three values and their names come from the controller.
- A null order status or description, and null bookmark strings, are not modelled. Employee name fields may be null.
- `Long` identifiers are unbounded integers, and each store has its own counter starting at 1. Overflow and the generation strategy are left out: with a single sequence shared by all entities (Hibernate 5's default), the preloaded orders would be numbered after the two preloaded employees, not 1 and 2 as in `PreloadedScenario`.
- Concurrency is left out: the handlers run one at a time, so the race between concurrent `cancel` and `complete` is not captured.
- Persistence details are left out: transactions, lazy loading and Hibernate's possible assignment of a new id when merging the absent-id `replaceEmployee` entity. `save` on an entity with an id stores it under that id.
- `Store.Repository.DeleteById`: follows Spring Data JPA 3 (the `jakarta.persistence` imports), where `deleteById` of an absent id is a no-op. The `EmptyResultDataAccessException` that Spring Data 2.x throws in that case is not modelled.
- `BookmarkControl.FindByUsername` returns some account with the username. The exception Spring Data raises when two accounts share a username is not modelled.
- `readBookmark` uses Spring Data's old `findOne`; its null for a missing id is `None`.
- The exception classes (`OrderNotFoundException`, `EmployeeNotFoundException`, `UserNotFoundException`) are error variants. The advice that turns them into 404 answers is not modelled.
- `Account`'s own `bookmarks` collection is never maintained by the source and is not modelled.
- Bookmark getters are the datatype's fields.
- `EmployeeControl.ReplaceIdempotent`: proved only when the id is already stored or the request's names are non-empty and space-free. `ReplaceTwiceCanRename` shows that without this the second request renames an employee inserted by the first.
