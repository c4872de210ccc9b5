# Pickup-point receiving workflow, modelled in Dafny

This project models the core of a pickup-point (PVZ) operations API. Moderators register pickup
points. Employees run a receiving workflow at a pickup point: open a reception, add products to it,
remove the most recently added product, and close the reception.

The model has two layers:

- The **entity store** (`source/db/methods.py`). `Methods.Store` is a class holding the user,
  pickup-point, reception and product tables as sequences of rows in insertion order. It also holds
  a logical clock that stands for the database's `now()`, and a supply of fresh ids that stands for
  `uuid4()`.
  - Each writer appends or deletes one row and commits.
  - A commit either takes effect entirely or fails and leaves every table unchanged.
  - Commit failure comes from the environment (the `commitOk` parameter) or from a foreign key
    that does not resolve.
- The **endpoint handlers** (`source/routers/pvz/actions.py`). `Actions` has one method per
  endpoint. Each handler checks the caller's role, reads the latest reception of the pickup point,
  and then either rejects the request or calls one store writer. The result is an `Outcome`:
  - a response with status and description;
  - an `HTTPException` with status and detail;
  - an unhandled exception;
  - the handler returning `None`.

The current state of a pickup point is never stored. It is derived from the reception with the
greatest `dateTime`. Closing does not update that row: it **appends a new reception row** with status
`close`. The earlier `in_progress` row keeps its status and its products. "Open" and "closed"
therefore describe only the latest row. `ORDER BY dateTime DESC ... first()` may return any of the
rows that tie on `dateTime`, so:

- "latest" is a predicate (`Queries.IsLatestReception`, `Queries.IsLatestProduct`);
- the readers choose nondeterministically among the rows that satisfy it;
- the handlers report the row they read as a ghost out-parameter (`seen`).

When timestamps strictly increase (the clock advanced between writes), the latest row is the one
inserted last. That makes removal strictly last-in-first-out
(`Queries.LatestProductIsLastAdded`, `Queries.DeletingLatestPopsLedger`, `Flows.PopNewest`).

Other modules:

- `DbTypes`: the string enumerations.
- `Models`: the row shapes, column defaults, key constraints and cascade deletes of
  `source/db/models.py`.
- `Schemas`: the request validation of `source/shemas/endpoint_shemas.py`.
- `Flows`: request sequences replayed in the manner of the unit and integration tests. These
  include the receiving scenario: three products added, the newest removed, close, a second close
  refused, and a new reception opened under a fresh id.

Behaviour of the code that the model keeps:

- `close_reception` appends a `close` row and leaves the open row's status as it is
  (source/db/methods.py:81-89).
- With no reception at all, the close handler's `except` clause reads `last_rec.status` on `None`
  (source/routers/pvz/actions.py:155-156), so the request ends in an unhandled exception.
- When closing an open reception fails to commit, the `except` clause finds the reception still
  `in_progress`, raises nothing and the handler returns `None` (source/routers/pvz/actions.py:154-160).
- In `create_pvz_`, `create_reception`, `create_product` and `delete_last_product`, every exception
  raised inside the `try` block, a failed commit included, becomes a 400 response with the
  handler's fixed detail text.
- Both latest-row queries order by `dateTime` alone, so rows stamped at the same instant are all
  admissible results of `first()` (`Queries.SameTickReceptionsAreBothLatest`).

## Model

| member | source | states |
|---|---|---|
| DbTypes.ParseRole | source/db/db_types.py:4-6 | a string is accepted as a role exactly when it is the value string of that role ("employee", "moderator") |
| DbTypes.ParseStatus | source/db/db_types.py:8-10 | a string is accepted as a reception status exactly when it is the value string of that status ("in_progress", "close") |
| DbTypes.ParseProductType | source/db/db_types.py:12-15 | a string is accepted as a product type exactly when it is one of the three catalogue values |
| DbTypes.ParseCity | source/db/db_types.py:17-20 | a string is accepted as a city exactly when it is one of the three city values |
| Models.NewUser | source/db/models.py:28-33 | a user whose role is left unset gets the role employee; the other columns are as given |
| Models.NewReception | source/db/models.py:42-51 | a reception whose status is left unset gets status in_progress; id, timestamp and pvzId are as given |
| Models.DeleteReception | source/db/models.py:53 | deleting a reception removes exactly that reception and every product that belongs to it; nothing else changes |
| Models.DeletePvz | source/db/models.py:40 | deleting a pickup point removes it, all its receptions and all products of those receptions; users are untouched |
| Models.DeleteReceptionKeepsConsistent | source/db/models.py:55-61 | after a cascade delete of a reception, primary keys stay unique and every product still names an existing reception |
| Models.DeletePvzKeepsConsistent | source/db/models.py:35-61 | after a cascade delete of a pickup point, primary keys stay unique and no reception or product is left dangling |
| Schemas.MakeCredentials | source/shemas/endpoint_shemas.py:14-16 | credentials are accepted exactly when the password has at least 6 characters |
| Schemas.MakeRegistration | source/shemas/endpoint_shemas.py:11-19 | a registration is accepted exactly when its credentials are accepted and its role is a RoleType value; it carries both parts unchanged |
| Schemas.MakePvzUnit | source/shemas/endpoint_shemas.py:21-22 | a pickup-point body is accepted exactly when its city is one of the CityType values, and it then carries that city |
| Schemas.MakeProductUnit | source/shemas/endpoint_shemas.py:30-34 | a product body is accepted exactly when its type is a ProductType value, and it then carries the pickup-point id and that type |
| Schemas.MakePvzList | source/shemas/endpoint_shemas.py:24-28 | the listing query is accepted exactly when page is at least 1 and limit lies in 1..30; both default to 1 |
| Seqs.LatestByExists | source/db/methods.py:62-69 | among the rows that pass a `where` filter, when there is any, one has the greatest ordering key, so `order_by(desc).first()` has a result |
| Seqs.LatestByIsLast | source/db/methods.py:91-97 | when the ordering key strictly increases along the filtered rows, a row has the greatest key exactly when it is the last of them |
| Queries.LatestReceptionExists | source/db/methods.py:62-69 | a pickup point with at least one reception has a reception of maximal dateTime, so the query does not return None |
| Queries.LatestProductExists | source/db/methods.py:91-97 | a reception with at least one product has a product of maximal dateTime |
| Queries.LatestReceptionIsLastInserted | source/db/methods.py:62-69 | when a pickup point's receptions have strictly increasing timestamps, a reception is latest exactly when it is the one inserted last |
| Queries.LatestProductIsLastAdded | source/db/methods.py:91-97 | when a ledger's timestamps strictly increase, a product is latest exactly when it is the one added last |
| Queries.DeletingLatestPopsLedger | source/db/methods.py:91-101 | deleting the latest product of a strictly timed ledger leaves that ledger minus its last entry and every other reception's ledger unchanged |
| Queries.AppendedReceptionIsLatest | source/db/methods.py:42-50 | a reception appended at the current time is latest for its pickup point, and the only latest one when it is strictly newer |
| Queries.SameTickReceptionsAreBothLatest | source/db/methods.py:62-69 | two receptions of one pickup point with equal timestamps are both admissible results of the latest-reception query |
| Methods.Store.constructor | tests/unit/test_db_methods.py:40-46 | a fresh database has empty tables, satisfies the key and foreign-key invariant, and keeps the given hash function |
| Methods.Store.AdvanceClock | source/db/models.py:45 | time passing changes no row, so rows written later get later timestamps |
| Methods.Store.CreateUser | source/db/methods.py:14-25 | appends one user with a fresh id, the given e-mail and role, and the hash of the password as password; a failed commit changes nothing |
| Methods.Store.GetUserByEmail | source/db/methods.py:28-31 | returns a stored user with that e-mail, or None exactly when no user has it |
| Methods.Store.CreatePvz | source/db/methods.py:33-40 | appends one pickup point with a fresh id, the current time and the given city; nothing else changes; a failed commit changes nothing |
| Methods.Store.CreateReceptionForPvz | source/db/methods.py:42-50 | succeeds exactly when the commit goes through and the pickup point exists; it then appends exactly one in_progress reception with a fresh id and the current time, which becomes a latest reception of that point (the only one when strictly newer); otherwise nothing changes and the error says whether the key or the commit failed |
| Methods.Store.CloseReceptionForPvz | source/db/methods.py:81-89 | succeeds exactly when the commit goes through and the pickup point exists; it then leaves every existing row as it was and appends a new close reception with a fresh id, which becomes a latest reception of that point (the only one when strictly newer); otherwise nothing changes and the error says whether the key or the commit failed |
| Methods.Store.CreateProductForReception | source/db/methods.py:52-60 | succeeds exactly when the commit goes through and the reception exists; it then appends exactly one product of the given type to that reception's ledger, where it is a latest product; every other ledger and table is unchanged; otherwise nothing changes |
| Methods.Store.GetLastReceptionByPvz | source/db/methods.py:62-69 | read-only; returns a reception of the pickup point with maximal dateTime, or None exactly when the point has no reception |
| Methods.Store.GetPvzByReceptionId | source/db/methods.py:72-79 | returns the pickup point that the reception's pvzId names, or None exactly when no reception has that id |
| Methods.Store.DeleteLastProductForReception | source/db/methods.py:91-101 | with an empty ledger returns None and writes nothing; otherwise reads a product of the reception with maximal dateTime and, when the commit goes through, deletes exactly that row and returns it; a failed commit changes nothing; other tables never change |
| Actions.HandleCreatePvz | source/routers/pvz/actions.py:41-60 | non-moderators get 403 and nothing changes; otherwise one pickup point is appended (201), or 400 when the commit fails; the clock is left as it was |
| Actions.HandleCreateReception | source/routers/pvz/actions.py:68-93 | non-employees get 403; an open latest reception gives 400 with no write; otherwise exactly one in_progress reception is appended (201), or 400 when the write is refused; the clock is left as it was |
| Actions.HandleCreateProduct | source/routers/pvz/actions.py:101-126 | non-employees get 403; no reception or a closed latest one gives 400 with no write; otherwise the product is appended to the latest reception (201); the clock is left as it was |
| Actions.HandleCloseReception | source/routers/pvz/actions.py:134-160 | non-employees get 403; an open latest reception gets a close row appended (200); otherwise nothing is written and the re-read decides: no reception is an unhandled exception, a closed one 400, an open one no body; the clock is left as it was |
| Actions.HandleDeleteLastProduct | source/routers/pvz/actions.py:168-194 | non-employees get 403; no open latest reception gives 400; an empty ledger is a 200 "no products left" with no write; otherwise a latest product of the reception is deleted (200); the clock is left as it was |
| Flows.OpenFirstReception | tests/integration/test_pvz_flow.py:56-80 | from an empty database, a moderator's pickup point and an employee's first reception leave exactly one point, one in_progress reception of it and no products |
| Flows.AddProduct | tests/integration/test_pvz_flow.py:82-88 | adding a product to the open reception succeeds and appends exactly that product |
| Flows.RemoveNewest | source/routers/pvz/actions.py:179-188 | through the delete handler, removing the newest of three strictly timed products leaves the first two in insertion order |
| Flows.CloseTwice | tests/integration/test_pvz_flow.py:90-93 | closing the open reception appends one close row stamped after it; a second close in a later tick writes nothing, so the rows are exactly the open one and the close one |
| Flows.Reopen | source/routers/pvz/actions.py:80-88 | after a close row is the latest, opening again creates an in_progress reception for the same pickup point, appended to the table, whose id differs from both earlier rows |
| Flows.PopNewest | source/db/methods.py:91-101 | with strictly increasing timestamps, one removal returns the product added last and shortens only that ledger |

## Left out

- The listing endpoint (`pvz_list`) and its query `get_pvz_receptions_products`: the query's body is not part of this model. Only its parameter validation (`Schemas.MakePvzList`) is modelled. The date-string parsing with `strptime` is a foreign library call.
- `get_or_create_dummy_user` and `dummy_login`: their bodies are not part of this model.
- Authentication: JWT encoding and decoding, token expiry and `get_current_user` are foreign libraries. A handler receives the caller as a `User` row.
- Password hashing: the hash is a function given to the store (`Store.hash`), not a real hashing scheme. That the stored value differs from the password holds only as far as the hash function changes its input.
- E-mail format validation (`EmailStr`) is done by a foreign library. Any string is accepted as an e-mail.
- Parsing a malformed UUID in a path or body (a framework 422) is not modelled. Ids are naturals, and a fresh one stands for `uuid4()`. That uuid4 values cannot be guessed is not modelled.
- Concurrency: requests run one at a time. The read-then-write race between the latest-reception read and the writer is not modelled.
- Failures of reads: only commits can fail. After a failed commit, the model assumes the session can be read again. It does not model SQLAlchemy's pending-rollback state.
- How the framework serialises a handler that returns `None` (`Outcome.NoBody`) is not modelled.
- Foreign keys are enforced at commit, as by PostgreSQL. A SQLite test database without foreign-key enforcement would accept the row.
- Cascade deletes are modelled as functions on `Models.Tables` (`DeletePvz`, `DeleteReception`). No operation of the modelled core deletes a pickup point or a reception.
- gRPC server and client, FastAPI and CORS wiring, route constants and Prometheus counters are plumbing and observability only.
