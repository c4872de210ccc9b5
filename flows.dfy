/**
 * Request sequences replayed against the model, in the manner of the unit and
 * integration tests: each `assert` is a consequence of the handler and store
 * contracts alone.
 */
module Flows {
  import opened Wrappers
  import opened Seqs
  import opened DbTypes
  import opened Models
  import opened Schemas
  import opened Queries
  import opened Methods
  import opened Actions

  function Caller(role: RoleType): User {
    User(0, "caller@example.com", "", role)
  }

  /** A moderator registers a pickup point in Moscow; an employee opens its first reception. */
  method OpenFirstReception(hash: string -> string) returns (db: Store, pvz: Pvz, first: Reception)
    ensures fresh(db) && db.Valid()
    ensures db.pvzs == [pvz] && db.receptions == [first] && db.products == []
    ensures first.pvzId == pvz.id && first.status == InProgress && first.dateTime < db.clock
  {
    db := new Store(hash);
    var o := HandleCreatePvz(db, Caller(Moderator), PvzUnit(Moscow), true);
    assert o == Respond(Created201, PvzCreated);
    pvz := db.pvzs[0];
    assert HasPvz(db.pvzs, pvz.id);
    ghost var seen: Option<Reception>;
    o, seen := HandleCreateReception(db, Caller(Employee), pvz.id, true);
    assert o == Respond(Created201, ReceptionCreated);
    first := db.receptions[0];
    db.AdvanceClock(1);
  }

  /** Adds one product to the open reception `first`, one clock tick after the previous write. */
  method AddProduct(db: Store, pvz: Pvz, first: Reception, t: ProductType) returns (p: Product)
    requires db.Valid()
    requires db.receptions == [first] && first.pvzId == pvz.id && first.status == InProgress
    modifies db
    ensures db.Valid() && db.receptions == old(db.receptions) && db.pvzs == old(db.pvzs)
    ensures db.products == old(db.products) + [p]
    ensures p.productType == t && p.receptionId == first.id && p.dateTime == old(db.clock) < db.clock
  {
    var o;
    ghost var seen: Option<Reception>;
    o, seen := HandleCreateProduct(db, Caller(Employee), ProductUnit(pvz.id, t), true);
    assert seen == Some(first);
    assert o == Respond(Created201, ProductAdded);
    p := db.products[|db.products| - 1];
    db.AdvanceClock(1);
  }

  /** Closes the open reception `first`, then tries to close again and is refused. */
  method CloseTwice(db: Store, pvz: Pvz, first: Reception) returns (closing: Reception)
    requires db.Valid()
    requires db.receptions == [first] && first.pvzId == pvz.id && first.status == InProgress
    requires first.dateTime < db.clock
    modifies db
    ensures db.Valid() && db.receptions == [first, closing] && closing.status == Close
    ensures closing.pvzId == pvz.id && first.dateTime < closing.dateTime < db.clock
    ensures db.products == old(db.products)
  {
    var o;
    ghost var seen: Option<Reception>, reread: Option<Reception>;
    o, seen, reread := HandleCloseReception(db, Caller(Employee), pvz.id, true);
    assert seen == Some(first);
    assert o == Respond(Ok200, ReceptionClosed);
    closing := db.receptions[1];
    db.AdvanceClock(1);
    o, seen, reread := HandleCloseReception(db, Caller(Employee), pvz.id, true);
    assert seen == Some(closing);
    assert reread == Some(closing);
    assert o == Reject(BadRequest400, AlreadyClosed);
  }

  /** Removes the newest product of the open reception `first`, whose ledger is `[a, b, c]`. */
  method RemoveNewest(db: Store, pvz: Pvz, first: Reception, a: Product, b: Product, c: Product)
    requires db.Valid()
    requires db.receptions == [first] && first.pvzId == pvz.id && first.status == InProgress
    requires db.products == [a, b, c]
    requires a.receptionId == b.receptionId == c.receptionId == first.id
    requires a.dateTime < b.dateTime < c.dateTime
    modifies db
    ensures db.Valid() && db.receptions == old(db.receptions)
    ensures ProductsOf(db.products, first.id) == [a, b]
  {
    var ledger := db.products;
    FilterKeepsAll(ledger, (x: Product) => x.receptionId == first.id);
    assert ProductsOf(ledger, first.id) == [a, b, c];
    var o;
    ghost var seen: Option<Reception>, deleted: Option<Product>;
    o, seen, deleted := HandleDeleteLastProduct(db, Caller(Employee), pvz.id, true);
    assert seen == Some(first);
    assert o == Respond(Ok200, ProductDeleted);
    DeletingLatestPopsLedger(ledger, first.id, deleted.value);
  }

  /** After the close row, opening a reception again succeeds and creates a new row. */
  method Reopen(db: Store, pvz: Pvz, first: Reception, closing: Reception) returns (second: Reception)
    requires db.Valid()
    requires db.receptions == [first, closing] && closing.status == Close
    requires closing.pvzId == pvz.id && first.dateTime < closing.dateTime < db.clock
    modifies db
    ensures db.Valid() && db.receptions == old(db.receptions) + [second]
    ensures second.pvzId == pvz.id && second.status == InProgress
    ensures second.id != first.id && second.id != closing.id
  {
    var o;
    ghost var seen: Option<Reception>;
    o, seen := HandleCreateReception(db, Caller(Employee), pvz.id, true);
    assert seen == Some(closing);
    assert HasPvz(db.pvzs, pvz.id);
    assert o == Respond(Created201, ReceptionCreated);
    second := db.receptions[2];
  }

  /**
   * Three products added and the last one removed leave the first two in
   * insertion order; after closing, a second reception opens under a new id.
   */
  method ReceivingScenario(hash: string -> string) {
    var db, pvz, first := OpenFirstReception(hash);
    var a := AddProduct(db, pvz, first, Electronics);
    var b := AddProduct(db, pvz, first, Clothes);
    var c := AddProduct(db, pvz, first, Shoes);
    RemoveNewest(db, pvz, first, a, b, c);
    var closing := CloseTwice(db, pvz, first);
    var second := Reopen(db, pvz, first, closing);
    assert a.productType == Electronics && b.productType == Clothes;
    assert second.id != first.id;
  }

  /**
   * One removal from a ledger whose timestamps strictly increase: it returns
   * the product added last, shortens that ledger by exactly that product, and
   * leaves every other reception's ledger as it was.
   */
  method PopNewest(db: Store, receptionId: Id, ledger: seq<Product>) returns (top: Product)
    requires db.Valid()
    requires ledger != [] && ProductsOf(db.products, receptionId) == ledger
    requires StrictlyTimedProducts(ledger)
    modifies db
    ensures db.Valid() && db.receptions == old(db.receptions)
    ensures top == ledger[|ledger| - 1]
    ensures ProductsOf(db.products, receptionId) == ledger[..|ledger| - 1]
    ensures forall other :: other != receptionId ==> ProductsOf(db.products, other) == ProductsOf(old(db.products), other)
  {
    ghost var before := db.products;
    var r := db.DeleteLastProductForReception(receptionId, true);
    top := r.value.value;
    LatestProductIsLastAdded(before, receptionId, top);
    DeletingLatestPopsLedger(before, receptionId, top);
  }

  /** Products A, B, C added in that order come back as C, B, A, and then there is nothing left. */
  method LifoScenario(db: Store, receptionId: Id, a: Product, b: Product, c: Product)
    requires db.Valid()
    requires ProductsOf(db.products, receptionId) == [a, b, c]
    requires a.dateTime < b.dateTime < c.dateTime
    modifies db
  {
    var first := PopNewest(db, receptionId, [a, b, c]);
    assert first == c;
    assert [a, b, c][..2] == [a, b];
    var second := PopNewest(db, receptionId, [a, b]);
    assert second == b;
    assert [a, b][..1] == [a];
    var third := PopNewest(db, receptionId, [a]);
    assert third == a;
    var fourth := db.DeleteLastProductForReception(receptionId, true);
    assert fourth == Ok(None);
    var fifth := db.DeleteLastProductForReception(receptionId, true);
    assert fifth == Ok(None);
  }

  /** Requests refused before any write, and the close endpoint on a pickup point without receptions. */
  method RefusalScenario(hash: string -> string) {
    var db := new Store(hash);
    var o := HandleCreatePvz(db, Caller(Employee), PvzUnit(Kazan), true);
    assert o == Reject(Forbidden403, AccessDenied) && db.pvzs == [];
    o := HandleCreatePvz(db, Caller(Moderator), PvzUnit(Kazan), true);
    var pvz := db.pvzs[0];

    ghost var seen: Option<Reception>, reread: Option<Reception>, deleted: Option<Product>;
    o, seen := HandleCreateReception(db, Caller(Moderator), pvz.id, true);
    assert o == Reject(Forbidden403, AccessDenied);
    o, seen := HandleCreateProduct(db, Caller(Employee), ProductUnit(pvz.id, Shoes), true);
    assert seen == None;
    assert o == Reject(BadRequest400, NoActiveReception) && db.products == [];
    o, seen, deleted := HandleDeleteLastProduct(db, Caller(Employee), pvz.id, true);
    assert o == Reject(BadRequest400, CannotDelete);
    o, seen, reread := HandleCloseReception(db, Caller(Employee), pvz.id, true);
    assert seen == None && reread == None;
    assert o == Unhandled && db.receptions == [];
  }

  /**
   * An open reception whose close cannot be committed: the handler's fallback
   * re-reads the still-open reception and returns nothing.
   */
  method FailedCloseScenario(db: Store, pvz: Pvz, open: Reception)
    requires db.Valid()
    requires db.receptions == [open] && open.pvzId == pvz.id && open.status == InProgress
    modifies db
  {
    var o;
    ghost var seen: Option<Reception>, reread: Option<Reception>;
    o, seen, reread := HandleCloseReception(db, Caller(Employee), pvz.id, false);
    assert seen == Some(open) && reread == Some(open);
    assert o == NoBody && db.receptions == [open];
  }

  /** With an empty ledger, removal is a normal answer, however often it is asked. */
  method EmptyLedgerScenario(db: Store, pvz: Pvz, open: Reception)
    requires db.Valid()
    requires db.receptions == [open] && open.pvzId == pvz.id && open.status == InProgress
    requires db.products == []
    modifies db
  {
    var o;
    ghost var seen: Option<Reception>, deleted: Option<Product>;
    o, seen, deleted := HandleDeleteLastProduct(db, Caller(Employee), pvz.id, true);
    assert seen == Some(open);
    assert o == Respond(Ok200, NoProductsLeft);
    o, seen, deleted := HandleDeleteLastProduct(db, Caller(Employee), pvz.id, true);
    assert seen == Some(open);
    assert o == Respond(Ok200, NoProductsLeft) && db.products == [];
  }

  /** A registered user is found again by e-mail, holding the hash of the password. */
  method RegistrationScenario(hash: string -> string) {
    var db := new Store(hash);
    var registration := Registration("u@example.com", "secret", Employee);
    var created := db.CreateUser(registration, true);
    var fetched := db.GetUserByEmail("u@example.com");
    assert fetched == Some(created.value);
    assert fetched.value.password == hash("secret") && fetched.value.role == Employee;
  }
}
