/**
 * The pickup-point endpoints. Each checks the caller's role, reads the latest
 * reception of the pickup point, and then either rejects the request or calls
 * one store writer. An exception raised inside a handler's `try` block is
 * caught by its `except Exception` clause, which answers 400 (the close
 * endpoint instead re-reads the latest reception, see `HandleCloseReception`).
 */
module Actions {
  import opened Wrappers
  import opened DbTypes
  import opened Models
  import opened Schemas
  import opened Queries
  import opened Methods

  /** What a request ends with. */
  datatype Outcome =
    | Respond(status: int, description: string)  // the handler returns `{"description": ...}`
    | Reject(status: int, detail: string)        // the handler raises an `HTTPException`
    | Unhandled                                  // an exception escapes the handler (an HTTP 500)
    | NoBody                                     // the handler falls off its end and returns `None`

  const Ok200: int := 200
  const Created201: int := 201
  const BadRequest400: int := 400
  const Forbidden403: int := 403

  const AccessDenied := "Доступ запрещен"
  const PvzCreated := "ПВЗ создан"
  const BadRequest := "Неверный запрос"
  const OpenReceptionExists := "Неверный запрос или есть незакрытая приемка"
  const ReceptionCreated := "Приемка создана"
  const NoActiveReception := "Неверный запрос или нет активной приемки"
  const ProductAdded := "Товар добавлен"
  const AlreadyClosed := "Неверный запрос или приемка уже закрыта"
  const ReceptionClosed := "Приемка закрыта"
  const CannotDelete := "Неверный запрос, нет активной приемки или нет товаров для удаления"
  const ProductDeleted := "Товар удален"
  const NoProductsLeft := "Не осталось товаров на этой приёмке"

  /** The reception read is the open one. */
  predicate IsOpen(last: Option<Reception>) {
    last.Some? && last.value.status == InProgress
  }

  /** `create_pvz_`: moderators only. */
  method HandleCreatePvz(db: Store, currentUser: User, pvzData: PvzUnit, commitOk: bool) returns (o: Outcome)
    requires db.Valid()
    modifies db
    ensures db.Valid() && db.clock == old(db.clock)
    ensures currentUser.role != Moderator ==> o == Reject(Forbidden403, AccessDenied) && unchanged(db)
    ensures currentUser.role == Moderator && !commitOk ==> o == Reject(BadRequest400, BadRequest) && unchanged(db)
    ensures currentUser.role == Moderator && commitOk ==>
      && o == Respond(Created201, PvzCreated)
      && db.pvzs == old(db.pvzs) + [Pvz(old(db.nextId), old(db.clock), pvzData.city)] && db.nextId == old(db.nextId) + 1
      && db.users == old(db.users) && db.receptions == old(db.receptions) && db.products == old(db.products)
  {
    if currentUser.role != Moderator {
      return Reject(Forbidden403, AccessDenied);
    }
    var created := db.CreatePvz(pvzData, commitOk);
    if created.Err? {
      return Reject(BadRequest400, BadRequest);
    }
    o := Respond(Created201, PvzCreated);
  }

  /** `create_reception`: employees only; refused while the latest reception is open. */
  method HandleCreateReception(db: Store, currentUser: User, pvzId: Id, commitOk: bool)
    returns (o: Outcome, ghost seen: Option<Reception>)
    requires db.Valid()
    modifies db
    ensures db.Valid() && db.clock == old(db.clock)
    ensures currentUser.role != Employee ==> o == Reject(Forbidden403, AccessDenied) && unchanged(db)
    ensures currentUser.role == Employee ==> IsLatestOrNone(old(db.receptions), pvzId, seen)
    ensures currentUser.role == Employee && IsOpen(seen) ==>
      o == Reject(BadRequest400, OpenReceptionExists) && unchanged(db)
    ensures currentUser.role == Employee && !IsOpen(seen) && !(commitOk && HasPvz(old(db.pvzs), pvzId)) ==>
      o == Reject(BadRequest400, OpenReceptionExists) && unchanged(db)
    ensures currentUser.role == Employee && !IsOpen(seen) && commitOk && HasPvz(old(db.pvzs), pvzId) ==>
      && o == Respond(Created201, ReceptionCreated)
      && db.receptions == old(db.receptions) + [Reception(old(db.nextId), old(db.clock), pvzId, InProgress)] && db.nextId == old(db.nextId) + 1
      && db.users == old(db.users) && db.pvzs == old(db.pvzs) && db.products == old(db.products)
  {
    seen := None;
    if currentUser.role != Employee {
      return Reject(Forbidden403, AccessDenied), seen;
    }
    var last := db.GetLastReceptionByPvz(pvzId);
    seen := last;
    if last.Some? && last.value.status == InProgress {
      return Reject(BadRequest400, OpenReceptionExists), seen;
    }
    var created := db.CreateReceptionForPvz(pvzId, commitOk);
    if created.Err? {
      return Reject(BadRequest400, OpenReceptionExists), seen;
    }
    o := Respond(Created201, ReceptionCreated);
  }

  /** `create_product`: employees only; the product joins the open latest reception. */
  method HandleCreateProduct(db: Store, currentUser: User, product: ProductUnit, commitOk: bool)
    returns (o: Outcome, ghost seen: Option<Reception>)
    requires db.Valid()
    modifies db
    ensures db.Valid() && db.clock == old(db.clock)
    ensures currentUser.role != Employee ==> o == Reject(Forbidden403, AccessDenied) && unchanged(db)
    ensures currentUser.role == Employee ==> IsLatestOrNone(old(db.receptions), product.pvzId, seen)
    ensures currentUser.role == Employee && !(IsOpen(seen) && commitOk) ==>
      o == Reject(BadRequest400, NoActiveReception) && unchanged(db)
    ensures currentUser.role == Employee && IsOpen(seen) && commitOk ==>
      && o == Respond(Created201, ProductAdded)
      && db.products == old(db.products) + [Product(old(db.nextId), old(db.clock), product.productType, seen.value.id)] && db.nextId == old(db.nextId) + 1
      && db.users == old(db.users) && db.pvzs == old(db.pvzs) && db.receptions == old(db.receptions)
  {
    seen := None;
    if currentUser.role != Employee {
      return Reject(Forbidden403, AccessDenied), seen;
    }
    var last := db.GetLastReceptionByPvz(product.pvzId);
    seen := last;
    if last.None? || last.value.status == Close {
      return Reject(BadRequest400, NoActiveReception), seen;
    }
    var created := db.CreateProductForReception(last.value.id, product, commitOk);
    if created.Err? {
      return Reject(BadRequest400, NoActiveReception), seen;
    }
    o := Respond(Created201, ProductAdded);
  }

  /**
   * `close_reception`: employees only. An open latest reception is closed by
   * appending a `close` row. Every other path goes through the `except` clause,
   * which reads the latest reception again (`reread`): with none it fails on
   * `None.status` (`Unhandled`), with a closed one it answers 400, and with an
   * open one it returns nothing.
   */
  method HandleCloseReception(db: Store, currentUser: User, pvzId: Id, commitOk: bool)
    returns (o: Outcome, ghost seen: Option<Reception>, ghost reread: Option<Reception>)
    requires db.Valid()
    modifies db
    ensures db.Valid() && db.clock == old(db.clock)
    ensures currentUser.role != Employee ==> o == Reject(Forbidden403, AccessDenied) && unchanged(db)
    ensures currentUser.role == Employee ==> IsLatestOrNone(old(db.receptions), pvzId, seen)
    ensures currentUser.role == Employee && IsOpen(seen) && commitOk ==>
      && o == Respond(Ok200, ReceptionClosed)
      && db.receptions == old(db.receptions) + [Reception(old(db.nextId), old(db.clock), pvzId, Close)] && db.nextId == old(db.nextId) + 1
      && db.users == old(db.users) && db.pvzs == old(db.pvzs) && db.products == old(db.products)
    ensures currentUser.role == Employee && !(IsOpen(seen) && commitOk) ==>
      && unchanged(db)
      && IsLatestOrNone(db.receptions, pvzId, reread)
      && (reread.None? ==> o == Unhandled)
      && (reread.Some? && reread.value.status == Close ==> o == Reject(BadRequest400, AlreadyClosed))
      && (IsOpen(reread) ==> o == NoBody)
  {
    seen, reread := None, None;
    if currentUser.role != Employee {
      return Reject(Forbidden403, AccessDenied), seen, reread;
    }
    var last := db.GetLastReceptionByPvz(pvzId);
    seen := last;
    if last.Some? && last.value.status == InProgress {
      assert HasPvz(db.pvzs, pvzId);
      var closed := db.CloseReceptionForPvz(pvzId, commitOk);
      if closed.Ok? {
        return Respond(Ok200, ReceptionClosed), seen, reread;
      }
    }
    // the `except Exception` clause
    var again := db.GetLastReceptionByPvz(pvzId);
    reread := again;
    if again.None? {
      return Unhandled, seen, reread;
    }
    if again.value.status == Close {
      return Reject(BadRequest400, AlreadyClosed), seen, reread;
    }
    o := NoBody;
  }

  /**
   * `delete_last_product`: employees only; removes the newest product of the
   * open latest reception. An empty ledger is a normal answer, not an error.
   */
  method HandleDeleteLastProduct(db: Store, currentUser: User, pvzId: Id, commitOk: bool)
    returns (o: Outcome, ghost seen: Option<Reception>, ghost deleted: Option<Product>)
    requires db.Valid()
    modifies db
    ensures db.Valid() && db.clock == old(db.clock)
    ensures currentUser.role != Employee ==> o == Reject(Forbidden403, AccessDenied) && unchanged(db)
    ensures currentUser.role == Employee ==> IsLatestOrNone(old(db.receptions), pvzId, seen)
    ensures currentUser.role == Employee && !IsOpen(seen) ==>
      o == Reject(BadRequest400, CannotDelete) && unchanged(db)
    ensures currentUser.role == Employee && IsOpen(seen) && ProductsOf(old(db.products), seen.value.id) == [] ==>
      o == Respond(Ok200, NoProductsLeft) && unchanged(db)
    ensures currentUser.role == Employee && IsOpen(seen) && ProductsOf(old(db.products), seen.value.id) != [] && !commitOk ==>
      o == Reject(BadRequest400, CannotDelete) && unchanged(db)
    ensures currentUser.role == Employee && IsOpen(seen) && ProductsOf(old(db.products), seen.value.id) != [] && commitOk ==>
      && o == Respond(Ok200, ProductDeleted)
      && deleted.Some? && IsLatestProduct(old(db.products), seen.value.id, deleted.value)
      && db.products == WithoutProduct(old(db.products), deleted.value.id) && db.nextId == old(db.nextId)
      && db.users == old(db.users) && db.pvzs == old(db.pvzs) && db.receptions == old(db.receptions)
  {
    seen, deleted := None, None;
    if currentUser.role != Employee {
      return Reject(Forbidden403, AccessDenied), seen, deleted;
    }
    var last := db.GetLastReceptionByPvz(pvzId);
    seen := last;
    if last.None? || last.value.status == Close {
      return Reject(BadRequest400, CannotDelete), seen, deleted;
    }
    var resp := db.DeleteLastProductForReception(last.value.id, commitOk);
    if resp.Err? {
      return Reject(BadRequest400, CannotDelete), seen, deleted;
    }
    deleted := resp.value;
    if resp.value.Some? {
      return Respond(Ok200, ProductDeleted), seen, deleted;
    }
    o := Respond(Ok200, NoProductsLeft);
  }
}
