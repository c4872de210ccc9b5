/**
 * The data-access functions: one database session over the four tables.
 * Each writer adds or deletes one row and commits; a commit either takes
 * effect entirely or fails and leaves every table as it was.
 */
module Methods {
  import opened Wrappers
  import opened Seqs
  import opened DbTypes
  import opened Models
  import opened Schemas
  import opened Queries

  /** Why a commit was refused. */
  datatype StoreError =
    | CommitFailed         // the database could not be reached or the transaction was aborted
    | ForeignKeyViolation  // the new row names a parent row that does not exist

  class Store {
    var users: seq<User>
    var pvzs: seq<Pvz>
    var receptions: seq<Reception>
    var products: seq<Product>
    /** The database's `now()`: the timestamp a row inserted now receives. */
    var clock: Timestamp
    /** The next fresh primary key (standing for `uuid4()`). */
    var nextId: Id
    /** The password hash function. */
    const hash: string -> string

    function Snapshot(): Tables
      reads this
    {
      Tables(users, pvzs, receptions, products)
    }

    /** Every committed state satisfies the schema's constraints, has only used keys, and no row from the future. */
    ghost predicate Valid()
      reads this
    {
      && Consistent(Snapshot())
      && (forall u :: u in users ==> u.id < nextId)
      && (forall p :: p in pvzs ==> p.id < nextId && p.registrationDate <= clock)
      && (forall r :: r in receptions ==> r.id < nextId && r.dateTime <= clock)
      && (forall p :: p in products ==> p.id < nextId && p.dateTime <= clock)
    }

    /** An empty database (the schema as `create_all` leaves it). */
    constructor (hash: string -> string)
      ensures Valid()
      ensures users == [] && pvzs == [] && receptions == [] && products == []
      ensures clock == 0 && nextId == 0 && this.hash == hash
    {
      users, pvzs, receptions, products := [], [], [], [];
      clock, nextId := 0, 0;
      this.hash := hash;
    }

    /** Time passes between requests: later rows get later timestamps. */
    method AdvanceClock(delta: nat)
      requires Valid()
      modifies this
      ensures Valid()
      ensures clock == old(clock) + delta
      ensures Snapshot() == old(Snapshot()) && nextId == old(nextId)
    {
      clock := clock + delta;
    }

    /** `create_user`: stores the hash of the password, never the password itself. */
    method CreateUser(registration: Registration, commitOk: bool) returns (r: Result<User, StoreError>)
      requires Valid()
      modifies this
      ensures Valid()
      ensures r.Ok? <==> commitOk
      ensures r.Err? ==> r.error == CommitFailed && unchanged(this)
      ensures r.Ok? ==> r.value == NewUser(old(nextId), registration.email, hash(registration.password), Some(registration.role))
      ensures r.Ok? ==> users == old(users) + [r.value] && nextId == old(nextId) + 1
      ensures r.Ok? ==> pvzs == old(pvzs) && receptions == old(receptions) && products == old(products) && clock == old(clock)
    {
      if !commitOk {
        return Err(CommitFailed);
      }
      var u := NewUser(nextId, registration.email, hash(registration.password), Some(registration.role));
      users := users + [u];
      nextId := nextId + 1;
      r := Ok(u);
      assert DistinctKeys(users, UserKey) by {
        forall i, j | 0 <= i < j < |users| ensures users[i].id != users[j].id {
          if j == |users| - 1 { assert users[i] in old(users); }
          else { assert users[i] == old(users)[i] && users[j] == old(users)[j]; }
        }
      }
    }

    /** `get_user_by_email`: some user with that e-mail, or `None` when there is none. */
    method GetUserByEmail(email: string) returns (r: Option<User>)
      ensures r.None? <==> forall u :: u in users ==> u.email != email
      ensures r.Some? ==> r.value in users && r.value.email == email
    {
      if exists u :: u in users && u.email == email {
        var u :| u in users && u.email == email;
        r := Some(u);
      } else {
        r := None;
      }
    }

    /** `create_pvz`: a new pickup point stamped with the current time. */
    method CreatePvz(unit: PvzUnit, commitOk: bool) returns (r: Result<Pvz, StoreError>)
      requires Valid()
      modifies this
      ensures Valid()
      ensures r.Ok? <==> commitOk
      ensures r.Err? ==> r.error == CommitFailed && unchanged(this)
      ensures r.Ok? ==> r.value == Pvz(old(nextId), old(clock), unit.city)
      ensures r.Ok? ==> pvzs == old(pvzs) + [r.value] && nextId == old(nextId) + 1
      ensures r.Ok? ==> users == old(users) && receptions == old(receptions) && products == old(products) && clock == old(clock)
    {
      if !commitOk {
        return Err(CommitFailed);
      }
      var p := Pvz(nextId, clock, unit.city);
      pvzs := pvzs + [p];
      nextId := nextId + 1;
      r := Ok(p);
      assert DistinctKeys(pvzs, PvzKey) by {
        forall i, j | 0 <= i < j < |pvzs| ensures pvzs[i].id != pvzs[j].id {
          if j == |pvzs| - 1 { assert pvzs[i] in old(pvzs); }
          else { assert pvzs[i] == old(pvzs)[i] && pvzs[j] == old(pvzs)[j]; }
        }
      }
      assert forall x :: x in old(pvzs) ==> x in pvzs;
    }

    /** Inserts one reception row for `pvzId` with the given status; the foreign key must resolve. */
    method InsertReception(pvzId: Id, status: ReceptionStatus, commitOk: bool) returns (r: Result<Reception, StoreError>)
      requires Valid()
      modifies this
      ensures Valid()
      ensures r.Ok? <==> commitOk && HasPvz(pvzs, pvzId)
      ensures r.Err? ==> unchanged(this)
      ensures r.Err? ==> r.error == if commitOk then ForeignKeyViolation else CommitFailed
      ensures r.Ok? ==> r.value == NewReception(old(nextId), old(clock), pvzId, Some(status))
      ensures r.Ok? ==> receptions == old(receptions) + [r.value] && nextId == old(nextId) + 1
      ensures r.Ok? ==> users == old(users) && pvzs == old(pvzs) && products == old(products) && clock == old(clock)
      ensures r.Ok? ==> IsLatestReception(receptions, pvzId, r.value)
      ensures r.Ok? && (forall x :: x in old(receptions) && x.pvzId == pvzId ==> x.dateTime < old(clock)) ==>
        forall y :: IsLatestReception(receptions, pvzId, y) ==> y == r.value
    {
      if !commitOk {
        return Err(CommitFailed);
      }
      if !HasPvz(pvzs, pvzId) {
        return Err(ForeignKeyViolation);
      }
      var rec := NewReception(nextId, clock, pvzId, Some(status));
      AppendedReceptionIsLatest(receptions, rec);
      receptions := receptions + [rec];
      nextId := nextId + 1;
      r := Ok(rec);
      assert DistinctKeys(receptions, ReceptionKey) by {
        forall i, j | 0 <= i < j < |receptions| ensures receptions[i].id != receptions[j].id {
          if j == |receptions| - 1 { assert receptions[i] in old(receptions); }
          else { assert receptions[i] == old(receptions)[i] && receptions[j] == old(receptions)[j]; }
        }
      }
      forall p | p in products ensures HasReception(receptions, p.receptionId) {
        var owner :| owner in old(receptions) && owner.id == p.receptionId;
        assert owner in receptions;
      }
    }

    /**
     * `create_reception_for_pvz`: appends an `in_progress` reception for `pvzId`,
     * which becomes a latest reception of that pickup point.
     */
    method CreateReceptionForPvz(pvzId: Id, commitOk: bool) returns (r: Result<Reception, StoreError>)
      requires Valid()
      modifies this
      ensures Valid()
      ensures r.Ok? <==> commitOk && HasPvz(pvzs, pvzId)
      ensures r.Err? ==> unchanged(this)
      ensures r.Err? ==> r.error == if commitOk then ForeignKeyViolation else CommitFailed
      ensures r.Ok? ==> r.value == Reception(old(nextId), old(clock), pvzId, InProgress)
      ensures r.Ok? ==> receptions == old(receptions) + [r.value] && nextId == old(nextId) + 1
      ensures r.Ok? ==> users == old(users) && pvzs == old(pvzs) && products == old(products) && clock == old(clock)
      ensures r.Ok? ==> IsLatestReception(receptions, pvzId, r.value)
      ensures r.Ok? && (forall x :: x in old(receptions) && x.pvzId == pvzId ==> x.dateTime < old(clock)) ==>
        forall y :: IsLatestReception(receptions, pvzId, y) ==> y == r.value
    {
      r := InsertReception(pvzId, InProgress, commitOk);
    }

    /**
     * `close_reception_for_pvz`: closing does not update the open row. It appends
     * a new reception with status `close` (even for a pickup point with no
     * reception yet), which becomes a latest reception; no existing row changes.
     */
    method CloseReceptionForPvz(pvzId: Id, commitOk: bool) returns (r: Result<Reception, StoreError>)
      requires Valid()
      modifies this
      ensures Valid()
      ensures r.Ok? <==> commitOk && HasPvz(pvzs, pvzId)
      ensures r.Err? ==> unchanged(this)
      ensures r.Err? ==> r.error == if commitOk then ForeignKeyViolation else CommitFailed
      ensures r.Ok? ==> r.value == Reception(old(nextId), old(clock), pvzId, Close)
      ensures r.Ok? ==> receptions == old(receptions) + [r.value] && nextId == old(nextId) + 1
      ensures r.Ok? ==> users == old(users) && pvzs == old(pvzs) && products == old(products) && clock == old(clock)
      ensures r.Ok? ==> IsLatestReception(receptions, pvzId, r.value)
      ensures r.Ok? && (forall x :: x in old(receptions) && x.pvzId == pvzId ==> x.dateTime < old(clock)) ==>
        forall y :: IsLatestReception(receptions, pvzId, y) ==> y == r.value
    {
      r := InsertReception(pvzId, Close, commitOk);
    }

    /**
     * `create_product_for_reception`: appends one product of the given type to
     * the ledger of `receptionId`; every other ledger is unchanged.
     */
    method CreateProductForReception(receptionId: Id, unit: ProductUnit, commitOk: bool) returns (r: Result<Product, StoreError>)
      requires Valid()
      modifies this
      ensures Valid()
      ensures r.Ok? <==> commitOk && HasReception(receptions, receptionId)
      ensures r.Err? ==> unchanged(this)
      ensures r.Err? ==> r.error == if commitOk then ForeignKeyViolation else CommitFailed
      ensures r.Ok? ==> r.value == Product(old(nextId), old(clock), unit.productType, receptionId)
      ensures r.Ok? ==> products == old(products) + [r.value] && nextId == old(nextId) + 1
      ensures r.Ok? ==> users == old(users) && pvzs == old(pvzs) && receptions == old(receptions) && clock == old(clock)
      ensures r.Ok? ==> ProductsOf(products, receptionId) == ProductsOf(old(products), receptionId) + [r.value]
      ensures r.Ok? ==> forall other :: other != receptionId ==> ProductsOf(products, other) == ProductsOf(old(products), other)
      ensures r.Ok? ==> IsLatestProduct(products, receptionId, r.value)
    {
      if !commitOk {
        return Err(CommitFailed);
      }
      if !HasReception(receptions, receptionId) {
        return Err(ForeignKeyViolation);
      }
      var p := Product(nextId, clock, unit.productType, receptionId);
      FilterSnoc(products, p, (x: Product) => x.receptionId == receptionId);
      forall other | other != receptionId
        ensures ProductsOf(products + [p], other) == ProductsOf(products, other)
      {
        FilterSnoc(products, p, (x: Product) => x.receptionId == other);
      }
      products := products + [p];
      nextId := nextId + 1;
      r := Ok(p);
      assert DistinctKeys(products, ProductKey) by {
        forall i, j | 0 <= i < j < |products| ensures products[i].id != products[j].id {
          if j == |products| - 1 { assert products[i] in old(products); }
          else { assert products[i] == old(products)[i] && products[j] == old(products)[j]; }
        }
      }
    }

    /** `get_last_reception_by_pvz`: a reception of `pvzId` with the greatest `dateTime`, or `None`. */
    method GetLastReceptionByPvz(pvzId: Id) returns (r: Option<Reception>)
      ensures r.None? <==> ReceptionsOf(receptions, pvzId) == []
      ensures r.Some? ==> IsLatestReception(receptions, pvzId, r.value)
    {
      if ReceptionsOf(receptions, pvzId) == [] {
        r := None;
      } else {
        LatestReceptionExists(receptions, pvzId);
        var last :| IsLatestReception(receptions, pvzId, last);
        r := Some(last);
      }
    }

    /** `get_pvz_by_reception_id`: the pickup point a reception belongs to, or `None` for an unknown reception. */
    method GetPvzByReceptionId(receptionId: Id) returns (r: Option<Pvz>)
      requires Valid()
      ensures r.None? <==> !HasReception(receptions, receptionId)
      ensures r.Some? ==> r.value in pvzs
      ensures r.Some? ==> exists rec :: rec in receptions && rec.id == receptionId && rec.pvzId == r.value.id
    {
      if exists rec, p :: rec in receptions && p in pvzs && rec.id == receptionId && p.id == rec.pvzId {
        var rec, p :| rec in receptions && p in pvzs && rec.id == receptionId && p.id == rec.pvzId;
        r := Some(p);
      } else {
        r := None;
      }
    }

    /**
     * `delete_last_product_for_reception`: deletes and returns a product of
     * `receptionId` with the greatest `dateTime`; with no such product it
     * returns `None` and writes nothing.
     */
    method DeleteLastProductForReception(receptionId: Id, commitOk: bool) returns (r: Result<Option<Product>, StoreError>)
      requires Valid()
      modifies this
      ensures Valid()
      ensures users == old(users) && pvzs == old(pvzs) && receptions == old(receptions)
      ensures clock == old(clock) && nextId == old(nextId)
      ensures ProductsOf(old(products), receptionId) == [] ==> r == Ok(None) && unchanged(this)
      ensures ProductsOf(old(products), receptionId) != [] && !commitOk ==>
        r == Err(CommitFailed) && unchanged(this)
      ensures ProductsOf(old(products), receptionId) != [] && commitOk ==>
        && r.Ok? && r.value.Some?
        && IsLatestProduct(old(products), receptionId, r.value.value)
        && products == WithoutProduct(old(products), r.value.value.id)
    {
      if ProductsOf(products, receptionId) == [] {
        return Ok(None);
      }
      LatestProductExists(products, receptionId);
      var last :| IsLatestProduct(products, receptionId, last);
      if !commitOk {
        return Err(CommitFailed);
      }
      var notLast := (x: Product) => x.id != last.id;
      FilterKeepsDistinctKeys(products, notLast, ProductKey);
      products := Filter(products, notLast);
      r := Ok(Some(last));
    }
  }
}
