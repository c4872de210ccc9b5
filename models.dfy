/**
 * The tables of the pickup-point database: one datatype per row shape, the
 * column defaults, the primary-key and foreign-key constraints, and the
 * cascade deletes declared on the relationships.
 */
module Models {
  import opened Wrappers
  import opened Seqs
  import opened DbTypes

  /** A primary key. Every row receives a fresh one, standing for a `uuid4` value. */
  type Id = nat

  /** A `DateTime` column value, on a logical time line. */
  type Timestamp = nat

  /** A row of `user`. */
  datatype User = User(id: Id, email: string, password: string, role: RoleType)

  /** A row of `pvztable`: a pickup point. */
  datatype Pvz = Pvz(id: Id, registrationDate: Timestamp, city: CityType)

  /** A row of `reception`; `pvzId` is a non-null foreign key to `pvztable`. */
  datatype Reception = Reception(id: Id, dateTime: Timestamp, pvzId: Id, status: ReceptionStatus)

  /** A row of `product`; `receptionId` is a non-null foreign key to `reception`. */
  datatype Product = Product(id: Id, dateTime: Timestamp, productType: ProductType, receptionId: Id)

  /** The four tables, each in insertion order. */
  datatype Tables = Tables(users: seq<User>, pvzs: seq<Pvz>, receptions: seq<Reception>, products: seq<Product>)

  /** A user row as the ORM fills it in: an unset role takes the column default. */
  function NewUser(id: Id, email: string, password: string, role: Option<RoleType>): (u: User)
    ensures u.id == id && u.email == email && u.password == password
    ensures role.None? ==> u.role == Employee
    ensures role.Some? ==> u.role == role.value
  {
    User(id, email, password, role.GetOr(Employee))
  }

  /** A reception row as the ORM fills it in: an unset status takes the column default. */
  function NewReception(id: Id, now: Timestamp, pvzId: Id, status: Option<ReceptionStatus>): (r: Reception)
    ensures r.id == id && r.dateTime == now && r.pvzId == pvzId
    ensures status.None? ==> r.status == InProgress
    ensures status.Some? ==> r.status == status.value
  {
    Reception(id, now, pvzId, status.GetOr(InProgress))
  }

  function UserKey(u: User): Id { u.id }
  function PvzKey(p: Pvz): Id { p.id }
  function ReceptionKey(r: Reception): Id { r.id }
  function ProductKey(p: Product): Id { p.id }

  predicate HasPvz(pvzs: seq<Pvz>, id: Id) {
    exists p :: p in pvzs && p.id == id
  }

  predicate HasReception(receptions: seq<Reception>, id: Id) {
    exists r :: r in receptions && r.id == id
  }

  /** Primary keys are unique within each table. */
  predicate KeysUnique(t: Tables) {
    && DistinctKeys(t.users, UserKey)
    && DistinctKeys(t.pvzs, PvzKey)
    && DistinctKeys(t.receptions, ReceptionKey)
    && DistinctKeys(t.products, ProductKey)
  }

  /** Every reception names an existing pickup point; every product an existing reception. */
  predicate ForeignKeysHold(t: Tables) {
    && (forall r :: r in t.receptions ==> HasPvz(t.pvzs, r.pvzId))
    && (forall p :: p in t.products ==> HasReception(t.receptions, p.receptionId))
  }

  /** The constraints the database enforces on every committed state. */
  predicate Consistent(t: Tables) {
    KeysUnique(t) && ForeignKeysHold(t)
  }

  /** Whether product `p` belongs to a reception of pickup point `pvzId`. */
  predicate OwnedByPvz(receptions: seq<Reception>, p: Product, pvzId: Id) {
    exists r :: r in receptions && r.id == p.receptionId && r.pvzId == pvzId
  }

  /**
   * Deleting reception `id`: the relationship's "all, delete-orphan" cascade
   * deletes its products with it.
   */
  function DeleteReception(t: Tables, id: Id): (r: Tables)
    ensures r.users == t.users && r.pvzs == t.pvzs
    ensures forall x :: x in r.receptions <==> x in t.receptions && x.id != id
    ensures forall p :: p in r.products <==> p in t.products && p.receptionId != id
  {
    t.(receptions := Filter(t.receptions, (x: Reception) => x.id != id),
       products := Filter(t.products, (p: Product) => p.receptionId != id))
  }

  /**
   * Deleting pickup point `id`: the cascade deletes its receptions, and theirs
   * deletes their products.
   */
  function DeletePvz(t: Tables, id: Id): (r: Tables)
    ensures r.users == t.users
    ensures forall x :: x in r.pvzs <==> x in t.pvzs && x.id != id
    ensures forall x :: x in r.receptions <==> x in t.receptions && x.pvzId != id
    ensures forall p :: p in r.products <==> p in t.products && !OwnedByPvz(t.receptions, p, id)
  {
    Tables(t.users,
           Filter(t.pvzs, (x: Pvz) => x.id != id),
           Filter(t.receptions, (x: Reception) => x.pvzId != id),
           Filter(t.products, (p: Product) => !OwnedByPvz(t.receptions, p, id)))
  }

  /** A cascade delete of a reception leaves no dangling reference and no duplicate key. */
  lemma DeleteReceptionKeepsConsistent(t: Tables, id: Id)
    requires Consistent(t)
    ensures Consistent(DeleteReception(t, id))
  {
    var r := DeleteReception(t, id);
    FilterKeepsDistinctKeys(t.receptions, (x: Reception) => x.id != id, ReceptionKey);
    FilterKeepsDistinctKeys(t.products, (p: Product) => p.receptionId != id, ProductKey);
    forall p | p in r.products ensures HasReception(r.receptions, p.receptionId) {
      var owner :| owner in t.receptions && owner.id == p.receptionId;
      assert owner in r.receptions;
    }
  }

  /** A cascade delete of a pickup point leaves no dangling reference and no duplicate key. */
  lemma DeletePvzKeepsConsistent(t: Tables, id: Id)
    requires Consistent(t)
    ensures Consistent(DeletePvz(t, id))
  {
    var r := DeletePvz(t, id);
    FilterKeepsDistinctKeys(t.pvzs, (x: Pvz) => x.id != id, PvzKey);
    FilterKeepsDistinctKeys(t.receptions, (x: Reception) => x.pvzId != id, ReceptionKey);
    FilterKeepsDistinctKeys(t.products, (p: Product) => !OwnedByPvz(t.receptions, p, id), ProductKey);
    forall x | x in r.receptions ensures HasPvz(r.pvzs, x.pvzId) {
      var owner :| owner in t.pvzs && owner.id == x.pvzId;
      assert owner in r.pvzs;
    }
    forall p | p in r.products ensures HasReception(r.receptions, p.receptionId) {
      var owner :| owner in t.receptions && owner.id == p.receptionId;
      assert owner in r.receptions;
    }
  }
}
