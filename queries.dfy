/**
 * What the store's `select ... where ... order_by(dateTime.desc()) ... first()`
 * queries mean. `first()` over rows that tie on `dateTime` may return any of
 * them, so "the latest" is a predicate a row satisfies, not a function of the
 * table; it singles out one row when the timestamps involved are distinct.
 */
module Queries {
  import opened Wrappers
  import opened Seqs
  import opened Models

  /** The receptions of pickup point `pvzId`, in insertion order. */
  function ReceptionsOf(rs: seq<Reception>, pvzId: Id): seq<Reception> {
    Filter(rs, (r: Reception) => r.pvzId == pvzId)
  }

  /** The products of reception `receptionId`, in insertion order: that reception's ledger. */
  function ProductsOf(ps: seq<Product>, receptionId: Id): seq<Product> {
    Filter(ps, (p: Product) => p.receptionId == receptionId)
  }

  /** The product table after deleting the row with primary key `id`. */
  function WithoutProduct(ps: seq<Product>, id: Id): seq<Product> {
    Filter(ps, (p: Product) => p.id != id)
  }

  /** `r` is a reception of `pvzId` with the greatest `dateTime`: a row `first()` may return. */
  predicate IsLatestReception(rs: seq<Reception>, pvzId: Id, r: Reception) {
    && r in rs
    && r.pvzId == pvzId
    && forall x :: x in rs && x.pvzId == pvzId ==> x.dateTime <= r.dateTime
  }

  /** `seen` is what `first()` may return: a latest reception of `pvzId`, or `None` when it has none. */
  predicate IsLatestOrNone(rs: seq<Reception>, pvzId: Id, seen: Option<Reception>) {
    && (seen.None? <==> ReceptionsOf(rs, pvzId) == [])
    && (seen.Some? ==> IsLatestReception(rs, pvzId, seen.value))
  }

  /** `p` is a product of `receptionId` with the greatest `dateTime`. */
  predicate IsLatestProduct(ps: seq<Product>, receptionId: Id, p: Product) {
    && p in ps
    && p.receptionId == receptionId
    && forall x :: x in ps && x.receptionId == receptionId ==> x.dateTime <= p.dateTime
  }

  /** Timestamps strictly increase in insertion order. */
  predicate StrictlyTimedReceptions(rs: seq<Reception>) {
    forall i, j :: 0 <= i < j < |rs| ==> rs[i].dateTime < rs[j].dateTime
  }

  /** Timestamps strictly increase in insertion order. */
  predicate StrictlyTimedProducts(ps: seq<Product>) {
    forall i, j :: 0 <= i < j < |ps| ==> ps[i].dateTime < ps[j].dateTime
  }

  /** A pickup point that has receptions has a latest one. */
  lemma LatestReceptionExists(rs: seq<Reception>, pvzId: Id)
    requires ReceptionsOf(rs, pvzId) != []
    ensures exists r :: IsLatestReception(rs, pvzId, r)
  {
    var ofPvz, time := (r: Reception) => r.pvzId == pvzId, (r: Reception) => r.dateTime;
    LatestByExists(rs, ofPvz, time);
    var m :| IsLatestBy(rs, ofPvz, time, m);
    assert IsLatestReception(rs, pvzId, m);
  }

  /** A reception that has products has a latest one. */
  lemma LatestProductExists(ps: seq<Product>, receptionId: Id)
    requires ProductsOf(ps, receptionId) != []
    ensures exists p :: IsLatestProduct(ps, receptionId, p)
  {
    var ofReception, time := (p: Product) => p.receptionId == receptionId, (p: Product) => p.dateTime;
    LatestByExists(ps, ofReception, time);
    var m :| IsLatestBy(ps, ofReception, time, m);
    assert IsLatestProduct(ps, receptionId, m);
  }

  /**
   * When a pickup point's receptions were stamped at strictly increasing times,
   * the latest reception is exactly the one inserted last.
   */
  lemma LatestReceptionIsLastInserted(rs: seq<Reception>, pvzId: Id, r: Reception)
    requires StrictlyTimedReceptions(ReceptionsOf(rs, pvzId))
    ensures IsLatestReception(rs, pvzId, r) <==>
      (var own := ReceptionsOf(rs, pvzId); own != [] && r == own[|own| - 1])
  {
    var ofPvz, time := (r: Reception) => r.pvzId == pvzId, (r: Reception) => r.dateTime;
    LatestByIsLast(rs, ofPvz, time, r);
    assert IsLatestReception(rs, pvzId, r) <==> IsLatestBy(rs, ofPvz, time, r);
  }

  /**
   * When a reception's products were stamped at strictly increasing times, the
   * latest product is exactly the one added last.
   */
  lemma LatestProductIsLastAdded(ps: seq<Product>, receptionId: Id, p: Product)
    requires StrictlyTimedProducts(ProductsOf(ps, receptionId))
    ensures IsLatestProduct(ps, receptionId, p) <==>
      (var ledger := ProductsOf(ps, receptionId); ledger != [] && p == ledger[|ledger| - 1])
  {
    var ofReception, time := (p: Product) => p.receptionId == receptionId, (p: Product) => p.dateTime;
    LatestByIsLast(ps, ofReception, time, p);
    assert IsLatestProduct(ps, receptionId, p) <==> IsLatestBy(ps, ofReception, time, p);
  }

  /**
   * Deleting the latest product of a strictly timed ledger pops the last entry
   * of that ledger and leaves every other reception's ledger as it was.
   */
  lemma DeletingLatestPopsLedger(ps: seq<Product>, receptionId: Id, p: Product)
    requires DistinctKeys(ps, ProductKey)
    requires StrictlyTimedProducts(ProductsOf(ps, receptionId))
    requires IsLatestProduct(ps, receptionId, p)
    ensures var ledger := ProductsOf(ps, receptionId);
      ProductsOf(WithoutProduct(ps, p.id), receptionId) == ledger[..|ledger| - 1]
    ensures forall other :: other != receptionId ==>
      ProductsOf(WithoutProduct(ps, p.id), other) == ProductsOf(ps, other)
  {
    var ledger := ProductsOf(ps, receptionId);
    var isOf := (x: Product) => x.receptionId == receptionId;
    var notP := (x: Product) => x.id != p.id;
    LatestProductIsLastAdded(ps, receptionId, p);
    FilterCommutes(ps, notP, isOf);
    forall i | 0 <= i < |ledger| - 1 ensures notP(ledger[i]) {
      assert ledger[i].dateTime < ledger[|ledger| - 1].dateTime;
      assert ledger[i] in ps;
      if ledger[i].id == p.id {
        DistinctKeysIdentify(ps, ProductKey, ledger[i], p);
      }
    }
    FilterDropsLast(ledger, notP);
    forall other | other != receptionId
      ensures ProductsOf(WithoutProduct(ps, p.id), other) == ProductsOf(ps, other)
    {
      var isOther := (x: Product) => x.receptionId == other;
      FilterCommutes(ps, notP, isOther);
      var theirs := ProductsOf(ps, other);
      forall i | 0 <= i < |theirs| ensures notP(theirs[i]) {
        assert theirs[i] in ps;
        if theirs[i].id == p.id {
          DistinctKeysIdentify(ps, ProductKey, theirs[i], p);
        }
      }
      FilterKeepsAll(theirs, notP);
    }
  }

  /**
   * A reception appended with a timestamp no earlier than any existing one is a
   * latest reception of its pickup point, and the only one when it is strictly newer.
   */
  lemma AppendedReceptionIsLatest(rs: seq<Reception>, r: Reception)
    requires forall x :: x in rs ==> x.dateTime <= r.dateTime
    ensures IsLatestReception(rs + [r], r.pvzId, r)
    ensures (forall x :: x in rs && x.pvzId == r.pvzId ==> x.dateTime < r.dateTime) ==>
      forall y :: IsLatestReception(rs + [r], r.pvzId, y) ==> y == r
  {
  }

  /**
   * Two receptions of one pickup point stamped in the same clock tick are both
   * latest: which of them `first()` returns is not determined, so an `in_progress`
   * row and the `close` row appended in the same tick leave the state ambiguous.
   */
  lemma SameTickReceptionsAreBothLatest(rs: seq<Reception>, a: Reception, b: Reception)
    requires IsLatestReception(rs, a.pvzId, a)
    requires b in rs && b.pvzId == a.pvzId && b.dateTime == a.dateTime
    ensures IsLatestReception(rs, a.pvzId, b)
  {
  }
}
