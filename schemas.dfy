/**
 * The request bodies and query parameters that the endpoints validate before
 * any handler runs. A constructor function returns `Err` exactly where the
 * validation library would reject the input.
 */
module Schemas {
  import opened Wrappers
  import opened DbTypes
  import opened Models

  datatype ValidationError =
    | PasswordTooShort
    | UnknownRole
    | UnknownCity
    | UnknownProductType
    | PageOutOfRange
    | LimitOutOfRange

  const MinPasswordLength: nat := 6
  const MinPage: int := 1
  const MinLimit: int := 1
  const MaxLimit: int := 30
  const DefaultPage: int := 1
  const DefaultLimit: int := 1

  /** Login data: an e-mail address and a password of at least six characters. */
  datatype Credentials = Credentials(email: string, password: string)

  /** The role a caller asks for. */
  datatype DummyUser = DummyUser(role: RoleType)

  /** Registration data: the fields of `Credentials` together with those of `DummyUser`. */
  datatype Registration = Registration(email: string, password: string, role: RoleType) {
    function AsCredentials(): Credentials { Credentials(email, password) }
    function AsDummyUser(): DummyUser { DummyUser(role) }
  }

  /** Body of the create-pickup-point request. */
  datatype PvzUnit = PvzUnit(city: CityType)

  /** Body of the add-product request: the pickup point and the product kind. */
  datatype ProductUnit = ProductUnit(pvzId: Id, productType: ProductType)

  /** Query of the listing endpoint: a date window and a page of results. */
  datatype PvzList = PvzList(startDate: Timestamp, endDate: Timestamp, page: int, limit: int)

  predicate ValidCredentials(c: Credentials) {
    |c.password| >= MinPasswordLength
  }

  predicate ValidPvzList(l: PvzList) {
    l.page >= MinPage && MinLimit <= l.limit <= MaxLimit
  }

  function MakeCredentials(email: string, password: string): (r: Result<Credentials, ValidationError>)
    ensures r.Ok? <==> |password| >= 6
    ensures r.Ok? ==> ValidCredentials(r.value) && r.value.email == email && r.value.password == password
    ensures r.Err? ==> r.error == PasswordTooShort
  {
    if |password| < MinPasswordLength then Err(PasswordTooShort)
    else Ok(Credentials(email, password))
  }

  /** A registration is accepted exactly when its credentials are and its role is a `RoleType` value. */
  function MakeRegistration(email: string, password: string, role: string): (r: Result<Registration, ValidationError>)
    ensures r.Ok? <==> MakeCredentials(email, password).Ok? && ParseRole(role).Some?
    ensures r.Ok? ==> ValidCredentials(r.value.AsCredentials())
    ensures r.Ok? ==> r.value.AsCredentials() == Credentials(email, password)
    ensures r.Ok? ==> RoleValue(r.value.role) == role
  {
    match MakeCredentials(email, password)
    case Err(e) => Err(e)
    case Ok(c) =>
      match ParseRole(role)
      case None => Err(UnknownRole)
      case Some(ro) => Ok(Registration(c.email, c.password, ro))
  }

  /** A pickup point may be registered only in one of the `CityType` cities. */
  function MakePvzUnit(city: string): (r: Result<PvzUnit, ValidationError>)
    ensures r.Ok? ==> CityValue(r.value.city) == city
    ensures r.Err? ==> r.error == UnknownCity && forall c :: CityValue(c) != city
  {
    match ParseCity(city)
    case None => Err(UnknownCity)
    case Some(c) => Ok(PvzUnit(c))
  }

  /** A product must carry one of the `ProductType` values. */
  function MakeProductUnit(pvzId: Id, productType: string): (r: Result<ProductUnit, ValidationError>)
    ensures r.Ok? ==> r.value.pvzId == pvzId && ProductTypeValue(r.value.productType) == productType
    ensures r.Err? ==> r.error == UnknownProductType && forall t :: ProductTypeValue(t) != productType
  {
    match ParseProductType(productType)
    case None => Err(UnknownProductType)
    case Some(t) => Ok(ProductUnit(pvzId, t))
  }

  /** `page` defaults to 1 and must be at least 1; `limit` defaults to 1 and must lie in 1..30. */
  function MakePvzList(startDate: Timestamp, endDate: Timestamp, page: Option<int>, limit: Option<int>): (r: Result<PvzList, ValidationError>)
    ensures r.Ok? <==> page.GetOr(1) >= 1 && 1 <= limit.GetOr(1) <= 30
    ensures r.Ok? ==> ValidPvzList(r.value)
    ensures r.Ok? ==> r.value.startDate == startDate && r.value.endDate == endDate
    ensures r.Ok? && page.None? ==> r.value.page == 1
    ensures r.Ok? && page.Some? ==> r.value.page == page.value
    ensures r.Ok? && limit.None? ==> r.value.limit == 1
    ensures r.Ok? && limit.Some? ==> r.value.limit == limit.value
  {
    var p := page.GetOr(DefaultPage);
    var l := limit.GetOr(DefaultLimit);
    if p < MinPage then Err(PageOutOfRange)
    else if l < MinLimit || l > MaxLimit then Err(LimitOutOfRange)
    else Ok(PvzList(startDate, endDate, p, l))
  }
}
