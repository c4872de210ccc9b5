/**
 * The string enumerations of the database layer. Each is a Python `StrEnum`:
 * a member is stored and exchanged as its value string, and an incoming string
 * is accepted only when it equals one of those values.
 */
module DbTypes {
  import opened Wrappers

  /** Who the caller is; `auto()` makes each value the lower-case member name. */
  datatype RoleType = Employee | Moderator

  /** State of a reception row. */
  datatype ReceptionStatus = InProgress | Close

  /** Catalogue of product kinds (the Python enum spells its first member `electonic`). */
  datatype ProductType = Electronics | Clothes | Shoes

  /** Cities where a pickup point may be registered. */
  datatype CityType = Moscow | SaintPetersburg | Kazan

  function RoleValue(r: RoleType): string {
    match r
    case Employee => "employee"
    case Moderator => "moderator"
  }

  function StatusValue(s: ReceptionStatus): string {
    match s
    case InProgress => "in_progress"
    case Close => "close"
  }

  function ProductTypeValue(t: ProductType): string {
    match t
    case Electronics => "электроника"
    case Clothes => "одежда"
    case Shoes => "обувь"
  }

  function CityValue(c: CityType): string {
    match c
    case Moscow => "Москва"
    case SaintPetersburg => "Санкт-Петербург"
    case Kazan => "Казань"
  }

  /** Accepts exactly the value strings of `RoleType`. */
  function ParseRole(s: string): (r: Option<RoleType>)
    ensures forall v :: r == Some(v) <==> RoleValue(v) == s
  {
    if s == "employee" then Some(Employee)
    else if s == "moderator" then Some(Moderator)
    else None
  }

  /** Accepts exactly the value strings of `ReceptionStatus`. */
  function ParseStatus(s: string): (r: Option<ReceptionStatus>)
    ensures forall v :: r == Some(v) <==> StatusValue(v) == s
  {
    if s == "in_progress" then Some(InProgress)
    else if s == "close" then Some(Close)
    else None
  }

  /** Accepts exactly the value strings of `ProductType`. */
  function ParseProductType(s: string): (r: Option<ProductType>)
    ensures forall v :: r == Some(v) <==> ProductTypeValue(v) == s
  {
    if s == "электроника" then Some(Electronics)
    else if s == "одежда" then Some(Clothes)
    else if s == "обувь" then Some(Shoes)
    else None
  }

  /** Accepts exactly the value strings of `CityType`. */
  function ParseCity(s: string): (r: Option<CityType>)
    ensures forall v :: r == Some(v) <==> CityValue(v) == s
  {
    if s == "Москва" then Some(Moscow)
    else if s == "Санкт-Петербург" then Some(SaintPetersburg)
    else if s == "Казань" then Some(Kazan)
    else None
  }
}
