/// The catalogue's record types (lib/types/restaurant.ts).
module Types {
  import opened Strings

  /** The eight halal statuses; `StatusName` gives the string the source uses. */
  datatype HalalStatus =
    | Halal | PartiallyHalal | MuslimFriendly | Seafood
    | Vegetarian | Masjid | Mart | Accommodation

  datatype PlaceCategory = RestaurantPlace | MartPlace | MasjidPlace | AccommodationPlace | OtherPlace

  function CategoryName(c: PlaceCategory): string
  {
    match c
    case RestaurantPlace => "restaurant"
    case MartPlace => "mart"
    case MasjidPlace => "masjid"
    case AccommodationPlace => "accommodation"
    case OtherPlace => "other"
  }

  const AllStatuses: seq<HalalStatus> :=
    [Halal, PartiallyHalal, MuslimFriendly, Seafood, Vegetarian, Masjid, Mart, Accommodation]

  function StatusName(s: HalalStatus): string
  {
    match s
    case Halal => "halal"
    case PartiallyHalal => "partially_halal"
    case MuslimFriendly => "muslim_friendly"
    case Seafood => "seafood"
    case Vegetarian => "vegetarian"
    case Masjid => "masjid"
    case Mart => "mart"
    case Accommodation => "accommodation"
  }

  /** Every status occurs exactly once in `AllStatuses`. */
  lemma AllStatusesComplete(s: HalalStatus)
    ensures s in AllStatuses
  {
  }

  /** Distinct statuses have distinct names, so a status string picks out at
      most one status. */
  lemma StatusNameInjective(a: HalalStatus, b: HalalStatus)
    requires StatusName(a) == StatusName(b)
    ensures a == b
  {
  }

  /** The provenance tag of every record built from the bundled archive. */
  const LocalKmz: string := "local_kmz"

  /** A place of the catalogue. Coordinates are exact reals: the source's
      IEEE doubles are not modelled. */
  datatype Restaurant = Restaurant(
    id: string,
    name: string,
    category: PlaceCategory,
    halal_status: HalalStatus,
    latitude: real,
    longitude: real,
    description: string,
    image_url: Option<string>,
    opening_hours: Option<string>,
    price_range: Option<string>,
    instagram_url: Option<string>,
    source: string)

  /** A place together with its distance from a reference point. */
  datatype RestaurantWithDistance = WithDistance(place: Restaurant, distance_km: real)
}
