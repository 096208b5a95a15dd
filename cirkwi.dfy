/**
 * The domain objects the Cirkwi feeds read, and the collaborators the feed
 * code calls but does not implement (markup stripping, URL resolution, field
 * labels, float formatting, reprojection and the CirkwiTag table).
 */
module Cirkwi {
  import opened Wrappers

  type Lang = string

  /**
   * A translated model field: the text the attribute yields while the given
   * language is active (the active language selects the column).
   */
  type Localized = Lang -> string

  /** Datetimes are given as their signed distance from 1970-01-01 UTC, in seconds. */
  type Seconds = real

  datatype Coord = Coord(x: real, y: real)

  /** A point geometry in the spatial reference system `srid`. */
  datatype Point = Point(srid: int, at: Coord)

  /** A line geometry: its vertices in order. */
  datatype LineString = LineString(srid: int, vertices: seq<Coord>)

  /** EPSG:4326, the system the feed's latitudes and longitudes are in. */
  const Wgs84: int := 4326

  /** One entry of `serializable_pictures`. */
  datatype Picture = Picture(legend: string, url: string, author: string)

  /** A Cirkwi POI category (`poi.type.cirkwi`). */
  datatype CirkwiCategory = CirkwiCategory(eid: int, name: string)

  datatype PoiType = PoiType(cirkwi: Option<CirkwiCategory>)

  datatype Poi = Poi(
    pk: int,
    dateInsert: Seconds,
    dateUpdate: Seconds,
    poiType: Option<PoiType>,
    name: Localized,
    description: Localized,
    publishedLangs: seq<Lang>,
    pictures: seq<Picture>,
    geom: Point)

  /** A Cirkwi locomotion (`practice.cirkwi`). */
  datatype CirkwiLocomotion = CirkwiLocomotion(eid: int, name: string)

  datatype Practice = Practice(cirkwi: Option<CirkwiLocomotion>)

  /** A difficulty level: its Cirkwi level code and the id of its Cirkwi tag. */
  datatype Difficulty = Difficulty(cirkwiLevel: Option<int>, cirkwiId: Option<int>)

  /** A row of the CirkwiTag table. */
  datatype CirkwiTag = CirkwiTag(id: int, eid: int, name: string)

  /** The eight supplementary text fields of a trek, in the order the feed writes them. */
  datatype InfoField =
    | Departure | Arrival | Ambiance | Access
    | DisabledInfrastructure | AdvisedParking | PublicTransport | Advice

  const InfoFields: seq<InfoField> :=
    [Departure, Arrival, Ambiance, Access, DisabledInfrastructure, AdvisedParking, PublicTransport, Advice]

  datatype Trek = Trek(
    pk: int,
    dateInsert: Seconds,
    dateUpdate: Seconds,
    name: Localized,
    descriptionTeaser: Localized,
    description: Localized,
    departure: Localized,
    arrival: Localized,
    ambiance: Localized,
    access: Localized,
    disabledInfrastructure: Localized,
    advisedParking: Localized,
    publicTransport: Localized,
    advice: Localized,
    themeCirkwiIds: seq<Option<int>>,          // cirkwi_id of each theme
    accessibilityCirkwiIds: seq<Option<int>>,  // cirkwi_id of each accessibility
    practice: Option<Practice>,
    difficulty: Option<Difficulty>,
    length: real,
    duration: Option<real>,                    // hours
    publishedLangs: seq<Lang>,
    pictures: seq<Picture>,
    geom: LineString,
    publishedPois: seq<Poi>)

  /** `getattr(trek, name)` for one of the eight supplementary fields. */
  function Info(t: Trek, f: InfoField): Localized
  {
    match f
    case Departure => t.departure
    case Arrival => t.arrival
    case Ambiance => t.ambiance
    case Access => t.access
    case DisabledInfrastructure => t.disabledInfrastructure
    case AdvisedParking => t.advisedParking
    case PublicTransport => t.publicTransport
    case Advice => t.advice
  }

  /** The code the feed calls without implementing it. */
  datatype Env = Env(
    plainText: string -> string,               // mapentity's plain_text: markup stripped
    absoluteUri: string -> string,             // request.build_absolute_uri
    verboseName: (InfoField, Lang) -> string,  // the field's verbose_name, rendered in a language
    floatText: real -> string,                 // unicode() of a float
    reproject: (int, int, Coord) -> Coord,     // coordinate transformation from one srid to another
    cirkwiTags: seq<CirkwiTag>)                // the CirkwiTag table, in the order the query yields it

  /** `geom.transform(srid, clone=True)` on a point: nothing to do when already in `srid`. */
  function TransformPoint(env: Env, p: Point, srid: int): (r: Point)
    ensures r.srid == srid
    ensures p.srid == srid ==> r == p
    ensures p.srid != srid ==> r.at == env.reproject(p.srid, srid, p.at)
  {
    if p.srid == srid then p else Point(srid, env.reproject(p.srid, srid, p.at))
  }

  /** `geom.transform(srid, clone=True)` on a line: every vertex, in order. */
  function TransformLine(env: Env, l: LineString, srid: int): (r: LineString)
    ensures r.srid == srid && |r.vertices| == |l.vertices|
    ensures l.srid == srid ==> r == l
    ensures l.srid != srid ==> forall i :: 0 <= i < |l.vertices| ==> r.vertices[i] == env.reproject(l.srid, srid, l.vertices[i])
  {
    if l.srid == srid then l
    else LineString(srid, seq(|l.vertices|, i requires 0 <= i < |l.vertices| => env.reproject(l.srid, srid, l.vertices[i])))
  }

  /** The queryset's `transform(4326, field_name='geom')`: the same POIs with reprojected points. */
  function ReprojectPois(env: Env, pois: seq<Poi>): (r: seq<Poi>)
    ensures |r| == |pois|
    ensures forall i :: 0 <= i < |pois| ==> r[i] == pois[i].(geom := TransformPoint(env, pois[i].geom, Wgs84))
  {
    seq(|pois|, i requires 0 <= i < |pois| => pois[i].(geom := TransformPoint(env, pois[i].geom, Wgs84)))
  }

  /** The process-wide active language (Django's translation module). */
  class Translation {
    var language: Lang

    constructor (language: Lang)
      ensures this.language == language
    {
      this.language := language;
    }
  }
}
