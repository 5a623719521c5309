/**
 * The `POST /padStop` handler (api/src/index.ts:50-111) over its two tables:
 * `buildings`, the cache from address key to metadata, and `runs`, the
 * append-only log of computations. The geocoder, the Overpass service, the
 * two SQLite INSERTs and the clock are inputs: each call receives what they
 * answered.
 */
module PadStop {
  import opened Wrappers
  import AddressKey
  import BuildingTags
  import Padding

  /** One geocoder candidate. */
  datatype Coord = Coord(latitude: real, longitude: real)

  /** How `geocoder.geocode(address)` settled. */
  datatype GeoReply = Geocoded(candidates: seq<Coord>) | GeocodeRejected(message: string)

  /** How the Overpass POST settled: the body's `elements`, None when the body has none. */
  datatype OverpassReply =
    | Answered(elements: Option<seq<BuildingTags.Element>>)
    | OverpassRejected(message: string)

  /** How one SQLite INSERT settled. */
  datatype Write = Written | WriteFailed(message: string)

  /** The JSON body: `address`, `horizontal_time_sec` and `is_peak`, each possibly absent. */
  datatype Request = Request(address: Option<string>, horizontalTimeSec: Option<int>, isPeak: Option<bool>)

  /**
   * `meta.is_office`: a boolean when the metadata was just resolved, the
   * stored INTEGER when it was read from the cache.
   */
  datatype OfficeFlag = Flag(b: bool) | Stored(i: int) {
    predicate Truthy() {
      match this
      case Flag(b) => b
      case Stored(i) => i != 0
    }
  }

  /** The `meta` object the handler computes with. */
  datatype Meta = Meta(floorCount: int, isOffice: OfficeFlag)

  /** A row of `buildings` (api/src/index.ts:23-27), without its key. */
  datatype Row = Row(floorCount: int, isOffice: int)

  /** A row of `runs` (api/src/index.ts:28-37); its position in the log stands for its `id`. */
  datatype Run = Run(address: string, horizontalSec: int, floorCount: int, isOffice: int,
                     verticalPad: int, totalSec: int, ts: int)

  /** `{ ...meta, vertical_pad, total_sec }` */
  datatype Body = Body(floorCount: int, isOffice: OfficeFlag, verticalPad: int, totalSec: int)

  datatype Response = Success(body: Body) | Status(code: int, message: string)

  const AddressRequired: string := "address required"
  /** The TypeError of destructuring `geo` when the geocoder found nothing. */
  const NoCandidate: string := "Cannot destructure property 'latitude' of 'geo' as it is undefined."
  /** The TypeError of `data.elements[0]` when the reply has no `elements`. */
  const NoElements: string := "Cannot read properties of undefined (reading '0')"

  /** `if (!address)`: absent or empty. */
  predicate HasAddress(req: Request) {
    req.address.Some? && req.address.value != []
  }

  function HorizontalSec(req: Request): int {
    if req.horizontalTimeSec.Some? then req.horizontalTimeSec.value else 0
  }

  function IsPeak(req: Request): bool {
    req.isPeak == Some(true)
  }

  /**
   * The cache-miss path up to the metadata (api/src/index.ts:62-77): the
   * first geocoder candidate, the Overpass reply for it, the first element's
   * tags normalised. Each failure is the message the handler sends with 500.
   */
  function Resolve(geo: GeoReply, overpass: Coord -> OverpassReply): (r: Result<BuildingTags.Building, string>)
    ensures r.Ok? <==>
      geo.Geocoded? && |geo.candidates| > 0
      && overpass(geo.candidates[0]).Answered? && overpass(geo.candidates[0]).elements.Some?
    ensures r.Ok? ==> r.value == BuildingTags.FromElements(overpass(geo.candidates[0]).elements.value)
    ensures r.Ok? ==> r.value.floorCount != 0
    ensures geo.GeocodeRejected? ==> r == Err(geo.message)
    ensures geo.Geocoded? && |geo.candidates| == 0 ==> r == Err(NoCandidate)
    ensures geo.Geocoded? && |geo.candidates| > 0 && overpass(geo.candidates[0]).OverpassRejected? ==>
      r == Err(overpass(geo.candidates[0]).message)
    ensures geo.Geocoded? && |geo.candidates| > 0 && overpass(geo.candidates[0]) == Answered(None) ==>
      r == Err(NoElements)
  {
    match geo
    case GeocodeRejected(m) => Err(m)
    case Geocoded(candidates) =>
      if |candidates| == 0 then Err(NoCandidate)
      else match overpass(candidates[0])
        case OverpassRejected(m) => Err(m)
        case Answered(None) => Err(NoElements)
        case Answered(Some(elements)) => Ok(BuildingTags.FromElements(elements))
  }

  /** `meta.is_office ? 1 : 0` */
  function OfficeBit(flag: OfficeFlag): (bit: int)
    ensures bit == 0 || bit == 1
    ensures bit == 1 <==> flag.Truthy()
  {
    if flag.Truthy() then 1 else 0
  }

  function MetaOfBuilding(b: BuildingTags.Building): Meta {
    Meta(b.floorCount, Flag(b.isOffice))
  }

  function MetaOfRow(row: Row): Meta {
    Meta(row.floorCount, Stored(row.isOffice))
  }

  /** The row the miss path inserts (api/src/index.ts:78-80). */
  function RowOf(b: BuildingTags.Building): (row: Row)
    ensures row.floorCount == b.floorCount
    ensures row.isOffice == 0 || row.isOffice == 1
    ensures row.isOffice == 1 <==> b.isOffice
  {
    Row(b.floorCount, OfficeBit(Flag(b.isOffice)))
  }

  function Pad(req: Request, meta: Meta): int {
    Padding.VerticalPad(meta.floorCount, meta.isOffice.Truthy(), IsPeak(req))
  }

  /** The response body of a successful request (api/src/index.ts:84-89, 107). */
  function BodyOf(req: Request, meta: Meta): Body {
    var pad := Pad(req, meta);
    Body(meta.floorCount, meta.isOffice, pad, Padding.TotalSec(HorizontalSec(req), pad))
  }

  /** The run a successful request logs (api/src/index.ts:92-105). */
  function RunOf(req: Request, meta: Meta, now: int): Run
    requires HasAddress(req)
  {
    var body := BodyOf(req, meta);
    Run(req.address.value, HorizontalSec(req), meta.floorCount, OfficeBit(meta.isOffice),
        body.verticalPad, body.totalSec, now)
  }

  /** The end of the handler once `meta` is known: log the run, then respond. */
  ghost predicate Logged(resp: Response, before: seq<Run>, after: seq<Run>,
                         req: Request, meta: Meta, runInsert: Write, now: int)
    requires HasAddress(req)
  {
    if runInsert.WriteFailed? then resp == Status(500, runInsert.message) && after == before
    else resp == Success(BodyOf(req, meta)) && after == before + [RunOf(req, meta, now)]
  }

  /**
   * Every cached key is the key of exactly one address, and every row holds
   * what the normalisation can produce: a non-zero floor count and an
   * office bit.
   */
  ghost predicate WellFormedCache(buildings: map<string, Row>) {
    forall key :: key in buildings ==>
      && AddressKey.AddressOf(key).Some?
      && AddressKey.KeyFor(AddressKey.AddressOf(key).value) == key
      && buildings[key].floorCount != 0
      && (buildings[key].isOffice == 0 || buildings[key].isOffice == 1)
  }

  /** A cached row belongs to exactly one address: the one its key decodes to. */
  lemma CachedKeyOwner(buildings: map<string, Row>, key: string, address: string)
    requires WellFormedCache(buildings)
    requires key in buildings
    ensures AddressKey.KeyFor(address) == key <==> address == AddressKey.AddressOf(key).value
  {
    AddressKey.KeyForInjective(address, AddressKey.AddressOf(key).value);
  }

  /** Storing the row of a resolved building under an address's key keeps the cache well formed. */
  lemma CacheInsert(buildings: map<string, Row>, address: string, b: BuildingTags.Building)
    requires WellFormedCache(buildings)
    requires b.floorCount != 0
    ensures WellFormedCache(buildings[AddressKey.KeyFor(address) := RowOf(b)])
  {
    AddressKey.AddressOfKeyFor(address);
  }

  class Api {
    var buildings: map<string, Row>
    var runs: seq<Run>

    ghost predicate Valid()
      reads this
    {
      WellFormedCache(buildings)
    }

    constructor ()
      ensures Valid() && buildings == map[] && runs == []
    {
      buildings := map[];
      runs := [];
    }

    method PadStop(req: Request, geo: GeoReply, overpass: Coord -> OverpassReply,
                   buildingInsert: Write, runInsert: Write, now: int) returns (resp: Response)
      requires Valid()
      modifies this
      ensures Valid()
      // every answer has a non-zero floor count, and its office flag is the logged bit
      ensures resp.Success? ==>
        && |runs| == |old(runs)| + 1
        && resp.body.floorCount != 0
        && OfficeBit(resp.body.isOffice) == runs[|runs| - 1].isOffice
      // no address: 400 before any lookup, nothing written
      ensures !HasAddress(req) ==>
        resp == Status(400, AddressRequired) && buildings == old(buildings) && runs == old(runs)
      ensures HasAddress(req) ==>
        var key := AddressKey.KeyFor(req.address.value);
        if key in old(buildings) then
          // hit: the stored row is used as it is, the cache is untouched
          buildings == old(buildings)
          && Logged(resp, old(runs), runs, req, MetaOfRow(old(buildings)[key]), runInsert, now)
          // the stored office bit is answered as it was logged
          && (resp.Success? ==> resp.body.isOffice == Stored(runs[|runs| - 1].isOffice))
        else match Resolve(geo, overpass)
          // the geocoder or Overpass failed: 500, nothing written
          case Err(m) => resp == Status(500, m) && buildings == old(buildings) && runs == old(runs)
          case Ok(b) =>
            if buildingInsert.WriteFailed? then
              resp == Status(500, buildingInsert.message) && buildings == old(buildings) && runs == old(runs)
            else
              // miss: exactly one entry more, at the key, then the run
              buildings == old(buildings)[key := RowOf(b)]
              && Logged(resp, old(runs), runs, req, MetaOfBuilding(b), runInsert, now)
    {
      if !HasAddress(req) {
        return Status(400, AddressRequired);
      }
      var address := req.address.value;
      var addrHash := AddressKey.KeyFor(address);
      var meta: Meta;
      if addrHash in buildings {
        meta := MetaOfRow(buildings[addrHash]);
      } else {
        var resolved := Resolve(geo, overpass);
        if resolved.Err? {
          return Status(500, resolved.error);
        }
        meta := MetaOfBuilding(resolved.value);
        if buildingInsert.WriteFailed? {
          return Status(500, buildingInsert.message);
        }
        CacheInsert(buildings, address, resolved.value);
        buildings := buildings[addrHash := RowOf(resolved.value)];
      }
      var pad := Padding.VerticalPad(meta.floorCount, meta.isOffice.Truthy(), IsPeak(req));
      var total := Padding.TotalSec(HorizontalSec(req), pad);
      if runInsert.WriteFailed? {
        return Status(500, runInsert.message);
      }
      runs := runs + [Run(address, HorizontalSec(req), meta.floorCount, OfficeBit(meta.isOffice), pad, total, now)];
      resp := Success(Body(meta.floorCount, meta.isOffice, pad, total));
    }
  }

  // ---- what the handler's results promise ----

  /**
   * The run records what the response says: the request's address and
   * horizontal time (0 when absent), the floor count, the office flag as
   * 1/0, and the same pad and total, the total being horizontal plus pad.
   */
  lemma RunMatchesResponse(req: Request, meta: Meta, now: int)
    requires HasAddress(req)
    ensures var run, body := RunOf(req, meta, now), BodyOf(req, meta);
      && run.address == req.address.value
      && run.horizontalSec == (if req.horizontalTimeSec.Some? then req.horizontalTimeSec.value else 0)
      && run.floorCount == body.floorCount
      && (run.isOffice == 1 <==> body.isOffice.Truthy())
      && (run.isOffice == 0 <==> !body.isOffice.Truthy())
      && run.verticalPad == body.verticalPad
      && run.totalSec == body.totalSec == run.horizontalSec + run.verticalPad
      && run.ts == now
  {
  }

  /**
   * Reading metadata back from the cache changes the type of `is_office`
   * (a boolean becomes 1 or 0) but nothing that is computed from it: a hit
   * answers with the same numbers and logs the same run as the miss that
   * stored the row.
   */
  lemma HitAgreesWithMiss(req: Request, b: BuildingTags.Building, now: int)
    requires HasAddress(req)
    ensures var hit, miss := BodyOf(req, MetaOfRow(RowOf(b))), BodyOf(req, MetaOfBuilding(b));
      && hit.floorCount == miss.floorCount
      && hit.verticalPad == miss.verticalPad
      && hit.totalSec == miss.totalSec
      && miss.isOffice == Flag(b.isOffice)
      && hit.isOffice == Stored(if b.isOffice then 1 else 0)
      && hit.isOffice.Truthy() == miss.isOffice.Truthy()
    ensures RunOf(req, MetaOfRow(RowOf(b)), now) == RunOf(req, MetaOfBuilding(b), now)
  {
  }

  /** The Overpass reply is never consulted when the geocoder found nothing. */
  lemma ResolveNeedsCandidate(geo: GeoReply, overpass: Coord -> OverpassReply, other: Coord -> OverpassReply)
    requires !(geo.Geocoded? && |geo.candidates| > 0)
    ensures Resolve(geo, overpass) == Resolve(geo, other)
    ensures Resolve(geo, overpass).Err?
  {
  }

  /**
   * A miss whose Overpass reply has no elements answers with the defaults:
   * with a horizontal time of 100 off-peak, 5 floors, a pad of 110 and a
   * total of 210.
   */
  lemma EmptyReplyExample(address: string, c: Coord)
    requires address != []
    ensures var req := Request(Some(address), Some(100), None);
      var r := Resolve(Geocoded([c]), (_: Coord) => Answered(Some([])));
      && r == Ok(BuildingTags.Building(5, false))
      && BodyOf(req, MetaOfBuilding(r.value)) == Body(5, Flag(false), 110, 210)
  {
    BuildingTags.NoElements();
  }

  /**
   * Once a request for an address succeeds, the address is cached, so any
   * later request for it is a hit, whatever the geocoder and Overpass would
   * answer then: the cache ends up with the keys it had plus this address's
   * key. The repeat answers with the same floor count, pad and total when
   * its run INSERT succeeds, and with 500 and no new run when it fails.
   */
  method RepeatRequest(api: Api, req: Request,
                       geo: GeoReply, overpass: Coord -> OverpassReply, buildingInsert: Write, runInsert: Write, now: int,
                       geo2: GeoReply, overpass2: Coord -> OverpassReply, buildingInsert2: Write, runInsert2: Write, now2: int)
    returns (first: Response, second: Response)
    requires api.Valid()
    modifies api
    ensures api.Valid()
    ensures first.Success? ==>
      && HasAddress(req)
      && api.buildings.Keys == old(api.buildings).Keys + {AddressKey.KeyFor(req.address.value)}
      && (runInsert2.WriteFailed? ==>
            second == Status(500, runInsert2.message) && |api.runs| == |old(api.runs)| + 1)
      && (runInsert2.Written? ==>
            && |api.runs| == |old(api.runs)| + 2
            && second.Success?
            && second.body.floorCount == first.body.floorCount
            && second.body.isOffice.Truthy() == first.body.isOffice.Truthy()
            && second.body.verticalPad == first.body.verticalPad
            && second.body.totalSec == first.body.totalSec
            && api.runs[|api.runs| - 1] == api.runs[|api.runs| - 2].(ts := now2))
  {
    first := api.PadStop(req, geo, overpass, buildingInsert, runInsert, now);
    ghost var cached := api.buildings;
    ghost var logged := api.runs;
    second := api.PadStop(req, geo2, overpass2, buildingInsert2, runInsert2, now2);
    if first.Success? {
      var key := AddressKey.KeyFor(req.address.value);
      assert key in cached && api.buildings == cached;
      if key in old(api.buildings) {
        assert cached[key] == old(api.buildings)[key];
      } else {
        var b := Resolve(geo, overpass).value;
        assert cached[key] == RowOf(b);
        HitAgreesWithMiss(req, b, now);
        HitAgreesWithMiss(req, b, now2);
      }
    }
  }
}
