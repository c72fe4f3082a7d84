/**
 * The zone array and the four edits made to it: `createZone` (append),
 * `updateZone` (merge into the zone with the id, or fail), `deleteZone`
 * (filter out the id) and `toggleZone` (flip `enabled` on the first zone with the id).
 */
module Zones {
  import opened Wrappers
  import opened Search
  import opened Schedule

  /** Latitude and longitude in degrees. */
  datatype GeoLocation = GeoLocation(lat: real, lon: real)

  datatype Zone = Zone(
    id: string,
    name: string,
    location: GeoLocation,
    radius: real,
    blocklist: seq<string>,
    allowlist: seq<string>,
    timeSchedule: TimeSchedule,
    enabled: bool,
    color: Option<string>)

  /** A zone without its id, as the caller of `createZone` supplies it. */
  datatype ZoneDraft = ZoneDraft(
    name: string,
    location: GeoLocation,
    radius: real,
    blocklist: seq<string>,
    allowlist: seq<string>,
    timeSchedule: TimeSchedule,
    enabled: bool,
    color: Option<string>)

  /** A partial zone: `None` keeps the field; the id can be overwritten too. */
  datatype ZonePatch = ZonePatch(
    id: Option<string>,
    name: Option<string>,
    location: Option<GeoLocation>,
    radius: Option<real>,
    blocklist: Option<seq<string>>,
    allowlist: Option<seq<string>>,
    timeSchedule: Option<TimeSchedule>,
    enabled: Option<bool>,
    color: Option<Option<string>>)

  function DraftOf(z: Zone): ZoneDraft {
    ZoneDraft(z.name, z.location, z.radius, z.blocklist, z.allowlist, z.timeSchedule, z.enabled, z.color)
  }

  /** `{ ...draft, id }` with a freshly generated id. */
  function NewZone(d: ZoneDraft, id: string): (r: Zone)
    ensures r.id == id && DraftOf(r) == d
  {
    Zone(id, d.name, d.location, d.radius, d.blocklist, d.allowlist, d.timeSchedule, d.enabled, d.color)
  }

  /** `{ ...zone, ...updates }`. */
  function MergeZone(z: Zone, p: ZonePatch): (r: Zone)
    ensures r.id == p.id.GetOr(z.id) && r.name == p.name.GetOr(z.name)
    ensures r.location == p.location.GetOr(z.location) && r.radius == p.radius.GetOr(z.radius)
    ensures r.blocklist == p.blocklist.GetOr(z.blocklist) && r.allowlist == p.allowlist.GetOr(z.allowlist)
    ensures r.timeSchedule == p.timeSchedule.GetOr(z.timeSchedule) && r.enabled == p.enabled.GetOr(z.enabled)
    ensures r.color == p.color.GetOr(z.color)
  {
    Zone(p.id.GetOr(z.id), p.name.GetOr(z.name), p.location.GetOr(z.location), p.radius.GetOr(z.radius),
         p.blocklist.GetOr(z.blocklist), p.allowlist.GetOr(z.allowlist), p.timeSchedule.GetOr(z.timeSchedule),
         p.enabled.GetOr(z.enabled), p.color.GetOr(z.color))
  }

  const EmptyZonePatch: ZonePatch := ZonePatch(None, None, None, None, None, None, None, None, None)

  /** Merging an empty patch changes nothing; merging twice with the same patch is merging once. */
  lemma MergeZoneLaws(z: Zone, p: ZonePatch)
    ensures MergeZone(z, EmptyZonePatch) == z
    ensures MergeZone(MergeZone(z, p), p) == MergeZone(z, p)
  {
  }

  /** `zones.findIndex(z => z.id === id)`, with `None` for -1. */
  function FindZoneIndex(zones: seq<Zone>, id: string): (r: Option<nat>)
    ensures r.Some? ==> (r.value < |zones| && zones[r.value].id == id &&
      forall j :: 0 <= j < r.value ==> zones[j].id != id)
    ensures r.None? ==> forall j :: 0 <= j < |zones| ==> zones[j].id != id
  {
    var p := (z: Zone) => z.id == id;
    assert forall j :: 0 <= j < |zones| ==> (p(zones[j]) <==> zones[j].id == id);
    FirstIndex(zones, p)
  }

  /** `createZone`: the new zone is pushed at the end. */
  function AddZone(zones: seq<Zone>, d: ZoneDraft, id: string): (r: seq<Zone>)
    ensures |r| == |zones| + 1 && r[..|zones|] == zones
    ensures r[|zones|] == NewZone(d, id)
  {
    zones + [NewZone(d, id)]
  }

  /** `updateZone`: `None` stands for the "not found" error, thrown before anything is written. */
  function UpdateZones(zones: seq<Zone>, id: string, p: ZonePatch): (r: Option<seq<Zone>>)
    ensures r.None? <==> FindZoneIndex(zones, id).None?
    ensures r.Some? ==> |r.value| == |zones|
    ensures r.Some? ==> var i := FindZoneIndex(zones, id).value;
      r.value[i] == MergeZone(zones[i], p) &&
      forall j :: 0 <= j < |zones| && j != i ==> r.value[j] == zones[j]
  {
    match FindZoneIndex(zones, id)
    case None => None
    case Some(i) => Some(zones[i := MergeZone(zones[i], p)])
  }

  /** An update that does not rename the zone can be found again at the same place. */
  lemma UpdateKeepsPosition(zones: seq<Zone>, id: string, p: ZonePatch)
    requires FindZoneIndex(zones, id).Some?
    requires p.id.None? || p.id == Some(id)
    ensures FindZoneIndex(UpdateZones(zones, id, p).value, id) == FindZoneIndex(zones, id)
  {
    var r := UpdateZones(zones, id, p).value;
    var i := FindZoneIndex(zones, id).value;
    FindZoneIndexIsFirst(r, id, i);
  }

  /** An index that holds the id and follows no other holder is what FindZoneIndex finds. */
  lemma FindZoneIndexIsFirst(zones: seq<Zone>, id: string, i: nat)
    requires i < |zones| && zones[i].id == id
    requires forall j :: 0 <= j < i ==> zones[j].id != id
    ensures FindZoneIndex(zones, id) == Some(i)
  {
  }

  /** `zones.filter(z => z.id !== id)`. */
  function DeleteZones(zones: seq<Zone>, id: string): (r: seq<Zone>)
    ensures |r| <= |zones|
    ensures forall j :: 0 <= j < |r| ==> r[j].id != id
    ensures forall z :: z in zones && z.id != id ==> z in r
    ensures forall z :: z in r ==> z in zones
  {
    if |zones| == 0 then []
    else if zones[0].id == id then DeleteZones(zones[1..], id)
    else [zones[0]] + DeleteZones(zones[1..], id)
  }

  /** With no zone of that id, deleting changes nothing. */
  lemma {:induction false} DeleteAbsentIsNoOp(zones: seq<Zone>, id: string)
    requires FindZoneIndex(zones, id).None?
    ensures DeleteZones(zones, id) == zones
  {
    if |zones| > 0 {
      assert FindZoneIndex(zones[1..], id).None?;
      DeleteAbsentIsNoOp(zones[1..], id);
    }
  }

  /** Deleting twice is deleting once. */
  lemma DeleteIsIdempotent(zones: seq<Zone>, id: string)
    ensures DeleteZones(DeleteZones(zones, id), id) == DeleteZones(zones, id)
  {
    DeleteAbsentIsNoOp(DeleteZones(zones, id), id);
  }

  /** Deleting works piece by piece, so the kept zones stay in their order. */
  lemma {:induction false} DeleteDistributes(a: seq<Zone>, b: seq<Zone>, id: string)
    ensures DeleteZones(a + b, id) == DeleteZones(a, id) + DeleteZones(b, id)
  {
    if |a| > 0 {
      assert (a + b)[1..] == a[1..] + b;
      DeleteDistributes(a[1..], b, id);
    } else {
      assert a + b == b;
    }
  }

  /** One zone is dropped exactly when it has the id. */
  lemma DeleteSingle(z: Zone, id: string)
    ensures DeleteZones([z], id) == if z.id == id then [] else [z]
  {
  }

  /** `toggleZone`: flips `enabled` on the first zone with the id; an absent id writes nothing. */
  function ToggleZones(zones: seq<Zone>, id: string): (r: seq<Zone>)
    ensures |r| == |zones|
    ensures FindZoneIndex(zones, id).None? ==> r == zones
    ensures FindZoneIndex(zones, id).Some? ==> var i := FindZoneIndex(zones, id).value;
      r[i] == zones[i].(enabled := !zones[i].enabled) &&
      forall j :: 0 <= j < |zones| && j != i ==> r[j] == zones[j]
  {
    match FindZoneIndex(zones, id)
    case None => zones
    case Some(i) => zones[i := zones[i].(enabled := !zones[i].enabled)]
  }

  /** Toggling twice restores the array. */
  lemma ToggleTwiceRestores(zones: seq<Zone>, id: string)
    ensures ToggleZones(ToggleZones(zones, id), id) == zones
  {
    match FindZoneIndex(zones, id)
    case None =>
    case Some(i) =>
      FindZoneIndexIsFirst(ToggleZones(zones, id), id, i);
  }

  /** Toggling is updating `enabled` alone to its negation. */
  lemma ToggleIsUpdate(zones: seq<Zone>, id: string)
    requires FindZoneIndex(zones, id).Some?
    ensures var z := zones[FindZoneIndex(zones, id).value];
      UpdateZones(zones, id, EmptyZonePatch.(enabled := Some(!z.enabled))) == Some(ToggleZones(zones, id))
  {
  }
}
