/** `LocationResolver`: from the administrative units around a point to the
    units per level (0 country, 1 state, 2 district), their SYSTEM hubs, the
    country code and a confidence grade. The spatial queries themselves
    (intersection, distance) are inputs: each candidate carries its level,
    country code, hub and distance. */
module Location {

  import opened Wrappers
  import opened Queries

  datatype AdminUnit = AdminUnit(id: string, level: nat, countryCode: string, hub: Option<string>, distanceM: nat)

  datatype Confidence = Low | Medium | High

  const MaxDistanceM: nat := 25000

  /** `qs.filter(country_code=cc)` when `cc` is truthy. */
  function ByCountry(units: seq<AdminUnit>, cc: Option<string>): (r: seq<AdminUnit>)
    ensures forall u :: u in r <==> u in units && (cc.None? || cc.value == "" || u.countryCode == cc.value)
  {
    Filter(units, (u: AdminUnit) => cc.None? || cc.value == "" || u.countryCode == cc.value)
  }

  function Level(u: AdminUnit): int { u.level }

  /** `for u in qs: units[u.level] = u`: a later unit of a level replaces an
      earlier one. */
  function LastPerLevel(units: seq<AdminUnit>): (r: map<nat, AdminUnit>)
    ensures forall l :: l in r <==> exists u :: u in units && u.level == l
    ensures forall l :: l in r ==> r[l] in units && r[l].level == l
  {
    if units == [] then map[]
    else
      var init := units[..|units| - 1];
      var u := units[|units| - 1];
      var before := LastPerLevel(init);
      assert forall v :: v in init ==> v in units;
      assert u in units;
      before[u.level := u]
  }

  /** `resolve_admin_units`: the units whose area meets the point, in
      `order_by("level")`, one per level. Which of two units of the same level
      is kept depends on the database's order among equals. */
  function StrictUnits(intersecting: seq<AdminUnit>, cc: Option<string>): (r: map<nat, AdminUnit>)
    ensures forall l :: l in r <==> exists u :: u in ByCountry(intersecting, cc) && u.level == l
    ensures forall l :: l in r ==> r[l] in ByCountry(intersecting, cc) && r[l].level == l
  {
    var inCountry := ByCountry(intersecting, cc);
    var ordered := Sort(inCountry, Level);
    assert forall u :: u in ordered <==> u in inCountry by {
      forall u ensures u in ordered <==> u in inCountry {
        assert u in ordered <==> u in multiset(ordered);
        assert u in inCountry <==> u in multiset(inCountry);
      }
    }
    LastPerLevel(ordered)
  }

  /** The `order_by("level", "distance")` key; distances are at most 25 km here. */
  function LevelDistance(u: AdminUnit): int { u.level * (MaxDistanceM + 1) + u.distanceM }

  function Near(units: seq<AdminUnit>, cc: Option<string>): seq<AdminUnit> {
    Filter(ByCountry(units, cc), (u: AdminUnit) => u.distanceM <= MaxDistanceM)
  }

  /** The first unit of level `l`, if any. */
  function FirstOfLevel(units: seq<AdminUnit>, l: nat): (r: Option<AdminUnit>)
    ensures r.Some? ==> r.value in units && r.value.level == l
    ensures r.None? <==> forall u :: u in units ==> u.level != l
  {
    if units == [] then None
    else if units[0].level == l then Some(units[0])
    else FirstOfLevel(units[1..], l)
  }

  /** The loop of `resolve_nearest_admin_units`: the first unit of each new
      level is kept, and the loop stops once three levels are held. */
  function FirstPerLevel(units: seq<AdminUnit>, acc: map<nat, AdminUnit>): (r: map<nat, AdminUnit>)
    requires |acc| <= 3
    ensures |r| <= 3 && acc.Keys <= r.Keys
    ensures forall l :: l in acc ==> r[l] == acc[l]
    ensures forall l :: l in r && l !in acc ==> FirstOfLevel(units, l) == Some(r[l])
    ensures |r| < 3 ==> forall u :: u in units ==> u.level in r
    decreases |units|
  {
    if units == [] || |acc| >= 3 then acc
    else
      var u := units[0];
      var acc2 := if u.level in acc then acc else acc[u.level := u];
      if |acc2| >= 3 then acc2 else FirstPerLevel(units[1..], acc2)
  }

  /** `resolve_nearest_admin_units(max_distance_km=25)`. */
  function NearestUnits(candidates: seq<AdminUnit>, cc: Option<string>): (r: map<nat, AdminUnit>)
    ensures |r| <= 3
    ensures forall l :: l in r ==> r[l] in Near(candidates, cc) && r[l].level == l
  {
    var ordered := Sort(Near(candidates, cc), LevelDistance);
    var r := FirstPerLevel(ordered, map[]);
    assert forall u :: u in ordered ==> u in multiset(ordered);
    r
  }

  /** In ascending `(level, distance)` order the first unit of a level is
      at least as near as every other unit of that level. */
  lemma {:induction false} FirstIsNearest(units: seq<AdminUnit>, l: nat)
    requires Ascending(units, LevelDistance)
    requires forall u :: u in units ==> u.distanceM <= MaxDistanceM
    requires FirstOfLevel(units, l).Some?
    ensures forall u :: u in units && u.level == l ==> FirstOfLevel(units, l).value.distanceM <= u.distanceM
  {
    if units[0].level != l {
      FirstIsNearest(units[1..], l);
    } else {
      forall u | u in units && u.level == l ensures units[0].distanceM <= u.distanceM {
        var i :| 0 <= i < |units| && units[i] == u;
        assert LevelDistance(units[0]) <= LevelDistance(units[i]);
      }
    }
  }

  /** Of the candidates within 25 km, the unit kept for a level is the nearest
      of that level. */
  lemma NearestIsNearest(candidates: seq<AdminUnit>, cc: Option<string>, l: nat)
    requires l in NearestUnits(candidates, cc)
    ensures forall u :: u in Near(candidates, cc) && u.level == l ==>
              NearestUnits(candidates, cc)[l].distanceM <= u.distanceM
  {
    var near := Near(candidates, cc);
    var ordered := Sort(near, LevelDistance);
    assert forall u :: u in ordered <==> u in near by {
      forall u ensures u in ordered <==> u in near {
        assert u in ordered <==> u in multiset(ordered);
        assert u in near <==> u in multiset(near);
      }
    }
    FirstIsNearest(ordered, l);
  }

  /** `_calculate_confidence`. */
  function ConfidenceOf(units: map<nat, AdminUnit>, usedFallback: bool): (c: Confidence)
    ensures c == Low <==> |units| == 0
    ensures c == High <==> |units| > 0 && !usedFallback && 0 in units && 1 in units && 2 in units
  {
    if |units| == 0 then Low
    else if usedFallback then Medium
    else if 0 in units && 1 in units && 2 in units then High
    else Medium
  }

  datatype Resolved = Resolved(
    units: map<nat, AdminUnit>,
    hubs: map<nat, string>,
    countryCode: Option<string>,
    confidence: Confidence,
    usedFallback: bool)

  /** `resolve_system_hubs`: the hub of each unit that has one. */
  function SystemHubs(units: map<nat, AdminUnit>): (h: map<nat, string>)
    ensures h.Keys <= units.Keys
    ensures forall l :: l in units ==> (l in h <==> units[l].hub.Some?)
    ensures forall l :: l in h ==> Some(h[l]) == units[l].hub
  {
    map l | l in units && units[l].hub.Some? :: units[l].hub.value
  }

  /** `resolve`: the strict units unless they are empty or lack level 2, in
      which case the nearest ones; the country code of level 0 if present. */
  function Resolve(intersecting: seq<AdminUnit>, candidates: seq<AdminUnit>, cc: Option<string>): (r: Resolved)
    ensures var strict := StrictUnits(intersecting, cc);
      && (r.usedFallback <==> |strict| == 0 || 2 !in strict)
      && r.units == (if r.usedFallback then NearestUnits(candidates, cc) else strict)
    ensures r.hubs.Keys <= r.units.Keys
    ensures r.countryCode == if 0 in r.units then Some(r.units[0].countryCode) else cc
    ensures r.confidence == High ==> !r.usedFallback && 0 in r.units && 1 in r.units && 2 in r.units
    ensures r.confidence == Low <==> |r.units| == 0
  {
    var strict := StrictUnits(intersecting, cc);
    var fallback := |strict| == 0 || 2 !in strict;
    var units := if fallback then NearestUnits(candidates, cc) else strict;
    Resolved(units, SystemHubs(units), if 0 in units then Some(units[0].countryCode) else cc,
             ConfidenceOf(units, fallback), fallback)
  }

  /** Without a strict district the grade is never HIGH; with strict levels
      0, 1 and 2 it is always HIGH. */
  lemma ConfidenceGrades(intersecting: seq<AdminUnit>, candidates: seq<AdminUnit>, cc: Option<string>)
    ensures var strict := StrictUnits(intersecting, cc);
      && (2 !in strict ==> Resolve(intersecting, candidates, cc).confidence != High)
      && (0 in strict && 1 in strict && 2 in strict ==> Resolve(intersecting, candidates, cc).confidence == High)
  {
  }
}
