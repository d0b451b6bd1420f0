/** `CreateCommunityView.post`: a user creates a LOCAL hub under the SYSTEM
    hub of their second-level administrative unit and becomes its leader. */
module CommunityCreate {

  import opened Wrappers
  import opened Json
  import opened Community
  import Text

  /** What the view reads from the requesting user. `confidence` is the value
      `getattr(user, "location_confidence", "LOW")` yields (`None` is a stored
      null); `updatedAt` and `now` are in seconds. */
  datatype Requester = Requester(
    id: string,
    admin2: Option<string>,
    confidence: Option<string>,
    updatedAt: Option<int>,
    now: int)

  /** `CommunityHub.name` is a `CharField(max_length=255)`; the view never
      checks the length, so a longer name fails at the insert, a database
      error the view does not catch (500). */
  const MaxHubName: nat := 255

  const SecondsPerDay: int := 86400
  const MaxLocationAgeDays: int := 7

  /** `CommunityHub.objects.get(hub_type=SYSTEM, admin_unit=unit, is_active=True)`;
      the unique constraint on SYSTEM hubs' admin unit leaves at most one. */
  function FindSystemHub(hubs: seq<Hub>, unit: string): (r: Option<Hub>)
    ensures r.Some? ==> r.value in hubs && r.value.hubType == System
                        && r.value.adminUnit == Some(unit) && r.value.isActive
    ensures r.None? <==> !exists h :: h in hubs && h.hubType == System && h.adminUnit == Some(unit) && h.isActive
  {
    if hubs == [] then None
    else if hubs[0].hubType == System && hubs[0].adminUnit == Some(unit) && hubs[0].isActive then Some(hubs[0])
    else FindSystemHub(hubs[1..], unit)
  }

  /** An active LOCAL child of `parentId` whose name equals `name` ignoring case. */
  predicate NameTaken(hubs: seq<Hub>, parentId: string, name: string) {
    exists h :: h in hubs && h.hubType == Local && h.parent == Some(parentId) && h.isActive
                && Text.Lower(h.name) == Text.Lower(name)
  }

  predicate LocationStale(u: Requester) {
    u.updatedAt.Some? && (u.now - u.updatedAt.value) / SecondsPerDay > MaxLocationAgeDays
  }

  datatype Created = Created(hubs: seq<Hub>, members: set<Membership>, hub: Hub)

  /** The checks in the order the view makes them, each with its status, then
      the new hub and the creator's LEADER membership. */
  function Create(hubs: seq<Hub>, members: set<Membership>, u: Requester, rawName: Json,
                  newId: string): (r: Outcome<Created>)
    ensures PyStrOrEmpty(rawName).None? ==> r.Err? && r.status == 500
    ensures PyStrOrEmpty(rawName).Some? && Text.Trim(Text.Py, PyStrOrEmpty(rawName).value) == [] ==>
              r.Err? && r.status == 400
    ensures r.Ok? ==>
              var name := Text.Trim(Text.Py, PyStrOrEmpty(rawName).value);
              && name != []
              && u.admin2.Some? && u.confidence != Some("LOW") && !LocationStale(u)
              && FindSystemHub(hubs, u.admin2.value).Some?
              && var parent := FindSystemHub(hubs, u.admin2.value).value;
              && !NameTaken(hubs, parent.id, name)
              && |name| <= MaxHubName
              && r.value.hub == Hub(newId, name, Local, None, Some(parent.id), true)
              && r.value.hubs == hubs + [r.value.hub]
              && r.value.members == members + {Membership(u.id, newId, Leader, true)}
    ensures (&& PyStrOrEmpty(rawName).Some? && Text.Trim(Text.Py, PyStrOrEmpty(rawName).value) != []
             && u.admin2.Some? && u.confidence != Some("LOW") && !LocationStale(u)
             && FindSystemHub(hubs, u.admin2.value).Some?
             && !NameTaken(hubs, FindSystemHub(hubs, u.admin2.value).value.id,
                           Text.Trim(Text.Py, PyStrOrEmpty(rawName).value)))
            ==> (r.Ok? <==> |Text.Trim(Text.Py, PyStrOrEmpty(rawName).value)| <= MaxHubName)
    ensures r.Err? && r.status == 500 ==>
              || PyStrOrEmpty(rawName).None?
              || (u.admin2.Some? && FindSystemHub(hubs, u.admin2.value).None?)
              || |Text.Trim(Text.Py, PyStrOrEmpty(rawName).value)| > MaxHubName
  {
    match PyStrOrEmpty(rawName)
    case None => Err(500, "AttributeError")
    case Some(raw) =>
      var name := Text.Trim(Text.Py, raw);
      if name == [] then Err(400, "Community name is required")
      else if u.admin2.None? then
        Err(400, "Your location must be resolved to ADMIN_2 before creating a community")
      else if u.confidence == Some("LOW") then
        Err(400, "Location confidence too low to create a community")
      else if LocationStale(u) then
        Err(400, "Your location is outdated. Please refresh your location and try again.")
      else match FindSystemHub(hubs, u.admin2.value)
        case None => Err(500, "System hub for your location is missing. Please try again later.")
        case Some(parent) =>
          if NameTaken(hubs, parent.id, name) then
            Err(400, "A community with this name already exists in your area")
          else if |name| > MaxHubName then Err(500, "DataError")
          else
            var hub := Hub(newId, name, Local, None, Some(parent.id), true);
            Ok(Created(hubs + [hub], members + {Membership(u.id, newId, Leader, true)}, hub))
  }

  /** Creating the same name again under the same parent, in any letter case,
      is refused as a duplicate. */
  lemma CreateTwiceRefused(hubs: seq<Hub>, members: set<Membership>, u: Requester, rawName: Json,
                           id1: string, rawName2: Json, id2: string)
    requires Create(hubs, members, u, rawName, id1).Ok?
    requires PyStrOrEmpty(rawName2).Some?
    requires Text.Lower(Text.Trim(Text.Py, PyStrOrEmpty(rawName2).value))
             == Text.Lower(Text.Trim(Text.Py, PyStrOrEmpty(rawName).value))
    ensures var c := Create(hubs, members, u, rawName, id1).value;
      Create(c.hubs, c.members, u, rawName2, id2) == Err(400, "A community with this name already exists in your area")
  {
    var c := Create(hubs, members, u, rawName, id1).value;
    var name2 := Text.Trim(Text.Py, PyStrOrEmpty(rawName2).value);
    var parent := FindSystemHub(hubs, u.admin2.value).value;
    assert name2 != [] by {
      var name := Text.Trim(Text.Py, PyStrOrEmpty(rawName).value);
      assert |Text.Lower(name2)| == |Text.Lower(name)| > 0;
    }
    SystemHubStable(hubs, c.hub, u.admin2.value);
    assert c.hub in c.hubs;
    assert NameTaken(c.hubs, parent.id, name2);
  }

  /** Appending a LOCAL hub leaves the SYSTEM hub lookup unchanged. */
  lemma {:induction false} SystemHubStable(hubs: seq<Hub>, h: Hub, unit: string)
    requires h.hubType == Local
    ensures FindSystemHub(hubs + [h], unit) == FindSystemHub(hubs, unit)
  {
    if hubs != [] {
      assert (hubs + [h])[1..] == hubs[1..] + [h];
      SystemHubStable(hubs[1..], h, unit);
    }
  }
}
