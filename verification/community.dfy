/** The community records the hub views read and write: hubs, memberships
    and hub messages, as the database holds them. */
module Community {

  import opened Wrappers
  import IsoTime
  import UuidText

  datatype HubType = System | Local

  datatype Role = Member | Leader | Moderator

  datatype Hub = Hub(
    id: string,
    name: string,
    hubType: HubType,
    adminUnit: Option<string>,
    parent: Option<string>,
    isActive: bool)

  /** One row per (user, hub), as `unique_together` demands. */
  datatype Membership = Membership(userId: string, hubId: string, role: Role, isActive: bool)

  datatype HubMessage = HubMessage(
    id: UuidText.Uuid,
    hubId: string,
    senderId: string,
    text: string,
    createdAt: IsoTime.Instant)

  /** The `User` columns a message's sender is shown with. The model has no
      `photo` attribute (its picture column is `live_photo`), so
      `getattr(user, "photo", None)` is always `None`. */
  datatype Person = Person(username: string, fullName: string)

  /** `getattr(user, "full_name", None) or user.username`: a blank full name
      falls back to the username. */
  function DisplayName(p: Person): (name: string)
    ensures p.fullName != "" ==> name == p.fullName
    ensures p.fullName == "" ==> name == p.username
  {
    if p.fullName != "" then p.fullName else p.username
  }

  /** The `CommunityMembership.objects.filter(user=.., hub_id=.., is_active=True).exists()` test. */
  predicate IsActiveMember(members: set<Membership>, userId: string, hubId: string) {
    exists m :: m in members && m.userId == userId && m.hubId == hubId && m.isActive
  }

  /** What the database guarantees of stored messages: valid timestamps and
      distinct primary keys. */
  predicate WellFormedStore(store: seq<HubMessage>) {
    && (forall k :: 0 <= k < |store| ==> IsoTime.Valid(store[k].createdAt))
    && (forall i, j :: 0 <= i < j < |store| ==> store[i].id != store[j].id)
  }
}
