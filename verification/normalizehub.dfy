/** `normalizeHub(raw)`: any object the server sends, coerced into the
    frontend's `Hub` shape: enumerations fall back to their defaults, counts
    go through `Number(..)`, flags through `Boolean(..)`. `nowIso` is the
    `new Date().toISOString()` used for a missing creation time. */
module NormalizeHub {

  import opened Wrappers
  import opened Json
  import opened ChatTypes
  import Text

  /** A JavaScript number as this code can produce it: a whole number or `NaN`. */
  datatype JsNumber = NaN | Whole(n: int)

  /** `raw?.key`: `None` is `undefined`. */
  function Get(raw: Json, key: string): (v: Option<Json>)
    ensures v.Some? <==> raw.JObj? && key in raw.fields
    ensures v.Some? ==> v.value == raw.fields[key]
  {
    if raw.JObj? && key in raw.fields then Some(raw.fields[key]) else None
  }

  /** `v ?? d`. */
  function Or(v: Option<Json>, d: Json): (r: Json)
    ensures Nullish(v) ==> r == d
    ensures !Nullish(v) ==> r == v.value
  {
    if Nullish(v) then d else v.value
  }

  /** `v ?? undefined`. */
  function OrAbsent(v: Option<Json>): (r: Option<Json>)
    ensures r.None? <==> Nullish(v)
    ensures r.Some? ==> r == v
  {
    if Nullish(v) then None else v
  }

  /** `Boolean(v)`. */
  function Bool(v: Option<Json>): bool {
    v.Some? && JsTruthy(v.value)
  }

  /** `v != null ? Boolean(v) : undefined`. */
  function BoolIfSet(v: Option<Json>): (r: Option<bool>)
    ensures r.None? <==> Nullish(v)
  {
    if Nullish(v) then None else Some(JsTruthy(v.value))
  }

  /** `Number(s)` for text: blank is 0, an optionally signed run of decimal
      digits is its value, anything else is `NaN` here. */
  function NumberOfText(s: string): (r: JsNumber)
    ensures Text.Trim(Text.Js, s) == "" ==> r == Whole(0)
  {
    var t := Text.Trim(Text.Js, s);
    if t == "" then Whole(0)
    else if Text.AllDigitsIn(10, t) then Whole(Text.ReadDigits(10, t))
    else if |t| >= 2 && (t[0] == '-' || t[0] == '+') && Text.AllDigitsIn(10, t[1..]) then
      var m: int := Text.ReadDigits(10, t[1..]);
      Whole(if t[0] == '-' then -m else m)
    else NaN
  }

  /** `Number(v)` of a JSON value. An array goes through its text
      (`String(a)`, the elements joined by commas): empty it is 0, with two or
      more elements the comma makes it `NaN`, and a single element is read as
      its own text, where `null` gives "" and a boolean "true" or "false". */
  function NumberOf(v: Json): (r: JsNumber)
    ensures v == JNull ==> r == Whole(0)
    ensures v.JNum? ==> r == Whole(v.n)
    ensures v.JStr? ==> r == NumberOfText(v.s)
    ensures v.JArr? && |v.items| == 1 && !v.items[0].JBool? ==> r == NumberOf(v.items[0])
    ensures v.JArr? && |v.items| != 1 ==> r == (if v.items == [] then Whole(0) else NaN)
  {
    match v
    case JNull => Whole(0)
    case JBool(b) => Whole(if b then 1 else 0)
    case JNum(n) => Whole(n)
    case JStr(s) => NumberOfText(s)
    case JArr(xs) =>
      if xs == [] then Whole(0)
      else if |xs| > 1 then NaN
      else if xs[0].JBool? then NaN
      else NumberOf(xs[0])
    case JObj(_) => NaN
  }

  /** `Number(v)` with `v` possibly `undefined`. */
  function Number(v: Option<Json>): (r: JsNumber)
    ensures v.None? ==> r == NaN
    ensures v.Some? ==> r == NumberOf(v.value)
  {
    match v
    case None => NaN
    case Some(x) => NumberOf(x)
  }

  /** A one-element array reads as its element: `Number([5])` is 5 and
      `Number(["12"])` is 12. */
  lemma SingletonNumber(n: int)
    ensures Number(Some(JArr([JNum(n)]))) == Whole(n)
    ensures Number(Some(JArr([JStr("12")]))) == Whole(12)
  {
    assert !Text.IsSpace(Text.Js, '1') && !Text.IsSpace(Text.Js, '2');
    assert Text.TrimStart(Text.Js, "12") == "12";
    assert Text.TrimEnd(Text.Js, "12") == "12";
    assert Text.Trim(Text.Js, "12") == "12";
    assert "12"[..1] == "1" && "1"[..0] == "";
    assert Text.ReadDigits(10, "1") == 1;
    assert Text.ReadDigits(10, "12") == 12;
  }

  /** `v != null ? Number(v) : undefined`. */
  function NumberIfSet(v: Option<Json>): (r: Option<JsNumber>)
    ensures r.None? <==> Nullish(v)
  {
    if Nullish(v) then None else Some(Number(v))
  }

  /** `Array.isArray(v) ? v : d`. */
  function ArrayOr(v: Option<Json>, d: seq<Json>): seq<Json> {
    if v.Some? && v.value.JArr? then v.value.items else d
  }

  function ArrayIfArray(v: Option<Json>): (r: Option<seq<Json>>)
    ensures r.Some? <==> v.Some? && v.value.JArr?
  {
    if v.Some? && v.value.JArr? then Some(v.value.items) else None
  }

  /** `v` when it is one of `allowed`. */
  function OneOf(v: Option<Json>, allowed: set<string>): (r: Option<string>)
    ensures r.Some? <==> v.Some? && v.value.JStr? && v.value.s in allowed
    ensures r.Some? ==> v == Some(JStr(r.value))
  {
    if v.Some? && v.value.JStr? && v.value.s in allowed then Some(v.value.s) else None
  }

  datatype Hub = Hub(
    id: string, name: string, description: Json, category: Json, tags: seq<Json>,
    coverImage: Json, avatarIcon: Json, locationLabel: Json, createdAt: Json, updatedAt: Option<Json>,
    hubType: string, isDefault: bool, isVerified: bool, isActive: bool,
    membersCount: JsNumber, onlineCount: Option<JsNumber>, userJoined: bool, userRole: Option<string>,
    lastMessageText: Json, lastMessageType: Option<string>, lastMessageAt: Json, lastMessageSenderName: Json,
    unreadCount: JsNumber, pinnedMessageId: Json,
    privacy: string, joinMode: string, isLocked: Option<bool>, requiresLocationMatch: Option<bool>, minAge: Option<Json>,
    rules: Option<Json>, reportCount: Option<Json>, autoModerationEnabled: Option<bool>, bannedWords: Option<seq<Json>>,
    allowMedia: Option<bool>, allowLinks: Option<bool>, slowModeSeconds: Option<JsNumber>, maxMembers: Option<Json>,
    createdBy: Option<Json>, verifiedBy: Json,
    isSponsored: Option<bool>, sponsorName: Option<Json>, donationEnabled: Option<bool>,
    subscriptionEnabled: Option<bool>, adSlotsEnabled: Option<bool>)

  const Roles: set<string> := {"LEADER", "MODERATOR", "MEMBER"}
  const MessageTypes: set<string> := {"TEXT", "MEDIA", "SYSTEM"}

  function Privacy(raw: Json): (p: string)
    ensures p in {"PUBLIC", "PRIVATE", "INVITE_ONLY"}
    ensures p != "PUBLIC" <==> Get(raw, "privacy") in {Some(JStr("PRIVATE")), Some(JStr("INVITE_ONLY"))}
    ensures p != "PUBLIC" ==> Get(raw, "privacy") == Some(JStr(p))
  {
    var v := Get(raw, "privacy");
    if v == Some(JStr("PRIVATE")) || v == Some(JStr("INVITE_ONLY")) then v.value.s else "PUBLIC"
  }

  function JoinMode(raw: Json): (j: string)
    ensures j in {"OPEN", "REQUEST", "APPROVAL"}
    ensures j != "OPEN" <==> Get(raw, "join_mode") in {Some(JStr("REQUEST")), Some(JStr("APPROVAL"))}
    ensures j != "OPEN" ==> Get(raw, "join_mode") == Some(JStr(j))
  {
    var v := Get(raw, "join_mode");
    if v == Some(JStr("REQUEST")) || v == Some(JStr("APPROVAL")) then v.value.s else "OPEN"
  }

  /** `normalizeHub(raw)`. */
  function Normalize(raw: Json, nowIso: string): (h: Hub)
    ensures h.privacy == Privacy(raw) && h.joinMode == JoinMode(raw)
    ensures h.userRole == OneOf(Get(raw, "user_role"), Roles)
    ensures h.lastMessageType == OneOf(Get(raw, "last_message_type"), MessageTypes)
    ensures h.hubType == (if Get(raw, "type") == Some(JStr("LOCAL")) then "LOCAL" else "SYSTEM")
    ensures !h.isActive <==> Get(raw, "is_active") == Some(JBool(false))
    ensures Nullish(Get(raw, "name")) ==> h.name == "Unnamed Hub"
    ensures Get(raw, "name").Some? && Get(raw, "name").value.JStr? ==> h.name == Get(raw, "name").value.s
    ensures Nullish(Get(raw, "members_count")) ==> h.membersCount == Whole(0)
    ensures Nullish(Get(raw, "unread_count")) ==> h.unreadCount == Whole(0)
    ensures Nullish(Get(raw, "online_count")) <==> h.onlineCount.None?
    ensures !raw.JObj? ==> h.id == "" && h.createdAt == JStr(nowIso) && h.tags == []
  {
    Hub(
      JsText(Or(Get(raw, "id"), JStr(""))),
      JsText(Or(Get(raw, "name"), JStr("Unnamed Hub"))),
      Or(Get(raw, "description"), JStr("")),
      Or(Get(raw, "category"), JStr("General")),
      ArrayOr(Get(raw, "tags"), []),
      Or(Get(raw, "cover_image"), JNull),
      Or(Get(raw, "avatar_icon"), JNull),
      Or(Get(raw, "location_label"), JStr("")),
      Or(Get(raw, "created_at"), JStr(nowIso)),
      OrAbsent(Get(raw, "updated_at")),
      if Get(raw, "type") == Some(JStr("LOCAL")) then "LOCAL" else "SYSTEM",
      Bool(Get(raw, "is_default")),
      Bool(Get(raw, "is_verified")),
      Get(raw, "is_active") != Some(JBool(false)),
      Number(Some(Or(Get(raw, "members_count"), JNum(0)))),
      NumberIfSet(Get(raw, "online_count")),
      Bool(Get(raw, "user_joined")),
      OneOf(Get(raw, "user_role"), Roles),
      Or(Get(raw, "last_message_text"), JNull),
      OneOf(Get(raw, "last_message_type"), MessageTypes),
      Or(Get(raw, "last_message_at"), JNull),
      Or(Get(raw, "last_message_sender_name"), JNull),
      Number(Some(Or(Get(raw, "unread_count"), JNum(0)))),
      Or(Get(raw, "pinned_message_id"), JNull),
      Privacy(raw),
      JoinMode(raw),
      BoolIfSet(Get(raw, "is_locked")),
      BoolIfSet(Get(raw, "requires_location_match")),
      OrAbsent(Get(raw, "min_age")),
      OrAbsent(Get(raw, "rules")),
      OrAbsent(Get(raw, "report_count")),
      BoolIfSet(Get(raw, "auto_moderation_enabled")),
      ArrayIfArray(Get(raw, "banned_words")),
      BoolIfSet(Get(raw, "allow_media")),
      BoolIfSet(Get(raw, "allow_links")),
      NumberIfSet(Get(raw, "slow_mode_seconds")),
      OrAbsent(Get(raw, "max_members")),
      OrAbsent(Get(raw, "created_by")),
      Or(Get(raw, "verified_by"), JNull),
      BoolIfSet(Get(raw, "is_sponsored")),
      OrAbsent(Get(raw, "sponsor_name")),
      BoolIfSet(Get(raw, "donation_enabled")),
      BoolIfSet(Get(raw, "subscription_enabled")),
      BoolIfSet(Get(raw, "ad_slots_enabled")))
  }

  /** A number as `JSON.stringify` writes it: `NaN` becomes `null`. */
  function NumJson(n: JsNumber): Json {
    match n
    case NaN => JNull
    case Whole(k) => JNum(k)
  }

  /** An optional flag or count as a JSON value, `None` when `undefined`. */
  function BoolJson(b: Option<bool>): Option<Json> {
    if b.Some? then Some(JBool(b.value)) else None
  }

  function NumOpt(n: Option<JsNumber>): Option<Json> {
    if n.Some? then Some(NumJson(n.value)) else None
  }

  /** `v`, or `null` for `undefined`. */
  function OrNull(v: Option<Json>): (r: Json)
    ensures Nullish(Some(r)) <==> Nullish(v)
  {
    if v.Some? then v.value else JNull
  }

  /** No count came out as `NaN`. */
  predicate Numeric(h: Hub) {
    && h.membersCount.Whole? && h.unreadCount.Whole?
    && (h.onlineCount.Some? ==> h.onlineCount.value.Whole?)
    && (h.slowModeSeconds.Some? ==> h.slowModeSeconds.value.Whole?)
  }

  /** What `normalizeHub` always produces: counts are numbers, enumerations
      are in range, and a field defaulted with `??` is never `null`. */
  predicate Canonical(h: Hub) {
    && Numeric(h)
    && h.description != JNull && h.category != JNull && h.locationLabel != JNull && h.createdAt != JNull
    && h.hubType in {"LOCAL", "SYSTEM"}
    && (h.userRole.Some? ==> h.userRole.value in Roles)
    && (h.lastMessageType.Some? ==> h.lastMessageType.value in MessageTypes)
    && h.privacy in {"PUBLIC", "PRIVATE", "INVITE_ONLY"}
    && h.joinMode in {"OPEN", "REQUEST", "APPROVAL"}
    && h.updatedAt != Some(JNull) && h.minAge != Some(JNull) && h.rules != Some(JNull)
    && h.reportCount != Some(JNull) && h.maxMembers != Some(JNull) && h.createdBy != Some(JNull)
    && h.sponsorName != Some(JNull)
  }

  /** `j` carries every field of `h` under its wire name, an `undefined`
      field as `null`: the object the app stores and feeds back in. */
  predicate Carries(j: Json, h: Hub) {
    // Identity
    && Get(j, "id") == Some(JStr(h.id))
    && Get(j, "name") == Some(JStr(h.name))
    && Get(j, "description") == Some(h.description)
    && Get(j, "category") == Some(h.category)
    && Get(j, "tags") == Some(JArr(h.tags))
    && Get(j, "cover_image") == Some(h.coverImage)
    && Get(j, "avatar_icon") == Some(h.avatarIcon)
    && Get(j, "location_label") == Some(h.locationLabel)
    && Get(j, "created_at") == Some(h.createdAt)
    && Get(j, "updated_at") == Some(OrNull(h.updatedAt))
    // Status
    && Get(j, "type") == Some(JStr(h.hubType))
    && Get(j, "is_default") == Some(JBool(h.isDefault))
    && Get(j, "is_verified") == Some(JBool(h.isVerified))
    && Get(j, "is_active") == Some(JBool(h.isActive))
    // Membership
    && Get(j, "members_count") == Some(NumJson(h.membersCount))
    && Get(j, "online_count") == Some(OrNull(NumOpt(h.onlineCount)))
    && Get(j, "user_joined") == Some(JBool(h.userJoined))
    && Get(j, "user_role") == Some(if h.userRole.Some? then JStr(h.userRole.value) else JNull)
    // Preview
    && Get(j, "last_message_text") == Some(h.lastMessageText)
    && Get(j, "last_message_type") == Some(if h.lastMessageType.Some? then JStr(h.lastMessageType.value) else JNull)
    && Get(j, "last_message_at") == Some(h.lastMessageAt)
    && Get(j, "last_message_sender_name") == Some(h.lastMessageSenderName)
    && Get(j, "unread_count") == Some(NumJson(h.unreadCount))
    && Get(j, "pinned_message_id") == Some(h.pinnedMessageId)
    // Privacy
    && Get(j, "privacy") == Some(JStr(h.privacy))
    && Get(j, "join_mode") == Some(JStr(h.joinMode))
    && Get(j, "is_locked") == Some(OrNull(BoolJson(h.isLocked)))
    && Get(j, "requires_location_match") == Some(OrNull(BoolJson(h.requiresLocationMatch)))
    && Get(j, "min_age") == Some(OrNull(h.minAge))
    // Moderation
    && Get(j, "rules") == Some(OrNull(h.rules))
    && Get(j, "report_count") == Some(OrNull(h.reportCount))
    && Get(j, "auto_moderation_enabled") == Some(OrNull(BoolJson(h.autoModerationEnabled)))
    && Get(j, "banned_words") == Some(if h.bannedWords.Some? then JArr(h.bannedWords.value) else JNull)
    && Get(j, "allow_media") == Some(OrNull(BoolJson(h.allowMedia)))
    && Get(j, "allow_links") == Some(OrNull(BoolJson(h.allowLinks)))
    && Get(j, "slow_mode_seconds") == Some(OrNull(NumOpt(h.slowModeSeconds)))
    && Get(j, "max_members") == Some(OrNull(h.maxMembers))
    // Ownership
    && Get(j, "created_by") == Some(OrNull(h.createdBy))
    && Get(j, "verified_by") == Some(h.verifiedBy)
    // Monetization
    && Get(j, "is_sponsored") == Some(OrNull(BoolJson(h.isSponsored)))
    && Get(j, "sponsor_name") == Some(OrNull(h.sponsorName))
    && Get(j, "donation_enabled") == Some(OrNull(BoolJson(h.donationEnabled)))
    && Get(j, "subscription_enabled") == Some(OrNull(BoolJson(h.subscriptionEnabled)))
    && Get(j, "ad_slots_enabled") == Some(OrNull(BoolJson(h.adSlotsEnabled)))
  }

  /** Every hub `normalizeHub` returns is canonical, whenever no count is `NaN`. */
  lemma NormalizeCanonical(raw: Json, nowIso: string)
    requires Numeric(Normalize(raw, nowIso))
    ensures Canonical(Normalize(raw, nowIso))
  {
  }

  /** An optional flag written back and read again is unchanged. */
  lemma FlagRoundTrip(b: Option<bool>)
    ensures BoolIfSet(Some(OrNull(BoolJson(b)))) == b
  {
  }

  lemma IdentityCarried(j: Json, h: Hub, later: string)
    requires Canonical(h)
    requires Get(j, "id") == Some(JStr(h.id))
    requires Get(j, "name") == Some(JStr(h.name))
    requires Get(j, "description") == Some(h.description)
    requires Get(j, "category") == Some(h.category)
    requires Get(j, "tags") == Some(JArr(h.tags))
    requires Get(j, "cover_image") == Some(h.coverImage)
    requires Get(j, "avatar_icon") == Some(h.avatarIcon)
    requires Get(j, "location_label") == Some(h.locationLabel)
    requires Get(j, "created_at") == Some(h.createdAt)
    requires Get(j, "updated_at") == Some(OrNull(h.updatedAt))
    ensures && Normalize(j, later).id == h.id
              && Normalize(j, later).name == h.name
              && Normalize(j, later).description == h.description
              && Normalize(j, later).category == h.category
              && Normalize(j, later).tags == h.tags
              && Normalize(j, later).coverImage == h.coverImage
              && Normalize(j, later).avatarIcon == h.avatarIcon
              && Normalize(j, later).locationLabel == h.locationLabel
              && Normalize(j, later).createdAt == h.createdAt
              && Normalize(j, later).updatedAt == h.updatedAt
  {
  }

  lemma StatusCarried(j: Json, h: Hub, later: string)
    requires Canonical(h)
    requires Get(j, "type") == Some(JStr(h.hubType))
    requires Get(j, "is_default") == Some(JBool(h.isDefault))
    requires Get(j, "is_verified") == Some(JBool(h.isVerified))
    requires Get(j, "is_active") == Some(JBool(h.isActive))
    ensures && Normalize(j, later).hubType == h.hubType
              && Normalize(j, later).isDefault == h.isDefault
              && Normalize(j, later).isVerified == h.isVerified
              && Normalize(j, later).isActive == h.isActive
  {
  }

  lemma MembershipCarried(j: Json, h: Hub, later: string)
    requires Canonical(h)
    requires Get(j, "members_count") == Some(NumJson(h.membersCount))
    requires Get(j, "online_count") == Some(OrNull(NumOpt(h.onlineCount)))
    requires Get(j, "user_joined") == Some(JBool(h.userJoined))
    requires Get(j, "user_role") == Some(if h.userRole.Some? then JStr(h.userRole.value) else JNull)
    ensures && Normalize(j, later).membersCount == h.membersCount
              && Normalize(j, later).onlineCount == h.onlineCount
              && Normalize(j, later).userJoined == h.userJoined
              && Normalize(j, later).userRole == h.userRole
  {
  }

  lemma PreviewCarried(j: Json, h: Hub, later: string)
    requires Canonical(h)
    requires Get(j, "last_message_text") == Some(h.lastMessageText)
    requires Get(j, "last_message_type") == Some(if h.lastMessageType.Some? then JStr(h.lastMessageType.value) else JNull)
    requires Get(j, "last_message_at") == Some(h.lastMessageAt)
    requires Get(j, "last_message_sender_name") == Some(h.lastMessageSenderName)
    requires Get(j, "unread_count") == Some(NumJson(h.unreadCount))
    requires Get(j, "pinned_message_id") == Some(h.pinnedMessageId)
    ensures && Normalize(j, later).lastMessageText == h.lastMessageText
              && Normalize(j, later).lastMessageType == h.lastMessageType
              && Normalize(j, later).lastMessageAt == h.lastMessageAt
              && Normalize(j, later).lastMessageSenderName == h.lastMessageSenderName
              && Normalize(j, later).unreadCount == h.unreadCount
              && Normalize(j, later).pinnedMessageId == h.pinnedMessageId
  {
  }

  /** An optional value written back, `undefined` as `null`, and read again
      is unchanged, unless it was `null` to begin with. */
  lemma OptionalRoundTrip(x: Option<Json>)
    requires x != Some(JNull)
    ensures OrAbsent(Some(OrNull(x))) == x
  {
    if x.Some? {
      assert !Nullish(Some(OrNull(x)));
    }
  }

  /** An optional count written back and read again is unchanged, unless it
      was `NaN`. */
  lemma CountRoundTrip(n: Option<JsNumber>)
    requires n.Some? ==> n.value.Whole?
    ensures NumberIfSet(Some(OrNull(NumOpt(n)))) == n
  {
    if n.Some? {
      assert OrNull(NumOpt(n)) == JNum(n.value.n);
    }
  }

  lemma PrivacyCarried(j: Json, h: Hub, later: string)
    requires h.privacy in {"PUBLIC", "PRIVATE", "INVITE_ONLY"} && h.joinMode in {"OPEN", "REQUEST", "APPROVAL"}
    requires h.minAge != Some(JNull)
    requires Get(j, "privacy") == Some(JStr(h.privacy))
    requires Get(j, "join_mode") == Some(JStr(h.joinMode))
    requires Get(j, "is_locked") == Some(OrNull(BoolJson(h.isLocked)))
    requires Get(j, "requires_location_match") == Some(OrNull(BoolJson(h.requiresLocationMatch)))
    requires Get(j, "min_age") == Some(OrNull(h.minAge))
    ensures && Normalize(j, later).privacy == h.privacy
              && Normalize(j, later).joinMode == h.joinMode
              && Normalize(j, later).isLocked == h.isLocked
              && Normalize(j, later).requiresLocationMatch == h.requiresLocationMatch
              && Normalize(j, later).minAge == h.minAge
  {
    FlagRoundTrip(h.isLocked);
    FlagRoundTrip(h.requiresLocationMatch);
    OptionalRoundTrip(h.minAge);
  }

  lemma ModerationCarried(j: Json, h: Hub, later: string)
    requires h.rules != Some(JNull) && h.reportCount != Some(JNull) && h.maxMembers != Some(JNull)
    requires h.slowModeSeconds.Some? ==> h.slowModeSeconds.value.Whole?
    requires Get(j, "rules") == Some(OrNull(h.rules))
    requires Get(j, "report_count") == Some(OrNull(h.reportCount))
    requires Get(j, "auto_moderation_enabled") == Some(OrNull(BoolJson(h.autoModerationEnabled)))
    requires Get(j, "banned_words") == Some(if h.bannedWords.Some? then JArr(h.bannedWords.value) else JNull)
    requires Get(j, "allow_media") == Some(OrNull(BoolJson(h.allowMedia)))
    requires Get(j, "allow_links") == Some(OrNull(BoolJson(h.allowLinks)))
    requires Get(j, "slow_mode_seconds") == Some(OrNull(NumOpt(h.slowModeSeconds)))
    requires Get(j, "max_members") == Some(OrNull(h.maxMembers))
    ensures && Normalize(j, later).rules == h.rules
              && Normalize(j, later).reportCount == h.reportCount
              && Normalize(j, later).autoModerationEnabled == h.autoModerationEnabled
              && Normalize(j, later).bannedWords == h.bannedWords
              && Normalize(j, later).allowMedia == h.allowMedia
              && Normalize(j, later).allowLinks == h.allowLinks
              && Normalize(j, later).slowModeSeconds == h.slowModeSeconds
              && Normalize(j, later).maxMembers == h.maxMembers
  {
    OptionalRoundTrip(h.rules);
    OptionalRoundTrip(h.reportCount);
    OptionalRoundTrip(h.maxMembers);
    FlagRoundTrip(h.autoModerationEnabled);
    FlagRoundTrip(h.allowMedia);
    FlagRoundTrip(h.allowLinks);
    CountRoundTrip(h.slowModeSeconds);
  }

  lemma OwnershipCarried(j: Json, h: Hub, later: string)
    requires Canonical(h)
    requires Get(j, "created_by") == Some(OrNull(h.createdBy))
    requires Get(j, "verified_by") == Some(h.verifiedBy)
    ensures && Normalize(j, later).createdBy == h.createdBy
              && Normalize(j, later).verifiedBy == h.verifiedBy
  {
  }

  lemma MonetizationCarried(j: Json, h: Hub, later: string)
    requires Canonical(h)
    requires Get(j, "is_sponsored") == Some(OrNull(BoolJson(h.isSponsored)))
    requires Get(j, "sponsor_name") == Some(OrNull(h.sponsorName))
    requires Get(j, "donation_enabled") == Some(OrNull(BoolJson(h.donationEnabled)))
    requires Get(j, "subscription_enabled") == Some(OrNull(BoolJson(h.subscriptionEnabled)))
    requires Get(j, "ad_slots_enabled") == Some(OrNull(BoolJson(h.adSlotsEnabled)))
    ensures && Normalize(j, later).isSponsored == h.isSponsored
              && Normalize(j, later).sponsorName == h.sponsorName
              && Normalize(j, later).donationEnabled == h.donationEnabled
              && Normalize(j, later).subscriptionEnabled == h.subscriptionEnabled
              && Normalize(j, later).adSlotsEnabled == h.adSlotsEnabled
  {
    FlagRoundTrip(h.isSponsored);
    FlagRoundTrip(h.donationEnabled);
    FlagRoundTrip(h.subscriptionEnabled);
    FlagRoundTrip(h.adSlotsEnabled);
  }

  /** Normalizing an object that carries a canonical hub gives that hub back. */
  lemma CarriedIsFixed(j: Json, h: Hub, later: string)
    requires Canonical(h) && Carries(j, h)
    ensures Normalize(j, later) == h
  {
    IdentityCarried(j, h, later);
    StatusCarried(j, h, later);
    MembershipCarried(j, h, later);
    PreviewCarried(j, h, later);
    PrivacyCarried(j, h, later);
    ModerationCarried(j, h, later);
    OwnershipCarried(j, h, later);
    MonetizationCarried(j, h, later);
  }

  /** `normalizeHub` is idempotent: feeding back what it returned, with no
      count `NaN`, yields the same hub, whatever the clock reads the second
      time. */
  lemma NormalizeIdempotent(raw: Json, nowIso: string, j: Json, later: string)
    requires Numeric(Normalize(raw, nowIso))
    requires Carries(j, Normalize(raw, nowIso))
    ensures Normalize(j, later) == Normalize(raw, nowIso)
  {
    NormalizeCanonical(raw, nowIso);
    CarriedIsFixed(j, Normalize(raw, nowIso), later);
  }
}
