/** The account views' validators: the profile patch, the phone OTP send and
    verify steps, the username claim against the registry, the quiet-hours
    settings and the emergency-contact limit. */
module Accounts {

  import opened Wrappers
  import opened Json
  import Text
  import Otp

  // ---------------------------------------------------------------------
  // Profile

  datatype Profile = Profile(fullName: string, language: string)

  const MaxFullName: nat := 255
  const MaxLanguage: nat := 20

  /** `ProfileUpdateView.patch`: both texts are read and stripped first, then
      a phone number of any non-null value is refused, then the lengths are
      checked; a blank text leaves its field alone. */
  function PatchProfile(p: Profile, data: map<string, Json>): (r: Outcome<Profile>)
    ensures (PyStrOrEmpty(Field(data, "full_name")).None? || PyStrOrEmpty(Field(data, "preferred_language")).None?)
              ==> r.Err? && r.status == 500
    ensures r.Ok? ==>
              var name := Text.Trim(Text.Py, PyStrOrEmpty(Field(data, "full_name")).value);
              var lang := Text.Trim(Text.Py, PyStrOrEmpty(Field(data, "preferred_language")).value);
              && Field(data, "phone_number") == JNull
              && |name| <= MaxFullName && |lang| <= MaxLanguage
              && r.value.fullName == (if name == [] then p.fullName else name)
              && r.value.language == (if lang == [] then p.language else lang)
    ensures (PyStrOrEmpty(Field(data, "full_name")).Some? && PyStrOrEmpty(Field(data, "preferred_language")).Some?
             && Field(data, "phone_number") != JNull) ==> r.Err? && r.status == 400
    ensures (PyStrOrEmpty(Field(data, "full_name")).Some? && PyStrOrEmpty(Field(data, "preferred_language")).Some?
             && Field(data, "phone_number") == JNull
             && |Text.Trim(Text.Py, PyStrOrEmpty(Field(data, "full_name")).value)| <= MaxFullName
             && |Text.Trim(Text.Py, PyStrOrEmpty(Field(data, "preferred_language")).value)| <= MaxLanguage) ==> r.Ok?
  {
    match (PyStrOrEmpty(Field(data, "full_name")), PyStrOrEmpty(Field(data, "preferred_language")))
    case (None, _) => Err(500, "AttributeError")
    case (_, None) => Err(500, "AttributeError")
    case (Some(rawName), Some(rawLang)) =>
      var name := Text.Trim(Text.Py, rawName);
      var lang := Text.Trim(Text.Py, rawLang);
      if Field(data, "phone_number") != JNull then Err(400, "Phone number changes require OTP verification.")
      else if name != [] && |name| > MaxFullName then Err(400, "Full name is too long.")
      else if lang != [] && |lang| > MaxLanguage then Err(400, "Invalid preferred language.")
      else Ok(Profile(if name != [] then name else p.fullName, if lang != [] then lang else p.language))
  }

  /** A patch without names keeps the profile as it was. */
  lemma BlankPatchKeepsProfile(p: Profile, data: map<string, Json>)
    requires Field(data, "phone_number") == JNull
    requires PyStrOrEmpty(Field(data, "full_name")).Some? && PyStrOrEmpty(Field(data, "preferred_language")).Some?
    requires Text.AllSpace(Text.Py, PyStrOrEmpty(Field(data, "full_name")).value)
    requires Text.AllSpace(Text.Py, PyStrOrEmpty(Field(data, "preferred_language")).value)
    ensures PatchProfile(p, data) == Ok(p)
  {
    Text.TrimEmptyIffAllSpace(Text.Py, PyStrOrEmpty(Field(data, "full_name")).value);
    Text.TrimEmptyIffAllSpace(Text.Py, PyStrOrEmpty(Field(data, "preferred_language")).value);
  }

  // ---------------------------------------------------------------------
  // Phone OTP

  /** An `OTP` row; `createdAt` in microseconds. */
  datatype OtpRow = OtpRow(identifier: string, code: string, purpose: string, isUsed: bool, createdAt: int)

  /** The phone numbers of the other users and the OTP table. */
  datatype PhoneState = PhoneState(otherPhones: set<string>, otps: seq<OtpRow>)

  const MinPhone: nat := 7
  const MaxPhone: nat := 20
  /** The code every OTP row is created with while no SMS provider is wired in. */
  const FixedCode: string := "123456"

  /** `SendPhoneOTPView.post` at time `now`. */
  function SendPhoneOtp(st: PhoneState, data: map<string, Json>, now: int): (r: Outcome<PhoneState>)
    ensures PyStrOrEmpty(Field(data, "phone_number")).None? ==> r.Err? && r.status == 500
    ensures r.Ok? ==>
              var phone := Text.Trim(Text.Py, PyStrOrEmpty(Field(data, "phone_number")).value);
              && MinPhone <= |phone| <= MaxPhone && phone !in st.otherPhones
              && r.value == st.(otps := st.otps + [OtpRow(phone, FixedCode, "VERIFY", false, now)])
    ensures (PyStrOrEmpty(Field(data, "phone_number")).Some? &&
             var phone := Text.Trim(Text.Py, PyStrOrEmpty(Field(data, "phone_number")).value);
             MinPhone <= |phone| <= MaxPhone && phone !in st.otherPhones) ==> r.Ok?
    ensures r.Err? && r.status == 409 ==>
              Text.Trim(Text.Py, PyStrOrEmpty(Field(data, "phone_number")).value) in st.otherPhones
  {
    match PyStrOrEmpty(Field(data, "phone_number"))
    case None => Err(500, "AttributeError")
    case Some(raw) =>
      var phone := Text.Trim(Text.Py, raw);
      if phone == [] then Err(400, "Phone number is required")
      else if |phone| < MinPhone || |phone| > MaxPhone then Err(400, "Invalid phone number")
      else if phone in st.otherPhones then Err(409, "Phone number already in use")
      else Ok(st.(otps := st.otps + [OtpRow(phone, FixedCode, "VERIFY", false, now)]))
  }

  /** `len(code)` on a decoded JSON value: numbers and booleans have no
      length and raise `TypeError`, which is `None` here. */
  function PyLen(v: Json): (r: Option<nat>)
    ensures v.JStr? ==> r == Some(|v.s|)
    ensures r.None? <==> v.JNull? || v.JBool? || v.JNum?
  {
    match v
    case JStr(s) => Some(|s|)
    case JArr(xs) => Some(|xs|)
    case JObj(m) => Some(|m|)
    case _ => None
  }

  predicate Pending(o: OtpRow, phone: string) {
    o.identifier == phone && o.purpose == "VERIFY" && !o.isUsed
  }

  /** `.order_by("-created_at").first()` over the unused VERIFY rows of the
      phone: the index of the newest, the earliest of equals. */
  function Latest(otps: seq<OtpRow>, phone: string): (r: Option<nat>)
    ensures r.Some? ==> r.value < |otps| && Pending(otps[r.value], phone)
    ensures r.Some? ==> forall k :: 0 <= k < |otps| && Pending(otps[k], phone) ==> otps[k].createdAt <= otps[r.value].createdAt
    ensures r.None? <==> forall k :: 0 <= k < |otps| ==> !Pending(otps[k], phone)
  {
    if otps == [] then None
    else
      var rest := Latest(otps[1..], phone);
      if !Pending(otps[0], phone) then (if rest.Some? then Some(rest.value + 1) else None)
      else if rest.Some? && otps[1 + rest.value].createdAt > otps[0].createdAt then Some(rest.value + 1)
      else Some(0)
  }

  /** `not otp.is_expired()` at time `now`, with the whole age compared (see
      `Otp.IsExpired`; the source drops whole days). */
  predicate Fresh(o: OtpRow, now: int) {
    !Otp.IsExpired(now - o.createdAt)
  }

  /** `otp.is_used = True` on row `i`. */
  function Consume(otps: seq<OtpRow>, i: nat): (r: seq<OtpRow>)
    requires i < |otps|
    ensures |r| == |otps| && r[i].isUsed && r[i].identifier == otps[i].identifier
    ensures forall k :: 0 <= k < |otps| && k != i ==> r[k] == otps[k]
  {
    otps[i := otps[i].(isUsed := true)]
  }

  datatype Verified = Verified(st: PhoneState, phone: string)

  /** `VerifyPhoneOTPView.post` at time `now`. The newest pending code is
      consumed before the phone is checked as taken, so a 409 still uses it;
      the stored code is compared with the fixed code, not with the one sent. */
  function VerifyPhoneOtp(st: PhoneState, data: map<string, Json>, now: int): (r: Outcome<Verified>)
    ensures PyStrOrEmpty(Field(data, "phone_number")).None? ==> r.Err? && r.status == 500
    ensures r.Ok? ==>
              var phone := Text.Trim(Text.Py, PyStrOrEmpty(Field(data, "phone_number")).value);
              && phone != [] && PyLen(Field(data, "code")) == Some(Otp.CodeLength)
              && Latest(st.otps, phone).Some?
              && Fresh(st.otps[Latest(st.otps, phone).value], now)
              && phone !in st.otherPhones
              && r.value == Verified(st.(otps := Consume(st.otps, Latest(st.otps, phone).value)), phone)
    ensures r.Err? && r.status == 409 ==>
              Text.Trim(Text.Py, PyStrOrEmpty(Field(data, "phone_number")).value) in st.otherPhones
  {
    match PyStrOrEmpty(Field(data, "phone_number"))
    case None => Err(500, "AttributeError")
    case Some(raw) =>
      var phone := Text.Trim(Text.Py, raw);
      var code := Field(data, "code");
      if phone == [] || !PyTruthy(code) then Err(400, "Phone number and OTP code are required")
      else match PyLen(code)
        case None => Err(500, "TypeError")
        case Some(n) =>
          if n != Otp.CodeLength then Err(400, "OTP must be 6 digits")
          else match Latest(st.otps, phone)
            case None => Err(404, "No OTP found or OTP already used")
            case Some(i) =>
              if !Fresh(st.otps[i], now) then Err(400, "OTP expired")
              else if st.otps[i].code != FixedCode then Err(400, "Invalid OTP code")
              else if phone in st.otherPhones then Err(409, "Phone number already taken")
              else Ok(Verified(st.(otps := Consume(st.otps, i)), phone))
  }

  /** Every row `SendPhoneOtp` writes carries the fixed code. */
  predicate FixedCodes(st: PhoneState) {
    forall k :: 0 <= k < |st.otps| ==> st.otps[k].code == FixedCode
  }

  /** The OTP table only ever holds the fixed code. */
  lemma SendKeepsFixedCodes(st: PhoneState, data: map<string, Json>, now: int)
    requires FixedCodes(st)
    requires SendPhoneOtp(st, data, now).Ok?
    ensures FixedCodes(SendPhoneOtp(st, data, now).value)
  {
  }

  /** What is sent as the code matters only through its length: two requests
      that differ only in a six-character code get the same answer. */
  lemma AnySixCharCodeVerifies(st: PhoneState, data: map<string, Json>, c1: string, c2: string, now: int)
    requires |c1| == Otp.CodeLength && |c2| == Otp.CodeLength
    ensures VerifyPhoneOtp(st, data["code" := JStr(c1)], now) == VerifyPhoneOtp(st, data["code" := JStr(c2)], now)
  {
    var d1, d2 := data["code" := JStr(c1)], data["code" := JStr(c2)];
    assert Field(d1, "phone_number") == Field(d2, "phone_number");
    assert Field(d1, "code") == JStr(c1) && Field(d2, "code") == JStr(c2);
    assert PyTruthy(JStr(c1)) && PyTruthy(JStr(c2));
    assert PyLen(JStr(c1)) == PyLen(JStr(c2)) == Some(Otp.CodeLength);
    match PyStrOrEmpty(Field(data, "phone_number"))
    case None =>
    case Some(raw) =>
      var phone := Text.Trim(Text.Py, raw);
      if phone != [] {
        match Latest(st.otps, phone)
        case None =>
        case Some(i) =>
      }
  }

  /** A sent code can be verified right away: the OTP just written is the
      pending one the verify step consumes. */
  lemma SendThenVerify(st: PhoneState, data: map<string, Json>, now: int, code: string)
    requires SendPhoneOtp(st, data, now).Ok?
    requires forall k :: 0 <= k < |st.otps| ==> st.otps[k].createdAt <= now
    requires FixedCodes(st)
    requires |code| == Otp.CodeLength
    ensures VerifyPhoneOtp(SendPhoneOtp(st, data, now).value, data["code" := JStr(code)], now).Ok?
  {
    var st2 := SendPhoneOtp(st, data, now).value;
    var d2 := data["code" := JStr(code)];
    var phone := Text.Trim(Text.Py, PyStrOrEmpty(Field(data, "phone_number")).value);
    assert Field(d2, "phone_number") == Field(data, "phone_number");
    var last := |st2.otps| - 1;
    assert Pending(st2.otps[last], phone);
    var i := Latest(st2.otps, phone).value;
    assert st2.otps[i].createdAt == now;
    assert Fresh(st2.otps[i], now) by {
      assert now - st2.otps[i].createdAt == 0;
    }
    assert st2.otps[i].code == FixedCode by {
      if i < last {
        assert st2.otps[i] == st.otps[i];
      }
    }
  }

  // ---------------------------------------------------------------------
  // Username claim

  datatype ReservedType = Blocked | System | Restricted

  /** A `UsernameRegistry` row. */
  datatype RegistryRow = RegistryRow(username: string, lower: string, userId: string, isActive: bool)

  /** The claiming user as the view reads it. */
  datatype Claimant = Claimant(id: string, isVerified: bool, role: string, username: string)

  /** At most one active row per user and per lower-cased name. */
  predicate RegistryUnique(reg: seq<RegistryRow>) {
    forall i, j :: 0 <= i < j < |reg| && reg[i].isActive && reg[j].isActive ==>
      reg[i].userId != reg[j].userId && reg[i].lower != reg[j].lower
  }

  function Deactivate(reg: seq<RegistryRow>, userId: string): (r: seq<RegistryRow>)
    ensures |r| == |reg|
    ensures forall k :: 0 <= k < |reg| ==>
              r[k] == (if reg[k].userId == userId then reg[k].(isActive := false) else reg[k])
  {
    if reg == [] then [] else
      [if reg[0].userId == userId then reg[0].(isActive := false) else reg[0]] + Deactivate(reg[1..], userId)
  }

  datatype Claimed = Claimed(registry: seq<RegistryRow>, user: Claimant)

  /** `UsernameClaimView.post`. `username` is the already normalised name and
      `formatError` what `validate_username_format` says of it. */
  function Claim(reg: seq<RegistryRow>, reserved: map<string, ReservedType>, u: Claimant, username: string,
                 entityType: Json, entityId: Json, formatError: Option<string>): (r: Outcome<Claimed>)
    ensures entityType != JStr("USER") ==> r.Err? && r.status == 400
    ensures entityType == JStr("USER") && entityId != JStr(u.id) ==> r.Err? && r.status == 403
    ensures (entityType == JStr("USER") && entityId == JStr(u.id) && u.id != "" && formatError.None?
             && Text.Lower(username) in reserved && reserved[Text.Lower(username)] in {Blocked, System})
            ==> r.Err? && r.status == 403
    ensures r.Ok? ==>
              var lower := Text.Lower(username);
              && formatError.None? && entityId == JStr(u.id)
              && (lower in reserved ==> reserved[lower] == Restricted
                                        && (u.isVerified || u.role in {"HQ_ADMIN", "LAW_ENFORCEMENT"}))
              && (forall k :: 0 <= k < |reg| ==> !(reg[k].isActive && reg[k].lower == lower))
              && r.value.registry == Deactivate(reg, u.id) + [RegistryRow(username, lower, u.id, true)]
              && r.value.user == u.(username := username)
    ensures r.Err? && r.status == 409 ==> exists k :: 0 <= k < |reg| && reg[k].isActive && reg[k].lower == Text.Lower(username)
  {
    if entityType != JStr("USER") then Err(400, "Only USER usernames can be claimed here.")
    else if !PyTruthy(entityId) || entityId != JStr(u.id) then Err(403, "Invalid entity id")
    else if formatError.Some? then Err(400, formatError.value)
    else
      var lower := Text.Lower(username);
      if lower in reserved && reserved[lower] == Blocked then Err(403, "This username is blocked.")
      else if lower in reserved && reserved[lower] == System then Err(403, "This username is reserved for the system.")
      else if lower in reserved && reserved[lower] == Restricted && !u.isVerified
              && u.role !in {"HQ_ADMIN", "LAW_ENFORCEMENT"} then
        Err(403, "This username requires verification/admin approval.")
      else if exists k :: 0 <= k < |reg| && reg[k].isActive && reg[k].lower == lower then
        Err(409, "Username already taken")
      else Ok(Claimed(Deactivate(reg, u.id) + [RegistryRow(username, lower, u.id, true)], u.(username := username)))
  }

  /** A claim keeps at most one active row per user and per name, and the
      claimant's one active row is the new name. */
  lemma ClaimKeepsRegistryUnique(reg: seq<RegistryRow>, reserved: map<string, ReservedType>, u: Claimant,
                                 username: string, entityType: Json, entityId: Json, formatError: Option<string>)
    requires RegistryUnique(reg)
    requires Claim(reg, reserved, u, username, entityType, entityId, formatError).Ok?
    ensures var reg2 := Claim(reg, reserved, u, username, entityType, entityId, formatError).value.registry;
      && RegistryUnique(reg2)
      && forall k :: 0 <= k < |reg2| && reg2[k].isActive && reg2[k].userId == u.id ==>
           k == |reg2| - 1 && reg2[k].username == username
  {
    var reg2 := Claim(reg, reserved, u, username, entityType, entityId, formatError).value.registry;
    var d := Deactivate(reg, u.id);
    var n := |reg|;
    forall i, j | 0 <= i < j < |reg2| && reg2[i].isActive && reg2[j].isActive
      ensures reg2[i].userId != reg2[j].userId && reg2[i].lower != reg2[j].lower
    {
      assert reg2[i] == d[i];
      if j < n {
        assert reg2[j] == d[j];
      }
    }
  }

  // ---------------------------------------------------------------------
  // Quiet hours

  /** `TIME_RE = ^([01]\d|2[0-3]):([0-5]\d)$` on the stripped text. */
  predicate IsClock(s: string) {
    && |s| == 5 && s[2] == ':'
    && Text.IsDigit(s[0]) && Text.IsDigit(s[1]) && Text.IsDigit(s[3]) && Text.IsDigit(s[4])
    && (s[0] == '0' || s[0] == '1' || (s[0] == '2' && s[1] <= '3'))
    && s[3] <= '5'
  }

  /** A quiet-hours field in a request: left out, `null`, or a text. */
  datatype Supplied = Absent | Null | Given(text: string)

  /** The clock of a valid `HH:MM` text, in minutes since midnight. */
  function Minutes(s: string): (m: nat)
    requires IsClock(s)
    ensures m < 24 * 60
  {
    var h := Text.DigitValue(s[0]) * 10 + Text.DigitValue(s[1]);
    var mi := Text.DigitValue(s[3]) * 10 + Text.DigitValue(s[4]);
    assert h < 24 && mi < 60;
    h * 60 + mi
  }

  /** The CharField value after DRF strips it. */
  function Cleaned(v: Supplied): Supplied {
    if v.Given? then Given(Text.Trim(Text.Py, v.text)) else v
  }

  predicate ClockOk(v: Supplied) {
    !(v.Given? && v.text != "" && !IsClock(v.text))
  }

  /** The stored value after the view: blank and null both clear the field. */
  function Stored(current: Option<string>, v: Supplied): Option<string> {
    match v
    case Absent => current
    case Null => None
    case Given(t) => if t == "" then None else Some(t)
  }

  datatype QuietHours = QuietHours(start: Option<string>, end: Option<string>)

  /** One quiet-hours field after the patch: kept when absent, cleared by
      null or blank, otherwise the supplied (stripped) text. */
  predicate FieldPatched(current: Option<string>, v: Supplied, after: Option<string>) {
    && (v.Absent? ==> after == current)
    && (v.Null? ==> after.None?)
    && (v.Given? && v.text == "" ==> after.None?)
    && (v.Given? && v.text != "" ==> after == Some(v.text))
  }

  /** `ProfileSettingsView.patch` restricted to the quiet-hours fields. */
  function PatchQuietHours(q: QuietHours, start: Supplied, end: Supplied): (r: Outcome<QuietHours>)
    ensures r.Err? ==> r.status == 400
    ensures r.Ok? ==> FieldPatched(q.start, Cleaned(start), r.value.start)
                      && FieldPatched(q.end, Cleaned(end), r.value.end)
    ensures r.Ok? ==> (r.value.start.Some? ==> IsClock(r.value.start.value) || r.value.start == q.start)
                      && (r.value.end.Some? ==> IsClock(r.value.end.value) || r.value.end == q.end)
    ensures r.Err? <==> !ClockOk(Cleaned(start)) || !ClockOk(Cleaned(end))
  {
    var s, e := Cleaned(start), Cleaned(end);
    if !ClockOk(s) then Err(400, "quiet_hours_start: Invalid time format. Use HH:MM")
    else if !ClockOk(e) then Err(400, "quiet_hours_end: Invalid time format. Use HH:MM")
    else Ok(QuietHours(Stored(q.start, s), Stored(q.end, e)))
  }

  // ---------------------------------------------------------------------
  // Emergency contacts

  const MaxContacts: nat := 10
  const MaxContactName: nat := 255
  const MaxContactPhone: nat := 30

  datatype Contact = Contact(owner: string, name: string, phone: string,
                             relationship: Option<string>, priority: Option<int>)

  const Relationships: set<string> := {"FAMILY", "FRIEND", "NEIGHBOR", "COLLEAGUE", "OTHER"}

  function CountOf(contacts: seq<Contact>, owner: string): (n: nat)
    ensures n <= |contacts|
  {
    if contacts == [] then 0
    else (if contacts[0].owner == owner then 1 else 0) + CountOf(contacts[1..], owner)
  }

  /** The optional `relationship` ChoiceField: absent or null is `None`, one
      of the five choices is itself, anything else is invalid (400). */
  function ReadRelationship(v: Option<Json>): (r: Outcome<Option<string>>)
    ensures r.Ok? <==> v.None? || v == Some(JNull) || (v.value.JStr? && v.value.s in Relationships)
    ensures r.Ok? && r.value.Some? ==> r.value.value in Relationships && v == Some(JStr(r.value.value))
    ensures r.Ok? && r.value.None? ==> v.None? || v == Some(JNull)
  {
    match v
    case None => Ok(None)
    case Some(JNull) => Ok(None)
    case Some(JStr(s)) => if s in Relationships then Ok(Some(s)) else Err(400, "relationship")
    case Some(_) => Err(400, "relationship")
  }

  /** `text` with the run of zeros after a final `.` removed together with
      the `.`: DRF's `re.sub(r"\.0*\s*$", "", ...)` once trailing white space
      is dropped, which `int()` ignores anyway. */
  function DropZeroFraction(t: string): (r: string)
    ensures |r| <= |t| && r == t[..|r|]
    decreases |t|
  {
    if t != [] && t[|t| - 1] == '0' then
      var u := DropZeroFraction(t[..|t| - 1]);
      if |u| < |t| - 1 then u else t
    else if t != [] && t[|t| - 1] == '.' then t[..|t| - 1]
    else t
  }

  /** Python `int(text)` for ASCII digits: optional white space around an
      optionally signed run of digits. */
  function PyIntOfText(text: string): (r: Option<int>)
    ensures r.Some? ==> Text.Trim(Text.Py, text) != ""
  {
    var t := Text.Trim(Text.Py, text);
    if t != "" && Text.AllDigitsIn(10, t) then Some(Text.ReadDigits(10, t))
    else if |t| >= 2 && (t[0] == '-' || t[0] == '+') && Text.AllDigitsIn(10, t[1..]) then
      var m: int := Text.ReadDigits(10, t[1..]);
      Some(if t[0] == '-' then -m else m)
    else None
  }

  /** The optional `priority` IntegerField: absent or null is `None`, a
      number is itself, text of at most 1000 characters is read by `int()`
      after the zero fraction is dropped, anything else is invalid. */
  function ReadPriority(v: Option<Json>): (r: Outcome<Option<int>>)
    ensures v.None? || v == Some(JNull) ==> r == Ok(None)
    ensures v.Some? && v.value.JNum? ==> r == Ok(Some(v.value.n))
    ensures v.Some? && (v.value.JArr? || v.value.JObj?) ==> r.Err?
    ensures v.Some? && v.value.JStr? && |v.value.s| > 1000 ==> r.Err?
    ensures v.Some? && v.value.JBool? ==> r.Err?
    ensures v.Some? && v.value.JStr? && r.Ok? ==> r.value.Some?
  {
    match v
    case None => Ok(None)
    case Some(JNull) => Ok(None)
    case Some(JNum(n)) => Ok(Some(n))
    case Some(JStr(s)) =>
      if |s| > 1000 then Err(400, "priority")
      else
        var d := DropZeroFraction(Text.TrimEnd(Text.Py, s));
        (match PyIntOfText(d)
         case Some(n) => Ok(Some(n))
         case None => Err(400, "priority"))
    case Some(_) => Err(400, "priority")
  }

  /** The validators a `CharField` runs on its stripped text: not blank, at
      most `max` characters, and no NUL character. */
  predicate CharFieldOk(text: string, max: nat) {
    text != [] && |text| <= max && '\0' !in text
  }

  /** `ProfileEmergencyContactsCreateView.post`: the serializer's checks
      (name and phone stripped, non-blank, at most 255 and 30 characters,
      free of NUL; a valid relationship and priority), then the ten-contact
      limit. */
  function AddContact(contacts: seq<Contact>, owner: string, name: string, phone: string,
                      relationship: Option<Json>, priority: Option<Json>): (r: Outcome<seq<Contact>>)
    ensures r.Ok? <==> CharFieldOk(Text.Trim(Text.Py, name), MaxContactName)
                       && CharFieldOk(Text.Trim(Text.Py, phone), MaxContactPhone)
                       && ReadRelationship(relationship).Ok? && ReadPriority(priority).Ok?
                       && CountOf(contacts, owner) < MaxContacts
    ensures r.Err? ==> r.status == 400
    ensures r.Ok? ==> r.value == contacts + [Contact(owner, Text.Trim(Text.Py, name), Text.Trim(Text.Py, phone),
                                                     ReadRelationship(relationship).value, ReadPriority(priority).value)]
  {
    var n, p := Text.Trim(Text.Py, name), Text.Trim(Text.Py, phone);
    if !CharFieldOk(n, MaxContactName) then Err(400, "name")
    else if !CharFieldOk(p, MaxContactPhone) then Err(400, "phone")
    else if ReadRelationship(relationship).Err? then Err(400, "relationship")
    else if ReadPriority(priority).Err? then Err(400, "priority")
    else if CountOf(contacts, owner) >= MaxContacts then Err(400, "You can only add up to 10 emergency contacts")
    else Ok(contacts + [Contact(owner, n, p, ReadRelationship(relationship).value, ReadPriority(priority).value)])
  }

  /** A zero fraction after the last digit is dropped; any other fraction
      leaves text that `int()` refuses. */
  lemma {:induction false} ZeroFractionDropped(t: string, k: nat)
    requires t != [] && Text.IsDigit(t[|t| - 1])
    ensures DropZeroFraction(t + "." + seq(k, _ => '0')) == t
    decreases k
  {
    var z := seq(k, _ => '0');
    if k > 0 {
      var z1 := seq(k - 1, _ => '0');
      assert (t + "." + z)[..|t| + k] == t + "." + z1;
      ZeroFractionDropped(t, k - 1);
    } else {
      assert t + "." + z == t + ".";
      assert (t + ".")[..|t|] == t;
    }
  }

  lemma {:induction false} CountAppend(contacts: seq<Contact>, c: Contact, owner: string)
    ensures CountOf(contacts + [c], owner) == CountOf(contacts, owner) + (if c.owner == owner then 1 else 0)
  {
    if contacts != [] {
      assert (contacts + [c])[1..] == contacts[1..] + [c];
      CountAppend(contacts[1..], c, owner);
    }
  }

  /** Starting from at most ten, a user never holds more than ten contacts. */
  lemma ContactsCapped(contacts: seq<Contact>, owner: string, name: string, phone: string,
                       relationship: Option<Json>, priority: Option<Json>)
    requires CountOf(contacts, owner) <= MaxContacts
    requires AddContact(contacts, owner, name, phone, relationship, priority).Ok?
    ensures CountOf(AddContact(contacts, owner, name, phone, relationship, priority).value, owner) <= MaxContacts
  {
    CountAppend(contacts, AddContact(contacts, owner, name, phone, relationship, priority).value[|contacts|], owner);
    assert AddContact(contacts, owner, name, phone, relationship, priority).value
        == contacts + [AddContact(contacts, owner, name, phone, relationship, priority).value[|contacts|]];
  }
}
