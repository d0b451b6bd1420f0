/** The registration page's client-side rules: the field validators, the
    document picker and the checks `submit` makes before posting. The
    notifications are returned as their text; the network request is
    represented by the form it would carry. */
module Register {

  import opened Wrappers
  import Text

  /* ---------------- Field state ---------------- */

  datatype FieldState = Idle | Valid | Invalid

  /** `fieldState(condition, touched)`. */
  function FieldStateOf(condition: bool, touched: bool): (r: FieldState)
    ensures r == Idle <==> !touched
    ensures r == Valid <==> touched && condition
    ensures r == Invalid <==> touched && !condition
  {
    if !touched then Idle else if condition then Valid else Invalid
  }

  /* ---------------- Email ---------------- */

  /** `[^\s@]`. */
  predicate Plain(c: char) {
    !Text.IsJsSpace(c) && c != '@'
  }

  /** `[^\s@]+`. */
  predicate PlainRun(s: string) {
    |s| > 0 && forall k :: 0 <= k < |s| ==> Plain(s[k])
  }

  /** What `/^[^\s@]+@[^\s@]+\.[^\s@]+$/` matches: three plain runs joined by
      an '@' and a '.'. */
  predicate EmailPattern(s: string) {
    exists i, j :: 0 <= i < j < |s| && s[i] == '@' && s[j] == '.'
                   && PlainRun(s[..i]) && PlainRun(s[i + 1..j]) && PlainRun(s[j + 1..])
  }

  /** The index of the first `c` in `s`, or -1. */
  function Find(s: string, c: char): (i: int)
    ensures -1 <= i < |s|
    ensures i >= 0 ==> s[i] == c
    ensures forall k :: 0 <= k < |s| && (i < 0 || k < i) ==> s[k] != c
  {
    if s == [] then -1
    else if s[0] == c then 0
    else var i := Find(s[1..], c); if i < 0 then -1 else i + 1
  }

  /** The scan `isValidEmail` amounts to: no whitespace, a single '@' that
      is not first, and a '.' after it with something on either side. */
  predicate EmailScan(s: string) {
    var at := Find(s, '@');
    && at > 0
    && (forall k :: 0 <= k < |s| ==> !Text.IsJsSpace(s[k]) && (s[k] == '@' ==> k == at))
    && (exists j :: at + 1 < j < |s| - 1 && s[j] == '.')
  }

  lemma EmailScanMatches(s: string)
    ensures EmailScan(s) <==> EmailPattern(s)
  {
    if EmailScan(s) { ScanIsPattern(s); }
    if EmailPattern(s) { PatternIsScan(s); }
  }

  lemma ScanIsPattern(s: string)
    requires EmailScan(s)
    ensures EmailPattern(s)
  {
    var at := Find(s, '@');
    var j :| at + 1 < j < |s| - 1 && s[j] == '.';
    assert PlainRun(s[..at]);
    assert PlainRun(s[at + 1..j]);
    assert PlainRun(s[j + 1..]);
  }

  lemma PatternIsScan(s: string)
    requires EmailPattern(s)
    ensures EmailScan(s)
  {
    var i, j :| 0 <= i < j < |s| && s[i] == '@' && s[j] == '.'
                && PlainRun(s[..i]) && PlainRun(s[i + 1..j]) && PlainRun(s[j + 1..]);
    var a, b, c := s[..i], s[i + 1..j], s[j + 1..];
    forall k | 0 <= k < |s|
      ensures !Text.IsJsSpace(s[k]) && (s[k] == '@' ==> k == i)
    {
      if k < i { assert s[k] == a[k]; }
      else if i < k < j { assert s[k] == b[k - i - 1]; }
      else if j < k { assert s[k] == c[k - j - 1]; }
    }
    assert s[0] == a[0];
    var at := Find(s, '@');
    assert at == i;
    assert at + 1 < j < |s| - 1;
  }

  /** `isValidEmail(email)`. */
  function IsValidEmail(s: string): (ok: bool)
    ensures ok <==> EmailPattern(s)
  {
    EmailScanMatches(s);
    EmailScan(s)
  }

  /* ---------------- Password ---------------- */

  /** The characters `.` does not match. */
  predicate LineTerminator(c: char) {
    c == '\n' || c == '\r' || c == '\U{2028}' || c == '\U{2029}'
  }

  datatype CharClass = Lower | Upper | Digit | Symbol

  /** `[a-z]`, `[A-Z]`, `\d` and `[\W_]`. */
  predicate InClass(c: char, cls: CharClass) {
    match cls
    case Lower => Text.IsAsciiLower(c)
    case Upper => Text.IsAsciiUpper(c)
    case Digit => Text.IsDigit(c)
    case Symbol => !(Text.IsAsciiLetter(c) || Text.IsDigit(c))
  }

  /** `(?=.*[cls])` at the start: a character of the class occurs before any
      line terminator. */
  predicate Ahead(s: string, cls: CharClass) {
    exists k :: 0 <= k < |s| && InClass(s[k], cls) && forall m :: 0 <= m < k ==> !LineTerminator(s[m])
  }

  /** `isStrongPassword(password)`: the four lookaheads, then `.{8,}$`. */
  predicate IsStrongPassword(s: string)
    ensures IsStrongPassword(s) ==> |s| >= 8 && Has(s, Lower) && Has(s, Upper) && Has(s, Digit) && Has(s, Symbol)
  {
    && Ahead(s, Lower) && Ahead(s, Upper) && Ahead(s, Digit) && Ahead(s, Symbol)
    && |s| >= 8 && forall k :: 0 <= k < |s| ==> !LineTerminator(s[k])
  }

  /** `/[cls]/.test(s)`: the class occurs anywhere. */
  predicate Has(s: string, cls: CharClass) {
    exists k :: 0 <= k < |s| && InClass(s[k], cls)
  }

  datatype Hints = Hints(length: bool, upper: bool, lower: bool, number: bool, symbol: bool)

  /** The checklist shown under the password field. */
  function HintsOf(s: string): (h: Hints)
    ensures h.length <==> |s| >= 8
    ensures h.upper <==> Has(s, Upper)
  {
    Hints(|s| >= 8, Has(s, Upper), Has(s, Lower), Has(s, Digit), Has(s, Symbol))
  }

  /** The submit check agrees with the checklist, except that a password
      with a line break is refused however many hints it ticks. */
  lemma StrongIffHints(s: string)
    ensures IsStrongPassword(s) <==>
              (var h := HintsOf(s);
               h.length && h.upper && h.lower && h.number && h.symbol
               && forall k :: 0 <= k < |s| ==> !LineTerminator(s[k]))
  {
    if forall k :: 0 <= k < |s| ==> !LineTerminator(s[k]) {
      forall cls | Has(s, cls) ensures Ahead(s, cls) {
        var k :| 0 <= k < |s| && InClass(s[k], cls);
        assert forall m :: 0 <= m < k ==> !LineTerminator(s[m]);
      }
    }
  }

  /* ---------------- Full name ---------------- */

  /** `[a-zA-Z\s'-]`. */
  predicate NameChar(c: char) {
    Text.IsAsciiLetter(c) || Text.IsJsSpace(c) || c == '\'' || c == '-'
  }

  /** The number of maximal whitespace runs in `t`. */
  function Runs(t: string): nat {
    if t == [] then 0
    else (if Text.IsJsSpace(t[0]) && (|t| == 1 || !Text.IsJsSpace(t[1])) then 1 else 0) + Runs(t[1..])
  }

  lemma {:induction false} RunsMeansSpace(t: string)
    ensures Runs(t) > 0 <==> exists k :: 0 <= k < |t| && Text.IsJsSpace(t[k])
  {
    if t != [] {
      RunsMeansSpace(t[1..]);
      if exists k :: 0 <= k < |t| && Text.IsJsSpace(t[k]) {
        var k :| 0 <= k < |t| && Text.IsJsSpace(t[k]);
        if k > 0 { assert t[1..][k - 1] == t[k]; }
      }
      if exists k :: 0 <= k < |t[1..]| && Text.IsJsSpace(t[1..][k]) {
        var k :| 0 <= k < |t[1..]| && Text.IsJsSpace(t[1..][k]);
        assert t[k + 1] == t[1..][k];
      }
    }
  }

  /** `name.trim().split(/\s+/).length` for a non-blank name: one more part
      than there are whitespace runs inside it. */
  function PartCount(name: string): nat
    requires Text.Trim(Text.Js, name) != ""
  {
    1 + Runs(Text.Trim(Text.Js, name))
  }

  /** `isValidFullName(name)`. */
  function IsValidFullName(name: string): (ok: bool)
    ensures ok <==>
              var t := Text.Trim(Text.Js, name);
              && t != ""
              && (exists k :: 0 <= k < |t| && Text.IsJsSpace(t[k]))
              && |name| >= 3 && forall k :: 0 <= k < |name| ==> NameChar(name[k])
  {
    var t := Text.Trim(Text.Js, name);
    if t == "" then false
    else
      RunsMeansSpace(t);
      if PartCount(name) < 2 then false
      else |name| >= 3 && forall k :: 0 <= k < |name| ==> NameChar(name[k])
  }

  /* ---------------- Documents ---------------- */

  datatype File = File(name: string, mime: string, size: int)

  const AllowedTypes: seq<string> := ["image/jpeg", "image/png", "application/pdf"]
  const MaxFileSize: int := 2 * 1024 * 1024
  const MaxFiles: nat := 3

  /** The notification a rejected file raises, in the order the checks run. */
  function Rejection(f: File): (r: Option<string>)
    ensures r.None? <==> f.mime in AllowedTypes && f.size <= MaxFileSize
  {
    if f.mime !in AllowedTypes then Some(f.name + ": Unsupported file type")
    else if f.size > MaxFileSize then Some(f.name + " exceeds 2MB")
    else None
  }

  predicate Acceptable(f: File) {
    Rejection(f).None?
  }

  /** The files that pass, in order, and the notices for the rest. */
  function Sift(files: seq<File>): (r: (seq<File>, seq<string>))
    ensures |r.0| + |r.1| == |files|
    ensures forall f :: f in r.0 <==> f in files && Acceptable(f)
  {
    if files == [] then ([], [])
    else
      var rest := Sift(files[1..]);
      match Rejection(files[0])
      case None => ([files[0]] + rest.0, rest.1)
      case Some(msg) => (rest.0, [msg] + rest.1)
  }

  /** `handleFiles(files)`: the documents afterwards and the notices raised. */
  function HandleFiles(existing: seq<File>, files: Option<seq<File>>): (r: (seq<File>, seq<string>))
    ensures files.None? ==> r == (existing, [])
    ensures files.Some? ==> r.1 == Sift(files.value).1
    ensures r.0 != existing ==> |r.0| <= MaxFiles
    ensures r.0 != existing ==> existing[..if |existing| < MaxFiles then |existing| else MaxFiles] <= r.0
    ensures forall f :: f in r.0 ==> f in existing || (files.Some? && f in files.value && Acceptable(f))
    ensures files.Some? && Sift(files.value).0 == [] ==> r.0 == existing
    ensures files.Some? && |existing| + |Sift(files.value).0| <= MaxFiles ==> r.0 == existing + Sift(files.value).0
    ensures files.Some? && Sift(files.value).0 != [] && |existing| < MaxFiles ==> |r.0| > |existing|
    ensures files.Some? && Sift(files.value).0 != [] ==>
              r.0 <= existing + Sift(files.value).0
              && |r.0| == if |existing| + |Sift(files.value).0| < MaxFiles then |existing| + |Sift(files.value).0| else MaxFiles
  {
    if files.None? then (existing, [])
    else
      var sifted := Sift(files.value);
      if sifted.0 == [] then (existing, sifted.1)
      else
        var merged := existing + sifted.0;
        var kept := merged[..if |merged| < MaxFiles then |merged| else MaxFiles];
        assert forall f :: f in kept ==> f in merged;
        (kept, sifted.1)
  }

  /** Only acceptable files ever reach the list. */
  lemma DocumentsStayAcceptable(existing: seq<File>, files: Option<seq<File>>)
    requires forall f :: f in existing ==> Acceptable(f)
    ensures forall f :: f in HandleFiles(existing, files).0 ==> Acceptable(f)
  {
  }

  /** The index `splice(index, 1)` starts at. */
  function SpliceStart(len: nat, index: int): (s: nat)
    ensures s <= len
    ensures 0 <= index <= len ==> s == index
  {
    if index < 0 then (if len + index < 0 then 0 else len + index)
    else if index < len then index else len
  }

  /** `removeFile(index)`. */
  function RemoveFile(docs: seq<File>, index: int): (r: seq<File>)
    ensures 0 <= index < |docs| ==>
              |r| == |docs| - 1
              && (forall k :: 0 <= k < index ==> r[k] == docs[k])
              && (forall k :: index <= k < |r| ==> r[k] == docs[k + 1])
    ensures index >= |docs| ==> r == docs
    ensures index < 0 && docs != [] ==> |r| == |docs| - 1
  {
    var s := SpliceStart(|docs|, index);
    if s < |docs| then docs[..s] + docs[s + 1..] else docs
  }

  /** Removing takes out one copy of the document at the index and nothing
      else. */
  lemma RemoveFileTakesOne(docs: seq<File>, index: int)
    requires 0 <= index < |docs|
    ensures multiset(RemoveFile(docs, index)) + multiset{docs[index]} == multiset(docs)
  {
    assert docs == docs[..index] + [docs[index]] + docs[index + 1..];
  }

  /* ---------------- Submit ---------------- */

  datatype Role = User | Org

  datatype OtpStatus = NotSent | CodeSent | Verified

  /** A coordinate as `Number(..)` leaves it: unset, `NaN` or a number. */
  datatype Num = Unset | NaN | Val(v: real)

  predicate Truthy(n: Num) {
    n.Val? && n.v != 0.0
  }

  datatype Form = Form(
    fullName: string, email: string, phone: Option<string>, otp: string, password: string,
    orgName: string, orgType: string, orgTypeOther: string,
    address: string, lat: Num, lng: Num,
    documents: seq<File>)

  datatype Submission = Refused(title: string, message: string) | Posted(role: Role, form: Form)

  /** The checks before the address check, in order. */
  function Prechecks(otpStatus: OtpStatus, form: Form): (r: Option<Submission>)
    ensures r.Some? ==> r.value.Refused?
    ensures r.None? <==> otpStatus == Verified && IsValidFullName(form.fullName) && IsStrongPassword(form.password)
  {
    if otpStatus != Verified then
      Some(Refused("Verification required", "Please verify your email before submitting"))
    else if !IsValidFullName(form.fullName) then
      Some(Refused("Invalid name", "Please enter your full name (first & last name)"))
    else if !IsStrongPassword(form.password) then
      Some(Refused("Weak password",
        "Password must be at least 8 characters and include uppercase, lowercase, number, and symbol"))
    else None
  }

  const AddressRequired: Submission :=
    Refused("Organization address required", "Please search and select a valid address from the list")

  /** `submit` as written: the coordinates are checked for truthiness, so a
      latitude or longitude of exactly 0 counts as missing. */
  function SubmitAsWritten(role: Role, otpStatus: OtpStatus, form: Form): (r: Submission)
    ensures r.Posted? <==>
              && Prechecks(otpStatus, form).None?
              && (role == Org ==> Text.Trim(Text.Js, form.address) != "" && Truthy(form.lat) && Truthy(form.lng))
  {
    match Prechecks(otpStatus, form)
    case Some(refused) => refused
    case None =>
      if role == Org && (Text.Trim(Text.Js, form.address) == "" || !Truthy(form.lat) || !Truthy(form.lng))
      then AddressRequired
      else Posted(role, form)
  }

  /** `submit` with the address check asking for picked coordinates: a
      number, zero included. */
  function Submit(role: Role, otpStatus: OtpStatus, form: Form): (r: Submission)
    ensures r.Posted? ==> r == Posted(role, form)
    ensures r.Posted? <==>
              && otpStatus == Verified && IsValidFullName(form.fullName) && IsStrongPassword(form.password)
              && (role == Org ==> Text.Trim(Text.Js, form.address) != "" && form.lat.Val? && form.lng.Val?)
  {
    match Prechecks(otpStatus, form)
    case Some(refused) => refused
    case None =>
      if role == Org && (Text.Trim(Text.Js, form.address) == "" || !form.lat.Val? || !form.lng.Val?)
      then AddressRequired
      else Posted(role, form)
  }

  /** An organisation on the equator or the prime meridian is refused as
      written, though its address was picked; the corrected check posts it. */
  lemma ZeroCoordinateRefused(form: Form, lng: real)
    requires IsValidFullName(form.fullName) && IsStrongPassword(form.password)
    requires Text.Trim(Text.Js, form.address) != ""
    ensures SubmitAsWritten(Org, Verified, form.(lat := Val(0.0), lng := Val(lng))) == AddressRequired
    ensures Submit(Org, Verified, form.(lat := Val(0.0), lng := Val(lng))).Posted?
  {
  }

  /** The two agree everywhere else: on members, and on organisations whose
      coordinates are both non-zero or not numbers. */
  lemma SubmitAgreesOffZero(role: Role, otpStatus: OtpStatus, form: Form)
    requires role == Org ==> form.lat != Val(0.0) && form.lng != Val(0.0)
    ensures SubmitAsWritten(role, otpStatus, form) == Submit(role, otpStatus, form)
  {
  }
}
