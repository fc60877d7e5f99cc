/** The backend's business rules as standalone predicates (tests/rules.js)
    and the request-field check of utils/validate.js. */
module Rules {
  import opened Common
  import opened UserModel
  import opened RideModel
  import RideRoutes

  // ---------------------------------------------------------------------
  // isCollegeEmail: /^[^\s@]+@[^\s@]+\.(edu|ac\.in)$/i

  /** `[^\s@]+`: one or more characters, none whitespace and none "@". */
  predicate CleanPart(x: string) {
    x != [] && forall i :: 0 <= i < |x| ==> !IsSpace(x[i]) && x[i] != '@'
  }

  /** `s` ends with the lower-case `suffix`, ignoring ASCII case. */
  predicate EndsWithIgnoringCase(s: string, suffix: string) {
    |s| >= |suffix| && ToLower(s[|s| - |suffix|..]) == suffix
  }

  /** What follows the "@": `[^\s@]+\.(edu|ac\.in)`. */
  predicate CollegeDomain(d: string) {
    (EndsWithIgnoringCase(d, ".edu") && CleanPart(d[..|d| - 4]))
    || (EndsWithIgnoringCase(d, ".ac.in") && CleanPart(d[..|d| - 6]))
  }

  /** The whole pattern, read as: some "@" splits the text into a clean
      local part and a college domain. */
  ghost predicate MatchesCollegePattern(s: string) {
    exists k :: 0 <= k < |s| && s[k] == '@' && CleanPart(s[..k]) && CollegeDomain(s[k + 1..])
  }

  /** `isCollegeEmail(email)`: a falsy or non-string value is refused; a
      string is split at its first "@". */
  function IsCollegeEmail(email: JsValue): (r: bool)
    ensures r <==> email.JsString? && MatchesCollegePattern(email.s)
  {
    match email
    case JsString(s) =>
      FirstAtSplits(s);
      if s == [] then false
      else (match IndexOf(s, "@")
        case None => false
        case Some(k) => CleanPart(s[..k]) && CollegeDomain(s[k + 1..]))
    case _ => false
  }

  /** The local part holds no "@", so the only split that can succeed is at
      the first "@", and without an "@" nothing matches. */
  lemma FirstAtSplits(s: string)
    ensures IndexOf(s, "@").None? ==> !MatchesCollegePattern(s)
    ensures IndexOf(s, "@").Some? ==>
              var k := IndexOf(s, "@").value;
              MatchesCollegePattern(s) <==> CleanPart(s[..k]) && CollegeDomain(s[k + 1..])
  {
    if MatchesCollegePattern(s) {
      MatchIsAtFirst(s);
    }
    if IndexOf(s, "@").Some? {
      FirstSplitMatches(s, IndexOf(s, "@").value);
    }
  }

  /** A match splits at the first "@". */
  lemma MatchIsAtFirst(s: string)
    requires MatchesCollegePattern(s)
    ensures IndexOf(s, "@").Some?
    ensures CleanPart(s[..IndexOf(s, "@").value]) && CollegeDomain(s[IndexOf(s, "@").value + 1..])
  {
    var m :| 0 <= m < |s| && s[m] == '@' && CleanPart(s[..m]) && CollegeDomain(s[m + 1..]);
    OnlySplitIsFirst(s, m);
  }

  /** A clean split at an "@" is a match. */
  lemma FirstSplitMatches(s: string, k: nat)
    requires k < |s| && OccursAt(s, "@", k)
    ensures CleanPart(s[..k]) && CollegeDomain(s[k + 1..]) ==> MatchesCollegePattern(s)
  {
    AtOccurs(s, k);
  }

  /** An "@" with a clean local part before it is the first "@". */
  lemma OnlySplitIsFirst(s: string, m: nat)
    requires m < |s| && s[m] == '@' && CleanPart(s[..m])
    ensures IndexOf(s, "@") == Some(m)
  {
    AtOccurs(s, m);
    var i := IndexOf(s, "@");
    assert i.Some?;
    AtOccurs(s, i.value);
  }

  lemma AtOccurs(s: string, k: nat)
    requires k < |s|
    ensures OccursAt(s, "@", k) <==> s[k] == '@'
  {
    assert s[k..k + 1] == [s[k]];
  }

  /** Any clean local part, "@", clean domain and ".edu" or ".ac.in" is accepted. */
  lemma AcceptsCollegeAddress(local: string, domain: string, suffix: string)
    requires CleanPart(local) && CleanPart(domain)
    requires suffix == ".edu" || suffix == ".ac.in"
    ensures IsCollegeEmail(JsString(local + "@" + domain + suffix))
  {
    var s := local + "@" + domain + suffix;
    var k := |local|;
    assert s[..k] == local && s[k] == '@';
    assert s[k + 1..] == domain + suffix;
    SuffixedDomain(domain, suffix);
  }

  lemma SuffixedDomain(domain: string, suffix: string)
    requires CleanPart(domain)
    requires suffix == ".edu" || suffix == ".ac.in"
    ensures CollegeDomain(domain + suffix)
  {
    var d := domain + suffix;
    assert d[|d| - |suffix|..] == suffix;
    assert d[..|d| - |suffix|] == domain;
    if suffix == ".edu" {
      assert ToLower(".edu") == ".edu";
    } else {
      assert ToLower(".ac.in") == ".ac.in";
    }
  }

  /** A domain not ending in ".edu" or ".ac.in", in any case, is refused. */
  lemma RejectsOtherDomains(s: string)
    requires !EndsWithIgnoringCase(s, ".edu") && !EndsWithIgnoringCase(s, ".ac.in")
    ensures !IsCollegeEmail(JsString(s))
  {
  }

  /** Text without an "@" is refused. */
  lemma RejectsWithoutAt(s: string)
    requires forall i :: 0 <= i < |s| ==> s[i] != '@'
    ensures !IsCollegeEmail(JsString(s))
  {
  }

  /** The rules tests' accepted addresses, one per suffix. */
  lemma EduAddressAccepted()
    ensures IsCollegeEmail(JsString("abc@college.edu"))
  {
    assert CleanPart("abc") && CleanPart("college");
    assert "abc@college.edu" == "abc" + "@" + "college" + ".edu";
    AcceptsCollegeAddress("abc", "college", ".edu");
  }

  lemma AcInAddressAccepted()
    ensures IsCollegeEmail(JsString("abc@iiit.ac.in"))
  {
    assert CleanPart("abc") && CleanPart("iiit");
    assert "abc@iiit.ac.in" == "abc" + "@" + "iiit" + ".ac.in";
    AcceptsCollegeAddress("abc", "iiit", ".ac.in");
  }

  /** The rules tests' refused inputs: another domain ... */
  lemma NonCollegeAddressesRefused()
    ensures !IsCollegeEmail(JsString("abc@gmail.com"))
  {
    var g := "abc@gmail.com";
    assert g[9..] == ".com" && g[7..] == "il.com";
    assert ToLower(".com") != ".edu" by { assert ToLower(".com")[1] == 'c'; }
    assert ToLower("il.com") != ".ac.in" by { assert ToLower("il.com")[0] == 'i'; }
    RejectsOtherDomains(g);
  }

  /** ... and text with no "@" at all, including "". */
  lemma MalformedAddressesRefused()
    ensures !IsCollegeEmail(JsString("not-an-email")) && !IsCollegeEmail(JsString(""))
  {
    RejectsWithoutAt("not-an-email");
  }

  // ---------------------------------------------------------------------
  // isValidOtp: a string or a number whose text is exactly six digits

  predicate SixDigitText(s: string) {
    |s| == 6 && forall i :: 0 <= i < 6 ==> IsDigit(s[i])
  }

  predicate IsValidOtp(otp: JsValue) {
    (otp.JsString? || otp.JsNumber?) && SixDigitText(JsToString(otp))
  }

  /** A number is a valid OTP exactly when it lies in 100000..999999, so a
      code with a leading zero is valid only as a string. */
  lemma NumericOtpRange(n: int)
    ensures IsValidOtp(JsNumber(n)) <==> 100000 <= n <= 999999
  {
    SixDigits(n);
  }

  lemma OtpExamples()
    ensures IsValidOtp(JsString("123456")) && IsValidOtp(JsNumber(654321))
    ensures !IsValidOtp(JsString("12345")) && !IsValidOtp(JsString("abcdef")) && !IsValidOtp(JsNull)
  {
    NumericOtpRange(654321);
    assert !IsDigit("abcdef"[0]);
  }

  // ---------------------------------------------------------------------
  // Small policy predicates

  /** A numeric argument as the destructuring sees it: absent (undefined),
      null, or a number. A default parameter replaces only undefined. */
  datatype NumArg = Undefined | Null | Num(n: int)

  /** The value `<` compares a limit argument as: the default when it is
      undefined, and 0 for null (`Number(null)`). */
  function LimitOr(limit: NumArg, fallback: int): int {
    match limit
    case Undefined => fallback
    case Null => 0
    case Num(m) => m
  }

  /** `canRequestOtp({ attempts, maxAttempts = 5 })`: `attempts == null`
      holds for both null and undefined. */
  predicate CanRequestOtp(attempts: NumArg, maxAttempts: NumArg) {
    !attempts.Num? || attempts.n < LimitOr(maxAttempts, 5)
  }

  /** `canCreateRide` and `canChat`, which apply the same rule: any ban blocks. */
  function NotBanned(isTempBanned: bool, isPermBanned: bool): (r: bool)
    ensures r <==> !isTempBanned && !isPermBanned
  {
    if isPermBanned then false else if isTempBanned then false else true
  }

  /** `canJoinRide`: temporarily banned users may still join. */
  predicate CanJoinRide(isPermBanned: bool) {
    !isPermBanned
  }

  /** `canJoinRideCapacity({ participantsCount, max = 4 })` */
  predicate CanJoinRideCapacity(participantsCount: int, max: NumArg) {
    participantsCount < LimitOr(max, 4)
  }

  /** Leaving a limit out is passing the default; passing null is passing
      0, which refuses every count that is not negative. */
  lemma NullLimitIsZero(count: int)
    ensures CanRequestOtp(Num(count), Undefined) == CanRequestOtp(Num(count), Num(5))
    ensures CanRequestOtp(Num(count), Null) <==> count < 0
    ensures CanJoinRideCapacity(count, Undefined) == CanJoinRideCapacity(count, Num(4))
    ensures CanJoinRideCapacity(count, Null) <==> count < 0
  {
  }

  /** `isCreatorAutoJoined`: a missing participant list counts as false. */
  predicate IsCreatorAutoJoined(creatorId: Id, participants: Option<seq<Id>>) {
    match participants
    case None => false
    case Some(ps) => creatorId in ps
  }

  /** `isRideExpired(travelTime, now)`, with the parsed date as input. */
  predicate IsRideExpired(travelTime: JsDate, now: int) {
    match travelTime
    case InvalidDate => false
    case ValidDate(t) => t <= now
  }

  const PermanentBanStrikes: int := 3

  predicate ShouldPermanentBan(strikes: int) {
    strikes >= PermanentBanStrikes
  }

  /** `canReportUser`: both ids truthy and distinct, both in the ride, and
      no earlier report. */
  function CanReportUser(reporterId: Option<Id>, targetId: Option<Id>,
                         rideParticipants: seq<Id>, alreadyReported: bool): (r: bool)
    ensures r <==> Truthy(reporterId) && Truthy(targetId) && reporterId != targetId
                   && reporterId.value in rideParticipants && targetId.value in rideParticipants
                   && !alreadyReported
  {
    if !Truthy(reporterId) || !Truthy(targetId) then false
    else if reporterId.value == targetId.value then false
    else if reporterId.value !in rideParticipants || targetId.value !in rideParticipants then false
    else !alreadyReported
  }

  // ---------------------------------------------------------------------
  // How the rules relate to each other and to the stored entities

  /** The ban rules agree with the stored user's ban state: a user may
      create rides and chat exactly when not banned. */
  lemma NotBannedMatchesUser(u: User, now: int)
    ensures NotBanned(TemporarilyBanned(u, now), u.isPermanantlyBanned) <==> !Banned(u, now)
    ensures TemporarilyBanned(u, now) && !u.isPermanantlyBanned ==>
              CanJoinRide(u.isPermanantlyBanned) && !NotBanned(TemporarilyBanned(u, now), u.isPermanantlyBanned)
    ensures u.isPermanantlyBanned ==>
              !CanJoinRide(u.isPermanantlyBanned) && !NotBanned(TemporarilyBanned(u, now), u.isPermanantlyBanned)
  {
  }

  /** A join allowed by the default capacity rule leaves at most four
      participants, which the ride schema accepts. */
  lemma CapacityRuleFitsSchema(participants: seq<Id>, newcomer: Id)
    requires CanJoinRideCapacity(|participants|, Undefined)
    ensures |participants + [newcomer]| <= MaxParticipants
  {
  }

  /** The rule and the periodic job disagree at the boundary: a ride
      departing exactly now already counts as expired for the rule, while
      the job's `$lt` filter leaves it open until the next run. */
  lemma ExpiryBoundary(r: Ride)
    requires r.status != Expired
    ensures IsRideExpired(ValidDate(r.departureTime), r.departureTime)
    ensures !Overdue(r, r.departureTime)
    ensures forall now :: now > r.departureTime ==>
              IsRideExpired(ValidDate(r.departureTime), now) && Overdue(r, now)
  {
  }

  /** A ride the create route stores has its creator auto-joined, is not
      expired at creation time, and has room under the default capacity. */
  lemma CreatedRideMeetsRules(docs: seq<Ride>, userId: Id, req: RideRoutes.CreateRideRequest,
                              parse: string -> JsDate, now: int, newId: Id)
    requires RideRoutes.CreateRideOutcome(docs, userId, req, parse, now, newId).Created201?
    ensures var ride := RideRoutes.CreateRideOutcome(docs, userId, req, parse, now, newId).ride;
            IsCreatorAutoJoined(ride.creator, Some(ride.participants))
            && !IsRideExpired(ValidDate(ride.departureTime), now)
            && CanJoinRideCapacity(|ride.participants|, Undefined)
  {
  }

  /** A freshly signed-up user has no strikes and passes every ban rule. */
  lemma NewUserPassesBanRules(id: Id, email: string, now: int)
    ensures var u := NewUser(id, email);
            !ShouldPermanentBan(u.banCount) && CanJoinRide(u.isPermanantlyBanned)
            && NotBanned(TemporarilyBanned(u, now), u.isPermanantlyBanned)
  {
  }

  /** The expectations of the rules tests for the policy predicates. */
  lemma PolicyExamples()
    ensures CanRequestOtp(Num(4), Num(5)) && !CanRequestOtp(Num(5), Num(5))
    ensures !NotBanned(true, false) && !NotBanned(false, true) && CanJoinRide(false)
    ensures CanJoinRideCapacity(3, Undefined) && !CanJoinRideCapacity(4, Undefined)
    ensures IsCreatorAutoJoined("u1", Some(["u1", "u2"])) && !IsCreatorAutoJoined("u1", Some(["u2"]))
    ensures !ShouldPermanentBan(0) && !ShouldPermanentBan(2) && ShouldPermanentBan(3) && ShouldPermanentBan(5)
    ensures CanReportUser(Some("u1"), Some("u2"), ["u1", "u2", "u3"], false)
    ensures !CanReportUser(Some("u1"), Some("u1"), ["u1", "u2", "u3"], false)
    ensures !CanReportUser(Some("u9"), Some("u2"), ["u1", "u2", "u3"], false)
    ensures !CanReportUser(Some("u1"), Some("u2"), ["u1", "u2", "u3"], true)
  {
    assert ["u1", "u2"][0] == "u1";
    assert ["u1", "u2", "u3"][1] == "u2";
    assert "u9" != "u1" && "u9" != "u2" && "u9" != "u3";
    assert "u1" != "u2";
  }

  // ---------------------------------------------------------------------
  // isNonEmptyString (utils/validate.js)

  function IsNonEmptyString(value: JsValue): (r: bool)
    ensures !value.JsString? ==> !r
    ensures value.JsString? ==> (r <==> exists i :: 0 <= i < |value.s| && !IsSpace(value.s[i]))
  {
    match value
    case JsString(s) =>
      TrimEmptyIff(s);
      JsLength(Trim(s)) > 0
    case _ => false
  }
}
