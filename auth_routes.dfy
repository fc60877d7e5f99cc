/** The one-time-password login (routes/auth.routes.js): `/request-otp`
    issues a code for a college address, `/verify-otp` checks it with a
    three-try lockout and marks the user verified. */
module AuthRoutes {
  import opened Common
  import opened OtpModel
  import opened UserModel
  import opened Rules

  /** How long an issued code stays valid. */
  const OtpLifetime: int := 5 * 60 * 1000

  /** Wrong codes allowed per issued code. */
  const MaxOtpAttempts: int := 3

  const ManipalDomain: string := "@learner.manipal.edu"

  /** `email.trim().toLowerCase()` */
  function NormalizeEmail(s: string): (r: string)
    ensures forall i :: 0 <= i < |r| ==> !IsUpperAscii(r[i])
  {
    ToLower(Trim(s))
  }

  /** `[a-z0-9._%+-]` */
  predicate LocalChar(c: char) {
    IsLowerAscii(c) || IsDigit(c) || c == '.' || c == '_' || c == '%' || c == '+' || c == '-'
  }

  /** `/^[a-z0-9._%+-]+@learner\.manipal\.edu$/` (case-sensitive). */
  function IsManipalEmail(s: string): (r: bool)
    ensures r <==> exists local :: ManipalLocalPart(local) && s == local + ManipalDomain
  {
    ManipalShape(s);
    |s| > |ManipalDomain| && EndsWith(s, ManipalDomain)
    && forall i :: 0 <= i < |s| - |ManipalDomain| ==> LocalChar(s[i])
  }

  /** `[a-z0-9._%+-]+` */
  predicate ManipalLocalPart(local: string) {
    local != [] && forall i :: 0 <= i < |local| ==> LocalChar(local[i])
  }

  lemma ManipalShape(s: string)
    ensures (|s| > |ManipalDomain| && EndsWith(s, ManipalDomain)
             && forall i :: 0 <= i < |s| - |ManipalDomain| ==> LocalChar(s[i]))
            <==> exists local :: ManipalLocalPart(local) && s == local + ManipalDomain
  {
    if |s| > |ManipalDomain| && EndsWith(s, ManipalDomain)
       && forall i :: 0 <= i < |s| - |ManipalDomain| ==> LocalChar(s[i]) {
      var local := s[..|s| - |ManipalDomain|];
      assert ManipalLocalPart(local) && s == local + ManipalDomain;
    }
    if exists local :: ManipalLocalPart(local) && s == local + ManipalDomain {
      var local :| ManipalLocalPart(local) && s == local + ManipalDomain;
      assert s[|s| - |ManipalDomain|..] == ManipalDomain;
      assert forall i :: 0 <= i < |local| ==> s[i] == local[i];
    }
  }

  /** Every address the login accepts also passes the general college rule. */
  lemma ManipalIsCollege(s: string)
    requires IsManipalEmail(s)
    ensures IsCollegeEmail(JsString(s))
  {
    var local :| ManipalLocalPart(local) && s == local + ManipalDomain;
    LocalPartIsClean(local);
    ManipalHost();
    assert s == local + "@" + ManipalHostName + ".edu";
    AcceptsCollegeAddress(local, ManipalHostName, ".edu");
  }

  const ManipalHostName: string := "learner.manipal"

  /** The Manipal domain is "@", a clean host name and ".edu". */
  lemma ManipalHost()
    ensures ManipalDomain == "@" + ManipalHostName + ".edu" && CleanPart(ManipalHostName)
  {
  }

  /** A Manipal local part has no whitespace and no "@". */
  lemma LocalPartIsClean(local: string)
    requires ManipalLocalPart(local)
    ensures CleanPart(local)
  {
  }

  // ---------------------------------------------------------------------
  // POST /request-otp

  datatype RequestOtpResponse =
    | EmailRequired400
    | CollegeEmailRequired403
    /** 429 with the whole seconds left on the live code */
    | Wait429(seconds: int)
    | OtpSent200
    /** `email.trim` on a value that is not a string throws */
    | RequestServerError500

  /** The handler's decision and the new `otps` collection, for a fresh code
      `code` hashed with `salt`. */
  function RequestOtpSpec(entries: seq<OtpEntry>, nextId: nat, email: JsValue, now: int,
                          code: string, salt: nat): (r: (RequestOtpResponse, seq<OtpEntry>))
    ensures r.0 == EmailRequired400 <==> !JsTruthy(email)
    ensures r.0 == RequestServerError500 <==> JsTruthy(email) && !email.JsString?
    ensures r.0 == CollegeEmailRequired403 <==>
              JsTruthy(email) && email.JsString? && !IsManipalEmail(NormalizeEmail(email.s))
    ensures r.0.Wait429? <==>
              JsTruthy(email) && email.JsString? && IsManipalEmail(NormalizeEmail(email.s))
              && FindLive(entries, NormalizeEmail(email.s), now).Some?
    ensures r.0.Wait429? ==>
              var k := FindLive(entries, NormalizeEmail(email.s), now).value;
              r.0.seconds == CeilDiv(entries[k].expiresAt - now, 1000) && r.0.seconds >= 1
    ensures r.0 == OtpSent200 ==>
              r.1 == entries + [OtpEntry(nextId, NormalizeEmail(email.s), BcryptHash(code, salt),
                                         now + OtpLifetime, 0)]
    ensures r.0 != OtpSent200 ==> r.1 == entries
  {
    if !JsTruthy(email) then (EmailRequired400, entries)
    else if !email.JsString? then (RequestServerError500, entries)
    else
      var e := NormalizeEmail(email.s);
      if !IsManipalEmail(e) then (CollegeEmailRequired403, entries)
      else match FindLive(entries, e, now)
        case Some(k) => (Wait429(CeilDiv(entries[k].expiresAt - now, 1000)), entries)
        case None =>
          ToLowerOfLowercase(e);
          (OtpSent200, entries + [OtpEntry(nextId, e, BcryptHash(code, salt), now + OtpLifetime, 0)])
  }

  /** The handler on the `otps` collection. `code` and `salt` stand for the
      generated code and bcrypt's salt. */
  method RequestOtp(otps: OtpCollection, email: JsValue, now: int, code: string, salt: nat)
    returns (r: RequestOtpResponse)
    requires otps.Valid()
    modifies otps
    ensures otps.Valid()
    ensures (r, otps.entries) == RequestOtpSpec(old(otps.entries), old(otps.nextId), email, now, code, salt)
  {
    if !JsTruthy(email) {
      return EmailRequired400;
    }
    if !email.JsString? {
      return RequestServerError500;
    }
    var e := NormalizeEmail(email.s);
    if !IsManipalEmail(e) {
      return CollegeEmailRequired403;
    }
    var existing := FindLive(otps.entries, e, now);
    if existing.Some? {
      return Wait429(CeilDiv(otps.entries[existing.value].expiresAt - now, 1000));
    }
    var hashed := BcryptHash(code, salt);
    ToLowerOfLowercase(e);
    var created := otps.Create(e, hashed, now + OtpLifetime);
    assert created == Some(OtpEntry(old(otps.nextId), e, hashed, now + OtpLifetime, 0));
    r := OtpSent200;
  }

  // ---------------------------------------------------------------------
  // POST /verify-otp

  datatype VerifyOtpResponse =
    | Missing400
    | OtpExpired400
    | AttemptsExceeded403
    | InvalidOtp401(attemptsLeft: int)
    | Verified200(userId: Id)
    | VerifyServerError500

  /** The step after a live entry `entries[k]` was found for the normalised
      address `e`: compare the code, then either count a wrong attempt
      (deleting the entry on the third) or mark the user verified and
      delete the entry. */
  function CheckCode(entries: seq<OtpEntry>, users: seq<User>, k: nat, e: string, otp: JsValue,
                     newUserId: Id): (r: (VerifyOtpResponse, seq<OtpEntry>, seq<User>))
    requires k < |entries|
    requires forall i :: 0 <= i < |e| ==> !IsUpperAscii(e[i])
    ensures r.0.Verified200? || r.0 == VerifyServerError500 <==> BcryptCompare(JsToString(otp), entries[k].otpHash)
    ensures r.0.Verified200? ==>
              r.1 == DeleteEntry(entries, entries[k].id)
              && exists j :: 0 <= j < |r.2| && r.2[j].id == r.0.userId && r.2[j].email == e && r.2[j].isVerified
    ensures r.0 == VerifyServerError500 ==> r.1 == entries && VerifiedUpsert(users, e, newUserId).0.Err?
    ensures r.0.InvalidOtp401? ==>
              r.1 == entries[k := entries[k].(attempts := entries[k].attempts + 1)]
              && r.1[k].attempts < MaxOtpAttempts
              && r.0.attemptsLeft == MaxOtpAttempts - r.1[k].attempts && r.0.attemptsLeft >= 1
    ensures r.0 == AttemptsExceeded403 ==>
              entries[k].attempts + 1 >= MaxOtpAttempts
              && r.1 == DeleteEntry(entries[k := entries[k].(attempts := entries[k].attempts + 1)], entries[k].id)
    ensures r.0.Verified200? || r.0.InvalidOtp401? || r.0 == AttemptsExceeded403 || r.0 == VerifyServerError500
    ensures !r.0.Verified200? ==> r.2 == users
  {
    var entry := entries[k];
    if !BcryptCompare(JsToString(otp), entry.otpHash) then
      var saved := entries[k := entry.(attempts := entry.attempts + 1)];
      if entry.attempts + 1 >= MaxOtpAttempts then (AttemptsExceeded403, DeleteEntry(saved, entry.id), users)
      else (InvalidOtp401(MaxOtpAttempts - (entry.attempts + 1)), saved, users)
    else
      var upsert := VerifiedUpsert(users, e, newUserId);
      if upsert.0.Err? then (VerifyServerError500, entries, users)
      else (Verified200(upsert.0.value.id), DeleteEntry(entries, entry.id), upsert.1)
  }

  /** The handler's decision, the new `otps` collection and the new `users`
      collection; `newUserId` is the id an upsert would insert. */
  function VerifyOtpSpec(entries: seq<OtpEntry>, users: seq<User>, email: JsValue, otp: JsValue,
                         now: int, newUserId: Id): (r: (VerifyOtpResponse, seq<OtpEntry>, seq<User>))
    ensures r.0 == Missing400 <==> !JsTruthy(email) || !JsTruthy(otp)
    ensures r.0 == OtpExpired400 <==>
              JsTruthy(email) && JsTruthy(otp) && email.JsString?
              && FindLive(entries, NormalizeEmail(email.s), now).None?
    ensures JsTruthy(email) && JsTruthy(otp) && email.JsString?
            && FindLive(entries, NormalizeEmail(email.s), now).Some? ==>
              r == CheckCode(entries, users, FindLive(entries, NormalizeEmail(email.s), now).value,
                             NormalizeEmail(email.s), otp, newUserId)
    ensures JsTruthy(email) && JsTruthy(otp) && !email.JsString? ==> r == (VerifyServerError500, entries, users)
    ensures r.0 == Missing400 || r.0 == OtpExpired400 ==> r.1 == entries && r.2 == users
  {
    if !JsTruthy(email) || !JsTruthy(otp) then (Missing400, entries, users)
    else if !email.JsString? then (VerifyServerError500, entries, users)
    else
      var e := NormalizeEmail(email.s);
      match FindLive(entries, e, now)
      case None => (OtpExpired400, entries, users)
      case Some(k) => CheckCode(entries, users, k, e, otp, newUserId)
  }

  /** The handler on the `otps` and `users` collections. Tokens and the
      refresh cookie are not modelled. */
  method VerifyOtp(otps: OtpCollection, users: UserCollection, email: JsValue, otp: JsValue,
                   now: int, newUserId: Id) returns (r: VerifyOtpResponse)
    requires otps.Valid() && users.Valid()
    modifies otps, users
    ensures otps.Valid() && users.Valid()
    ensures (r, otps.entries, users.users)
            == VerifyOtpSpec(old(otps.entries), old(users.users), email, otp, now, newUserId)
  {
    if !JsTruthy(email) || !JsTruthy(otp) {
      return Missing400;
    }
    if !email.JsString? {
      return VerifyServerError500;
    }
    var e := NormalizeEmail(email.s);
    var found := FindLive(otps.entries, e, now);
    if found.None? {
      return OtpExpired400;
    }
    r := CheckCodeOn(otps, users, found.value, e, otp, newUserId);
  }

  /** The handler from the code comparison on, applied to the collections. */
  method CheckCodeOn(otps: OtpCollection, users: UserCollection, k: nat, e: string, otp: JsValue,
                     newUserId: Id) returns (r: VerifyOtpResponse)
    requires otps.Valid() && users.Valid() && k < |otps.entries|
    requires forall i :: 0 <= i < |e| ==> !IsUpperAscii(e[i])
    modifies otps, users
    ensures otps.Valid() && users.Valid()
    ensures (r, otps.entries, users.users) == CheckCode(old(otps.entries), old(users.users), k, e, otp, newUserId)
  {
    var entry := otps.entries[k];
    if !BcryptCompare(JsToString(otp), entry.otpHash) {
      var attempts := entry.attempts + 1;
      otps.SaveAttempts(k, attempts);
      if attempts >= MaxOtpAttempts {
        otps.DeleteOne(entry.id);
        return AttemptsExceeded403;
      }
      return InvalidOtp401(MaxOtpAttempts - attempts);
    }
    var u := users.UpsertVerified(e, newUserId);
    if u.Err? {
      return VerifyServerError500;
    }
    otps.DeleteOne(entry.id);
    r := Verified200(u.value.id);
  }

  // ---------------------------------------------------------------------
  // Properties of the login as a whole

  /** The code that `/request-otp` issued verifies for the same address at
      any time before it expires (unless the insert of a new user collides
      on its id, which is the only way the upsert can fail). */
  lemma IssuedCodeVerifies(entries: seq<OtpEntry>, nextId: nat, users: seq<User>, email: string,
                           code: string, salt: nat, issuedAt: int, now: int, newUserId: Id)
    requires RequestOtpSpec(entries, nextId, JsString(email), issuedAt, code, salt).0 == OtpSent200
    requires code != "" && issuedAt <= now < issuedAt + OtpLifetime
    ensures var after := RequestOtpSpec(entries, nextId, JsString(email), issuedAt, code, salt).1;
            var v := VerifyOtpSpec(after, users, JsString(email), JsString(code), now, newUserId);
            v.0.Verified200? || (v.0 == VerifyServerError500 && FindUser(users, newUserId).Some?)
  {
    var e := NormalizeEmail(email);
    var after := RequestOtpSpec(entries, nextId, JsString(email), issuedAt, code, salt).1;
    assert FindLive(entries, e, issuedAt).None?;
    NoLiveLater(entries, e, issuedAt, now);
    assert after[|entries|].email == e && after[|entries|].expiresAt > now;
    LiveAfterAppend(entries, after[|entries|], e, now);
  }

  /** Once no entry was live at the time of issue, the appended one is the
      first live entry at any later time before it expires. */
  lemma LiveAfterAppend(entries: seq<OtpEntry>, issued: OtpEntry, e: string, now: int)
    requires FindLive(entries, e, now).None?
    requires issued.email == e && issued.expiresAt > now
    ensures FindLive(entries + [issued], e, now) == Some(|entries|)
  {
    var all := entries + [issued];
    assert all[|entries|] == issued;
  }

  /** Entries that were not live at one time are not live later either. */
  lemma NoLiveLater(entries: seq<OtpEntry>, e: string, issuedAt: int, now: int)
    requires FindLive(entries, e, issuedAt).None? && issuedAt <= now
    ensures FindLive(entries, e, now).None?
  {
  }

  /** Three wrong codes in a row: two 401s counting down, then a 403 that
      removes the entry. */
  lemma ThreeWrongCodesLockOut(entries: seq<OtpEntry>, users: seq<User>, email: string, otp: JsValue,
                               now: int, newUserId: Id)
    requires email != [] && JsTruthy(otp)
    requires FindLive(entries, NormalizeEmail(email), now).Some?
    requires var k := FindLive(entries, NormalizeEmail(email), now).value;
             entries[k].attempts == 0 && !BcryptCompare(JsToString(otp), entries[k].otpHash)
    ensures var r1 := VerifyOtpSpec(entries, users, JsString(email), otp, now, newUserId);
            var r2 := VerifyOtpSpec(r1.1, users, JsString(email), otp, now, newUserId);
            var r3 := VerifyOtpSpec(r2.1, users, JsString(email), otp, now, newUserId);
            r1.0 == InvalidOtp401(2) && r2.0 == InvalidOtp401(1) && r3.0 == AttemptsExceeded403
            && forall j :: 0 <= j < |r3.1| ==>
                 r3.1[j].id != entries[FindLive(entries, NormalizeEmail(email), now).value].id
  {
    var e := NormalizeEmail(email);
    var k := FindLive(entries, e, now).value;
    var r1 := VerifyOtpSpec(entries, users, JsString(email), otp, now, newUserId);
    SameLiveAfterSave(entries, k, e, now, 1);
    var r2 := VerifyOtpSpec(r1.1, users, JsString(email), otp, now, newUserId);
    SameLiveAfterSave(r1.1, k, e, now, 2);
    assert r2.1[k].attempts == 2;
  }

  /** On a wrong code the route keeps the entry (401) exactly when the
      rules' `canRequestOtp` allows the new attempt count against the
      route's limit of three, and locks it out (403) exactly when it does not. */
  lemma WrongCodeFollowsAttemptRule(entries: seq<OtpEntry>, users: seq<User>, k: nat, e: string, otp: JsValue,
                                    newUserId: Id)
    requires k < |entries| && forall i :: 0 <= i < |e| ==> !IsUpperAscii(e[i])
    requires !BcryptCompare(JsToString(otp), entries[k].otpHash)
    ensures CheckCode(entries, users, k, e, otp, newUserId).0.InvalidOtp401?
            <==> CanRequestOtp(Num(entries[k].attempts + 1), Num(MaxOtpAttempts))
    ensures CheckCode(entries, users, k, e, otp, newUserId).0 == AttemptsExceeded403
            <==> !CanRequestOtp(Num(entries[k].attempts + 1), Num(MaxOtpAttempts))
  {
  }

  /** Saving a new attempt count keeps the same entry first among the live ones. */
  lemma SameLiveAfterSave(entries: seq<OtpEntry>, k: nat, e: string, now: int, attempts: int)
    requires FindLive(entries, e, now) == Some(k)
    ensures FindLive(entries[k := entries[k].(attempts := attempts)], e, now) == Some(k)
  {
    var saved := entries[k := entries[k].(attempts := attempts)];
    assert saved[k].email == e && saved[k].expiresAt > now;
    assert forall j :: 0 <= j < k ==> saved[j] == entries[j];
  }
}
