/** User accounts (models/User.model.js). */
module UserModel {
  import opened Common

  datatype Role = UserRole | AdminRole

  /** A stored user. The permanent-ban path is spelled as the schema spells it. */
  datatype User = User(id: Id, email: string, isVerified: bool, role: Role, banCount: int,
                       banUntil: Option<int>, isPermanantlyBanned: bool)

  /** A user document as created from an email alone: the email is stored
      lowercased and every other path takes its default. */
  function NewUser(id: Id, email: string): (u: User)
    ensures u.id == id && u.email == ToLower(email) && |u.email| == |email|
    ensures forall i :: 0 <= i < |u.email| ==> !IsUpperAscii(u.email[i])
    ensures !u.isVerified && u.role == UserRole && u.banCount == 0
    ensures u.banUntil.None? && !u.isPermanantlyBanned
  {
    User(id, ToLower(email), false, UserRole, 0, None, false)
  }

  /** `user.banUntil && user.banUntil > now` */
  predicate TemporarilyBanned(u: User, now: int) {
    u.banUntil.Some? && u.banUntil.value > now
  }

  /** A ban of either kind is in force. */
  predicate Banned(u: User, now: int) {
    u.isPermanantlyBanned || TemporarilyBanned(u, now)
  }

  /** Ids and emails (the unique index) are both unique. */
  predicate UniqueUsers(users: seq<User>) {
    forall i, j :: 0 <= i < j < |users| ==> users[i].id != users[j].id && users[i].email != users[j].email
  }

  function FindUserIndex(users: seq<User>, p: User -> bool): (r: Option<nat>)
    ensures r.Some? ==> r.value < |users| && p(users[r.value])
                        && forall j :: 0 <= j < r.value ==> !p(users[j])
    ensures r.None? ==> forall j :: 0 <= j < |users| ==> !p(users[j])
  {
    if users == [] then None
    else if p(users[0]) then Some(0)
    else match FindUserIndex(users[1..], p)
      case None => None
      case Some(k) => Some(k + 1)
  }

  /** `User.findById`. */
  function FindUser(users: seq<User>, id: Id): (r: Option<User>)
    ensures r.Some? ==> r.value in users && r.value.id == id
    ensures r.None? ==> forall j :: 0 <= j < |users| ==> users[j].id != id
  {
    match FindUserIndex(users, (u: User) => u.id == id)
    case None => None
    case Some(k) => Some(users[k])
  }

  /** `User.findOne({ email })`. */
  function FindUserByEmail(users: seq<User>, email: string): (r: Option<User>)
    ensures r.Some? ==> r.value in users && r.value.email == email
    ensures r.None? ==> forall j :: 0 <= j < |users| ==> users[j].email != email
  {
    match FindUserIndex(users, (u: User) => u.email == email)
    case None => None
    case Some(k) => Some(users[k])
  }

  /** `User.findOneAndUpdate({ email }, { $set: { isVerified: true } },
      { upsert: true, new: true })`, with `newId` the `_id` an insert would take. */
  function VerifiedUpsert(users: seq<User>, email: string, newId: Id): (r: (Result<User, DbError>, seq<User>))
    requires forall i :: 0 <= i < |email| ==> !IsUpperAscii(email[i])
    ensures r.0.Ok? ==> r.0.value.email == email && r.0.value.isVerified
    ensures r.0.Ok? ==> exists k :: 0 <= k < |r.1| && r.1[k] == r.0.value
    ensures r.0.Err? ==> r.1 == users
    ensures UniqueUsers(users) ==> UniqueUsers(r.1)
    ensures FindUserByEmail(users, email).Some? ==>
              |r.1| == |users| && r.0.Ok? && r.0.value == FindUserByEmail(users, email).value.(isVerified := true)
    ensures forall j :: 0 <= j < |users| && users[j].email != email ==> users[j] in r.1
    ensures FindUserByEmail(users, email).None? ==>
              (r.0.Err? <==> FindUser(users, newId).Some?)
              && (r.0.Err? ==> r.0.error == DuplicateKeyError)
              && (r.0.Ok? ==> r.0.value == NewUser(newId, email).(isVerified := true) && r.1 == users + [r.0.value])
  {
    match FindUserIndex(users, (u: User) => u.email == email)
    case Some(k) =>
      var u := users[k].(isVerified := true);
      var after := users[k := u];
      assert forall j :: 0 <= j < |users| && users[j].email != email ==> after[j] == users[j];
      assert after[k] == u;
      (Ok(u), after)
    case None =>
      if FindUser(users, newId).Some? then (Err(DuplicateKeyError), users)
      else
        ToLowerOfLowercase(email);
        var u := NewUser(newId, email).(isVerified := true);
        assert (users + [u])[|users|] == u;
        (Ok(u), users + [u])
  }

  lemma {:induction false} ToLowerOfLowercase(s: string)
    requires forall i :: 0 <= i < |s| ==> !IsUpperAscii(s[i])
    ensures ToLower(s) == s
  {
    assert forall i :: 0 <= i < |s| ==> ToLower(s)[i] == s[i];
  }

  /** The `users` collection. */
  class UserCollection {
    var users: seq<User>

    ghost predicate Valid()
      reads this
    {
      UniqueUsers(users)
    }

    method UpsertVerified(email: string, newId: Id) returns (r: Result<User, DbError>)
      requires Valid()
      requires forall i :: 0 <= i < |email| ==> !IsUpperAscii(email[i])
      modifies this
      ensures Valid()
      ensures (r, users) == VerifiedUpsert(old(users), email, newId)
    {
      var res := VerifiedUpsert(users, email, newId);
      r := res.0;
      users := res.1;
    }
  }
}
