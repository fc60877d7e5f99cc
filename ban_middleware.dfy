/** `banMiddleware` (middleware/ban.middleware.js): the guard in front of
    actions a banned user may not take. */
module BanMiddleware {
  import opened Common
  import opened UserModel

  datatype BanResponse = Unauthorized401 | TemporarilyBanned403 | PermanentlyBanned403 | Next

  /** As written: the permanent branch reads `isPermanentyBanned`, which no
      stored user has, so it never fires. */
  function BanCheckAsWritten(user: Option<User>, now: int): (r: BanResponse)
    ensures r != PermanentlyBanned403
    ensures r == Next <==> user.Some? && !TemporarilyBanned(user.value, now)
  {
    if user.None? then Unauthorized401
    else if TemporarilyBanned(user.value, now) then TemporarilyBanned403
    else Next
  }

  /** The guard reading the schema's flag. */
  function BanCheck(user: Option<User>, now: int): (r: BanResponse)
    ensures r == Unauthorized401 <==> user.None?
    ensures r == TemporarilyBanned403 <==> user.Some? && TemporarilyBanned(user.value, now)
    ensures r == PermanentlyBanned403 <==> user.Some? && !TemporarilyBanned(user.value, now)
                                           && user.value.isPermanantlyBanned
    ensures r == Next <==> user.Some? && !Banned(user.value, now)
  {
    if user.None? then Unauthorized401
    else if TemporarilyBanned(user.value, now) then TemporarilyBanned403
    else if user.value.isPermanantlyBanned then PermanentlyBanned403
    else Next
  }

  /** A permanently banned user is let through as written and stopped by the
      corrected guard. */
  lemma PermanentBanPassesAsWritten(now: int)
    ensures var u := User("u1", "a@learner.manipal.edu", true, UserRole, 3, None, true);
            BanCheckAsWritten(Some(u), now) == Next && BanCheck(Some(u), now) == PermanentlyBanned403
  {
  }

  /** Both versions agree except on permanently banned users. */
  lemma AgreeWithoutPermanentFlag(user: User, now: int)
    requires !user.isPermanantlyBanned
    ensures BanCheckAsWritten(Some(user), now) == BanCheck(Some(user), now)
  {
  }

  /** The temporary ban is checked first; a ban that ended at or before now
      does not block. */
  lemma TemporaryFirst(user: User, now: int)
    ensures TemporarilyBanned(user, now) ==> BanCheck(Some(user), now) == TemporarilyBanned403
    ensures (user.banUntil.Some? && user.banUntil.value <= now && !user.isPermanantlyBanned)
            ==> BanCheck(Some(user), now) == Next
  {
  }
}
