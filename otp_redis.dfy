/** The Redis-backed OTP store (services/otpRedis.service.js). The key
    builders live in utils/redisKeys.js, which is not part of this model:
    the three key families below are stand-ins that share the property the
    service relies on, namely that they never collide. */
module OtpRedis {
  import opened Common
  import opened Redis

  const OtpTtl: int := 300
  const CooldownTtl: int := 60

  function OtpKey(email: string): string { "otp:hash:" + email }
  function CooldownKey(email: string): string { "otp:cooldown:" + email }
  function AttemptsKey(email: string): string { "otp:attempts:" + email }

  /** No two keys of the service coincide, for any two emails. */
  lemma KeysDistinct(a: string, b: string)
    ensures OtpKey(a) != CooldownKey(b) && OtpKey(a) != AttemptsKey(b) && CooldownKey(a) != AttemptsKey(b)
    ensures OtpKey(a) == OtpKey(b) ==> a == b
    ensures CooldownKey(a) == CooldownKey(b) ==> a == b
    ensures AttemptsKey(a) == AttemptsKey(b) ==> a == b
  {
    assert OtpKey(a)[4] == 'h' && CooldownKey(b)[4] == 'c' && AttemptsKey(b)[4] == 'a';
    assert CooldownKey(a)[4] == 'c';
    if OtpKey(a) == OtpKey(b) { assert a == OtpKey(a)[9..] && b == OtpKey(b)[9..]; }
    if CooldownKey(a) == CooldownKey(b) { assert a == CooldownKey(a)[13..] && b == CooldownKey(b)[13..]; }
    if AttemptsKey(a) == AttemptsKey(b) { assert a == AttemptsKey(a)[13..] && b == AttemptsKey(b)[13..]; }
  }

  /** The key space after `saveOtp(email, otpHash)`. */
  function Saved(data: map<string, Entry>, email: string, otpHash: string): (r: map<string, Entry>)
    ensures GetValue(r, OtpKey(email)) == Some(otpHash) && TtlOf(r, OtpKey(email)) == OtpTtl
    ensures GetValue(r, CooldownKey(email)) == Some("1") && TtlOf(r, CooldownKey(email)) == CooldownTtl
    ensures AttemptsKey(email) !in r
    ensures forall k :: k in data && k != OtpKey(email) && k != CooldownKey(email) && k != AttemptsKey(email)
                        ==> k in r && r[k] == data[k]
  {
    KeysDistinct(email, email);
    DelKeys(data[OtpKey(email) := Entry(Text(otpHash), OtpTtl)]
                [CooldownKey(email) := Entry(Text("1"), CooldownTtl)],
            [AttemptsKey(email)])
  }

  /** The key space after `clearOtp(email)`. */
  function Cleared(data: map<string, Entry>, email: string): (r: map<string, Entry>)
    ensures OtpKey(email) !in r && AttemptsKey(email) !in r
    ensures TtlOf(r, CooldownKey(email)) == TtlOf(data, CooldownKey(email))
    ensures forall k :: k in r <==> k in data && k != OtpKey(email) && k != AttemptsKey(email)
  {
    KeysDistinct(email, email);
    DelKeys(DelKeys(data, [OtpKey(email)]), [AttemptsKey(email)])
  }

  method SaveOtp(r: RedisStore, email: string, otpHash: string)
    requires r.Valid() && r.isOpen
    modifies r
    ensures r.Valid() && r.isOpen
    ensures r.data == Saved(old(r.data), email, otpHash)
  {
    r.SetEx(OtpKey(email), OtpTtl, otpHash);
    r.SetEx(CooldownKey(email), CooldownTtl, "1");
    r.Del([AttemptsKey(email)]);
  }

  method GetOtpHash(r: RedisStore, email: string) returns (h: Option<string>)
    requires r.isOpen
    ensures h == GetValue(r.data, OtpKey(email))
  {
    h := r.Get(OtpKey(email));
  }

  method GetCooldownLeft(r: RedisStore, email: string) returns (t: int)
    requires r.isOpen
    ensures t == TtlOf(r.data, CooldownKey(email))
  {
    t := r.Ttl(CooldownKey(email));
  }

  /** `incrementOtpAttempts`: None stands for the error INCR raises on a
      text value. */
  method IncrementOtpAttempts(r: RedisStore, email: string) returns (attempts: Option<int>)
    requires r.Valid() && r.isOpen
    modifies r
    ensures r.Valid() && r.isOpen
    ensures var key := AttemptsKey(email);
            var res := IncrResult(old(r.data), key);
            (res.None? ==> attempts.None? && r.data == old(r.data))
            && (res.Some? ==> attempts == Some(res.value.0)
                              && r.data == (if res.value.0 == 1
                                            then res.value.1[key := Entry(Counter(1), OtpTtl)]
                                            else res.value.1))
  {
    attempts := r.Incr(AttemptsKey(email));
    if attempts == Some(1) {
      var _ := r.Expire(AttemptsKey(email), OtpTtl);
    }
  }

  method ClearOtp(r: RedisStore, email: string)
    requires r.Valid() && r.isOpen
    modifies r
    ensures r.Valid() && r.isOpen
    ensures r.data == Cleared(old(r.data), email)
  {
    r.Del([OtpKey(email)]);
    r.Del([AttemptsKey(email)]);
  }

  /** The attempts counter as a pure step, used to reason about sequences
      of wrong guesses. */
  function Bumped(data: map<string, Entry>, email: string): map<string, Entry>
    requires AttemptsKey(email) !in data || data[AttemptsKey(email)].value.Counter?
  {
    var key := AttemptsKey(email);
    var res := IncrResult(data, key).value;
    if res.0 == 1 then res.1[key := Entry(Counter(1), OtpTtl)] else res.1
  }

  function BumpedTimes(data: map<string, Entry>, email: string, n: nat): (r: map<string, Entry>)
    requires AttemptsKey(email) !in data || data[AttemptsKey(email)].value.Counter?
    ensures AttemptsKey(email) in r || n == 0
    ensures AttemptsKey(email) in r ==> r[AttemptsKey(email)].value.Counter?
  {
    if n == 0 then data else Bumped(BumpedTimes(data, email, n - 1), email)
  }

  /** After `saveOtp`, n wrong guesses leave the counter at n, expiring
      300 seconds after the first, while the hash and cooldown stay put. */
  lemma {:induction false} AttemptsCountFromSave(data: map<string, Entry>, email: string, otpHash: string, n: nat)
    requires n >= 1
    ensures var s := Saved(data, email, otpHash);
            var r := BumpedTimes(s, email, n);
            r[AttemptsKey(email)] == Entry(Counter(n), OtpTtl)
            && GetValue(r, OtpKey(email)) == Some(otpHash)
            && TtlOf(r, CooldownKey(email)) == CooldownTtl
  {
    KeysDistinct(email, email);
    if n > 1 {
      AttemptsCountFromSave(data, email, otpHash, n - 1);
    }
  }
}
