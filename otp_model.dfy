/** One-time-password entries (models/Otp.model.js) and the bcrypt hash they hold. */
module OtpModel {
  import opened Common

  /** A bcrypt hash. The model keeps the hashed text and the salt, so that
      `compare` is exact: it accepts precisely the text that was hashed. */
  datatype Hash = Hash(plain: string, salt: nat)

  function BcryptHash(plain: string, salt: nat): (h: Hash)
    ensures BcryptCompare(plain, h)
  {
    Hash(plain, salt)
  }

  predicate BcryptCompare(plain: string, h: Hash) {
    h.plain == plain
  }

  /** A stored OTP entry; `email` is lowercased by the schema. */
  datatype OtpEntry = OtpEntry(id: nat, email: string, otpHash: Hash, expiresAt: int, attempts: int)

  predicate Lowercase(s: string) {
    forall i :: 0 <= i < |s| ==> !IsUpperAscii(s[i])
  }

  /** `Otp.create({ email, otpHash, expiresAt })`: email required and stored
      lowercased, attempts starts at 0. */
  function NewOtpEntry(id: nat, email: string, otpHash: Hash, expiresAt: int): (r: Option<OtpEntry>)
    ensures r.Some? <==> email != ""
    ensures r.Some? ==> r.value.id == id && r.value.email == ToLower(email)
                        && Lowercase(r.value.email) && |r.value.email| == |email|
                        && r.value.otpHash == otpHash && r.value.expiresAt == expiresAt
                        && r.value.attempts == 0
  {
    if email == "" then None else Some(OtpEntry(id, ToLower(email), otpHash, expiresAt, 0))
  }

  /** Entry ids are issued in increasing order, so they are unique. */
  predicate IdsOrdered(entries: seq<OtpEntry>, nextId: nat) {
    (forall i, j :: 0 <= i < j < |entries| ==> entries[i].id < entries[j].id)
    && (forall i :: 0 <= i < |entries| ==> entries[i].id < nextId)
  }

  /** `Otp.findOne({ email, expiresAt: { $gt: now } })`: the first such entry. */
  function FindLive(entries: seq<OtpEntry>, email: string, now: int): (r: Option<nat>)
    ensures r.Some? ==> r.value < |entries| && entries[r.value].email == email
                        && entries[r.value].expiresAt > now
    ensures r.Some? ==> forall j :: 0 <= j < r.value ==>
                          !(entries[j].email == email && entries[j].expiresAt > now)
    ensures r.None? ==> forall j :: 0 <= j < |entries| ==>
                          !(entries[j].email == email && entries[j].expiresAt > now)
  {
    if entries == [] then None
    else if entries[0].email == email && entries[0].expiresAt > now then Some(0)
    else match FindLive(entries[1..], email, now)
      case None => None
      case Some(k) => Some(k + 1)
  }

  /** Removes the entry with the given id (`Otp.deleteOne({ _id })`). */
  function DeleteEntry(entries: seq<OtpEntry>, id: nat): (r: seq<OtpEntry>)
    ensures forall i :: 0 <= i < |r| ==> r[i].id != id && r[i] in entries
    ensures forall i :: 0 <= i < |entries| && entries[i].id != id ==> entries[i] in r
  {
    Filter(entries, OtherThan(id))
  }

  function OtherThan(id: nat): OtpEntry -> bool {
    (e: OtpEntry) => e.id != id
  }

  /** The `otps` collection. */
  class OtpCollection {
    var entries: seq<OtpEntry>
    var nextId: nat

    ghost predicate Valid()
      reads this
    {
      IdsOrdered(entries, nextId)
    }

    method Create(email: string, otpHash: Hash, expiresAt: int) returns (r: Option<OtpEntry>)
      requires Valid()
      modifies this
      ensures Valid()
      ensures r == NewOtpEntry(old(nextId), email, otpHash, expiresAt)
      ensures entries == (if r.Some? then old(entries) + [r.value] else old(entries))
      ensures nextId == (if r.Some? then old(nextId) + 1 else old(nextId))
    {
      r := NewOtpEntry(nextId, email, otpHash, expiresAt);
      if r.Some? {
        entries := entries + [r.value];
        nextId := nextId + 1;
      }
    }

    /** `otpEntry.save()` after `otpEntry.attempts += 1` on the entry at index k. */
    method SaveAttempts(k: nat, attempts: int)
      requires Valid() && k < |entries|
      modifies this
      ensures Valid()
      ensures entries == old(entries)[k := old(entries)[k].(attempts := attempts)]
      ensures nextId == old(nextId)
    {
      entries := entries[k := entries[k].(attempts := attempts)];
    }

    method DeleteOne(id: nat)
      requires Valid()
      modifies this
      ensures Valid()
      ensures entries == DeleteEntry(old(entries), id)
      ensures nextId == old(nextId)
    {
      DeleteKeepsOrder(entries, id, nextId);
      entries := DeleteEntry(entries, id);
    }
  }

  lemma DeleteKeepsOrder(entries: seq<OtpEntry>, id: nat, nextId: nat)
    requires IdsOrdered(entries, nextId)
    ensures IdsOrdered(DeleteEntry(entries, id), nextId)
  {
    FilterPairwise(entries, OtherThan(id), (a: OtpEntry, b: OtpEntry) => a.id < b.id);
  }
}
