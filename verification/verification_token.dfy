/** An e-mail verification token: a fresh UUID string bound to an address,
    created at the current time and valid for a number of hours. Times are
    whole seconds on one clock. */
module VerificationTokens {
  import opened Common

  const SecondsPerHour: int := 3600

  datatype Token = Token(token: string, email: string, createdAt: int, expiresAt: int)

  /** The builder: the token string is the fresh UUID `uuid`, the address is
      stored as given, and the expiry lies `hours` after the creation time. */
  function NewToken(email: string, hours: int, now: int, uuid: string): (t: Token)
    requires IsUuid(uuid)
    ensures t.token == uuid && IsUuid(t.token)
    ensures t.email == email && t.createdAt == now
    ensures t.expiresAt - t.createdAt == hours * SecondsPerHour
  {
    Token(uuid, email, now, now + hours * SecondsPerHour)
  }

  /** `isExpired()`: the clock reads strictly after the expiry. */
  predicate IsExpired(t: Token, now: int) {
    now > t.expiresAt
  }

  /** Once expired, a token stays expired. */
  lemma ExpiryIsMonotone(t: Token, earlier: int, later: int)
    requires earlier <= later && IsExpired(t, earlier)
    ensures IsExpired(t, later)
  {
  }

  /** A token made with a non-negative lifetime is valid from its creation up
      to and including its expiry, and expired at every later time. */
  lemma ValidityWindow(email: string, hours: int, now: int, uuid: string, at: int)
    requires IsUuid(uuid) && hours >= 0
    ensures var t := NewToken(email, hours, now, uuid);
            && (now <= at <= now + hours * SecondsPerHour ==> !IsExpired(t, at))
            && (at > now + hours * SecondsPerHour ==> IsExpired(t, at))
            && !IsExpired(t, t.expiresAt)
  {
  }
}
