/** The e-mail verification service over the token table. Sending drops every
    token of the address, saves a fresh one and mails its link; the whole call
    is one transaction, so a failure leaves the table as it was. Verifying
    looks a token up and checks its expiry without consuming it. The mail
    transport is the outcome `mailSent`. */
module EmailServices {
  import opened Common
  import opened VerificationTokens

  /** `TOKEN_EXPIRATION_HOURS`. */
  const TokenExpirationHours: int := 24

  datatype SendError = TokenClash | MailFailed
  datatype VerifyError = InvalidLink | LinkExpired

  /** `deleteByEmail(email)`: every token of the address removed. */
  function WithoutEmail(tokens: map<string, Token>, email: string): (m: map<string, Token>)
    ensures forall k :: k in m <==> k in tokens && tokens[k].email != email
    ensures forall k :: k in m ==> m[k] == tokens[k]
  {
    map k | k in tokens && tokens[k].email != email :: tokens[k]
  }

  /** The table after a successful send of token `t`. */
  function Reissued(tokens: map<string, Token>, t: Token): map<string, Token> {
    WithoutEmail(tokens, t.email)[t.token := t]
  }

  /** After a send the address has exactly one token, the new one, and every
      other address keeps its tokens unchanged. */
  lemma ReissueKeepsOneToken(tokens: map<string, Token>, t: Token)
    requires t.token !in WithoutEmail(tokens, t.email)
    ensures var m := Reissued(tokens, t);
            && t.token in m && m[t.token] == t
            && (forall k :: k in m && m[k].email == t.email ==> k == t.token)
            && (forall k :: k in tokens && tokens[k].email != t.email ==> k in m && m[k] == tokens[k])
            && (forall k :: k in m && k != t.token ==> k in tokens && tokens[k].email != t.email)
  {
  }

  /** Two successful sends for one address leave the table as the second
      alone would: the first token is gone. */
  lemma ReissueTwice(tokens: map<string, Token>, t1: Token, t2: Token)
    requires t1.email == t2.email
    requires t1.token !in WithoutEmail(tokens, t1.email)
    ensures Reissued(Reissued(tokens, t1), t2) == Reissued(tokens, t2)
  {
    var once := WithoutEmail(tokens, t1.email);
    var a := Reissued(Reissued(tokens, t1), t2);
    var b := Reissued(tokens, t2);
    forall k | k != t2.token
      ensures (k in a <==> k in b) && (k in a ==> a[k] == b[k])
    {
      if k == t1.token {
        assert k !in once;
      }
    }
    assert a.Keys == b.Keys;
  }

  class EmailService {
    /** The token table, keyed by the unique token string. */
    var tokens: map<string, Token>

    predicate Valid()
      reads this
    {
      forall k :: k in tokens ==> tokens[k].token == k
    }

    constructor ()
      ensures tokens == map[] && Valid()
    {
      tokens := map[];
    }

    /** `sendVerificationEmail(email)` at time `now` with the fresh UUID `uuid`.
        The removals of the address's tokens are only queued, while the save
        of an identity-keyed row inserts at once; so a UUID already in the
        table, even as the address's own old token, breaks the column's
        uniqueness rule. That and a failed mail throw, and the transaction
        rolls back. Otherwise the new token replaces the address's tokens and
        its expiry, 24 hours on, is returned. */
    method SendVerificationEmail(email: string, now: int, uuid: string, mailSent: bool)
      returns (r: Result<int, SendError>)
      requires Valid() && IsUuid(uuid)
      modifies this
      ensures Valid()
      ensures r == Err(TokenClash) <==> uuid in old(tokens)
      ensures r == Err(MailFailed) <==> uuid !in old(tokens) && !mailSent
      ensures r.Err? ==> tokens == old(tokens)
      ensures r.Ok? ==> && tokens == Reissued(old(tokens), NewToken(email, TokenExpirationHours, now, uuid))
                        && r.value == now + TokenExpirationHours * SecondsPerHour
    {
      var saved := tokens;
      tokens := WithoutEmail(tokens, email);
      var token := NewToken(email, TokenExpirationHours, now, uuid);
      if token.token in saved {
        tokens := saved;
        return Err(TokenClash);
      }
      tokens := tokens[token.token := token];
      if !mailSent {
        tokens := saved;
        return Err(MailFailed);
      }
      r := Ok(token.expiresAt);
    }

    /** `verifyToken(token)` at time `now`: an unknown token is an invalid
        link, an expired one is reported as such, and a valid one yields its
        address; the table is only read. */
    function VerifyToken(token: string, now: int): (r: Result<string, VerifyError>)
      reads this
      ensures r == Err(InvalidLink) <==> token !in tokens
      ensures r == Err(LinkExpired) <==> token in tokens && IsExpired(tokens[token], now)
      ensures r.Ok? ==> token in tokens && !IsExpired(tokens[token], now) && r.value == tokens[token].email
    {
      if token !in tokens then Err(InvalidLink)
      else if IsExpired(tokens[token], now) then Err(LinkExpired)
      else Ok(tokens[token].email)
    }

    /** `resendVerificationEmail(email)`: a send, with the same outcome. */
    method ResendVerificationEmail(email: string, now: int, uuid: string, mailSent: bool)
      returns (r: Result<int, SendError>)
      requires Valid() && IsUuid(uuid)
      modifies this
      ensures Valid()
      ensures r == Err(TokenClash) <==> uuid in old(tokens)
      ensures r == Err(MailFailed) <==> uuid !in old(tokens) && !mailSent
      ensures r.Err? ==> tokens == old(tokens)
      ensures r.Ok? ==> && tokens == Reissued(old(tokens), NewToken(email, TokenExpirationHours, now, uuid))
                        && r.value == now + TokenExpirationHours * SecondsPerHour
    {
      r := SendVerificationEmail(email, now, uuid, mailSent);
    }
  }

  /** Whatever the table held before, a token just sent verifies to its
      address for the next 24 hours inclusive, and is reported expired after
      that. */
  lemma FreshTokenVerifies(svc: EmailService, before: map<string, Token>, email: string, now: int,
                           uuid: string, at: int)
    requires IsUuid(uuid)
    requires svc.tokens == Reissued(before, NewToken(email, TokenExpirationHours, now, uuid))
    ensures now <= at <= now + TokenExpirationHours * SecondsPerHour ==> svc.VerifyToken(uuid, at) == Ok(email)
    ensures at > now + TokenExpirationHours * SecondsPerHour ==> svc.VerifyToken(uuid, at) == Err(LinkExpired)
  {
    var t := NewToken(email, TokenExpirationHours, now, uuid);
    assert svc.tokens[uuid] == t;
  }
}
