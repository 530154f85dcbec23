/** Session tokens (security.py: sign_session, verify_session), over an uninterpreted HMAC whose hex
    digests contain no dot. */
module Sessions {
  import opened Basics
  import opened Text

  /** hmac(secret, payload) as a hex digest. */
  type Hmac = (string, string) -> string

  ghost predicate DotFree(hmac: Hmac) {
    forall secret, payload :: '.' !in hmac(secret, payload)
  }

  const PREFIX := "sess_"

  function Payload(token: string, expiresAt: int): string {
    token + "." + IntText(expiresAt)
  }

  /** sign_session. */
  function Sign(hmac: Hmac, token: string, secret: string, expiresAt: int): string {
    PREFIX + Payload(token, expiresAt) + "." + hmac(secret, Payload(token, expiresAt))
  }

  datatype Session = Session(token: string, expiresAt: int)

  /** verify_session. */
  function Verify(hmac: Hmac, signed: string, secret: string, now: int): Option<Session> {
    if !(PREFIX <= signed) then None
    else
      var parts := RSplitTwice(signed[|PREFIX|..]);
      if |parts| != 3 then None
      else
        match ParseInt(parts[1])
        case None => None
        case Some(expiresAt) =>
          if parts[2] != hmac(secret, Payload(parts[0], expiresAt)) then None
          else if expiresAt < now then None
          else Some(Session(parts[0], expiresAt))
  }

  lemma {:induction false} VerifyParts(hmac: Hmac, token: string, text: string, sig: string, secret: string, now: int)
    requires '.' !in text && '.' !in sig
    ensures var signed := PREFIX + token + "." + text + "." + sig;
            Verify(hmac, signed, secret, now) ==
            match ParseInt(text)
            case None => None
            case Some(e) => if sig == hmac(secret, Payload(token, e)) && e >= now then Some(Session(token, e)) else None
  {
    hide RSplitTwice, ParseInt, IntText;
    var signed := PREFIX + token + "." + text + "." + sig;
    assert signed[|PREFIX|..] == token + "." + text + "." + sig;
    assert signed[..|PREFIX|] == PREFIX;
    RSplitTwiceJoined(token, text, sig);
  }

  /** Round trip, for every token (dots included) and every expiry: a signed session verifies to what
      was signed exactly until it expires. */
  lemma VerifySign(hmac: Hmac, token: string, secret: string, expiresAt: int, now: int)
    requires DotFree(hmac)
    ensures Verify(hmac, Sign(hmac, token, secret, expiresAt), secret, now) ==
            if expiresAt >= now then Some(Session(token, expiresAt)) else None
  {
    hide Verify, IntText, ParseInt;
    var text, sig := IntText(expiresAt), hmac(secret, Payload(token, expiresAt));
    ParseIntText(expiresAt);
    VerifyParts(hmac, token, text, sig, secret, now);
    assert Sign(hmac, token, secret, expiresAt) == PREFIX + token + "." + text + "." + sig;
  }

  /** So no two sessions share a signed form. */
  lemma SignInjective(hmac: Hmac, s: Session, t: Session, secret: string)
    requires DotFree(hmac)
    requires Sign(hmac, s.token, secret, s.expiresAt) == Sign(hmac, t.token, secret, t.expiresAt)
    ensures s == t
  {
    hide Verify, Sign;
    var now := if s.expiresAt < t.expiresAt then s.expiresAt else t.expiresAt;
    VerifySign(hmac, s.token, secret, s.expiresAt, now);
    VerifySign(hmac, t.token, secret, t.expiresAt, now);
  }

  /** Some text that int() reads as the expiry stands between the token and its digest. */
  ghost predicate Form(hmac: Hmac, signed: string, secret: string, s: Session, text: string) {
    && '.' !in text && ParseInt(text) == Some(s.expiresAt)
    && signed == PREFIX + s.token + "." + text + "." + hmac(secret, s.token + "." + IntText(s.expiresAt))
  }

  lemma VerifiedForm(hmac: Hmac, signed: string, secret: string, now: int, s: Session) returns (text: string)
    requires Verify(hmac, signed, secret, now) == Some(s)
    ensures s.expiresAt >= now && Form(hmac, signed, secret, s, text)
  {
    hide RSplitTwice, ParseInt, IntText;
    var body := signed[|PREFIX|..];
    var parts := RSplitTwice(body);
    RSplitTwiceInverse(body);
    assert signed == PREFIX + body;
    text := parts[1];
    assert signed == PREFIX + parts[0] + "." + parts[1] + "." + parts[2];
  }

  lemma FormVerifies(hmac: Hmac, signed: string, secret: string, now: int, s: Session, text: string)
    requires DotFree(hmac) && s.expiresAt >= now && Form(hmac, signed, secret, s, text)
    ensures Verify(hmac, signed, secret, now) == Some(s)
  {
    hide Verify, ParseInt, IntText;
    VerifyParts(hmac, s.token, text, hmac(secret, Payload(s.token, s.expiresAt)), secret, now);
  }

  /** Exactly which texts verify: the expiry may be written in any way int() accepts, and nothing
      else may differ from the signed form. */
  lemma VerifiedExactly(hmac: Hmac, signed: string, secret: string, now: int, s: Session)
    requires DotFree(hmac)
    ensures Verify(hmac, signed, secret, now) == Some(s) <==>
            s.expiresAt >= now && exists text :: Form(hmac, signed, secret, s, text)
  {
    hide Verify, Form;
    if Verify(hmac, signed, secret, now) == Some(s) {
      var text := VerifiedForm(hmac, signed, secret, now, s);
    }
    if text :| s.expiresAt >= now && Form(hmac, signed, secret, s, text) {
      FormVerifies(hmac, signed, secret, now, s, text);
    }
  }

  /** Different texts have different digests. */
  ghost predicate Injective(hmac: Hmac, secret: string) {
    forall a, b :: hmac(secret, a) == hmac(secret, b) ==> a == b
  }

  /** A text with its last field is cut in one way only. */
  lemma LastFieldUnique(a: string, x: string, b: string, y: string)
    requires '.' !in x && '.' !in y && a + "." + x == b + "." + y
    ensures a == b && x == y
  {
    hide RSplitTwice;
    RSplitTwiceJoined(a, x, "");
    RSplitTwiceJoined(b, y, "");
    assert [a, x, ""][0] == [b, y, ""][0] && [a, x, ""][1] == [b, y, ""][1];
  }

  /** With such an hmac, the digest of one session makes no other session verify: not with another token, and
      not with another expiry. */
  lemma DigestForOneSession(hmac: Hmac, signed: string, secret: string, now: int, s: Session, t: Session, text: string)
    requires DotFree(hmac) && Injective(hmac, secret)
    requires '.' !in text && Verify(hmac, signed, secret, now) == Some(t)
    requires signed == PREFIX + t.token + "." + text + "." + hmac(secret, s.token + "." + IntText(s.expiresAt))
    ensures t == s
  {
    hide Verify, RSplitTwice, ParseInt, IntText;
    var other := VerifiedForm(hmac, signed, secret, now, t);
    SameDigest(t.token, text, hmac(secret, s.token + "." + IntText(s.expiresAt)), other,
               hmac(secret, t.token + "." + IntText(t.expiresAt)), signed);
    LastFieldUnique(s.token, IntText(s.expiresAt), t.token, IntText(t.expiresAt));
    ParseIntText(s.expiresAt);
    ParseIntText(t.expiresAt);
  }

  lemma SameDigest(token: string, x: string, a: string, y: string, b: string, signed: string)
    requires '.' !in x && '.' !in a && '.' !in y && '.' !in b
    requires signed == PREFIX + token + "." + x + "." + a && signed == PREFIX + token + "." + y + "." + b
    ensures a == b
  {
    LastFieldUnique(PREFIX + token + "." + x, a, PREFIX + token + "." + y, b);
  }
}
