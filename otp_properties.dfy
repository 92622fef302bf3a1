/** Properties of sequences of issue and verify steps on the OTP store. */
module OtpProperties {
  import opened Decimal
  import opened JsValue
  import opened OtpLifecycle

  /** Issuing again for the same email replaces the record: a submission
      that reads as the first code is then rejected unless the second draw
      happened to give the same code, and the expiration is counted from
      the second issue. */
  lemma ReissueReplacesCode(store: Store, email: Json, t1: int, r1: real, t2: int, r2: real,
                            otp: Json, now: int, idp: IdentityProvider)
    requires Truthy(email) && Truthy(otp)
    requires 0.0 <= r1 < 1.0 && 0.0 <= r2 < 1.0
    requires ToString(otp) == NumberToString(GenerateCode(r1))
    ensures var first := Issue(store, email, t1, r1);
            var second := Issue(first.store, email, t2, r2);
            Verify(second.store, email, otp, now, idp).result == InvalidOrExpired <==>
              GenerateCode(r1) != GenerateCode(r2) || now > t2 + OtpLifetimeMs
  {
    NumberToStringInjective(GenerateCode(r1), GenerateCode(r2));
  }

  /** A code that has just been issued is accepted, as the number or as its
      numeral, up to and including the expiration instant; then the
      exchange decides, and success leaves the store as it was before the
      issue, less any earlier record for the email. */
  lemma IssuedCodeVerifies(store: Store, email: Json, t: int, draw: real,
                           now: int, idp: IdentityProvider, asNumber: bool)
    requires Truthy(email) && 0.0 <= draw < 1.0
    ensures var issued := Issue(store, email, t, draw);
            var code := GenerateCode(draw);
            var otp := if asNumber then Num(code) else Str(NatToDecimal(code));
            var verified := Verify(issued.store, email, otp, now, idp);
            && (verified.result == InvalidOrExpired <==> now > t + OtpLifetimeMs)
            && (verified.result.Ok? <==> now <= t + OtpLifetimeMs && Exchange(idp, email).Some?)
            && (verified.result.Ok? ==> verified.store == store - {email})
  {
  }

  /** Consumption is single-use: after a successful verification, any
      further well-formed verification for the same email finds no record. */
  lemma SuccessConsumesRecord(store: Store, email: Json, otp: Json, now: int, idp: IdentityProvider,
                              otp2: Json, now2: int, idp2: IdentityProvider)
    requires Verify(store, email, otp, now, idp).result.Ok?
    requires Truthy(otp2)
    ensures Verify(Verify(store, email, otp, now, idp).store, email, otp2, now2, idp2).result == NotFound
  {
  }

  /** A verification that does not succeed (bad request, no record, wrong
      or expired code, failed exchange) leaves nothing behind: every later
      verification has the outcome it would have had without it. In
      particular a failed exchange or a wrong guess keeps the record, so a
      later correct verification can still succeed. */
  lemma FailureLeavesNoTrace(store: Store, email: Json, otp: Json, now: int, idp: IdentityProvider,
                             email2: Json, otp2: Json, now2: int, idp2: IdentityProvider)
    requires !Verify(store, email, otp, now, idp).result.Ok?
    ensures Verify(Verify(store, email, otp, now, idp).store, email2, otp2, now2, idp2) ==
            Verify(store, email2, otp2, now2, idp2)
  {
  }

  /** After the exchange fails, retrying with the same code before it
      expires succeeds as soon as the identity provider answers. */
  lemma RetryAfterServerError(store: Store, email: Json, otp: Json, now: int, idp: IdentityProvider,
                              now2: int, idp2: IdentityProvider)
    requires Verify(store, email, otp, now, idp).result == ServerError
    requires now2 <= store[email].expiration && Exchange(idp2, email).Some?
    ensures Verify(Verify(store, email, otp, now, idp).store, email, otp, now2, idp2).result.Ok?
  {
  }

  /** Emails are keys as submitted, with no normalisation: issuing for one
      email does not change the outcome of verifying any other. */
  lemma IssueLeavesOtherEmails(store: Store, email: Json, t: int, draw: real,
                               other: Json, otp: Json, now: int, idp: IdentityProvider)
    requires 0.0 <= draw < 1.0 && other != email
    ensures Verify(Issue(store, email, t, draw).store, other, otp, now, idp).result ==
            Verify(store, other, otp, now, idp).result
  {
  }

  /** A code issued for "user@example.com" is not found under
      "User@example.com". */
  lemma EmailsAreCaseSensitive(t: int, draw: real, otp: Json, now: int, idp: IdentityProvider)
    requires 0.0 <= draw < 1.0 && Truthy(otp)
    ensures Verify(Issue(map[], Str("user@example.com"), t, draw).store,
                   Str("User@example.com"), otp, now, idp).result == NotFound
  {
  }
}
