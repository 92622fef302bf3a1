/** The service's module-level OTP map and its two request handlers, which
    update that map in place. The clock reading, the random draw and the
    identity provider are passed in. */
module Server {
  import opened JsValue
  import opened OtpLifecycle

  class OtpServer {
    /** email (as submitted) -> code and expiration instant */
    var otpStore: Store

    ghost predicate Valid()
      reads this
    {
      CodesInRange(otpStore)
    }

    constructor ()
      ensures Valid() && otpStore == map[]
    {
      otpStore := map[];
    }

    /** The `/sendOtp` handler: reject a falsy email, otherwise store a fresh
        code under the email (replacing any earlier one) and report it. */
    method SendOtp(email: Json, now: int, draw: real) returns (res: IssueResult)
      requires Valid()
      requires 0.0 <= draw < 1.0
      modifies this
      ensures Valid()
      ensures Step(res, otpStore) == Issue(old(otpStore), email, now, draw)
    {
      if !Truthy(email) {
        return EmailRequired;
      }
      var otpCode := GenerateCode(draw);
      otpStore := otpStore[email := Record(otpCode, now + OtpLifetimeMs)];
      return Issued(otpCode);
    }

    /** The `/verifyOtpAndGenerateToken` handler: reject falsy fields, report
        a missing record, reject a mismatched or expired code, then look the
        user up and mint a token; only when both succeed is the record
        deleted. */
    method VerifyOtpAndGenerateToken(email: Json, otp: Json, now: int, idp: IdentityProvider)
      returns (res: Verdict)
      requires Valid()
      modifies this
      ensures Valid()
      ensures Step(res, otpStore) == Verify(old(otpStore), email, otp, now, idp)
    {
      if !Truthy(email) || !Truthy(otp) {
        return BadRequest;
      }
      if email !in otpStore {
        return NotFound;
      }
      var record := otpStore[email];
      if NumberToString(record.otp) != ToString(otp) || now > record.expiration {
        return InvalidOrExpired;
      }
      var userRecord := idp.getUserByEmail(email);
      if userRecord.None? {
        return ServerError;
      }
      var customToken := idp.createCustomToken(userRecord.value);
      if customToken.None? {
        return ServerError;
      }
      otpStore := otpStore - {email};
      return Ok(customToken.value);
    }
  }
}
