/** The OTP store of the service as values: what issuing a code and
    verifying-and-consuming one do to the map from email to record, and the
    outcome each reports. The `Server` module runs these steps in place on
    the service's `otpStore` field. */
module OtpLifecycle {
  import opened Decimal
  import opened JsValue

  /** A code stays valid for five minutes, in milliseconds. */
  const OtpLifetimeMs: int := 5 * 60 * 1000
  const MinCode: int := 100000
  const MaxCode: int := 999999

  /** What is stored per email: the numeric code and the last instant (ms)
      at which it is still accepted. */
  datatype Record = Record(otp: int, expiration: int)

  /** The store is keyed by the email field exactly as submitted. */
  type Store = map<Json, Record>

  type Uid = string
  type Token = string

  datatype Option<T> = None | Some(value: T)

  /** The two identity-provider calls, each of which either resolves or
      rejects: looking a user up by email, and minting a custom token for a
      user id. */
  datatype IdentityProvider = IdentityProvider(
    getUserByEmail: Json -> Option<Uid>,
    createCustomToken: Uid -> Option<Token>)

  /** Outcome of issuing: the email was missing or empty, or a code was
      stored and is reported back. */
  datatype IssueResult = EmailRequired | Issued(otp: int)

  /** Outcome of verifying, in place of the HTTP status and body. */
  datatype Verdict = BadRequest | NotFound | InvalidOrExpired | ServerError | Ok(token: Token)

  /** The outcome of one operation together with the store it leaves. */
  datatype Step<R> = Step(result: R, store: Store)

  /** Every stored code is a six-digit number. */
  ghost predicate CodesInRange(store: Store) {
    forall k :: k in store ==> MinCode <= store[k].otp <= MaxCode
  }

  /** `Math.floor(100000 + r * 900000)` for a draw `r` in [0, 1). */
  function GenerateCode(draw: real): (code: int)
    requires 0.0 <= draw < 1.0
    ensures MinCode <= code <= MaxCode
    ensures |NumberToString(code)| == 6
  {
    var code := (100000.0 + draw * 900000.0).Floor;
    assert Pow10(5) == 100000 && Pow10(6) == 1000000;
    NatToDecimalLength(code, 6);
    code
  }

  /** Every six-digit code is produced by some draw. */
  lemma EveryCodeDrawable(code: int)
    requires MinCode <= code <= MaxCode
    ensures 0.0 <= (code - MinCode) as real / 900000.0 < 1.0
    ensures GenerateCode((code - MinCode) as real / 900000.0) == code
  {
  }

  /** The test of a submitted OTP against a record at time `now`: the string
      forms agree and the expiration instant has not been passed. */
  predicate Accepts(rec: Record, otp: Json, now: int)
    requires Truthy(otp)
  {
    ToString(otp) == NumberToString(rec.otp) && now <= rec.expiration
  }

  /** Against a stored (non-negative) code, a submission is accepted exactly
      when it is that number or its canonical numeral, and `now` is at most
      the expiration instant: the instant itself still counts. */
  lemma AcceptsIff(rec: Record, otp: Json, now: int)
    requires Truthy(otp) && rec.otp >= 0
    ensures Accepts(rec, otp, now) <==>
              (otp == Num(rec.otp) || otp == Str(NatToDecimal(rec.otp))) && now <= rec.expiration
  {
    StringFormMatchesNumber(otp, rec.otp);
  }

  /** The exact-acceptance statement applies to every record of a store
      whose codes are all six-digit numbers, as every store the service
      builds is. */
  lemma StoredRecordAcceptsIff(store: Store, email: Json, otp: Json, now: int)
    requires CodesInRange(store) && email in store && Truthy(otp)
    ensures var rec := store[email];
            Accepts(rec, otp, now) <==>
              (otp == Num(rec.otp) || otp == Str(NatToDecimal(rec.otp))) && now <= rec.expiration
  {
    AcceptsIff(store[email], otp, now);
  }

  /** Looking the user up and minting a token: a token when both calls
      resolve, nothing when either rejects. */
  function Exchange(idp: IdentityProvider, email: Json): (t: Option<Token>)
    ensures t.Some? <==>
              idp.getUserByEmail(email).Some? &&
              idp.createCustomToken(idp.getUserByEmail(email).value).Some?
  {
    match idp.getUserByEmail(email)
    case None => None
    case Some(uid) => idp.createCustomToken(uid)
  }

  /** Issuing a code for `email` at time `now` with random draw `draw`. */
  function Issue(store: Store, email: Json, now: int, draw: real): (s: Step<IssueResult>)
    requires 0.0 <= draw < 1.0
    ensures s.result == EmailRequired <==> !Truthy(email)
    ensures s.result == EmailRequired ==> s.store == store
    ensures s.result.Issued? ==>
              && MinCode <= s.result.otp <= MaxCode
              && email in s.store
              && s.store[email] == Record(s.result.otp, now + OtpLifetimeMs)
              && s.store.Keys == store.Keys + {email}
    ensures forall k :: k in store && k != email ==> k in s.store && s.store[k] == store[k]
    ensures CodesInRange(store) ==> CodesInRange(s.store)
  {
    if !Truthy(email) then
      Step(EmailRequired, store)
    else
      var code := GenerateCode(draw);
      Step(Issued(code), store[email := Record(code, now + OtpLifetimeMs)])
  }

  /** Verifying `otp` for `email` at time `now` and, when it is accepted,
      exchanging it for a token and consuming the record. */
  function Verify(store: Store, email: Json, otp: Json, now: int, idp: IdentityProvider): (s: Step<Verdict>)
    ensures s.result == BadRequest <==> !Truthy(email) || !Truthy(otp)
    ensures s.result == NotFound <==> Truthy(email) && Truthy(otp) && email !in store
    ensures s.result == InvalidOrExpired <==>
              Truthy(email) && Truthy(otp) && email in store && !Accepts(store[email], otp, now)
    ensures s.result == ServerError <==>
              Truthy(email) && Truthy(otp) && email in store && Accepts(store[email], otp, now) &&
              Exchange(idp, email) == None
    ensures s.result.Ok? <==>
              Truthy(email) && Truthy(otp) && email in store && Accepts(store[email], otp, now) &&
              Exchange(idp, email).Some?
    ensures s.result.Ok? ==> Exchange(idp, email) == Some(s.result.token)
    ensures s.result.Ok? ==> s.store.Keys == store.Keys - {email}
    ensures !s.result.Ok? ==> s.store == store
    ensures forall k :: k in store && k != email ==> k in s.store && s.store[k] == store[k]
    ensures CodesInRange(store) ==> CodesInRange(s.store)
  {
    if !Truthy(email) || !Truthy(otp) then
      Step(BadRequest, store)
    else if email !in store then
      Step(NotFound, store)
    else if !Accepts(store[email], otp, now) then
      Step(InvalidOrExpired, store)
    else
      match Exchange(idp, email)
      case None => Step(ServerError, store)
      case Some(token) => Step(Ok(token), store - {email})
  }
}
