# OTP issue and verify: a Dafny model

This project models the one-time-password (OTP) store of a small Express
service (`index.js`). The service issues a six-digit code for an email and
later exchanges that code for a Firebase custom token. The store is a
module-level `Map` from email to `{otp, expiration}`. Two request handlers
change it in place:

- `/sendOtp` (the **issue** step) rejects a missing or falsy email. Otherwise
  it draws `Math.floor(100000 + Math.random() * 900000)`. It stores that code
  with `expiration = Date.now() + 300000` ms under the email exactly as
  submitted, replacing any earlier record, and returns the code.
- `/verifyOtpAndGenerateToken` (the **verify-and-consume** step) rejects a
  falsy email or OTP. It reports "not found" when the email has no record.
  It rejects the code when its string form differs from the stored code's
  string form, or when `now > expiration`; the record is kept in both cases.
  Otherwise it looks the user up and mints a token. Only when both calls
  succeed does it delete the record and return the token. A failure of
  either call becomes a server error, and the record stays.

The model has five modules:

- `Decimal` (`decimal.dfy`) renders a natural number in base ten, reads a
  numeral back, and proves the two round trips, injectivity and the length
  of the rendering.
- `JsValue` (`js_value.dfy`) covers the JSON values a body field can hold,
  JavaScript truthiness (`!x`) and `toString()`. It proves when a submitted
  value's string form equals a code's rendering.
- `OtpLifecycle` (`otp_lifecycle.dfy`) has the pure step functions `Issue`
  and `Verify`. Each maps the old store and the inputs to an outcome and a
  new store. Their contracts give the outcome for every case and say what
  the new store holds.
- `Server` (`server.dfy`) has the class `OtpServer` with the `otpStore`
  field. Its methods `SendOtp` and `VerifyOtpAndGenerateToken` follow the
  handlers' early-return control flow and update the field in place. Each is
  proved to produce exactly the outcome and store that `Issue` or `Verify`
  gives.
- `OtpProperties` (`otp_properties.dfy`) proves properties of sequences of
  steps: re-issuing replaces the code, a success is single-use, a failure
  leaves no trace, a retry after a server error works, and emails are keys
  taken verbatim.

Several inputs become parameters. The clock (`Date.now()`) is `now: int`, in
milliseconds. The random draw (`Math.random()`) is `draw: real`, with
`0.0 <= draw < 1.0`. The Firebase calls `getUserByEmail` and
`createCustomToken` form an `IdentityProvider`: two total functions, each of
which either resolves (`Some`) or rejects (`None`). HTTP responses become the
datatypes `IssueResult` (`EmailRequired | Issued(otp)`) and `Verdict`
(`BadRequest | NotFound | InvalidOrExpired | ServerError | Ok(token)`).

Request fields are JSON values (`Undefined | Null | Bool | Num | Str`). This
matters for two reasons. Truthiness differs by type: `0` and `""` are falsy,
`"0"` is not. Also the code comparison works on string forms, so a numeric
`123456` and the string `"123456"` both match a stored 123456. The strings
`"0123456"` and `"123456 "` do not. The store is keyed by that JSON value.
JavaScript's `Map` compares keys by SameValueZero, which for these values is
plain equality.

Some behaviours an OTP service might be expected to have are absent from the
code, and the model follows the code:

- No email is normalised. `"User@x"` and `"user@x"` are different keys.
- A code is still accepted at exactly `now == expiration`. The test is
  `now > expiration`.
- A mismatched or expired record is not deleted when it is detected.
- A user that cannot be found is a server error, not a separate outcome.
- There is no standalone Consume and no password-change flow.

## Model

| member | source | states |
|---|---|---|
| `Server.OtpServer.constructor` | index.js:19 | The store starts empty, and the invariant that every stored code has six digits holds. |
| `Server.OtpServer.SendOtp` | index.js:21-44 | The handler's outcome and the store it leaves are exactly those of `Issue` on the old store, and the six-digit invariant is kept. |
| `Server.OtpServer.VerifyOtpAndGenerateToken` | index.js:47-88 | The handler's outcome and the store it leaves are exactly those of `Verify` on the old store, and the six-digit invariant is kept. |
| `OtpLifecycle.Issue` | index.js:23-39 | The result is EmailRequired iff the email is falsy, and then the store is unchanged. Otherwise the returned code is in [100000, 999999]. The email maps to that code with expiration `now + 300000`, overwriting any earlier record. The key set grows by at most that email. Every other record is unchanged, and the six-digit invariant is preserved. |
| `OtpLifecycle.GenerateCode` | index.js:29 | For a draw in [0, 1), the code is in [100000, 999999] and its decimal rendering has exactly six characters. |
| `OtpLifecycle.EveryCodeDrawable` | index.js:29 | Every code in [100000, 999999] comes from some draw in [0, 1), so no code is unreachable. |
| `OtpLifecycle.Verify` | index.js:49-87 | The five outcomes split the inputs exactly. BadRequest iff email or OTP is falsy. NotFound iff there is no record for the email as submitted. InvalidOrExpired iff the record fails the string-and-expiry test. ServerError iff the test passes but the lookup or the minting fails. Ok iff both succeed, carrying the minted token. Only Ok changes the store: it removes exactly that email, and every other record is unchanged. The six-digit invariant is preserved. |
| `OtpLifecycle.AcceptsIff` | index.js:66-69 | Over the modelled `Json` values (no objects or arrays), a submission passes the test iff it is the stored number or that number's canonical numeral, and `now <= expiration`. The expiration instant itself still passes. |
| `OtpLifecycle.StoredRecordAcceptsIff` | index.js:56-69 | Under the store invariant that every stored code has six digits, that exact-acceptance statement holds for the record of every email in the store. |
| `OtpLifecycle.Exchange` | index.js:76-78 | A token results iff the user lookup resolves and minting for the returned uid resolves. |
| `JsValue.NumberToString` | index.js:67 | `toString()` of an integer starts with '-' iff the integer is negative, and is a canonical numeral otherwise. |
| `JsValue.ToString` | index.js:67 | `toString()` of a string is the string itself. |
| `JsValue.NumberToStringInjective` | index.js:67 | Two integers have equal `toString()` forms iff they are equal. |
| `JsValue.StringFormMatchesNumber` | index.js:67 | Over the modelled `Json` values (no objects or arrays), a truthy submission's string form equals a natural number's rendering iff it is that number or that number's numeral. Booleans, negative numbers, other numbers and other strings never match. |
| `JsValue.StringSubmissionDenotes` | index.js:67 | A submitted string matches a code's rendering iff it is a canonical numeral (no leading zero, digits only) whose value is the code. |
| `Decimal.NatToDecimal` | index.js:67 | The rendering of a natural number is a non-empty string of digits with no leading zero, except for 0 itself. |
| `Decimal.DecimalValueOfNatToDecimal` | index.js:67 | Reading back a rendered number gives the number. |
| `Decimal.NatToDecimalOfDecimalValue` | index.js:67 | Rendering the value of a canonical numeral gives the numeral back. |
| `Decimal.NatToDecimalInjective` | index.js:67 | Two natural numbers render alike iff they are equal. |
| `Decimal.NatToDecimalLength` | index.js:29 | A number with 10^(k-1) <= n < 10^k renders as exactly k digits. |
| `OtpProperties.ReissueReplacesCode` | index.js:31-34 | After issuing twice for one email, a submission that reads as the first code is rejected iff the two codes differ or `now` is past the second expiration. The old code survives only by an equal draw. |
| `OtpProperties.IssuedCodeVerifies` | index.js:31-83 | A freshly issued code, sent as a number or as its numeral, is InvalidOrExpired iff `now > t + 300000`. It is Ok iff it is not expired and the exchange resolves. Success leaves the store as before the issue, without that email. |
| `OtpProperties.SuccessConsumesRecord` | index.js:56-83 | After an Ok, any verification for the same email with a truthy OTP is NotFound. |
| `OtpProperties.FailureLeavesNoTrace` | index.js:50-86 | After any outcome other than Ok, every later verification, for any email, has the outcome and store it would have had without the failed one. |
| `OtpProperties.RetryAfterServerError` | index.js:66-86 | After a ServerError, the same submission succeeds once the identity provider answers, as long as `now` is still at most the expiration. |
| `OtpProperties.IssueLeavesOtherEmails` | index.js:31-56 | Issuing for one email never changes the verification outcome for any other key. Keys are used verbatim. |
| `OtpProperties.EmailsAreCaseSensitive` | index.js:31-63 | A code issued for "user@example.com" is NotFound under "User@example.com". |

## Left out

- Express setup, JSON body parsing, HTTP status codes and `app.listen` (index.js:1-9, index.js:90-92) are transport. Responses are modelled as outcome datatypes.
- Firebase Admin initialisation (index.js:12-16) is left out. The two Firebase calls are an oracle that resolves or rejects; their internals are foreign code.
- The email delivery step is an empty placeholder in the source (index.js:36-37) and is not modelled.
- The `catch` branch of `/sendOtp` (index.js:40-42) is not modelled: nothing in its `try` block can throw once the body is parsed.
- `console.error` logging (index.js:41, index.js:85) is left out.
- Concurrency is left out. Two verifications in flight across the `await`s at index.js:76-78 could both pass the check before either deletes the record. The model runs steps one at a time.
- GenerateCode: the random draw is an exact real number, not an IEEE-754 double. For the largest double below 1 the double computation also floors to 999999, so the range claim is unaffected. Uniformity of the distribution is not stated; only that every code is reachable.
- Numbers in request fields are integers. Fractions, NaN, Infinity, and the exponent notation `toString()` uses from 10^21 upwards are not modelled; none of them renders as a six-digit numeral.
- Objects and arrays in request fields are not modelled, and the program treats them differently from every modelled value:
  - A one-element array OTP such as `[123456]` or `["123456"]` renders as `"123456"` at index.js:67, so the program accepts it. The "iff" of AcceptsIff and StringFormMatchesNumber ranges only over the modelled values.
  - A JSON object OTP with a `"toString"` key makes index.js:67 throw. The program then answers 500 and keeps the record.
  - An array or object email is stored at index.js:31 under a fresh object key. The lookup at index.js:56 compares keys by identity, so it can never find that record again.
- Email normalisation, lazy deletion of expired records, a standalone Consume and a password-change flow are not modelled, because the code has none of them.
