/**
 * The e-mail verification flow of accounts/utils.py: issuing (or
 * re-issuing) a six-digit code that lives 24 hours, and checking a code a
 * user types in. The clock is the parameter `now`, the draws of
 * `random.choices` are `picks`, and whether `send_mail` succeeded is
 * `mailDelivered`.
 */
module EmailVerificationFlow {
  import opened Wrappers
  import opened Tables
  import opened AccountModels
  import opened AccountStore

  /**
   * The record after `send_verification_email` (lines 14-29): a new one when
   * the pair had none, otherwise the old one reset. Either way it holds
   * `code`, expires 24 hours after `now` and is not verified.
   */
  function Issue(existing: Option<EmailVerification>, code: string, now: Instant): (v: EmailVerification)
    ensures v.code == code && v.expiresAt == now + CodeLifetime
    ensures !v.isVerified && v.verifiedAt == None
    ensures v.createdAt == (if existing.Some? then existing.value.createdAt else now)
  {
    match existing
    case None => EmailVerification(code, now, None, false, now + CodeLifetime)
    case Some(prior) => prior.(code := code, expiresAt := now + CodeLifetime, isVerified := false, verifiedAt := None)
  }

  /** How checking a code ends (lines 62-85). */
  datatype CheckOutcome = Verified | Expired | Invalid {
    function Accepted(): bool {
      this == Verified
    }

    function Message(): string {
      match this
      case Verified => "Email verified successfully!"
      case Expired => "Verification code has expired. Please request a new one."
      case Invalid => "Invalid verification code. Please check and try again."
    }
  }

  /**
   * `EmailVerification.objects.get(user=, email=, code=, is_verified=False)`
   * followed by the expiry test, on the pair's record.
   */
  function CheckCode(record: Option<EmailVerification>, code: string, now: Instant): (o: CheckOutcome)
    ensures o == Invalid <==> record.None? || record.value.code != code || record.value.isVerified
    ensures o == Expired <==>
              record.Some? && record.value.code == code && !record.value.isVerified && IsExpired(record.value, now)
    ensures o == Verified <==>
              record.Some? && record.value.code == code && !record.value.isVerified && now <= record.value.expiresAt
  {
    if record.None? || record.value.code != code || record.value.isVerified then Invalid
    else if IsExpired(record.value, now) then Expired
    else Verified
  }

  /** A code works once: after it verified, the same code is invalid at any later time. */
  lemma SingleUse(v: EmailVerification, code: string, now: Instant, later: Instant)
    requires CheckCode(Some(v), code, now) == Verified
    ensures CheckCode(Some(Verify(v, now)), code, later) == Invalid
  {
  }

  /** A freshly issued code verifies exactly until 24 hours after issue. */
  lemma IssuedCodeVerifiesUntilExpiry(existing: Option<EmailVerification>, code: string, issued: Instant, now: Instant)
    ensures CheckCode(Some(Issue(existing, code, issued)), code, now) == Verified <==> now <= issued + CodeLifetime
    ensures CheckCode(Some(Issue(existing, code, issued)), code, now) == Expired <==> now > issued + CodeLifetime
  {
  }

  /** Re-sending retires the previous code, and re-opens a record that was already verified. */
  lemma ResendRetiresOldCode(v: EmailVerification, oldCode: string, code: string, issued: Instant, now: Instant)
    requires oldCode != code
    ensures CheckCode(Some(Issue(Some(v), code, issued)), oldCode, now) == Invalid
    ensures !Issue(Some(v), code, issued).isVerified
  {
  }

  /**
   * `send_verification_email(user, email)`: the pair's record is created or
   * reset before the mail goes out, and stays so when sending fails; the
   * result is the record, or None when sending failed.
   */
  method SendVerificationEmail(db: Accounts, user: UserId, email: string, picks: seq<nat>, now: Instant,
                               mailDelivered: bool)
    returns (r: Option<EmailVerification>)
    requires |picks| == 6 && forall k :: 0 <= k < 6 ==> picks[k] < 10
    modifies db
    ensures db.users == old(db.users) && db.nextUserId == old(db.nextUserId)
    ensures var key := (user, email);
            var prior := if key in old(db.verifications) then Some(old(db.verifications)[key]) else None;
            db.verifications == old(db.verifications)[key := Issue(prior, GenerateCode(picks), now)]
    ensures r == (if mailDelivered then Some(db.verifications[(user, email)]) else None)
  {
    var code := GenerateCode(picks);
    var key := (user, email);
    var verification: EmailVerification;
    if key in db.verifications {
      verification := db.verifications[key];
      verification := verification.(code := code);
      verification := verification.(expiresAt := now + CodeLifetime);
      verification := verification.(isVerified := false);
      verification := verification.(verifiedAt := None);
    } else {
      verification := EmailVerification(code, now, None, false, now + CodeLifetime);
    }
    db.verifications := db.verifications[key := verification];
    if mailDelivered {
      r := Some(verification);
    } else {
      r := None;
    }
  }

  /**
   * `verify_email_code(user, email, code)`: on success the record is marked
   * verified at `now` and the user's `is_verified` becomes true; an invalid
   * or expired code changes nothing.
   */
  method VerifyEmailCode(db: Accounts, user: UserId, email: string, code: string, now: Instant)
    returns (ok: bool, message: string)
    requires db.Valid() && FindBy(db.users, UserIdOf, user).Some?
    modifies db
    ensures db.Valid() && db.nextUserId == old(db.nextUserId)
    ensures var key := (user, email);
            var outcome := CheckCode(if key in old(db.verifications) then Some(old(db.verifications)[key]) else None,
                                     code, now);
            && ok == outcome.Accepted() && message == outcome.Message()
            && (ok ==>
                  var i := FindBy(old(db.users), UserIdOf, user).value;
                  && db.verifications == old(db.verifications)[key := Verify(old(db.verifications)[key], now)]
                  && db.users == old(db.users)[i := old(db.users)[i].(isVerified := true)])
            && (!ok ==> db.verifications == old(db.verifications) && db.users == old(db.users))
  {
    var key := (user, email);
    var record := if key in db.verifications then Some(db.verifications[key]) else None;
    if record.None? || record.value.code != code || record.value.isVerified {
      return false, Invalid.Message();
    }
    var verification := record.value;
    if IsExpired(verification, now) {
      return false, Expired.Message();
    }
    verification := Verify(verification, now);
    db.verifications := db.verifications[key := verification];
    var i := FindBy(db.users, UserIdOf, user).value;
    var row := db.users[i].(isVerified := true);
    UpdateKeepsUsersValid(db.users, i, row);
    db.users := db.users[i := row];
    ok, message := true, Verified.Message();
  }
}
