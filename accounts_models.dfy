/**
 * The accounts data model (accounts/models.py): users and their roles,
 * job-seeker profiles, and e-mail verification records.
 */
module AccountModels {
  import opened Wrappers
  import opened Text

  type UserId = nat

  /** An instant, in microseconds (the resolution of Django's DateTimeField). */
  type Instant = int

  const HourMicros: int := 3_600_000_000

  /** `timedelta(hours=24)`: how long a verification code stays usable. */
  const CodeLifetime: int := 24 * HourMicros

  /** `User.role`; the stored values are the lower-case strings. */
  datatype Role = Youth | Employer | Institution | Admin {
    function Value(): string {
      match this
      case Youth => "youth"
      case Employer => "employer"
      case Institution => "institution"
      case Admin => "admin"
    }
  }

  /** A new user's role when none is given. */
  const DefaultRole: Role := Youth

  /** A new user has not verified an e-mail address yet (`is_verified`, accounts/models.py line 19). */
  const DefaultIsVerified: bool := false

  /** Reads a stored role value back; only the four choices are roles. */
  function ParseRole(s: string): (r: Option<Role>)
    ensures r.Some? ==> r.value.Value() == s
    ensures r.None? ==> forall x: Role :: x.Value() != s
  {
    if s == "youth" then Some(Youth)
    else if s == "employer" then Some(Employer)
    else if s == "institution" then Some(Institution)
    else if s == "admin" then Some(Admin)
    else None
  }

  lemma ParseRoleValue(x: Role)
    ensures ParseRole(x.Value()) == Some(x)
  {
  }

  /**
   * One row of the users table. `password` is the password last set
   * (Django keeps a salted hash of it).
   */
  datatype UserRecord = UserRecord(
    id: UserId,
    username: string,
    email: string,
    password: string,
    role: Role,
    isStaff: bool,
    isSuperuser: bool,
    isActive: bool,
    isVerified: bool)

  /** A job seeker's profile; `skills` is comma-separated free text. */
  datatype JobSeekerProfile = JobSeekerProfile(
    user: UserId,
    educationLevel: string,
    skills: string,
    interests: string,
    bio: string)

  /** The related name under which a User reaches its JobSeekerProfile. */
  const JobSeekerRelation: string := "job_seeker_profile"

  /**
   * `hasattr(user, name) and getattr(user, name)` for a profile-valued
   * attribute: the only reverse relation of User that leads to a
   * JobSeekerProfile is `job_seeker_profile`; any other name is no attribute.
   */
  function RelatedProfile(profiles: map<UserId, JobSeekerProfile>, user: UserId, relatedName: string)
    : (r: Option<JobSeekerProfile>)
    ensures r.Some? <==> relatedName == JobSeekerRelation && user in profiles
    ensures r.Some? ==> r.value == profiles[user]
  {
    if relatedName == JobSeekerRelation && user in profiles then Some(profiles[user]) else None
  }

  /** An `EmailVerification` row, without the (user, email) pair that identifies it. */
  datatype EmailVerification = EmailVerification(
    code: string,
    createdAt: Instant,
    verifiedAt: Option<Instant>,
    isVerified: bool,
    expiresAt: Instant)

  predicate IsCodeDigits(code: string) {
    |code| == 6 && forall k :: 0 <= k < 6 ==> IsDigit(code[k])
  }

  /**
   * `generate_code`: six independent draws from `string.digits`; `picks`
   * are the indices `random.choices` drew.
   */
  function GenerateCode(picks: seq<nat>): (code: string)
    requires |picks| == 6 && forall k :: 0 <= k < 6 ==> picks[k] < 10
    ensures IsCodeDigits(code)
    ensures forall k :: 0 <= k < 6 ==> code[k] == "0123456789"[picks[k]]
  {
    seq(6, k requires 0 <= k < 6 => "0123456789"[picks[k]])
  }

  /** Every six-digit code is one `generate_code` can return. */
  lemma EveryCodeCanBeGenerated(code: string)
    requires IsCodeDigits(code)
    ensures exists picks: seq<nat> ::
              |picks| == 6 && (forall k :: 0 <= k < 6 ==> picks[k] < 10) && GenerateCode(picks) == code
  {
    var picks: seq<nat> := seq(6, k requires 0 <= k < 6 => code[k] as int - '0' as int);
    assert forall k :: 0 <= k < 6 ==> "0123456789"[picks[k]] == code[k];
    assert GenerateCode(picks) == code;
  }

  /** `is_expired`: the code is stale once `now` is strictly after `expiresAt`. */
  predicate IsExpired(v: EmailVerification, now: Instant) {
    now > v.expiresAt
  }

  /** Once expired, a record stays expired; at `expiresAt` itself it is not. */
  lemma ExpiryIsPermanent(v: EmailVerification, now: Instant, later: Instant)
    requires now <= later
    ensures IsExpired(v, now) ==> IsExpired(v, later)
    ensures !IsExpired(v, v.expiresAt)
  {
  }

  /** `verify`: the record after `is_verified = True; verified_at = now; save()`. */
  function Verify(v: EmailVerification, now: Instant): (r: EmailVerification)
    ensures r.isVerified && r.verifiedAt == Some(now)
    ensures r.code == v.code && r.createdAt == v.createdAt && r.expiresAt == v.expiresAt
  {
    v.(isVerified := true, verifiedAt := Some(now))
  }
}
