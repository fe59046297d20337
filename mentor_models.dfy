/**
 * The mentorship data model (mentors/models.py): mentor profiles,
 * mentorship requests, sessions and goals, their status choices and
 * defaults, and the one-request-per-pair constraint.
 */
module MentorModels {
  import opened Wrappers
  import opened Tables
  import opened AccountModels

  type MentorId = nat
  type RequestId = nat

  /** `Mentor.status`. */
  datatype MentorStatus = Pending | Active | Inactive | Suspended {
    function Value(): string {
      match this
      case Pending => "pending"
      case Active => "active"
      case Inactive => "inactive"
      case Suspended => "suspended"
    }
  }

  function ParseMentorStatus(s: string): (r: Option<MentorStatus>)
    ensures r.Some? ==> r.value.Value() == s
    ensures r.None? ==> forall x: MentorStatus :: x.Value() != s
  {
    if s == "pending" then Some(MentorStatus.Pending)
    else if s == "active" then Some(Active)
    else if s == "inactive" then Some(Inactive)
    else if s == "suspended" then Some(Suspended)
    else None
  }

  /** `MentorshipRequest.status`. */
  datatype RequestStatus = Pending | Accepted | Rejected | Cancelled {
    function Value(): string {
      match this
      case Pending => "pending"
      case Accepted => "accepted"
      case Rejected => "rejected"
      case Cancelled => "cancelled"
    }

    /** The statuses the views treat as an open request: pending or accepted. */
    predicate IsOpen() {
      this == RequestStatus.Pending || this == Accepted
    }
  }

  function ParseRequestStatus(s: string): (r: Option<RequestStatus>)
    ensures r.Some? ==> r.value.Value() == s
    ensures r.None? ==> forall x: RequestStatus :: x.Value() != s
  {
    if s == "pending" then Some(RequestStatus.Pending)
    else if s == "accepted" then Some(Accepted)
    else if s == "rejected" then Some(Rejected)
    else if s == "cancelled" then Some(RequestStatus.Cancelled)
    else None
  }

  /** `MentorshipSession.status`. */
  datatype SessionStatus = Scheduled | Completed | Cancelled | Rescheduled {
    function Value(): string {
      match this
      case Scheduled => "scheduled"
      case Completed => "completed"
      case Cancelled => "cancelled"
      case Rescheduled => "rescheduled"
    }
  }

  function ParseSessionStatus(s: string): (r: Option<SessionStatus>)
    ensures r.Some? ==> r.value.Value() == s
    ensures r.None? ==> forall x: SessionStatus :: x.Value() != s
  {
    if s == "scheduled" then Some(Scheduled)
    else if s == "completed" then Some(SessionStatus.Completed)
    else if s == "cancelled" then Some(SessionStatus.Cancelled)
    else if s == "rescheduled" then Some(Rescheduled)
    else None
  }

  /** `MentorshipGoal.status`. */
  datatype GoalStatus = InProgress | Completed | OnHold {
    function Value(): string {
      match this
      case InProgress => "in_progress"
      case Completed => "completed"
      case OnHold => "on_hold"
    }
  }

  function ParseGoalStatus(s: string): (r: Option<GoalStatus>)
    ensures r.Some? ==> r.value.Value() == s
    ensures r.None? ==> forall x: GoalStatus :: x.Value() != s
  {
    if s == "in_progress" then Some(InProgress)
    else if s == "completed" then Some(GoalStatus.Completed)
    else if s == "on_hold" then Some(OnHold)
    else None
  }

  /** `MentorshipSession.meeting_type`. */
  datatype MeetingType = Video | InPerson | Phone

  /** Field defaults declared on the models. */
  const DefaultMaxMentees: int := 10
  const DefaultLanguages: string := "English"
  const DefaultSessionMinutes: int := 60
  const DefaultSessionStatus: SessionStatus := Scheduled
  const DefaultMeetingType: MeetingType := Video
  const DefaultGoalStatus: GoalStatus := InProgress

  /**
   * A compatibility score as the ratio behind it: `matches` of the mentee's
   * `total` skill tokens found a partner; the score is 0 when `total` is 0.
   */
  datatype Score = Score(matches: nat, total: nat) {
    /** `(matches / total) * 100` before rounding, or 0. */
    function Percent(): real {
      if total == 0 then 0.0 else (matches as real / total as real) * 100.0
    }
  }

  /** A `Mentor` row. `hourlyRate` is kept as the stripped text `float()` accepted. */
  datatype Mentor = Mentor(
    id: MentorId,
    user: UserId,
    bio: string,
    expertiseAreas: string,
    yearsOfExperience: int,
    currentPosition: string,
    company: string,
    industry: string,
    languages: string,
    availabilityHours: string,
    maxMentees: int,
    hourlyRate: string,
    isVerified: bool,
    status: MentorStatus,
    totalSessions: int,
    totalMentees: int)

  /** A `MentorshipRequest` row. */
  datatype MentorshipRequest = MentorshipRequest(
    id: RequestId,
    mentee: UserId,
    mentor: MentorId,
    message: string,
    goals: string,
    status: RequestStatus,
    matchScore: Score,
    respondedAt: Option<Instant>)

  /** A `MentorshipSession` row. */
  datatype MentorshipSession = MentorshipSession(
    mentorship: RequestId,
    scheduledAt: Instant,
    durationMinutes: int,
    meetingType: MeetingType,
    status: SessionStatus)

  /** A `MentorshipGoal` row. */
  datatype MentorshipGoal = MentorshipGoal(
    mentorship: RequestId,
    title: string,
    status: GoalStatus,
    progressPercentage: int)

  /** The key of `unique_together = [['mentee', 'mentor']]`. */
  function PairKey(r: MentorshipRequest): (UserId, MentorId) {
    (r.mentee, r.mentor)
  }

  /** The requests table: one row per (mentee, mentor) pair, distinct ids. */
  predicate RequestsValid(rows: seq<MentorshipRequest>) {
    && UniqueBy(rows, PairKey)
    && forall i, j :: 0 <= i < j < |rows| ==> rows[i].id != rows[j].id
  }
}
