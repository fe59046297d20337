/**
 * The mentorship request lifecycle of mentors/views.py: a job seeker asks a
 * mentor for mentorship (`mentorship_detail_view`), the mentor accepts or
 * rejects (`my_mentorships_view`), and an employer or institution registers
 * as a mentor (`mentor_register_view`).
 */
module Mentorship {
  import opened Wrappers
  import opened Text
  import opened Tables
  import opened AccountModels
  import opened MentorModels
  import opened MentorMatching

  /** Employers and institutions may act as mentors. */
  predicate IsMentorRole(role: Role) {
    role == Employer || role == Institution
  }

  /** The mentors table: distinct ids, and at most one profile per user (the one-to-one `user`). */
  predicate MentorsValid(mentors: seq<Mentor>) {
    forall i, j :: 0 <= i < j < |mentors| ==> mentors[i].id != mentors[j].id && mentors[i].user != mentors[j].user
  }

  /** A mentor row's primary key. */
  function MentorIdOf(m: Mentor): MentorId {
    m.id
  }

  /** The user a mentor profile belongs to (`Mentor.user`, one-to-one). */
  function MentorUserOf(m: Mentor): UserId {
    m.user
  }

  /** The row of request `id` addressed to mentor `mentor` (`get_object_or_404(..., id=, mentor=)`). */
  function FindRequest(requests: seq<MentorshipRequest>, id: int, mentor: MentorId): (r: Option<nat>)
    ensures r.Some? ==> r.value < |requests| && requests[r.value].id == id && requests[r.value].mentor == mentor
    ensures r.None? <==> forall k :: 0 <= k < |requests| ==> requests[k].id != id || requests[k].mentor != mentor
  {
    if requests == [] then None
    else if requests[|requests| - 1].id == id && requests[|requests| - 1].mentor == mentor then Some(|requests| - 1)
    else FindRequest(requests[..|requests| - 1], id, mentor)
  }

  /** `get_object_or_404(Mentor, id=mentor_id, status='active')` succeeds. */
  predicate ActiveMentor(mentors: seq<Mentor>, id: MentorId) {
    var i := FindBy(mentors, MentorIdOf, id);
    i.Some? && mentors[i.value].status == Active
  }

  /** The guard as the view writes it: no pending or accepted request for the pair. */
  predicate MayCreateAsWritten(requests: seq<MentorshipRequest>, mentee: UserId, mentor: MentorId) {
    !HasOpenRequest(requests, mentee, mentor)
  }

  /** The guard the table's constraint calls for: no request at all for the pair. */
  predicate MayCreate(requests: seq<MentorshipRequest>, mentee: UserId, mentor: MentorId) {
    !HasKey(requests, PairKey, (mentee, mentor))
  }

  /** The request `MentorshipRequest.objects.create(...)` makes: pending, not yet answered. */
  function NewRequest(id: RequestId, mentee: UserId, mentor: Mentor, message: string, goals: string,
                      tokens: seq<string>): (r: MentorshipRequest)
    ensures r.status == RequestStatus.Pending && r.respondedAt == None
    ensures PairKey(r) == (mentee, mentor.id) && r.id == id
    ensures r.matchScore == MatchScore(tokens, mentor.expertiseAreas)
  {
    MentorshipRequest(id, mentee, mentor.id, message, goals, RequestStatus.Pending,
                      MatchScore(tokens, mentor.expertiseAreas), None)
  }

  /**
   * The view's guard lets a second request through once the first was
   * rejected or cancelled, and the INSERT then violates the pair constraint.
   */
  lemma AsWrittenGuardAdmitsDuplicate()
    ensures
      var mentor := Mentor(3, 9, "bio", "Python", 0, "", "", "", "English", "", 10, "0.00", true, Active, 0, 0);
      var closed := MentorshipRequest(1, 7, 3, "hello", "a job", Rejected, Score(0, 0), Some(0));
      var again := NewRequest(2, 7, mentor, "hello again", "a job", []);
      && MayCreateAsWritten([closed], 7, 3)
      && Insert([closed], again, PairKey) == Err(IntegrityError)
  {
    var closed := MentorshipRequest(1, 7, 3, "hello", "a job", Rejected, Score(0, 0), Some(0));
    assert PairKey([closed][0]) == (7, 3);
  }

  /** Under the corrected guard the INSERT never violates the pair constraint. */
  lemma MayCreateNeverCollides(requests: seq<MentorshipRequest>, row: MentorshipRequest)
    requires UniqueBy(requests, PairKey)
    requires MayCreate(requests, row.mentee, row.mentor)
    ensures Insert(requests, row, PairKey).Ok?
    ensures UniqueBy(Insert(requests, row, PairKey).value, PairKey)
  {
  }

  /** A new request with a fresh id for a pair the guard admits keeps the table valid. */
  lemma AppendKeepsRequestsValid(requests: seq<MentorshipRequest>, row: MentorshipRequest, nextId: RequestId)
    requires RequestsValid(requests) && MayCreate(requests, row.mentee, row.mentor)
    requires forall k :: 0 <= k < |requests| ==> requests[k].id < nextId
    requires row.id == nextId
    ensures RequestsValid(requests + [row])
    ensures forall k :: 0 <= k < |requests + [row]| ==> (requests + [row])[k].id < nextId + 1
  {
    MayCreateNeverCollides(requests, row);
  }

  /**
   * The corrected guard refuses everything the written one refuses, and
   * refuses more only where a rejected or cancelled request for the pair exists.
   */
  lemma MayCreateRefinesAsWritten(requests: seq<MentorshipRequest>, mentee: UserId, mentor: MentorId)
    ensures MayCreate(requests, mentee, mentor) ==> MayCreateAsWritten(requests, mentee, mentor)
    ensures MayCreateAsWritten(requests, mentee, mentor) && !MayCreate(requests, mentee, mentor) ==>
              exists k :: 0 <= k < |requests| && PairKey(requests[k]) == (mentee, mentor) && !requests[k].status.IsOpen()
  {
    if !MayCreate(requests, mentee, mentor) {
      var k :| 0 <= k < |requests| && PairKey(requests[k]) == (mentee, mentor);
      assert requests[k].mentee == mentee && requests[k].mentor == mentor;
    }
  }

  /**
   * The corrected submission: a pair with no request gets `row` appended;
   * a pair whose earlier request was closed gets that request reopened in
   * place as `row`, keeping its id.
   */
  function Submit(requests: seq<MentorshipRequest>, row: MentorshipRequest): (r: seq<MentorshipRequest>)
    ensures HasKey(requests, PairKey, PairKey(row)) ==> |r| == |requests|
    ensures !HasKey(requests, PairKey, PairKey(row)) ==> r == requests + [row]
    ensures forall k :: 0 <= k < |requests| && PairKey(requests[k]) != PairKey(row) ==> r[k] == requests[k]
    ensures exists k :: 0 <= k < |r| && r[k] == row.(id := r[k].id)
    ensures UniqueBy(requests, PairKey) ==>
              forall j :: 0 <= j < |requests| && PairKey(requests[j]) == PairKey(row) ==>
                r[j] == row.(id := requests[j].id)
    ensures UniqueBy(requests, PairKey) ==> UniqueBy(r, PairKey)
  {
    match FindBy(requests, PairKey, PairKey(row))
    case None =>
      var r := requests + [row];
      assert r[|requests|] == row.(id := r[|requests|].id);
      r
    case Some(j) =>
      var reopened := row.(id := requests[j].id);
      var r := requests[j := reopened];
      assert r[j] == row.(id := r[j].id);
      if UniqueBy(requests, PairKey) then
        ReplaceKeepsUnique(requests, j, reopened, PairKey);
        r
      else r
  }

  /** The request ids after a submission: the old ones, and `row.id` if the pair was new. */
  lemma SubmitKeepsRequestsValid(requests: seq<MentorshipRequest>, row: MentorshipRequest, nextId: RequestId)
    requires RequestsValid(requests)
    requires forall k :: 0 <= k < |requests| ==> requests[k].id < nextId
    requires row.id == nextId
    ensures RequestsValid(Submit(requests, row))
    ensures forall k :: 0 <= k < |Submit(requests, row)| ==> Submit(requests, row)[k].id < nextId + 1
  {
    var r := Submit(requests, row);
    match FindBy(requests, PairKey, PairKey(row))
    case None =>
    case Some(j) =>
      assert r == requests[j := row.(id := requests[j].id)];
      forall i, i' | 0 <= i < i' < |r|
        ensures r[i].id != r[i'].id
      {
        assert r[i].id == requests[i].id && r[i'].id == requests[i'].id;
      }
  }

  /** For a pair with no request yet the corrected submission is the INSERT the view makes. */
  lemma SubmitExtendsInsert(requests: seq<MentorshipRequest>, row: MentorshipRequest)
    requires Insert(requests, row, PairKey).Ok?
    ensures Submit(requests, row) == Insert(requests, row, PairKey).value
  {
  }

  /**
   * The pair of `AsWrittenGuardAdmitsDuplicate` may ask again: its rejected
   * request is reopened, pending, where the view's INSERT fails.
   */
  lemma ClosedPairMayAskAgain()
    ensures
      var mentor := Mentor(3, 9, "bio", "Python", 0, "", "", "", "English", "", 10, "0.00", true, Active, 0, 0);
      var closed := MentorshipRequest(1, 7, 3, "hello", "a job", Rejected, Score(0, 0), Some(0));
      var again := NewRequest(2, 7, mentor, "hello again", "a job", []);
      && Submit([closed], again) == [again.(id := 1)]
      && Submit([closed], again)[0].status == RequestStatus.Pending
  {
    var closed := MentorshipRequest(1, 7, 3, "hello", "a job", Rejected, Score(0, 0), Some(0));
    assert PairKey([closed][0]) == (7, 3);
  }

  /** The request after `action`: accept and reject answer it at `now`; anything else leaves it. */
  function RespondToRequest(r: MentorshipRequest, action: string, now: Instant): (r': MentorshipRequest)
    ensures action == "accept" ==> r'.status == Accepted && r'.respondedAt == Some(now)
    ensures action == "reject" ==> r'.status == Rejected && r'.respondedAt == Some(now)
    ensures action != "accept" && action != "reject" ==> r' == r
    ensures r' == r.(status := r'.status, respondedAt := r'.respondedAt)
  {
    if action == "accept" then r.(status := Accepted, respondedAt := Some(now))
    else if action == "reject" then r.(status := Rejected, respondedAt := Some(now))
    else r
  }

  /** The mentor after `action`: only an accept counts a mentee, whatever the request's status was. */
  function RespondAsMentor(m: Mentor, action: string): (m': Mentor)
    ensures action == "accept" ==> m'.totalMentees == m.totalMentees + 1
    ensures action != "accept" ==> m' == m
    ensures m' == m.(totalMentees := m'.totalMentees)
  {
    if action == "accept" then m.(totalMentees := m.totalMentees + 1) else m
  }

  /** How many of the actions are accepts. */
  function Accepts(actions: seq<string>): (n: nat)
    ensures n <= |actions|
  {
    if actions == [] then 0 else Accepts(actions[..|actions| - 1]) + (if actions[|actions| - 1] == "accept" then 1 else 0)
  }

  /** The mentor after answering several requests in turn. */
  function RespondAll(m: Mentor, actions: seq<string>): Mentor {
    if actions == [] then m else RespondAsMentor(RespondAll(m, actions[..|actions| - 1]), actions[|actions| - 1])
  }

  /** `total_mentees` grows by exactly the number of accepts, and nothing else of the mentor changes. */
  lemma {:induction false} RespondAllCountsAccepts(m: Mentor, actions: seq<string>)
    ensures RespondAll(m, actions).totalMentees == m.totalMentees + Accepts(actions)
    ensures RespondAll(m, actions) == m.(totalMentees := m.totalMentees + Accepts(actions))
  {
    if actions != [] {
      RespondAllCountsAccepts(m, actions[..|actions| - 1]);
    }
  }

  /** Accepting the same request twice counts its mentee twice. */
  lemma ReacceptCountsTwice(m: Mentor, r: MentorshipRequest, now: Instant, later: Instant)
    ensures RespondAll(m, ["accept", "accept"]).totalMentees == m.totalMentees + 2
    ensures RespondToRequest(RespondToRequest(r, "accept", now), "accept", later).status == Accepted
  {
    RespondAllCountsAccepts(m, ["accept", "accept"]);
  }

  /** The text fields of the registration form; None is a field the form did not send. */
  datatype MentorForm = MentorForm(
    bio: Option<string>,
    expertiseAreas: Option<string>,
    yearsOfExperience: Option<string>,
    currentPosition: Option<string>,
    company: Option<string>,
    industry: Option<string>,
    languages: Option<string>,
    availabilityHours: Option<string>,
    maxMentees: Option<string>,
    hourlyRate: Option<string>)

  /** Why a submitted registration creates no mentor. */
  datatype FormError = MissingFields | BadNumber

  /** `request.POST.get(name, default).strip()`. */
  function TextField(f: Option<string>, default: string): (t: string)
    ensures NoEdgeSpace(Python, t)
  {
    Strip(Python, f.GetOr(default))
  }

  /**
   * `int(x) if x else default` where `x = request.POST.get(name, default)`:
   * a missing or empty field gives `default`, otherwise `int()` applies and
   * may raise ValueError.
   */
  function IntField(f: Option<string>, default: int): (r: Result<int, FormError>)
    ensures (f.None? || f == Some("")) ==> r == Ok(default)
    ensures f.Some? && f.value != "" ==> (r.Ok? <==> ParseInt(f.value).Some?)
    ensures f.Some? && f.value != "" && r.Ok? ==> Some(r.value) == ParseInt(f.value)
    ensures r.Err? ==> r.error == BadNumber
  {
    match f
    case None => Ok(default)
    case Some(x) =>
      if x == "" then Ok(default)
      else match ParseInt(x)
        case None => Err(BadNumber)
        case Some(n) => Ok(n)
  }

  /**
   * `float(hourly_rate) if hourly_rate else 0.00`, where `hourly_rate` is
   * not stripped: a missing or empty field gives "0.00"; otherwise `float()`
   * accepts the text when, stripped, it is Python float syntax (kept as that
   * stripped text) and raises ValueError when it is not.
   */
  function RateField(f: Option<string>): (r: Result<string, FormError>)
    ensures (f.None? || f == Some("")) ==> r == Ok("0.00")
    ensures f.Some? && f.value != "" ==> (r.Ok? <==> IsFloatText(f.value))
    ensures f.Some? && f.value != "" && r.Ok? ==> r.value == Strip(Python, f.value)
    ensures r.Err? ==> r.error == BadNumber
  {
    match f
    case None => Ok("0.00")
    case Some(x) =>
      if x == "" then Ok("0.00")
      else if IsFloatText(x) then Ok(Strip(Python, x))
      else Err(BadNumber)
  }

  /** A rate that is not a number makes `float()` raise: no mentor is created. */
  lemma NonNumericRateRefused(id: MentorId, user: UserId, form: MentorForm)
    requires TextField(form.bio, "") != [] && TextField(form.expertiseAreas, "") != []
    requires form.hourlyRate == Some("abc")
    ensures MentorFromForm(id, user, form).Err?
    ensures MentorFromForm(id, user, form).error == BadNumber
  {
    WordIsNotFloatText("abc");
  }

  /**
   * The mentor a submitted registration creates (lines 290-315): bio and
   * expertise must be non-blank after strip; the new mentor is pending,
   * unverified, with no sessions or mentees.
   */
  function MentorFromForm(id: MentorId, user: UserId, form: MentorForm): (r: Result<Mentor, FormError>)
    ensures r.Err? && r.error == MissingFields <==>
              TextField(form.bio, "") == [] || TextField(form.expertiseAreas, "") == []
    ensures r.Ok? <==>
              && TextField(form.bio, "") != [] && TextField(form.expertiseAreas, "") != []
              && IntField(form.yearsOfExperience, 0).Ok? && IntField(form.maxMentees, DefaultMaxMentees).Ok?
              && RateField(form.hourlyRate).Ok?
    ensures r.Err? && r.error == BadNumber <==>
              && TextField(form.bio, "") != [] && TextField(form.expertiseAreas, "") != []
              && (|| IntField(form.yearsOfExperience, 0).Err? || IntField(form.maxMentees, DefaultMaxMentees).Err?
                  || RateField(form.hourlyRate).Err?)
    ensures r.Ok? ==>
              var m := r.value;
              && m.id == id && m.user == user
              && m.status == MentorStatus.Pending && !m.isVerified
              && m.totalSessions == 0 && m.totalMentees == 0
              && m.bio == TextField(form.bio, "") && m.expertiseAreas == TextField(form.expertiseAreas, "")
              && m.languages == TextField(form.languages, DefaultLanguages)
              && Ok(m.yearsOfExperience) == IntField(form.yearsOfExperience, 0)
              && Ok(m.maxMentees) == IntField(form.maxMentees, DefaultMaxMentees)
              && m.currentPosition == TextField(form.currentPosition, "")
              && m.company == TextField(form.company, "")
              && m.industry == TextField(form.industry, "")
              && m.availabilityHours == TextField(form.availabilityHours, "")
              && Ok(m.hourlyRate) == RateField(form.hourlyRate)
  {
    var bio := TextField(form.bio, "");
    var expertise := TextField(form.expertiseAreas, "");
    if bio == [] || expertise == [] then Err(MissingFields)
    else
      match IntField(form.yearsOfExperience, 0)
      case Err(e) => Err(e)
      case Ok(years) =>
        match IntField(form.maxMentees, DefaultMaxMentees)
        case Err(e) => Err(e)
        case Ok(maxMentees) =>
          match RateField(form.hourlyRate)
          case Err(e) => Err(e)
          case Ok(rate) =>
            Ok(Mentor(id, user, bio, expertise, years,
                      TextField(form.currentPosition, ""), TextField(form.company, ""),
                      TextField(form.industry, ""), TextField(form.languages, DefaultLanguages),
                      TextField(form.availabilityHours, ""), maxMentees, rate,
                      false, MentorStatus.Pending, 0, 0))
  }

  /** A form with only bio and expertise gets every default of the model. */
  lemma MinimalFormGetsDefaults(id: MentorId, user: UserId, bio: string, expertise: string)
    requires Strip(Python, bio) != [] && Strip(Python, expertise) != []
    ensures
      var r := MentorFromForm(id, user, MentorForm(Some(bio), Some(expertise), None, None, None, None, None, None, None, None));
      && r.Ok?
      && r.value.yearsOfExperience == 0 && r.value.maxMentees == DefaultMaxMentees
      && r.value.languages == DefaultLanguages && r.value.hourlyRate == "0.00"
      && r.value.currentPosition == "" && r.value.company == ""
  {
    StripNoEdgeSpace(Python, DefaultLanguages);
    assert Strip(Python, "") == "";
  }

  /** A number the form sends as `str(n)` is stored as `n`. */
  lemma NumericFieldsRoundTrip(years: int, maxMentees: int)
    ensures IntField(Some(IntToString(years)), 0) == Ok(years)
    ensures IntField(Some(IntToString(maxMentees)), DefaultMaxMentees) == Ok(maxMentees)
  {
    ParseIntRoundTrip(years);
    ParseIntRoundTrip(maxMentees);
  }

  /** What `mentorship_detail_view` ends in. */
  datatype DetailOutcome =
    | NotYouth           // redirect to the dashboard
    | MentorNotFound     // 404
    | Shown              // the page, nothing submitted
    | AlreadyRequested   // a submission for a pair that already has a request
    | IncompleteForm     // "Please fill in all required fields."
    | CreateFailed(error: DbError)  // the INSERT violates the pair constraint: a server error
    | Sent(id: RequestId)

  /** What the mentor branch of `my_mentorships_view` ends in. */
  datatype RespondOutcome =
    | MenteePage         // a job seeker sees their own requests
    | AccessDenied       // admins
    | MustRegister       // no mentor profile: redirect to registration
    | ListShown          // GET, or a POST without request_id or action
    | BadRequestId       // an id that is no integer: ValueError
    | RequestNotFound    // 404
    | Answered           // redirect after accept, reject or another action

  /** What `mentor_register_view` ends in. */
  datatype RegisterOutcome =
    | NotEligible
    | AlreadyRegistered
    | FormShown
    | Refused(error: FormError)
    | Registered(id: MentorId)

  /** The mentorship tables: mentors, requests and the job-seeker profiles the score reads. */
  class MentorshipDesk {
    var mentors: seq<Mentor>
    var requests: seq<MentorshipRequest>
    var profiles: map<UserId, JobSeekerProfile>
    var nextMentorId: MentorId
    var nextRequestId: RequestId

    ghost predicate Valid()
      reads this
    {
      && MentorsValid(mentors)
      && RequestsValid(requests)
      && (forall k :: 0 <= k < |mentors| ==> mentors[k].id < nextMentorId)
      && (forall k :: 0 <= k < |requests| ==> requests[k].id < nextRequestId)
    }

    constructor (profiles: map<UserId, JobSeekerProfile>)
      ensures Valid()
      ensures this.mentors == [] && this.requests == [] && this.profiles == profiles
    {
      this.mentors := [];
      this.requests := [];
      this.profiles := profiles;
      this.nextMentorId := 1;
      this.nextRequestId := 1;
    }

    /**
     * `mentorship_detail_view` (lines 72-130) as written: a job seeker
     * submits a request to an active mentor. The view refuses only a pair
     * with a pending or accepted request, and only then reads message and
     * goals, which must be non-blank after strip. A pair whose request was
     * rejected or cancelled reaches the INSERT, which the pair constraint
     * refuses. The score is read through `youth_profile`, so it is 0.
     */
    method RequestMentorship(role: Role, mentee: UserId, mentorId: MentorId, isPost: bool,
                             message: Option<string>, goals: Option<string>)
      returns (outcome: DetailOutcome)
      requires Valid()
      modifies this
      ensures Valid()
      ensures mentors == old(mentors) && profiles == old(profiles) && nextMentorId == old(nextMentorId)
      ensures role != Youth ==> outcome == NotYouth
      ensures role == Youth && !ActiveMentor(old(mentors), mentorId) ==> outcome == MentorNotFound
      ensures role == Youth && ActiveMentor(old(mentors), mentorId) && !isPost ==> outcome == Shown
      ensures outcome == AlreadyRequested <==>
                && role == Youth && ActiveMentor(old(mentors), mentorId) && isPost
                && !MayCreateAsWritten(old(requests), mentee, mentorId)
      ensures outcome == IncompleteForm <==>
                && role == Youth && ActiveMentor(old(mentors), mentorId) && isPost
                && MayCreateAsWritten(old(requests), mentee, mentorId)
                && (TextField(message, "") == [] || TextField(goals, "") == [])
      ensures outcome.CreateFailed? <==>
                && role == Youth && ActiveMentor(old(mentors), mentorId) && isPost
                && MayCreateAsWritten(old(requests), mentee, mentorId) && !MayCreate(old(requests), mentee, mentorId)
                && TextField(message, "") != [] && TextField(goals, "") != []
      ensures outcome.CreateFailed? ==>
                && outcome.error == IntegrityError
                && Insert(old(requests), NewRequest(old(nextRequestId), mentee,
                                                    old(mentors)[FindBy(old(mentors), MentorIdOf, mentorId).value],
                                                    TextField(message, ""), TextField(goals, ""),
                                                    MenteeTokensAsWritten(old(profiles), mentee)), PairKey)
                   == Err(IntegrityError)
      ensures outcome.Sent? <==>
                && role == Youth && ActiveMentor(old(mentors), mentorId) && isPost
                && MayCreate(old(requests), mentee, mentorId)
                && TextField(message, "") != [] && TextField(goals, "") != []
      ensures outcome.Sent? ==>
                && outcome.id == old(nextRequestId)
                && requests == old(requests) + [NewRequest(old(nextRequestId), mentee,
                                                           old(mentors)[FindBy(old(mentors), MentorIdOf, mentorId).value],
                                                           TextField(message, ""), TextField(goals, ""),
                                                           MenteeTokensAsWritten(old(profiles), mentee))]
                && requests[|requests| - 1].matchScore.Percent() == 0.0
                && nextRequestId == old(nextRequestId) + 1
      ensures !outcome.Sent? ==> requests == old(requests) && nextRequestId == old(nextRequestId)
    {
      if role != Youth {
        return NotYouth;
      }
      var i := FindBy(mentors, MentorIdOf, mentorId);
      if i.None? || mentors[i.value].status != Active {
        return MentorNotFound;
      }
      var mentor := mentors[i.value];
      if !isPost {
        return Shown;
      }
      if !MayCreateAsWritten(requests, mentee, mentorId) {
        return AlreadyRequested;
      }
      var m := TextField(message, "");
      var g := TextField(goals, "");
      if m == [] || g == [] {
        return IncompleteForm;
      }
      var tokens := MenteeTokensAsWritten(profiles, mentee);
      AsWrittenMenteeHasNoSkills(profiles, mentee, mentor.expertiseAreas);
      if !MayCreate(requests, mentee, mentorId) {
        return CreateFailed(IntegrityError);
      }
      var id := Create(mentee, mentor, m, g, tokens);
      outcome := Sent(id);
    }

    /** `MentorshipRequest.objects.create(...)`: the next id, pending, scored against `tokens`. */
    method Create(mentee: UserId, mentor: Mentor, message: string, goals: string, tokens: seq<string>)
      returns (id: RequestId)
      requires Valid() && MayCreate(requests, mentee, mentor.id)
      modifies this
      ensures Valid()
      ensures mentors == old(mentors) && profiles == old(profiles) && nextMentorId == old(nextMentorId)
      ensures id == old(nextRequestId) && nextRequestId == id + 1
      ensures requests == old(requests) + [NewRequest(id, mentee, mentor, message, goals, tokens)]
    {
      id := nextRequestId;
      var row := NewRequest(id, mentee, mentor, message, goals, tokens);
      AppendKeepsRequestsValid(requests, row, id);
      requests := requests + [row];
      nextRequestId := id + 1;
    }

    /**
     * `mentorship_detail_view` as its comment means it: the same guard
     * (no pending or accepted request for the pair), the score read through
     * `job_seeker_profile`, and a closed request of the pair reopened rather
     * than inserted a second time, so no submission the guard admits fails.
     */
    method RequestMentorshipCorrected(role: Role, mentee: UserId, mentorId: MentorId, isPost: bool,
                                      message: Option<string>, goals: Option<string>)
      returns (outcome: DetailOutcome)
      requires Valid()
      modifies this
      ensures Valid()
      ensures mentors == old(mentors) && profiles == old(profiles) && nextMentorId == old(nextMentorId)
      ensures !outcome.CreateFailed?
      ensures role != Youth ==> outcome == NotYouth
      ensures role == Youth && !ActiveMentor(old(mentors), mentorId) ==> outcome == MentorNotFound
      ensures role == Youth && ActiveMentor(old(mentors), mentorId) && !isPost ==> outcome == Shown
      ensures outcome == IncompleteForm <==>
                && role == Youth && ActiveMentor(old(mentors), mentorId) && isPost
                && MayCreateAsWritten(old(requests), mentee, mentorId)
                && (TextField(message, "") == [] || TextField(goals, "") == [])
      ensures outcome == AlreadyRequested <==>
                && role == Youth && ActiveMentor(old(mentors), mentorId) && isPost
                && !MayCreateAsWritten(old(requests), mentee, mentorId)
      ensures outcome.Sent? <==>
                && role == Youth && ActiveMentor(old(mentors), mentorId) && isPost
                && MayCreateAsWritten(old(requests), mentee, mentorId)
                && TextField(message, "") != [] && TextField(goals, "") != []
      ensures outcome.Sent? ==>
                var mentor := old(mentors)[FindBy(old(mentors), MentorIdOf, mentorId).value];
                var row := NewRequest(old(nextRequestId), mentee, mentor, TextField(message, ""), TextField(goals, ""),
                                      MenteeTokens(old(profiles), mentee));
                && requests == Submit(old(requests), row)
                && row.(id := outcome.id) in requests
      ensures !outcome.Sent? ==> requests == old(requests) && nextRequestId == old(nextRequestId)
    {
      if role != Youth {
        return NotYouth;
      }
      var i := FindBy(mentors, MentorIdOf, mentorId);
      if i.None? || mentors[i.value].status != Active {
        return MentorNotFound;
      }
      var mentor := mentors[i.value];
      if !isPost {
        return Shown;
      }
      if !MayCreateAsWritten(requests, mentee, mentorId) {
        return AlreadyRequested;
      }
      var m := TextField(message, "");
      var g := TextField(goals, "");
      if m == [] || g == [] {
        return IncompleteForm;
      }
      var id := Reopen(NewRequest(nextRequestId, mentee, mentor, m, g, MenteeTokens(profiles, mentee)));
      outcome := Sent(id);
    }

    /**
     * Stores `row`, which carries the next id, as `Submit` does: a new pair
     * takes the next id, a closed request keeps its own.
     */
    method Reopen(row: MentorshipRequest) returns (id: RequestId)
      requires Valid() && row.id == nextRequestId
      modifies this
      ensures Valid()
      ensures mentors == old(mentors) && profiles == old(profiles) && nextMentorId == old(nextMentorId)
      ensures requests == Submit(old(requests), row)
      ensures row.(id := id) in requests
      ensures !HasKey(old(requests), PairKey, PairKey(row)) ==> id == row.id && nextRequestId == id + 1
      ensures HasKey(old(requests), PairKey, PairKey(row)) ==>
                && id == old(requests)[FindBy(old(requests), PairKey, PairKey(row)).value].id
                && nextRequestId == old(nextRequestId)
    {
      var j := FindBy(requests, PairKey, PairKey(row));
      SubmitKeepsRequestsValid(requests, row, nextRequestId);
      var r := Submit(requests, row);
      if j.None? {
        id := row.id;
        nextRequestId := nextRequestId + 1;
        assert r[|requests|] == row;
      } else {
        id := requests[j.value].id;
        assert r[j.value] == row.(id := id);
      }
      requests := r;
    }

    /**
     * The mentor branch of `my_mentorships_view` (lines 147-189): the
     * mentor answers one of their own requests. Accept and reject stamp the
     * request; accept also counts a mentee; any other action changes
     * nothing.
     */
    method Respond(role: Role, user: UserId, isPost: bool, requestId: string, action: string, now: Instant)
      returns (outcome: RespondOutcome)
      requires Valid()
      modifies this
      ensures Valid()
      ensures profiles == old(profiles) && nextMentorId == old(nextMentorId) && nextRequestId == old(nextRequestId)
      ensures role == Youth ==> outcome == MenteePage
      ensures role == Admin ==> outcome == AccessDenied
      ensures IsMentorRole(role) && FindBy(old(mentors), MentorUserOf, user).None? ==> outcome == MustRegister
      ensures IsMentorRole(role) && FindBy(old(mentors), MentorUserOf, user).Some? ==>
                (!isPost || requestId == "" || action == "" <==> outcome == ListShown)
      ensures outcome == Answered <==>
                && IsMentorRole(role) && isPost && requestId != "" && action != ""
                && FindBy(old(mentors), MentorUserOf, user).Some? && ParseInt(requestId).Some?
                && FindRequest(old(requests), ParseInt(requestId).value,
                               old(mentors)[FindBy(old(mentors), MentorUserOf, user).value].id).Some?
      ensures outcome == Answered ==>
                var i := FindBy(old(mentors), MentorUserOf, user).value;
                var k := FindRequest(old(requests), ParseInt(requestId).value, old(mentors)[i].id).value;
                && requests == old(requests)[k := RespondToRequest(old(requests)[k], action, now)]
                && mentors == old(mentors)[i := RespondAsMentor(old(mentors)[i], action)]
      ensures outcome != Answered ==> requests == old(requests) && mentors == old(mentors)
    {
      if role == Youth {
        return MenteePage;
      }
      if role == Admin {
        return AccessDenied;
      }
      var i := FindBy(mentors, MentorUserOf, user);
      if i.None? {
        return MustRegister;
      }
      if !isPost || requestId == "" || action == "" {
        return ListShown;
      }
      var id := ParseInt(requestId);
      if id.None? {
        return BadRequestId;
      }
      var mentor := mentors[i.value];
      var k := FindRequest(requests, id.value, mentor.id);
      if k.None? {
        return RequestNotFound;
      }
      Answer(i.value, k.value, action, now);
      outcome := Answered;
    }

    /** The two saves of an answer: the request's status and time, and the mentor's count. */
    method Answer(i: nat, k: nat, action: string, now: Instant)
      requires Valid() && i < |mentors| && k < |requests|
      modifies this
      ensures Valid()
      ensures profiles == old(profiles) && nextMentorId == old(nextMentorId) && nextRequestId == old(nextRequestId)
      ensures requests == old(requests)[k := RespondToRequest(old(requests)[k], action, now)]
      ensures mentors == old(mentors)[i := RespondAsMentor(old(mentors)[i], action)]
    {
      var answered := RespondToRequest(requests[k], action, now);
      ReplaceKeepsUnique(requests, k, answered, PairKey);
      requests := requests[k := answered];
      mentors := mentors[i := RespondAsMentor(mentors[i], action)];
    }

    /**
     * `mentor_register_view` (lines 277-321): an employer or institution
     * without a mentor profile submits the registration form.
     */
    method RegisterMentor(role: Role, user: UserId, isPost: bool, form: MentorForm)
      returns (outcome: RegisterOutcome)
      requires Valid()
      modifies this
      ensures Valid()
      ensures requests == old(requests) && profiles == old(profiles) && nextRequestId == old(nextRequestId)
      ensures !IsMentorRole(role) ==> outcome == NotEligible
      ensures IsMentorRole(role) && FindBy(old(mentors), MentorUserOf, user).Some? ==> outcome == AlreadyRegistered
      ensures IsMentorRole(role) && FindBy(old(mentors), MentorUserOf, user).None? ==>
                if !isPost then outcome == FormShown
                else match MentorFromForm(old(nextMentorId), user, form)
                  case Ok(m) => outcome == Registered(m.id) && mentors == old(mentors) + [m]
                  case Err(e) => outcome == Refused(e)
      ensures !outcome.Registered? ==> mentors == old(mentors) && nextMentorId == old(nextMentorId)
      ensures outcome.Registered? ==> nextMentorId == old(nextMentorId) + 1
    {
      if !IsMentorRole(role) {
        return NotEligible;
      }
      if FindBy(mentors, MentorUserOf, user).Some? {
        return AlreadyRegistered;
      }
      if !isPost {
        return FormShown;
      }
      var r := MentorFromForm(nextMentorId, user, form);
      if r.Err? {
        return Refused(r.error);
      }
      mentors := mentors + [r.value];
      outcome := Registered(nextMentorId);
      nextMentorId := nextMentorId + 1;
    }
  }
}
