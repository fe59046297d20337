/**
 * The job board's models (jobs/models.py): a posting's status choices, its
 * reference number assigned on first save, its deadline test and its salary
 * text; applications and bookmarks, each unique per (job, user) pair.
 * Salary amounts are whole numbers; the clock is the parameter `now`;
 * `slugify` and the uuid are parameters.
 */
module JobModels {
  import opened Wrappers
  import opened Text
  import opened Tables
  import opened Identifiers
  import opened AccountModels

  type JobId = nat

  /** `Job.status`; new postings are pending (line 82). */
  datatype JobStatus = Draft | Pending | Active | Closed | Expired {
    function Value(): string {
      match this
      case Draft => "draft"
      case Pending => "pending"
      case Active => "active"
      case Closed => "closed"
      case Expired => "expired"
    }
  }

  const DefaultJobStatus: JobStatus := JobStatus.Pending

  function ParseJobStatus(s: string): (r: Option<JobStatus>)
    ensures r.Some? ==> r.value.Value() == s
    ensures r.None? ==> forall x: JobStatus :: x.Value() != s
  {
    if s == "draft" then Some(Draft)
    else if s == "pending" then Some(JobStatus.Pending)
    else if s == "active" then Some(Active)
    else if s == "closed" then Some(Closed)
    else if s == "expired" then Some(Expired)
    else None
  }

  /**
   * `Job.is_expired` (lines 117-122): a posting without a deadline never
   * expires; one with a deadline expires strictly after it.
   */
  function DeadlinePassed(deadline: Option<Instant>, now: Instant): (expired: bool)
    ensures expired <==> deadline.Some? && now > deadline.value
  {
    if deadline.Some? then now > deadline.value else false
  }

  /** Once past, a deadline stays past. */
  lemma DeadlineStaysPassed(deadline: Option<Instant>, now: Instant, later: Instant)
    requires now <= later
    ensures DeadlinePassed(deadline, now) ==> DeadlinePassed(deadline, later)
  {
  }

  /** Three digits with leading zeros, as in the groups after the first. */
  function Pad3(m: nat): (s: string)
    requires m < 1000
    ensures |s| == 3 && AllDigits(s)
  {
    [DigitChar(m / 100), DigitChar(m / 10 % 10), DigitChar(m % 10)]
  }

  /** Python's `,` format option on a whole number: digits in groups of three from the right. */
  function GroupThousands(n: nat): (s: string)
    ensures s != []
  {
    if n < 1000 then NatToString(n) else GroupThousands(n / 1000) + "," + Pad3(n % 1000)
  }

  /** `f"{amount:,.0f}"` for a whole amount. */
  function FormatAmount(amount: int): string {
    if amount < 0 then "-" + GroupThousands(-amount) else GroupThousands(amount)
  }

  /** The text with every `c` taken out. */
  function Without(s: string, c: char): (r: string)
    ensures c !in r
  {
    if s == [] then []
    else Without(s[..|s| - 1], c) + (if s[|s| - 1] == c then [] else [s[|s| - 1]])
  }

  lemma {:induction false} WithoutAppend(a: string, b: string, c: char)
    ensures Without(a + b, c) == Without(a, c) + Without(b, c)
    decreases |b|
  {
    if b == [] {
      assert a + b == a;
    } else {
      WithoutAppend(a, b[..|b| - 1], c);
      assert (a + b)[..|a + b| - 1] == a + b[..|b| - 1];
    }
  }

  lemma {:induction false} WithoutAbsent(s: string, c: char)
    requires c !in s
    ensures Without(s, c) == s
  {
    if s != [] {
      WithoutAbsent(s[..|s| - 1], c);
    }
  }

  lemma TensDigit(a: nat, x: nat)
    ensures (10 * a + x) % 10 == x % 10
  {
  }

  /** The digits of `1000 * q + r` below the thousands are those of `r`. */
  lemma LowDigits(q: nat, r: nat)
    requires r < 1000
    ensures (1000 * q + r) / 10 == 100 * q + r / 10 && (1000 * q + r) % 10 == r % 10
    ensures (100 * q + r / 10) / 10 == 10 * q + r / 100 && (100 * q + r / 10) % 10 == r / 10 % 10
    ensures (10 * q + r / 100) / 10 == q && (10 * q + r / 100) % 10 == r / 100
  {
    TensDigit(100 * q, r);
    TensDigit(10 * q, r / 10);
    TensDigit(q, r / 100);
  }

  /** `str(m)` is `str(m // 10)` followed by the last digit. */
  lemma NatToStringLastDigit(m: nat, front: nat, last: nat)
    requires m >= 10 && front == m / 10 && last == m % 10
    ensures NatToString(m) == NatToString(front) + [DigitChar(last)]
  {
  }

  /** The last three digits of a number of four or more digits are its low group. */
  lemma NatToStringLowGroup(n: nat)
    requires n >= 1000
    ensures NatToString(n) == NatToString(n / 1000) + Pad3(n % 1000)
  {
    var q, r := n / 1000, n % 1000;
    assert n == 1000 * q + r;
    LowDigits(q, r);
    var n1, n2 := 100 * q + r / 10, 10 * q + r / 100;
    NatToStringLastDigit(n, n1, r % 10);
    NatToStringLastDigit(n1, n2, r / 10 % 10);
    NatToStringLastDigit(n2, q, r / 100);
    var d2, d1, d0 := DigitChar(r / 100), DigitChar(r / 10 % 10), DigitChar(r % 10);
    assert [d2] + [d1] + [d0] == Pad3(r);
  }

  /** Taking the separators out of a grouped number gives back `str(n)`. */
  lemma {:induction false} UngroupThousands(n: nat)
    ensures Without(GroupThousands(n), ',') == NatToString(n)
    decreases n
  {
    if n < 1000 {
      WithoutAbsent(NatToString(n), ',');
    } else {
      UngroupThousands(n / 1000);
      WithoutAppend(GroupThousands(n / 1000) + ",", Pad3(n % 1000), ',');
      WithoutAppend(GroupThousands(n / 1000), ",", ',');
      WithoutAbsent(Pad3(n % 1000), ',');
      assert Without(",", ',') == [];
      NatToStringLowGroup(n);
    }
  }

  /** A number below a thousand has at most three digits. */
  lemma ShortNatToString(m: nat)
    requires m < 1000
    ensures |NatToString(m)| <= 3
  {
    if m >= 10 {
      var q := m / 10;
      if q >= 10 {
        assert NatToString(q) == NatToString(q / 10) + [DigitChar(q % 10)];
        assert q / 10 < 10 && |NatToString(q / 10)| == 1;
      }
      assert |NatToString(q)| <= 2;
      assert NatToString(m) == NatToString(q) + [DigitChar(m % 10)];
    }
  }

  /**
   * Where the separators fall: cut at the commas, the first group has one
   * to three digits without a leading zero (unless it is the only digit),
   * and every later group has exactly three.
   */
  lemma {:induction false} GroupThousandsPieces(n: nat)
    ensures var p := Split(GroupThousands(n), ",");
      1 <= |p[0]| <= 3 && AllDigits(p[0]) && (|p[0]| > 1 ==> p[0][0] != '0') &&
      forall k :: 1 <= k < |p| ==> |p[k]| == 3 && AllDigits(p[k])
    decreases n
  {
    if n < 1000 {
      assert ',' !in NatToString(n) by {
        forall k | 0 <= k < |NatToString(n)| ensures NatToString(n)[k] != ',' {
          assert IsDigit(NatToString(n)[k]);
        }
      }
      SplitWithoutSeparator(NatToString(n), ',');
      ShortNatToString(n);
    } else {
      GroupThousandsPieces(n / 1000);
      var low := Pad3(n % 1000);
      assert ',' !in low by {
        assert IsDigit(low[0]) && IsDigit(low[1]) && IsDigit(low[2]);
      }
      SplitAtLast(GroupThousands(n / 1000), ',', low);
      assert GroupThousands(n) == GroupThousands(n / 1000) + [','] + low;
    }
  }

  /** Python truthiness of a nullable amount: None and zero are false. */
  predicate AmountGiven(amount: Option<int>) {
    amount.Some? && amount.value != 0
  }

  const CompetitiveSalary: string := "Salary: Competitive / Negotiable"

  /**
   * `Job.salary_display_text` (lines 124-131): the posting's own text when
   * it has one; otherwise the range with thousands separators when both
   * ends are given and non-zero; otherwise the competitive phrase.
   */
  function SalaryDisplayText(display: string, minimum: Option<int>, maximum: Option<int>, currency: string): (t: string)
    ensures display != "" ==> t == display
    ensures display == "" && AmountGiven(minimum) && AmountGiven(maximum) ==>
              t == currency + " " + FormatAmount(minimum.value) + " - " + FormatAmount(maximum.value)
    ensures display == "" && !(AmountGiven(minimum) && AmountGiven(maximum)) ==> t == CompetitiveSalary
  {
    if display != "" then display
    else if AmountGiven(minimum) && AmountGiven(maximum) then
      currency + " " + FormatAmount(minimum.value) + " - " + FormatAmount(maximum.value)
    else CompetitiveSalary
  }

  /** A minimum of zero counts as missing, whatever the maximum. */
  lemma ZeroMinimumIsCompetitive(maximum: Option<int>, currency: string)
    ensures SalaryDisplayText("", Some(0), maximum, currency) == CompetitiveSalary
  {
  }

  /**
   * Reading the range back: with the separators taken out, the text is the
   * currency and the two amounts as `str` writes them.
   */
  lemma SalaryRangeReadsBack(minimum: nat, maximum: nat, currency: string)
    requires minimum != 0 && maximum != 0 && ',' !in currency
    ensures Without(SalaryDisplayText("", Some(minimum), Some(maximum), currency), ',')
            == currency + " " + NatToString(minimum) + " - " + NatToString(maximum)
  {
    var lo, hi := GroupThousands(minimum), GroupThousands(maximum);
    assert SalaryDisplayText("", Some(minimum), Some(maximum), currency) == currency + " " + lo + " - " + hi;
    UngroupThousands(minimum);
    UngroupThousands(maximum);
    WithoutAbsent(currency, ',');
    WithoutAbsent(" ", ',');
    WithoutAbsent(" - ", ',');
    WithoutAppend(currency, " ", ',');
    var p1 := currency + " ";
    assert Without(p1, ',') == p1;
    WithoutAppend(p1, lo, ',');
    var p2 := p1 + lo;
    assert Without(p2, ',') == p1 + NatToString(minimum);
    WithoutAppend(p2, " - ", ',');
    var p3 := p2 + " - ";
    assert Without(p3, ',') == p1 + NatToString(minimum) + " - ";
    WithoutAppend(p3, hi, ',');
  }

  /**
   * What `Job.save` (lines 108-115) leaves in `job_id`: an id already there
   * stays; an empty one becomes the first 30 characters of the slug, '-',
   * and the first 8 characters of the uuid.
   */
  function AssignedJobId(current: string, slug: string, uuid: string): (id: string)
    requires IsUuid4Text(uuid)
    ensures current != "" ==> id == current
    ensures current == "" ==> id == Take(slug, 30) + "-" + uuid[..8]
    ensures id != ""
  {
    if current == "" then Take(slug, 30) + "-" + uuid[..8] else current
  }

  /** A generated id: at most 30 characters of slug, '-', then 8 hexadecimal digits. */
  lemma GeneratedJobIdShape(slug: string, uuid: string)
    requires IsUuid4Text(uuid)
    ensures var id := AssignedJobId("", slug, uuid);
            && 9 <= |id| <= 39
            && id[|id| - 9] == '-'
            && forall k :: |id| - 8 <= k < |id| ==> IsLowerHex(id[k])
  {
    var id := AssignedJobId("", slug, uuid);
    var base := Take(slug, 30);
    forall k | |id| - 8 <= k < |id|
      ensures IsLowerHex(id[k])
    {
      assert id[k] == uuid[k - |base| - 1];
      assert !IsDashIndex(k - |base| - 1);
    }
  }

  /** Saving again never changes the id, whatever the slug or uuid then. */
  lemma JobIdAssignedOnce(current: string, slug: string, uuid: string, slug': string, uuid': string)
    requires IsUuid4Text(uuid) && IsUuid4Text(uuid')
    ensures AssignedJobId(AssignedJobId(current, slug, uuid), slug', uuid') == AssignedJobId(current, slug, uuid)
  {
  }

  /** A job posting, with the fields `save` reads and writes. */
  class Job {
    var companyName: string
    var jobTitle: string
    var jobId: string
    var status: JobStatus

    constructor (companyName: string, jobTitle: string, jobId: string)
      ensures this.companyName == companyName && this.jobTitle == jobTitle && this.jobId == jobId
      ensures status == DefaultJobStatus
    {
      this.companyName := companyName;
      this.jobTitle := jobTitle;
      this.jobId := jobId;
      status := DefaultJobStatus;
    }

    /** `Job.save`: the reference number is filled in only when it is empty. */
    method Save(slugify: string -> string, uuid: string)
      requires IsUuid4Text(uuid)
      modifies this
      ensures jobId == AssignedJobId(old(jobId), slugify(old(companyName) + "-" + old(jobTitle)), uuid)
      ensures companyName == old(companyName) && jobTitle == old(jobTitle) && status == old(status)
    {
      if jobId == "" {
        var base := Take(slugify(companyName + "-" + jobTitle), 30);
        jobId := base + "-" + uuid[..8];
      }
    }
  }

  /** `Application.status`; new applications are pending (line 155). */
  datatype ApplicationStatus = Pending | Reviewing | Shortlisted | Interview | Accepted | Rejected | Withdrawn {
    function Value(): string {
      match this
      case Pending => "pending"
      case Reviewing => "reviewing"
      case Shortlisted => "shortlisted"
      case Interview => "interview"
      case Accepted => "accepted"
      case Rejected => "rejected"
      case Withdrawn => "withdrawn"
    }
  }

  const DefaultApplicationStatus: ApplicationStatus := ApplicationStatus.Pending

  function ParseApplicationStatus(s: string): (r: Option<ApplicationStatus>)
    ensures r.Some? ==> r.value.Value() == s
    ensures r.None? ==> forall x: ApplicationStatus :: x.Value() != s
  {
    if s == "pending" then Some(ApplicationStatus.Pending)
    else if s == "reviewing" then Some(Reviewing)
    else if s == "shortlisted" then Some(Shortlisted)
    else if s == "interview" then Some(Interview)
    else if s == "accepted" then Some(Accepted)
    else if s == "rejected" then Some(Rejected)
    else if s == "withdrawn" then Some(Withdrawn)
    else None
  }

  /** An application (lines 134-179); `matchScore` is None until scored. */
  datatype Application = Application(
    job: JobId,
    applicant: UserId,
    status: ApplicationStatus,
    matchScore: Option<real>)

  /** The score's validators (line 167): between 0 and 100 inclusive, or absent. */
  predicate MatchScoreValid(score: Option<real>) {
    score.None? || 0.0 <= score.value <= 100.0
  }

  /** `unique_together = [['job', 'applicant']]` (line 172). */
  function ApplicationKey(a: Application): (JobId, UserId) {
    (a.job, a.applicant)
  }

  /** A bookmark (lines 182-194), unique per (user, job) (line 190). */
  datatype SavedJob = SavedJob(user: UserId, job: JobId)

  function SavedJobKey(s: SavedJob): (UserId, JobId) {
    (s.user, s.job)
  }

  /** Storing an application: refused when the applicant already applied to that job. */
  function Apply(rows: seq<Application>, a: Application): (r: Result<seq<Application>, DbError>)
    ensures r.Err? <==> exists i :: 0 <= i < |rows| && rows[i].job == a.job && rows[i].applicant == a.applicant
    ensures r.Err? ==> r.error == IntegrityError
    ensures r.Ok? ==> r.value == rows + [a]
    ensures UniqueBy(rows, ApplicationKey) && r.Ok? ==> UniqueBy(r.value, ApplicationKey)
  {
    var r := Insert(rows, a, ApplicationKey);
    assert r.Err? ==> exists i :: 0 <= i < |rows| && ApplicationKey(rows[i]) == ApplicationKey(a);
    r
  }

  /** Nobody applies twice to one job, whatever the second application says. */
  lemma ApplyTwiceRefused(rows: seq<Application>, a: Application, again: Application)
    requires Apply(rows, a).Ok?
    requires again.job == a.job && again.applicant == a.applicant
    ensures Apply(Apply(rows, a).value, again) == Err(IntegrityError)
  {
    SecondInsertRefused(rows, a, again, ApplicationKey);
  }

  /** Storing a bookmark: refused when that user already saved that job. */
  function SaveJob(rows: seq<SavedJob>, s: SavedJob): (r: Result<seq<SavedJob>, DbError>)
    ensures r.Err? <==> s in rows
    ensures r.Ok? ==> r.value == rows + [s]
    ensures UniqueBy(rows, SavedJobKey) && r.Ok? ==> UniqueBy(r.value, SavedJobKey)
  {
    var r := Insert(rows, s, SavedJobKey);
    assert r.Err? ==> exists i :: 0 <= i < |rows| && SavedJobKey(rows[i]) == SavedJobKey(s) && rows[i] == s;
    assert s in rows ==> HasKey(rows, SavedJobKey, SavedJobKey(s));
    r
  }
}
