/**
 * The learning models (education/models.py): course status choices, the
 * URL a course content item opens, the payment and certificate references
 * filled in on first save, and the one-row-per-(user, course) tables of
 * enrolments and bookmarks. A file field is None when empty and otherwise
 * the URL its storage gives; the uuid is a parameter.
 */
module EducationModels {
  import opened Wrappers
  import opened Text
  import opened Tables
  import opened Identifiers
  import opened AccountModels

  type CourseId = nat

  /** `Course.status`; new courses are pending (line 46). */
  datatype CourseStatus = Draft | Pending | Active | Completed | Archived {
    function Value(): string {
      match this
      case Draft => "draft"
      case Pending => "pending"
      case Active => "active"
      case Completed => "completed"
      case Archived => "archived"
    }
  }

  const DefaultCourseStatus: CourseStatus := Pending

  function ParseCourseStatus(s: string): (r: Option<CourseStatus>)
    ensures r.Some? ==> r.value.Value() == s
    ensures r.None? ==> forall x: CourseStatus :: x.Value() != s
  {
    if s == "draft" then Some(Draft)
    else if s == "pending" then Some(Pending)
    else if s == "active" then Some(Active)
    else if s == "completed" then Some(Completed)
    else if s == "archived" then Some(Archived)
    else None
  }

  /** A course, with the approval fields the admin writes (lines 9-67). */
  class Course {
    var title: string
    var status: CourseStatus
    var approvedBy: Option<UserId>
    var approvedAt: Option<Instant>

    constructor (title: string)
      ensures this.title == title && status == DefaultCourseStatus && approvedBy == None && approvedAt == None
    {
      this.title := title;
      status := DefaultCourseStatus;
      approvedBy := None;
      approvedAt := None;
    }
  }

  /** A content item's URL fields (lines 215-271); `contentType` is the stored text. */
  datatype CourseContent = CourseContent(
    contentType: string,
    videoUrl: string,
    videoFile: Option<string>,
    documentFile: Option<string>,
    documentUrl: string,
    externalLink: string)

  /** `url or (file.url if file else '')`. */
  function UrlOrFile(url: string, file: Option<string>): (r: string)
    ensures url != "" ==> r == url
    ensures url == "" && file.Some? ==> r == file.value
    ensures url == "" && file.None? ==> r == ""
  {
    if url != "" then url else if file.Some? then file.value else ""
  }

  /**
   * `CourseContent.get_display_url` (lines 263-271): a video's URL or else
   * its file, likewise for a document, a link's address, and nothing for
   * any other type.
   */
  function DisplayUrl(c: CourseContent): (url: string)
    ensures c.contentType == "video" ==> url == UrlOrFile(c.videoUrl, c.videoFile)
    ensures c.contentType == "document" ==> url == UrlOrFile(c.documentUrl, c.documentFile)
    ensures c.contentType == "link" ==> url == c.externalLink
    ensures c.contentType != "video" && c.contentType != "document" && c.contentType != "link" ==> url == ""
  {
    if c.contentType == "video" then UrlOrFile(c.videoUrl, c.videoFile)
    else if c.contentType == "document" then UrlOrFile(c.documentUrl, c.documentFile)
    else if c.contentType == "link" then c.externalLink
    else ""
  }

  /** The URLs an item holds for its own type. */
  function OwnUrls(c: CourseContent): set<string> {
    if c.contentType == "video" then {c.videoUrl} + (if c.videoFile.Some? then {c.videoFile.value} else {})
    else if c.contentType == "document" then {c.documentUrl} + (if c.documentFile.Some? then {c.documentFile.value} else {})
    else if c.contentType == "link" then {c.externalLink}
    else {}
  }

  /**
   * The URL shown is empty or one the item holds for its own type: a video
   * never shows a document URL, and the reverse.
   */
  lemma DisplayUrlIsOwn(c: CourseContent)
    ensures DisplayUrl(c) == "" || DisplayUrl(c) in OwnUrls(c)
  {
  }

  /** Changing the fields of another type never changes the URL shown. */
  lemma DisplayUrlIgnoresOtherTypes(c: CourseContent, videoUrl: string, videoFile: Option<string>)
    requires c.contentType != "video"
    ensures DisplayUrl(c.(videoUrl := videoUrl, videoFile := videoFile)) == DisplayUrl(c)
  {
  }

  /**
   * What `Payment.save` (lines 152-156) leaves in `transaction_id`: the
   * existing one, or 'TXN-' and the upper-cased first 12 characters of the uuid.
   */
  function AssignedTransactionId(current: string, uuid: string): (t: string)
    requires IsUuid4Text(uuid)
    ensures current != "" ==> t == current
    ensures current == "" ==> t == "TXN-" + Upper(uuid[..12])
    ensures t != ""
  {
    if current == "" then "TXN-" + Upper(uuid[..12]) else current
  }

  /** A new transaction id: 'TXN-', 8 hex digits, '-', 3 hex digits, all upper case. */
  lemma TransactionIdShape(uuid: string)
    requires IsUuid4Text(uuid)
    ensures var t := AssignedTransactionId("", uuid);
            && |t| == 16 && t[..4] == "TXN-" && t[12] == '-'
            && forall k :: 4 <= k < 16 && k != 12 ==> IsUpperHex(t[k])
  {
    var t := AssignedTransactionId("", uuid);
    forall k | 4 <= k < 16 && k != 12
      ensures IsUpperHex(t[k])
    {
      assert t[k] == UpperChar(uuid[k - 4]);
      assert !IsDashIndex(k - 4);
    }
  }

  /** A payment's id, once set, survives every later save. */
  lemma TransactionIdAssignedOnce(current: string, uuid: string, uuid': string)
    requires IsUuid4Text(uuid) && IsUuid4Text(uuid')
    ensures AssignedTransactionId(AssignedTransactionId(current, uuid), uuid') == AssignedTransactionId(current, uuid)
  {
  }

  /**
   * What `Certificate.save` (lines 177-181) leaves in `certificate_number`:
   * the existing one, or 'CERT-' and the upper-cased first 8 characters of the uuid.
   */
  function AssignedCertificateNumber(current: string, uuid: string): (n: string)
    requires IsUuid4Text(uuid)
    ensures current != "" ==> n == current
    ensures current == "" ==> n == "CERT-" + Upper(uuid[..8])
    ensures n != ""
  {
    if current == "" then "CERT-" + Upper(uuid[..8]) else current
  }

  /** A new certificate number: 'CERT-' and 8 upper-case hexadecimal digits. */
  lemma CertificateNumberShape(uuid: string)
    requires IsUuid4Text(uuid)
    ensures var n := AssignedCertificateNumber("", uuid);
            && |n| == 13 && n[..5] == "CERT-"
            && forall k :: 5 <= k < 13 ==> IsUpperHex(n[k])
  {
    var n := AssignedCertificateNumber("", uuid);
    forall k | 5 <= k < 13
      ensures IsUpperHex(n[k])
    {
      assert n[k] == UpperChar(uuid[k - 5]);
    }
  }

  /** A certificate's number, once set, survives every later save. */
  lemma CertificateNumberAssignedOnce(current: string, uuid: string, uuid': string)
    requires IsUuid4Text(uuid) && IsUuid4Text(uuid')
    ensures AssignedCertificateNumber(AssignedCertificateNumber(current, uuid), uuid')
            == AssignedCertificateNumber(current, uuid)
  {
  }

  /** A payment, with the field `save` fills in. */
  class Payment {
    var user: UserId
    var course: CourseId
    var transactionId: string

    constructor (user: UserId, course: CourseId, transactionId: string)
      ensures this.user == user && this.course == course && this.transactionId == transactionId
    {
      this.user := user;
      this.course := course;
      this.transactionId := transactionId;
    }

    /** `Payment.save`. */
    method Save(uuid: string)
      requires IsUuid4Text(uuid)
      modifies this
      ensures transactionId == AssignedTransactionId(old(transactionId), uuid)
      ensures user == old(user) && course == old(course)
    {
      if transactionId == "" {
        transactionId := "TXN-" + Upper(uuid[..12]);
      }
    }
  }

  /** A certificate, with the field `save` fills in. */
  class Certificate {
    var user: UserId
    var course: CourseId
    var certificateNumber: string

    constructor (user: UserId, course: CourseId, certificateNumber: string)
      ensures this.user == user && this.course == course && this.certificateNumber == certificateNumber
    {
      this.user := user;
      this.course := course;
      this.certificateNumber := certificateNumber;
    }

    /** `Certificate.save`. */
    method Save(uuid: string)
      requires IsUuid4Text(uuid)
      modifies this
      ensures certificateNumber == AssignedCertificateNumber(old(certificateNumber), uuid)
      ensures user == old(user) && course == old(course)
    {
      if certificateNumber == "" {
        certificateNumber := "CERT-" + Upper(uuid[..8]);
      }
    }
  }

  /** An enrolment (lines 70-102), unique per (user, course) (line 98). */
  datatype Enrollment = Enrollment(user: UserId, course: CourseId)

  /** A bookmarked course (lines 184-196), unique per (user, course) (line 192). */
  datatype SavedCourse = SavedCourse(user: UserId, course: CourseId)

  function EnrollmentKey(e: Enrollment): (UserId, CourseId) {
    (e.user, e.course)
  }

  function SavedCourseKey(s: SavedCourse): (UserId, CourseId) {
    (s.user, s.course)
  }

  /** Storing an enrolment: refused when the user is already enrolled in that course. */
  function Enroll(rows: seq<Enrollment>, e: Enrollment): (r: Result<seq<Enrollment>, DbError>)
    ensures r.Err? <==> e in rows
    ensures r.Err? ==> r.error == IntegrityError
    ensures r.Ok? ==> r.value == rows + [e]
    ensures UniqueBy(rows, EnrollmentKey) && r.Ok? ==> UniqueBy(r.value, EnrollmentKey)
  {
    var r := Insert(rows, e, EnrollmentKey);
    assert r.Err? ==> exists i :: 0 <= i < |rows| && EnrollmentKey(rows[i]) == EnrollmentKey(e) && rows[i] == e;
    assert e in rows ==> HasKey(rows, EnrollmentKey, EnrollmentKey(e));
    r
  }

  /** Storing a bookmark: refused when the user already saved that course. */
  function SaveCourse(rows: seq<SavedCourse>, s: SavedCourse): (r: Result<seq<SavedCourse>, DbError>)
    ensures r.Err? <==> s in rows
    ensures r.Err? ==> r.error == IntegrityError
    ensures r.Ok? ==> r.value == rows + [s]
    ensures UniqueBy(rows, SavedCourseKey) && r.Ok? ==> UniqueBy(r.value, SavedCourseKey)
  {
    var r := Insert(rows, s, SavedCourseKey);
    assert r.Err? ==> exists i :: 0 <= i < |rows| && SavedCourseKey(rows[i]) == SavedCourseKey(s) && rows[i] == s;
    assert s in rows ==> HasKey(rows, SavedCourseKey, SavedCourseKey(s));
    r
  }

  /** Enrolling twice in one course is refused. */
  lemma EnrollTwiceRefused(rows: seq<Enrollment>, e: Enrollment)
    requires Enroll(rows, e).Ok?
    ensures Enroll(Enroll(rows, e).value, e) == Err(IntegrityError)
  {
    SecondInsertRefused(rows, e, e, EnrollmentKey);
  }
}
