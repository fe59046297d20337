/**
 * The course admin's save hook, `CourseAdmin.save_model`
 * (education/admin.py): a course that staff create is approved on the spot.
 * The request's user is given as its id and its `is_staff` flag; `change`
 * is false when the admin form creates the course. The write to the
 * database that follows is not part of this model.
 */
module CourseAdmin {
  import opened Wrappers
  import opened AccountModels
  import opened EducationModels

  /**
   * The status and approver a save leaves (lines 57-60). Only a new course
   * that has no approver and is saved by staff changes: it becomes active
   * and approved by that user.
   */
  function AutoApproval(status: CourseStatus, approvedBy: Option<UserId>, user: UserId, isStaff: bool, change: bool)
    : (r: (CourseStatus, Option<UserId>))
    ensures !change && approvedBy.None? && isStaff ==> r == (Active, Some(user))
    ensures change || approvedBy.Some? || !isStaff ==> r == (status, approvedBy)
  {
    if !change && approvedBy.None? && isStaff then (Active, Some(user)) else (status, approvedBy)
  }

  /** Once a course has an approver, no later save, by anyone, changes its status or approver. */
  lemma ApprovalSettles(status: CourseStatus, approvedBy: Option<UserId>, user: UserId, isStaff: bool,
                        change: bool, user': UserId, isStaff': bool, change': bool)
    requires AutoApproval(status, approvedBy, user, isStaff, change).1.Some?
    ensures var (s, a) := AutoApproval(status, approvedBy, user, isStaff, change);
            AutoApproval(s, a, user', isStaff', change') == (s, a)
  {
  }

  /** An approver this hook sets is always the staff user who created the course. */
  lemma ApproverIsCreatingStaff(status: CourseStatus, approvedBy: Option<UserId>, user: UserId, isStaff: bool,
                                change: bool)
    requires approvedBy.None? && AutoApproval(status, approvedBy, user, isStaff, change).1.Some?
    ensures isStaff && !change
    ensures AutoApproval(status, approvedBy, user, isStaff, change) == (Active, Some(user))
  {
  }

  /** `save_model(request, obj, form, change)`; `approved_at` is never set here. */
  method SaveModel(obj: Course, user: UserId, isStaff: bool, change: bool)
    modifies obj
    ensures (obj.status, obj.approvedBy) == AutoApproval(old(obj.status), old(obj.approvedBy), user, isStaff, change)
    ensures obj.approvedAt == old(obj.approvedAt) && obj.title == old(obj.title)
  {
    if !change && obj.approvedBy.None? {
      if isStaff {
        obj.status := Active;
        obj.approvedBy := Some(user);
      }
    }
  }
}
