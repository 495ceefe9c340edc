/**
 * The role-based permission checks of the webinar endpoints. A request-level check sees
 * only the caller; the object-level check of `IsAdminOrHostOwner` also sees the webinar.
 * The framework runs the request-level check first and the object-level one only after it.
 */
module Permissions {
  import opened Models
  import WebinarSerializers

  /** An authenticated caller holding the admin role. */
  predicate IsAdminUser(c: Caller) {
    c.SignedIn? && c.user.role == Admin
  }

  /** An authenticated caller holding the host role. */
  predicate IsHostUser(c: Caller) {
    c.SignedIn? && c.user.role == Host
  }

  /** An authenticated caller holding the attendee role. */
  predicate IsAttendeeUser(c: Caller) {
    c.SignedIn? && c.user.role == Attendee
  }

  /** The request-level check of `IsAdminOrHostOwner`: an authenticated admin or host. */
  function AdminOrHost(c: Caller): (granted: bool)
    ensures granted <==> IsAdminUser(c) || IsHostUser(c)
    ensures granted ==> !IsAttendeeUser(c)
  {
    c.SignedIn? && (c.user.role == Admin || c.user.role == Host)
  }

  /**
   * The object-level check of `IsAdminOrHostOwner`: an admin may act on any webinar, a host
   * only on one it hosts, and any other role on none.
   */
  function OwnerOrAdmin(u: User, w: Webinar): (granted: bool)
    ensures u.role == Admin ==> granted
    ensures u.role == Host ==> (granted <==> w.hostId == u.id)
    ensures u.role == Attendee ==> !granted
  {
    if u.role == Admin then true
    else if u.role == Host then w.hostId == u.id
    else false
  }

  /** Both checks of `IsAdminOrHostOwner` in the framework's order; the object check needs an account. */
  function MayManage(c: Caller, w: Webinar): bool {
    AdminOrHost(c) && OwnerOrAdmin(c.user, w)
  }

  /** Who may manage a webinar: any admin, and its own host; nobody else and never an anonymous caller. */
  lemma MayManageExactly(c: Caller, w: Webinar)
    ensures MayManage(c, w) <==>
      c.SignedIn? && (c.user.role == Admin || (c.user.role == Host && w.hostId == c.user.id))
  {
  }

  /** An anonymous caller passes none of the checks. */
  lemma AnonymousIsDenied(w: Webinar)
    ensures !IsAdminUser(Anonymous) && !IsHostUser(Anonymous) && !IsAttendeeUser(Anonymous)
    ensures !AdminOrHost(Anonymous) && !MayManage(Anonymous, w)
  {
  }

  /** Every authenticated caller passes exactly one of the three single-role checks. */
  lemma ExactlyOneRole(u: User)
    ensures IsAdminUser(SignedIn(u)) || IsHostUser(SignedIn(u)) || IsAttendeeUser(SignedIn(u))
    ensures !(IsAdminUser(SignedIn(u)) && IsHostUser(SignedIn(u)))
    ensures !(IsAdminUser(SignedIn(u)) && IsAttendeeUser(SignedIn(u)))
    ensures !(IsHostUser(SignedIn(u)) && IsAttendeeUser(SignedIn(u)))
  {
  }

  /**
   * A webinar's host, once accepted by the host validator, may manage the webinar: the
   * validator and the ownership check agree.
   */
  lemma AcceptedHostMayManage(u: User, w: Webinar)
    requires WebinarSerializers.ValidateHost(u).Ok?
    requires w.hostId == u.id
    ensures IsHostUser(SignedIn(u)) && MayManage(SignedIn(u), w)
  {
  }

  /** A host may not manage another host's webinar. */
  lemma ForeignHostIsDenied(u: User, w: Webinar)
    requires u.role == Host && w.hostId != u.id
    ensures !MayManage(SignedIn(u), w)
  {
  }
}
