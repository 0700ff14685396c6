/** The two permission classes of villas/permissions.py. */
module VillaPermissions {
  import opened Requests

  /** `IsAdminAgentManager.has_permission`. */
  predicate AdminAgentManagerAllows(m: Method, u: Requester) {
    if IsSafe(m) then true
    else if !u.IsAuthenticated() then false
    else u.role in ["admin", "manager", "agent"] || u.Staff()
  }

  /** `IsBookingOwnerOrManager.has_permission`: POST and every other method
      take the same test. */
  predicate BookingOwnerOrManagerAllows(m: Method, u: Requester) {
    if m == POST then u.IsAuthenticated() else u.IsAuthenticated()
  }

  /** `IsBookingOwnerOrManager.has_object_permission` on a booking whose
      `user` is `owner` (null when the booking has no owner). */
  predicate BookingOwnerOrManagerAllowsOn(m: Method, u: Requester, owner: Option<UserId>) {
    if IsSafe(m) then true
    else if !u.IsAuthenticated() then false
    else if u.role in ["admin", "manager"] || u.Staff() then true
    else if owner.Some? && u.Is(owner) then true
    else false
  }

  /** Reading is open to everyone, signed in or not; changing needs a signed-in
      admin, manager, agent or staff member. */
  lemma AdminAgentManagerDecision(m: Method, u: Requester)
    ensures IsSafe(m) ==> AdminAgentManagerAllows(m, u)
    ensures !IsSafe(m) ==> (AdminAgentManagerAllows(m, u) <==>
      u.Member? && (u.role == "admin" || u.role == "manager" || u.role == "agent" || u.isStaff))
  {
  }

  /** The view-level test ignores the method: signed-in requesters pass. */
  lemma BookingOwnerOrManagerDecision(m: Method, u: Requester)
    ensures BookingOwnerOrManagerAllows(m, u) <==> u.Member?
  {
  }

  /** At object level an unsafe method is granted to a signed-in admin, manager
      or staff member, or to the booking's owner, and to nobody else; a booking
      without an owner can only be changed by admins, managers and staff. */
  lemma BookingOwnerOrManagerObjectDecision(m: Method, u: Requester, owner: Option<UserId>)
    ensures IsSafe(m) ==> BookingOwnerOrManagerAllowsOn(m, u, owner)
    ensures !IsSafe(m) ==> (BookingOwnerOrManagerAllowsOn(m, u, owner) <==>
      u.Member? && (u.role == "admin" || u.role == "manager" || u.isStaff || owner == Some(u.id)))
    ensures !IsSafe(m) && owner == None ==> (BookingOwnerOrManagerAllowsOn(m, u, owner) <==>
      u.Member? && (u.role == "admin" || u.role == "manager" || u.isStaff))
  {
  }
}
