/** The role predicates of accounts/permissions.py. Each is a decision over
    the requester (and, at object level, the object's assigned agent or owning
    user); none changes state. The predicates follow the source's branches;
    the lemmas state the decision each one makes. */
module AccountPermissions {
  import opened Requests

  /** The parts of a model instance the object-level checks read:
      `obj.assigned_agent` of a property and `obj.user` of a booking. */
  datatype Target = Target(assignedAgent: Option<UserId>, owner: Option<UserId>)

  predicate IsAdmin(u: Requester) {
    u.IsAuthenticated() && u.Role() == Some("admin")
  }

  predicate IsAdminOrManager(u: Requester) {
    if !u.IsAuthenticated() then false
    else u.IsAuthenticated() && u.role in ["admin", "manager"]
  }

  /** Object level only: the role is never consulted. */
  predicate IsAgentWithFullAccess(u: Requester, obj: Target) {
    u.Is(obj.assignedAgent) && u.permission == "full_access"
  }

  predicate IsAssignedAgentReadOnly(m: Method, u: Requester, obj: Target) {
    if IsSafe(m) then u.Is(obj.assignedAgent) else false
  }

  predicate IsOwnerOrAdminOrManager(u: Requester, obj: Target) {
    if u.IsAuthenticated() && u.role in ["admin", "manager"] then true
    else u.Is(obj.owner)
  }

  predicate IsAgentOrAdminOrManager(u: Requester) {
    if u.IsAuthenticated() && u.role in ["agent", "admin", "manager"] then true else false
  }

  predicate IsAgent(u: Requester) {
    u.IsAuthenticated() && u.Role() == Some("agent")
  }

  /** `IsAdmin`: a signed-in requester whose role is `admin`. */
  lemma AdminDecision(u: Requester)
    ensures IsAdmin(u) <==> u.Member? && u.role == "admin"
  {
  }

  /** `IsAdminOrManager` refuses the anonymous user and otherwise grants the
      roles `admin` and `manager`. */
  lemma AdminOrManagerDecision(u: Requester)
    ensures !u.IsAuthenticated() ==> !IsAdminOrManager(u)
    ensures IsAdminOrManager(u) <==> u.Member? && (u.role == "admin" || u.role == "manager")
  {
  }

  /** `IsAgent` grants signed-in agents; `IsAgentOrAdminOrManager` grants
      exactly those `IsAgent` or `IsAdminOrManager` grants. */
  lemma AgentDecisions(u: Requester)
    ensures IsAgent(u) <==> u.Member? && u.role == "agent"
    ensures IsAgentOrAdminOrManager(u) <==> IsAgent(u) || IsAdminOrManager(u)
    ensures IsAgentOrAdminOrManager(u) <==> u.Member? && (u.role == "agent" || u.role == "admin" || u.role == "manager")
  {
  }

  /** The roles nest: an admin passes every admin-or-manager check, and an
      admin or manager passes every agent-admin-manager check. */
  lemma RolesNest(u: Requester)
    ensures IsAdmin(u) ==> IsAdminOrManager(u)
    ensures IsAdminOrManager(u) ==> IsAgentOrAdminOrManager(u)
    ensures IsAgent(u) ==> !IsAdminOrManager(u)
  {
  }

  /** Full access is the assigned agent holding the `full_access` permission,
      whatever its role; nobody else, and never the anonymous user. */
  lemma FullAccessDecision(u: Requester, obj: Target)
    ensures IsAgentWithFullAccess(u, obj) <==>
      u.Member? && obj.assignedAgent == Some(u.id) && u.permission == "full_access"
  {
  }

  /** The read-only check never grants an unsafe method, and grants a safe
      one to the assigned agent only. */
  lemma ReadOnlyDecision(m: Method, u: Requester, obj: Target)
    ensures !IsSafe(m) ==> !IsAssignedAgentReadOnly(m, u, obj)
    ensures IsSafe(m) ==> (IsAssignedAgentReadOnly(m, u, obj) <==> u.Member? && obj.assignedAgent == Some(u.id))
  {
  }

  /** Admins and managers always pass; anyone else passes exactly when the
      object belongs to them. An ownerless object passes admins and managers
      only. */
  lemma OwnerDecision(u: Requester, obj: Target)
    ensures IsAdminOrManager(u) ==> IsOwnerOrAdminOrManager(u, obj)
    ensures !IsAdminOrManager(u) ==> (IsOwnerOrAdminOrManager(u, obj) <==> u.Member? && obj.owner == Some(u.id))
    ensures obj.owner == None ==> (IsOwnerOrAdminOrManager(u, obj) <==> IsAdminOrManager(u))
  {
  }
}
