/** The `get_permissions` tables of `PropertyViewSet` and `BookingViewSet`
    (villas/views.py), and how Django REST framework evaluates the permission
    classes they pick: every class must pass `has_permission`, and for a
    request about one object also `has_object_permission`; a class that does
    not override a method passes it; `A | B` passes a check when A passes both
    its checks or B passes both of its own. */
module ViewPermissions {
  import opened Requests
  import opened AccountPermissions

  datatype Action = List | Retrieve | Create | Update | PartialUpdate | Destroy | Custom(name: string)

  datatype Guard =
    | AllowAny
    | IsAuthenticated
    | AdminOrManager
    | AgentWithFullAccess
    | OwnerOrAdminOrManager
    | Either(left: Guard, right: Guard)

  predicate HasPermission(g: Guard, u: Requester) {
    match g
    case AllowAny => true
    case IsAuthenticated => u.IsAuthenticated()
    case AdminOrManager => IsAdminOrManager(u)
    case AgentWithFullAccess => true
    case OwnerOrAdminOrManager => true
    case Either(a, b) => HasPermission(a, u) || HasPermission(b, u)
  }

  predicate HasObjectPermission(g: Guard, u: Requester, obj: Target) {
    match g
    case AllowAny => true
    case IsAuthenticated => true
    case AdminOrManager => true
    case AgentWithFullAccess => IsAgentWithFullAccess(u, obj)
    case OwnerOrAdminOrManager => IsOwnerOrAdminOrManager(u, obj)
    case Either(a, b) =>
      (HasPermission(a, u) && HasObjectPermission(a, u, obj)) ||
      (HasPermission(b, u) && HasObjectPermission(b, u, obj))
  }

  /** The request passes every guard; `obj` is the object it is about, if any. */
  predicate Admits(guards: seq<Guard>, u: Requester, obj: Option<Target>) {
    forall g :: g in guards ==> HasPermission(g, u) && (obj.Some? ==> HasObjectPermission(g, u, obj.value))
  }

  /** A one-class list admits exactly what its class admits. */
  lemma AdmitsOne(g: Guard, u: Requester, obj: Option<Target>)
    ensures Admits([g], u, obj) <==> HasPermission(g, u) && (obj.Some? ==> HasObjectPermission(g, u, obj.value))
  {
    assert g in [g];
  }

  /** `PropertyViewSet.get_permissions`. */
  function PropertyGuards(a: Action): (gs: seq<Guard>)
    ensures |gs| == 1
  {
    if a == List || a == Retrieve then [AllowAny]
    else if a == Create then [AdminOrManager]
    else if a == Update || a == PartialUpdate then [Either(AdminOrManager, AgentWithFullAccess)]
    else if a == Destroy then [AdminOrManager]
    else [IsAuthenticated]
  }

  /** `BookingViewSet.get_permissions`. */
  function BookingGuards(a: Action): (gs: seq<Guard>)
    ensures |gs| == 1
  {
    if a == Create then [IsAuthenticated]
    else if a == Retrieve then [OwnerOrAdminOrManager]
    else if a == Update || a == PartialUpdate || a == Destroy then [AdminOrManager]
    else [IsAuthenticated]
  }

  /** Properties: anyone may list and read them; only admins and managers may
      create or delete one; a property may be edited by an admin or manager
      or by its assigned agent holding `full_access`; any other action needs
      a signed-in requester. */
  lemma PropertyAccess(a: Action, u: Requester, obj: Option<Target>)
    ensures a == List || a == Retrieve ==> Admits(PropertyGuards(a), u, obj)
    ensures a == Create || a == Destroy ==> (Admits(PropertyGuards(a), u, obj) <==> IsAdminOrManager(u))
    ensures (a == Update || a == PartialUpdate) && obj.Some? ==>
      (Admits(PropertyGuards(a), u, obj) <==> IsAdminOrManager(u) || IsAgentWithFullAccess(u, obj.value))
    ensures a.Custom? ==> (Admits(PropertyGuards(a), u, obj) <==> u.Member?)
  {
    var gs := PropertyGuards(a);
    assert gs == [gs[0]];
    AdmitsOne(gs[0], u, obj);
    if (a == Update || a == PartialUpdate) && obj.Some? {
      var g := Either(AdminOrManager, AgentWithFullAccess);
      assert HasPermission(g, u);
      assert HasObjectPermission(g, u, obj.value) <==> IsAdminOrManager(u) || IsAgentWithFullAccess(u, obj.value);
    }
  }

  /** Bookings: signed-in requesters may create and list; reading one is for
      admins, managers and its owner; changing or deleting one is for admins
      and managers only. */
  lemma BookingAccess(a: Action, u: Requester, obj: Option<Target>)
    ensures a == Create || a == List || a.Custom? ==> (Admits(BookingGuards(a), u, obj) <==> u.Member?)
    ensures a == Retrieve && obj.Some? ==>
      (Admits(BookingGuards(a), u, obj) <==> IsAdminOrManager(u) || u.Is(obj.value.owner))
    ensures a == Update || a == PartialUpdate || a == Destroy ==>
      (Admits(BookingGuards(a), u, obj) <==> IsAdminOrManager(u))
  {
    var gs := BookingGuards(a);
    assert gs == [gs[0]];
    AdmitsOne(gs[0], u, obj);
  }
}
