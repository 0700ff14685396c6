/** What every view reads from a request: the user it comes from and its HTTP
    method. `request.user` is either Django's anonymous user or an account
    with a role string (`admin`, `manager`, `agent`, `customer`, ...), the
    `is_staff` flag and an agent permission string (`full_access`, ...). */
module Requests {

  datatype Option<T> = None | Some(value: T)

  type UserId = nat

  datatype Requester =
    | Anonymous
    | Member(id: UserId, role: string, isStaff: bool, permission: string)
  {
    predicate IsAuthenticated() { Member? }

    /** `getattr(user, 'role', None)`: the anonymous user has no role. */
    function Role(): Option<string> {
      if Member? then Some(role) else None
    }

    /** `getattr(user, 'is_staff', False)`. */
    predicate Staff() { Member? && isStaff }

    /** `model_instance == request.user` for a nullable user reference:
        equal primary keys; the anonymous user equals no stored user. */
    predicate Is(ref: Option<UserId>) {
      Member? && ref == Some(id)
    }
  }

  datatype Method = GET | HEAD | OPTIONS | POST | PUT | PATCH | DELETE

  /** `request.method in SAFE_METHODS`. */
  predicate IsSafe(m: Method) {
    m == GET || m == HEAD || m == OPTIONS
  }
}
