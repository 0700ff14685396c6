/** `UserDeleteView.delete` of accounts/views.py: who may delete an account,
    and the two ways a permitted deletion ends, a real delete or, when the
    cascade fails, an anonymised and deactivated account. */
module Accounts {
  import opened Requests
  import opened Text

  datatype UserRecord = UserRecord(email: string, name: string, role: string, isStaff: bool, isActive: bool)

  /** 403/401 from the `IsAuthenticated` gate, 404 for an unknown key, 403
      for a requester who may not delete the target, and 204. */
  datatype DeleteReply = NotAuthenticated | NotFound | Forbidden | NoContent

  /** Staff, the `admin` role, or the account itself. */
  predicate MayDelete(u: Requester, target: UserId) {
    u.Staff() || u.Role() == Some("admin") || u.Is(Some(target))
  }

  const DeletedPrefix := "deleted_user_"
  const DeletedDomain := "@example.invalid"
  const DeletedName := "[deleted]"

  /** The address an anonymised account gets. */
  function AnonymousEmail(pk: UserId): string {
    DeletedPrefix + NatToString(pk) + DeletedDomain
  }

  /** The fallback: email, name and `is_active` overwritten, role and staff
      flag kept. */
  function Anonymised(r: UserRecord, pk: UserId): UserRecord {
    r.(email := AnonymousEmail(pk), name := DeletedName, isActive := false)
  }

  /** The table after a permitted deletion of `pk`; `cascadeFails` says
      whether `target.delete()` raised `OperationalError`. */
  function AfterDelete(users: map<UserId, UserRecord>, pk: UserId, cascadeFails: bool): (r: map<UserId, UserRecord>)
    requires pk in users
    ensures pk in r <==> cascadeFails
    ensures pk in r ==> !r[pk].isActive && r[pk].role == users[pk].role && r[pk].isStaff == users[pk].isStaff
  {
    if cascadeFails then users[pk := Anonymised(users[pk], pk)] else users - {pk}
  }

  class UserTable {
    var users: map<UserId, UserRecord>

    constructor (initial: map<UserId, UserRecord>)
      ensures users == initial
    {
      users := initial;
    }

    /** `delete(request, pk)`. */
    method Delete(u: Requester, pk: UserId, cascadeFails: bool) returns (reply: DeleteReply)
      modifies this
      ensures !u.IsAuthenticated() ==> reply == NotAuthenticated && users == old(users)
      ensures u.IsAuthenticated() && pk !in old(users) ==> reply == NotFound && users == old(users)
      ensures u.IsAuthenticated() && pk in old(users) && !MayDelete(u, pk) ==>
        reply == Forbidden && users == old(users)
      ensures u.IsAuthenticated() && pk in old(users) && MayDelete(u, pk) ==>
        reply == NoContent && users == AfterDelete(old(users), pk, cascadeFails)
    {
      if !u.IsAuthenticated() {
        return NotAuthenticated;
      }
      if pk !in users {
        return NotFound;
      }
      var isAdminRole := u.Role() == Some("admin");
      if !(u.Staff() || isAdminRole || u.id == pk) {
        return Forbidden;
      }
      if !cascadeFails {
        users := users - {pk};
        return NoContent;
      }
      var target := users[pk];
      target := target.(email := DeletedPrefix + NatToString(pk) + DeletedDomain);
      target := target.(name := DeletedName);
      target := target.(isActive := false);
      users := users[pk := target];
      return NoContent;
    }
  }

  /** A signed-in requester who is neither staff nor an admin may delete only
      their own account. */
  lemma OnlySelfUnlessPrivileged(u: Requester, target: UserId)
    requires u.Member? && !u.isStaff && u.role != "admin"
    ensures MayDelete(u, target) <==> target == u.id
  {
  }

  /** After a permitted deletion the target is gone or inactive under its
      anonymous address and name, and every other account is as it was. */
  lemma DeleteEffect(users: map<UserId, UserRecord>, pk: UserId, cascadeFails: bool)
    requires pk in users
    ensures var after := AfterDelete(users, pk, cascadeFails);
      && (pk !in after || (!after[pk].isActive && after[pk].email == AnonymousEmail(pk) && after[pk].name == DeletedName))
      && (pk in after <==> cascadeFails)
      && after.Keys - {pk} == users.Keys - {pk}
      && (forall other :: other in users && other != pk ==> after[other] == users[other])
  {
  }

  /** The anonymous address spells the account's key in decimal between its
      prefix and domain, so two anonymised accounts never share an
      address. */
  lemma AnonymousEmailsDistinct(a: UserId, b: UserId)
    ensures AnonymousEmail(a) == AnonymousEmail(b) <==> a == b
  {
    if AnonymousEmail(a) == AnonymousEmail(b) {
      var ea, eb := AnonymousEmail(a), AnonymousEmail(b);
      assert ea[|DeletedPrefix|..|ea| - |DeletedDomain|] == NatToString(a);
      assert eb[|DeletedPrefix|..|eb| - |DeletedDomain|] == NatToString(b);
      NatToStringInjective(a, b);
    }
  }
}
