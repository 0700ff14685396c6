/** `FavoriteViewSet.toggle` of villas/views.py: a signed-in requester marks a
    property as a favourite, or unmarks it if it already was one. The
    favourites table is the set of (user, property) pairs it holds. */
module Favorites {
  import opened Requests

  type PropertyId = nat

  /** The answers of `toggle`: 200 with `is_favorited` false, 201 with
      `is_favorited` true, 400 when no property is named, and the refusal of
      the `IsAuthenticated` gate. */
  datatype ToggleReply = Removed | Added | PropertyRequired | Denied
  {
    /** The `is_favorited` flag of a successful answer. */
    predicate IsFavorited() { this == Added }
  }

  /** The pairs after flipping `(user, property)`. */
  function Toggled(pairs: set<(UserId, PropertyId)>, user: UserId, property: PropertyId): (r: set<(UserId, PropertyId)>)
    ensures (user, property) in r <==> (user, property) !in pairs
    ensures forall p :: p != (user, property) ==> (p in r <==> p in pairs)
  {
    if (user, property) in pairs then pairs - {(user, property)} else pairs + {(user, property)}
  }

  /** Flipping the same pair twice restores the table. */
  lemma ToggleTwice(pairs: set<(UserId, PropertyId)>, user: UserId, property: PropertyId)
    ensures Toggled(Toggled(pairs, user, property), user, property) == pairs
  {
  }

  /** Flips on different pairs commute: one requester's toggles never undo
      another's. */
  lemma TogglesCommute(pairs: set<(UserId, PropertyId)>, u1: UserId, p1: PropertyId, u2: UserId, p2: PropertyId)
    ensures Toggled(Toggled(pairs, u1, p1), u2, p2) == Toggled(Toggled(pairs, u2, p2), u1, p1)
  {
  }

  class FavoriteStore {
    var pairs: set<(UserId, PropertyId)>

    constructor ()
      ensures pairs == {}
    {
      pairs := {};
    }

    /** `toggle`. `property` is `request.data.get("property")`, `None` when
        it is missing or empty. */
    method Toggle(u: Requester, property: Option<PropertyId>) returns (reply: ToggleReply)
      modifies this
      ensures !u.IsAuthenticated() ==> reply == Denied && pairs == old(pairs)
      ensures u.IsAuthenticated() && property.None? ==> reply == PropertyRequired && pairs == old(pairs)
      ensures u.IsAuthenticated() && property.Some? ==>
        && pairs == Toggled(old(pairs), u.id, property.value)
        && (reply == Removed <==> (u.id, property.value) in old(pairs))
        && (reply == Added <==> (u.id, property.value) !in old(pairs))
        && (reply.IsFavorited() <==> (u.id, property.value) in pairs)
    {
      if !u.IsAuthenticated() {
        return Denied;
      }
      if property.None? {
        return PropertyRequired;
      }
      var key := (u.id, property.value);
      if key in pairs {
        pairs := pairs - {key};
        return Removed;
      }
      pairs := pairs + {key};
      return Added;
    }
  }
}
