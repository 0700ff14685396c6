/** `ResourceViewSet` of resources/views.py: the resource library staff may
    browse by category and by text, and the role guard on adding to it. */
module Resources {
  import opened Requests
  import opened Text
  import Queries

  datatype Resource = Resource(title: string, category: string, description: string, createdAt: int)

  /** Admins, managers and agents see the library; everyone else sees an
      empty list. */
  predicate MayBrowse(u: Requester) {
    u.IsAuthenticated() && u.role in ["admin", "manager", "agent"]
  }

  /** `?category=`: an exact match, skipped when absent or empty. */
  predicate InCategory(r: Resource, category: Option<string>) {
    category.None? || category.value == "" || r.category == category.value
  }

  /** `?search=`: title or description contains it ignoring case, skipped
      when absent or empty. */
  predicate MatchesSearch(r: Resource, search: Option<string>) {
    search.None? || search.value == "" || IContains(r.title, search.value) || IContains(r.description, search.value)
  }

  function CreatedAt(r: Resource): int { r.createdAt }

  /** `list`: the view set's `IsAuthenticated` gate refuses a signed-out
      requester (`None`) before `get_queryset` runs, which gives the whole
      library newest first, narrowed by the category and then by the search
      text; a filter the request does not ask for keeps every row. */
  function Listing(u: Requester, rows: seq<Resource>, category: Option<string>, search: Option<string>): Option<seq<Resource>> {
    if !u.IsAuthenticated() then None
    else if !MayBrowse(u) then Some([])
    else
      var ordered := Queries.NewestFirst(rows, CreatedAt);
      Some(Queries.Filter(Queries.Filter(ordered, (r: Resource) => InCategory(r, category)), (r: Resource) => MatchesSearch(r, search)))
  }

  /** A signed-out requester is refused; any other gets a listing that is
      newest first and holds exactly the resources that pass both filters,
      each as often as the table, and nothing when their role may not
      browse. */
  lemma ListingDecision(u: Requester, rows: seq<Resource>, category: Option<string>, search: Option<string>, r: Resource)
    ensures Listing(u, rows, category, search).Some? <==> u.IsAuthenticated()
    ensures u.IsAuthenticated() && !MayBrowse(u) ==> Listing(u, rows, category, search) == Some([])
    ensures u.IsAuthenticated() ==>
      var l := Listing(u, rows, category, search).value;
      && Queries.NewestFirstOrder(l, CreatedAt)
      && multiset(l)[r] ==
           (if MayBrowse(u) && InCategory(r, category) && MatchesSearch(r, search) then multiset(rows)[r] else 0)
      && (r in l <==> MayBrowse(u) && r in rows && InCategory(r, category) && MatchesSearch(r, search))
  {
    if MayBrowse(u) {
      var ordered := Queries.NewestFirst(rows, CreatedAt);
      var c := (x: Resource) => InCategory(x, category);
      Queries.FilterKeepsOrder(ordered, c, CreatedAt);
      Queries.FilterKeepsOrder(Queries.Filter(ordered, c), (x: Resource) => MatchesSearch(x, search), CreatedAt);
      var l := Listing(u, rows, category, search).value;
      assert r in l <==> r in multiset(l);
      assert r in rows <==> r in multiset(rows);
    }
  }

  /** The fields the resource serializer validates (not part of this model). */
  datatype ResourceData = ResourceData(title: string, category: string, description: string)

  /** 201, the 401 of the role guard, 400 from the serializer, and the
      refusal of the `IsAuthenticated` gate. */
  datatype CreateReply = Created | NotPermitted | Invalid | NotAuthenticated

  class ResourceTable {
    var rows: seq<Resource>

    constructor ()
      ensures rows == []
    {
      rows := [];
    }

    /** `create`: only admins and managers may add a resource; `now` stands
        for the `created_at` the database assigns. */
    method Create(u: Requester, data: Option<ResourceData>, now: int) returns (reply: CreateReply)
      modifies this
      ensures !u.IsAuthenticated() ==> reply == NotAuthenticated && rows == old(rows)
      ensures u.IsAuthenticated() && u.role !in ["admin", "manager"] ==> reply == NotPermitted && rows == old(rows)
      ensures u.IsAuthenticated() && u.role in ["admin", "manager"] && data.None? ==> reply == Invalid && rows == old(rows)
      ensures u.IsAuthenticated() && u.role in ["admin", "manager"] && data.Some? ==>
        reply == Created &&
        rows == old(rows) + [Resource(data.value.title, data.value.category, data.value.description, now)]
    {
      if !u.IsAuthenticated() {
        return NotAuthenticated;
      }
      if u.role !in ["admin", "manager"] {
        return NotPermitted;
      }
      if data.None? {
        return Invalid;
      }
      var d := data.value;
      rows := rows + [Resource(d.title, d.category, d.description, now)];
      return Created;
    }
  }
}
