/** `PropertyViewSet` of villas/views.py: which properties a requester sees,
    and the checks `create` makes on the bedroom images and the
    `bedrooms_meta` JSON that describes them. */
module Properties {
  import opened Requests
  import Queries

  datatype PropertyStatus = Draft | Published | Archived

  datatype Property = Property(id: nat, status: PropertyStatus, assignedAgent: Option<UserId>, createdAt: int)

  /** The row filter of `get_queryset`. */
  predicate VisibleTo(u: Requester, p: Property) {
    if !u.IsAuthenticated() then p.status == Published
    else if u.role in ["admin", "manager"] then true
    else if u.role == "agent" then p.assignedAgent == Some(u.id)
    else p.status == Published
  }

  function CreatedAt(p: Property): int { p.createdAt }

  /** `get_queryset`: the visible properties, newest first. */
  function Listing(u: Requester, rows: seq<Property>): seq<Property> {
    Queries.NewestFirst(Queries.Filter(rows, p => VisibleTo(u, p)), CreatedAt)
  }

  /** Signed-out requesters and customers see the published properties,
      admins and managers see all, an agent sees those assigned to them; the
      list is newest first and holds each visible row as often as the table. */
  lemma ListingDecision(u: Requester, rows: seq<Property>, p: Property)
    ensures Queries.NewestFirstOrder(Listing(u, rows), CreatedAt)
    ensures multiset(Listing(u, rows))[p] == if VisibleTo(u, p) then multiset(rows)[p] else 0
    ensures p in Listing(u, rows) <==>
      p in rows &&
      (if u.Anonymous? then p.status == Published
       else if u.role == "admin" || u.role == "manager" then true
       else if u.role == "agent" then p.assignedAgent == Some(u.id)
       else p.status == Published)
  {
    var l := Listing(u, rows);
    assert p in l <==> p in multiset(l);
    assert p in rows <==> p in multiset(rows);
  }

  // ---------------------------------------------------------------------
  // Bedroom images and their metadata.

  /** One object of the `bedrooms_meta` list; `None` marks a missing key. */
  datatype MetaEntry = MetaEntry(index: Option<int>, name: Option<string>, description: Option<string>)

  datatype BedroomError =
    | MetadataRequired
    | ImagesRequired
    | InvalidJson
    | CountMismatch(images: nat, entries: nat)
    | MissingKeys
    | NotSequential
    | EmptyImage(position: nat)

  /** A `BedroomImage` row: the upload at `position` with its entry's name and
      description. */
  datatype BedroomImage = BedroomImage(position: nat, name: Option<string>, description: Option<string>)

  datatype Result<T, E> = Ok(value: T) | Err(error: E)

  /** `json.loads` is not part of this model: any parser may stand for it.
      `OmittedMetadataCountsNoEntries` states what follows when it reads
      `'[]'` as the empty list, as `json.loads` does. */
  type MetaParser = string -> Option<seq<MetaEntry>>

  /** `request.data.get('bedrooms_meta', '[]')`. */
  function RawMeta(rowMeta: Option<string>): string {
    if rowMeta.None? then "[]" else rowMeta.value
  }

  predicate HasKeys(e: MetaEntry) {
    e.index.Some? && e.name.Some?
  }

  /** `m.get('index')` of each entry; a missing index reads as -1, which no
      permutation of `0..n-1` contains. */
  function Indexes(meta: seq<MetaEntry>): (r: seq<int>)
    ensures |r| == |meta|
    ensures forall i :: 0 <= i < |meta| ==> r[i] == if meta[i].index.Some? then meta[i].index.value else -1
  {
    if meta == [] then [] else [if meta[0].index.Some? then meta[0].index.value else -1] + Indexes(meta[1..])
  }

  /** `list(range(n))`. */
  function Range(n: nat): (r: seq<int>)
    ensures |r| == n && forall i :: 0 <= i < n ==> r[i] == i
  {
    if n == 0 then [] else Range(n - 1) + [n - 1]
  }

  /** The first position of an empty upload, if there is one. */
  function FirstEmpty(images: seq<bool>): (k: Option<nat>)
    ensures k.Some? ==> k.value < |images| && !images[k.value] && forall i :: 0 <= i < k.value ==> images[i]
    ensures k.None? ==> forall i :: 0 <= i < |images| ==> images[i]
  {
    if images == [] then None
    else if !images[0] then Some(0)
    else match FirstEmpty(images[1..])
      case None => None
      case Some(k) => Some(k + 1)
  }

  /** The entry whose index is `position` (the source's `meta_map[position]`). */
  function EntryAt(meta: seq<MetaEntry>, position: nat): (e: MetaEntry)
    requires exists j :: 0 <= j < |meta| && meta[j].index == Some(position)
    ensures e in meta && e.index == Some(position)
  {
    if meta[0].index == Some(position) then meta[0] else EntryAt(meta[1..], position)
  }

  /** The checks `create` makes once the metadata list is known: the count,
      the keys, the index test, then the uploads one by one. */
  function EntriesCheck(images: seq<bool>, meta: seq<MetaEntry>): (r: Result<seq<BedroomImage>, BedroomError>)
    ensures r.Ok? ==> |meta| == |images| == |r.value| && FirstEmpty(images).None?
    ensures r == Err(MissingKeys) ==> exists i :: 0 <= i < |meta| && !HasKeys(meta[i])
  {
    if |meta| != |images| then Err(CountMismatch(|images|, |meta|))
    else if exists i :: 0 <= i < |meta| && !HasKeys(meta[i]) then Err(MissingKeys)
    else if multiset(Indexes(meta)) != multiset(Range(|meta|)) then Err(NotSequential)
    else if FirstEmpty(images).Some? then Err(EmptyImage(FirstEmpty(images).value))
    else Ok(Paired(images, meta))
  }

  /** Upload k with the name and description of the entry whose index is k. */
  function Paired(images: seq<bool>, meta: seq<MetaEntry>): (r: seq<BedroomImage>)
    requires |meta| == |images| && multiset(Indexes(meta)) == multiset(Range(|meta|))
    ensures |r| == |images|
  {
    assert forall k :: 0 <= k < |images| ==> exists j :: 0 <= j < |meta| && meta[j].index == Some(k) by {
      forall k | 0 <= k < |images| ensures exists j :: 0 <= j < |meta| && meta[j].index == Some(k) {
        IndexPresent(meta, k);
      }
    }
    seq(|images|, k requires 0 <= k < |images| => BedroomImage(k, EntryAt(meta, k).name, EntryAt(meta, k).description))
  }

  /** The sequence of checks in `create`, each failing with its own error,
      first failure first. `images[k]` says whether upload k is non-empty; the
      order of indexes is compared as `sorted(indexes) == list(range(n))`,
      that is, as equal multisets. */
  function BedroomCheck(images: seq<bool>, rowMeta: Option<string>, parse: MetaParser): (r: Result<seq<BedroomImage>, BedroomError>)
    ensures r.Ok? ==> |r.value| == |images|
    ensures r == Err(InvalidJson) ==> parse(RawMeta(rowMeta)).None?
  {
    var raw := RawMeta(rowMeta);
    if |images| > 0 && raw == "" then Err(MetadataRequired)
    else if raw != "" && |images| == 0 then Err(ImagesRequired)
    else if raw != "" && parse(raw).None? then Err(InvalidJson)
    else EntriesCheck(images, if raw == "" then [] else parse(raw).value)
  }

  /** Images sent without `bedrooms_meta` meet the default `'[]'`, which
      parses to no entries, so the count test refuses them. */
  lemma OmittedMetadataCountsNoEntries(images: seq<bool>, parse: MetaParser)
    requires parse("[]") == Some([])
    requires |images| > 0
    ensures BedroomCheck(images, None, parse) == Err(CountMismatch(|images|, 0))
  {
  }

  /** Indexes that are a permutation of `0..n-1` name every position. */
  lemma IndexPresent(meta: seq<MetaEntry>, k: nat)
    requires multiset(Indexes(meta)) == multiset(Range(|meta|))
    requires k < |meta|
    ensures exists j :: 0 <= j < |meta| && meta[j].index == Some(k)
  {
    var xs := Indexes(meta);
    InRange(|meta|, k);
    assert k in multiset(xs);
    var j := Position(xs, k);
    assert meta[j].index == Some(k);
  }

  lemma InRange(n: nat, k: nat)
    requires k < n
    ensures k in multiset(Range(n))
  {
    var r := Range(n);
    assert r[k] == k;
    assert k in r;
  }

  /** A position of a value the sequence holds. */
  function Position(xs: seq<int>, k: int): (j: nat)
    requires k in multiset(xs)
    ensures j < |xs| && xs[j] == k
  {
    if xs[0] == k then 0
    else
      assert xs == [xs[0]] + xs[1..];
      1 + Position(xs[1..], k)
  }

  /** The imperative rendering of `BedroomCheck`: the checks of
      `PropertyViewSet.create`, as the source runs them, the presence tests
      and the parse, then the checks on the entries. */
  method ValidateBedrooms(images: seq<bool>, rowMeta: Option<string>, parse: MetaParser)
    returns (r: Result<seq<BedroomImage>, BedroomError>)
    ensures r == BedroomCheck(images, rowMeta, parse)
  {
    var raw := RawMeta(rowMeta);
    if |images| > 0 && raw == "" {
      return Err(MetadataRequired);
    }
    if raw != "" && |images| == 0 {
      return Err(ImagesRequired);
    }
    var meta: seq<MetaEntry> := [];
    if raw != "" {
      var parsed := parse(raw);
      if parsed.None? {
        return Err(InvalidJson);
      }
      meta := parsed.value;
    }
    r := ValidateEntries(images, meta);
  }

  /** The count test, the key test, the index test, then the uploads. */
  method ValidateEntries(images: seq<bool>, meta: seq<MetaEntry>) returns (r: Result<seq<BedroomImage>, BedroomError>)
    ensures r == EntriesCheck(images, meta)
  {
    if |meta| != |images| {
      return Err(CountMismatch(|images|, |meta|));
    }
    var complete := AllHaveKeys(meta);
    if !complete {
      return Err(MissingKeys);
    }
    if multiset(Indexes(meta)) != multiset(Range(|meta|)) {
      return Err(NotSequential);
    }
    r := PairUploads(images, meta);
  }

  /** The loop over the entries that refuses one without `index` or `name`. */
  method AllHaveKeys(meta: seq<MetaEntry>) returns (complete: bool)
    ensures complete <==> forall i :: 0 <= i < |meta| ==> HasKeys(meta[i])
  {
    var i := 0;
    while i < |meta|
      invariant 0 <= i <= |meta|
      invariant forall j :: 0 <= j < i ==> HasKeys(meta[j])
    {
      if !HasKeys(meta[i]) {
        return false;
      }
      i := i + 1;
    }
    return true;
  }

  /** The loop over the uploads: it stops at the first empty one and
      otherwise pairs each with its entry (`meta_map[idx]`). */
  method PairUploads(images: seq<bool>, meta: seq<MetaEntry>) returns (r: Result<seq<BedroomImage>, BedroomError>)
    requires |meta| == |images| && multiset(Indexes(meta)) == multiset(Range(|meta|))
    ensures r == if FirstEmpty(images).Some? then Err(EmptyImage(FirstEmpty(images).value)) else Ok(Paired(images, meta))
  {
    var created: seq<BedroomImage> := [];
    var idx := 0;
    while idx < |images|
      invariant 0 <= idx <= |images|
      invariant forall k :: 0 <= k < idx ==> images[k]
      invariant created == Paired(images, meta)[..idx]
    {
      if !images[idx] {
        FirstEmptyIs(images, idx);
        return Err(EmptyImage(idx));
      }
      IndexPresent(meta, idx);
      var entry := EntryAt(meta, idx);
      created := created + [BedroomImage(idx, entry.name, entry.description)];
      idx := idx + 1;
    }
    assert created == Paired(images, meta);
    r := Ok(created);
  }

  /** The first empty upload is the one no earlier empty upload precedes. */
  lemma FirstEmptyIs(images: seq<bool>, idx: nat)
    requires idx < |images| && !images[idx] && forall k :: 0 <= k < idx ==> images[k]
    ensures FirstEmpty(images) == Some(idx)
  {
  }

  /** The entries are accepted exactly when their count is the number of
      uploads, each has `index` and `name`, the indexes are `0..n-1` in some
      order and no upload is empty. */
  lemma EntriesAcceptedIff(images: seq<bool>, meta: seq<MetaEntry>)
    ensures EntriesCheck(images, meta).Ok? <==>
      && |meta| == |images|
      && (forall i :: 0 <= i < |meta| ==> HasKeys(meta[i]))
      && multiset(Indexes(meta)) == multiset(Range(|meta|))
      && (forall k :: 0 <= k < |images| ==> images[k])
  {
    var fe := FirstEmpty(images);
    if fe.Some? {
      assert !images[fe.value];
    }
  }

  /** Metadata is accepted exactly when images and metadata are both present
      or both absent (an omitted `bedrooms_meta` counting as present), the
      parse succeeds and the parsed entries are accepted. */
  lemma AcceptedIff(images: seq<bool>, rowMeta: Option<string>, parse: MetaParser)
    ensures BedroomCheck(images, rowMeta, parse).Ok? <==>
      var raw := RawMeta(rowMeta);
      && (|images| > 0 <==> raw != "")
      && (raw != "" ==> parse(raw).Some?)
      && EntriesCheck(images, if raw == "" then [] else parse(raw).value).Ok?
  {
  }

  /** Once accepted, upload k is saved with the name and description of the
      entry whose index is k. */
  lemma AcceptedPairsEveryImage(images: seq<bool>, rowMeta: Option<string>, parse: MetaParser, k: nat)
    requires BedroomCheck(images, rowMeta, parse).Ok?
    requires k < |images|
    ensures var created := BedroomCheck(images, rowMeta, parse).value;
      && |created| == |images|
      && exists e :: e in parse(RawMeta(rowMeta)).value && e.index == Some(k) &&
           created[k] == BedroomImage(k, e.name, e.description)
  {
    var raw := RawMeta(rowMeta);
    assert raw != "";
    var meta := parse(raw).value;
    var r := EntriesCheck(images, meta);
    assert BedroomCheck(images, rowMeta, parse) == r;
    assert r.Ok? && r.value == Paired(images, meta);
    IndexPresent(meta, k);
    var e := EntryAt(meta, k);
    assert e in meta && e.index == Some(k);
  }

  /** An omitted `bedrooms_meta` reads as `'[]'`, which is not empty, so a
      property sent with neither bedroom images nor metadata is refused. */
  lemma OmittedMetadataWithoutImagesRefused(parse: MetaParser)
    ensures BedroomCheck([], None, parse) == Err(ImagesRequired)
  {
  }
}
