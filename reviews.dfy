/** `ReviewViewSet` of villas/views.py: which reviews a signed-in requester
    sees, and `create`, which saves the review, refuses more than five images
    and stores the non-empty ones. */
module Reviews {
  import opened Requests
  import Queries

  /** The fields the review serializer validates (it is not part of this
      model); `approved` says whether the stored status is `APPROVED`. */
  datatype ReviewData = ReviewData(property: nat, rating: int, comment: string, approved: bool)

  datatype Review = Review(author: UserId, data: ReviewData)

  /** The status filter of `get_queryset`. */
  predicate VisibleTo(u: Requester, r: Review) {
    u.Role() == Some("admin") || u.Role() == Some("manager") || r.data.approved
  }

  /** `list`: the view is guarded by `IsAuthenticated`, so a signed-out
      requester is refused (`None`); admins and managers get every review and
      everyone else the approved ones. */
  function Listing(u: Requester, rows: seq<Review>): Option<seq<Review>> {
    if !u.IsAuthenticated() then None
    else Some(Queries.Filter(rows, r => VisibleTo(u, r)))
  }

  lemma ListingDecision(u: Requester, rows: seq<Review>, r: Review)
    ensures Listing(u, rows).Some? <==> u.Member?
    ensures u.Member? ==>
      && multiset(Listing(u, rows).value)[r] ==
           (if u.role == "admin" || u.role == "manager" || r.data.approved then multiset(rows)[r] else 0)
      && (r in Listing(u, rows).value <==>
           r in rows && (u.role == "admin" || u.role == "manager" || r.data.approved))
  {
  }

  // ---------------------------------------------------------------------
  // Images of a new review.

  /** One file of `request.FILES.getlist('images')`: whether it is truthy
      (a named file) and its `size`. */
  datatype Upload = Upload(present: bool, size: nat)

  /** `img and getattr(img, 'size', 0) > 0`. */
  predicate Stored(img: Upload) {
    img.present && img.size > 0
  }

  /** The most images one review may carry. */
  const MaxImages := 5

  /** The positions of the uploads that are stored, in upload order. */
  function Kept(images: seq<Upload>): seq<nat>
    decreases |images|
  {
    if images == [] then []
    else
      var rest := Kept(images[..|images| - 1]);
      if Stored(images[|images| - 1]) then rest + [|images| - 1] else rest
  }

  /** `Kept` lists every stored upload, once, in increasing order, and
      nothing else. */
  lemma {:induction false} KeptExactly(images: seq<Upload>)
    ensures forall i :: 0 <= i < |Kept(images)| ==> Kept(images)[i] < |images| && Stored(images[Kept(images)[i]])
    ensures forall k :: 0 <= k < |images| && Stored(images[k]) ==> k in Kept(images)
    ensures forall i, j :: 0 <= i < j < |Kept(images)| ==> Kept(images)[i] < Kept(images)[j]
    decreases |images|
  {
    if images != [] {
      var front := images[..|images| - 1];
      KeptExactly(front);
      assert forall k :: 0 <= k < |front| ==> front[k] == images[k];
    }
  }

  /** The loop `for img in images` of `create`: the positions of the images
      it stores. */
  method StoreImages(images: seq<Upload>) returns (stored: seq<nat>)
    ensures stored == Kept(images)
  {
    stored := [];
    var i := 0;
    while i < |images|
      invariant 0 <= i <= |images|
      invariant stored == Kept(images[..i])
    {
      assert images[..i + 1][..i] == images[..i];
      if Stored(images[i]) {
        stored := stored + [i];
      }
      i := i + 1;
    }
    assert images[..|images|] == images;
  }

  /** The stored reviews and their images, each image naming its review's
      position and the upload's position in the request. */
  datatype ReviewImage = ReviewImage(review: nat, upload: nat)

  datatype Store = Store(reviews: seq<Review>, images: seq<ReviewImage>)

  datatype CreateReply = Created(id: nat) | Invalid | TooManyImages | CreateDenied

  datatype Outcome = Outcome(reply: CreateReply, store: Store)

  function Attach(id: nat, kept: seq<nat>): seq<ReviewImage> {
    seq(|kept|, i requires 0 <= i < |kept| => ReviewImage(id, kept[i]))
  }

  /** `ReviewViewSet.create` as written: the review is saved before the
      image count is checked, and the 400 for too many images is returned
      from inside `transaction.atomic()`, which commits on return, so the
      review stays. `data` is `None` when the serializer refuses. */
  function CreateAsWritten(s: Store, u: Requester, data: Option<ReviewData>, images: seq<Upload>): Outcome {
    if !u.IsAuthenticated() then Outcome(CreateDenied, s)
    else if data.None? then Outcome(Invalid, s)
    else
      var id := |s.reviews|;
      var saved := s.(reviews := s.reviews + [Review(u.id, data.value)]);
      if |images| > MaxImages then Outcome(TooManyImages, saved)
      else Outcome(Created(id), saved.(images := s.images + Attach(id, Kept(images))))
  }

  /** Six images and a valid review: the reply is the 400 for too many images,
      yet the store holds one more review than before. */
  lemma RefusedReviewIsStillSaved(s: Store, id: UserId, data: ReviewData)
    ensures var u := Member(id, "customer", false, "");
      var out := CreateAsWritten(s, u, Some(data), seq(6, _ => Upload(true, 1)));
      && out.reply == TooManyImages
      && |out.store.reviews| == |s.reviews| + 1
  {
  }

  /** `create` with the refusal taking effect as a whole: more than five
      images is refused before anything is saved. */
  function Create(s: Store, u: Requester, data: Option<ReviewData>, images: seq<Upload>): Outcome {
    if !u.IsAuthenticated() then Outcome(CreateDenied, s)
    else if data.None? then Outcome(Invalid, s)
    else if |images| > MaxImages then Outcome(TooManyImages, s)
    else
      var id := |s.reviews|;
      Outcome(Created(id), Store(s.reviews + [Review(u.id, data.value)], s.images + Attach(id, Kept(images))))
  }

  /** Every refusal leaves the store as it was; an accepted review is
      appended with the requester as author, and exactly its non-empty
      uploads are attached to it, in order. Where both accept, the two
      versions agree. */
  lemma CreateOutcomes(s: Store, u: Requester, data: Option<ReviewData>, images: seq<Upload>)
    ensures var out := Create(s, u, data, images);
      && (!out.reply.Created? ==> out.store == s)
      && (out.reply == TooManyImages <==> u.Member? && data.Some? && |images| > 5)
      && (out.reply.Created? ==>
            && u.Member? && data.Some? && |images| <= 5
            && out.reply.id == |s.reviews|
            && out.store.reviews == s.reviews + [Review(u.id, data.value)]
            && out.store.images[..|s.images|] == s.images
            && (forall k :: 0 <= k < |images| ==>
                  (ReviewImage(|s.reviews|, k) in out.store.images[|s.images|..] <==> Stored(images[k])))
            && out == CreateAsWritten(s, u, data, images))
  {
    var out := Create(s, u, data, images);
    if out.reply.Created? {
      var kept := Kept(images);
      KeptExactly(images);
      var added := out.store.images[|s.images|..];
      assert added == Attach(|s.reviews|, kept);
      forall k | 0 <= k < |images|
        ensures ReviewImage(|s.reviews|, k) in added <==> Stored(images[k])
      {
        if Stored(images[k]) {
          var i :| 0 <= i < |kept| && kept[i] == k;
          assert added[i] == ReviewImage(|s.reviews|, k);
        }
      }
    }
  }
}
