/** The records kept by the photo store: a gallery document and a photo
    document, the null-able id that links them, and the error results the
    store's operations report instead of their callback error strings. */
module Records {

  /** A Mongo `_id` of a photo document; opaque apart from equality. */
  type PhotoId = nat

  datatype Option<T> = None | Some(value: T)

  /** A photo id field that may hold `null`. */
  type Ref = Option<PhotoId>

  /** What a quality slot of a photo points at: a stored blob, or the `-1`
      the upload records when compressing that quality failed. */
  datatype BlobRef = Stored(blob: nat) | CompressionFailed

  /** One document of the `galleries` collection; the collection is keyed by
      the gallery's name, so the name is the key of the store's map. */
  datatype Gallery = Gallery(description: string, head: Ref, tail: Ref)

  /** One document of the `photos` collection. */
  datatype Photo = Photo(
    title: string,
    description: string,
    gallery: string,
    prev: Ref,
    next: Ref,
    original: BlobRef,
    large: BlobRef,
    thumbnail: BlobRef)

  datatype Error =
    | NotFound            // gallery or photo does not exist
    | DuplicateKey        // a gallery of that name already exists
    | InvalidArgument     // empty gallery name, reorder sequence rejected
    | NegativeIndex       // 'Index should be larger than or equal to 0.'
    | IndexOutOfRange     // 'Index out of range.'
    | InvalidFormat       // 'Invalid Image Format'
    | PreconditionFailed  // 'Cannot remove a non-empty gallery.'
    | Diverges            // a walk met more links than there are photos

  datatype Result<T> = Ok(value: T) | Err(error: Error)

  // ---------------------------------------------------------------------
  // Single-field writes. `Photo.update({_id: id}, {$set: ...})` and
  // `Gallery.update({name: g}, {$set: ...})` change one document when the
  // key matches one and change nothing when it is null or matches none.
  // ---------------------------------------------------------------------

  function SetNext(photos: map<PhotoId, Photo>, id: Ref, next: Ref): map<PhotoId, Photo>
  {
    if id.Some? && id.value in photos then photos[id.value := photos[id.value].(next := next)] else photos
  }

  function SetPrev(photos: map<PhotoId, Photo>, id: Ref, prev: Ref): map<PhotoId, Photo>
  {
    if id.Some? && id.value in photos then photos[id.value := photos[id.value].(prev := prev)] else photos
  }

  function SetLinks(photos: map<PhotoId, Photo>, id: Ref, prev: Ref, next: Ref): map<PhotoId, Photo>
  {
    if id.Some? && id.value in photos then photos[id.value := photos[id.value].(prev := prev, next := next)] else photos
  }

  function SetHead(galleries: map<string, Gallery>, name: string, head: Ref): map<string, Gallery>
  {
    if name in galleries then galleries[name := galleries[name].(head := head)] else galleries
  }

  function SetTail(galleries: map<string, Gallery>, name: string, tail: Ref): map<string, Gallery>
  {
    if name in galleries then galleries[name := galleries[name].(tail := tail)] else galleries
  }

  function SetEnds(galleries: map<string, Gallery>, name: string, head: Ref, tail: Ref): map<string, Gallery>
  {
    if name in galleries then galleries[name := galleries[name].(head := head, tail := tail)] else galleries
  }

  // ---------------------------------------------------------------------
  // What the writes leave alone. The store's link updates `$set` only
  // `prev`/`next` of photos and `head`/`tail` of galleries: titles,
  // descriptions, gallery names and blob references stay as they were.
  // ---------------------------------------------------------------------

  /** Two records of one photo that differ at most in `prev` and `next`. */
  predicate SameContent(a: Photo, b: Photo) {
    && a.title == b.title && a.description == b.description && a.gallery == b.gallery
    && a.original == b.original && a.large == b.large && a.thumbnail == b.thumbnail
  }

  /** Every photo present before and after differs at most in its links. */
  ghost predicate OnlyLinksChanged(before: map<PhotoId, Photo>, after: map<PhotoId, Photo>) {
    forall x :: x in before && x in after ==> SameContent(before[x], after[x])
  }

  /** Every gallery present before and after differs at most in its ends. */
  ghost predicate OnlyEndsChanged(before: map<string, Gallery>, after: map<string, Gallery>) {
    forall h :: h in before && h in after ==> after[h].description == before[h].description
  }

  lemma NextWriteKeeps(before: map<PhotoId, Photo>, photos: map<PhotoId, Photo>, id: Ref, next: Ref)
    requires OnlyLinksChanged(before, photos)
    ensures SetNext(photos, id, next).Keys == photos.Keys && OnlyLinksChanged(before, SetNext(photos, id, next))
  {
  }

  lemma PrevWriteKeeps(before: map<PhotoId, Photo>, photos: map<PhotoId, Photo>, id: Ref, prev: Ref)
    requires OnlyLinksChanged(before, photos)
    ensures SetPrev(photos, id, prev).Keys == photos.Keys && OnlyLinksChanged(before, SetPrev(photos, id, prev))
  {
  }

  lemma LinksWriteKeeps(before: map<PhotoId, Photo>, photos: map<PhotoId, Photo>, id: Ref, prev: Ref, next: Ref)
    requires OnlyLinksChanged(before, photos)
    ensures SetLinks(photos, id, prev, next).Keys == photos.Keys
    ensures OnlyLinksChanged(before, SetLinks(photos, id, prev, next))
  {
  }

  lemma HeadWriteKeeps(before: map<string, Gallery>, galleries: map<string, Gallery>, name: string, head: Ref)
    requires OnlyEndsChanged(before, galleries)
    ensures SetHead(galleries, name, head).Keys == galleries.Keys
    ensures OnlyEndsChanged(before, SetHead(galleries, name, head))
  {
  }

  lemma TailWriteKeeps(before: map<string, Gallery>, galleries: map<string, Gallery>, name: string, tail: Ref)
    requires OnlyEndsChanged(before, galleries)
    ensures SetTail(galleries, name, tail).Keys == galleries.Keys
    ensures OnlyEndsChanged(before, SetTail(galleries, name, tail))
  {
  }

  lemma EndsWriteKeeps(before: map<string, Gallery>, galleries: map<string, Gallery>, name: string, head: Ref, tail: Ref)
    requires OnlyEndsChanged(before, galleries)
    ensures SetEnds(galleries, name, head, tail).Keys == galleries.Keys
    ensures OnlyEndsChanged(before, SetEnds(galleries, name, head, tail))
  {
  }

  /** Two rounds of link writes, with every photo of both ends present in
      the middle, are link writes. */
  lemma LinksChangedTwice(p0: map<PhotoId, Photo>, p1: map<PhotoId, Photo>, p2: map<PhotoId, Photo>)
    requires OnlyLinksChanged(p0, p1) && OnlyLinksChanged(p1, p2) && p0.Keys * p2.Keys <= p1.Keys
    ensures OnlyLinksChanged(p0, p2)
  {
    forall x | x in p0 && x in p2
      ensures SameContent(p0[x], p2[x])
    {
      assert SameContent(p0[x], p1[x]) && SameContent(p1[x], p2[x]);
    }
  }

  /** Replacing one record outright leaves the frame on the others. */
  lemma LinksChangedExcept(p0: map<PhotoId, Photo>, p1: map<PhotoId, Photo>, id: PhotoId, record: Photo)
    requires OnlyLinksChanged(p0, p1)
    ensures OnlyLinksChanged(p0 - {id}, p1[id := record])
  {
  }

  lemma EndsChangedTwice(g0: map<string, Gallery>, g1: map<string, Gallery>, g2: map<string, Gallery>)
    requires OnlyEndsChanged(g0, g1) && OnlyEndsChanged(g1, g2) && g0.Keys * g2.Keys <= g1.Keys
    ensures OnlyEndsChanged(g0, g2)
  {
    forall h | h in g0 && h in g2
      ensures g2[h].description == g0[h].description
    {
      assert g1[h].description == g0[h].description;
    }
  }
}
