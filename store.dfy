/** The photo store: the `galleries` and `photos` collections and the
    operations that create, link, unlink, move, swap, reorder and delete
    their documents. Each `Photo.update` / `Gallery.update` of an operation is
    one assignment to a collection, performed in the order the operation
    issues it; the callbacks of one operation are taken to run one after the
    other. Photo ids, blob ids and the decoded image are inputs: the
    database, GridFS and the compressor are not part of this model. */
module Database {
  import opened Records
  import opened Chains
  import opened Walks
  import opened Surgery
  import opened Steps
  import opened Uploads
  import opened Listing

  /** The fields an upload request carries (`photoDoc`); an absent title or
      description is `None`. */
  datatype PhotoUpload = PhotoUpload(
    photoData: string,
    title: Option<string>,
    description: Option<string>,
    gallery: string)

  /** Where the blobs of a new photo were stored: the original always, the
      two compressed qualities unless compressing them failed. */
  datatype StoredBlobs = StoredBlobs(original: nat, large: BlobRef, thumbnail: BlobRef)

  /** The document a new upload is saved as, before it is linked. */
  function NewPhotoRecord(upload: PhotoUpload, blobs: StoredBlobs): (p: Photo)
    ensures p.prev == None && p.next == None && p.gallery == upload.gallery
    ensures p.title == (if upload.title.Some? then upload.title.value else "no title")
    ensures p.description == (if upload.description.Some? then upload.description.value else "")
    ensures p.original == Stored(blobs.original) && p.large == blobs.large && p.thumbnail == blobs.thumbnail
  {
    Photo(
      if upload.title.Some? then upload.title.value else "no title",
      if upload.description.Some? then upload.description.value else "",
      upload.gallery, None, None, Stored(blobs.original), blobs.large, blobs.thumbnail)
  }

  /** A gallery that does not exist has no photos. */
  lemma NoPhotosOfMissingGallery(galleries: map<string, Gallery>, photos: map<PhotoId, Photo>,
                                 order: map<string, seq<PhotoId>>, g: string)
    requires Coherent(galleries, photos, order, {}) && g !in galleries
    ensures PhotosOf(photos, g) == {} && PhotoCount(photos, g) == 0 && Without(photos, g) == photos
  {
    assert forall x :: x in photos ==> photos[x].gallery in galleries;
  }

  /** The documents a gallery query finds are a permutation of the
      gallery's chain, which its walk lists. */
  lemma FoundMatchesChain(G: map<string, Gallery>, P: map<PhotoId, Photo>, O: map<string, seq<PhotoId>>,
                          g: string, found: seq<PhotoId>)
    requires Coherent(G, P, O, {}) && g in G
    requires Distinct(found) && forall x :: x in found <==> x in P && P[x].gallery == g
    ensures PhotoSequence(G, P, g) == Ok(O[g]) && multiset(found) == multiset(O[g])
  {
    SequenceIsChain(G, P, O, {}, g);
    ChainFacts(G, P, O, {}, g);
    SameElementsPermutation(found, O[g]);
  }

  class Store {
    var galleries: map<string, Gallery>
    var photos: map<PhotoId, Photo>
    /** The chain of each gallery, as met by following `next` from `head`. */
    ghost var order: map<string, seq<PhotoId>>

    constructor ()
      ensures Coherent(galleries, photos, order, {}) && galleries == map[] && photos == map[] && order == map[]
    {
      galleries := map[];
      photos := map[];
      order := map[];
    }

    /** `_updateLinkedListAfterRemovingPhotoFromGallery`: the photo's
        predecessor takes over its `next` (or, at the head, the gallery its
        `head`) and its successor its `prev` (or, at the tail, the gallery its
        `tail`). The photo's own record is left as it was, so it is loose. */
    method Unlink(pid: PhotoId)
      requires Coherent(galleries, photos, order, {}) && pid in photos
      modifies this
      ensures photos.Keys == old(photos.Keys) && photos[pid] == old(photos[pid])
      ensures galleries.Keys == old(galleries.Keys)
      ensures Coherent(galleries, photos, order, {pid})
      ensures old(photos[pid].gallery) in old(order) && pid in old(order[photos[pid].gallery])
      ensures order == old(order)[old(photos[pid].gallery) := Remove(old(order[photos[pid].gallery]), PositionOf(old(order[photos[pid].gallery]), pid))]
      ensures OnlyLinksChanged(old(photos), photos) && OnlyEndsChanged(old(galleries), galleries)
    {
      var doc := photos[pid];
      var g := doc.gallery;
      ghost var G0, P0, O0 := galleries, photos, order;
      var P, G := photos, galleries;
      if doc.prev.Some? {
        NextWriteKeeps(P0, P, doc.prev, doc.next);
        P := SetNext(P, doc.prev, doc.next);
      } else {
        HeadWriteKeeps(G0, G, g, doc.next);
        G := SetHead(G, g, doc.next);
      }
      ghost var P1, G1 := P, G;
      if doc.next.Some? {
        PrevWriteKeeps(P0, P, doc.next, doc.prev);
        P := SetPrev(P, doc.next, doc.prev);
      } else {
        TailWriteKeeps(G0, G, g, doc.prev);
        G := SetTail(G, g, doc.prev);
      }
      galleries, photos, order := G, P, order[g := Remove(order[g], PositionOf(order[g], pid))];
      UnlinkStep(G0, P0, O0, pid, G1, P1, galleries, photos);
    }

    /** `_updateLinkedListAfterAddingPhotoToGallery`: the loose photo pid is
        linked after the tail of its gallery; an empty gallery gets it as head
        and tail. A gallery that does not exist is left alone. */
    method LinkAtTail(pid: PhotoId)
      requires Coherent(galleries, photos, order, {pid}) && pid in photos
      modifies this
      ensures photos.Keys == old(photos.Keys) && galleries.Keys == old(galleries.Keys)
      ensures old(photos[pid].gallery) !in old(galleries) ==>
                galleries == old(galleries) && photos == old(photos) && order == old(order)
      ensures old(photos[pid].gallery) in old(galleries) ==>
                && Coherent(galleries, photos, order, {})
                && order == old(order)[old(photos[pid].gallery) := old(order[photos[pid].gallery]) + [pid]]
                && photos[pid] == old(photos[pid]).(prev := old(Last(order[photos[pid].gallery])), next := None)
      ensures OnlyLinksChanged(old(photos), photos) && OnlyEndsChanged(old(galleries), galleries)
    {
      var g := photos[pid].gallery;
      if g !in galleries {
        return;
      }
      var lastPid := galleries[g].tail;
      ghost var G0, P0, O0 := galleries, photos, order;
      var empty := IsGalleryEmpty(galleries, g);
      if empty == Ok(true) {
        EndsWriteKeeps(G0, galleries, g, Some(pid), Some(pid));
        galleries := SetEnds(galleries, g, Some(pid), Some(pid));
      } else {
        TailWriteKeeps(G0, galleries, g, Some(pid));
        galleries := SetTail(galleries, g, Some(pid));
      }
      NextWriteKeeps(P0, photos, lastPid, Some(pid));
      photos := SetNext(photos, lastPid, Some(pid));
      LinksWriteKeeps(P0, photos, Some(pid), lastPid, None);
      photos := SetLinks(photos, Some(pid), lastPid, None);
      order := order[g := order[g] + [pid]];
      AppendStep(G0, P0, O0, pid, galleries, photos);
    }

    /** `createGallery`: an empty name is refused, an existing name is a
        duplicate, and otherwise the gallery is stored with a null head and
        tail, so its chain is empty. */
    method CreateGallery(name: string, description: string) returns (r: Result<Gallery>)
      requires Coherent(galleries, photos, order, {})
      modifies this
      ensures Coherent(galleries, photos, order, {})
      ensures name == "" ==> r == Err(InvalidArgument) && unchanged(this)
      ensures name != "" && name in old(galleries) ==> r == Err(DuplicateKey) && unchanged(this)
      ensures name != "" && name !in old(galleries) ==>
                && r == Ok(Gallery(description, None, None))
                && galleries == old(galleries)[name := Gallery(description, None, None)]
                && photos == old(photos) && order == old(order)[name := []]
    {
      if name == "" {
        return Err(InvalidArgument);
      }
      if name in galleries {
        return Err(DuplicateKey);
      }
      var doc := Gallery(description, None, None);
      AddEmptyGallery(galleries, photos, order, name, description);
      galleries := galleries[name := doc];
      order := order[name := []];
      r := Ok(doc);
    }

    /** `addNewPhoto`: an upload whose media type does not mention `image` is
        refused, then one whose gallery does not exist; otherwise the new
        record is saved and linked after the tail of its gallery, and the
        linked record is returned. The id and the blob ids come from the
        database and GridFS. */
    method AddNewPhoto(upload: PhotoUpload, newId: PhotoId, blobs: StoredBlobs) returns (r: Result<Photo>)
      requires Coherent(galleries, photos, order, {}) && newId !in photos
      modifies this
      ensures Coherent(galleries, photos, order, {})
      ensures !IsImageType(ContentType(upload.photoData)) ==> r == Err(InvalidFormat) && unchanged(this)
      ensures IsImageType(ContentType(upload.photoData)) && upload.gallery !in old(galleries) ==>
                r == Err(NotFound) && unchanged(this)
      ensures IsImageType(ContentType(upload.photoData)) && upload.gallery in old(galleries) ==>
                && galleries.Keys == old(galleries.Keys) && photos.Keys == old(photos.Keys) + {newId}
                && photos[newId] == NewPhotoRecord(upload, blobs).(prev := Last(old(order)[upload.gallery]), next := None)
                && r == Ok(photos[newId])
                && order == old(order)[upload.gallery := old(order)[upload.gallery] + [newId]]
      ensures OnlyLinksChanged(old(photos), photos) && OnlyEndsChanged(old(galleries), galleries)
    {
      var contentType := ContentType(upload.photoData);
      if !IsImageType(contentType) {
        return Err(InvalidFormat);
      }
      if upload.gallery !in galleries {
        return Err(NotFound);
      }
      var doc := NewPhotoRecord(upload, blobs);
      SaveAtTail(newId, doc);
      r := Ok(photos[newId]);
    }

    /** The saving half of `addNewPhoto`: the record doc, of an existing
        gallery, is stored under the fresh id and linked after the tail. */
    method SaveAtTail(newId: PhotoId, doc: Photo)
      requires Coherent(galleries, photos, order, {}) && newId !in photos && doc.gallery in galleries
      modifies this
      ensures Coherent(galleries, photos, order, {})
      ensures galleries.Keys == old(galleries.Keys) && photos.Keys == old(photos.Keys) + {newId}
      ensures photos[newId] == doc.(prev := Last(old(order)[doc.gallery]), next := None)
      ensures order == old(order)[doc.gallery := old(order)[doc.gallery] + [newId]]
      ensures OnlyLinksChanged(old(photos), photos) && OnlyEndsChanged(old(galleries), galleries)
    {
      ghost var g, O0 := doc.gallery, order;
      LooseAdd(galleries, photos, order, newId, doc);
      ghost var P0 := photos;
      photos := photos[newId := doc];
      ghost var P1 := photos;
      assert P1[newId].gallery == g;
      LinkAtTail(newId);
      assert order == O0[g := O0[g] + [newId]] && photos[newId] == doc.(prev := Last(O0[g]), next := None);
      LinksChangedTwice(P0, P1, photos);
    }

    /** The second half of `insertNewPhotoAfterId`: the photo n, just
        appended to the chain s of gallery g, is unlinked again, pid's
        `next` is pointed at n, n is given pid and pid's old successor as
        neighbours, and that successor's `prev` is pointed at n. When pid
        names no photo only n's own record changes. */
    method SpliceAfter(g: string, pid: PhotoId, n: PhotoId, ghost s: seq<PhotoId>, ghost k: nat,
                       ghost O0: map<string, seq<PhotoId>>)
      requires Coherent(galleries, photos, order, {}) && g in galleries && n in photos && photos[n].gallery == g
      requires order == O0[g := s + [n]] && n !in s && pid != n
      requires pid in photos ==> k + 1 < |s| && s[k] == pid
      modifies this
      ensures galleries.Keys == old(galleries.Keys) && photos.Keys == old(photos.Keys)
      ensures pid in old(photos) ==>
                && Coherent(galleries, photos, order, {})
                && photos[n] == old(photos[n]).(prev := Some(pid), next := Some(s[k + 1]))
                && order == O0[g := InsertAt(s, k + 1, n)]
      ensures pid !in old(photos) ==>
                && Coherent(galleries, photos, order, {n})
                && photos[n] == old(photos[n]).(prev := Some(pid), next := None)
                && order == O0[g := s]
      ensures OnlyLinksChanged(old(photos), photos) && OnlyEndsChanged(old(galleries), galleries)
    {
      var next := if pid in photos then photos[pid].next else None;
      if pid in photos {
        LinksOnChain(galleries, photos, order, {}, g, k);
        assert (s + [n])[k] == pid && (s + [n])[k + 1] == s[k + 1];
      }
      DropAppended(s, n);
      ghost var P0, G0 := photos, galleries;
      Unlink(n);
      ReplaceTwice(O0, g, s + [n], s);
      ghost var P1 := photos;
      LinkAfter(g, pid, n, next, s, k, O0);
      LinksChangedTwice(P0, P1, photos);
    }

    /** The link writes of `insertNewPhotoAfterId` once the loose photo n
        is off the chain s of gallery g. */
    method LinkAfter(g: string, pid: PhotoId, n: PhotoId, next: Ref, ghost s: seq<PhotoId>, ghost k: nat,
                     ghost O0: map<string, seq<PhotoId>>)
      requires Coherent(galleries, photos, order, {n}) && g in galleries && n in photos && photos[n].gallery == g
      requires order == O0[g := s] && pid != n
      requires pid in photos ==> k + 1 < |s| && s[k] == pid && next == Some(s[k + 1])
      requires pid !in photos ==> next == None
      modifies this
      ensures galleries == old(galleries) && photos.Keys == old(photos.Keys)
      ensures photos[n] == old(photos[n]).(prev := Some(pid), next := next)
      ensures pid in old(photos) ==>
                Coherent(galleries, photos, order, {}) && order == O0[g := InsertAt(s, k + 1, n)]
      ensures pid !in old(photos) ==> Coherent(galleries, photos, order, {n}) && order == old(order)
      ensures OnlyLinksChanged(old(photos), photos)
    {
      var P := SetPrev(SetLinks(SetNext(photos, Some(pid), Some(n)), Some(n), Some(pid), next), next, Some(n));
      ghost var P1 := photos;
      NextWriteKeeps(P1, P1, Some(pid), Some(n));
      LinksWriteKeeps(P1, SetNext(P1, Some(pid), Some(n)), Some(n), Some(pid), next);
      PrevWriteKeeps(P1, SetLinks(SetNext(P1, Some(pid), Some(n)), Some(n), Some(pid), next), next, Some(n));
      photos := P;
      if pid in P1 {
        InsertStep(galleries, P1, O0[g := s], g, k, n, pid, next, P);
        ReplaceTwice(O0, g, s, InsertAt(s, k + 1, n));
        order := O0[g := InsertAt(s, k + 1, n)];
      } else {
        OrphanStep(galleries, P1, order, n, pid, P);
      }
    }

    /** `insertNewPhotoAfterId`, as written: the new photo is appended and,
        unless the anchor pid is the gallery's tail, unlinked again and
        spliced in after pid. The anchor is never looked up, so an id that
        names no photo leaves the new photo off every chain. The source
        leaves the anchor's gallery unchecked; it is demanded here. */
    method InsertNewPhotoAfterIdAsWritten(upload: PhotoUpload, pid: PhotoId, newId: PhotoId, blobs: StoredBlobs)
      returns (r: Result<Photo>)
      requires Coherent(galleries, photos, order, {}) && newId !in photos && pid != newId
      requires pid in photos ==> photos[pid].gallery == upload.gallery
      modifies this
      ensures galleries.Keys == old(galleries.Keys)
      ensures upload.gallery !in old(galleries) ==> r == Err(NotFound) && unchanged(this)
      ensures upload.gallery in old(galleries) && !IsImageType(ContentType(upload.photoData)) ==>
                r == Err(InvalidFormat) && unchanged(this)
      ensures upload.gallery in old(galleries) && IsImageType(ContentType(upload.photoData)) && pid in old(photos) ==>
                && Coherent(galleries, photos, order, {})
                && photos.Keys == old(photos.Keys) + {newId}
                && photos[newId] == NewPhotoRecord(upload, blobs).(prev := Some(pid), next := old(photos[pid].next))
                && r == Ok(photos[newId])
                && order == old(order)[upload.gallery :=
                     InsertAt(old(order[upload.gallery]), PositionOf(old(order[upload.gallery]), pid) + 1, newId)]
      ensures upload.gallery in old(galleries) && IsImageType(ContentType(upload.photoData)) && pid !in old(photos) ==>
                && Coherent(galleries, photos, order, {newId})
                && photos.Keys == old(photos.Keys) + {newId}
                && photos[newId] == NewPhotoRecord(upload, blobs).(prev := Some(pid), next := None)
                && r == Ok(photos[newId])
                && order == old(order)
      ensures OnlyLinksChanged(old(photos), photos) && OnlyEndsChanged(old(galleries), galleries)
    {
      var g := upload.gallery;
      if g !in galleries {
        return Err(NotFound);
      }
      var lastId := galleries[g].tail;
      ghost var s := order[g];
      AnchorFacts(galleries, photos, order, g, pid, newId);
      ghost var k := if pid in photos then PositionOf(s, pid) else 0;
      ghost var O0, anchored := order, pid in photos;
      assert O0 == old(order) && s == old(order[g]) && (anchored ==> k == PositionOf(old(order[g]), pid));
      if lastId == Some(pid) {
        assert k + 1 == |s| && Last(s) == Some(pid) && photos[pid].next == None;
        AppendIsInsertAt(s, newId);
        r := AddNewPhoto(upload, newId, blobs);
        ReplaceSameSlot(O0, g, s, |s|, k + 1, newId);
        return;
      }
      assert anchored ==> k + 1 < |s| && s[k] == pid && photos[pid].next == Some(s[k + 1]);
      r := AppendThenSplice(upload, pid, newId, blobs, s, k);
      if anchored {
        ReplaceSameSlot(O0, g, s, k + 1, PositionOf(s, pid) + 1, newId);
      }
    }

    /** The case of `insertNewPhotoAfterId` where pid is not the tail: the
        new photo is appended to the chain s of its gallery, then spliced in
        after pid, the photo at position k. */
    method AppendThenSplice(upload: PhotoUpload, pid: PhotoId, newId: PhotoId, blobs: StoredBlobs,
                            ghost s: seq<PhotoId>, ghost k: nat)
      returns (r: Result<Photo>)
      requires Coherent(galleries, photos, order, {}) && newId !in photos && pid != newId
      requires upload.gallery in galleries && s == order[upload.gallery]
      requires pid in photos ==>
                 && photos[pid].gallery == upload.gallery
                 && k + 1 < |s| && s[k] == pid && photos[pid].next == Some(s[k + 1])
      modifies this
      ensures galleries.Keys == old(galleries.Keys)
      ensures OnlyLinksChanged(old(photos), photos) && OnlyEndsChanged(old(galleries), galleries)
      ensures !IsImageType(ContentType(upload.photoData)) ==> r == Err(InvalidFormat) && unchanged(this)
      ensures IsImageType(ContentType(upload.photoData)) && pid in old(photos) ==>
                && Coherent(galleries, photos, order, {})
                && photos.Keys == old(photos.Keys) + {newId}
                && photos[newId] == NewPhotoRecord(upload, blobs).(prev := Some(pid), next := Some(s[k + 1]))
                && r == Ok(photos[newId])
                && order == old(order)[upload.gallery := InsertAt(s, k + 1, newId)]
      ensures IsImageType(ContentType(upload.photoData)) && pid !in old(photos) ==>
                && Coherent(galleries, photos, order, {newId})
                && photos.Keys == old(photos.Keys) + {newId}
                && photos[newId] == NewPhotoRecord(upload, blobs).(prev := Some(pid), next := None)
                && r == Ok(photos[newId])
                && order == old(order)
    {
      var g := upload.gallery;
      ghost var O0 := order;
      r := AddNewPhoto(upload, newId, blobs);
      if r.Err? {
        return;
      }
      assert O0[g := s] == O0;
      ghost var P1, G1 := photos, galleries;
      SpliceAfter(g, pid, newId, s, k, O0);
      LinksChangedTwice(old(photos), P1, photos);
      EndsChangedTwice(old(galleries), G1, galleries);
      r := Ok(photos[newId]);
    }

    /** `insertNewPhotoAfterId` with the anchor looked up first: an id that
        names no photo is refused, and so is an anchor in another gallery
        than the upload's; either way the store is left as it was. */
    method InsertNewPhotoAfterId(upload: PhotoUpload, pid: PhotoId, newId: PhotoId, blobs: StoredBlobs)
      returns (r: Result<Photo>)
      requires Coherent(galleries, photos, order, {}) && newId !in photos
      modifies this
      ensures Coherent(galleries, photos, order, {})
      ensures OnlyLinksChanged(old(photos), photos) && OnlyEndsChanged(old(galleries), galleries)
      ensures upload.gallery !in old(galleries) || pid !in old(photos) ==> r == Err(NotFound) && unchanged(this)
      ensures upload.gallery in old(galleries) && pid in old(photos) && old(photos[pid].gallery) != upload.gallery ==>
                r == Err(InvalidArgument) && unchanged(this)
      ensures upload.gallery in old(galleries) && pid in old(photos) && old(photos[pid].gallery) == upload.gallery
              && !IsImageType(ContentType(upload.photoData)) ==>
                r == Err(InvalidFormat) && unchanged(this)
      ensures upload.gallery in old(galleries) && pid in old(photos) && old(photos[pid].gallery) == upload.gallery
              && IsImageType(ContentType(upload.photoData)) ==>
                && galleries.Keys == old(galleries.Keys)
                && photos.Keys == old(photos.Keys) + {newId}
                && photos[newId] == NewPhotoRecord(upload, blobs).(prev := Some(pid), next := old(photos[pid].next))
                && r == Ok(photos[newId])
                && order == old(order)[upload.gallery :=
                     InsertAt(old(order[upload.gallery]), PositionOf(old(order[upload.gallery]), pid) + 1, newId)]
    {
      if upload.gallery !in galleries || pid !in photos {
        return Err(NotFound);
      }
      if photos[pid].gallery != upload.gallery {
        return Err(InvalidArgument);
      }
      r := InsertNewPhotoAfterIdAsWritten(upload, pid, newId, blobs);
    }

    /** `insertNewPhotoBeforeId`: with a predecessor, the new photo goes in
        after that predecessor; before the head, it is appended and then
        moved to the front. An anchor in another gallery than the upload's,
        which the source does not check, is refused. */
    method InsertNewPhotoBeforeId(upload: PhotoUpload, pid: PhotoId, newId: PhotoId, blobs: StoredBlobs)
      returns (r: Result<Photo>)
      requires Coherent(galleries, photos, order, {}) && newId !in photos
      modifies this
      ensures galleries.Keys == old(galleries.Keys)
      ensures OnlyLinksChanged(old(photos), photos) && OnlyEndsChanged(old(galleries), galleries)
      ensures pid !in old(photos) ==> r == Err(NotFound) && unchanged(this)
      ensures pid in old(photos) && old(photos[pid].gallery) != upload.gallery ==> r == Err(InvalidArgument) && unchanged(this)
      ensures pid in old(photos) && old(photos[pid].gallery) == upload.gallery && !IsImageType(ContentType(upload.photoData)) ==>
                r == Err(InvalidFormat) && unchanged(this)
      ensures pid in old(photos) && old(photos[pid].gallery) == upload.gallery && IsImageType(ContentType(upload.photoData)) ==>
                && Coherent(galleries, photos, order, {})
                && upload.gallery in old(order) && pid in old(order[upload.gallery])
                && photos.Keys == old(photos.Keys) + {newId}
                && photos[newId] == NewPhotoRecord(upload, blobs).(prev := old(photos[pid].prev), next := Some(pid))
                && r == Ok(photos[newId])
                && order == old(order)[upload.gallery :=
                     InsertAt(old(order[upload.gallery]), PositionOf(old(order[upload.gallery]), pid), newId)]
    {
      if pid !in photos {
        return Err(NotFound);
      }
      if photos[pid].gallery != upload.gallery {
        return Err(InvalidArgument);
      }
      PrevFacts(galleries, photos, order, pid);
      if photos[pid].prev.Some? {
        r := InsertAfterPredecessor(upload, pid, newId, blobs);
      } else {
        r := InsertBeforeHead(upload, pid, newId, blobs);
      }
    }

    /** The with-a-predecessor case of `insertNewPhotoBeforeId`: the new
        photo goes in after pid's predecessor, so right before pid. */
    method InsertAfterPredecessor(upload: PhotoUpload, pid: PhotoId, newId: PhotoId, blobs: StoredBlobs)
      returns (r: Result<Photo>)
      requires Coherent(galleries, photos, order, {}) && newId !in photos
      requires pid in photos && photos[pid].gallery == upload.gallery && photos[pid].prev.Some?
      modifies this
      ensures galleries.Keys == old(galleries.Keys)
      ensures OnlyLinksChanged(old(photos), photos) && OnlyEndsChanged(old(galleries), galleries)
      ensures !IsImageType(ContentType(upload.photoData)) ==> r == Err(InvalidFormat) && unchanged(this)
      ensures IsImageType(ContentType(upload.photoData)) ==>
                && Coherent(galleries, photos, order, {})
                && upload.gallery in old(order) && pid in old(order[upload.gallery])
                && photos.Keys == old(photos.Keys) + {newId}
                && photos[newId] == NewPhotoRecord(upload, blobs).(prev := old(photos[pid].prev), next := Some(pid))
                && r == Ok(photos[newId])
                && order == old(order)[upload.gallery :=
                     InsertAt(old(order[upload.gallery]), PositionOf(old(order[upload.gallery]), pid), newId)]
    {
      var prevId := photos[pid].prev;
      PrevFacts(galleries, photos, order, pid);
      ghost var g := upload.gallery;
      ghost var s, O0 := order[g], order;
      ghost var k := PositionOf(s, pid);
      assert O0 == old(order) && s == old(order[g]) && k == PositionOf(old(order[g]), pid);
      assert PositionOf(s, prevId.value) + 1 == k && prevId.value in photos;
      r := InsertNewPhotoAfterIdAsWritten(upload, prevId.value, newId, blobs);
      assert r.Ok? ==> order == O0[g := InsertAt(s, PositionOf(s, prevId.value) + 1, newId)];
      ReplaceSameSlot(O0, g, s, PositionOf(s, prevId.value) + 1, k, newId);
    }

    /** The before-the-head case of `insertNewPhotoBeforeId`, for a head pid;
        a head of another gallery than the upload's is refused. */
    method InsertBeforeHead(upload: PhotoUpload, pid: PhotoId, newId: PhotoId, blobs: StoredBlobs)
      returns (r: Result<Photo>)
      requires Coherent(galleries, photos, order, {}) && newId !in photos
      requires pid in photos && photos[pid].prev == None
      modifies this
      ensures galleries.Keys == old(galleries.Keys)
      ensures OnlyLinksChanged(old(photos), photos) && OnlyEndsChanged(old(galleries), galleries)
      ensures old(photos[pid].gallery) != upload.gallery ==> r == Err(InvalidArgument) && unchanged(this)
      ensures old(photos[pid].gallery) == upload.gallery && !IsImageType(ContentType(upload.photoData)) ==>
                r == Err(InvalidFormat) && unchanged(this)
      ensures old(photos[pid].gallery) == upload.gallery && IsImageType(ContentType(upload.photoData)) ==>
                && Coherent(galleries, photos, order, {})
                && upload.gallery in old(order) && pid in old(order[upload.gallery])
                && photos.Keys == old(photos.Keys) + {newId}
                && photos[newId] == NewPhotoRecord(upload, blobs).(prev := None, next := Some(pid))
                && r == Ok(photos[newId])
                && order == old(order)[upload.gallery := InsertAt(old(order[upload.gallery]), 0, newId)]
    {
      var g := upload.gallery;
      if photos[pid].gallery != g {
        return Err(InvalidArgument);
      }
      PrevFacts(galleries, photos, order, pid);
      var lastId := galleries[g].tail;
      ghost var s, O0 := order[g], order;
      AnchorFacts(galleries, photos, order, g, pid, newId);
      ChainFacts(galleries, photos, order, {}, g);
      assert pid == s[0] && lastId == Last(s);
      PrependIsInsertAt(s, newId);
      r := AddNewPhoto(upload, newId, blobs);
      if r.Err? {
        return;
      }
      ghost var P1, G1 := photos, galleries;
      LinkBeforeHead(g, pid, newId, lastId, s, O0);
      LinksChangedTwice(old(photos), P1, photos);
      EndsChangedTwice(old(galleries), G1, galleries);
      r := Ok(photos[newId]);
    }

    /** The writes of `insertNewPhotoBeforeId` before the head, once the new
        photo n has been appended to the chain s of gallery g: n becomes the
        head and the old tail the tail again, the old head points back to n,
        and the old tail forgets n. */
    method LinkBeforeHead(g: string, pid: PhotoId, n: PhotoId, lastId: Ref, ghost s: seq<PhotoId>,
                          ghost O0: map<string, seq<PhotoId>>)
      requires Coherent(galleries, photos, order, {}) && g in galleries
      requires order == O0[g := s + [n]] && |s| >= 1 && pid == s[0] && lastId == Last(s)
      modifies this
      ensures galleries.Keys == old(galleries.Keys) && photos.Keys == old(photos.Keys)
      ensures n in old(photos) && photos[n] == old(photos[n]).(prev := None, next := Some(pid))
      ensures Coherent(galleries, photos, order, {}) && order == O0[g := [n] + s]
      ensures OnlyLinksChanged(old(photos), photos) && OnlyEndsChanged(old(galleries), galleries)
    {
      var G := SetEnds(galleries, g, Some(n), lastId);
      var P := SetNext(SetLinks(SetPrev(photos, Some(pid), Some(n)), Some(n), None, Some(pid)), lastId, None);
      RotateKeeps(galleries, photos, g, n, pid, lastId, G, P);
      RotateStep(galleries, photos, order, g, s, n, pid, lastId, G, P);
      ReplaceTwice(O0, g, s + [n], [n] + s);
      galleries, photos, order := G, P, O0[g := [n] + s];
    }

    /** `insertNewPhotoAtIndex`: an index equal to the number of photos of
        the gallery appends; any other index is looked up on the chain and
        the new photo goes in before the photo found there. */
    method InsertNewPhotoAtIndex(upload: PhotoUpload, index: int, newId: PhotoId, blobs: StoredBlobs)
      returns (r: Result<Photo>)
      requires Coherent(galleries, photos, order, {}) && newId !in photos
      modifies this
      ensures galleries.Keys == old(galleries.Keys)
      ensures upload.gallery !in old(galleries) ==>
                && unchanged(this)
                && r == if index == 0 && !IsImageType(ContentType(upload.photoData)) then Err(InvalidFormat)
                        else Err(NotFound)
      ensures upload.gallery in old(galleries) && index < 0 ==> r == Err(NegativeIndex) && unchanged(this)
      ensures upload.gallery in old(galleries) && index > |old(order[upload.gallery])| ==>
                r == Err(IndexOutOfRange) && unchanged(this)
      ensures upload.gallery in old(galleries) && 0 <= index <= |old(order[upload.gallery])|
              && !IsImageType(ContentType(upload.photoData)) ==>
                r == Err(InvalidFormat) && unchanged(this)
      ensures upload.gallery in old(galleries) && 0 <= index <= |old(order[upload.gallery])|
              && IsImageType(ContentType(upload.photoData)) ==>
                && Coherent(galleries, photos, order, {})
                && photos.Keys == old(photos.Keys) + {newId}
                && order == old(order)[upload.gallery := InsertAt(old(order[upload.gallery]), index, newId)]
                && photos[newId] == NewPhotoRecord(upload, blobs).(prev := PrevIn(order[upload.gallery], index),
                                                                 next := NextIn(order[upload.gallery], index))
                && r == Ok(photos[newId])
      ensures OnlyLinksChanged(old(photos), photos) && OnlyEndsChanged(old(galleries), galleries)
    {
      var g := upload.gallery;
      var number := PhotoCount(photos, g);
      if g in galleries {
        PhotosOfChain(galleries, photos, order, g);
        IndexOnChain(galleries, photos, order, {}, g, index);
      } else {
        NoPhotosOfMissingGallery(galleries, photos, order, g);
      }
      ghost var s := if g in galleries then order[g] else [];
      if index == number {
        AppendIsInsertAt(s, newId);
        r := AddNewPhoto(upload, newId, blobs);
        if r.Ok? {
          LinksOnChain(galleries, photos, order, {}, g, |s|);
        }
        return;
      }
      var at := PhotoIdAtIndex(galleries, photos, g, index);
      match at {
        case Err(e) =>
          return Err(e);
        case Ok(None) =>
          assert false;
        case Ok(Some(id)) =>
          ChainFacts(galleries, photos, order, {}, g);
          PositionOfAt(s, index);
          r := InsertNewPhotoBeforeId(upload, id, newId, blobs);
          if r.Ok? {
            LinksOnChain(galleries, photos, order, {}, g, index);
          }
      }
    }

    /** `swapTwoPhotos`: two photos of one gallery exchange their places on
        its chain. Swapping a photo with itself changes nothing; a missing
        photo is refused. The source leaves the "same gallery" check as a
        TODO; it is demanded here. */
    method SwapTwoPhotos(pid1: PhotoId, pid2: PhotoId) returns (r: Result<()>)
      requires Coherent(galleries, photos, order, {})
      requires pid1 in photos && pid2 in photos ==> photos[pid1].gallery == photos[pid2].gallery
      modifies this
      ensures OnlyLinksChanged(old(photos), photos) && OnlyEndsChanged(old(galleries), galleries)
      ensures pid1 == pid2 ==> r == Ok(()) && unchanged(this)
      ensures pid1 != pid2 && (pid1 !in old(photos) || pid2 !in old(photos)) ==> r == Err(NotFound) && unchanged(this)
      ensures pid1 != pid2 && pid1 in old(photos) && pid2 in old(photos) ==>
                && r == Ok(())
                && Coherent(galleries, photos, order, {})
                && galleries.Keys == old(galleries.Keys) && photos.Keys == old(photos.Keys)
                && old(photos[pid1].gallery) in old(order)
                && pid1 in old(order[photos[pid1].gallery]) && pid2 in old(order[photos[pid1].gallery])
                && order == old(order)[old(photos[pid1].gallery) :=
                     SwapAt(old(order[photos[pid1].gallery]), PositionOf(old(order[photos[pid1].gallery]), pid1),
                            PositionOf(old(order[photos[pid1].gallery]), pid2))]
    {
      if pid1 == pid2 {
        return Ok(());
      }
      if pid1 !in photos || pid2 !in photos {
        return Err(NotFound);
      }
      var g := photos[pid1].gallery;
      SwapFacts(galleries, photos, order, pid1, pid2);
      ghost var s := order[g];
      SwapWithin(g, pid1, pid2, s, PositionOf(s, pid1), PositionOf(s, pid2));
      r := Ok(());
    }

    /** The writes of `swapTwoPhotos` for the photos at positions i and j of
        the chain s of gallery g. */
    method SwapWithin(g: string, pid1: PhotoId, pid2: PhotoId, ghost s: seq<PhotoId>, ghost i: nat, ghost j: nat)
      requires Coherent(galleries, photos, order, {}) && g in galleries && s == order[g]
      requires pid1 in photos && pid2 in photos && i < |s| && j < |s| && i != j && s[i] == pid1 && s[j] == pid2
      requires Linked(photos, galleries[g], s)
      requires photos[pid1].prev == PrevIn(s, i) && photos[pid1].next == NextIn(s, i)
      requires photos[pid2].prev == PrevIn(s, j) && photos[pid2].next == NextIn(s, j)
      requires photos[pid1].next == Some(pid2) <==> j == i + 1
      requires photos[pid1].prev == Some(pid2) <==> i == j + 1
      modifies this
      ensures Coherent(galleries, photos, order, {})
      ensures galleries.Keys == old(galleries.Keys) && photos.Keys == old(photos.Keys)
      ensures order == old(order)[g := SwapAt(s, i, j)]
      ensures OnlyLinksChanged(old(photos), photos) && OnlyEndsChanged(old(galleries), galleries)
    {
      ghost var G0, P0, O0 := galleries, photos, order;
      RelinkForSwap(pid1, pid2, s, i, j);
      assert SwapRelinked(P0, photos, O0[g], i, j);
      RewriteEndsForSwap(g, pid1, pid2, s, i, j);
      order := order[g := SwapAt(s, i, j)];
      SwapStep(G0, P0, O0, g, i, j, galleries, photos, order);
    }

    /** The `prev`/`next` writes of `swapTwoPhotos`, in its three cases:
        pid2 right after pid1, pid2 right before pid1, and the two apart. */
    method RelinkForSwap(pid1: PhotoId, pid2: PhotoId, ghost s: seq<PhotoId>, ghost i: nat, ghost j: nat)
      requires pid1 in photos && pid2 in photos && i < |s| && j < |s| && i != j && s[i] == pid1 && s[j] == pid2
      requires Threaded(photos, s)
      requires photos[pid1].prev == PrevIn(s, i) && photos[pid1].next == NextIn(s, i)
      requires photos[pid2].prev == PrevIn(s, j) && photos[pid2].next == NextIn(s, j)
      requires photos[pid1].next == Some(pid2) <==> j == i + 1
      requires photos[pid1].prev == Some(pid2) <==> i == j + 1
      modifies this`photos
      ensures SwapRelinked(old(photos), photos, s, i, j)
    {
      if photos[pid1].next == Some(pid2) {
        RelinkRightNeighbour(pid1, pid2, s, i);
      } else if photos[pid1].prev == Some(pid2) {
        RelinkLeftNeighbour(pid1, pid2, s, j);
      } else {
        RelinkApart(pid1, pid2, s, i, j);
      }
    }

    /** First case of `swapTwoPhotos`: pid2 = s[i + 1] follows pid1 = s[i]. */
    method RelinkRightNeighbour(pid1: PhotoId, pid2: PhotoId, ghost s: seq<PhotoId>, ghost i: nat)
      requires i + 1 < |s| && s[i] == pid1 && s[i + 1] == pid2 && Threaded(photos, s)
      modifies this`photos
      ensures SwapRelinked(old(photos), photos, s, i, i + 1)
    {
      ThreadedAt(photos, s, i);
      ThreadedAt(photos, s, i + 1);
      var prev1, next2 := photos[pid1].prev, photos[pid2].next;
      var P1 := SetLinks(photos, Some(pid1), Some(pid2), next2);
      P1 := SetLinks(P1, Some(pid2), prev1, Some(pid1));
      var P := SetNext(P1, prev1, Some(pid2));
      P := SetPrev(P, next2, Some(pid1));
      AdjacentSwapStep(photos, P1, P, s, i);
      photos := P;
    }

    /** Second case of `swapTwoPhotos`: pid2 = s[j] precedes pid1 = s[j + 1]. */
    method RelinkLeftNeighbour(pid1: PhotoId, pid2: PhotoId, ghost s: seq<PhotoId>, ghost j: nat)
      requires j + 1 < |s| && s[j] == pid2 && s[j + 1] == pid1 && Threaded(photos, s)
      modifies this`photos
      ensures SwapRelinked(old(photos), photos, s, j + 1, j)
    {
      ThreadedAt(photos, s, j);
      ThreadedAt(photos, s, j + 1);
      var prev2, next1 := photos[pid2].prev, photos[pid1].next;
      var P1 := SetLinks(photos, Some(pid1), prev2, Some(pid2));
      P1 := SetLinks(P1, Some(pid2), Some(pid1), next1);
      var P := SetNext(P1, prev2, Some(pid1));
      P := SetPrev(P, next1, Some(pid2));
      AdjacentSwapStep(photos, P1, P, s, j);
      SwapRelinkedSymmetric(photos, P, s, j, j + 1);
      photos := P;
    }

    /** Third case of `swapTwoPhotos`: pid1 = s[i] and pid2 = s[j] are not
        neighbours. */
    method RelinkApart(pid1: PhotoId, pid2: PhotoId, ghost s: seq<PhotoId>, ghost i: nat, ghost j: nat)
      requires i < |s| && j < |s| && i != j && i + 1 != j && j + 1 != i && s[i] == pid1 && s[j] == pid2
      requires Threaded(photos, s)
      modifies this`photos
      ensures SwapRelinked(old(photos), photos, s, i, j)
    {
      ThreadedAt(photos, s, i);
      ThreadedAt(photos, s, j);
      var prev1, next1 := photos[pid1].prev, photos[pid1].next;
      var prev2, next2 := photos[pid2].prev, photos[pid2].next;
      var P := SetLinks(photos, Some(pid1), prev2, next2);
      P := SetLinks(P, Some(pid2), prev1, next1);
      P := SetNext(P, prev1, Some(pid2));
      P := SetPrev(P, next1, Some(pid2));
      P := SetNext(P, prev2, Some(pid1));
      P := SetPrev(P, next2, Some(pid1));
      DistantSwapStep(photos, P, s, i, j);
      photos := P;
    }

    /** The gallery writes at the end of `swapTwoPhotos`: the old head and
        tail are read, and each is rewritten only when it was one of the two
        photos. */
    method RewriteEndsForSwap(g: string, pid1: PhotoId, pid2: PhotoId, ghost s: seq<PhotoId>, ghost i: nat, ghost j: nat)
      requires g in galleries && Distinct(s) && i < |s| && j < |s| && i != j && s[i] == pid1 && s[j] == pid2
      requires galleries[g].head == First(s) && galleries[g].tail == Last(s)
      modifies this`galleries
      ensures galleries.Keys == old(galleries.Keys) && forall h :: h in old(galleries) && h != g ==> galleries[h] == old(galleries[h])
      ensures galleries[g] == old(galleries[g]).(head := First(SwapAt(s, i, j)), tail := Last(SwapAt(s, i, j)))
      ensures OnlyEndsChanged(old(galleries), galleries)
    {
      var first := galleries[g].head;
      var last := galleries[g].tail;
      var newHead := if first == Some(pid1) then Some(pid2) else if first == Some(pid2) then Some(pid1) else None;
      var newTail := if last == Some(pid1) then Some(pid2) else if last == Some(pid2) then Some(pid1) else None;
      var G1 := if newHead.Some? then SetHead(galleries, g, newHead) else galleries;
      var G := if newTail.Some? then SetTail(G1, g, newTail) else G1;
      SwapEnds(galleries, g, s, i, j, newHead, newTail, G1, G);
      galleries := G;
    }

    /** `reorderPhotos`, as written: the only check is that the sequence is
        as long as the gallery has photos; then the gallery's ends and each
        listed photo's links are overwritten in sequence order. The chain
        the store tracks is not updated, since nothing guarantees the
        result is one. */
    method ReorderPhotosAsWritten(g: string, pids: seq<PhotoId>) returns (r: Result<()>)
      modifies this`galleries, this`photos
      ensures |pids| != old(PhotoCount(photos, g)) ==> r == Err(InvalidArgument) && unchanged(this)
      ensures |pids| == old(PhotoCount(photos, g)) ==>
                && r == Ok(())
                && galleries == SetEnds(old(galleries), g, First(pids), Last(pids))
                && photos == Relinked(old(photos), pids, |pids|)
    {
      var num := PhotoCount(photos, g);
      if |pids| != num {
        return Err(InvalidArgument);
      }
      galleries := SetEnds(galleries, g, First(pids), Last(pids));
      var i := 0;
      while i < |pids|
        invariant 0 <= i <= |pids|
        invariant galleries == SetEnds(old(galleries), g, First(pids), Last(pids))
        invariant photos == Relinked(old(photos), pids, i)
      {
        photos := SetLinks(photos, Some(pids[i]), PrevIn(pids, i), NextIn(pids, i));
        i := i + 1;
      }
      r := Ok(());
    }

    /** `reorderPhotos` with the sequence checked to be a rearrangement of
        the gallery's photos: the gallery's chain becomes that sequence. */
    method ReorderPhotos(g: string, pids: seq<PhotoId>) returns (r: Result<()>)
      requires Coherent(galleries, photos, order, {})
      modifies this
      ensures g !in old(galleries) ==> r == Err(NotFound) && unchanged(this)
      ensures g in old(galleries) && !IsRearrangement(old(photos), g, pids) ==> r == Err(InvalidArgument) && unchanged(this)
      ensures g in old(galleries) && IsRearrangement(old(photos), g, pids) ==>
                && r == Ok(())
                && Coherent(galleries, photos, order, {})
                && order == old(order)[g := pids]
                && galleries == SetEnds(old(galleries), g, First(pids), Last(pids))
                && photos == Relinked(old(photos), pids, |pids|)
                && PhotoSequence(galleries, photos, g) == Ok(pids)
    {
      if g !in galleries {
        return Err(NotFound);
      }
      if !IsRearrangement(photos, g, pids) {
        return Err(InvalidArgument);
      }
      ghost var G0, P0, O0 := galleries, photos, order;
      r := ReorderPhotosAsWritten(g, pids);
      order := order[g := pids];
      ReorderStep(G0, P0, O0, g, pids, galleries, photos, order);
      SequenceIsChain(galleries, photos, order, {}, g);
    }

    /** `getAllPhotosSorted`: the documents of gallery g, which the query
        returns as `found` in no particular order, swapped into the order of
        the gallery's chain and stamped with their positions. */
    method GetAllPhotosSorted(g: string, found: seq<PhotoId>) returns (r: Result<seq<Doc>>)
      requires Coherent(galleries, photos, order, {})
      requires Distinct(found) && forall x :: x in found <==> x in photos && photos[x].gallery == g
      ensures g !in galleries ==> r == Err(NotFound)
      ensures g in galleries ==>
                && r.Ok? && |r.value| == |order[g]|
                && forall i :: 0 <= i < |r.value| ==> r.value[i] == Doc(order[g][i], photos[order[g][i]], Some(i))
    {
      var sequence := PhotoSequence(galleries, photos, g);
      if g in galleries {
        FoundMatchesChain(galleries, photos, order, g, found);
      }
      if sequence.Err? {
        return Err(sequence.error);
      }
      var docs := SortDocuments(photos, found, sequence.value);
      r := Ok(docs);
    }

    /** `removePhotoById`: the photo is unlinked from its gallery's chain and
        its record deleted; the record as it was is returned. */
    method RemovePhotoById(pid: PhotoId) returns (r: Result<Photo>)
      requires Coherent(galleries, photos, order, {})
      modifies this
      ensures Coherent(galleries, photos, order, {})
      ensures OnlyLinksChanged(old(photos), photos) && OnlyEndsChanged(old(galleries), galleries)
      ensures pid !in old(photos) ==> r == Err(NotFound) && unchanged(this)
      ensures pid in old(photos) ==>
                && r == Ok(old(photos[pid]))
                && photos.Keys == old(photos.Keys) - {pid} && galleries.Keys == old(galleries.Keys)
                && old(photos[pid].gallery) in old(order) && pid in old(order[photos[pid].gallery])
                && order == old(order)[old(photos[pid].gallery) :=
                     Remove(old(order[photos[pid].gallery]), PositionOf(old(order[photos[pid].gallery]), pid))]
    {
      if pid !in photos {
        return Err(NotFound);
      }
      var doc := photos[pid];
      Unlink(pid);
      LooseDrop(galleries, photos, order, pid);
      ghost var P1 := photos;
      photos := photos - {pid};
      LinksChangedTwice(old(photos), P1, photos);
      r := Ok(doc);
    }

    /** `removeGalleryByName`: only a gallery whose head and tail are both
        null may be removed. */
    method RemoveGalleryByName(g: string) returns (r: Result<string>)
      requires Coherent(galleries, photos, order, {})
      modifies this
      ensures Coherent(galleries, photos, order, {})
      ensures g !in old(galleries) ==> r == Err(NotFound) && unchanged(this)
      ensures g in old(galleries) && (old(galleries[g].head).Some? || old(galleries[g].tail).Some?) ==>
                r == Err(PreconditionFailed) && unchanged(this)
      ensures g in old(galleries) && old(galleries[g].head) == None && old(galleries[g].tail) == None ==>
                && r == Ok(g) && old(order[g]) == []
                && galleries == old(galleries) - {g} && photos == old(photos) && order == old(order) - {g}
    {
      var empty := IsGalleryEmpty(galleries, g);
      match empty
      case Err(e) =>
        r := Err(e);
      case Ok(isEmpty) =>
        if !isEmpty {
          return Err(PreconditionFailed);
        }
        RemoveEmptyGallery(galleries, photos, order, g);
        galleries := galleries - {g};
        order := order - {g};
        r := Ok(g);
    }

    /** `emptyGallery`: every photo of the gallery is deleted and its head
        and tail are nulled; the number of photos deleted is returned. The
        gallery's existence is not checked: a missing one has no photos. */
    method EmptyGallery(g: string) returns (r: Result<nat>)
      requires Coherent(galleries, photos, order, {})
      modifies this
      ensures Coherent(galleries, photos, order, {})
      ensures r == Ok(old(PhotoCount(photos, g)))
      ensures photos == Without(old(photos), g) && galleries == SetEnds(old(galleries), g, None, None)
      ensures g in old(galleries) ==> r.value == |old(order[g])| && order == old(order)[g := []]
      ensures g !in old(galleries) ==> r.value == 0 && unchanged(this)
    {
      var total := PhotoCount(photos, g);
      if g in galleries {
        PhotosOfChain(galleries, photos, order, g);
        EmptiedCoherent(galleries, photos, order, g);
        order := order[g := []];
      } else {
        NoPhotosOfMissingGallery(galleries, photos, order, g);
      }
      photos := Without(photos, g);
      galleries := SetEnds(galleries, g, None, None);
      r := Ok(total);
    }

    /** `movePhotoToGallery`: the target gallery must exist, then the photo;
        the photo is unlinked from its gallery, given the target gallery and
        null links, and linked after the target's tail. */
    method MovePhotoToGallery(pid: PhotoId, h: string) returns (r: Result<()>)
      requires Coherent(galleries, photos, order, {})
      modifies this
      ensures Coherent(galleries, photos, order, {})
      ensures OnlyLinksChanged(old(photos) - {pid}, photos) && OnlyEndsChanged(old(galleries), galleries)
      ensures h !in old(galleries) ==> r == Err(NotFound) && unchanged(this)
      ensures h in old(galleries) && pid !in old(photos) ==> r == Err(NotFound) && unchanged(this)
      ensures h in old(galleries) && pid in old(photos) ==>
                && r == Ok(()) && photos.Keys == old(photos.Keys)
                && old(photos[pid].gallery) in old(order) && pid in old(order[photos[pid].gallery])
                && var removed := old(order)[old(photos[pid].gallery) :=
                     Remove(old(order[photos[pid].gallery]), PositionOf(old(order[photos[pid].gallery]), pid))];
                   && order == removed[h := removed[h] + [pid]]
                   && photos[pid] == old(photos[pid]).(gallery := h, prev := Last(removed[h]), next := None)
    {
      if h !in galleries {
        return Err(NotFound);
      }
      if pid !in photos {
        return Err(NotFound);
      }
      Unlink(pid);
      var moved := photos[pid].(gallery := h, prev := None, next := None);
      LooseEdit(galleries, photos, order, {pid}, pid, moved);
      ghost var P1, G1 := photos, galleries;
      photos := photos[pid := moved];
      ghost var P2 := photos;
      LinksChangedExcept(old(photos), P1, pid, moved);
      LinkAtTail(pid);
      LinksChangedTwice(old(photos) - {pid}, P2, photos);
      EndsChangedTwice(old(galleries), G1, galleries);
      r := Ok(());
    }
  }
}
