/** Two inputs on which the store's operations, as written, leave a photo
    that is counted as part of its gallery but never listed by walking the
    gallery's chain. The corrected operations in module Database reject
    those inputs. */
module Findings {
  import opened Records
  import opened Chains
  import opened Walks
  import opened Steps

  /** A photo of gallery "g" with the given links. */
  function Pic(prev: Ref, next: Ref): (p: Photo)
    ensures p.gallery == "g" && p.prev == prev && p.next == next
  {
    Photo("", "", "g", prev, next, Stored(0), Stored(0), Stored(0))
  }

  /** Gallery "g" holding photos 1 then 2. */
  function TwoPhotos(): (P: map<PhotoId, Photo>)
    ensures P.Keys == {1, 2}
  {
    map[1 := Pic(None, Some(2)), 2 := Pic(Some(1), None)]
  }

  /** The photo records after `reorderPhotos` wrote the sequence [1, 1]. */
  lemma RepeatRelinked()
    ensures Relinked(TwoPhotos(), [1, 1], 2) == map[1 := Pic(Some(1), None), 2 := Pic(Some(1), None)]
  {
    var P1 := Relinked(TwoPhotos(), [1, 1], 1);
    assert PrevIn([1, 1], 0) == None && NextIn([1, 1], 0) == Some(1);
    assert P1 == map[1 := Pic(None, Some(1)), 2 := Pic(Some(1), None)];
    assert PrevIn([1, 1], 1) == Some(1) && NextIn([1, 1], 1) == None;
  }

  /** The gallery "g" whose chain is photo 1 then photo 2. */
  function TwoGallery(): map<string, Gallery> {
    map["g" := Gallery("", Some(1), Some(2))]
  }

  lemma TwoPhotosCoherent()
    ensures Coherent(TwoGallery(), TwoPhotos(), map["g" := [1, 2]], {})
    ensures PhotoCount(TwoPhotos(), "g") == 2
  {
    assert Linked(TwoPhotos(), TwoGallery()["g"], [1, 2]);
    assert PhotosOf(TwoPhotos(), "g") == {1, 2};
  }

  /** After the writes for [1, 1], the walk from the new head stops after
      photo 1, while both photos still belong to "g". */
  lemma RepeatListing()
    ensures PhotoSequence(SetEnds(TwoGallery(), "g", First([1, 1]), Last([1, 1])), Relinked(TwoPhotos(), [1, 1], 2), "g") == Ok([1])
    ensures PhotoCount(Relinked(TwoPhotos(), [1, 1], 2), "g") == 2
  {
    RepeatRelinked();
    var P' := Relinked(TwoPhotos(), [1, 1], 2);
    assert PhotosOf(P', "g") == {1, 2};
    assert SetEnds(TwoGallery(), "g", First([1, 1]), Last([1, 1]))["g"].head == Some(1);
    assert 1 in P' && P'[1].next == None;
    assert Follow(P', P'[1].next, 1) == Ok([]);
    assert [1] + [] == [1];
    assert Follow(P', Some(1), 2) == Ok([1]);
  }

  /** `reorderPhotos` as written checks only the length of the sequence.
      On gallery "g" holding photos 1 then 2, the sequence [1, 1] passes that
      check; after its writes the gallery's walk lists only photo 1 while the
      gallery still counts two photos. */
  lemma ReorderRepeatDropsPhoto()
    ensures && Coherent(TwoGallery(), TwoPhotos(), map["g" := [1, 2]], {})
            && |[1, 1]| == PhotoCount(TwoPhotos(), "g")
            && PhotoSequence(SetEnds(TwoGallery(), "g", First([1, 1]), Last([1, 1])), Relinked(TwoPhotos(), [1, 1], 2), "g") == Ok([1])
            && PhotoCount(Relinked(TwoPhotos(), [1, 1], 2), "g") == 2
  {
    TwoPhotosCoherent();
    RepeatListing();
  }

  /** A photo left off its gallery's chain, as `insertNewPhotoAfterId`
      leaves the new photo when the anchor id names no photo: the gallery's
      walk is the chain without it, yet the gallery counts it. */
  lemma OrphanIsUnlisted(G: map<string, Gallery>, P: map<PhotoId, Photo>, O: map<string, seq<PhotoId>>,
                         n: PhotoId)
    requires Coherent(G, P, O, {n}) && n in P && P[n].gallery in G
    ensures var g := P[n].gallery;
            && PhotoSequence(G, P, g) == Ok(O[g]) && n !in O[g]
            && n in PhotosOf(P, g) && PhotoCount(P, g) == |O[g]| + 1
  {
    var g := P[n].gallery;
    SequenceIsChain(G, P, O, {n}, g);
    ChainFacts(G, P, O, {n}, g);
    forall i | 0 <= i < |O[g]| ensures O[g][i] != n {
    }
    assert PhotosOf(P, g) == Elements(O[g]) + {n};
    DistinctElements(O[g]);
  }
}
