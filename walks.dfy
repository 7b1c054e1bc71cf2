/** The read side of the store: walks along a gallery's chain on a snapshot
    of the two collections, and the counting and emptiness queries. The
    walks that the source would repeat without end on a cyclic chain take
    the number of stored photos as their fuel and report `Diverges` instead. */
module Walks {
  import opened Records
  import opened Chains

  /** Following `next` from `cur`, collecting the ids met (the helper of
      `_getPhotoSequence`): a missing photo is `NotFound`. */
  function Follow(photos: map<PhotoId, Photo>, cur: Ref, fuel: nat): (r: Result<seq<PhotoId>>)
    ensures r.Ok? ==> |r.value| <= fuel && First(r.value) == cur
    ensures r.Ok? ==> forall i :: 0 <= i < |r.value| ==> r.value[i] in photos
    ensures r.Ok? ==> forall i, j :: 0 <= i < |r.value| && j == i + 1 && j < |r.value| ==>
      photos[r.value[i]].next == Some(r.value[j])
    ensures r.Ok? && r.value != [] ==> photos[r.value[|r.value| - 1]].next == None
    decreases fuel
  {
    match cur
    case None => Ok([])
    case Some(id) =>
      if fuel == 0 then Err(Diverges)
      else if id !in photos then Err(NotFound)
      else
        match Follow(photos, photos[id].next, fuel - 1)
        case Ok(rest) => Ok([id] + rest)
        case Err(e) => Err(e)
  }

  /** `_getPhotoSequence`: the ids of a gallery's photos, walked from `head`. */
  function PhotoSequence(galleries: map<string, Gallery>, photos: map<PhotoId, Photo>, g: string)
    : (r: Result<seq<PhotoId>>)
    ensures g !in galleries ==> r == Err(NotFound)
    ensures r.Ok? ==> First(r.value) == galleries[g].head && |r.value| <= |photos|
  {
    if g !in galleries then Err(NotFound) else Follow(photos, galleries[g].head, |photos|)
  }

  /** The helper of `getPhotoIdAtIndex`: take `steps` more `next` links from
      `id`; reaching null while steps remain is 'Index out of range.'. */
  function StepFrom(photos: map<PhotoId, Photo>, id: Ref, steps: nat): Result<Ref>
    decreases steps
  {
    if steps == 0 then Ok(id)
    else
      match id
      case None => Err(IndexOutOfRange)
      case Some(x) => if x !in photos then Err(NotFound) else StepFrom(photos, photos[x].next, steps - 1)
  }

  /** `getPhotoIdAtIndex`: the id at position `index` of a gallery's chain;
      `index` equal to the chain's length yields null. */
  function PhotoIdAtIndex(galleries: map<string, Gallery>, photos: map<PhotoId, Photo>,
                          g: string, index: int): Result<Ref>
  {
    if g !in galleries then Err(NotFound)
    else if index < 0 then Err(NegativeIndex)
    else StepFrom(photos, galleries[g].head, index)
  }

  /** The helper of `getPhotoIndex`: walk from `cur` until the photo whose
      `next` is `target`, counting from `count`. */
  function CountTo(photos: map<PhotoId, Photo>, cur: Ref, target: PhotoId, count: nat, fuel: nat)
    : Result<nat>
    decreases fuel
  {
    if fuel == 0 then Err(Diverges)
    else
      match cur
      case None => Err(NotFound)
      case Some(x) =>
        if x !in photos then Err(NotFound)
        else if photos[x].next != Some(target) then CountTo(photos, photos[x].next, target, count + 1, fuel - 1)
        else Ok(count)
  }

  /** `getPhotoIndex`: the position of a photo in its gallery's chain. */
  function PhotoIndex(galleries: map<string, Gallery>, photos: map<PhotoId, Photo>, pid: PhotoId)
    : Result<nat>
  {
    if pid !in photos then Err(NotFound)
    else
      var g := photos[pid].gallery;
      if g !in galleries then Err(NotFound)
      else if galleries[g].head == Some(pid) then Ok(0)
      else CountTo(photos, galleries[g].head, pid, 1, |photos|)
  }

  /** The photos whose `gallery` field is g, in no particular order (`getAllPhotos`). */
  function PhotosOf(photos: map<PhotoId, Photo>, g: string): set<PhotoId> {
    set x | x in photos && photos[x].gallery == g
  }

  /** `getNumberOfPhotos`. */
  function PhotoCount(photos: map<PhotoId, Photo>, g: string): nat {
    |PhotosOf(photos, g)|
  }

  /** `isGalleryEmpty`: a gallery is empty when its head and tail are both null. */
  function IsGalleryEmpty(galleries: map<string, Gallery>, g: string): Result<bool> {
    if g !in galleries then Err(NotFound)
    else Ok(galleries[g].head == None && galleries[g].tail == None)
  }

  // ---------------------------------------------------------------------
  // What the walks return on a coherent store.
  // ---------------------------------------------------------------------

  /** A chain of distinct stored photos is no longer than the store. */
  lemma ChainFits(photos: map<PhotoId, Photo>, s: seq<PhotoId>)
    requires Threaded(photos, s)
    ensures |s| <= |photos|
  {
    DistinctElements(s);
    SubsetSize(Elements(s), photos.Keys);
  }

  lemma SubsetSize(a: set<PhotoId>, b: set<PhotoId>)
    requires a <= b
    ensures |a| <= |b|
  {
    var rest := b - a;
    assert b == a + rest;
  }

  lemma {:induction false} FollowChain(photos: map<PhotoId, Photo>, s: seq<PhotoId>, k: nat, fuel: nat)
    requires Threaded(photos, s) && k <= |s| && |s| - k <= fuel
    ensures Follow(photos, if k < |s| then Some(s[k]) else None, fuel) == Ok(s[k..])
    decreases |s| - k
  {
    if k < |s| {
      FollowChain(photos, s, k + 1, fuel - 1);
      assert photos[s[k]].next == if k + 1 < |s| then Some(s[k + 1]) else None;
      assert s[k..] == [s[k]] + s[k + 1..];
    } else {
      assert s[k..] == [];
    }
  }

  /** Walking from the head yields exactly the chain, so the ghost chain of the
      store is the abstraction "follow `next` from `head`". */
  lemma SequenceIsChain(galleries: map<string, Gallery>, photos: map<PhotoId, Photo>,
                        order: map<string, seq<PhotoId>>, loose: set<PhotoId>, g: string)
    requires Coherent(galleries, photos, order, loose) && g in galleries
    ensures PhotoSequence(galleries, photos, g) == Ok(order[g])
  {
    var s := order[g];
    ChainFacts(galleries, photos, order, loose, g);
    ChainFits(photos, s);
    FollowChain(photos, s, 0, |photos|);
    assert s[0..] == s;
  }

  lemma {:induction false} StepChain(photos: map<PhotoId, Photo>, s: seq<PhotoId>, k: nat, steps: nat)
    requires Threaded(photos, s) && k <= |s|
    ensures StepFrom(photos, if k < |s| then Some(s[k]) else None, steps) ==
      if k + steps < |s| then Ok(Some(s[k + steps]))
      else if k + steps == |s| then Ok(None)
      else Err(IndexOutOfRange)
    decreases steps
  {
    if steps > 0 && k < |s| {
      StepChain(photos, s, k + 1, steps - 1);
    }
  }

  /** `getPhotoIdAtIndex` on a coherent store: negative indices are refused,
      positions on the chain give their photo, the length gives null and
      anything beyond is out of range. */
  lemma IndexOnChain(galleries: map<string, Gallery>, photos: map<PhotoId, Photo>,
                     order: map<string, seq<PhotoId>>, loose: set<PhotoId>, g: string, index: int)
    requires Coherent(galleries, photos, order, loose) && g in galleries
    ensures PhotoIdAtIndex(galleries, photos, g, index) ==
      if index < 0 then Err(NegativeIndex)
      else if index < |order[g]| then Ok(Some(order[g][index]))
      else if index == |order[g]| then Ok(None)
      else Err(IndexOutOfRange)
  {
    ChainFacts(galleries, photos, order, loose, g);
    if index >= 0 {
      StepChain(photos, order[g], 0, index);
    }
  }

  lemma {:induction false} CountChain(photos: map<PhotoId, Photo>, s: seq<PhotoId>, m: nat, k: nat, fuel: nat)
    requires Threaded(photos, s) && m < k < |s| && k - m <= fuel
    ensures CountTo(photos, Some(s[m]), s[k], m + 1, fuel) == Ok(k)
    decreases k - m
  {
    assert photos[s[m]].next == Some(s[m + 1]);
    if m + 1 < k {
      assert s[m + 1] != s[k];
      CountChain(photos, s, m + 1, k, fuel - 1);
    }
  }

  lemma IndexOnLinked(galleries: map<string, Gallery>, photos: map<PhotoId, Photo>,
                       g: string, s: seq<PhotoId>, k: nat)
    requires g in galleries && Linked(photos, galleries[g], s) && k < |s|
    requires s[k] in photos && photos[s[k]].gallery == g
    ensures PhotoIndex(galleries, photos, s[k]) == Ok(k)
  {
    if k > 0 {
      assert s[0] != s[k];
      ChainFits(photos, s);
      CountChain(photos, s, 0, k, |photos|);
    }
  }

  /** `getPhotoIndex` on a coherent store gives the photo's chain position. */
  lemma IndexOfMember(galleries: map<string, Gallery>, photos: map<PhotoId, Photo>,
                      order: map<string, seq<PhotoId>>, g: string, k: nat)
    requires Coherent(galleries, photos, order, {}) && g in galleries && k < |order[g]|
    ensures PhotoIndex(galleries, photos, order[g][k]) == Ok(k)
  {
    OnOneChain(galleries, photos, order, {}, g, k);
    IndexOnLinked(galleries, photos, g, order[g], k);
  }

  /** Looking a photo's position up and then the id at that position comes
      back to the photo. */
  lemma IndexRoundTrip(galleries: map<string, Gallery>, photos: map<PhotoId, Photo>,
                       order: map<string, seq<PhotoId>>, pid: PhotoId)
    requires Coherent(galleries, photos, order, {}) && pid in photos
    ensures PhotoIndex(galleries, photos, pid).Ok?
    ensures PhotoIdAtIndex(galleries, photos, photos[pid].gallery, PhotoIndex(galleries, photos, pid).value)
            == Ok(Some(pid))
  {
    var g := photos[pid].gallery;
    var k :| 0 <= k < |order[g]| && order[g][k] == pid;
    IndexOfMember(galleries, photos, order, g, k);
    IndexOnChain(galleries, photos, order, {}, g, k);
  }

  /** On a coherent store the unordered listing of a gallery holds exactly the
      photos of its chain. */
  lemma PhotosOfChain(galleries: map<string, Gallery>, photos: map<PhotoId, Photo>,
                      order: map<string, seq<PhotoId>>, g: string)
    requires Coherent(galleries, photos, order, {}) && g in galleries
    ensures PhotosOf(photos, g) == Elements(order[g])
    ensures PhotoCount(photos, g) == |order[g]|
  {
    ChainFacts(galleries, photos, order, {}, g);
    DistinctElements(order[g]);
  }

  /** A gallery's head and tail are null exactly when no photo belongs to it. */
  lemma EmptyIffNoPhotos(galleries: map<string, Gallery>, photos: map<PhotoId, Photo>,
                         order: map<string, seq<PhotoId>>, g: string)
    requires Coherent(galleries, photos, order, {}) && g in galleries
    ensures IsGalleryEmpty(galleries, g) == Ok(PhotoCount(photos, g) == 0)
    ensures IsGalleryEmpty(galleries, g) == Ok(order[g] == [])
  {
    ChainFacts(galleries, photos, order, {}, g);
    PhotosOfChain(galleries, photos, order, g);
  }
}
