/** What each chain rewrite of the store does to a chain, stated per photo:
    given the records the rewrite leaves behind, the new chain is the old
    sequence with one photo removed, appended, inserted or two exchanged.
    The store's mutators establish the per-photo facts from their writes. */
module Surgery {
  import opened Records
  import opened Chains

  /** Unlinking the photo at position k: its predecessor takes over its `next`
      (or the gallery its `head`), its successor its `prev` (or the gallery
      its `tail`), and every other record stays as it was. */
  lemma RemovedLinked(photos: map<PhotoId, Photo>, photos': map<PhotoId, Photo>,
                      gallery: Gallery, gallery': Gallery, s: seq<PhotoId>, k: nat)
    requires Linked(photos, gallery, s) && k < |s|
    requires photos'.Keys == photos.Keys
    requires forall x :: x in photos ==>
               photos'[x] == (if k > 0 && x == s[k - 1] then photos[x].(next := NextIn(s, k))
                              else if k + 1 < |s| && x == s[k + 1] then photos[x].(prev := PrevIn(s, k))
                              else photos[x])
    requires gallery'.head == (if k == 0 then NextIn(s, k) else gallery.head)
    requires gallery'.tail == (if k + 1 == |s| then PrevIn(s, k) else gallery.tail)
    ensures Linked(photos', gallery', Remove(s, k))
  {
    var r := Remove(s, k);
    RemoveDistinct(s, k);
    forall i | 0 <= i < |r| ensures r[i] in photos' {
      assert r[i] in photos;
    }
    forall i, j | 0 <= i < |r| && j == i + 1 && j < |r|
      ensures photos'[r[i]].next == Some(r[j]) && photos'[r[j]].prev == Some(r[i])
    {
      if j < k {
        assert r[i] == s[i] && r[j] == s[j] && s[i] in photos && s[j] in photos;
      } else if j == k {
        assert r[i] == s[k - 1] && r[j] == s[k + 1] && s[k - 1] in photos && s[k + 1] in photos;
      } else {
        assert r[i] == s[i + 1] && r[j] == s[j + 1] && s[i + 1] in photos && s[j + 1] in photos;
      }
    }
    if |r| > 0 {
      assert s[0] in photos && s[|s| - 1] in photos;
      if k == 0 { assert s[1] in photos; }
      if k + 1 == |s| { assert s[k - 1] in photos; }
    }
  }

  /** Linking photo x after the tail: the old tail's `next` becomes x, x takes
      the old tail as `prev` and a null `next`, and the gallery's tail (and
      its head too when the chain was empty) becomes x. */
  lemma AppendedLinked(photos: map<PhotoId, Photo>, photos': map<PhotoId, Photo>,
                       gallery: Gallery, gallery': Gallery, s: seq<PhotoId>, x: PhotoId)
    requires Linked(photos, gallery, s) && x !in s && x in photos
    requires photos'.Keys == photos.Keys
    requires forall y :: y in photos ==>
               photos'[y] == (if y == x then photos[y].(prev := Last(s), next := None)
                              else if Some(y) == Last(s) then photos[y].(next := Some(x))
                              else photos[y])
    requires gallery'.head == (if s == [] then Some(x) else gallery.head)
    requires gallery'.tail == Some(x)
    ensures Linked(photos', gallery', s + [x])
  {
    var r := s + [x];
    forall i, j | 0 <= i < |r| && j == i + 1 && j < |r|
      ensures photos'[r[i]].next == Some(r[j]) && photos'[r[j]].prev == Some(r[i])
    {
      assert s[i] in photos;
      if j < |s| {
        assert s[j] in photos;
      }
    }
    if s != [] {
      assert s[0] in photos;
    }
  }

  /** Splicing photo x in after position k, which is not the tail: the photo
      at k points forward to x, the one at k + 1 back to x, and x between them. */
  lemma InsertedLinked(photos: map<PhotoId, Photo>, photos': map<PhotoId, Photo>,
                       gallery: Gallery, gallery': Gallery, s: seq<PhotoId>, k: nat, x: PhotoId)
    requires Linked(photos, gallery, s) && k + 1 < |s| && x !in s && x in photos
    requires photos'.Keys == photos.Keys
    requires forall y :: y in photos ==>
               photos'[y] == (if y == x then photos[y].(prev := Some(s[k]), next := Some(s[k + 1]))
                              else if y == s[k] then photos[y].(next := Some(x))
                              else if y == s[k + 1] then photos[y].(prev := Some(x))
                              else photos[y])
    requires gallery' == gallery
    ensures Linked(photos', gallery', InsertAt(s, k + 1, x))
  {
    var r := InsertAt(s, k + 1, x);
    InsertDistinct(s, k + 1, x);
    forall i | 0 <= i < |r| ensures r[i] in photos' {
      if i != k + 1 { assert r[i] in photos; }
    }
    forall i, j | 0 <= i < |r| && j == i + 1 && j < |r|
      ensures photos'[r[i]].next == Some(r[j]) && photos'[r[j]].prev == Some(r[i])
    {
      if j <= k {
        assert r[i] == s[i] && r[j] == s[j] && s[i] in photos && s[j] in photos;
      } else if j == k + 1 {
        assert r[i] == s[k] && s[k] in photos;
      } else if j == k + 2 {
        assert r[j] == s[k + 1] && s[k + 1] in photos;
      } else {
        assert r[i] == s[i - 1] && r[j] == s[j - 1] && s[i - 1] in photos && s[j - 1] in photos;
      }
    }
    assert s[0] in photos && s[|s| - 1] in photos;
  }

  /** Turning a chain t whose last photo x was just appended into one that
      starts with x: the gallery's head becomes x and its tail the photo
      before x, the old first photo points back to x, x is given a null
      `prev` and the old first photo as `next`, and the photo before x
      gets a null `next`. */
  lemma RotatedLinked(photos: map<PhotoId, Photo>, photos': map<PhotoId, Photo>,
                      gallery: Gallery, gallery': Gallery, t: seq<PhotoId>)
    requires Linked(photos, gallery, t) && |t| >= 2
    requires photos'.Keys == photos.Keys
    requires forall y :: y in photos ==>
               photos'[y] == (if y == t[|t| - 1] then photos[y].(prev := None, next := Some(t[0]))
                              else photos[y].(prev := if y == t[0] then Some(t[|t| - 1]) else photos[y].prev,
                                              next := if y == t[|t| - 2] then None else photos[y].next))
    requires gallery'.head == Some(t[|t| - 1]) && gallery'.tail == Some(t[|t| - 2])
    ensures Linked(photos', gallery', [t[|t| - 1]] + t[..|t| - 1])
  {
    var n := |t|;
    var r := [t[n - 1]] + t[..n - 1];
    forall i, j | 0 <= i < |r| && j < |r| && i < j ensures r[i] != r[j] {
      if i == 0 { assert r[j] == t[j - 1]; } else { assert r[i] == t[i - 1] && r[j] == t[j - 1]; }
    }
    forall i | 0 <= i < |r| ensures r[i] in photos' {
      if i > 0 { assert r[i] == t[i - 1]; }
    }
    forall i, j | 0 <= i < |r| && j == i + 1 && j < |r|
      ensures photos'[r[i]].next == Some(r[j]) && photos'[r[j]].prev == Some(r[i])
    {
      if i == 0 {
        assert r[j] == t[0] && t[0] in photos;
      } else {
        assert r[i] == t[i - 1] && r[j] == t[j - 1] && t[i - 1] in photos && t[j - 1] in photos;
      }
    }
    assert t[n - 1] in photos && t[n - 2] in photos;
  }

  /** Exchanging the neighbours at positions i and i + 1 (the first two cases
      of `swapTwoPhotos`): with a = s[i] and b = s[i + 1], a takes b's place
      between b and b's old successor, b takes a's place after a's old
      predecessor, and those two outer neighbours point at their new
      partners. */
  lemma AdjacentSwapThreaded(photos: map<PhotoId, Photo>, photos': map<PhotoId, Photo>,
                             s: seq<PhotoId>, i: nat)
    requires Threaded(photos, s) && i + 1 < |s|
    requires photos'.Keys == photos.Keys
    requires forall y :: y in photos ==>
               photos'[y] == (if y == s[i] then photos[y].(prev := Some(s[i + 1]), next := NextIn(s, i + 1))
                              else if y == s[i + 1] then photos[y].(prev := PrevIn(s, i), next := Some(s[i]))
                              else if i > 0 && y == s[i - 1] then photos[y].(next := Some(s[i + 1]))
                              else if i + 2 < |s| && y == s[i + 2] then photos[y].(prev := Some(s[i]))
                              else photos[y])
    ensures Threaded(photos', SwapAt(s, i, i + 1))
  {
    var r := SwapAt(s, i, i + 1);
    SwapDistinct(s, i, i + 1);
    forall m | 0 <= m < |r| ensures r[m] in photos' {
      assert s[m] in photos;
    }
    forall m, n | 0 <= m < |r| && n == m + 1 && n < |r|
      ensures photos'[r[m]].next == Some(r[n]) && photos'[r[n]].prev == Some(r[m])
    {
      assert s[m] in photos && s[n] in photos;
      if n == i {
        assert s[i + 1] in photos;
      } else if m == i + 1 {
        assert s[i] in photos;
      }
    }
    if |r| > 0 {
      assert s[0] in photos && s[|s| - 1] in photos;
      assert s[i] in photos && s[i + 1] in photos;
    }
  }

  /** Exchanging photos at positions i and j that are not neighbours (the
      third case of `swapTwoPhotos`): each takes the other's `prev` and
      `next`, and the neighbours of each point at the other one. */
  lemma DistantSwapThreaded(photos: map<PhotoId, Photo>, photos': map<PhotoId, Photo>,
                            s: seq<PhotoId>, i: nat, j: nat)
    requires Threaded(photos, s) && i + 1 < j < |s|
    requires photos'.Keys == photos.Keys
    requires forall y :: y in photos ==> photos'[y] == DistantSwapped(photos, s, i, j, y)
    ensures Threaded(photos', SwapAt(s, i, j))
  {
    var r := SwapAt(s, i, j);
    SwapDistinct(s, i, j);
    forall m | 0 <= m < |r|
      ensures r[m] in photos' && photos'[r[m]].prev == PrevIn(r, m) && photos'[r[m]].next == NextIn(r, m)
    {
      DistantSwapAt(photos, s, i, j, m);
    }
    ThreadedFromFields(photos', r);
  }

  /** The record the third case of `swapTwoPhotos` leaves for photo y. */
  function DistantSwapped(photos: map<PhotoId, Photo>, s: seq<PhotoId>, i: nat, j: nat, y: PhotoId): Photo
    requires i < j < |s| && y in photos
  {
    if y == s[i] then photos[y].(prev := PrevIn(s, j), next := NextIn(s, j))
    else if y == s[j] then photos[y].(prev := PrevIn(s, i), next := NextIn(s, i))
    else photos[y].(
      prev := if Some(y) == NextIn(s, i) then Some(s[j])
              else if Some(y) == NextIn(s, j) then Some(s[i])
              else photos[y].prev,
      next := if Some(y) == PrevIn(s, i) then Some(s[j])
              else if Some(y) == PrevIn(s, j) then Some(s[i])
              else photos[y].next)
  }

  /** The photo at position m of the swapped chain holds the fields that
      position demands. */
  lemma DistantSwapAt(photos: map<PhotoId, Photo>, s: seq<PhotoId>, i: nat, j: nat, m: nat)
    requires Threaded(photos, s) && i + 1 < j < |s| && m < |s|
    ensures s[m] in photos
    ensures var r := SwapAt(s, i, j);
            var p := DistantSwapped(photos, s, i, j, r[m]);
            p.prev == PrevIn(r, m) && p.next == NextIn(r, m)
  {
    ThreadedAt(photos, s, m);
    ThreadedAt(photos, s, i);
    ThreadedAt(photos, s, j);
  }
}
