/** The representation invariant of the store: each gallery's photos form one
    doubly linked chain, threaded through the photos' `prev`/`next` fields and
    anchored by the gallery's `head`/`tail`, and the chain of a gallery holds
    exactly the photos whose `gallery` field names it. The chain is described
    by the sequence of ids met when following `next` from `head`. */
module Chains {
  import opened Records

  function First(s: seq<PhotoId>): Ref {
    if s == [] then None else Some(s[0])
  }

  function Last(s: seq<PhotoId>): Ref {
    if s == [] then None else Some(s[|s| - 1])
  }

  /** The `prev` a photo at position i of the chain s must hold. */
  function PrevIn(s: seq<PhotoId>, i: nat): Ref
    requires i < |s|
  {
    if i == 0 then None else Some(s[i - 1])
  }

  /** The `next` a photo at position i of the chain s must hold. */
  function NextIn(s: seq<PhotoId>, i: nat): Ref
    requires i < |s|
  {
    if i + 1 == |s| then None else Some(s[i + 1])
  }

  predicate Distinct(s: seq<PhotoId>) {
    forall i, j :: 0 <= i < j < |s| ==> s[i] != s[j]
  }

  /** Every photo of s exists and its `prev`/`next` name its neighbours in s:
      consecutive photos point at each other, the first has a null `prev`
      and the last a null `next`. */
  ghost predicate Threaded(photos: map<PhotoId, Photo>, s: seq<PhotoId>) {
    && Distinct(s)
    && (forall i :: 0 <= i < |s| ==> s[i] in photos)
    && (forall i, j :: 0 <= i < |s| && j == i + 1 && j < |s| ==>
          photos[s[i]].next == Some(s[j]) && photos[s[j]].prev == Some(s[i]))
    && (|s| > 0 ==> photos[s[0]].prev == None && photos[s[|s| - 1]].next == None)
  }

  /** The fields Threaded demands of the photo at position i, one at a time. */
  lemma ThreadedAt(photos: map<PhotoId, Photo>, s: seq<PhotoId>, i: nat)
    requires Threaded(photos, s) && i < |s|
    ensures s[i] in photos
    ensures photos[s[i]].prev == PrevIn(s, i) && photos[s[i]].next == NextIn(s, i)
  {
    if i > 0 { assert s[i - 1] in photos; }
    if i + 1 < |s| { assert s[i + 1] in photos; }
  }

  /** Conversely, a chain of distinct stored photos each holding the fields
      its position demands is threaded. */
  lemma ThreadedFromFields(photos: map<PhotoId, Photo>, s: seq<PhotoId>)
    requires Distinct(s) && forall i :: 0 <= i < |s| ==> s[i] in photos
    requires forall i {:trigger photos[s[i]]} :: 0 <= i < |s| ==>
               photos[s[i]].prev == PrevIn(s, i) && photos[s[i]].next == NextIn(s, i)
    ensures Threaded(photos, s)
  {
    forall i, j | 0 <= i < |s| && j == i + 1 && j < |s|
      ensures photos[s[i]].next == Some(s[j]) && photos[s[j]].prev == Some(s[i])
    {
      assert photos[s[i]].next == NextIn(s, i);
      assert photos[s[j]].prev == PrevIn(s, j);
    }
    if |s| > 0 {
      assert photos[s[0]].prev == PrevIn(s, 0);
      assert photos[s[|s| - 1]].next == NextIn(s, |s| - 1);
    }
  }

  /** s is the chain of a gallery whose document is `gallery`. */
  ghost predicate Linked(photos: map<PhotoId, Photo>, gallery: Gallery, s: seq<PhotoId>) {
    Threaded(photos, s) && gallery.head == First(s) && gallery.tail == Last(s)
  }

  /** The store invariant, with `order[g]` the chain of gallery g. The photos in
      `loose` are the ones an operation has unlinked and not yet deleted or
      linked again: they belong to no chain and need not be on one. */
  ghost predicate Coherent(galleries: map<string, Gallery>, photos: map<PhotoId, Photo>,
                           order: map<string, seq<PhotoId>>, loose: set<PhotoId>) {
    && order.Keys == galleries.Keys
    && (forall g {:trigger Linked(photos, galleries[g], order[g])} :: g in galleries ==> Linked(photos, galleries[g], order[g]))
    && (forall g, i :: g in order && 0 <= i < |order[g]| ==>
          order[g][i] !in loose && order[g][i] in photos && photos[order[g][i]].gallery == g)
    && (forall x :: x in photos && x !in loose ==>
          photos[x].gallery in order && x in order[photos[x].gallery])
  }

  // ---------------------------------------------------------------------
  // The sequence operations that the store's mutators refine.
  // ---------------------------------------------------------------------

  /** s without its element at position k. */
  function Remove(s: seq<PhotoId>, k: nat): (r: seq<PhotoId>)
    requires k < |s|
    ensures |r| == |s| - 1
    ensures forall i :: 0 <= i < |r| ==> r[i] == if i < k then s[i] else s[i + 1]
  {
    s[..k] + s[k + 1..]
  }

  /** s with x placed at position k, the elements from k on moving right. */
  function InsertAt(s: seq<PhotoId>, k: nat, x: PhotoId): (r: seq<PhotoId>)
    requires k <= |s|
    ensures |r| == |s| + 1 && r[k] == x
    ensures forall i :: 0 <= i < |r| && i != k ==> r[i] == if i < k then s[i] else s[i - 1]
  {
    s[..k] + [x] + s[k..]
  }

  /** s with the elements at positions i and j exchanged. */
  function SwapAt(s: seq<PhotoId>, i: nat, j: nat): (r: seq<PhotoId>)
    requires i < |s| && j < |s|
    ensures |r| == |s| && r[i] == s[j] && r[j] == s[i]
    ensures forall m :: 0 <= m < |s| && m != i && m != j ==> r[m] == s[m]
  {
    s[i := s[j]][j := s[i]]
  }

  /** The position of x on s. */
  ghost function PositionOf(s: seq<PhotoId>, x: PhotoId): (k: nat)
    requires x in s
    ensures k < |s| && s[k] == x
  {
    var k :| 0 <= k < |s| && s[k] == x; k
  }

  /** On a chain without repetitions, the position of the photo at i is i. */
  lemma PositionOfAt(s: seq<PhotoId>, i: nat)
    requires Distinct(s) && i < |s|
    ensures PositionOf(s, s[i]) == i
  {
  }

  /** The set of ids on s. */
  function Elements(s: seq<PhotoId>): set<PhotoId> {
    set i | 0 <= i < |s| :: s[i]
  }

  // ---------------------------------------------------------------------
  // Lemmas about the sequences.
  // ---------------------------------------------------------------------

  /** Exchanging the same two positions twice restores the chain. */
  lemma SwapTwice(s: seq<PhotoId>, i: nat, j: nat)
    requires i < |s| && j < |s|
    ensures SwapAt(SwapAt(s, i, j), i, j) == s
  {
  }

  lemma {:induction false} DistinctElements(s: seq<PhotoId>)
    requires Distinct(s)
    ensures |Elements(s)| == |s|
  {
    if s != [] {
      var t := s[..|s| - 1];
      assert Distinct(t);
      DistinctElements(t);
      assert Elements(s) == Elements(t) + {s[|s| - 1]};
      assert s[|s| - 1] !in Elements(t);
    }
  }

  lemma RemoveDistinct(s: seq<PhotoId>, k: nat)
    requires Distinct(s) && k < |s|
    ensures Distinct(Remove(s, k))
    ensures Elements(Remove(s, k)) == Elements(s) - {s[k]}
  {
    var r := Remove(s, k);
    forall y | y in Elements(s) - {s[k]} ensures y in Elements(r) {
      var i :| 0 <= i < |s| && s[i] == y;
      if i < k { assert r[i] == y; } else { assert r[i - 1] == y; }
    }
  }

  lemma InsertDistinct(s: seq<PhotoId>, k: nat, x: PhotoId)
    requires Distinct(s) && k <= |s| && x !in s
    ensures Distinct(InsertAt(s, k, x))
    ensures Elements(InsertAt(s, k, x)) == Elements(s) + {x}
  {
    var r := InsertAt(s, k, x);
    forall y | y in Elements(s) ensures y in Elements(r) {
      var i :| 0 <= i < |s| && s[i] == y;
      if i < k { assert r[i] == y; } else { assert r[i + 1] == y; }
    }
  }

  /** Exchanging i with j is exchanging j with i. */
  lemma SwapSymmetric(s: seq<PhotoId>, i: nat, j: nat)
    requires i < |s| && j < |s|
    ensures SwapAt(s, i, j) == SwapAt(s, j, i)
  {
  }

  lemma SwapDistinct(s: seq<PhotoId>, i: nat, j: nat)
    requires Distinct(s) && i < |s| && j < |s|
    ensures Distinct(SwapAt(s, i, j))
    ensures Elements(SwapAt(s, i, j)) == Elements(s)
  {
    var r := SwapAt(s, i, j);
    forall y | y in Elements(s) ensures y in Elements(r) {
      var m :| 0 <= m < |s| && s[m] == y;
      if m == i { assert r[j] == y; } else if m == j { assert r[i] == y; } else { assert r[m] == y; }
    }
  }

  /** A subset of a finite set with as many elements is the whole set. */
  lemma SubsetOfSameSize(a: set<PhotoId>, b: set<PhotoId>)
    requires a <= b && |a| == |b|
    ensures a == b
  {
    assert |b - a| == |b| - |a|;
  }

  /** A photo found on a chain of the store has that chain's gallery, so it is
      on no other chain. */
  lemma OnOneChain(galleries: map<string, Gallery>, photos: map<PhotoId, Photo>,
                   order: map<string, seq<PhotoId>>, loose: set<PhotoId>, g: string, i: nat)
    requires Coherent(galleries, photos, order, loose)
    requires g in order && i < |order[g]|
    ensures order[g][i] in photos && photos[order[g][i]].gallery == g
    ensures forall h :: h in order && h != g ==> order[g][i] !in order[h]
  {
  }

  /** A chain keeps its links in a store that changed none of its photos. */
  lemma ThreadedFrame(photos: map<PhotoId, Photo>, photos': map<PhotoId, Photo>, s: seq<PhotoId>)
    requires Threaded(photos, s)
    requires forall i :: 0 <= i < |s| ==> s[i] in photos' && photos'[s[i]] == photos[s[i]]
    ensures Threaded(photos', s)
  {
  }

  /** The new state differs from the old only in the records of gallery g:
      its document, its chain and the photos whose `gallery` is g. */
  ghost predicate OthersKept(galleries: map<string, Gallery>, photos: map<PhotoId, Photo>,
                             order: map<string, seq<PhotoId>>,
                             galleries': map<string, Gallery>, photos': map<PhotoId, Photo>,
                             order': map<string, seq<PhotoId>>, g: string)
  {
    && galleries'.Keys == galleries.Keys && order'.Keys == order.Keys && g in galleries' && g in order'
    && (forall h :: h in galleries && h in order && h != g ==> galleries'[h] == galleries[h] && order'[h] == order[h])
    && (forall x :: x in photos && photos[x].gallery != g ==> x in photos' && photos'[x] == photos[x])
    && (forall x :: x in photos' && photos'[x].gallery != g ==> x in photos && photos[x] == photos'[x])
  }

  /** s is the chain of gallery g, linked from its document `gallery`, and
      holds exactly the photos of g that are not left loose; photos newly
      left loose, or no longer loose, belong to g. */
  ghost predicate ChainRebuilt(photos: map<PhotoId, Photo>, loose: set<PhotoId>,
                               photos': map<PhotoId, Photo>, loose': set<PhotoId>,
                               gallery: Gallery, s: seq<PhotoId>, g: string)
  {
    && (forall x :: x in loose' ==> x in loose || (x in photos' && photos'[x].gallery == g))
    && (forall x :: x in loose && x !in loose' && x in photos' ==> photos'[x].gallery == g)
    && Linked(photos', gallery, s)
    && (forall i :: 0 <= i < |s| ==> s[i] !in loose' && s[i] in photos' && photos'[s[i]].gallery == g)
    && (forall x :: x in photos' && x !in loose' && photos'[x].gallery == g ==> x in s)
  }

  /** An edit confined to gallery g that leaves g a rebuilt chain. */
  ghost predicate OnlyChainEdited(galleries: map<string, Gallery>, photos: map<PhotoId, Photo>,
                                  order: map<string, seq<PhotoId>>, loose: set<PhotoId>,
                                  galleries': map<string, Gallery>, photos': map<PhotoId, Photo>,
                                  order': map<string, seq<PhotoId>>, loose': set<PhotoId>, g: string)
  {
    && OthersKept(galleries, photos, order, galleries', photos', order', g)
    && ChainRebuilt(photos, loose, photos', loose', galleries'[g], order'[g], g)
  }

  /** An operation that rewrites only the records of gallery g keeps the
      store coherent. */
  lemma EditOneChain(galleries: map<string, Gallery>, photos: map<PhotoId, Photo>,
                     order: map<string, seq<PhotoId>>, loose: set<PhotoId>,
                     galleries': map<string, Gallery>, photos': map<PhotoId, Photo>,
                     order': map<string, seq<PhotoId>>, loose': set<PhotoId>, g: string)
    requires Coherent(galleries, photos, order, loose)
    requires OnlyChainEdited(galleries, photos, order, loose, galleries', photos', order', loose', g)
    ensures Coherent(galleries', photos', order', loose')
  {
    forall h | h in galleries' && h != g ensures Linked(photos', galleries'[h], order'[h]) {
      assert Linked(photos, galleries[h], order[h]);
      forall i | 0 <= i < |order[h]| ensures order[h][i] in photos' && photos'[order[h][i]] == photos[order[h][i]] {
        assert photos[order[h][i]].gallery == h;
      }
      ThreadedFrame(photos, photos', order[h]);
    }
    forall h, i | h in order' && 0 <= i < |order'[h]|
      ensures order'[h][i] !in loose' && order'[h][i] in photos' && photos'[order'[h][i]].gallery == h
    {
      if h != g {
        assert photos[order[h][i]].gallery == h;
      }
    }
    forall x | x in photos' && x !in loose' ensures photos'[x].gallery in order' && x in order'[photos'[x].gallery] {
      var h := photos'[x].gallery;
      if h != g {
        assert x in photos && photos[x] == photos'[x];
        assert x !in loose;
        assert x in order[h];
      }
    }
  }

  /** A loose photo's record may be rewritten, or the record dropped, without
      touching any chain. */
  lemma LooseEdit(galleries: map<string, Gallery>, photos: map<PhotoId, Photo>,
                  order: map<string, seq<PhotoId>>, loose: set<PhotoId>, x: PhotoId, p: Photo)
    requires Coherent(galleries, photos, order, loose) && x in loose
    ensures Coherent(galleries, photos[x := p], order, loose)
  {
    forall g | g in galleries ensures Linked(photos[x := p], galleries[g], order[g]) {
      assert Linked(photos, galleries[g], order[g]);
      ThreadedFrame(photos, photos[x := p], order[g]);
    }
  }

  lemma LooseDrop(galleries: map<string, Gallery>, photos: map<PhotoId, Photo>,
                  order: map<string, seq<PhotoId>>, x: PhotoId)
    requires Coherent(galleries, photos, order, {x})
    ensures Coherent(galleries, photos - {x}, order, {})
  {
    forall g | g in galleries ensures Linked(photos - {x}, galleries[g], order[g]) {
      assert Linked(photos, galleries[g], order[g]);
      ThreadedFrame(photos, photos - {x}, order[g]);
    }
  }

  /** The invariant, clause by clause. */
  lemma CoherentIntro(galleries: map<string, Gallery>, photos: map<PhotoId, Photo>,
                      order: map<string, seq<PhotoId>>, loose: set<PhotoId>)
    requires order.Keys == galleries.Keys
    requires forall g :: g in galleries ==> Linked(photos, galleries[g], order[g])
    requires forall g, i :: g in order && 0 <= i < |order[g]| ==>
               order[g][i] !in loose && order[g][i] in photos && photos[order[g][i]].gallery == g
    requires forall x :: x in photos && x !in loose ==> photos[x].gallery in order && x in order[photos[x].gallery]
    ensures Coherent(galleries, photos, order, loose)
  {
  }

  /** A new gallery with a null head and tail has the empty chain; no photo
      can name it yet, since every photo names a gallery with a chain. */
  lemma AddEmptyGallery(galleries: map<string, Gallery>, photos: map<PhotoId, Photo>,
                        order: map<string, seq<PhotoId>>, name: string, description: string)
    requires Coherent(galleries, photos, order, {}) && name !in galleries
    ensures Coherent(galleries[name := Gallery(description, None, None)], photos, order[name := []], {})
  {
    var G := galleries[name := Gallery(description, None, None)];
    var O := order[name := []];
    assert O.Keys == G.Keys;
    forall h | h in G ensures Linked(photos, G[h], O[h]) {
      if h != name {
        assert Linked(photos, galleries[h], order[h]);
      }
    }
    CoherentIntro(G, photos, O, {});
  }

  /** A new photo record may be stored loose, before it is linked. */
  lemma LooseAdd(galleries: map<string, Gallery>, photos: map<PhotoId, Photo>,
                 order: map<string, seq<PhotoId>>, x: PhotoId, p: Photo)
    requires Coherent(galleries, photos, order, {}) && x !in photos
    ensures Coherent(galleries, photos[x := p], order, {x})
  {
    var P := photos[x := p];
    forall g | g in galleries ensures Linked(P, galleries[g], order[g]) {
      assert Linked(photos, galleries[g], order[g]);
      ThreadedFrame(photos, P, order[g]);
    }
    CoherentIntro(galleries, P, order, {x});
  }

  /** A gallery with a null head and tail has no photos, so dropping it
      (`removeGalleryByName`) keeps the invariant. */
  lemma RemoveEmptyGallery(galleries: map<string, Gallery>, photos: map<PhotoId, Photo>,
                           order: map<string, seq<PhotoId>>, g: string)
    requires Coherent(galleries, photos, order, {}) && g in galleries
    requires galleries[g].head == None && galleries[g].tail == None
    ensures order[g] == []
    ensures Coherent(galleries - {g}, photos, order - {g}, {})
  {
    assert Linked(photos, galleries[g], order[g]);
    forall x | x in photos ensures photos[x].gallery != g {
      assert x in order[photos[x].gallery];
    }
  }

  /** The photos left when every photo of gallery g is deleted. */
  function Without(photos: map<PhotoId, Photo>, g: string): (r: map<PhotoId, Photo>)
    ensures forall x :: x in r <==> x in photos && photos[x].gallery != g
    ensures forall x :: x in r ==> r[x] == photos[x]
  {
    map x | x in photos && photos[x].gallery != g :: photos[x]
  }

  /** Deleting the photos of g and nulling its head and tail (`emptyGallery`)
      leaves g with the empty chain and every other chain as it was. */
  lemma EmptiedCoherent(galleries: map<string, Gallery>, photos: map<PhotoId, Photo>,
                        order: map<string, seq<PhotoId>>, g: string)
    requires Coherent(galleries, photos, order, {}) && g in galleries
    ensures Coherent(SetEnds(galleries, g, None, None), Without(photos, g), order[g := []], {})
  {
    var G, P, O := SetEnds(galleries, g, None, None), Without(photos, g), order[g := []];
    EmptiedLinked(galleries, photos, order, g, G, P, O);
    EmptiedMembers(galleries, photos, order, g, P, O);
    CoherentIntro(G, P, O, {});
  }

  lemma EmptiedLinked(galleries: map<string, Gallery>, photos: map<PhotoId, Photo>,
                      order: map<string, seq<PhotoId>>, g: string,
                      G: map<string, Gallery>, P: map<PhotoId, Photo>, O: map<string, seq<PhotoId>>)
    requires Coherent(galleries, photos, order, {}) && g in galleries
    requires G == SetEnds(galleries, g, None, None) && P == Without(photos, g) && O == order[g := []]
    ensures O.Keys == G.Keys
    ensures forall h :: h in G ==> Linked(P, G[h], O[h])
  {
    forall h | h in G ensures Linked(P, G[h], O[h]) {
      if h != g {
        OtherChainKept(galleries, photos, order, g, h);
      }
    }
  }

  lemma EmptiedMembers(galleries: map<string, Gallery>, photos: map<PhotoId, Photo>,
                       order: map<string, seq<PhotoId>>, g: string,
                       P: map<PhotoId, Photo>, O: map<string, seq<PhotoId>>)
    requires Coherent(galleries, photos, order, {}) && g in galleries
    requires P == Without(photos, g) && O == order[g := []]
    ensures forall h, i :: h in O && 0 <= i < |O[h]| ==> O[h][i] !in {} && O[h][i] in P && P[O[h][i]].gallery == h
    ensures forall x :: x in P && x !in {} ==> P[x].gallery in O && x in O[P[x].gallery]
  {
  }

  /** The chain of a gallery h other than g survives deleting the photos of g. */
  lemma OtherChainKept(galleries: map<string, Gallery>, photos: map<PhotoId, Photo>,
                       order: map<string, seq<PhotoId>>, g: string, h: string)
    requires Coherent(galleries, photos, order, {}) && h in galleries && h != g
    ensures Linked(Without(photos, g), galleries[h], order[h])
  {
    ChainFacts(galleries, photos, order, {}, h);
    ThreadedFrame(photos, Without(photos, g), order[h]);
  }

  /** The facts of the invariant about the chain of one gallery. */
  lemma ChainFacts(galleries: map<string, Gallery>, photos: map<PhotoId, Photo>,
                   order: map<string, seq<PhotoId>>, loose: set<PhotoId>, g: string)
    requires Coherent(galleries, photos, order, loose) && g in galleries
    ensures Linked(photos, galleries[g], order[g])
    ensures forall j :: 0 <= j < |order[g]| ==> order[g][j] in photos && photos[order[g][j]].gallery == g
    ensures forall j :: 0 <= j < |order[g]| ==> order[g][j] !in loose
    ensures forall x :: x in photos && x !in loose && photos[x].gallery == g ==> x in order[g]
  {
  }

  /** Replacing a chain twice leaves only the second replacement. */
  lemma ReplaceTwice(order: map<string, seq<PhotoId>>, g: string, s: seq<PhotoId>, t: seq<PhotoId>)
    ensures order[g := s][g := t] == order[g := t]
  {
  }

  /** Inserting at two equal positions replaces a chain by the same sequence. */
  lemma ReplaceSameSlot(order: map<string, seq<PhotoId>>, g: string, s: seq<PhotoId>, a: nat, b: nat, x: PhotoId)
    requires a == b && a <= |s|
    ensures order[g := InsertAt(s, a, x)] == order[g := InsertAt(s, b, x)]
  {
  }

  /** Replacing the chain of an existing gallery keeps the set of galleries. */
  lemma ReplaceChainKeys(order: map<string, seq<PhotoId>>, g: string, s: seq<PhotoId>)
    requires g in order
    ensures order[g := s].Keys == order.Keys
  {
  }
}
