/** How each sequence of record writes issued by a store operation acts on
    the chains: given the writes, in the order the operation issues them,
    the new records thread the new chain and the store stays coherent. Each
    `...Step` lemma takes the writes literally, as the operation performs
    them; the lemmas it calls restate them photo by photo. */
module Steps {
  import opened Records
  import opened Chains
  import opened Walks
  import opened Surgery

  /** The two link writes of an unlink, photo by photo. */
  lemma UnlinkWrites(P0: map<PhotoId, Photo>, P1: map<PhotoId, Photo>, P2: map<PhotoId, Photo>,
                     s: seq<PhotoId>, k: nat, prev: Ref, next: Ref)
    requires k < |s| && Distinct(s) && prev == PrevIn(s, k) && next == NextIn(s, k)
    requires P1 == if prev.Some? then SetNext(P0, prev, next) else P0
    requires P2 == if next.Some? then SetPrev(P1, next, prev) else P1
    ensures P2.Keys == P0.Keys
    ensures forall x :: x in P0 ==>
              P2[x] == (if k > 0 && x == s[k - 1] then P0[x].(next := NextIn(s, k))
                        else if k + 1 < |s| && x == s[k + 1] then P0[x].(prev := PrevIn(s, k))
                        else P0[x])
  {
    if k > 0 && k + 1 < |s| {
      assert s[k - 1] != s[k + 1];
    }
  }

  /** The writes of an unlink, in the order `_updateLinkedListAfterRemovingPhotoFromGallery`
      issues them, leave the store coherent with the chain of the photo's
      gallery short of that photo, and the photo itself loose and untouched. */
  lemma {:induction false} UnlinkStep(G0: map<string, Gallery>, P0: map<PhotoId, Photo>,
                                      O0: map<string, seq<PhotoId>>, pid: PhotoId,
                                      G1: map<string, Gallery>, P1: map<PhotoId, Photo>,
                                      G: map<string, Gallery>, P: map<PhotoId, Photo>)
    requires Coherent(G0, P0, O0, {}) && pid in P0
    requires P1 == if P0[pid].prev.Some? then SetNext(P0, P0[pid].prev, P0[pid].next) else P0
    requires G1 == if P0[pid].prev.Some? then G0 else SetHead(G0, P0[pid].gallery, P0[pid].next)
    requires P == if P0[pid].next.Some? then SetPrev(P1, P0[pid].next, P0[pid].prev) else P1
    requires G == if P0[pid].next.Some? then G1 else SetTail(G1, P0[pid].gallery, P0[pid].prev)
    ensures P.Keys == P0.Keys && P[pid] == P0[pid] && G.Keys == G0.Keys
    ensures P0[pid].gallery in O0 && pid in O0[P0[pid].gallery]
    ensures Coherent(G, P, O0[P0[pid].gallery := Remove(O0[P0[pid].gallery], PositionOf(O0[P0[pid].gallery], pid))], {pid})
  {
    var g := P0[pid].gallery;
    var s := O0[g];
    var k := PositionOf(s, pid);
    ChainFacts(G0, P0, O0, {}, g);
    ThreadedAt(P0, s, k);
    UnlinkWrites(P0, P1, P, s, k, P0[pid].prev, P0[pid].next);
    UnlinkGalleryWrites(G0, G1, G, g, s, k);
    RemovedLinked(P0, P, G0[g], G[g], s, k);
    UnlinkedCoherent(G0, P0, O0, G, P, g, k);
  }

  /** The gallery writes of an unlink: `head` moves on when the photo was
      first, `tail` moves back when it was last. */
  lemma UnlinkGalleryWrites(G0: map<string, Gallery>, G1: map<string, Gallery>, G: map<string, Gallery>,
                            g: string, s: seq<PhotoId>, k: nat)
    requires g in G0 && k < |s|
    requires G1 == if k > 0 then G0 else SetHead(G0, g, NextIn(s, k))
    requires G == if k + 1 < |s| then G1 else SetTail(G1, g, PrevIn(s, k))
    ensures G.Keys == G0.Keys && forall h :: h in G0 && h != g ==> G[h] == G0[h]
    ensures G[g].head == (if k == 0 then NextIn(s, k) else G0[g].head)
    ensures G[g].tail == (if k + 1 == |s| then PrevIn(s, k) else G0[g].tail)
  {
  }

  /** After an unlink, the store is coherent with the unlinked photo loose. */
  lemma {:induction false} UnlinkedCoherent(G0: map<string, Gallery>, P0: map<PhotoId, Photo>,
                                            O0: map<string, seq<PhotoId>>,
                                            G: map<string, Gallery>, P: map<PhotoId, Photo>, g: string, k: nat)
    requires Coherent(G0, P0, O0, {}) && g in G0 && k < |O0[g]|
    requires G.Keys == G0.Keys && forall h :: h in G0 && h != g ==> G[h] == G0[h]
    requires P.Keys == P0.Keys
    requires forall x :: x in P0 ==>
               P[x] == (if k > 0 && x == O0[g][k - 1] then P0[x].(next := NextIn(O0[g], k))
                        else if k + 1 < |O0[g]| && x == O0[g][k + 1] then P0[x].(prev := PrevIn(O0[g], k))
                        else P0[x])
    requires Linked(P, G[g], Remove(O0[g], k))
    ensures Coherent(G, P, O0[g := Remove(O0[g], k)], {O0[g][k]})
  {
    ChainFacts(G0, P0, O0, {}, g);
    UnlinkedRecords(G0, P0, O0, G, P, g, k);
    EditOneChain(G0, P0, O0, {}, G, P, O0[g := Remove(O0[g], k)], {O0[g][k]}, g);
  }

  /** The unlink writes keep every photo's gallery and touch only photos of g. */
  lemma {:induction false} UnlinkFrame(P0: map<PhotoId, Photo>, P: map<PhotoId, Photo>,
                                       s: seq<PhotoId>, k: nat, g: string)
    requires k < |s| && forall j :: 0 <= j < |s| ==> s[j] in P0 && P0[s[j]].gallery == g
    requires P.Keys == P0.Keys
    requires forall x :: x in P0 ==>
               P[x] == (if k > 0 && x == s[k - 1] then P0[x].(next := NextIn(s, k))
                        else if k + 1 < |s| && x == s[k + 1] then P0[x].(prev := PrevIn(s, k))
                        else P0[x])
    ensures forall x :: x in P0 ==> P[x].gallery == P0[x].gallery
    ensures forall x :: x in P0 && P0[x].gallery != g ==> x in P && P[x] == P0[x]
    ensures forall x :: x in P && P[x].gallery != g ==> x in P0 && P0[x] == P[x]
  {
    forall x | x in P0 ensures P[x].gallery == P0[x].gallery {
    }
  }

  /** The chain left by an unlink holds the photos of g except the unlinked one. */
  lemma {:induction false} UnlinkMembers(P0: map<PhotoId, Photo>, P: map<PhotoId, Photo>,
                                         s: seq<PhotoId>, k: nat, g: string)
    requires k < |s| && Distinct(s)
    requires forall j :: 0 <= j < |s| ==> s[j] in P0 && P0[s[j]].gallery == g
    requires forall x :: x in P0 && x !in {} && P0[x].gallery == g ==> x in s
    requires P.Keys == P0.Keys && forall x :: x in P0 ==> P[x].gallery == P0[x].gallery
    ensures forall i :: 0 <= i < |Remove(s, k)| ==>
              Remove(s, k)[i] !in {s[k]} && Remove(s, k)[i] in P && P[Remove(s, k)[i]].gallery == g
    ensures forall x :: x in P && x !in {s[k]} && P[x].gallery == g ==> x in Remove(s, k)
    ensures forall x :: x in {s[k]} ==> x in {} || (x in P && P[x].gallery == g)
  {
    var r := Remove(s, k);
    RemoveDistinct(s, k);
    forall i | 0 <= i < |r| ensures r[i] != s[k] && P[r[i]].gallery == g {
      var j := if i < k then i else i + 1;
      assert r[i] == s[j];
    }
    forall x | x in P && x != s[k] && P[x].gallery == g ensures x in r {
      assert x in Elements(s);
      assert x in Elements(r);
    }
  }

  lemma {:induction false} UnlinkedRecords(G0: map<string, Gallery>, P0: map<PhotoId, Photo>,
                                           O0: map<string, seq<PhotoId>>,
                                           G: map<string, Gallery>, P: map<PhotoId, Photo>, g: string, k: nat)
    requires g in G0 && O0.Keys == G0.Keys && k < |O0[g]| && Distinct(O0[g])
    requires forall j :: 0 <= j < |O0[g]| ==> O0[g][j] in P0 && P0[O0[g][j]].gallery == g
    requires forall x :: x in P0 && x !in {} && P0[x].gallery == g ==> x in O0[g]
    requires G.Keys == G0.Keys && forall h :: h in G0 && h != g ==> G[h] == G0[h]
    requires P.Keys == P0.Keys
    requires forall x :: x in P0 ==>
               P[x] == (if k > 0 && x == O0[g][k - 1] then P0[x].(next := NextIn(O0[g], k))
                        else if k + 1 < |O0[g]| && x == O0[g][k + 1] then P0[x].(prev := PrevIn(O0[g], k))
                        else P0[x])
    requires Linked(P, G[g], Remove(O0[g], k))
    ensures OnlyChainEdited(G0, P0, O0, {}, G, P, O0[g := Remove(O0[g], k)], {O0[g][k]}, g)
  {
    ReplaceChainKeys(O0, g, Remove(O0[g], k));
    UnlinkFrame(P0, P, O0[g], k, g);
    assert OthersKept(G0, P0, O0, G, P, O0[g := Remove(O0[g], k)], g);
    UnlinkMembers(P0, P, O0[g], k, g);
    assert ChainRebuilt(P0, {}, P, {O0[g][k]}, G[g], Remove(O0[g], k), g);
  }

  /** The two photo writes of a link at the tail, photo by photo: the old
      tail points forward to the new photo, which points back at it. */
  lemma AppendWrites(P0: map<PhotoId, Photo>, P: map<PhotoId, Photo>, s: seq<PhotoId>, pid: PhotoId)
    requires pid in P0 && pid !in s && (s != [] ==> s[|s| - 1] in P0)
    requires P == SetLinks(SetNext(P0, Last(s), Some(pid)), Some(pid), Last(s), None)
    ensures P.Keys == P0.Keys
    ensures forall y :: y in P0 ==>
              P[y] == (if y == pid then P0[y].(prev := Last(s), next := None)
                       else if Some(y) == Last(s) then P0[y].(next := Some(pid))
                       else P0[y])
  {
  }

  /** The gallery writes of a link at the tail: an empty gallery gets the
      photo as head and tail, any other only as tail. */
  lemma AppendGalleryWrites(G0: map<string, Gallery>, G: map<string, Gallery>, g: string,
                            s: seq<PhotoId>, pid: PhotoId)
    requires g in G0 && G0[g].head == First(s) && G0[g].tail == Last(s)
    requires G == if IsGalleryEmpty(G0, g) == Ok(true) then SetEnds(G0, g, Some(pid), Some(pid))
                  else SetTail(G0, g, Some(pid))
    ensures G.Keys == G0.Keys && forall h :: h in G0 && h != g ==> G[h] == G0[h]
    ensures G[g].head == (if s == [] then Some(pid) else G0[g].head) && G[g].tail == Some(pid)
  {
  }

  /** A link at the tail rewrites only records of the photo's gallery g. */
  lemma {:induction false} AppendFrame(G0: map<string, Gallery>, P0: map<PhotoId, Photo>,
                                       O0: map<string, seq<PhotoId>>,
                                       G: map<string, Gallery>, P: map<PhotoId, Photo>,
                                       g: string, pid: PhotoId)
    requires g in G0 && O0.Keys == G0.Keys && pid in P0 && P0[pid].gallery == g
    requires Last(O0[g]).Some? ==> Last(O0[g]).value in P0 && P0[Last(O0[g]).value].gallery == g
    requires G.Keys == G0.Keys && forall h :: h in G0 && h != g ==> G[h] == G0[h]
    requires P.Keys == P0.Keys
    requires forall y :: y in P0 ==>
               P[y] == (if y == pid then P0[y].(prev := Last(O0[g]), next := None)
                        else if Some(y) == Last(O0[g]) then P0[y].(next := Some(pid))
                        else P0[y])
    ensures forall x :: x in P0 ==> P[x].gallery == P0[x].gallery
    ensures OthersKept(G0, P0, O0, G, P, O0[g := O0[g] + [pid]], g)
  {
    ReplaceChainKeys(O0, g, O0[g] + [pid]);
    forall x | x in P0 ensures P[x].gallery == P0[x].gallery {
    }
  }

  /** The chain a link at the tail leaves holds every photo of g. */
  lemma {:induction false} AppendMembers(P0: map<PhotoId, Photo>, P: map<PhotoId, Photo>,
                                         s: seq<PhotoId>, g: string, pid: PhotoId, gallery: Gallery)
    requires pid in P0 && P0[pid].gallery == g
    requires forall j :: 0 <= j < |s| ==> s[j] in P0 && P0[s[j]].gallery == g
    requires forall x :: x in P0 && x !in {pid} && P0[x].gallery == g ==> x in s
    requires P.Keys == P0.Keys && forall x :: x in P0 ==> P[x].gallery == P0[x].gallery
    requires Linked(P, gallery, s + [pid])
    ensures ChainRebuilt(P0, {pid}, P, {}, gallery, s + [pid], g)
  {
    var r := s + [pid];
    forall i | 0 <= i < |r| ensures r[i] in P && P[r[i]].gallery == g {
      if i < |s| { assert r[i] == s[i]; }
    }
    forall x | x in P && P[x].gallery == g ensures x in r {
      if x != pid {
        assert x in s;
        assert x in r[..|s|];
      }
    }
  }

  /** After a link at the tail, the store is coherent with nothing loose. */
  lemma {:induction false} AppendedCoherent(G0: map<string, Gallery>, P0: map<PhotoId, Photo>,
                                            O0: map<string, seq<PhotoId>>,
                                            G: map<string, Gallery>, P: map<PhotoId, Photo>,
                                            g: string, pid: PhotoId)
    requires Coherent(G0, P0, O0, {pid}) && pid in P0 && P0[pid].gallery == g && g in G0
    requires G.Keys == G0.Keys && forall h :: h in G0 && h != g ==> G[h] == G0[h]
    requires P.Keys == P0.Keys
    requires forall y :: y in P0 ==>
               P[y] == (if y == pid then P0[y].(prev := Last(O0[g]), next := None)
                        else if Some(y) == Last(O0[g]) then P0[y].(next := Some(pid))
                        else P0[y])
    requires Linked(P, G[g], O0[g] + [pid])
    ensures Coherent(G, P, O0[g := O0[g] + [pid]], {})
  {
    ChainFacts(G0, P0, O0, {pid}, g);
    if O0[g] != [] {
      assert O0[g][|O0[g]| - 1] in P0;
    }
    AppendFrame(G0, P0, O0, G, P, g, pid);
    AppendMembers(P0, P, O0[g], g, pid, G[g]);
    EditOneChain(G0, P0, O0, {pid}, G, P, O0[g := O0[g] + [pid]], {}, g);
  }

  /** The writes of `_updateLinkedListAfterAddingPhotoToGallery`, in the
      order it issues them, link the loose photo pid after the tail of its
      gallery and leave the store coherent with nothing loose. */
  lemma {:induction false} AppendStep(G0: map<string, Gallery>, P0: map<PhotoId, Photo>,
                                      O0: map<string, seq<PhotoId>>, pid: PhotoId,
                                      G: map<string, Gallery>, P: map<PhotoId, Photo>)
    requires Coherent(G0, P0, O0, {pid}) && pid in P0 && P0[pid].gallery in G0
    requires G == if IsGalleryEmpty(G0, P0[pid].gallery) == Ok(true)
                  then SetEnds(G0, P0[pid].gallery, Some(pid), Some(pid))
                  else SetTail(G0, P0[pid].gallery, Some(pid))
    requires P == SetLinks(SetNext(P0, G0[P0[pid].gallery].tail, Some(pid)), Some(pid), G0[P0[pid].gallery].tail, None)
    ensures P.Keys == P0.Keys && G.Keys == G0.Keys
    ensures P[pid] == P0[pid].(prev := Last(O0[P0[pid].gallery]), next := None)
    ensures Coherent(G, P, O0[P0[pid].gallery := O0[P0[pid].gallery] + [pid]], {})
  {
    var g := P0[pid].gallery;
    var s := O0[g];
    ChainFacts(G0, P0, O0, {pid}, g);
    if s != [] {
      assert s[|s| - 1] in P0;
    }
    AppendWrites(P0, P, s, pid);
    AppendGalleryWrites(G0, G, g, s, pid);
    AppendedLinked(P0, P, G0[g], G[g], s, pid);
    AppendedCoherent(G0, P0, O0, G, P, g, pid);
  }

  // ---------------------------------------------------------------------
  // Rebuilding one chain.
  // ---------------------------------------------------------------------

  /** The records outside gallery g are untouched by an edit of g's chain. */
  lemma {:induction false} RebuiltFrame(G0: map<string, Gallery>, P0: map<PhotoId, Photo>,
                                        O0: map<string, seq<PhotoId>>,
                                        G: map<string, Gallery>, P: map<PhotoId, Photo>,
                                        g: string, r: seq<PhotoId>)
    requires g in G0 && O0.Keys == G0.Keys
    requires G.Keys == G0.Keys && forall h :: h in G0 && h != g ==> G[h] == G0[h]
    requires P.Keys == P0.Keys && forall x :: x in P0 ==> P[x].gallery == P0[x].gallery
    requires forall x :: x in P0 && P0[x].gallery != g ==> P[x] == P0[x]
    ensures OthersKept(G0, P0, O0, G, P, O0[g := r], g)
  {
    ReplaceChainKeys(O0, g, r);
  }

  /** A new chain for g holding the old chain's photos and the ones no
      longer loose holds exactly the photos of g that stay loose. */
  lemma {:induction false} RebuiltMembers(P0: map<PhotoId, Photo>, L0: set<PhotoId>,
                                          P: map<PhotoId, Photo>, L: set<PhotoId>,
                                          gallery: Gallery, s: seq<PhotoId>, r: seq<PhotoId>, g: string)
    requires L <= L0 && forall x :: x in L0 - L ==> x in P0 && P0[x].gallery == g
    requires forall j :: 0 <= j < |s| ==> s[j] !in L0 && s[j] in P0 && P0[s[j]].gallery == g
    requires forall x :: x in P0 && x !in L0 && P0[x].gallery == g ==> x in s
    requires P.Keys == P0.Keys && forall x :: x in P0 ==> P[x].gallery == P0[x].gallery
    requires Linked(P, gallery, r) && Elements(r) == Elements(s) + (L0 - L)
    ensures ChainRebuilt(P0, L0, P, L, gallery, r, g)
  {
    forall i | 0 <= i < |r| ensures r[i] !in L && r[i] in P && P[r[i]].gallery == g {
      assert r[i] in Elements(r);
      if r[i] !in L0 - L {
        var j :| 0 <= j < |s| && s[j] == r[i];
      }
    }
    forall x | x in P && x !in L && P[x].gallery == g ensures x in r {
      if x !in L0 {
        assert x in s;
        var j :| 0 <= j < |s| && s[j] == x;
        assert x in Elements(s);
      }
      assert x in Elements(r);
    }
  }

  /** An edit that rewrites only records of gallery g, keeps every photo's
      gallery, and leaves g a linked chain r holding its old chain plus the
      photos it links again, keeps the store coherent. */
  lemma {:induction false} RebuiltChain(G0: map<string, Gallery>, P0: map<PhotoId, Photo>,
                                        O0: map<string, seq<PhotoId>>, L0: set<PhotoId>,
                                        G: map<string, Gallery>, P: map<PhotoId, Photo>,
                                        L: set<PhotoId>, g: string, r: seq<PhotoId>)
    requires Coherent(G0, P0, O0, L0) && g in G0
    requires L <= L0 && forall x :: x in L0 - L ==> x in P0 && P0[x].gallery == g
    requires G.Keys == G0.Keys && forall h :: h in G0 && h != g ==> G[h] == G0[h]
    requires P.Keys == P0.Keys && forall x :: x in P0 ==> P[x].gallery == P0[x].gallery
    requires forall x :: x in P0 && P0[x].gallery != g ==> P[x] == P0[x]
    requires Linked(P, G[g], r) && Elements(r) == Elements(O0[g]) + (L0 - L)
    ensures Coherent(G, P, O0[g := r], L)
  {
    ChainFacts(G0, P0, O0, L0, g);
    RebuiltFrame(G0, P0, O0, G, P, g, r);
    RebuiltMembers(P0, L0, P, L, G[g], O0[g], r, g);
    EditOneChain(G0, P0, O0, L0, G, P, O0[g := r], L, g);
  }

  // ---------------------------------------------------------------------
  // Inserting after an id (`insertNewPhotoAfterId`).
  // ---------------------------------------------------------------------

  /** The neighbours of a photo on a coherent store: its chain, its position
      there, and the links and gallery ends that position fixes. */
  lemma Neighbours(G: map<string, Gallery>, P: map<PhotoId, Photo>, O: map<string, seq<PhotoId>>,
                   L: set<PhotoId>, pid: PhotoId)
    requires Coherent(G, P, O, L) && pid in P && pid !in L
    ensures P[pid].gallery in G && P[pid].gallery in O && pid in O[P[pid].gallery]
    ensures var s := O[P[pid].gallery];
            var k := PositionOf(s, pid);
            && Linked(P, G[P[pid].gallery], s)
            && P[pid].prev == PrevIn(s, k) && P[pid].next == NextIn(s, k)
            && (forall j :: 0 <= j < |s| ==> s[j] in P && P[s[j]].gallery == P[pid].gallery)
  {
    var g := P[pid].gallery;
    ChainFacts(G, P, O, L, g);
    ThreadedAt(P, O[g], PositionOf(O[g], pid));
  }

  /** What the insertion after pid needs to know of the anchor on a
      coherent store: a stored anchor of gallery g is on g's chain with the
      links its position demands, and it is the tail exactly when it is last. */
  lemma AnchorFacts(G: map<string, Gallery>, P: map<PhotoId, Photo>, O: map<string, seq<PhotoId>>,
                    g: string, pid: PhotoId, n: PhotoId)
    requires Coherent(G, P, O, {}) && g in G && n !in P
    requires pid in P ==> P[pid].gallery == g
    ensures n !in O[g]
    ensures G[g].tail == Some(pid) ==> pid in P
    ensures pid in P ==>
              && pid in O[g]
              && P[pid].prev == PrevIn(O[g], PositionOf(O[g], pid))
              && P[pid].next == NextIn(O[g], PositionOf(O[g], pid))
              && (G[g].tail == Some(pid) <==> PositionOf(O[g], pid) + 1 == |O[g]|)
  {
    var s := O[g];
    ChainFacts(G, P, O, {}, g);
    forall j | 0 <= j < |s| ensures s[j] != n {
    }
    if pid in P {
      var k := PositionOf(s, pid);
      ThreadedAt(P, s, k);
      if G[g].tail == Some(pid) {
        PositionOfAt(s, |s| - 1);
      }
    }
  }

  /** The anchor's predecessor, when it has one, is the photo just before it
      on the same chain, and it points forward to the anchor; an anchor
      without one is the head. */
  lemma PrevFacts(G: map<string, Gallery>, P: map<PhotoId, Photo>, O: map<string, seq<PhotoId>>, pid: PhotoId)
    requires Coherent(G, P, O, {}) && pid in P
    ensures P[pid].gallery in O && pid in O[P[pid].gallery]
    ensures P[pid].prev == None ==> PositionOf(O[P[pid].gallery], pid) == 0
    ensures P[pid].prev.Some? ==>
              var q := P[pid].prev.value;
              && q in P && q != pid && P[q].gallery == P[pid].gallery && q in O[P[pid].gallery]
              && PositionOf(O[P[pid].gallery], q) + 1 == PositionOf(O[P[pid].gallery], pid)
              && P[q].next == Some(pid)
  {
    var g := P[pid].gallery;
    var s := O[g];
    ChainFacts(G, P, O, {}, g);
    var k := PositionOf(s, pid);
    ThreadedAt(P, s, k);
    if k > 0 {
      ThreadedAt(P, s, k - 1);
      PositionOfAt(s, k - 1);
    }
  }

  /** The links of the photo at position k of a gallery's chain. */
  lemma LinksOnChain(G: map<string, Gallery>, P: map<PhotoId, Photo>, O: map<string, seq<PhotoId>>,
                     L: set<PhotoId>, g: string, k: nat)
    requires Coherent(G, P, O, L) && g in G && k < |O[g]|
    ensures O[g][k] in P && P[O[g][k]].prev == PrevIn(O[g], k) && P[O[g][k]].next == NextIn(O[g], k)
  {
    ChainFacts(G, P, O, L, g);
    ThreadedAt(P, O[g], k);
  }

  /** Appending is inserting at the end. */
  lemma AppendIsInsertAt(s: seq<PhotoId>, n: PhotoId)
    ensures InsertAt(s, |s|, n) == s + [n]
  {
    assert s[..|s|] == s;
  }

  /** Prepending is inserting at the front. */
  lemma PrependIsInsertAt(s: seq<PhotoId>, n: PhotoId)
    ensures InsertAt(s, 0, n) == [n] + s
  {
    assert s[0..] == s;
  }

  /** Dropping the photo just appended gives the chain back. */
  lemma DropAppended(s: seq<PhotoId>, n: PhotoId)
    requires n !in s
    ensures n in s + [n] && PositionOf(s + [n], n) == |s| && Remove(s + [n], |s|) == s
  {
    assert (s + [n])[|s|] == n;
  }

  /** The three link writes that splice the loose photo n in after
      position k, photo by photo. */
  lemma InsertWrites(P0: map<PhotoId, Photo>, P: map<PhotoId, Photo>, s: seq<PhotoId>, k: nat, n: PhotoId)
    requires k + 1 < |s| && Distinct(s) && n !in s && n in P0 && s[k] in P0 && s[k + 1] in P0
    requires P == SetPrev(SetLinks(SetNext(P0, Some(s[k]), Some(n)), Some(n), Some(s[k]), Some(s[k + 1])),
                          Some(s[k + 1]), Some(n))
    ensures P.Keys == P0.Keys
    ensures forall y :: y in P0 ==>
              P[y] == (if y == n then P0[y].(prev := Some(s[k]), next := Some(s[k + 1]))
                       else if y == s[k] then P0[y].(next := Some(n))
                       else if y == s[k + 1] then P0[y].(prev := Some(n))
                       else P0[y])
  {
    assert s[k] != s[k + 1];
  }

  /** The writes of the splice in `insertNewPhotoAfterId`: pid points
      forward to the loose photo n, n sits between pid and pid's successor,
      and the successor points back to n. The chain gains n right after pid. */
  lemma {:induction false} InsertStep(G: map<string, Gallery>, P0: map<PhotoId, Photo>,
                                      O: map<string, seq<PhotoId>>, g: string, k: nat,
                                      n: PhotoId, pid: PhotoId, next: Ref, P: map<PhotoId, Photo>)
    requires Coherent(G, P0, O, {n}) && g in G && n in P0 && P0[n].gallery == g
    requires k + 1 < |O[g]| && pid == O[g][k] && next == Some(O[g][k + 1])
    requires P == SetPrev(SetLinks(SetNext(P0, Some(pid), Some(n)), Some(n), Some(pid), next), next, Some(n))
    ensures P.Keys == P0.Keys
    ensures P[n] == P0[n].(prev := Some(pid), next := next)
    ensures Coherent(G, P, O[g := InsertAt(O[g], k + 1, n)], {})
  {
    var s := O[g];
    ChainFacts(G, P0, O, {n}, g);
    assert s[k] in P0 && s[k + 1] in P0;
    InsertWrites(P0, P, s, k, n);
    InsertedLinked(P0, P, G[g], G[g], s, k, n);
    InsertDistinct(s, k + 1, n);
    forall x | x in P0 ensures P[x].gallery == P0[x].gallery {
    }
    RebuiltChain(G, P0, O, {n}, G, P, {}, g, InsertAt(s, k + 1, n));
  }

  /** The same writes when the anchor id names no photo: only the loose
      photo's record changes, and it stays loose. */
  lemma OrphanStep(G: map<string, Gallery>, P0: map<PhotoId, Photo>, O: map<string, seq<PhotoId>>,
                   n: PhotoId, pid: PhotoId, P: map<PhotoId, Photo>)
    requires Coherent(G, P0, O, {n}) && n in P0 && pid !in P0
    requires P == SetPrev(SetLinks(SetNext(P0, Some(pid), Some(n)), Some(n), Some(pid), None), None, Some(n))
    ensures P == P0[n := P0[n].(prev := Some(pid), next := None)]
    ensures Coherent(G, P, O, {n})
  {
    LooseEdit(G, P0, O, {n}, n, P0[n].(prev := Some(pid), next := None));
  }

  // ---------------------------------------------------------------------
  // Inserting before the head (`insertNewPhotoBeforeId`).
  // ---------------------------------------------------------------------

  /** The writes that move the just appended photo, last on t, to the front,
      photo by photo. */
  lemma RotateWrites(P0: map<PhotoId, Photo>, P: map<PhotoId, Photo>, t: seq<PhotoId>)
    requires |t| >= 2 && Distinct(t) && forall j :: 0 <= j < |t| ==> t[j] in P0
    requires P == SetNext(SetLinks(SetPrev(P0, Some(t[0]), Some(t[|t| - 1])), Some(t[|t| - 1]), None, Some(t[0])),
                          Some(t[|t| - 2]), None)
    ensures P.Keys == P0.Keys
    ensures forall y :: y in P0 ==>
              P[y] == (if y == t[|t| - 1] then P0[y].(prev := None, next := Some(t[0]))
                       else P0[y].(prev := if y == t[0] then Some(t[|t| - 1]) else P0[y].prev,
                                   next := if y == t[|t| - 2] then None else P0[y].next))
  {
    assert t[0] in P0 && t[|t| - 1] in P0 && t[|t| - 2] in P0;
  }

  /** Moving the last photo to the front keeps the set of photos. */
  lemma RotatedElements(s: seq<PhotoId>, n: PhotoId)
    ensures Elements([n] + s) == Elements(s + [n])
  {
    var t := s + [n];
    forall x | x in Elements(t) ensures x in Elements([n] + s) {
      var j :| 0 <= j < |t| && t[j] == x;
      if j < |s| { assert ([n] + s)[j + 1] == x; } else { assert ([n] + s)[0] == x; }
    }
    forall x | x in Elements([n] + s) ensures x in Elements(t) {
      var j :| 0 <= j < |s| + 1 && ([n] + s)[j] == x;
      if j > 0 { assert t[j - 1] == x; } else { assert t[|s|] == x; }
    }
  }

  /** The before-head writes change only links and ends. */
  lemma RotateKeeps(G0: map<string, Gallery>, P0: map<PhotoId, Photo>, g: string, n: PhotoId, pid: PhotoId,
                    lastId: Ref, G: map<string, Gallery>, P: map<PhotoId, Photo>)
    requires G == SetEnds(G0, g, Some(n), lastId)
    requires P == SetNext(SetLinks(SetPrev(P0, Some(pid), Some(n)), Some(n), None, Some(pid)), lastId, None)
    ensures OnlyLinksChanged(P0, P) && OnlyEndsChanged(G0, G)
  {
    EndsWriteKeeps(G0, G0, g, Some(n), lastId);
    PrevWriteKeeps(P0, P0, Some(pid), Some(n));
    LinksWriteKeeps(P0, SetPrev(P0, Some(pid), Some(n)), Some(n), None, Some(pid));
    NextWriteKeeps(P0, SetLinks(SetPrev(P0, Some(pid), Some(n)), Some(n), None, Some(pid)), lastId, None);
  }

  /** The writes of the before-the-head case of `insertNewPhotoBeforeId`,
      issued once the new photo n has been appended to the chain s: the
      gallery's head becomes n and its tail the old tail again, the old head
      points back to n, n gets a null `prev` and the old head as `next`, and
      the old tail a null `next`. The chain becomes n followed by s. */
  lemma {:induction false} RotateStep(G0: map<string, Gallery>, P0: map<PhotoId, Photo>,
                                      O0: map<string, seq<PhotoId>>, g: string, s: seq<PhotoId>, n: PhotoId,
                                      pid: PhotoId, lastId: Ref, G: map<string, Gallery>, P: map<PhotoId, Photo>)
    requires Coherent(G0, P0, O0, {}) && g in G0 && O0[g] == s + [n] && |s| >= 1
    requires pid == s[0] && lastId == Last(s)
    requires G == SetEnds(G0, g, Some(n), lastId)
    requires P == SetNext(SetLinks(SetPrev(P0, Some(pid), Some(n)), Some(n), None, Some(pid)), lastId, None)
    ensures P.Keys == P0.Keys && G.Keys == G0.Keys
    ensures n in P0 && P[n] == P0[n].(prev := None, next := Some(pid))
    ensures Coherent(G, P, O0[g := [n] + s], {})
  {
    var t := s + [n];
    ChainFacts(G0, P0, O0, {}, g);
    assert t[0] == s[0] && t[|t| - 1] == n && t[|t| - 2] == s[|s| - 1];
    RotateWrites(P0, P, t);
    RotatedLinked(P0, P, G0[g], G[g], t);
    assert [t[|t| - 1]] + t[..|t| - 1] == [n] + s;
    forall x | x in P0 ensures P[x].gallery == P0[x].gallery {
    }
    RotatedElements(s, n);
    RebuiltChain(G0, P0, O0, {}, G, P, {}, g, [n] + s);
  }

  // ---------------------------------------------------------------------
  // Swapping two photos (`swapTwoPhotos`).
  // ---------------------------------------------------------------------

  /** What `swapTwoPhotos` reads of two distinct photos of one gallery on a
      coherent store: both are on the gallery's chain at different
      positions, their links are the ones those positions demand, and one
      names the other as `next` or `prev` exactly when they are neighbours. */
  lemma SwapFacts(G: map<string, Gallery>, P: map<PhotoId, Photo>, O: map<string, seq<PhotoId>>,
                  p1: PhotoId, p2: PhotoId)
    requires Coherent(G, P, O, {}) && p1 in P && p2 in P && p1 != p2 && P[p1].gallery == P[p2].gallery
    ensures P[p1].gallery in G && P[p1].gallery in O
    ensures var s := O[P[p1].gallery];
            && p1 in s && p2 in s
            && var i := PositionOf(s, p1);
               var j := PositionOf(s, p2);
               && i != j
               && Linked(P, G[P[p1].gallery], s)
               && (forall m :: 0 <= m < |s| ==> s[m] in P && P[s[m]].gallery == P[p1].gallery)
               && P[p1].prev == PrevIn(s, i) && P[p1].next == NextIn(s, i)
               && P[p2].prev == PrevIn(s, j) && P[p2].next == NextIn(s, j)
               && (P[p1].next == Some(p2) <==> j == i + 1)
               && (P[p1].prev == Some(p2) <==> i == j + 1)
  {
    var g := P[p1].gallery;
    var s := O[g];
    ChainFacts(G, P, O, {}, g);
    var i, j := PositionOf(s, p1), PositionOf(s, p2);
    ThreadedAt(P, s, i);
    ThreadedAt(P, s, j);
  }

  /** The four writes of an adjacent swap of s[i] and s[i + 1], in either of
      the orders the first two cases of `swapTwoPhotos` issue them, photo by
      photo. */
  lemma AdjacentWrites(P0: map<PhotoId, Photo>, P1: map<PhotoId, Photo>, P: map<PhotoId, Photo>,
                       s: seq<PhotoId>, i: nat)
    requires Threaded(P0, s) && i + 1 < |s|
    requires || P1 == SetLinks(SetLinks(P0, Some(s[i]), Some(s[i + 1]), NextIn(s, i + 1)),
                               Some(s[i + 1]), PrevIn(s, i), Some(s[i]))
             || P1 == SetLinks(SetLinks(P0, Some(s[i + 1]), PrevIn(s, i), Some(s[i])),
                               Some(s[i]), Some(s[i + 1]), NextIn(s, i + 1))
    requires P == SetPrev(SetNext(P1, PrevIn(s, i), Some(s[i + 1])), NextIn(s, i + 1), Some(s[i]))
    ensures P.Keys == P0.Keys
    ensures forall y :: y in P0 ==>
              P[y] == (if y == s[i] then P0[y].(prev := Some(s[i + 1]), next := NextIn(s, i + 1))
                       else if y == s[i + 1] then P0[y].(prev := PrevIn(s, i), next := Some(s[i]))
                       else if i > 0 && y == s[i - 1] then P0[y].(next := Some(s[i + 1]))
                       else if i + 2 < |s| && y == s[i + 2] then P0[y].(prev := Some(s[i]))
                       else P0[y])
  {
    assert s[i] in P0 && s[i + 1] in P0;
    if i > 0 { assert s[i - 1] in P0 && s[i - 1] != s[i + 1] && s[i - 1] != s[i]; }
    if i + 2 < |s| { assert s[i + 2] in P0 && s[i + 2] != s[i] && s[i + 2] != s[i + 1]; }
    if i > 0 && i + 2 < |s| { assert s[i - 1] != s[i + 2]; }
  }

  /** The six writes of the third case of `swapTwoPhotos` on records alone:
      a and b exchange their links, and their old neighbours pa, na, pb, nb
      are pointed at the other photo. */
  lemma ExchangeWrites(P0: map<PhotoId, Photo>, P: map<PhotoId, Photo>, a: PhotoId, b: PhotoId,
                       pa: Ref, na: Ref, pb: Ref, nb: Ref)
    requires a in P0 && b in P0 && a != b
    requires pa != Some(a) && pa != Some(b) && na != Some(a) && na != Some(b)
    requires pb != Some(a) && pb != Some(b) && nb != Some(a) && nb != Some(b)
    requires pa == pb ==> pa == None
    requires na == nb ==> na == None
    requires P == SetPrev(SetNext(SetPrev(SetNext(SetLinks(SetLinks(P0, Some(a), pb, nb), Some(b), pa, na),
                                                  pa, Some(b)), na, Some(b)), pb, Some(a)), nb, Some(a))
    ensures P.Keys == P0.Keys
    ensures forall y :: y in P0 ==>
              P[y] == if y == a then P0[y].(prev := pb, next := nb)
                      else if y == b then P0[y].(prev := pa, next := na)
                      else P0[y].(prev := if Some(y) == na then Some(b) else if Some(y) == nb then Some(a) else P0[y].prev,
                                  next := if Some(y) == pa then Some(b) else if Some(y) == pb then Some(a) else P0[y].next)
  {
    var P2 := SetLinks(SetLinks(P0, Some(a), pb, nb), Some(b), pa, na);
    NeighbourWrites(P2, P, a, b, pa, na, pb, nb);
  }

  /** The last four writes of the third case of `swapTwoPhotos`: the old
      neighbours of a and b are pointed at the other photo. */
  lemma NeighbourWrites(P2: map<PhotoId, Photo>, P: map<PhotoId, Photo>, a: PhotoId, b: PhotoId,
                        pa: Ref, na: Ref, pb: Ref, nb: Ref)
    requires pa == pb ==> pa == None
    requires na == nb ==> na == None
    requires P == SetPrev(SetNext(SetPrev(SetNext(P2, pa, Some(b)), na, Some(b)), pb, Some(a)), nb, Some(a))
    ensures P.Keys == P2.Keys
    ensures forall y :: y in P2 ==>
              P[y] == P2[y].(prev := if Some(y) == na then Some(b) else if Some(y) == nb then Some(a) else P2[y].prev,
                             next := if Some(y) == pa then Some(b) else if Some(y) == pb then Some(a) else P2[y].next)
  {
  }

  /** The six writes of the third case of `swapTwoPhotos`, for photos at
      positions i and j that are not neighbours, photo by photo. */
  lemma DistantWrites(P0: map<PhotoId, Photo>, P: map<PhotoId, Photo>, s: seq<PhotoId>, i: nat, j: nat)
    requires Threaded(P0, s) && i < |s| && j < |s| && i != j && i + 1 != j && j + 1 != i
    requires P == SetPrev(SetNext(SetPrev(SetNext(
                    SetLinks(SetLinks(P0, Some(s[i]), PrevIn(s, j), NextIn(s, j)), Some(s[j]), PrevIn(s, i), NextIn(s, i)),
                    PrevIn(s, i), Some(s[j])), NextIn(s, i), Some(s[j])), PrevIn(s, j), Some(s[i])), NextIn(s, j), Some(s[i]))
    ensures P.Keys == P0.Keys
    ensures forall y :: y in P0 ==>
              P[y] == if i < j then DistantSwapped(P0, s, i, j, y) else DistantSwapped(P0, s, j, i, y)
  {
    assert s[i] in P0 && s[j] in P0 && s[i] != s[j];
    if i > 0 { assert s[i - 1] != s[i] && s[i - 1] != s[j]; }
    if j > 0 { assert s[j - 1] != s[i] && s[j - 1] != s[j]; }
    if i + 1 < |s| { assert s[i + 1] != s[i] && s[i + 1] != s[j]; }
    if j + 1 < |s| { assert s[j + 1] != s[i] && s[j + 1] != s[j]; }
    if i > 0 && j > 0 { assert s[i - 1] != s[j - 1]; }
    if i + 1 < |s| && j + 1 < |s| { assert s[i + 1] != s[j + 1]; }
    ExchangeWrites(P0, P, s[i], s[j], PrevIn(s, i), NextIn(s, i), PrevIn(s, j), NextIn(s, j));
    forall y | y in P0
      ensures P[y] == if i < j then DistantSwapped(P0, s, i, j, y) else DistantSwapped(P0, s, j, i, y)
    {
      if y != s[i] && y != s[j] && j < i {
        assert Some(y) == NextIn(s, i) ==> Some(y) != NextIn(s, j);
      }
    }
  }

  /** The photo records after the link writes of a swap of positions i and
      j of the chain s: the same photos, the swapped chain threaded, only
      links changed and the photos off s untouched. */
  ghost predicate SwapRelinked(P0: map<PhotoId, Photo>, P: map<PhotoId, Photo>, s: seq<PhotoId>, i: nat, j: nat)
    requires i < |s| && j < |s|
  {
    && P.Keys == P0.Keys
    && Threaded(P, SwapAt(s, i, j))
    && OnlyLinksChanged(P0, P)
    && (forall x :: x in P0 && x !in s ==> P[x] == P0[x])
  }

  /** The first two cases of `swapTwoPhotos` relink the chain as the swap of
      positions i and i + 1. */
  lemma AdjacentSwapStep(P0: map<PhotoId, Photo>, P1: map<PhotoId, Photo>, P: map<PhotoId, Photo>,
                         s: seq<PhotoId>, i: nat)
    requires Threaded(P0, s) && i + 1 < |s|
    requires || P1 == SetLinks(SetLinks(P0, Some(s[i]), Some(s[i + 1]), NextIn(s, i + 1)),
                               Some(s[i + 1]), PrevIn(s, i), Some(s[i]))
             || P1 == SetLinks(SetLinks(P0, Some(s[i + 1]), PrevIn(s, i), Some(s[i])),
                               Some(s[i]), Some(s[i + 1]), NextIn(s, i + 1))
    requires P == SetPrev(SetNext(P1, PrevIn(s, i), Some(s[i + 1])), NextIn(s, i + 1), Some(s[i]))
    ensures SwapRelinked(P0, P, s, i, i + 1)
  {
    AdjacentWrites(P0, P1, P, s, i);
    AdjacentKeeps(P0, P1, P, s, i);
    AdjacentSwapThreaded(P0, P, s, i);
    forall y | y in P0 && y !in s ensures P[y] == P0[y] {
      assert y != s[i] && y != s[i + 1];
      if i > 0 { assert y != s[i - 1]; }
      if i + 2 < |s| { assert y != s[i + 2]; }
    }
  }

  /** The writes of the first two cases change links only. */
  lemma AdjacentKeeps(P0: map<PhotoId, Photo>, P1: map<PhotoId, Photo>, P: map<PhotoId, Photo>,
                      s: seq<PhotoId>, i: nat)
    requires i + 1 < |s|
    requires || P1 == SetLinks(SetLinks(P0, Some(s[i]), Some(s[i + 1]), NextIn(s, i + 1)),
                               Some(s[i + 1]), PrevIn(s, i), Some(s[i]))
             || P1 == SetLinks(SetLinks(P0, Some(s[i + 1]), PrevIn(s, i), Some(s[i])),
                               Some(s[i]), Some(s[i + 1]), NextIn(s, i + 1))
    requires P == SetPrev(SetNext(P1, PrevIn(s, i), Some(s[i + 1])), NextIn(s, i + 1), Some(s[i]))
    ensures OnlyLinksChanged(P0, P)
  {
    var a, b := s[i], s[i + 1];
    if P1 == SetLinks(SetLinks(P0, Some(a), Some(b), NextIn(s, i + 1)), Some(b), PrevIn(s, i), Some(a)) {
      LinksWriteKeeps(P0, P0, Some(a), Some(b), NextIn(s, i + 1));
      LinksWriteKeeps(P0, SetLinks(P0, Some(a), Some(b), NextIn(s, i + 1)), Some(b), PrevIn(s, i), Some(a));
    } else {
      LinksWriteKeeps(P0, P0, Some(b), PrevIn(s, i), Some(a));
      LinksWriteKeeps(P0, SetLinks(P0, Some(b), PrevIn(s, i), Some(a)), Some(a), Some(b), NextIn(s, i + 1));
    }
    NextWriteKeeps(P0, P1, PrevIn(s, i), Some(b));
    PrevWriteKeeps(P0, SetNext(P1, PrevIn(s, i), Some(b)), NextIn(s, i + 1), Some(a));
  }

  /** The six writes of the third case change links only. */
  lemma ExchangeKeeps(P0: map<PhotoId, Photo>, P: map<PhotoId, Photo>, a: PhotoId, b: PhotoId,
                      pa: Ref, na: Ref, pb: Ref, nb: Ref)
    requires P == SetPrev(SetNext(SetPrev(SetNext(SetLinks(SetLinks(P0, Some(a), pb, nb), Some(b), pa, na),
                                                  pa, Some(b)), na, Some(b)), pb, Some(a)), nb, Some(a))
    ensures OnlyLinksChanged(P0, P)
  {
    var P1 := SetLinks(P0, Some(a), pb, nb);
    var P2 := SetLinks(P1, Some(b), pa, na);
    var P3 := SetNext(P2, pa, Some(b));
    var P4 := SetPrev(P3, na, Some(b));
    var P5 := SetNext(P4, pb, Some(a));
    LinksWriteKeeps(P0, P0, Some(a), pb, nb);
    LinksWriteKeeps(P0, P1, Some(b), pa, na);
    NextWriteKeeps(P0, P2, pa, Some(b));
    PrevWriteKeeps(P0, P3, na, Some(b));
    NextWriteKeeps(P0, P4, pb, Some(a));
    PrevWriteKeeps(P0, P5, nb, Some(a));
  }

  /** Which of the two positions is named first does not matter. */
  lemma SwapRelinkedSymmetric(P0: map<PhotoId, Photo>, P: map<PhotoId, Photo>, s: seq<PhotoId>, i: nat, j: nat)
    requires i < |s| && j < |s| && SwapRelinked(P0, P, s, i, j)
    ensures SwapRelinked(P0, P, s, j, i)
  {
    SwapSymmetric(s, i, j);
  }

  /** The third case of `swapTwoPhotos` relinks the chain as the swap of
      positions i and j. */
  lemma DistantSwapStep(P0: map<PhotoId, Photo>, P: map<PhotoId, Photo>, s: seq<PhotoId>, i: nat, j: nat)
    requires Threaded(P0, s) && i < |s| && j < |s| && i != j && i + 1 != j && j + 1 != i
    requires P == SetPrev(SetNext(SetPrev(SetNext(
                    SetLinks(SetLinks(P0, Some(s[i]), PrevIn(s, j), NextIn(s, j)), Some(s[j]), PrevIn(s, i), NextIn(s, i)),
                    PrevIn(s, i), Some(s[j])), NextIn(s, i), Some(s[j])), PrevIn(s, j), Some(s[i])), NextIn(s, j), Some(s[i]))
    ensures SwapRelinked(P0, P, s, i, j)
  {
    DistantWrites(P0, P, s, i, j);
    ExchangeKeeps(P0, P, s[i], s[j], PrevIn(s, i), NextIn(s, i), PrevIn(s, j), NextIn(s, j));
    if i < j {
      DistantSwapThreaded(P0, P, s, i, j);
    } else {
      DistantSwapThreaded(P0, P, s, j, i);
      SwapSymmetric(s, i, j);
    }
  }

  /** The gallery writes at the end of `swapTwoPhotos`: the head is rewritten
      only when one of the two photos was the head, the tail only when one of
      them was the tail; afterwards they are the ends of the swapped chain. */
  lemma SwapEnds(G0: map<string, Gallery>, g: string, s: seq<PhotoId>, i: nat, j: nat,
                 newHead: Ref, newTail: Ref, G1: map<string, Gallery>, G: map<string, Gallery>)
    requires g in G0 && Distinct(s) && i < |s| && j < |s| && i != j
    requires G0[g].head == First(s) && G0[g].tail == Last(s)
    requires newHead == if G0[g].head == Some(s[i]) then Some(s[j])
                        else if G0[g].head == Some(s[j]) then Some(s[i]) else None
    requires newTail == if G0[g].tail == Some(s[i]) then Some(s[j])
                        else if G0[g].tail == Some(s[j]) then Some(s[i]) else None
    requires G1 == if newHead.Some? then SetHead(G0, g, newHead) else G0
    requires G == if newTail.Some? then SetTail(G1, g, newTail) else G1
    ensures G.Keys == G0.Keys && forall h :: h in G0 && h != g ==> G[h] == G0[h]
    ensures G[g] == G0[g].(head := First(SwapAt(s, i, j)), tail := Last(SwapAt(s, i, j)))
  {
  }

  /** Swapping the photos at positions i and j of g's chain keeps the store
      coherent, once the links thread the swapped chain and the gallery's
      ends are those of the swapped chain. */
  lemma {:induction false} SwapStep(G0: map<string, Gallery>, P0: map<PhotoId, Photo>,
                                    O: map<string, seq<PhotoId>>, g: string, i: nat, j: nat,
                                    G: map<string, Gallery>, P: map<PhotoId, Photo>, O': map<string, seq<PhotoId>>)
    requires Coherent(G0, P0, O, {}) && g in G0 && i < |O[g]| && j < |O[g]|
    requires G.Keys == G0.Keys && forall h :: h in G0 && h != g ==> G[h] == G0[h]
    requires G[g] == G0[g].(head := First(SwapAt(O[g], i, j)), tail := Last(SwapAt(O[g], i, j)))
    requires SwapRelinked(P0, P, O[g], i, j) && O' == O[g := SwapAt(O[g], i, j)]
    ensures Coherent(G, P, O', {})
  {
    ChainFacts(G0, P0, O, {}, g);
    forall x | x in P0 && P0[x].gallery != g
      ensures P[x] == P0[x]
    {
      assert x !in O[g];
    }
    SwapDistinct(O[g], i, j);
    RebuiltChain(G0, P0, O, {}, G, P, {}, g, SwapAt(O[g], i, j));
  }

  // ---------------------------------------------------------------------
  // Reordering (`reorderPhotos`).
  // ---------------------------------------------------------------------

  /** The photo records after the first n per-photo writes of
      `reorderPhotos`: the photo pids[m] is given pids[m - 1] as `prev` and
      pids[m + 1] as `next`, null at either end. Only links change. */
  function Relinked(photos: map<PhotoId, Photo>, pids: seq<PhotoId>, n: nat): (r: map<PhotoId, Photo>)
    requires n <= |pids|
    ensures r.Keys == photos.Keys
    decreases n
  {
    if n == 0 then photos
    else SetLinks(Relinked(photos, pids, n - 1), Some(pids[n - 1]), PrevIn(pids, n - 1), NextIn(pids, n - 1))
  }

  /** After n writes of a sequence without repetitions, each of the first n
      photos holds the links its position demands. */
  lemma {:induction false} RelinkedFixed(photos: map<PhotoId, Photo>, pids: seq<PhotoId>, n: nat, m: nat)
    requires n <= |pids| && Distinct(pids) && m < n && pids[m] in photos
    ensures Relinked(photos, pids, n)[pids[m]] == photos[pids[m]].(prev := PrevIn(pids, m), next := NextIn(pids, m))
    decreases n
  {
    if m < n - 1 {
      RelinkedFixed(photos, pids, n - 1, m);
      assert pids[m] != pids[n - 1];
    } else {
      forall k | 0 <= k < n - 1 ensures pids[k] != pids[m] {}
      RelinkedUntouched(photos, pids, n - 1, pids[m]);
    }
  }

  /** A photo that is not among the first n of the sequence is untouched by
      the first n writes. */
  lemma {:induction false} RelinkedUntouched(photos: map<PhotoId, Photo>, pids: seq<PhotoId>, n: nat, x: PhotoId)
    requires n <= |pids| && x in photos && forall m :: 0 <= m < n ==> pids[m] != x
    ensures Relinked(photos, pids, n)[x] == photos[x]
    decreases n
  {
    if n > 0 {
      RelinkedUntouched(photos, pids, n - 1, x);
    }
  }

  /** The writes change links only. */
  lemma {:induction false} RelinkedKeeps(photos: map<PhotoId, Photo>, pids: seq<PhotoId>, n: nat, x: PhotoId)
    requires n <= |pids| && x in photos
    ensures Relinked(photos, pids, n)[x] ==
              photos[x].(prev := Relinked(photos, pids, n)[x].prev, next := Relinked(photos, pids, n)[x].next)
    decreases n
  {
    if n > 0 {
      RelinkedKeeps(photos, pids, n - 1, x);
    }
  }

  /** All writes done, a sequence of existing photos without repetitions is
      threaded through the records. */
  lemma RelinkedThreaded(photos: map<PhotoId, Photo>, pids: seq<PhotoId>, P: map<PhotoId, Photo>)
    requires Distinct(pids) && (forall i :: 0 <= i < |pids| ==> pids[i] in photos)
    requires P == Relinked(photos, pids, |pids|)
    ensures Threaded(P, pids)
  {
    forall m | 0 <= m < |pids| ensures pids[m] in P && P[pids[m]].prev == PrevIn(pids, m) && P[pids[m]].next == NextIn(pids, m) {
      RelinkedFixed(photos, pids, |pids|, m);
    }
    ThreadedFromFields(P, pids);
  }

  /** A sequence `reorderPhotos` can lay out as gallery g's chain: as long
      as the gallery has photos, without repetitions, and made of photos of g. */
  predicate IsRearrangement(photos: map<PhotoId, Photo>, g: string, pids: seq<PhotoId>) {
    && |pids| == PhotoCount(photos, g)
    && Distinct(pids)
    && (forall i :: 0 <= i < |pids| ==> pids[i] in photos && photos[pids[i]].gallery == g)
  }

  /** On a coherent store, the sequences accepted are exactly the
      rearrangements of the gallery's chain. */
  lemma RearrangementOfChain(G: map<string, Gallery>, P: map<PhotoId, Photo>, O: map<string, seq<PhotoId>>,
                             g: string, pids: seq<PhotoId>)
    requires Coherent(G, P, O, {}) && g in G
    ensures IsRearrangement(P, g, pids) <==>
              Distinct(pids) && |pids| == |O[g]| && Elements(pids) == Elements(O[g])
  {
    ChainFacts(G, P, O, {}, g);
    PhotosOfChain(G, P, O, g);
    if IsRearrangement(P, g, pids) {
      DistinctElements(pids);
      assert Elements(pids) <= PhotosOf(P, g);
      SubsetOfSameSize(Elements(pids), PhotosOf(P, g));
    }
    if Distinct(pids) && |pids| == |O[g]| && Elements(pids) == Elements(O[g]) {
      forall i | 0 <= i < |pids| ensures pids[i] in P && P[pids[i]].gallery == g {
        assert pids[i] in Elements(O[g]);
      }
    }
  }

  /** Laying out a rearrangement of g's chain keeps the store coherent, with
      the rearrangement as g's new chain. */
  lemma ReorderStep(G0: map<string, Gallery>, P0: map<PhotoId, Photo>, O0: map<string, seq<PhotoId>>,
                    g: string, pids: seq<PhotoId>,
                    G: map<string, Gallery>, P: map<PhotoId, Photo>, O: map<string, seq<PhotoId>>)
    requires Coherent(G0, P0, O0, {}) && g in G0 && IsRearrangement(P0, g, pids)
    requires G == SetEnds(G0, g, First(pids), Last(pids)) && P == Relinked(P0, pids, |pids|)
    requires O == O0[g := pids]
    ensures Coherent(G, P, O, {})
  {
    RearrangementOfChain(G0, P0, O0, g, pids);
    RelinkedThreaded(P0, pids, P);
    RelinkedFrame(P0, g, pids, P);
    RebuiltChain(G0, P0, O0, {}, G, P, {}, g, pids);
  }

  /** The writes of a sequence of photos of g keep every photo in its
      gallery and leave the photos of other galleries untouched. */
  lemma RelinkedFrame(P0: map<PhotoId, Photo>, g: string, pids: seq<PhotoId>, P: map<PhotoId, Photo>)
    requires forall i :: 0 <= i < |pids| ==> pids[i] in P0 && P0[pids[i]].gallery == g
    requires P == Relinked(P0, pids, |pids|)
    ensures forall x :: x in P0 ==> P[x].gallery == P0[x].gallery
    ensures forall x :: x in P0 && P0[x].gallery != g ==> P[x] == P0[x]
  {
    forall x | x in P0 ensures P[x].gallery == P0[x].gallery {
      RelinkedKeeps(P0, pids, |pids|, x);
    }
    forall x | x in P0 && P0[x].gallery != g ensures P[x] == P0[x] {
      RelinkedUntouched(P0, pids, |pids|, x);
    }
  }
}
