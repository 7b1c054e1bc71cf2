/** The array work of `getAllPhotosSorted`: the documents a gallery query
    returned, in whatever order the database gave them, are swapped in place
    into the order of the gallery's chain, then stamped with their
    positions. */
module Listing {
  import opened Records
  import opened Chains

  /** A photo document as the query returns it: its id, its record, and the
      `index` the listing stamps on it (absent until stamped). */
  datatype Doc = Doc(id: PhotoId, photo: Photo, index: Option<nat>)

  function Ids(d: seq<Doc>): (r: seq<PhotoId>)
    ensures |r| == |d| && forall i :: 0 <= i < |d| ==> r[i] == d[i].id
  {
    seq(|d|, i requires 0 <= i < |d| => d[i].id)
  }

  /** The id round i looks for: `sequence[i]`, which JavaScript reads as
      `undefined` past the end, an id no document has. */
  function Target(sequence: seq<PhotoId>, i: nat): (t: Option<PhotoId>)
    ensures t.Some? <==> i < |sequence|
    ensures t.Some? ==> t.value == sequence[i]
  {
    if i < |sequence| then Some(sequence[i]) else None
  }

  /** The first position from i on whose document has the target id, or
      |d| when there is none. */
  function FindFrom(d: seq<Doc>, i: nat, target: Option<PhotoId>): (j: nat)
    requires i <= |d|
    ensures i <= j <= |d|
    ensures forall k :: i <= k < j ==> Some(d[k].id) != target
    ensures j < |d| ==> Some(d[j].id) == target
    decreases |d| - i
  {
    if i == |d| then i
    else if Some(d[i].id) == target then i
    else FindFrom(d, i + 1, target)
  }

  /** d with the documents at i and j exchanged. */
  function Exchange(d: seq<Doc>, i: nat, j: nat): (r: seq<Doc>)
    requires i < |d| && j < |d|
    ensures |r| == |d| && r[i] == d[j] && r[j] == d[i]
    ensures forall k :: 0 <= k < |d| && k != i && k != j ==> r[k] == d[k]
  {
    d[i := d[j]][j := d[i]]
  }

  /** Round i of the outer loop: the first document from i on whose id is
      `sequence[i]` is swapped into position i; without one nothing moves. */
  function PlaceAt(d: seq<Doc>, sequence: seq<PhotoId>, i: nat): (r: seq<Doc>)
    requires i < |d|
    ensures |r| == |d|
  {
    var j := FindFrom(d, i, Target(sequence, i));
    if j < |d| then Exchange(d, i, j) else d
  }

  /** The documents after the first n rounds. */
  function Placed(d: seq<Doc>, sequence: seq<PhotoId>, n: nat): (r: seq<Doc>)
    requires n <= |d|
    ensures |r| == |d|
    decreases n
  {
    if n == 0 then d else PlaceAt(Placed(d, sequence, n - 1), sequence, n - 1)
  }

  /** Exchanging two documents only moves them around. */
  lemma ExchangePermutes(d: seq<Doc>, i: nat, j: nat)
    requires i < |d| && j < |d|
    ensures multiset(Exchange(d, i, j)) == multiset(d)
  {
  }

  /** A round only moves documents around. */
  lemma PlaceAtPermutes(d: seq<Doc>, sequence: seq<PhotoId>, i: nat)
    requires i < |d|
    ensures multiset(PlaceAt(d, sequence, i)) == multiset(d)
  {
    var j := FindFrom(d, i, Target(sequence, i));
    if j < |d| {
      ExchangePermutes(d, i, j);
    }
  }

  /** The rounds only move documents around. */
  lemma {:induction false} PlacedIsPermutation(d: seq<Doc>, sequence: seq<PhotoId>, n: nat)
    requires n <= |d|
    ensures multiset(Placed(d, sequence, n)) == multiset(d)
    decreases n
  {
    if n > 0 {
      PlacedIsPermutation(d, sequence, n - 1);
      PlacedStepPermutes(d, sequence, n);
    }
  }

  /** Round n - 1 only moves documents around. */
  lemma PlacedStepPermutes(d: seq<Doc>, sequence: seq<PhotoId>, n: nat)
    requires 0 < n <= |d|
    ensures multiset(Placed(d, sequence, n)) == multiset(Placed(d, sequence, n - 1))
  {
    PlaceAtPermutes(Placed(d, sequence, n - 1), sequence, n - 1);
  }

  /** Exchanging two documents exchanges their ids. */
  lemma ExchangeIds(d: seq<Doc>, i: nat, j: nat)
    requires i < |d| && j < |d|
    ensures Ids(Exchange(d, i, j)) == Ids(d)[i := d[j].id][j := d[i].id]
  {
  }

  /** When the suffixes from i are permutations of each other and start
      with the same id, the suffixes from i + 1 are too. */
  lemma DropSameHead(ids: seq<PhotoId>, s: seq<PhotoId>, i: nat)
    requires i < |ids| && i < |s| && ids[i] == s[i] && multiset(ids[i..]) == multiset(s[i..])
    ensures multiset(ids[i + 1..]) == multiset(s[i + 1..])
  {
    assert ids[i..] == [ids[i]] + ids[i + 1..];
    assert s[i..] == [s[i]] + s[i + 1..];
    var a, b := multiset(ids[i + 1..]), multiset(s[i + 1..]);
    assert multiset{ids[i]} + a == multiset{ids[i]} + b;
    forall x ensures a[x] == b[x] {
      assert (multiset{ids[i]} + a)[x] == (multiset{ids[i]} + b)[x];
    }
  }

  /** Swapping two positions of the suffix from i permutes that suffix. */
  lemma SwapWithinSuffix(ids: seq<PhotoId>, i: nat, j: nat)
    requires i <= j < |ids|
    ensures multiset(ids[i := ids[j]][j := ids[i]][i..]) == multiset(ids[i..])
  {
    assert ids[i := ids[j]][j := ids[i]][i..] == ids[i..][0 := ids[j]][j - i := ids[i]];
  }

  /** Swapping the wanted id from j to i within the suffix from i leaves the
      rest of the suffix a permutation of the rest of s. */
  lemma SwapInSuffix(ids: seq<PhotoId>, s: seq<PhotoId>, i: nat, j: nat)
    requires i <= j < |ids| == |s| && ids[j] == s[i] && multiset(ids[i..]) == multiset(s[i..])
    ensures multiset(ids[i := ids[j]][j := ids[i]][i + 1..]) == multiset(s[i + 1..])
  {
    SwapWithinSuffix(ids, i, j);
    DropSameHead(ids[i := ids[j]][j := ids[i]], s, i);
  }

  /** When the ids of the documents from i on are a permutation of
      `sequence[i..]`, round i brings `sequence[i]` to position i and leaves
      the rest a permutation of `sequence[i + 1..]`. */
  lemma PlaceAtMatches(d: seq<Doc>, s: seq<PhotoId>, i: nat)
    requires i < |d| == |s| && Ids(d)[..i] == s[..i] && multiset(Ids(d)[i..]) == multiset(s[i..])
    ensures Ids(PlaceAt(d, s, i))[..i + 1] == s[..i + 1]
    ensures multiset(Ids(PlaceAt(d, s, i))[i + 1..]) == multiset(s[i + 1..])
  {
    var ids := Ids(d);
    assert s[i..] == [s[i]] + s[i + 1..];
    assert s[i] in multiset(ids[i..]);
    var j := FindFrom(d, i, Target(s, i));
    if j == |d| {
      assert false;
    }
    ExchangeIds(d, i, j);
    SwapInSuffix(ids, s, i, j);
    ExtendPrefix(Ids(PlaceAt(d, s, i)), s, i);
  }

  /** Equal prefixes of length i followed by equal elements at i. */
  lemma ExtendPrefix(f: seq<PhotoId>, s: seq<PhotoId>, i: nat)
    requires i < |f| && i < |s| && f[..i] == s[..i] && f[i] == s[i]
    ensures f[..i + 1] == s[..i + 1]
  {
    assert f[..i + 1] == f[..i] + [f[i]];
    assert s[..i + 1] == s[..i] + [s[i]];
  }

  /** After n rounds on documents whose ids are a permutation of s, the
      first n ids are those of s and the rest are a permutation of the rest
      of s. */
  lemma {:induction false} PlacedPrefix(d: seq<Doc>, s: seq<PhotoId>, n: nat)
    requires n <= |d| == |s| && multiset(Ids(d)) == multiset(s)
    ensures Ids(Placed(d, s, n))[..n] == s[..n]
    ensures multiset(Ids(Placed(d, s, n))[n..]) == multiset(s[n..])
    decreases n
  {
    if n == 0 {
      assert Ids(d)[0..] == Ids(d) && s[0..] == s;
    } else {
      var e := Placed(d, s, n - 1);
      PlacedPrefix(d, s, n - 1);
      PlaceAtMatches(e, s, n - 1);
      assert Placed(d, s, n) == PlaceAt(e, s, n - 1);
    }
  }

  /** Documents whose ids are a permutation of the chain end up in the
      chain's order. */
  lemma PlacedFollowsSequence(d: seq<Doc>, s: seq<PhotoId>)
    requires multiset(Ids(d)) == multiset(s)
    ensures |d| == |s| && Ids(Placed(d, s, |d|)) == s
  {
    assert |multiset(Ids(d))| == |multiset(s)|;
    PlacedPrefix(d, s, |d|);
    assert Ids(Placed(d, s, |d|))[..|d|] == Ids(Placed(d, s, |d|));
  }

  /** Documents that carry the records of a store and whose ids are a
      permutation of the chain end up as the chain's records, in order. */
  lemma PlacedRecords(d: seq<Doc>, s: seq<PhotoId>, photos: map<PhotoId, Photo>)
    requires multiset(Ids(d)) == multiset(s)
    requires forall k :: 0 <= k < |d| ==> d[k].id in photos && d[k] == Doc(d[k].id, photos[d[k].id], None)
    ensures |Placed(d, s, |d|)| == |s|
    ensures forall i :: 0 <= i < |s| ==> s[i] in photos && Placed(d, s, |d|)[i] == Doc(s[i], photos[s[i]], None)
  {
    PlacedFollowsSequence(d, s);
    PlacedIsPermutation(d, s, |d|);
    var e := Placed(d, s, |d|);
    forall i | 0 <= i < |s| ensures s[i] in photos && e[i] == Doc(s[i], photos[s[i]], None) {
      assert e[i] in multiset(d);
      var k :| 0 <= k < |d| && d[k] == e[i];
      assert e[i].id == s[i];
    }
  }

  /** A sequence without repetitions holds each of its elements once. */
  lemma {:induction false} DistinctOnce(s: seq<PhotoId>)
    requires Distinct(s)
    ensures forall x :: multiset(s)[x] == if x in s then 1 else 0
  {
    if s != [] {
      var t := s[..|s| - 1];
      assert s == t + [s[|s| - 1]];
      assert Distinct(t);
      DistinctOnce(t);
    }
  }

  /** Two sequences without repetitions and with the same elements are
      permutations of each other. */
  lemma SameElementsPermutation(a: seq<PhotoId>, b: seq<PhotoId>)
    requires Distinct(a) && Distinct(b) && (forall x :: x in a <==> x in b)
    ensures multiset(a) == multiset(b)
  {
    DistinctOnce(a);
    DistinctOnce(b);
  }

  /** The nested loop of `getAllPhotosSorted`: round i searches from i for
      the document whose id is `sequence[i]` and swaps it into position i. */
  method ArrangeBySequence(docs: array<Doc>, sequence: seq<PhotoId>)
    modifies docs
    ensures docs[..] == Placed(old(docs[..]), sequence, docs.Length)
  {
    var i := 0;
    while i < docs.Length
      invariant 0 <= i <= docs.Length
      invariant docs[..] == Placed(old(docs[..]), sequence, i)
    {
      var target := Target(sequence, i);
      var j := i;
      while j < docs.Length && Some(docs[j].id) != target
        invariant i <= j <= docs.Length
        invariant forall k :: i <= k < j ==> Some(docs[k].id) != target
      {
        j := j + 1;
      }
      assert j == FindFrom(docs[..], i, target);
      if j < docs.Length {
        docs[i], docs[j] := docs[j], docs[i];
      }
      i := i + 1;
    }
  }

  /** The second loop of `getAllPhotosSorted`: each document is stamped
      with its position. */
  method StampIndices(docs: array<Doc>)
    modifies docs
    ensures forall i :: 0 <= i < docs.Length ==> docs[i] == old(docs[i]).(index := Some(i))
  {
    var i := 0;
    while i < docs.Length
      invariant 0 <= i <= docs.Length
      invariant forall k :: 0 <= k < i ==> docs[k] == old(docs[k]).(index := Some(k))
      invariant forall k :: i <= k < docs.Length ==> docs[k] == old(docs[k])
    {
      docs[i] := docs[i].(index := Some(i));
      i := i + 1;
    }
  }

  /** The body of `getAllPhotosSorted` once the query and the walk are done:
      the documents of `found` are put in an array, arranged by `sequence`
      and stamped. When `found` is a permutation of `sequence`, the result
      is the records of `sequence`, in order, each stamped with its
      position. */
  method SortDocuments(photos: map<PhotoId, Photo>, found: seq<PhotoId>, sequence: seq<PhotoId>)
    returns (docs: seq<Doc>)
    requires forall i :: 0 <= i < |found| ==> found[i] in photos
    requires multiset(found) == multiset(sequence)
    ensures |docs| == |sequence|
    ensures forall i :: 0 <= i < |docs| ==> sequence[i] in photos && docs[i] == Doc(sequence[i], photos[sequence[i]], Some(i))
  {
    var a := new Doc[|found|](i requires 0 <= i < |found| => Doc(found[i], photos[found[i]], None));
    ghost var d0 := a[..];
    assert Ids(d0) == found;
    PlacedRecords(d0, sequence, photos);
    ArrangeBySequence(a, sequence);
    ghost var placed := a[..];
    StampIndices(a);
    forall i | 0 <= i < a.Length ensures sequence[i] in photos && a[i] == Doc(sequence[i], photos[sequence[i]], Some(i)) {
      assert placed[i] == Doc(sequence[i], photos[sequence[i]], None);
    }
    docs := a[..];
  }
}
