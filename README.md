# Photo ordering in the photography store

This project models the core of `models/database.js`: how the store keeps each
gallery's photos in order.

A gallery document holds the ids of its first and last photos (`head`, `tail`).
Each photo document holds the ids of its neighbours (`prev`, `next`) and the
name of its gallery. Together these form a doubly linked list spread across
separate records.

The store is a class `Database.Store` with two collections:
- `galleries`, a map from gallery name to gallery record;
- `photos`, a map from photo id to photo record.

Every `Photo.update` / `Gallery.update` an operation issues is one assignment
to one of these maps. An update addressed to a null or absent id changes
nothing. The ghost field `order` gives, for each gallery, the sequence of
photo ids obtained by following `next` from `head`.

The invariant `Chains.Coherent` ties the records to that sequence:
- consecutive photos point at each other;
- the head has a null `prev` and the tail a null `next`;
- the gallery's `head`/`tail` name the ends;
- every photo lies on the chain of the gallery its `gallery` field names.

Each operation is stated as a sequence operation on `order`: remove, append,
insert at a position, swap two positions, or replace by a rearrangement.

The parts of the store:
- The readers (`_getPhotoSequence`, `getPhotoIdAtIndex`, `getPhotoIndex`,
  `getNumberOfPhotos`, `isGalleryEmpty`) are functions on a snapshot of the two
  maps (module `Walks`).
- `getAllPhotosSorted` swaps an array of documents in place into chain order,
  then stamps each with its position (module `Listing`).
- The media-type parsing of an upload (the `data:<type>;base64,` prefix of a
  data URL, section 3 of RFC 2397) and the quality selectors are in module
  `Uploads`.
- Module `Surgery` states, photo by photo, what each rewrite does to one chain.
- Module `Steps` proves that the exact writes of each operation keep the store
  coherent.
- Module `Findings` holds the two counterexamples listed under Findings.

## Model

| member | source | states |
|---|---|---|
| Walks.PhotoSequence | models/database.js:378-402 | Walking a missing gallery is NotFound. A successful walk starts at the gallery's head and lists at most as many photos as exist. |
| Walks.SequenceIsChain | models/database.js:378-402 | On a coherent store, the walk from a gallery's head yields exactly that gallery's chain. This holds even while some photos are unlinked. |
| Walks.IndexOnChain | models/database.js:181-211 | `getPhotoIdAtIndex` gives NegativeIndex for a negative index, the photo at that position within the chain, null at the chain's length, and 'Index out of range.' beyond it. |
| Walks.IndexOfMember | models/database.js:1232-1265 | `getPhotoIndex` of the photo at chain position k is k. |
| Walks.IndexRoundTrip | models/database.js:1232-1265 | `getPhotoIndex` succeeds for every photo. Looking up the id at that index of its gallery gives the photo back. |
| Walks.PhotosOfChain | models/database.js:1214-1222 | The photos whose `gallery` field names g are exactly the chain's photos. `getNumberOfPhotos` equals the chain's length. |
| Walks.EmptyIffNoPhotos | models/database.js:1185-1203 | `isGalleryEmpty` (head and tail both null) holds exactly when no photo belongs to the gallery, and exactly when its chain is empty. |
| Uploads.ContentTypeOfDataUrl | models/database.js:445-446 | The media type read out of `data:<t>;base64,<payload>` is t, for any t without `;`. |
| Uploads.ImageTypeIffMentioned | models/database.js:468-471 | An upload's type is accepted exactly when `image` occurs in it. |
| Uploads.ParseQuality | models/database.js:1204-1213 | A quality string is accepted exactly when it is one of the three selector tags, and it parses to the selector with that tag. |
| Uploads.QualityRoundTrip | models/database.js:1204-1213 | Every selector's tag is accepted and parses back to that selector. |
| Database.NewPhotoRecord | models/database.js:562-584 | A new photo record defaults its title to 'no title' and its description to '', has null `prev`/`next`, and carries the stored blob ids. |
| Database.Store.Unlink | models/database.js:1278-1324 | The predecessor takes over the photo's `next` (or the gallery its `head`), and the successor its `prev` (or the gallery its `tail`). The chain loses exactly that photo. The photo's own record is untouched and it is left loose. Only `prev`/`next` of photos and `head`/`tail` of galleries change. |
| Steps.UnlinkStep | models/database.js:1278-1324 | The unlink's writes, in the order issued, keep the store coherent with the photo removed from its chain. |
| Surgery.RemovedLinked | models/database.js:1278-1324 | Records rewritten as an unlink rewrites them thread the chain without position k, and the gallery's ends follow. |
| Database.Store.LinkAtTail | models/database.js:1325-1376 | An empty gallery gets `head = tail = pid`. Otherwise the old tail points forward to pid and `tail = pid`. pid gets the old tail as `prev` and a null `next`. The chain becomes old ++ [pid]. Only `prev`/`next` of photos and `head`/`tail` of galleries change. |
| Steps.AppendStep | models/database.js:1325-1376 | The append's writes, in the order issued, keep the store coherent with the loose photo appended to its gallery's chain. |
| Surgery.AppendedLinked | models/database.js:1325-1376 | Records rewritten as an append rewrites them thread the old chain followed by the new photo. |
| Database.Store.SaveAtTail | models/database.js:562-600 | The new record is stored under the fresh id and appended to its gallery's chain, with `prev` the old tail and a null `next`. Only `prev`/`next` and `head`/`tail` of the other records change. |
| Database.Store.CreateGallery | models/database.js:406-442 | An empty name is refused, and so is an existing name, with nothing changed. Otherwise the gallery is added with null head and tail and an empty chain. |
| Database.Store.AddNewPhoto | models/database.js:443-603 | A non-image upload is 'Invalid Image Format' and a missing gallery NotFound, with nothing changed. Otherwise the new record is appended to its gallery's chain and returned. Only `prev`/`next` of photos and `head`/`tail` of galleries change. |
| Database.Store.InsertNewPhotoAfterIdAsWritten | models/database.js:604-652 | The new photo is first appended, then unlinked and spliced after pid. If pid exists, the chain gains the photo right after pid: `prev = pid`, `next = pid`'s old successor. If pid names no photo, the chain is unchanged and the new photo is left off every chain. Only `prev`/`next` of photos and `head`/`tail` of galleries change. |
| Database.Store.AppendThenSplice | models/database.js:613-648 | When pid is not the tail: a non-image upload changes nothing. Otherwise the new photo is appended, then spliced in after pid with `prev = pid` and `next = pid`'s old successor, and the chain gains it at position k + 1. Only `prev`/`next` and `head`/`tail` change. |
| Database.Store.InsertNewPhotoAfterId | models/database.js:604-652 | Corrected insert-after. A missing gallery or anchor is NotFound with nothing changed. An anchor of another gallery is InvalidArgument with nothing changed. Otherwise the new photo is inserted right after pid and the store stays coherent. Only `prev`/`next` of photos and `head`/`tail` of galleries change. |
| Steps.InsertStep | models/database.js:629-648 | The splice writes (pid → n, n between pid and its successor, successor ← n) insert n right after pid and keep the store coherent. |
| Steps.OrphanStep | models/database.js:629-648 | With an anchor naming no photo, the same writes change only the new photo's links, and it stays off every chain. |
| Surgery.InsertedLinked | models/database.js:629-648 | Records rewritten as the splice rewrites them thread the chain with the new photo at position k + 1. |
| Database.Store.InsertNewPhotoBeforeId | models/database.js:653-702 | A missing pid is NotFound, and a pid of another gallery InvalidArgument, with nothing changed. A photo with a predecessor gets the new photo inserted after that predecessor. Before the head, the new photo becomes the head. Either way the new photo takes pid's old position in the chain. Only `prev`/`next` of photos and `head`/`tail` of galleries change. |
| Database.Store.InsertAfterPredecessor | models/database.js:659-660 | With a predecessor, a non-image upload changes nothing. Otherwise the new photo is inserted after the predecessor, so it takes pid's position, with `prev` the predecessor and `next = pid`. Only `prev`/`next` and `head`/`tail` change. |
| Database.Store.InsertBeforeHead | models/database.js:662-698 | A head of another gallery is InvalidArgument with nothing changed. Before the head, the appended photo becomes `head` with `prev = null` and `next = pid`, `pid.prev` is the new photo, and the old tail is restored with `next = null`. The chain becomes [new] ++ old. Only `prev`/`next` of photos and `head`/`tail` of galleries change. |
| Steps.RotateStep | models/database.js:677-697 | The before-head writes move the photo just appended at the tail to the front and keep the store coherent. |
| Surgery.RotatedLinked | models/database.js:677-697 | Records rewritten as the before-head writes rewrite them thread the chain with its last photo moved to the front. |
| Database.Store.InsertNewPhotoAtIndex | models/database.js:703-719 | Index equal to the photo count appends. A negative index is NegativeIndex and one past the count is 'Index out of range.', with nothing changed. Otherwise the new photo is inserted at that index, taking the chain neighbours at that position. Only `prev`/`next` of photos and `head`/`tail` of galleries change. |
| Database.Store.MovePhotoToGallery | models/database.js:781-814 | A missing gallery or photo is NotFound with nothing changed. Otherwise the photo leaves its old chain and is appended to the new gallery's chain with its `gallery` field changed. Every other photo changes only in `prev`/`next`, and galleries only in `head`/`tail`. |
| Database.Store.SwapTwoPhotos | models/database.js:815-940 | Swapping a photo with itself changes nothing. A missing photo is NotFound. Otherwise the two ids exchange positions in their chain and the store stays coherent. Only `prev`/`next` of photos and `head`/`tail` of galleries change. |
| Database.Store.SwapWithin | models/database.js:830-932 | The link rewrites followed by the head/tail rewrite exchange positions i and j of the chain. Only `prev`/`next` of photos and `head`/`tail` of galleries change. |
| Database.Store.RelinkRightNeighbour | models/database.js:837-846 | With pid2 right after pid1, the four writes exchange the two photos in the chain. The writes change only `prev`/`next`, and photos off the chain not at all. |
| Database.Store.RelinkLeftNeighbour | models/database.js:847-856 | With pid1 right after pid2, the four writes exchange the two photos in the chain. The writes change only `prev`/`next`, and photos off the chain not at all. |
| Database.Store.RelinkApart | models/database.js:857-870 | With the photos not adjacent, the six writes exchange the two photos in the chain. The writes change only `prev`/`next`, and photos off the chain not at all. |
| Database.Store.RewriteEndsForSwap | models/database.js:874-932 | `head`/`tail` are rewritten to the other photo only when one of the two was the head/tail, and end up naming the ends of the swapped chain. |
| Steps.SwapStep | models/database.js:830-932 | The relinked records and rewritten ends keep the store coherent with the chain swapped at i and j. |
| Surgery.AdjacentSwapThreaded | models/database.js:837-856 | Records rewritten as the adjacent case rewrites them thread the chain with the two neighbours exchanged. |
| Surgery.DistantSwapThreaded | models/database.js:857-870 | Records rewritten as the distant case rewrites them thread the chain with positions i and j exchanged. |
| Database.Store.ReorderPhotosAsWritten | models/database.js:941-987 | A sequence whose length differs from the photo count is refused with no writes. Otherwise `head = seq[0]`, `tail = seq[last]`, and each `seq[i]` gets `prev = seq[i-1]` (null at 0) and `next = seq[i+1]` (null at last). |
| Database.Store.ReorderPhotos | models/database.js:941-987 | Corrected reorder. A missing gallery is NotFound. A sequence that is not a rearrangement of the gallery's photos is refused. Otherwise the chain becomes the sequence, the walk lists exactly it, and the store stays coherent. |
| Steps.ReorderStep | models/database.js:950-982 | Writing a rearrangement of the chain as the new head, tail and links keeps the store coherent, with the rearrangement as the chain. |
| Steps.RelinkedFixed | models/database.js:966-981 | After the per-photo writes, the photo at position m of a sequence without repetitions has its neighbours in the sequence as `prev`/`next`. |
| Steps.RelinkedUntouched | models/database.js:966-981 | A photo not in the sequence is not written. |
| Steps.RelinkedKeeps | models/database.js:966-981 | The per-photo writes change only `prev` and `next`. |
| Steps.RearrangementOfChain | models/database.js:941-949 | On a coherent store, a sequence of the gallery's photos with the right count and no repetitions is exactly a permutation of its chain. |
| Database.Store.RemovePhotoById | models/database.js:994-1028 | A missing photo is NotFound with nothing changed. Otherwise the photo is unlinked, deleted and returned, and its chain loses it. Apart from the deletion, only `prev`/`next` of photos and `head`/`tail` of galleries change. |
| Database.Store.RemoveGalleryByName | models/database.js:1029-1047 | A missing gallery is NotFound. A gallery with a non-null head or tail is refused with nothing changed. Otherwise the gallery, whose chain was empty, is removed. |
| Database.Store.EmptyGallery | models/database.js:1048-1073 | Deletes every photo of the gallery, resets head and tail to null, and returns the number of photos it had, which is its chain's length. |
| Database.Store.GetAllPhotosSorted | models/database.js:136-165 | A missing gallery is NotFound. Otherwise the documents the query returned, in any order, come back in chain order, each carrying its record and stamped with its position. |
| Listing.SortDocuments | models/database.js:147-162 | When the documents' ids are a permutation of the walk, arranging and stamping yields the walk's records in order, each with its position. |
| Listing.ArrangeBySequence | models/database.js:147-157 | The nested swap loop leaves the array as `Placed`: round i swaps the first document from i on whose id is `sequence[i]` into place i. |
| Listing.StampIndices | models/database.js:158-160 | Each document gets its position as `index`, and nothing else changes. |
| Listing.PlacedIsPermutation | models/database.js:147-157 | The swap rounds only move documents around. |
| Listing.PlacedFollowsSequence | models/database.js:147-157 | When the documents' ids are a permutation of the walk, the rounds leave them in the walk's order. |
| Listing.PlacedRecords | models/database.js:147-157 | Documents carrying a store's records end up as the walk's records, in order. |
| Findings.ReorderRepeatDropsPhoto | models/database.js:941-949 | Gallery "g" has photos 1 then 2. The sequence [1, 1] passes the length check, and afterwards the walk lists only photo 1 while the gallery counts two. |
| Findings.OrphanIsUnlisted | models/database.js:604-652 | A photo left off its gallery's chain is counted by `getNumberOfPhotos` but missing from `_getPhotoSequence`. |

## Left out

- GridFS streams, temp files, `fs`, `Math.random` names, base64 decoding and the image compressor: blob ids are inputs (`StoredBlobs`), and a failed compression is the `CompressionFailed` blob reference. The deletion of a removed photo's blobs is not modelled.
- The `when.defer`/`when.all` fan-out: each operation's writes run one after another in the order they are issued, and errors swallowed by the fan-out are not modelled. Concurrent requests are not modelled.
- Database and callback errors are reduced to the `Error` datatype. A database failure on a read or a write is not modelled.
- `changePhotoImage` (a stub), the name and description updaters, the router, the server and the front-ends are not part of this model.
- Photo ids are opaque naturals. The new photo's id is a parameter that names no existing photo.
- Photo.find's order is a parameter. `GetAllPhotosSorted` takes the query result `found`: the gallery's photos without repetitions, in any order.
- Walks that could meet a cycle take at most as many steps as there are photos and report `Diverges` beyond that. On a coherent store this bound is never reached.
- Database.Store.InsertNewPhotoAfterIdAsWritten: requires the anchor, if it exists, to be in the upload's gallery (the source's own TODO) and to differ from the new id.
- Database.Store.SwapTwoPhotos: requires the two photos to be in the same gallery (the source's own TODO).
- Database.Store.InsertNewPhotoAfterIdAsWritten: when the gallery does not exist, the source returns without calling back. The model reports NotFound and changes nothing.
- Database.Store.AddNewPhoto: refuses a photo for a missing gallery and does not create the gallery; the router creates the gallery before adding a photo (routes/router.js:35-41). The default gallery name for an upload without one is not modelled: the upload always names a gallery.
- Database.Store.ReorderPhotosAsWritten: with an empty sequence, `head` and `tail` become null (JavaScript's `undefined`). It ignores the error of the count query.
- Database.Store.ReorderPhotosAsWritten: its contract states the writes, not coherence, because coherence does not hold for sequences with repetitions (see Findings).
- Database.Store.InsertNewPhotoAfterId: an anchor in another gallery than the upload's is refused with InvalidArgument and nothing changed. The source does not check this (its TODO at models/database.js:605), and its writes would then join two galleries' chains.
- Database.Store.InsertNewPhotoBeforeId: an anchor in another gallery than the upload's is refused with InvalidArgument and nothing changed, for the same reason.
- Database.Store.InsertBeforeHead: a head of another gallery than the upload's is refused with InvalidArgument and nothing changed, for the same reason.

## Findings

| source | as written | input that shows it | evidently intended | confidence | as-written member | corrected member |
|---|---|---|---|---|---|---|
| models/database.js:941-949 | `reorderPhotos` checks only that the sequence's length equals the photo count | Gallery "g" with photos 1 then 2, sequence [1, 1]: accepted, after which the walk lists [1] while the gallery counts 2 photos, so photo 2 is unreachable | Accept only a rearrangement of the gallery's photos (no repetitions, all from the gallery) | not executed | Findings.ReorderRepeatDropsPhoto | Database.Store.ReorderPhotos |
| models/database.js:604-652 | `insertNewPhotoAfterId` with an id that names no photo still adds the photo, then unlinks it and points its `prev` at the missing id | Any existing gallery and an anchor id with no photo: the new photo is saved, counted by `getNumberOfPhotos`, but on no chain | Refuse an anchor that names no photo, before saving anything | not executed | Findings.OrphanIsUnlisted | Database.Store.InsertNewPhotoAfterId |
