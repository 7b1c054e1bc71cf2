/** The string handling of a photo upload: the media type read out of the
    upload's data URL (section 3 of RFC 2397, `data:<mediatype>;base64,<data>`),
    the check that it names an image, and the quality selectors that the
    photo-data getters accept. */
module Uploads {
  import opened Records

  /** pat occurs in s starting at position k. */
  predicate OccursAt(s: string, pat: string, k: nat) {
    k + |pat| <= |s| && s[k..k + |pat|] == pat
  }

  /** JavaScript's `s.search(pat)` from position `from` on: the first position
      at or after `from` where `pat` occurs, or -1. */
  function IndexFrom(s: string, pat: string, from: nat): (r: int)
    requires from <= |s|
    ensures r == -1 || (from <= r && OccursAt(s, pat, r))
    ensures forall k :: from <= k && (r == -1 || k < r) ==> !OccursAt(s, pat, k)
    decreases |s| - from
  {
    if from + |pat| > |s| then -1
    else if s[from..from + |pat|] == pat then from
    else IndexFrom(s, pat, from + 1)
  }

  function IndexOf(s: string, pat: string): int {
    IndexFrom(s, pat, 0)
  }

  /** `b64str.substr(5, b64str.search(/;base64/) - 5)`: the text between the
      five characters of `data:` and the first `;base64`; a negative or zero
      length (no `;base64`, or one too early) gives the empty string. */
  function ContentType(dataUrl: string): string {
    var i := IndexOf(dataUrl, ";base64");
    if i > 5 then dataUrl[5..i] else ""
  }

  /** `contentType.search('image') != -1`. */
  predicate IsImageType(contentType: string) {
    IndexOf(contentType, "image") != -1
  }

  /** An upload is accepted exactly when its media type mentions `image`. */
  lemma ImageTypeIffMentioned(contentType: string)
    ensures IsImageType(contentType) <==> exists k: nat :: OccursAt(contentType, "image", k)
  {
  }

  /** Reading the media type back out of a data URL built from it: a type
      without `;` (a bare `type/subtype`) is recovered exactly. */
  lemma {:induction false} ContentTypeOfDataUrl(t: string, payload: string)
    requires forall k :: 0 <= k < |t| ==> t[k] != ';'
    ensures ContentType("data:" + t + ";base64," + payload) == t
  {
    var url := "data:" + t + ";base64," + payload;
    var i := 5 + |t|;
    assert url[i..i + 7] == ";base64";
    forall k | 0 <= k < i ensures !OccursAt(url, ";base64", k) {
      assert url[k] != ';';
      if k + 7 <= |url| {
        assert url[k..k + 7][0] == url[k];
      }
    }
    NoEarlierOccurrence(url, ";base64", 0, i);
    assert url[5..i] == t;
  }

  /** The search finds the first occurrence when none starts earlier. */
  lemma {:induction false} NoEarlierOccurrence(s: string, pat: string, from: nat, i: nat)
    requires from <= i && OccursAt(s, pat, i)
    requires forall k :: from <= k < i ==> !OccursAt(s, pat, k)
    ensures IndexFrom(s, pat, from) == i
    decreases i - from
  {
    if from < i {
      NoEarlierOccurrence(s, pat, from + 1, i);
    }
  }

  /** The quality selectors of `PHOTO_QUALITY`. */
  datatype Quality = Original | Large | Thumbnail

  function QualityTag(q: Quality): string {
    match q
    case Original => "_ORIGINAL_"
    case Large => "_LARGE_"
    case Thumbnail => "_THUMBNAIL_"
  }

  /** `_isValidQualityInput`. */
  predicate IsValidQualityInput(quality: string) {
    quality == "_ORIGINAL_" || quality == "_LARGE_" || quality == "_THUMBNAIL_"
  }

  /** The selector a quality input names, if any. */
  function ParseQuality(quality: string): (r: Option<Quality>)
    ensures r.Some? <==> IsValidQualityInput(quality)
    ensures r.Some? ==> QualityTag(r.value) == quality
  {
    if quality == "_ORIGINAL_" then Some(Original)
    else if quality == "_LARGE_" then Some(Large)
    else if quality == "_THUMBNAIL_" then Some(Thumbnail)
    else None
  }

  /** Every selector's tag is accepted and parses back to that selector. */
  lemma QualityRoundTrip(q: Quality)
    ensures IsValidQualityInput(QualityTag(q)) && ParseQuality(QualityTag(q)) == Some(q)
  {
  }
}
