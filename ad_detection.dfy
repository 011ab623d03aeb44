/**
 * Keyword-based advertisement classification (`is_advertisement`): a text is an
 * advertisement when, lower-cased and stripped of surrounding whitespace, it
 * contains one of the configured keywords.
 */
module AdDetection {
  import opened Wrappers
  import opened PyStr

  /** The text as the classifier compares it: `str(text).lower().strip()`. */
  function Normalized(t: string): (r: string)
    ensures |r| <= |t|
    ensures r == [] || (!IsSpace(r[0]) && !IsSpace(r[|r| - 1]))
  {
    Strip(Lower(t))
  }

  /**
   * `is_advertisement(text)` with the configured `ad_keywords` passed in.
   * `None` and the empty string are never advertisements.
   */
  function IsAdvertisement(text: Option<string>, keywords: seq<string>): (r: bool)
    ensures r ==> text.Some? && text.value != ""
    ensures keywords == [] ==> !r
    ensures text.Some? && text.value != "" && "" in keywords ==> r
  {
    match text
    case None => false
    case Some(t) => t != "" && exists k :: k in keywords && Contains(Normalized(t), k)
  }

  /** A keyword the classifier can actually find: lower-case, non-empty, not starting or ending with whitespace. */
  predicate Matchable(k: string) {
    k != [] && Lower(k) == k && !IsSpace(k[0]) && !IsSpace(k[|k| - 1])
  }

  lemma NormalizedHasNoUpper(t: string)
    ensures forall k :: 0 <= k < |Normalized(t)| ==> !IsUpper(Normalized(t)[k])
  {
    var l := Lower(t);
    var a, r := LeadingSpaces(l), Strip(l);
    forall k | 0 <= k < |r| ensures !IsUpper(r[k]) {
      assert r[k] == l[a + k];
    }
  }

  /** A keyword containing a character that `lower` changes never matches, so adding it changes nothing. */
  lemma UppercaseKeywordIgnored(text: Option<string>, keywords: seq<string>, k: string, u: int)
    requires 0 <= u < |k| && IsUpper(k[u])
    ensures IsAdvertisement(text, keywords + [k]) == IsAdvertisement(text, keywords)
  {
    if text.Some? {
      NormalizedHasNoUpper(text.value);
      UpperNeverOccurs(Normalized(text.value), k, u);
    }
  }

  /** A matchable keyword occurring anywhere in the lower-cased text makes it an advertisement. */
  lemma KeywordInTextDetected(t: string, keywords: seq<string>, k: string)
    requires k in keywords && Matchable(k)
    requires Contains(Lower(t), k)
    ensures IsAdvertisement(Some(t), keywords)
  {
    var l := Lower(t);
    var i := ContainsOccurs(l, k);
    OccursStrip(l, k, i);
    OccursContains(Strip(l), k, i - LeadingSpaces(l));
  }

  /** Every advertisement contains one of the keywords in its lower-cased text. */
  lemma AdvertisementHasKeyword(t: string, keywords: seq<string>) returns (k: string)
    requires IsAdvertisement(Some(t), keywords)
    ensures k in keywords && Contains(Lower(t), k)
  {
    k :| k in keywords && Contains(Normalized(t), k);
    ContainsUnstrip(Lower(t), k);
  }

  /**
   * With matchable keywords, classification is exactly "some keyword occurs in
   * the lower-cased, non-empty text": stripping never loses a match.
   */
  lemma AdvertisementIff(t: string, keywords: seq<string>)
    requires forall k :: k in keywords ==> Matchable(k)
    ensures IsAdvertisement(Some(t), keywords) <==> exists k :: k in keywords && Contains(Lower(t), k)
  {
    if IsAdvertisement(Some(t), keywords) {
      var k := AdvertisementHasKeyword(t, keywords);
    }
    if k :| k in keywords && Contains(Lower(t), k) {
      KeywordInTextDetected(t, keywords, k);
    }
  }

  /** Classification ignores letter case. */
  lemma CaseInsensitive(t: string, keywords: seq<string>)
    ensures IsAdvertisement(Some(Lower(t)), keywords) == IsAdvertisement(Some(t), keywords)
  {
    LowerIdempotent(t);
  }
}
