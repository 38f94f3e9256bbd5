/**
 * The endpoint table, building an endpoint's URL, recovering the source
 * (stream) name from a URL, and choosing the key under which a page holds
 * its rows.
 */
module Urls {
  import opened Wrappers
  import opened Errors
  import opened Seqs

  const BASE_URL := "https://api2.autopilothq.com/v1"

  /** A path template: fixed, or with a `{segment_id}` placeholder between two parts. */
  datatype Template = Fixed(path: string) | WithSegmentId(before: string, after: string)

  const ENDPOINTS: map<string, Template> := map[
    "contacts" := Fixed("/contacts"),
    "custom_fields" := Fixed("/contacts/custom_fields"),
    "lists" := Fixed("/lists"),
    "smart_segments" := Fixed("/smart_segments"),
    "smart_segments_contacts" := WithSegmentId("/smart_segments/", "/contacts")
  ]

  /** `template.format(segment_id=...)`: a missing placeholder value is a KeyError. */
  function Expand(t: Template, segmentId: Option<string>): Result<string, TapError>
  {
    match t
    case Fixed(p) => Ok(p)
    case WithSegmentId(b, a) =>
      if segmentId.None? then Err(MissingKey("segment_id")) else Ok(b + segmentId.value + a)
  }

  /** The full URL of a named endpoint. */
  function GetUrl(endpoint: string, segmentId: Option<string>): (r: Result<string, TapError>)
    ensures endpoint !in ENDPOINTS ==> r == Err(InvalidEndpoint(endpoint))
    ensures endpoint in ENDPOINTS ==> (r.Ok? <==> ENDPOINTS[endpoint].Fixed? || segmentId.Some?)
    ensures r.Ok? ==> BASE_URL <= r.value
  {
    if endpoint !in ENDPOINTS then Err(InvalidEndpoint(endpoint))
    else match Expand(ENDPOINTS[endpoint], segmentId)
      case Err(e) => Err(e)
      case Ok(path) => Ok(BASE_URL + path)
  }

  // ----- parse_source_from_url: the regex BASE_URL + r'.*/(\w+)' -----

  /** ASCII reading of the regex class `\w`. */
  predicate IsWordChar(c: char)
  {
    'a' <= c <= 'z' || 'A' <= c <= 'Z' || '0' <= c <= '9' || c == '_'
  }

  /** A slash at `i` that is followed by a word character. */
  predicate SlashBeforeWord(s: string, i: int)
  {
    0 <= i && i + 1 < |s| && s[i] == '/' && IsWordChar(s[i + 1])
  }

  /** The last index in [lo, n) where a slash precedes a word character: where greedy `.*` stops. */
  function LastSlash(s: string, lo: nat, n: nat): (r: Option<nat>)
    requires lo <= n <= |s|
    ensures r.Some? ==> lo <= r.value < n && SlashBeforeWord(s, r.value)
    ensures r.Some? ==> forall k :: r.value < k < n ==> !SlashBeforeWord(s, k)
    ensures r.None? ==> forall k :: lo <= k < n ==> !SlashBeforeWord(s, k)
    decreases n
  {
    if n == lo then None
    else if SlashBeforeWord(s, n - 1) then Some(n - 1)
    else LastSlash(s, lo, n - 1)
  }

  /** The end of the run of word characters that starts at `j`: what greedy `\w+` consumes. */
  function WordEnd(s: string, j: nat): (e: nat)
    requires j <= |s|
    ensures j <= e <= |s|
    ensures forall k :: j <= k < e ==> IsWordChar(s[k])
    ensures e == |s| || !IsWordChar(s[e])
    decreases |s| - j
  {
    if j == |s| || !IsWordChar(s[j]) then j else WordEnd(s, j + 1)
  }

  /**
   * The source named by a URL: the last `/word` segment after the base URL,
   * except that a `contacts` segment in a URL that mentions `segment` is the
   * segment-membership source.
   */
  function ParseSourceFromUrl(url: string): (r: Result<string, TapError>)
    ensures r.Err? <==> !(BASE_URL <= url) || forall k :: |BASE_URL| <= k < |url| ==> !SlashBeforeWord(url, k)
    ensures r.Err? ==> r == Err(UnparsableUrl(url))
    ensures r.Ok? ==> |r.value| > 0 && forall k :: 0 <= k < |r.value| ==> IsWordChar(r.value[k])
  {
    if !(BASE_URL <= url) then Err(UnparsableUrl(url))
    else match LastSlash(url, |BASE_URL|, |url|)
      case None => Err(UnparsableUrl(url))
      case Some(i) =>
        var j := WordEnd(url, i + 1);
        var name := url[i + 1..j];
        if name == "contacts" && Contains(url[..j], "segment") then Ok("smart_segments_contacts")
        else Ok(name)
  }

  /** A URL ending in `/w`, for a word `w`, has `w` as its last segment. */
  lemma LastSegment(a: string, w: string)
    requires BASE_URL <= a
    requires |w| > 0 && forall k :: 0 <= k < |w| ==> IsWordChar(w[k])
    ensures LastSlash(a + "/" + w, |BASE_URL|, |a + "/" + w|) == Some(|a|)
    ensures WordEnd(a + "/" + w, |a| + 1) == |a + "/" + w|
    ensures (a + "/" + w)[|a| + 1..|a + "/" + w|] == w
  {
    var u := a + "/" + w;
    assert SlashBeforeWord(u, |a|) by { assert u[|a| + 1] == w[0]; }
    forall k | |a| < k < |u| ensures IsWordChar(u[k]) && !SlashBeforeWord(u, k) {
      assert u[k] == w[k - |a| - 1];
    }
  }

  /** The source of a URL ending in `/w` is `w`, up to the segment-membership special case. */
  lemma SourceOfLastSegment(a: string, w: string)
    requires BASE_URL <= a
    requires |w| > 0 && forall k :: 0 <= k < |w| ==> IsWordChar(w[k])
    ensures ParseSourceFromUrl(a + "/" + w) ==
      if w == "contacts" && Contains(a + "/" + w, "segment") then Ok("smart_segments_contacts") else Ok(w)
  {
    var u := a + "/" + w;
    LastSegment(a, w);
    assert BASE_URL <= u;
    assert u[..|u|] == u;
  }

  lemma SourceOfContactsUrl()
    ensures ParseSourceFromUrl(BASE_URL + "/contacts") == Ok("contacts")
  {
    assert "/" + "contacts" == "/contacts";
    ConcatAssoc(BASE_URL, "/", "contacts");
    SourceOfLastSegment(BASE_URL, "contacts");
    ContactsUrlOutsideSegments();
  }

  /** The plain contacts URL does not mention `segment`: it has no letter `e`. */
  lemma ContactsUrlOutsideSegments()
    ensures !Contains(BASE_URL + "/contacts", "segment")
  {
    assert 'e' !in BASE_URL;
    assert 'e' !in "/contacts";
    NotContains(BASE_URL + "/contacts", "segment", 1);
  }

  lemma SourceOfCustomFieldsUrl()
    ensures ParseSourceFromUrl(BASE_URL + "/contacts/custom_fields") == Ok("custom_fields")
  {
    assert "/" + "custom_fields" == "/custom_fields";
    assert "/contacts" + "/custom_fields" == "/contacts/custom_fields";
    ConcatAssoc(BASE_URL + "/contacts", "/", "custom_fields");
    ConcatAssoc(BASE_URL, "/contacts", "/custom_fields");
    SourceOfLastSegment(BASE_URL + "/contacts", "custom_fields");
  }

  /** A URL one word below the base URL, other than contacts, has that word as its source. */
  lemma SourceOfTopLevelUrl(w: string)
    requires |w| > 0 && forall k :: 0 <= k < |w| ==> IsWordChar(w[k])
    requires w != "contacts"
    ensures ParseSourceFromUrl(BASE_URL + ("/" + w)) == Ok(w)
  {
    ConcatAssoc(BASE_URL, "/", w);
    SourceOfLastSegment(BASE_URL, w);
  }

  lemma SourceOfSegmentContactsUrl(segmentId: string)
    ensures ParseSourceFromUrl(BASE_URL + ("/smart_segments/" + segmentId + "/contacts")) == Ok("smart_segments_contacts")
  {
    assert "/" + "contacts" == "/contacts";
    var pre := BASE_URL + "/smart_segments/";
    var a := pre + segmentId;
    var i := |BASE_URL| + 7;
    assert Occurs("/smart_segments/", "segment", 7);
    OccursPrepend(BASE_URL, "/smart_segments/", "segment", 7);
    OccursExtend(pre, segmentId, "segment", i);
    OccursExtend(a, "/", "segment", i);
    OccursExtend(a + "/", "contacts", "segment", i);
    SourceOfLastSegment(a, "contacts");
    ConcatAssoc(a, "/", "contacts");
    ConcatAssoc(BASE_URL, "/smart_segments/" + segmentId, "/contacts");
    ConcatAssoc(BASE_URL, "/smart_segments/", segmentId);
  }

  /** Parsing the URL of a named endpoint gives back that name, whatever the segment id. */
  lemma {:induction false} ParseSourceOfGetUrl(endpoint: string, segmentId: string)
    requires endpoint in ENDPOINTS
    ensures GetUrl(endpoint, Some(segmentId)).Ok?
    ensures ParseSourceFromUrl(GetUrl(endpoint, Some(segmentId)).value) == Ok(endpoint)
  {
    if endpoint == "contacts" {
      assert GetUrl(endpoint, Some(segmentId)) == Ok(BASE_URL + "/contacts");
      SourceOfContactsUrl();
    } else if endpoint == "custom_fields" {
      assert GetUrl(endpoint, Some(segmentId)) == Ok(BASE_URL + "/contacts/custom_fields");
      SourceOfCustomFieldsUrl();
    } else if endpoint == "lists" {
      assert GetUrl(endpoint, Some(segmentId)) == Ok(BASE_URL + "/lists");
      assert "/" + "lists" == "/lists";
      SourceOfTopLevelUrl("lists");
    } else if endpoint == "smart_segments" {
      assert GetUrl(endpoint, Some(segmentId)) == Ok(BASE_URL + "/smart_segments");
      assert "/" + "smart_segments" == "/smart_segments";
      SourceOfTopLevelUrl("smart_segments");
    } else {
      assert ENDPOINTS[endpoint] == WithSegmentId("/smart_segments/", "/contacts");
      assert GetUrl(endpoint, Some(segmentId)) == Ok(BASE_URL + ("/smart_segments/" + segmentId + "/contacts"));
      SourceOfSegmentContactsUrl(segmentId);
    }
  }

  /** parse_key_from_source: the key under which a page of `source` holds its rows. */
  function ParseKeyFromSource(source: string): (key: string)
    ensures key == source || key == "contacts" || key == "segments"
  {
    if Contains(source, "contact") then "contacts"
    else if Contains(source, "smart_segments") then "segments"
    else source
  }

  /**
   * The key is "contacts" exactly for sources naming contacts, "segments"
   * exactly for the remaining sources naming smart segments (or the source
   * "segments" itself), and otherwise the source unchanged.
   */
  lemma ParseKeyCases(source: string)
    ensures ParseKeyFromSource(source) == "contacts" <==> Contains(source, "contact")
    ensures ParseKeyFromSource(source) == "segments" <==>
      !Contains(source, "contact") && (Contains(source, "smart_segments") || source == "segments")
    ensures ParseKeyFromSource(source) !in {"contacts", "segments"} ==> ParseKeyFromSource(source) == source
  {
    assert Occurs("contacts", "contact", 0);
  }

  /**
   * The row key of each endpoint's pages: for contacts, lists, smart segments
   * and segment contacts the key their docstrings show; custom fields are not
   * documented, and their key is taken to be the source name.
   */
  const ROW_KEYS: map<string, string> := map[
    "contacts" := "contacts",
    "custom_fields" := "custom_fields",
    "lists" := "lists",
    "smart_segments" := "segments",
    "smart_segments_contacts" := "contacts"
  ]

  /** Every endpoint's source selects the row key its pages use. */
  lemma {:induction false} RowKeyOfEndpoint(endpoint: string)
    requires endpoint in ENDPOINTS
    ensures endpoint in ROW_KEYS && ParseKeyFromSource(endpoint) == ROW_KEYS[endpoint]
  {
    if endpoint == "contacts" {
      assert Occurs(endpoint, "contact", 0);
    } else if endpoint == "custom_fields" {
      NotContains(endpoint, "contact", 2);
      NotContains(endpoint, "smart_segments", 2);
    } else if endpoint == "lists" {
      assert !Contains(endpoint, "contact");
      assert !Contains(endpoint, "smart_segments");
    } else if endpoint == "smart_segments" {
      NotContains(endpoint, "contact", 1);
      assert Occurs(endpoint, "smart_segments", 0);
    } else {
      assert Occurs(endpoint, "contact", 15);
    }
  }
}
