/**
 * The AppSec span tags of the HTTP instrumentation: the allow-list of
 * request headers that may be recorded, the normalisation of a request's
 * header map down to that allow-list, and the writers that put the
 * security-event tags, the client IP and the normalised headers on the
 * service entry span.
 */
module HttpInstr {
  import opened StringOrder
  import opened Strings

  datatype Option<T> = None | Some(value: T)

  /** Outcome of serialising the event envelope; `Err` carries the error text. */
  datatype Result<T> = Ok(value: T) | Err(message: string)

  newtype byte = b: int | 0 <= b < 256

  /** `json.RawMessage`: already serialised JSON, embedded verbatim. */
  type RawMessage = seq<byte>

  /** The envelope `{"triggers": <events>}` stored in the `_dd.appsec.json` tag. */
  datatype EventTag = EventTag(triggers: RawMessage)

  /** A span tag value: the writers here only ever store strings and booleans. */
  datatype TagValue = Text(text: string) | Flag(flag: bool)

  const AppSecJsonTag: string := "_dd.appsec.json"
  /** The value of `ext.ManualKeep` in the tracer's `ext` package. */
  const ManualKeepTag: string := "manual.keep"
  const OriginTag: string := "_dd.origin"
  const AppSecEventTag: string := "appsec.event"
  const ClientIPTag: string := "network.client.ip"
  const HeaderTagPrefix: string := "http.request.headers."

  /** The four keys written when the event envelope serialises. */
  const EventTagKeys: set<string> := {AppSecJsonTag, ManualKeepTag, OriginTag, AppSecEventTag}

  /** The allow-list of collected request headers, in declaration order (19 entries, "forwarded" twice). */
  const CollectedHTTPHeaders: seq<string> := [
    "host",
    "x-forwarded-for",
    "x-client-ip",
    "x-real-ip",
    "x-forwarded",
    "x-cluster-client-ip",
    "forwarded-for",
    "forwarded",
    "via",
    "true-client-ip",
    "content-length",
    "content-type",
    "content-encoding",
    "content-language",
    "forwarded",
    "user-agent",
    "accept",
    "accept-encoding",
    "accept-language"
  ]

  /**
   * The package-level `collectedHTTPHeaders` array, filled in declaration
   * order; the package `init` sorts it in place so that binary search can be
   * used on it, and it is only read afterwards.
   */
  class HeaderAllowList {
    var names: array<string>
    /** The entries in declaration order. */
    ghost const declared: seq<string>

    /** Sorted, and holding the declared entries. */
    ghost predicate Valid()
      reads this, names
    {
      Sorted(names[..]) && multiset(names[..]) == multiset(declared)
    }

    /** The array as declared, not sorted yet. */
    constructor (entries: seq<string>)
      ensures fresh(names) && declared == entries && names[..] == entries
    {
      declared := entries;
      names := new string[|entries|](i requires 0 <= i < |entries| => entries[i]);
    }

    /** The package `init`: `sort.Strings(collectedHTTPHeaders[:])`. */
    method Init()
      requires multiset(names[..]) == multiset(declared)
      modifies names
      ensures Valid()
    {
      SortStrings(names);
    }
  }

  /** An allow-list declared with `entries`, after `init` has sorted it. */
  method NewAllowList(entries: seq<string>) returns (allow: HeaderAllowList)
    ensures fresh(allow) && fresh(allow.names)
    ensures allow.Valid() && allow.declared == entries
  {
    allow := new HeaderAllowList(entries);
    allow.Init();
  }

  /** The package's allow-list once `init` has run. */
  method CollectedHeaders() returns (allow: HeaderAllowList)
    ensures fresh(allow) && fresh(allow.names)
    ensures allow.Valid() && allow.declared == CollectedHTTPHeaders
  {
    allow := NewAllowList(CollectedHTTPHeaders);
  }

  /**
   * Reference definition of `normalizeHTTPHeaders` against the allow-list
   * `collected`: the allow-listed entries of `headers`, each value list
   * joined with ",", or absent when that leaves nothing.
   */
  ghost function Normalized(headers: map<string, seq<string>>, collected: seq<string>): Option<map<string, string>>
  {
    var m := map k | k in headers && k in collected :: Join(headers[k], ",");
    if |m| == 0 then None else Some(m)
  }

  /**
   * `normalizeHTTPHeaders`: keeps the headers found by binary search in the
   * sorted allow-list, with their values joined by ",".
   */
  method NormalizeHTTPHeaders(allow: HeaderAllowList, headers: map<string, seq<string>>)
    returns (normalized: Option<map<string, string>>)
    requires allow.Valid()
    ensures normalized == Normalized(headers, allow.declared)
    ensures headers == map[] ==> normalized.None?
    ensures normalized.None? <==> forall k :: k in headers ==> k !in allow.declared
    ensures normalized.Some? ==> |normalized.value| > 0
    ensures normalized.Some? ==>
      forall k :: k in normalized.value <==> k in headers && k in allow.declared
    ensures normalized.Some? ==>
      forall k :: k in normalized.value ==> normalized.value[k] == Join(headers[k], ",")
  {
    if |headers| == 0 {
      return None;
    }
    ghost var collected := allow.declared;
    var m: map<string, string> := map[];
    var rest := headers.Keys;
    while rest != {}
      invariant rest <= headers.Keys
      invariant forall k :: k in m <==> k in headers && k !in rest && k in collected
      invariant forall k :: k in m ==> m[k] == Join(headers[k], ",")
      decreases |rest|
    {
      var k :| k in rest;
      var i := SearchStrings(allow.names, k);
      SearchIndexMembership(allow.names[..], k, i);
      assert k in allow.names[..] <==> k in collected by {
        assert k in allow.names[..] <==> k in multiset(allow.names[..]);
        assert k in collected <==> k in multiset(collected);
      }
      if i < allow.names.Length && allow.names[i] == k {
        m := m[k := Join(headers[k], ",")];
      }
      rest := rest - {k};
    }
    assert m == map k | k in headers && k in collected :: Join(headers[k], ",");
    if |m| == 0 {
      assert m == map[];
      return None;
    }
    assert exists k :: k in m;
    normalized := Some(m);
  }

  /** The service entry span, seen as the tag store `SetTag` writes to. */
  class Span {
    var tags: map<string, TagValue>

    constructor (tags: map<string, TagValue>)
      ensures this.tags == tags
    {
      this.tags := tags;
    }

    method SetTag(key: string, value: TagValue)
      modifies this
      ensures tags == old(tags)[key := value]
    {
      tags := tags[key := value];
    }
  }

  /** The tags after `setEventSpanTags`, given the outcome of serialising the envelope. */
  function EventTagsWritten(tags: map<string, TagValue>, event: Result<string>): (r: map<string, TagValue>)
    ensures event.Err? ==> r == tags
    ensures event.Ok? ==> r.Keys == tags.Keys + EventTagKeys
    ensures event.Ok? ==>
      && r[AppSecJsonTag] == Text(event.value)
      && r[ManualKeepTag] == Flag(true)
      && r[OriginTag] == Text("appsec")
      && r[AppSecEventTag] == Flag(true)
    ensures forall k :: k in tags && k !in EventTagKeys ==> r[k] == tags[k]
  {
    match event
    case Err(_) => tags
    case Ok(json) =>
      tags[AppSecJsonTag := Text(json)][ManualKeepTag := Flag(true)]
          [OriginTag := Text("appsec")][AppSecEventTag := Flag(true)]
  }

  /**
   * `setEventSpanTags`: serialises `{"triggers": events}` with `marshal`; on
   * failure (reported through the logger) no tag is written, otherwise the
   * four event tags are.
   */
  method SetEventSpanTags(span: Span, events: RawMessage, marshal: EventTag -> Result<string>)
    modifies span
    ensures span.tags == EventTagsWritten(old(span.tags), marshal(EventTag(events)))
  {
    var event := marshal(EventTag(events));
    if event.Err? {
      return;
    }
    span.SetTag(AppSecJsonTag, Text(event.value));
    span.SetTag(ManualKeepTag, Flag(true));
    span.SetTag(OriginTag, Text("appsec"));
    span.SetTag(AppSecEventTag, Flag(true));
  }

  /** The tag key under which request header `h` is recorded. */
  function HeaderTagKey(h: string): (k: string)
    ensures IsHeaderTagKey(k) && k[|HeaderTagPrefix|..] == h
  {
    HeaderTagPrefix + h
  }

  /** `k` lies in the request-header tag namespace. */
  predicate IsHeaderTagKey(k: string)
  {
    |HeaderTagPrefix| <= |k| && k[..|HeaderTagPrefix|] == HeaderTagPrefix
  }

  /** The header name a header tag key was formed from. */
  function HeaderName(k: string): string
    requires IsHeaderTagKey(k)
  {
    k[|HeaderTagPrefix|..]
  }

  /** `HeaderName` inverts `HeaderTagKey` on the header tag namespace. */
  lemma HeaderNameKey(k: string)
    requires IsHeaderTagKey(k)
    ensures HeaderTagKey(HeaderName(k)) == k
  {
    assert k == k[..|HeaderTagPrefix|] + k[|HeaderTagPrefix|..];
  }

  /** One header tag for each header of `m` named in `hs`. */
  ghost function HeaderTagMap(m: map<string, string>, hs: set<string>): map<string, TagValue>
    requires hs <= m.Keys
    decreases hs
  {
    if hs == {} then map[]
    else
      var h :| h in hs;
      HeaderTagMap(m, hs - {h})[HeaderTagKey(h) := Text(m[h])]
  }

  /** The tags after the header loop of `setSpanTags` over a normalised header map. */
  ghost function HeaderTagsWritten(tags: map<string, TagValue>, normalized: Option<map<string, string>>): map<string, TagValue>
  {
    match normalized
    case None => tags
    case Some(m) => tags + HeaderTagMap(m, m.Keys)
  }

  /** The tags after `setSpanTags`: event tags, then the client IP, then the header tags. */
  ghost function RequestTagsWritten(
    tags: map<string, TagValue>, event: Result<string>, remoteIP: string,
    normalized: Option<map<string, string>>): map<string, TagValue>
  {
    HeaderTagsWritten(EventTagsWritten(tags, event)[ClientIPTag := Text(remoteIP)], normalized)
  }

  /** The header tag map holds exactly the tags of the headers in `hs`, with their values. */
  lemma {:induction false} HeaderTagMapAt(m: map<string, string>, hs: set<string>, k: string)
    requires hs <= m.Keys
    ensures k in HeaderTagMap(m, hs) <==> IsHeaderTagKey(k) && HeaderName(k) in hs
    ensures k in HeaderTagMap(m, hs) ==> HeaderTagMap(m, hs)[k] == Text(m[HeaderName(k)])
    decreases hs
  {
    if hs != {} {
      var h :| h in hs && HeaderTagMap(m, hs) == HeaderTagMap(m, hs - {h})[HeaderTagKey(h) := Text(m[h])];
      HeaderTagMapAt(m, hs - {h}, k);
      if k == HeaderTagKey(h) {
        assert HeaderName(k) == h;
      } else if IsHeaderTagKey(k) {
        HeaderNameKey(k);
        assert HeaderName(k) != h;
      }
    }
  }

  lemma HeaderTagMapAdd(m: map<string, string>, hs: set<string>, h: string)
    requires hs <= m.Keys && h in m
    ensures HeaderTagMap(m, hs + {h}) == HeaderTagMap(m, hs)[HeaderTagKey(h) := Text(m[h])]
  {
    var l, r := HeaderTagMap(m, hs + {h}), HeaderTagMap(m, hs)[HeaderTagKey(h) := Text(m[h])];
    forall k ensures (k in l <==> k in r) && (k in l ==> l[k] == r[k]) {
      HeaderTagMapAt(m, hs + {h}, k);
      HeaderTagMapAt(m, hs, k);
      if IsHeaderTagKey(k) {
        HeaderNameKey(k);
      }
      if k == HeaderTagKey(h) {
        assert HeaderName(k) == h;
      }
    }
  }

  /** Writing a tag after merging equals merging the written tag. */
  lemma UnionUpdate(base: map<string, TagValue>, w: map<string, TagValue>, k: string, v: TagValue)
    ensures (base + w)[k := v] == base + w[k := v]
  {
  }

  /**
   * `setSpanTags`: the event tags (skipped as a whole if serialisation
   * fails), then the client IP, then one tag per normalised header.
   */
  method SetSpanTags(
    span: Span, allow: HeaderAllowList, events: RawMessage, marshal: EventTag -> Result<string>,
    remoteIP: string, headers: map<string, seq<string>>)
    requires allow.Valid()
    modifies span
    ensures span.tags == RequestTagsWritten(old(span.tags), marshal(EventTag(events)), remoteIP, Normalized(headers, allow.declared))
  {
    SetEventSpanTags(span, events, marshal);
    span.SetTag(ClientIPTag, Text(remoteIP));
    var normalized := NormalizeHTTPHeaders(allow, headers);
    SetHeaderTags(span, normalized);
  }

  /** The loop of `setSpanTags`: one `SetTag` per normalised header, in whatever order the map is ranged over. */
  method SetHeaderTags(span: Span, normalized: Option<map<string, string>>)
    modifies span
    ensures span.tags == HeaderTagsWritten(old(span.tags), normalized)
  {
    if normalized.Some? {
      var m := normalized.value;
      var rest := m.Keys;
      ghost var done: set<string> := {};
      ghost var written: map<string, TagValue> := map[];
      ghost var base := span.tags;
      while rest != {}
        invariant rest <= m.Keys && done == m.Keys - rest
        invariant written == HeaderTagMap(m, done)
        invariant span.tags == base + written
        decreases rest
      {
        var h :| h in rest;
        HeaderTagMapAdd(m, done, h);
        UnionUpdate(base, written, HeaderTagKey(h), Text(m[h]));
        span.SetTag(HeaderTagKey(h), Text(m[h]));
        written := written[HeaderTagKey(h) := Text(m[h])];
        rest := rest - {h};
        done := done + {h};
      }
      assert done == m.Keys;
    }
  }

  /** Where header `h` stands in the normalised map: present exactly when it is sent and allow-listed. */
  lemma NormalizedAt(headers: map<string, seq<string>>, collected: seq<string>, h: string)
    ensures var n := Normalized(headers, collected);
      (n.Some? && h in n.value) <==> (h in headers && h in collected)
    ensures var n := Normalized(headers, collected);
      n.Some? && h in n.value ==> n.value[h] == Join(headers[h], ",")
  {
    var m := map k | k in headers && k in collected :: Join(headers[k], ",");
    if h in headers && h in collected {
      assert h in m;
    }
  }

  /** The header loop changes a key exactly when it is the tag of a normalised header. */
  lemma HeaderTagsWrittenAt(tags: map<string, TagValue>, normalized: Option<map<string, string>>, k: string)
    ensures var r := HeaderTagsWritten(tags, normalized);
      if IsHeaderTagKey(k) && normalized.Some? && HeaderName(k) in normalized.value
      then k in r && r[k] == Text(normalized.value[HeaderName(k)])
      else (k in r <==> k in tags) && (k in tags ==> r[k] == tags[k])
  {
    if normalized.Some? {
      HeaderTagMapAt(normalized.value, normalized.value.Keys, k);
    }
  }

  /** None of the fixed tag keys lies in the request-header namespace. */
  lemma FixedKeysAreNotHeaderTags()
    ensures !IsHeaderTagKey(AppSecJsonTag) && !IsHeaderTagKey(ManualKeepTag)
    ensures !IsHeaderTagKey(OriginTag) && !IsHeaderTagKey(AppSecEventTag)
    ensures !IsHeaderTagKey(ClientIPTag)
  {
    assert AppSecJsonTag[0] != HeaderTagPrefix[0] && ManualKeepTag[0] != HeaderTagPrefix[0];
    assert OriginTag[0] != HeaderTagPrefix[0] && AppSecEventTag[0] != HeaderTagPrefix[0];
    assert ClientIPTag[0] != HeaderTagPrefix[0];
  }

  /**
   * `network.client.ip` always ends up holding the remote IP, whether or not
   * the event tags were written and whatever headers survive.
   */
  lemma ClientIPAlwaysWritten(
    tags: map<string, TagValue>, event: Result<string>, remoteIP: string,
    normalized: Option<map<string, string>>)
    ensures var r := RequestTagsWritten(tags, event, remoteIP, normalized);
      ClientIPTag in r && r[ClientIPTag] == Text(remoteIP)
  {
    FixedKeysAreNotHeaderTags();
    HeaderTagsWrittenAt(EventTagsWritten(tags, event)[ClientIPTag := Text(remoteIP)], normalized, ClientIPTag);
  }

  /** When the envelope serialises, the four event tags survive the later writes. */
  lemma EventTagsWrittenOnSuccess(
    tags: map<string, TagValue>, event: Result<string>, remoteIP: string,
    normalized: Option<map<string, string>>)
    requires event.Ok?
    ensures var r := RequestTagsWritten(tags, event, remoteIP, normalized);
      && AppSecJsonTag in r && r[AppSecJsonTag] == Text(event.value)
      && ManualKeepTag in r && r[ManualKeepTag] == Flag(true)
      && OriginTag in r && r[OriginTag] == Text("appsec")
      && AppSecEventTag in r && r[AppSecEventTag] == Flag(true)
  {
    var t := EventTagsWritten(tags, event)[ClientIPTag := Text(remoteIP)];
    FixedKeysAreNotHeaderTags();
    HeaderTagsWrittenAt(t, normalized, AppSecJsonTag);
    HeaderTagsWrittenAt(t, normalized, ManualKeepTag);
    HeaderTagsWrittenAt(t, normalized, OriginTag);
    HeaderTagsWrittenAt(t, normalized, AppSecEventTag);
  }

  /** Each sent, allow-listed header gets its tag, holding its values joined by ",". */
  lemma HeaderTagPerCollectedHeader(
    tags: map<string, TagValue>, event: Result<string>, remoteIP: string,
    headers: map<string, seq<string>>, collected: seq<string>, h: string)
    requires h in headers && h in collected
    ensures var r := RequestTagsWritten(tags, event, remoteIP, Normalized(headers, collected));
      HeaderTagKey(h) in r && r[HeaderTagKey(h)] == Text(Join(headers[h], ","))
  {
    NormalizedAt(headers, collected, h);
    HeaderTagsWrittenAt(
      EventTagsWritten(tags, event)[ClientIPTag := Text(remoteIP)],
      Normalized(headers, collected), HeaderTagKey(h));
  }

  /**
   * Every other key keeps its old presence and value: keys outside the
   * event tags (all of them when serialisation fails), other than the
   * client IP, and not the tag of a sent, allow-listed header.
   */
  lemma RequestTagsFrame(
    tags: map<string, TagValue>, event: Result<string>, remoteIP: string,
    headers: map<string, seq<string>>, collected: seq<string>, k: string)
    requires k != ClientIPTag
    requires event.Ok? ==> k !in EventTagKeys
    requires IsHeaderTagKey(k) ==> HeaderName(k) !in headers || HeaderName(k) !in collected
    ensures var r := RequestTagsWritten(tags, event, remoteIP, Normalized(headers, collected));
      (k in r <==> k in tags) && (k in tags ==> r[k] == tags[k])
  {
    if IsHeaderTagKey(k) {
      NormalizedAt(headers, collected, HeaderName(k));
    }
    HeaderTagsWrittenAt(
      EventTagsWritten(tags, event)[ClientIPTag := Text(remoteIP)],
      Normalized(headers, collected), k);
  }

  /** A header that is not allow-listed gets no tag: its tag key keeps whatever it held. */
  lemma NoTagForUncollectedHeader(
    tags: map<string, TagValue>, event: Result<string>, remoteIP: string,
    headers: map<string, seq<string>>, collected: seq<string>, h: string)
    requires h !in collected
    ensures var r := RequestTagsWritten(tags, event, remoteIP, Normalized(headers, collected));
      (HeaderTagKey(h) in r <==> HeaderTagKey(h) in tags)
      && (HeaderTagKey(h) in tags ==> r[HeaderTagKey(h)] == tags[HeaderTagKey(h)])
  {
    var k := HeaderTagKey(h);
    FixedKeysAreNotHeaderTags();
    assert k !in EventTagKeys && k != ClientIPTag;
    RequestTagsFrame(tags, event, remoteIP, headers, collected, k);
  }

  /** `{"user-agent": ["x"], "x-unknown": ["y"]}` normalises to `{"user-agent": "x"}`. */
  lemma NormalizeKeepsOnlyCollected()
    ensures Normalized(map["user-agent" := ["x"], "x-unknown" := ["y"]], CollectedHTTPHeaders)
      == Some(map["user-agent" := "x"])
  {
    var h: map<string, seq<string>> := map["user-agent" := ["x"], "x-unknown" := ["y"]];
    assert "user-agent" in CollectedHTTPHeaders;
    assert "x-unknown" !in CollectedHTTPHeaders;
    assert (map k | k in h && k in CollectedHTTPHeaders :: Join(h[k], ",")) == map["user-agent" := "x"];
  }

  /** Matching is exact and case-sensitive: `"Host"` is not the allow-listed `"host"`. */
  lemma NormalizeIsCaseSensitive()
    ensures Normalized(map["Host" := ["example.com"]], CollectedHTTPHeaders) == None
  {
    var h: map<string, seq<string>> := map["Host" := ["example.com"]];
    assert "Host" !in CollectedHTTPHeaders;
    assert (map k | k in h && k in CollectedHTTPHeaders :: Join(h[k], ",")) == map[];
  }

  /** The example request's headers: one allow-listed name and one that is not. */
  lemma ExampleHeadersCollected()
    ensures "user-agent" in CollectedHTTPHeaders && "x-unknown" !in CollectedHTTPHeaders
  {
  }

  /**
   * The tags written for a request from `203.0.113.7` sending
   * `{"user-agent": ["x"], "x-unknown": ["y"]}` on a span without tags.
   */
  lemma ExampleRequestTagsWritten(event: Result<string>, collected: seq<string>)
    requires "user-agent" in collected && "x-unknown" !in collected
    ensures var r := RequestTagsWritten(map[], event, "203.0.113.7",
        Normalized(map["user-agent" := ["x"], "x-unknown" := ["y"]], collected));
      && ClientIPTag in r && r[ClientIPTag] == Text("203.0.113.7")
      && HeaderTagKey("user-agent") in r && r[HeaderTagKey("user-agent")] == Text("x")
      && HeaderTagKey("x-unknown") !in r
      && (AppSecEventTag in r <==> event.Ok?)
  {
    var headers := map["user-agent" := ["x"], "x-unknown" := ["y"]];
    var n := Normalized(headers, collected);
    ClientIPAlwaysWritten(map[], event, "203.0.113.7", n);
    HeaderTagPerCollectedHeader(map[], event, "203.0.113.7", headers, collected, "user-agent");
    assert Join(headers["user-agent"], ",") == "x";
    NoTagForUncollectedHeader(map[], event, "203.0.113.7", headers, collected, "x-unknown");
    if event.Ok? {
      EventTagsWrittenOnSuccess(map[], event, "203.0.113.7", n);
    } else {
      FixedKeysAreNotHeaderTags();
      RequestTagsFrame(map[], event, "203.0.113.7", headers, collected, AppSecEventTag);
    }
  }

  /**
   * A request from `203.0.113.7` sending `{"user-agent": ["x"], "x-unknown": ["y"]}`,
   * tagged on a fresh span through the package's allow-list: the client IP and
   * the `user-agent` header are recorded, `x-unknown` is not, and the event tags
   * are there exactly when the envelope serialises.
   */
  method TagExampleRequest(events: RawMessage, marshal: EventTag -> Result<string>)
    returns (tags: map<string, TagValue>)
    ensures ClientIPTag in tags && tags[ClientIPTag] == Text("203.0.113.7")
    ensures HeaderTagKey("user-agent") in tags && tags[HeaderTagKey("user-agent")] == Text("x")
    ensures HeaderTagKey("x-unknown") !in tags
    ensures AppSecEventTag in tags <==> marshal(EventTag(events)).Ok?
  {
    var span := new Span(map[]);
    var allow := CollectedHeaders();
    var headers := map["user-agent" := ["x"], "x-unknown" := ["y"]];
    SetSpanTags(span, allow, events, marshal, "203.0.113.7", headers);
    tags := span.tags;
    ExampleHeadersCollected();
    ExampleRequestTagsWritten(marshal(EventTag(events)), allow.declared);
  }
}
