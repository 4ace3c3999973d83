/**
 * The subscription downloader: whether a cached filter list may be served
 * without a network call, which conditional request to send, how the
 * filter-list header yields a version, and how the response becomes a
 * `DownloadResult`. The clock, the connection's metering, the existence of
 * the downloaded file and the HTTP exchange itself are parameters.
 */
module Downloader {
  import opened Wrappers
  import opened Text
  import opened Subscriptions

  /** Download metadata kept per subscription url. */
  datatype DownloadedSubscription = DownloadedSubscription(
    url: string,
    path: string,
    lastUpdated: int,      // epoch milliseconds
    lastModified: string,  // "Last-Modified" of the last 200, "" if unknown
    etag: string,          // "ETag" of the last 200, "" if unknown
    version: string,       // version found in the filter-list header
    downloadCount: int)    // a Kotlin Int

  datatype DownloadResult =
    | Success(subscription: DownloadedSubscription)
    | NotModified(subscription: DownloadedSubscription)
    | Failed(previous: Option<DownloadedSubscription>)

  /** Client identification sent with every request. */
  datatype AppInfo = AppInfo(
    addonName: string, addonVersion: string,
    application: string, applicationVersion: string,
    platform: string, platformVersion: string)

  datatype Header = Header(name: string, value: string)

  datatype HttpMethod = Get | Head

  /**
   * An outgoing request: the subscription url (before the sanitising step,
   * which is not part of this model), its query parameters in order, and
   * its extra headers in order.
   */
  datatype Request = Request(verb: HttpMethod, url: string, query: seq<(string, string)>, headers: seq<Header>)

  /**
   * What the network call produced: an exception, or a response with its
   * status code, its "Last-Modified" and "ETag" headers and its body split
   * into lines.
   */
  datatype Exchange =
    | Threw
    | Responded(code: int, lastModified: Option<string>, etag: Option<string>, body: seq<string>)

  const HttpOk: int := 200
  const HttpNotModified: int := 304

  const MinRefreshInterval: int := 3_600_000          // 1 hour in ms
  const UnmeteredRefreshInterval: int := 86_400_000   // 24 hours in ms
  const MeteredRefreshInterval: int := 259_200_000    // 3 days in ms

  const IfModifiedSince: string := "If-Modified-Since"
  const IfNoneMatch: string := "If-None-Match"

  /** Kotlin `Int` arithmetic: the value taken modulo 2^32 into [-2^31, 2^31). */
  function WrapInt32(x: int): (r: int)
    ensures -0x8000_0000 <= r < 0x8000_0000
    ensures (r - x) % 0x1_0000_0000 == 0
    ensures -0x8000_0000 <= x < 0x8000_0000 ==> r == x
  {
    (x + 0x8000_0000) % 0x1_0000_0000 - 0x8000_0000
  }

  /**
   * A record for a url that was never downloaded: version "0", count 0 and
   * no validators, so a request for it is never conditional.
   */
  function NeverDownloaded(url: string, path: string): (r: DownloadedSubscription)
    ensures r.url == url && r.path == path && r.lastUpdated == 0
    ensures r.version == "0" && r.downloadCount == 0
    ensures forall forced: bool, fileExists: bool :: ConditionalHeaders(r, forced, fileExists) == []
  {
    DownloadedSubscription(url, path, 0, "", "", "0", 0)
  }

  /** `firstOrNull { it.url == url }` over the stored records. */
  function FirstWithUrl(stored: seq<DownloadedSubscription>, url: string): (r: Option<DownloadedSubscription>)
    ensures r.None? <==> forall i :: 0 <= i < |stored| ==> stored[i].url != url
    ensures r.Some? ==> exists i :: 0 <= i < |stored| && stored[i] == r.value && r.value.url == url
                          && forall j :: 0 <= j < i ==> stored[j].url != url
  {
    if stored == [] then None
    else if stored[0].url == url then Some(stored[0])
    else
      var r := FirstWithUrl(stored[1..], url);
      assert forall i :: 0 < i < |stored| ==> stored[i] == stored[1..][i - 1];
      assert r.Some? ==> exists i :: 0 < i < |stored| && stored[i] == r.value && r.value.url == url
                          && forall j :: 0 <= j < i ==> stored[j].url != url;
      r
  }

  /**
   * `getDownloadedSubscription`: the first stored record for the url, else a
   * fresh record at `hashedPath` (the file name derived from the url). When
   * the url cannot be parsed the store is not consulted and the fresh record
   * has an empty path.
   */
  function GetDownloadedSubscription(stored: seq<DownloadedSubscription>, sub: Subscription,
                                     urlParses: bool, hashedPath: string): (r: DownloadedSubscription)
    ensures r.url == sub.url
    ensures !urlParses ==> r == NeverDownloaded(sub.url, "")
    ensures urlParses && (forall i :: 0 <= i < |stored| ==> stored[i].url != sub.url) ==>
              r == NeverDownloaded(sub.url, hashedPath)
    ensures urlParses && (exists i :: 0 <= i < |stored| && stored[i].url == sub.url) ==>
              exists i :: 0 <= i < |stored| && stored[i] == r
                          && forall j :: 0 <= j < i ==> stored[j].url != sub.url
  {
    if !urlParses then NeverDownloaded(sub.url, "")
    else FirstWithUrl(stored, sub.url).GetOr(NeverDownloaded(sub.url, hashedPath))
  }

  /** How old a download may get: new subscriptions first, then metered, then unmetered. */
  function RefreshInterval(newSubscription: bool, isMetered: bool): (r: int)
    ensures newSubscription <==> r == MinRefreshInterval
    ensures MinRefreshInterval <= r <= MeteredRefreshInterval
    ensures !newSubscription ==> (isMetered <==> r == MeteredRefreshInterval)
    ensures !newSubscription && !isMetered ==> r == UnmeteredRefreshInterval
  {
    if newSubscription then MinRefreshInterval
    else if isMetered then MeteredRefreshInterval else UnmeteredRefreshInterval
  }

  /** `isExpired`: strictly more time has passed since the last update than the interval. */
  function IsExpired(d: DownloadedSubscription, now: int, newSubscription: bool, isMetered: bool): (r: bool)
    ensures newSubscription ==> (r <==> now - d.lastUpdated > 60 * 60 * 1000)
    ensures !newSubscription && isMetered ==> (r <==> now - d.lastUpdated > 3 * 24 * 60 * 60 * 1000)
    ensures !newSubscription && !isMetered ==> (r <==> now - d.lastUpdated > 24 * 60 * 60 * 1000)
  {
    now - d.lastUpdated > RefreshInterval(newSubscription, isMetered)
  }

  /** Exactly the interval is not expired; one millisecond more is. */
  lemma ExpiryBoundary(d: DownloadedSubscription, newSubscription: bool, isMetered: bool)
    ensures !IsExpired(d, d.lastUpdated + RefreshInterval(newSubscription, isMetered), newSubscription, isMetered)
    ensures IsExpired(d, d.lastUpdated + RefreshInterval(newSubscription, isMetered) + 1, newSubscription, isMetered)
  {
  }

  /** Once expired, a download stays expired as time goes on. */
  lemma ExpiryMonotone(d: DownloadedSubscription, now: int, later: int, newSubscription: bool, isMetered: bool)
    requires now <= later && IsExpired(d, now, newSubscription, isMetered)
    ensures IsExpired(d, later, newSubscription, isMetered)
  {
  }

  /**
   * The new-subscription interval is the shortest and the metered one the
   * longest: expiry under a longer interval implies expiry under a shorter one.
   */
  lemma ExpiryOrder(d: DownloadedSubscription, now: int)
    ensures IsExpired(d, now, false, true) ==> IsExpired(d, now, false, false)
    ensures IsExpired(d, now, false, false) ==> IsExpired(d, now, true, false)
    ensures IsExpired(d, now, true, false) <==> IsExpired(d, now, true, true)
  {
  }

  /**
   * `canSkipDownload`: serve the file already on disk without a request.
   * Forced downloads never skip; new and periodic downloads skip a fresh
   * existing file; other downloads skip any existing file.
   */
  function CanSkipDownload(d: DownloadedSubscription, now: int, isMetered: bool, fileExists: bool,
                           forced: bool, periodic: bool, newSubscription: bool): (r: bool)
    ensures forced ==> !r
    ensures r ==> fileExists
    ensures !forced && fileExists && !IsExpired(d, now, newSubscription, isMetered) ==> r
    ensures (newSubscription || periodic) && IsExpired(d, now, newSubscription, isMetered) ==> !r
    ensures !forced && !newSubscription && !periodic ==> (r <==> fileExists)
  {
    var expired := IsExpired(d, now, newSubscription, isMetered);
    if forced then false
    else if newSubscription || periodic then !expired && fileExists
    else fileExists
  }

  /** `ifExists`: the record when its file is on disk, else nothing. */
  function IfExists(d: DownloadedSubscription, fileExists: bool): (r: Option<DownloadedSubscription>)
    ensures r.Some? <==> fileExists
    ensures r.Some? ==> r.value == d
  {
    if fileExists then Some(d) else None
  }

  /** The download-count bucket sent to the server: the count below 4, else "4+". */
  function AsDownloadCount(count: int): (r: string)
    ensures count < 4 ==> r == IntToDecimal(count) && Canonical(r) && ParseInt(r) == Some(count)
    ensures r == "4+" <==> count >= 4
  {
    if count < 4 then
      assert ParseInt("4+") == None by { assert !IsDigit("4+"[1]); }
      IntToDecimal(count)
    else "4+"
  }

  /** `createUrl`: the client and the previous download, in this order. */
  function DownloadQuery(app: AppInfo, d: DownloadedSubscription): (q: seq<(string, string)>)
    ensures |q| == 8
    ensures q[0] == ("addonName", app.addonName) && q[1] == ("addonVersion", app.addonVersion)
    ensures q[2] == ("application", app.application) && q[3] == ("applicationVersion", app.applicationVersion)
    ensures q[4] == ("platform", app.platform) && q[5] == ("platformVersion", app.platformVersion)
    ensures q[6] == ("lastVersion", d.version)
    ensures q[7].0 == "downloadCount" && (d.downloadCount < 4 ==> ParseInt(q[7].1) == Some(d.downloadCount))
    ensures d.downloadCount < 4 ==> q[7].1 == IntToDecimal(d.downloadCount)
    ensures q[7].1 == "4+" <==> d.downloadCount >= 4
  {
    [("addonName", app.addonName), ("addonVersion", app.addonVersion),
     ("application", app.application), ("applicationVersion", app.applicationVersion),
     ("platform", app.platform), ("platformVersion", app.platformVersion),
     ("lastVersion", d.version), ("downloadCount", AsDownloadCount(d.downloadCount))]
  }

  /**
   * The conditional headers of `createDownloadRequest` (sections 3.3 and
   * 3.2 of RFC 7232): none when forced or when the file is missing,
   * otherwise one per non-empty stored validator, If-Modified-Since first.
   */
  function ConditionalHeaders(d: DownloadedSubscription, forced: bool, fileExists: bool): (r: seq<Header>)
    ensures forced || !fileExists ==> r == []
    ensures forall h :: h in r ==> h.value != ""
    ensures forall h :: h in r ==> h == Header(IfModifiedSince, d.lastModified) || h == Header(IfNoneMatch, d.etag)
    ensures !forced && fileExists ==>
              (Header(IfModifiedSince, d.lastModified) in r <==> d.lastModified != "")
              && (Header(IfNoneMatch, d.etag) in r <==> d.etag != "")
    ensures |r| <= 2
    ensures |r| == 2 ==> r[0].name == IfModifiedSince && r[1].name == IfNoneMatch
  {
    if !forced && fileExists then
      (if d.lastModified != "" then [Header(IfModifiedSince, d.lastModified)] else [])
      + (if d.etag != "" then [Header(IfNoneMatch, d.etag)] else [])
    else []
  }

  /** `createDownloadRequest` on the url built by `createUrl`. */
  function DownloadRequest(sub: Subscription, app: AppInfo, d: DownloadedSubscription,
                           forced: bool, fileExists: bool): (r: Request)
    ensures r.verb == Get && r.url == sub.url
    ensures r.query == DownloadQuery(app, d)
    ensures r.headers == ConditionalHeaders(d, forced, fileExists)
  {
    Request(Get, sub.url, DownloadQuery(app, d), ConditionalHeaders(d, forced, fileExists))
  }

  /** A line of the filter-list header: non-empty and starting with '[' or '!'. */
  predicate IsHeaderLine(line: string) {
    |line| > 0 && (line[0] == '[' || line[0] == '!')
  }

  /** The header block: the longest prefix of the lines made of header lines. */
  function HeaderBlock(lines: seq<string>): (h: seq<string>)
    ensures |h| <= |lines| && h == lines[..|h|]
    ensures forall i :: 0 <= i < |h| ==> IsHeaderLine(h[i])
    ensures |h| < |lines| ==> !IsHeaderLine(lines[|h|])
  {
    if lines == [] || !IsHeaderLine(lines[0]) then [] else [lines[0]] + HeaderBlock(lines[1..])
  }

  /** `readHeader`: reads lines until the end, an empty line or a line that is not a header line. */
  method ReadHeader(lines: seq<string>) returns (header: seq<string>)
    ensures header == HeaderBlock(lines)
  {
    header := [];
    var i := 0;
    while i < |lines| && IsHeaderLine(lines[i])
      invariant 0 <= i <= |lines|
      invariant header == lines[..i]
      invariant forall j :: 0 <= j < i ==> IsHeaderLine(lines[j])
    {
      header := header + [lines[i]];
      i := i + 1;
    }
    HeaderBlockUnique(lines, i);
  }

  /** Any prefix of header lines that stops at a non-header line or the end is the header block. */
  lemma HeaderBlockUnique(lines: seq<string>, k: nat)
    requires k <= |lines| && forall j :: 0 <= j < k ==> IsHeaderLine(lines[j])
    requires k < |lines| ==> !IsHeaderLine(lines[k])
    ensures HeaderBlock(lines) == lines[..k]
  {
  }

  /**
   * The version a header line declares: after `trim`, a line starting with
   * '!' and holding a ':' whose key (the trimmed text before the first ':')
   * contains "version" in any case; the value is the trimmed rest.
   */
  function VersionEntry(line: string): (r: Option<string>)
    ensures r.Some? ==> StartsWith(Trim(line), "!") && ':' in Trim(line)
  {
    var t := Trim(line);
    if !StartsWith(t, "!") then None
    else match IndexOf(t, ':')
      case None => None
      case Some(k) =>
        if ContainsIgnoreCase(Trim(t[..k]), "version") then Some(Trim(t[k + 1..])) else None
  }

  /** The version entries of the header lines, line by line (`map`). */
  function VersionEntries(header: seq<string>): (r: seq<Option<string>>)
    ensures |r| == |header| && forall i :: 0 <= i < |header| ==> r[i] == VersionEntry(header[i])
  {
    seq(|header|, i requires 0 <= i < |header| => VersionEntry(header[i]))
  }

  /** `filter` for present entries, then `firstOrNull`. */
  function FirstSome(entries: seq<Option<string>>): (r: Option<string>)
    ensures r.None? <==> forall i :: 0 <= i < |entries| ==> entries[i].None?
    ensures r.Some? ==> exists i :: 0 <= i < |entries| && entries[i] == r
                          && forall j :: 0 <= j < i ==> entries[j].None?
  {
    if entries == [] then None
    else if entries[0].Some? then entries[0]
    else
      var r := FirstSome(entries[1..]);
      assert forall i :: 0 < i < |entries| ==> entries[i] == entries[1..][i - 1];
      assert r.Some? ==> exists i :: 0 < i < |entries| && entries[i] == r
                          && forall j :: 0 <= j < i ==> entries[j].None?;
      r
  }

  /** The first present entry is the one every earlier entry is absent before. */
  lemma {:induction false} FirstSomeAt(entries: seq<Option<string>>, i: nat)
    requires i < |entries| && entries[i].Some?
    requires forall j :: 0 <= j < i ==> entries[j].None?
    ensures FirstSome(entries) == entries[i]
  {
    if i > 0 {
      FirstSomeAt(entries[1..], i - 1);
    }
  }

  /** The entry `firstOrNull` finds is a header line's, and no earlier line has one. */
  lemma FoundVersionEntry(header: seq<string>)
    requires FirstSome(VersionEntries(header)).Some?
    ensures exists i :: 0 <= i < |header| && VersionEntry(header[i]) == FirstSome(VersionEntries(header))
                        && forall j :: 0 <= j < i ==> VersionEntry(header[j]).None?
  {
    var e := VersionEntries(header);
    var i :| 0 <= i < |e| && e[i] == FirstSome(e) && forall j :: 0 <= j < i ==> e[j].None?;
    forall j | 0 <= j < i ensures VersionEntry(header[j]).None? {
      assert e[j] == VersionEntry(header[j]);
    }
    assert VersionEntry(header[i]) == FirstSome(e) by {
      assert e[i] == VersionEntry(header[i]);
    }
  }

  /** `extractVersion` over a header block already read: "0" when no line declares one. */
  function VersionOfHeader(header: seq<string>): (r: string)
    ensures (forall i :: 0 <= i < |header| ==> VersionEntry(header[i]).None?) ==> r == "0"
    ensures (exists i :: 0 <= i < |header| && VersionEntry(header[i]).Some?) ==>
              exists i :: 0 <= i < |header| && VersionEntry(header[i]) == Some(r)
                          && forall j :: 0 <= j < i ==> VersionEntry(header[j]).None?
  {
    var f := FirstSome(VersionEntries(header));
    if f.Some? then
      FoundVersionEntry(header);
      f.value
    else
      "0"
  }

  /** `extractVersion` over the lines of a downloaded file. */
  function ExtractVersion(lines: seq<string>): string {
    VersionOfHeader(HeaderBlock(lines))
  }


  /**
   * The version is the value of the first version entry, provided every
   * line up to it belongs to the header block.
   */
  lemma ExtractVersionFirstEntry(lines: seq<string>, i: nat)
    requires i < |lines| && forall j :: 0 <= j <= i ==> IsHeaderLine(lines[j])
    requires VersionEntry(lines[i]).Some? && forall j :: 0 <= j < i ==> VersionEntry(lines[j]).None?
    ensures ExtractVersion(lines) == VersionEntry(lines[i]).value
  {
    var h := HeaderBlock(lines);
    assert i < |h|;
    FirstSomeAt(VersionEntries(h), i);
  }

  /** The version is "0" when no line of the header block declares one. */
  lemma ExtractVersionDefault(lines: seq<string>)
    requires forall i :: 0 <= i < |HeaderBlock(lines)| ==> VersionEntry(HeaderBlock(lines)[i]).None?
    ensures ExtractVersion(lines) == "0"
  {
  }

  /**
   * The header block ends at the first line that is not a header line: a
   * version line after it is never read, so the version stays "0".
   */
  lemma ExtractVersionStopsAtBody(lines: seq<string>, i: nat)
    requires i < |lines| && !IsHeaderLine(lines[i])
    requires forall j :: 0 <= j < i ==> VersionEntry(lines[j]).None?
    ensures ExtractVersion(lines) == "0"
  {
    var h := HeaderBlock(lines);
    HeaderBlockEndsBefore(lines, i);
    forall j | 0 <= j < |h| ensures VersionEntry(h[j]).None? {
      assert h[j] == lines[j];
    }
    ExtractVersionDefault(lines);
  }

  /** The header block stops at or before any line that is not a header line. */
  lemma {:induction false} HeaderBlockEndsBefore(lines: seq<string>, i: nat)
    requires i < |lines| && !IsHeaderLine(lines[i])
    ensures |HeaderBlock(lines)| <= i
  {
    if IsHeaderLine(lines[0]) {
      assert lines[1..][i - 1] == lines[i];
      HeaderBlockEndsBefore(lines[1..], i - 1);
    }
  }

  /** A file with no line starting with '!' has version "0". */
  lemma NoCommentLinesMeansDefaultVersion(lines: seq<string>)
    requires forall i :: 0 <= i < |lines| ==> lines[i] == [] || lines[i][0] != '!'
    ensures ExtractVersion(lines) == "0"
  {
    var h := HeaderBlock(lines);
    forall i | 0 <= i < |h| ensures VersionEntry(h[i]).None? {
      assert h[i] == lines[i];
      TrimKeepsFirst(lines[i]);
      VersionEntryNotComment(lines[i]);
    }
    ExtractVersionDefault(lines);
  }

  /** A line that does not start with '!' once trimmed declares nothing. */
  lemma VersionEntryNotComment(line: string)
    requires Trim(line) != [] && Trim(line)[0] != '!'
    ensures VersionEntry(line) == None
  {
    var t := Trim(line);
    assert !StartsWith(t, "!") by {
      assert t[..1][0] == t[0];
    }
  }

  /**
   * A line whose trimmed text `t` reads `! key: value`, with a key naming a
   * version, declares the trimmed value; blanks around the line or around
   * either part do not matter.
   */
  lemma VersionEntryOf(line: string, t: string, k: nat)
    requires t == Trim(line) && StartsWith(t, "!") && IndexOf(t, ':') == Some(k)
    requires ContainsIgnoreCase(Trim(t[..k]), "version")
    ensures VersionEntry(line) == Some(Trim(t[k + 1..]))
  {
  }

  /** A line whose trimmed text `t` reads `! key: value`, with a key not naming a version, declares nothing. */
  lemma VersionEntryOfOther(line: string, t: string, k: nat)
    requires t == Trim(line) && StartsWith(t, "!") && IndexOf(t, ':') == Some(k)
    requires !ContainsIgnoreCase(Trim(t[..k]), "version")
    ensures VersionEntry(line) == None
  {
  }

  /*
   * The header of a typical filter list, taken apart one fact at a time.
   */

  lemma ExampleVersionLine(t: string)
    requires t == "! Version: 202301010000"
    ensures VersionEntry(t) == Some("202301010000")
  {
    ExampleVersionLineShape(t);
    ExampleVersionKey(t[..9]);
    ExampleVersionValue(t[10..]);
    VersionEntryOf(t, t, 9);
  }

  lemma ExampleVersionLineShape(t: string)
    requires t == "! Version: 202301010000"
    ensures Trim(t) == t && StartsWith(t, "!") && IndexOf(t, ':') == Some(9)
    ensures t[..9] == "! Version" && t[10..] == " 202301010000"
  {
    TrimUnchanged(t);
    IndexOfAt(t, ':', 9);
  }

  lemma ExampleVersionKey(key: string)
    requires key == "! Version"
    ensures ContainsIgnoreCase(Trim(key), "version")
  {
    TrimUnchanged(key);
    assert RegionMatchesIgnoreCase(key, 2, "version");
    ContainsIgnoreCaseAt(key, "version");
  }

  lemma ExampleVersionValue(v: string)
    requires v == " 202301010000"
    ensures Trim(v) == "202301010000"
  {
    assert IsWhitespace(v[0]) && v[1..] == "202301010000";
    TrimUnchanged(v[1..]);
    assert TrimStart(v[1..]) == v[1..];
  }

  lemma ExampleTitleLine(t: string)
    requires t == "! Title: Test"
    ensures VersionEntry(t) == None
  {
    ExampleTitleLineShape(t);
    ExampleTitleKey(t[..7]);
    VersionEntryOfOther(t, t, 7);
  }

  lemma ExampleTitleLineShape(t: string)
    requires t == "! Title: Test"
    ensures Trim(t) == t && StartsWith(t, "!") && IndexOf(t, ':') == Some(7) && t[..7] == "! Title"
  {
    TrimUnchanged(t);
    IndexOfAt(t, ':', 7);
  }

  lemma ExampleTitleKey(key: string)
    requires key == "! Title"
    ensures !ContainsIgnoreCase(Trim(key), "version")
  {
    TrimUnchanged(key);
    assert !CharEqualsIgnoreCase(key[0], "version"[0]);
    assert !RegionMatchesIgnoreCase(key, 0, "version");
    assert |key[1..]| < |"version"|;
  }

  lemma ExampleBracketLine(t: string)
    requires t == "[Adblock Plus 2.0]"
    ensures VersionEntry(t) == None
  {
    TrimKeepsFirst(t);
    VersionEntryNotComment(t);
  }

  lemma ExampleHeaderLines(lines: seq<string>)
    requires |lines| == 4 && lines[0] == "[Adblock Plus 2.0]" && lines[1] == "! Title: Test"
    requires lines[2] == "! Version: 202301010000" && lines[3] == "! Expires: 4 days"
    ensures forall j :: 0 <= j <= 2 ==> IsHeaderLine(lines[j])
  {
  }

  /** The version of a typical filter-list header is the value of its "! Version:" line. */
  lemma ExtractVersionExample(lines: seq<string>)
    requires |lines| == 4 && lines[0] == "[Adblock Plus 2.0]" && lines[1] == "! Title: Test"
    requires lines[2] == "! Version: 202301010000" && lines[3] == "! Expires: 4 days"
    ensures ExtractVersion(lines) == "202301010000"
  {
    ExampleHeaderLines(lines);
    ExampleBracketLine(lines[0]);
    ExampleTitleLine(lines[1]);
    ExampleVersionLine(lines[2]);
    ExtractVersionThirdEntry(lines, "202301010000");
  }

  /** The third-line case of the first-entry rule, kept free of concrete text. */
  lemma ExtractVersionThirdEntry(lines: seq<string>, v: string)
    requires |lines| >= 3 && forall j :: 0 <= j <= 2 ==> IsHeaderLine(lines[j])
    requires VersionEntry(lines[0]) == None && VersionEntry(lines[1]) == None
    requires VersionEntry(lines[2]) == Some(v)
    ensures ExtractVersion(lines) == v
  {
    var h := HeaderBlock(lines);
    assert |h| >= 3;
    FirstSomeThird(VersionEntries(h));
  }

  lemma FirstSomeThird(entries: seq<Option<string>>)
    requires |entries| >= 3 && entries[0].None? && entries[1].None? && entries[2].Some?
    ensures FirstSome(entries) == entries[2]
  {
    assert entries[1..][1..] == entries[2..];
  }

  /** The metadata recorded after a 200 response. */
  function Downloaded(d: DownloadedSubscription, now: int, lastModified: Option<string>,
                      etag: Option<string>, version: string): (r: DownloadedSubscription)
    ensures r.url == d.url && r.path == d.path && r.version == version
    ensures r.lastModified == lastModified.GetOr("") && r.etag == etag.GetOr("")
    ensures r.lastUpdated == now && r.downloadCount == WrapInt32(d.downloadCount + 1)
    ensures -0x8000_0000 <= d.downloadCount < 0x7fff_ffff ==> r.downloadCount == d.downloadCount + 1
    ensures forall newSubscription: bool, isMetered: bool :: !IsExpired(r, now, newSubscription, isMetered)
  {
    d.(lastUpdated := now,
       lastModified := lastModified.GetOr(""),
       version := version,
       etag := etag.GetOr(""),
       downloadCount := WrapInt32(d.downloadCount + 1))
  }

  /**
   * The result of one `download` call for the record `d`, as a function of
   * the clock, the network and file state, the flags and the exchange. A url
   * that does not parse makes `createUrl` throw inside the `try`, so no
   * request is sent and the download fails. `fileExists` is whether the
   * record's file exists; a url that does not parse leaves the record with
   * the empty path, which names no file.
   */
  function DownloadOutcome(d: DownloadedSubscription, urlParses: bool, now: int, isMetered: bool, fileExists: bool,
                           forced: bool, periodic: bool, newSubscription: bool, exchange: Exchange): (r: DownloadResult)
    requires !urlParses ==> !fileExists
    ensures CanSkipDownload(d, now, isMetered, fileExists, forced, periodic, newSubscription) ==> r == NotModified(d)
    ensures r.Success? <==> !CanSkipDownload(d, now, isMetered, fileExists, forced, periodic, newSubscription)
                            && urlParses && exchange.Responded? && exchange.code == HttpOk
    ensures r.Success? ==> var s := r.subscription;
              s.url == d.url && s.path == d.path && s.lastUpdated == now
              && s.etag == exchange.etag.GetOr("") && s.lastModified == exchange.lastModified.GetOr("")
              && s.version == ExtractVersion(exchange.body)
              && s.downloadCount == WrapInt32(d.downloadCount + 1)
              && (-0x8000_0000 <= d.downloadCount < 0x7fff_ffff ==> s.downloadCount == d.downloadCount + 1)
    ensures !CanSkipDownload(d, now, isMetered, fileExists, forced, periodic, newSubscription)
            && urlParses && exchange.Responded? && exchange.code == HttpNotModified
            ==> r == NotModified(d.(lastUpdated := now))
    ensures r.Failed? <==> !CanSkipDownload(d, now, isMetered, fileExists, forced, periodic, newSubscription)
                           && (!urlParses || exchange.Threw? || exchange.code !in {HttpOk, HttpNotModified})
    ensures r.Failed? ==> r.previous == IfExists(d, fileExists)
  {
    if CanSkipDownload(d, now, isMetered, fileExists, forced, periodic, newSubscription) then NotModified(d)
    else if !urlParses then Failed(IfExists(d, fileExists))
    else match exchange
      case Threw => Failed(IfExists(d, fileExists))
      case Responded(code, lastModified, etag, body) =>
        if code == HttpOk then Success(Downloaded(d, now, lastModified, etag, ExtractVersion(body)))
        else if code == HttpNotModified then NotModified(d.(lastUpdated := now))
        else Failed(IfExists(d, fileExists))
  }

  /**
   * `download`: look the record up, skip when allowed, otherwise build the
   * url, send the conditional request and interpret the exchange. `request`
   * is the request sent, None when the download was skipped or the url did
   * not parse. Writing the body to a temporary file and renaming it into
   * place is represented by reading the version from the body's lines.
   */
  method Download(stored: seq<DownloadedSubscription>, sub: Subscription, urlParses: bool, hashedPath: string,
                  app: AppInfo, forced: bool, periodic: bool, newSubscription: bool,
                  now: int, isMetered: bool, fileExists: bool, exchange: Exchange)
    returns (result: DownloadResult, request: Option<Request>)
    requires !urlParses ==> !fileExists
    ensures var d := GetDownloadedSubscription(stored, sub, urlParses, hashedPath);
            && result == DownloadOutcome(d, urlParses, now, isMetered, fileExists, forced, periodic, newSubscription, exchange)
            && (request.None? <==> CanSkipDownload(d, now, isMetered, fileExists, forced, periodic, newSubscription)
                                   || !urlParses)
            && (request.Some? ==> request.value == DownloadRequest(sub, app, d, forced, fileExists))
  {
    var previous := GetDownloadedSubscription(stored, sub, urlParses, hashedPath);
    if CanSkipDownload(previous, now, isMetered, fileExists, forced, periodic, newSubscription) {
      return NotModified(previous), None;
    }
    if !urlParses {
      // `createUrl` throws before any request; the handler looks the record up again.
      return Failed(IfExists(previous, fileExists)), None;
    }
    request := Some(DownloadRequest(sub, app, previous, forced, fileExists));
    match exchange {
      case Threw =>
        // The handler looks the record up again; the store has not changed.
        previous := GetDownloadedSubscription(stored, sub, urlParses, hashedPath);
        result := Failed(IfExists(previous, fileExists));
      case Responded(code, lastModified, etag, body) =>
        if code == HttpOk {
          var header := ReadHeader(body);
          result := Success(Downloaded(previous, now, lastModified, etag, VersionOfHeader(header)));
        } else if code == HttpNotModified {
          result := NotModified(previous.(lastUpdated := now));
        } else {
          result := Failed(IfExists(previous, fileExists));
        }
    }
  }

  /** A forced download always goes to the network: its result is decided by the exchange. */
  lemma ForcedDownloadUsesExchange(d: DownloadedSubscription, now: int, isMetered: bool, fileExists: bool,
                                   periodic: bool, newSubscription: bool, exchange: Exchange)
    ensures var r := DownloadOutcome(d, true, now, isMetered, fileExists, true, periodic, newSubscription, exchange);
            exchange.Threw? ==> r == Failed(IfExists(d, fileExists))
  {
  }

  /**
   * Revalidation round trip: after a 200 the next unforced request carries
   * exactly the validators the server sent, and a 304 answer to it keeps
   * every field but `lastUpdated`, so the download count is unchanged.
   */
  lemma RevalidationAfterSuccess(d: DownloadedSubscription, now: int, later: int, isMetered: bool, fileExists: bool,
                                 forced: bool, periodic: bool, newSubscription: bool,
                                 lastModified: string, etag: string, body: seq<string>, notModifiedBody: seq<string>)
    requires !CanSkipDownload(d, now, isMetered, fileExists, forced, periodic, newSubscription)
    requires now < later
    ensures var first := DownloadOutcome(d, true, now, isMetered, fileExists, forced, periodic, newSubscription,
                                         Responded(HttpOk, Some(lastModified), Some(etag), body));
            && first.Success?
            && ConditionalHeaders(first.subscription, false, true)
               == (if lastModified != "" then [Header(IfModifiedSince, lastModified)] else [])
                  + (if etag != "" then [Header(IfNoneMatch, etag)] else [])
            && var second := DownloadOutcome(first.subscription, true, later, isMetered, true, false, true, false,
                                             Responded(HttpNotModified, None, None, notModifiedBody));
               (second.NotModified? && second.subscription.downloadCount == first.subscription.downloadCount
                && second.subscription.etag == etag && second.subscription.lastModified == lastModified)
  {
  }
}
