/** Which strategy, if any, the fetch listener applies to a request. */
module Classifier {
  import opened CacheStore

  /** The parts of an intercepted request the listener looks at. `accept` is
      `headers.get('accept')`: None when the header is absent. */
  datatype Request = Request(httpMethod: string, url: string, destination: string, accept: Option<string>)

  /** ASCII case folding, as the regex's `i` flag does for these extensions. */
  function LowerAscii(c: char): char {
    if 'A' <= c <= 'Z' then (c as int + 32) as char else c
  }

  /** The alternatives of the image-extension pattern, in the pattern's order. */
  const ImageExtensions: seq<string> := ["png", "jpg", "jpeg", "gif", "webp", "svg"]

  /** `ext` (lower case) stands at position `i` of `url`, ignoring ASCII case. */
  predicate ExtensionAt(url: string, i: nat, ext: string) {
    i + |ext| <= |url| && forall j | 0 <= j < |ext| :: LowerAscii(url[i + j]) == ext[j]
  }

  /** `ext` stands at `i` and is followed by '?' or by the end of the URL. */
  predicate ExtensionThenEnd(url: string, i: nat, ext: string) {
    ExtensionAt(url, i, ext) && (i + |ext| == |url| || url[i + |ext|] == '?')
  }

  /** The pattern `\.(?:png|jpg|jpeg|gif|webp|svg)(?:\?|$)` (case-insensitive)
      matches at position `i` of `url`. */
  ghost predicate ImageSuffixAt(url: string, i: int) {
    && 0 <= i < |url|
    && url[i] == '.'
    && exists e | e in ImageExtensions :: ExtensionThenEnd(url, i + 1, e)
  }

  /** The pattern matches somewhere in the whole URL string. */
  ghost predicate MatchesImagePattern(url: string) {
    exists i :: ImageSuffixAt(url, i)
  }

  /** Tries the extensions of `exts` one by one after position `i`. */
  function AnyExtensionThenEnd(url: string, i: nat, exts: seq<string>): (b: bool)
    ensures b <==> exists e | e in exts :: ExtensionThenEnd(url, i, e)
  {
    if exts == [] then false
    else ExtensionThenEnd(url, i, exts[0]) || AnyExtensionThenEnd(url, i, exts[1..])
  }

  /** Scans the URL from position `i` for a place where the pattern matches. */
  function MatchFrom(url: string, i: nat): (b: bool)
    requires i <= |url|
    ensures b <==> exists k | i <= k < |url| :: ImageSuffixAt(url, k)
    decreases |url| - i
  {
    if i == |url| then false
    else if url[i] == '.' && AnyExtensionThenEnd(url, i + 1, ImageExtensions) then
      assert ImageSuffixAt(url, i);
      true
    else MatchFrom(url, i + 1)
  }

  /** `isImageRequest`: the browser marks the request as an image, or the URL
      has an image extension followed by a query or by the end. */
  function IsImageRequest(req: Request): (b: bool)
    ensures b <==> req.destination == "image" || MatchesImagePattern(req.url)
  {
    req.destination == "image" || MatchFrom(req.url, 0)
  }

  /** `t` stands at position `i` of `s`. */
  predicate OccursAt(s: string, t: string, i: nat) {
    i + |t| <= |s| && s[i..i + |t|] == t
  }

  /** `t` occurs in `s` (String.prototype.includes). */
  predicate Contains(s: string, t: string) {
    exists i: nat | i <= |s| :: OccursAt(s, t, i)
  }

  /** `req.headers.get('accept') && req.headers.get('accept').includes('text/html')`:
      an absent header is null and an empty one is falsy. The emptiness test
      decides nothing: a header that contains "text/html" is never empty. */
  predicate AcceptsHtml(accept: Option<string>): (b: bool)
    ensures b <==> accept.Some? && Contains(accept.value, "text/html")
  {
    accept.Some? && accept.value != "" && Contains(accept.value, "text/html")
  }

  /** What the fetch listener does with a request. */
  datatype Route = Bypass | ToNetworkFirst | ToCacheFirst | ToNetworkFallback

  /** The fetch listener's ordered tests. A GET falls through to the default
      strategy exactly when it is not HTML, not an image, style or script, and
      its URL has no image extension. */
  function RouteOf(req: Request): (r: Route)
    ensures r == ToNetworkFallback <==>
      && req.httpMethod == "GET"
      && !AcceptsHtml(req.accept)
      && req.destination !in {"image", "style", "script"}
      && !MatchesImagePattern(req.url)
  {
    if req.httpMethod != "GET" then Bypass
    else if AcceptsHtml(req.accept) then ToNetworkFirst
    else if IsImageRequest(req) || req.destination == "style" || req.destination == "script" then ToCacheFirst
    else ToNetworkFallback
  }

  /** Only GET requests are intercepted. */
  lemma OnlyGetIntercepted(req: Request)
    ensures RouteOf(req) == Bypass <==> req.httpMethod != "GET"
  {
  }

  /** A GET whose Accept header mentions text/html goes network-first, whatever
      its destination or URL. */
  lemma HtmlTakesPrecedence(req: Request)
    requires req.httpMethod == "GET" && AcceptsHtml(req.accept)
    ensures RouteOf(req) == ToNetworkFirst
  {
  }

  /** Cache-first is chosen exactly for the GETs that are not HTML and are an
      image, a style or a script. */
  lemma CacheFirstOnlyWithoutHtml(req: Request)
    ensures RouteOf(req) == ToCacheFirst <==>
      && req.httpMethod == "GET"
      && !AcceptsHtml(req.accept)
      && (req.destination in {"image", "style", "script"} || MatchesImagePattern(req.url))
  {
  }

  /** A request without an Accept header is never treated as HTML. */
  lemma MissingAcceptIsNotHtml(req: Request)
    requires req.httpMethod == "GET" && req.accept == None
    ensures RouteOf(req) != ToNetworkFirst
  {
  }

  /** Any URL made of a prefix, '.', an image extension in any ASCII case and then
      either nothing or a '?' and anything matches — wherever the '.' falls,
      host and query string included. */
  lemma {:induction false} ExtensionMatches(prefix: string, variant: string, ext: string, tail: string)
    requires ext in ImageExtensions
    requires |variant| == |ext| && forall j | 0 <= j < |ext| :: LowerAscii(variant[j]) == ext[j]
    requires tail == [] || tail[0] == '?'
    ensures MatchesImagePattern(prefix + "." + variant + tail)
  {
    var url := prefix + "." + variant + tail;
    var i := |prefix|;
    assert url[i] == '.';
    forall j | 0 <= j < |ext| ensures LowerAscii(url[i + 1 + j]) == ext[j] {
      assert url[i + 1 + j] == variant[j];
    }
    if tail != [] {
      assert url[i + 1 + |ext|] == tail[0];
    }
    assert ExtensionThenEnd(url, i + 1, ext);
    assert ImageSuffixAt(url, i);
  }

  /** An image extension inside the query string counts ("?f=a.png"), and upper
      case counts ("/A.PNG?v=2"). */
  lemma QueryAndCaseExamples()
    ensures MatchesImagePattern("/download?f=a.png")
    ensures MatchesImagePattern("/A.PNG?v=2")
  {
    ExtensionMatches("/download?f=a", "png", "png", "");
    assert "/download?f=a" + "." + "png" + "" == "/download?f=a.png";
    ExtensionMatches("/A", "PNG", "png", "?v=2");
    assert "/A" + "." + "PNG" + "?v=2" == "/A.PNG?v=2";
  }

  /** A fragment after the extension defeats the pattern: '#' is neither '?' nor
      the end of the URL. */
  lemma FragmentExample()
    ensures !MatchesImagePattern("/a.png#top")
  {
    assert !MatchFrom("/a.png#top", 0);
  }
}
