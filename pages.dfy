/** What `crawler_work` does with a fetched page: the foreign collaborators it
    calls (transport, HTML parser, `Url::parse`, `Url::join`) and the
    resolution of each anchor's `href` into the URLs it sends to the frontier. */
module Pages {
  import opened Wrappers
  import opened Urls

  /** A response body as the transport writes it. */
  type Bytes = seq<bv8>

  /** One node that the parser's `query_selector("a")` yields. `href` is the
      text of its `href` attribute; it is `None` when the node is not a tag,
      has no `href` attribute, or has one without a value. */
  datatype Anchor = Anchor(href: Option<string>)

  /** The code the crawler calls but does not define, as fixed functions:
      - `fetch`: the GET request; `None` is a transport error, `Some(body)` any
        response (the status code is not looked at);
      - `extract`: `tl::parse` followed by `query_selector("a")`; `None` when
        either fails, otherwise the anchor nodes in document order;
      - `parse`: `Url::parse` of an href on its own; `None` is an error;
      - `join`: `Url::join` of an href against the page URL; `None` is an error. */
  datatype Env = Env(
    fetch: Url -> Option<Bytes>,
    extract: Bytes -> Option<seq<Anchor>>,
    parse: string -> Option<Url>,
    join: (Url, string) -> Option<Url>)

  /** The URL sent for one href: the href itself when it parses as an absolute
      URL, otherwise its join against the page, otherwise nothing. */
  function Resolve(env: Env, page: Url, href: string): (r: Option<Url>)
    ensures env.parse(href).Some? ==> r == env.parse(href)
    ensures env.parse(href).None? ==> r == env.join(page, href)
    ensures r.None? <==> env.parse(href).None? && env.join(page, href).None?
  {
    match env.parse(href)
    case Some(absolute) => Some(absolute)
    case None => env.join(page, href)
  }

  /** The URLs sent for one anchor: none or one. */
  function AnchorLinks(env: Env, page: Url, anchor: Anchor): (r: seq<Url>)
    ensures |r| <= 1
    ensures r == [] <==> anchor.href.None? || Resolve(env, page, anchor.href.value).None?
    ensures r != [] ==> r == [Resolve(env, page, anchor.href.value).value]
  {
    match anchor.href
    case None => []
    case Some(href) =>
      match Resolve(env, page, href)
      case None => []
      case Some(target) => [target]
  }

  /** The URLs sent for a sequence of anchors, in anchor order. */
  function Links(env: Env, page: Url, anchors: seq<Anchor>): (r: seq<Url>)
    ensures |r| <= |anchors|
  {
    if anchors == [] then [] else AnchorLinks(env, page, anchors[0]) + Links(env, page, anchors[1..])
  }

  /** Resolving two runs of anchors one after the other sends the links of the
      first run followed by those of the second. */
  lemma {:induction false} LinksAppend(env: Env, page: Url, a: seq<Anchor>, b: seq<Anchor>)
    ensures Links(env, page, a + b) == Links(env, page, a) + Links(env, page, b)
    decreases |a|
  {
    if a == [] {
      assert a + b == b;
    } else {
      assert (a + b)[1..] == a[1..] + b;
      LinksAppend(env, page, a[1..], b);
    }
  }

  /** A URL is sent for a page exactly when some anchor's href resolves to it. */
  lemma {:induction false} LinksMembership(env: Env, page: Url, anchors: seq<Anchor>, target: Url)
    ensures target in Links(env, page, anchors) <==>
            exists i :: 0 <= i < |anchors| && anchors[i].href.Some? &&
                        Resolve(env, page, anchors[i].href.value) == Some(target)
    decreases |anchors|
  {
    if anchors != [] {
      LinksMembership(env, page, anchors[1..], target);
      if target in Links(env, page, anchors[1..]) {
        var i :| 0 <= i < |anchors[1..]| && anchors[1..][i].href.Some? &&
                 Resolve(env, page, anchors[1..][i].href.value) == Some(target);
        assert anchors[i + 1] == anchors[1..][i];
      }
      if exists i :: 0 <= i < |anchors| && anchors[i].href.Some? &&
                     Resolve(env, page, anchors[i].href.value) == Some(target) {
        var i :| 0 <= i < |anchors| && anchors[i].href.Some? &&
                 Resolve(env, page, anchors[i].href.value) == Some(target);
        if i > 0 {
          assert anchors[1..][i - 1] == anchors[i];
        }
      }
    }
  }

  /** Everything `crawler_work` sends for a page it has fetched: nothing on a
      transport error or a parse failure, otherwise the links of its anchors
      resolved against the page URL. */
  function PageLinks(env: Env, page: Url): (r: seq<Url>)
    ensures env.fetch(page).None? ==> r == []
    ensures env.fetch(page).Some? && env.extract(env.fetch(page).value).None? ==> r == []
    ensures env.fetch(page).Some? && env.extract(env.fetch(page).value).Some? ==>
              r == Links(env, page, env.extract(env.fetch(page).value).value)
  {
    match env.fetch(page)
    case None => []
    case Some(body) =>
      match env.extract(body)
      case None => []
      case Some(anchors) => Links(env, page, anchors)
  }
}
