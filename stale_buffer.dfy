/** The body buffer of a worker as src/main.rs handles it. Each worker owns one
    `Vec<u8>` for its whole life; `request::get` writes (appends) the response
    body into it and nothing ever clears it, so the text given to the HTML
    parser for a page is the concatenation of every body that worker has
    fetched so far. The rest of the model parses each page's own body. */
module StaleBuffer {
  import opened Wrappers
  import opened Urls
  import opened Pages

  /** A worker's buffer and the URLs it sends for the page just fetched. */
  datatype Fetched = Fetched(buffer: Bytes, sent: seq<Url>)

  /** Fetch and link extraction for an admitted URL, as written: the body is
      appended to the buffer and the whole buffer is parsed. */
  function AppendingFetch(env: Env, buffer: Bytes, url: Url): (r: Fetched)
    ensures env.fetch(url).None? ==> r == Fetched(buffer, [])
    ensures env.fetch(url).Some? ==> r.buffer == buffer + env.fetch(url).value
    ensures buffer == [] ==> r.sent == PageLinks(env, url)
  {
    match env.fetch(url)
    case None => Fetched(buffer, [])
    case Some(body) =>
      assert buffer == [] ==> buffer + body == body;
      var text := buffer + body;
      match env.extract(text)
      case None => Fetched(text, [])
      case Some(anchors) => Fetched(text, Links(env, url, anchors))
  }

  /** With a parser that reads a concatenation of documents as the anchors of
      the first followed by those of the second, every anchor of the pages
      fetched earlier is sent again, resolved against the current page URL,
      before the current page's own links. */
  lemma AppendingFetchReplaysBuffer(env: Env, buffer: Bytes, url: Url, earlier: seq<Anchor>)
    requires env.fetch(url).Some? && env.extract(env.fetch(url).value).Some?
    requires env.extract(buffer) == Some(earlier)
    requires env.extract(buffer + env.fetch(url).value) ==
               Some(earlier + env.extract(env.fetch(url).value).value)
    ensures AppendingFetch(env, buffer, url).sent == Links(env, url, earlier) + PageLinks(env, url)
  {
    LinksAppend(env, url, earlier, env.extract(env.fetch(url).value).value);
  }

  const First := Url("https://a.example/docs/first", Some("a.example"))
  const Second := Url("https://b.example/second", Some("b.example"))

  /** The serialization of a URL up to and including its last '/': the
      directory a relative path segment is resolved in. */
  function Directory(s: string): (d: string)
    ensures d <= s
    ensures d == [] || d[|d| - 1] == '/'
  {
    if s == [] then []
    else if s[|s| - 1] == '/' then s
    else Directory(s[..|s| - 1])
  }

  /** A path segment without '/' after a directory does not change it. */
  lemma {:induction false} DirectoryOfSegment(dir: string, segment: string)
    requires dir != [] && dir[|dir| - 1] == '/'
    requires forall i :: 0 <= i < |segment| ==> segment[i] != '/'
    ensures Directory(dir + segment) == dir
    decreases |segment|
  {
    if segment == [] {
      assert dir + segment == dir;
    } else {
      var shorter := segment[..|segment| - 1];
      assert (dir + segment)[..|dir + segment| - 1] == dir + shorter;
      DirectoryOfSegment(dir, shorter);
    }
  }

  /** A toy web: `First` has one anchor "next", `Second` has none; the parser
      finds one anchor per byte of its input; every href is a relative path
      segment, which `join` resolves, as `Url::join` does, by replacing the
      last segment of the page's path. */
  const Toy := Env(
    u => Some(if u == First then [1 as bv8] else []),
    body => Some(seq(|body|, _ => Anchor(Some("next")))),
    href => None,
    (page: Url, href: string) => Some(Url(Directory(page.serialization) + href, page.host)))

  const FirstNext := Url("https://a.example/docs/next", Some("a.example"))
  const SecondNext := Url("https://b.example/next", Some("b.example"))

  lemma FirstBuffered()
    ensures AppendingFetch(Toy, [], First).buffer == [1 as bv8]
  {
    assert Toy.fetch(First) == Some([1 as bv8]);
  }

  /** The parser finds the single anchor "next" in a one-byte buffer. */
  lemma OneAnchorParsed()
    ensures Toy.extract([1 as bv8]) == Some([Anchor(Some("next"))])
  {
    var anchors := [Anchor(Some("next"))];
    var parsed := Toy.extract([1 as bv8]).value;
    assert |parsed| == 1 && parsed[0] == anchors[0];
    assert parsed == anchors;
  }

  /** What the toy web sends for the anchor "next" on a page `dir + segment`. */
  lemma NextJoined(page: Url, dir: string, segment: string)
    requires page.serialization == dir + segment
    requires dir != [] && dir[|dir| - 1] == '/'
    requires forall i :: 0 <= i < |segment| ==> segment[i] != '/'
    ensures Links(Toy, page, [Anchor(Some("next"))]) == [Url(dir + "next", page.host)]
  {
    DirectoryOfSegment(dir, segment);
    assert Toy.parse("next") == None;
    assert Toy.join(page, "next") == Some(Url(dir + "next", page.host));
    assert AnchorLinks(Toy, page, Anchor(Some("next"))) == [Url(dir + "next", page.host)];
  }

  lemma FirstNextJoined()
    ensures Links(Toy, First, [Anchor(Some("next"))]) == [FirstNext]
  {
    var dir, segment := "https://a.example/docs/", "first";
    assert First.serialization == dir + segment;
    NextJoined(First, dir, segment);
    assert dir + "next" == FirstNext.serialization;
  }

  lemma SecondNextJoined()
    ensures Links(Toy, Second, [Anchor(Some("next"))]) == [SecondNext]
  {
    var dir, segment := "https://b.example/", "second";
    assert Second.serialization == dir + segment;
    NextJoined(Second, dir, segment);
    assert dir + "next" == SecondNext.serialization;
  }

  lemma FirstPageLink()
    ensures PageLinks(Toy, First) == [FirstNext]
  {
    assert Toy.fetch(First) == Some([1 as bv8]);
    OneAnchorParsed();
    FirstNextJoined();
  }

  lemma SecondPageEmpty()
    ensures PageLinks(Toy, Second) == []
  {
    assert First != Second;
    var empty: Bytes := [];
    assert Toy.fetch(Second) == Some(empty);
    assert |Toy.extract(empty).value| == 0;
  }

  lemma SecondSentAfterFirst()
    ensures AppendingFetch(Toy, [1 as bv8], Second).sent == [SecondNext]
  {
    assert First != Second;
    var buffer: Bytes := [1 as bv8];
    var empty: Bytes := [];
    assert Toy.fetch(Second) == Some(empty);
    assert buffer + empty == buffer;
    OneAnchorParsed();
    SecondNextJoined();
  }

  /** After fetching `First`, a worker that then fetches `Second` (a page
      without anchors) sends "https://b.example/next": `First`'s relative
      anchor resolved against the wrong page, a URL that no page links to. */
  lemma StaleLinkSent()
    ensures PageLinks(Toy, First) == [FirstNext] && PageLinks(Toy, Second) == []
    ensures AppendingFetch(Toy, AppendingFetch(Toy, [], First).buffer, Second).sent == [SecondNext]
    ensures SecondNext != FirstNext
  {
    FirstBuffered();
    FirstPageLink();
    SecondPageEmpty();
    SecondSentAfterFirst();
    assert SecondNext.host != FirstNext.host by {
      assert SecondNext.host.value[0] == 'b' && FirstNext.host.value[0] == 'a';
    }
  }
}
