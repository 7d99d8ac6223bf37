# Crawler admission core, in Dafny

A model of the crawl engine of a small multi-threaded web crawler written in
Rust (`src/main.rs`). Each worker thread receives URLs from a shared channel
and runs `crawler_work` on each one:

1. A URL whose host contains `"google"` or `"youtube"` is dropped (`is_forbidden_url`).
2. The URL is inserted into the shared `checked` set. If it was already there, it is dropped.
3. The page is fetched. On a transport error nothing more happens.
4. The body is parsed as HTML. For every `<a>` with an `href` value, the worker sends one URL to the channel: the href itself if it parses as an absolute URL, otherwise its join against the page URL, otherwise nothing.

The model runs this sequentially:

- `Urls`: URLs and the forbidden-host filter.
- `Pages`: the foreign collaborators and how hrefs become URLs. The collaborators are the transport, the `tl` HTML parser, and `Url::parse` / `Url::join`. They are passed in as an `Env` of function values.
- `Crawl`: the admission step and one worker's loop. There is a pure specification (`State`, `AfterWork`, `AfterStep`, `AfterSteps`) with its invariants and lemmas. Beside it is the class `Crawler`, with fields `checked` and `frontier` (the channel as a FIFO sequence) and a ghost log `fetched` of fetch attempts. Its methods are proved against the specification.
- `Scenario`: a three-URL crawl worked through to the end.
- `StaleBuffer`: the body buffer as the source actually handles it (see Findings).

What the code does, and so what the model does:

- The filter looks only at the host; the path is never examined.
- The only forbidden host substrings are "google" and "youtube".
- No URL normalisation happens: the `checked` set is keyed on the whole URL, query and fragment included.

Page caching and word tallies do not exist in this code either.

## Model

| member | source | states |
|---|---|---|
| `Urls.Contains` | src/main.rs:13-19 | substring search is true exactly when the pattern occurs at some position of the host (case-sensitive) |
| `Urls.IsForbidden` | src/main.rs:12-23 | a URL is forbidden iff it has a host and "google" or "youtube" occurs in it; a URL without a host is never forbidden |
| `Urls.ForbiddenHostExamples` | src/main.rs:12-23 | hosts containing google/youtube anywhere are forbidden; the default seed host and host-less URLs are not |
| `Urls.UpperCaseHostAllowed` | src/main.rs:14-19 | the match is case-sensitive: a URL whose host string is "GOOGLE.COM" (a non-http scheme, whose host the url crate keeps as written) passes the filter |
| `Pages.Resolve` | src/main.rs:65-74 | an href that parses alone yields exactly that URL; otherwise the result is the join against the page; none only when both fail |
| `Pages.AnchorLinks` | src/main.rs:59-76 | one anchor sends at most one URL, and none exactly when it has no href value or its href resolves to nothing; otherwise exactly the resolved URL |
| `Pages.Links` | src/main.rs:57-79 | a page never sends more URLs than it has anchors |
| `Pages.LinksAppend` | src/main.rs:58-78 | links are sent in anchor order: the links of a concatenation of anchor runs are the concatenation of their links |
| `Pages.LinksMembership` | src/main.rs:58-78 | a URL is sent for a page iff some anchor's href resolves to it |
| `Pages.PageLinks` | src/main.rs:42-57 | a transport error or a parse failure sends nothing; otherwise the page's anchors' links are sent |
| `Crawl.Initial` | src/main.rs:88-95 | the crawl starts with an empty `checked` set, no fetch, and the seed as the only message |
| `Crawl.AfterWork` | src/main.rs:31-44 | a forbidden or already-claimed message changes nothing (no fetch, nothing sent); otherwise the URL is claimed, fetched once, and exactly its page's links are appended; `checked` only grows |
| `Crawl.AfterStep` | src/main.rs:105-109 | one loop iteration: an empty channel changes nothing; a received message is fetched (one fetch) exactly when it passes the filter and is not yet claimed, and otherwise only leaves the channel; `checked` and the fetch log only grow |
| `Crawl.AfterSteps` | src/main.rs:105-109 | `n` iterations perform at most `n` fetches, and `checked` and the fetch log only grow |
| `Crawl.WorkInv` | src/main.rs:33-40 | one step keeps the invariant: nothing forbidden is claimed, the fetched URLs are exactly the claimed ones, none fetched twice |
| `Crawl.StepsInv` | src/main.rs:105-109 | over any number of loop iterations, no URL is fetched twice and no forbidden URL is claimed or fetched |
| `Crawl.StepsMonotone` | src/main.rs:37-44 | over any number of iterations `checked` only grows, the fetch log only grows at its end, and each new fetch was of a URL that passed the filter and was not yet claimed |
| `Crawl.NeverRefetched` | src/main.rs:37-44 | once claimed, a URL is never fetched again, even after a transport failure |
| `Crawl.FreshAdmitted` | src/main.rs:33-79 | a received message that passes the filter and is new is claimed and fetched, and its page's links are appended after the remaining messages |
| `Crawl.DuplicateDropped` | src/main.rs:37-40 | a received message already in `checked` only leaves the channel: no claim, no fetch, nothing sent |
| `Crawl.StepKeepsAccounted` | src/main.rs:105-107 | a loop iteration loses no URL: a URL that was forbidden, claimed or waiting stays so |
| `Crawl.StepKeepsClosed` | src/main.rs:105-107 | every link of every claimed page stays forbidden, claimed or waiting |
| `Crawl.Crawler.constructor` | src/main.rs:88-95 | the shared state at start-up, satisfying the invariant |
| `Crawl.Crawler.Work` | src/main.rs:25-81 | `crawler_work` in place: the new state is `AfterWork` of the old one, and the invariant is kept |
| `Crawl.Crawler.SendLinks` | src/main.rs:57-79 | the loop over anchors appends exactly the page's links in anchor order and changes nothing else |
| `Crawl.Crawler.Step` | src/main.rs:105-109 | one receive and `crawler_work`: the new state is `AfterStep` of the old one; it reports whether a message was received |
| `Crawl.Crawler.Crawl` | src/main.rs:105-121 | draining the channel terminates on a finite link-closed web. Afterwards every message ever waiting was rejected or claimed, and every link of a claimed page is forbidden or claimed |
| `Scenario.Filtered` | src/main.rs:12-23 | the scenario's two example.com URLs pass the filter, google.com does not |
| `Scenario.CycleCrawledOnce` | src/main.rs:25-81 | seed A links to B (relative) and google (absolute), B links back to A: after four iterations the channel is empty and A and B were each fetched exactly once, google never |
| `StaleBuffer.AppendingFetch` | src/main.rs:42-57 | as written, the body is appended to the worker's buffer and the whole buffer is parsed; on an empty buffer this sends exactly the page's links |
| `StaleBuffer.AppendingFetchReplaysBuffer` | src/main.rs:42-57 | with a parser that reads concatenated documents in order, the anchors of every earlier page are sent again, resolved against the current page |
| `StaleBuffer.StaleLinkSent` | src/main.rs:42-57 | a worker that fetches https://a.example/docs/first (one anchor "next", whose own link is https://a.example/docs/next) and then the anchor-less https://b.example/second sends https://b.example/next, a link no page contains |

## Left out

- Threads, `Arc<Mutex<..>>` locking and the channel's concurrency (src/main.rs:88-111) are left out. The model runs one sequential worker. In the source the insertion into `checked` is atomic under the lock, so the at-most-once result does not depend on the interleaving.
- The `working` counter (`AtomicUsize`, relaxed ordering) and the polling termination loop (src/main.rs:94, 106, 108, 113-124) are left out. Their correctness is a concurrency property. In one sequential worker the counter is always back to zero between iterations, and "done" is "the frontier is empty", which is what `Crawl.Crawler.Crawl` runs to.
- `Crawl.Crawler.Crawl` requires a finite universe of URLs that is closed under links. On a web without one, the source runs forever; the model does not describe that run.
- Urls.Url: does not tie `host` to `serialization`. The url crate derives the host from the serialization and lowercases the hosts of http and https URLs, so such hosts reach the filter lowercased; the model lets any host string through to the filter.
- The network GET (`request::get`), the `tl` parser, `Url::parse` and `Url::join` are external code. They are fields of `Pages.Env`, and the model does not reimplement URL resolution.
- `Pages.Env` treats fetch as a fixed function of the URL. Each URL is fetched at most once, so no run can tell this apart from a changing web.
- The HTTP status code is not modelled: any response counts as a successful fetch.
- The unchecked byte-to-text cast (src/main.rs:49) is left out. The model's parser takes bytes directly.
- In `Pages.Anchor`, a node that is not a tag, an anchor without an `href` attribute, and an `href` without a value are one case (`href == None`). The source treats all three the same way.
- CLI arguments, the default seed, thread-count sizing and all printing (src/main.rs:10, 51-52, 83-92, 126-138) are left out.
- The per-worker buffer is modelled only in `StaleBuffer`. Partial bodies that a failed transfer leaves in it are not modelled.

## Findings

| source | as written | input that shows it | evidently intended | confidence | as-written member | corrected member |
|---|---|---|---|---|---|---|
| src/main.rs:42-54 | each worker's `buffer` (created once per thread at line 104) is passed to `request::get`, which appends the body, and is never cleared; the whole buffer is parsed as the current page | a worker fetches https://a.example/docs/first (one anchor `next`), then the anchor-less https://b.example/second: joining `next` against the second page, as `Url::join` does, it sends https://b.example/next, a link no page has | parse only the body just fetched (clear the buffer before each fetch) | medium, not executed | `StaleBuffer.StaleLinkSent` | `Crawl.AfterWork` |
