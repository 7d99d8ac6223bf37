/** The per-URL admission step of the crawler (`crawler_work`) and one worker's
    loop around it, run sequentially: a shared set of claimed URLs, a FIFO
    frontier standing for the channel, and a log of the fetches performed. */
module Crawl {
  import opened Wrappers
  import opened Urls
  import opened Pages

  /** The crawler's state: the `checked` set, the messages waiting in the
      channel, and (for stating properties) every URL fetched, in order. */
  datatype State = State(checked: set<Url>, frontier: seq<Url>, fetched: seq<Url>)

  /** The state right after the seed has been sent and before any worker runs. */
  function Initial(seed: Url): (s: State)
    ensures s.checked == {} && s.fetched == [] && s.frontier == [seed]
  {
    State({}, [seed], [])
  }

  /** A message passes the filter and wins the insertion into `checked`: only
      then is the URL fetched. */
  predicate Admits(checked: set<Url>, message: Url)
  {
    !IsForbidden(message) && message !in checked
  }

  /** `crawler_work` on one message. A forbidden or already-claimed URL changes
      nothing; otherwise the URL is claimed, fetched once, and the links of its
      page are appended to the frontier. */
  function AfterWork(env: Env, s: State, message: Url): (r: State)
    ensures r.checked == s.checked + (if IsForbidden(message) then {} else {message})
    ensures !Admits(s.checked, message) ==> r == s
    ensures Admits(s.checked, message) ==>
              r.fetched == s.fetched + [message] && r.frontier == s.frontier + PageLinks(env, message)
    ensures IsForbidden(message) ==> r == s
    ensures !IsForbidden(message) ==> message in r.checked
  {
    if IsForbidden(message) then s
    else if message in s.checked then s
    else State(s.checked + {message}, s.frontier + PageLinks(env, message), s.fetched + [message])
  }

  /** One iteration of a worker's loop: receive the oldest message, then run
      `crawler_work` on it. With nothing to receive the state stays as it is. */
  function AfterStep(env: Env, s: State): (r: State)
    ensures s.frontier == [] ==> r == s
    ensures s.checked <= r.checked && s.fetched <= r.fetched && |r.fetched| <= |s.fetched| + 1
    ensures s.frontier != [] ==> (|r.fetched| == |s.fetched| + 1 <==> Admits(s.checked, s.frontier[0]))
    ensures s.frontier != [] && !Admits(s.checked, s.frontier[0]) ==> r == s.(frontier := s.frontier[1..])
  {
    if s.frontier == [] then s
    else AfterWork(env, s.(frontier := s.frontier[1..]), s.frontier[0])
  }

  /** `n` iterations of the loop: at most `n` fetches, `checked` and the fetch
      log only grow. */
  function AfterSteps(env: Env, s: State, n: nat): (r: State)
    ensures s.checked <= r.checked && s.fetched <= r.fetched && |r.fetched| <= |s.fetched| + n
    decreases n
  {
    if n == 0 then s else AfterSteps(env, AfterStep(env, s), n - 1)
  }

  /** No URL appears twice in `log`. */
  ghost predicate Distinct(log: seq<Url>)
  {
    forall i, j :: 0 <= i < j < |log| ==> log[i] != log[j]
  }

  /** What the admission gate guarantees at every point of a crawl: nothing
      forbidden is ever claimed, the fetched URLs are exactly the claimed ones,
      and no URL has been fetched twice. */
  ghost predicate Inv(s: State)
  {
    (forall u :: u in s.checked ==> !IsForbidden(u)) &&
    (forall u :: u in s.checked <==> u in s.fetched) &&
    Distinct(s.fetched)
  }

  /** `crawler_work` keeps the invariant, whatever the message. */
  lemma WorkInv(env: Env, s: State, message: Url)
    requires Inv(s)
    ensures Inv(AfterWork(env, s, message))
  {
    var r := AfterWork(env, s, message);
    if Admits(s.checked, message) {
      forall i, j | 0 <= i < j < |r.fetched| ensures r.fetched[i] != r.fetched[j] {
        if j == |s.fetched| {
          assert r.fetched[i] == s.fetched[i] && s.fetched[i] in s.checked;
        }
      }
    }
  }

  /** The loop keeps the invariant over any number of iterations: over a whole
      crawl no URL is fetched twice and no forbidden URL is ever claimed. */
  lemma {:induction false} StepsInv(env: Env, s: State, n: nat)
    requires Inv(s)
    ensures Inv(AfterSteps(env, s, n))
    decreases n
  {
    if n > 0 {
      if s.frontier != [] {
        WorkInv(env, s.(frontier := s.frontier[1..]), s.frontier[0]);
      }
      StepsInv(env, AfterStep(env, s), n - 1);
    }
  }

  /** Over any number of iterations `checked` only grows, the fetch log only
      grows at its end, and every URL added to it was new to `checked` and
      allowed by the filter. */
  lemma {:induction false} StepsMonotone(env: Env, s: State, n: nat)
    ensures s.checked <= AfterSteps(env, s, n).checked
    ensures s.fetched <= AfterSteps(env, s, n).fetched
    ensures forall i :: |s.fetched| <= i < |AfterSteps(env, s, n).fetched| ==>
              Admits(s.checked, AfterSteps(env, s, n).fetched[i])
    decreases n
  {
    if n > 0 {
      var t := AfterStep(env, s);
      StepsMonotone(env, t, n - 1);
      var r := AfterSteps(env, s, n);
      assert r == AfterSteps(env, t, n - 1);
      forall i | |s.fetched| <= i < |r.fetched| ensures Admits(s.checked, r.fetched[i]) {
        if i < |t.fetched| {
          assert r.fetched[i] == t.fetched[i];
        } else {
          assert Admits(t.checked, r.fetched[i]);
        }
      }
    }
  }

  /** Once claimed, a URL is never fetched again, whether or not its fetch
      succeeded: a transport failure is not retried. */
  lemma NeverRefetched(env: Env, s: State, n: nat, u: Url)
    requires u in s.checked
    ensures forall i :: |s.fetched| <= i < |AfterSteps(env, s, n).fetched| ==> AfterSteps(env, s, n).fetched[i] != u
  {
    StepsMonotone(env, s, n);
  }

  /** A received message that passes the filter and is new is claimed,
      fetched, and replaced in the frontier by its page's links. */
  lemma FreshAdmitted(env: Env, s: State)
    requires s.frontier != [] && Admits(s.checked, s.frontier[0])
    ensures AfterStep(env, s) ==
              State(s.checked + {s.frontier[0]}, s.frontier[1..] + PageLinks(env, s.frontier[0]), s.fetched + [s.frontier[0]])
  {
  }

  /** A message the frontier offers when its URL is already claimed is
      dropped: no fetch, nothing claimed, nothing sent. */
  lemma DuplicateDropped(env: Env, s: State)
    requires s.frontier != [] && s.frontier[0] in s.checked
    ensures AfterStep(env, s) == s.(frontier := s.frontier[1..])
  {
  }

  /** A URL is accounted for in `s`: the filter rejects it, it is claimed, or
      it still waits in the frontier. */
  ghost predicate Accounted(s: State, u: Url)
  {
    IsForbidden(u) || u in s.checked || u in s.frontier
  }

  /** Every link of every claimed page is accounted for. Once the frontier is
      empty this says the claimed set is closed under following links. */
  ghost predicate Closed(env: Env, s: State)
  {
    forall u, v :: u in s.checked && v in PageLinks(env, u) ==> Accounted(s, v)
  }

  /** An iteration of the loop loses no URL: what was accounted for stays so. */
  lemma StepKeepsAccounted(env: Env, s: State, u: Url)
    requires Accounted(s, u)
    ensures Accounted(AfterStep(env, s), u)
  {
    if s.frontier != [] && u !in s.checked && !IsForbidden(u) {
      var r := AfterStep(env, s);
      if u != s.frontier[0] {
        var k :| 0 <= k < |s.frontier| && s.frontier[k] == u;
        assert s.frontier[1..][k - 1] == u;
        assert u in r.frontier;
      }
    }
  }

  /** An iteration of the loop keeps the claimed set closed. */
  lemma StepKeepsClosed(env: Env, s: State)
    requires Closed(env, s)
    ensures Closed(env, AfterStep(env, s))
  {
    var r := AfterStep(env, s);
    forall u, v | u in r.checked && v in PageLinks(env, u) ensures Accounted(r, v) {
      if u in s.checked {
        StepKeepsAccounted(env, s, v);
      } else {
        assert u == s.frontier[0];
        assert r.frontier == s.frontier[1..] + PageLinks(env, u);
      }
    }
  }

  /** Sequential driver, standing for one worker (src/main.rs:104-109). */
  class Crawler {
    const env: Env
    var checked: set<Url>
    var frontier: seq<Url>
    /** Every URL fetched so far, in order. */
    ghost var fetched: seq<Url>

    ghost function Snapshot(): State
      reads this
    {
      State(checked, frontier, fetched)
    }

    ghost predicate Valid()
      reads this
    {
      Inv(Snapshot())
    }

    /** The shared state at start-up: an empty `checked` set and the seed as
        the only message. */
    constructor (env: Env, seed: Url)
      ensures this.env == env
      ensures Snapshot() == Initial(seed)
      ensures Valid()
    {
      this.env := env;
      checked := {};
      frontier := [seed];
      fetched := [];
    }

    /** `crawler_work`: filter, claim, fetch, then send every resolvable href
        of the page in anchor order. */
    method Work(message: Url)
      requires Valid()
      modifies this
      ensures Valid()
      ensures Snapshot() == AfterWork(env, old(Snapshot()), message)
    {
      WorkInv(env, Snapshot(), message);
      if IsForbidden(message) {
        return;
      }
      if message in checked {
        return;
      }
      checked := checked + {message};
      fetched := fetched + [message];
      var response := env.fetch(message);
      if response.None? {
        return;
      }
      var document := env.extract(response.value);
      if document.None? {
        return;
      }
      SendLinks(message, document.value);
    }

    /** The loop over a fetched page's anchor nodes: each href is sent as an
        absolute URL if it parses as one, else joined against the page URL if
        that succeeds, else dropped. Only the frontier changes. */
    method SendLinks(page: Url, anchors: seq<Anchor>)
      modifies this
      ensures checked == old(checked) && fetched == old(fetched)
      ensures frontier == old(frontier) + Links(env, page, anchors)
    {
      var i := 0;
      while i < |anchors|
        invariant 0 <= i <= |anchors|
        invariant checked == old(checked) && fetched == old(fetched)
        invariant frontier == old(frontier) + Links(env, page, anchors[..i])
      {
        match anchors[i].href {
          case None =>
          case Some(href) =>
            match env.parse(href) {
              case Some(absolute) =>
                frontier := frontier + [absolute];
              case None =>
                match env.join(page, href) {
                  case Some(joined) =>
                    frontier := frontier + [joined];
                  case None =>
                }
            }
        }
        assert frontier == old(frontier) + Links(env, page, anchors[..i]) + AnchorLinks(env, page, anchors[i]);
        LinksAppend(env, page, anchors[..i], [anchors[i]]);
        assert anchors[..i + 1] == anchors[..i] + [anchors[i]];
        i := i + 1;
      }
      assert anchors[..i] == anchors;
    }

    /** One iteration of the worker loop: take the oldest message, if any,
        and run `crawler_work` on it. */
    method Step() returns (received: bool)
      requires Valid()
      modifies this
      ensures Valid()
      ensures received <==> old(frontier) != []
      ensures Snapshot() == AfterStep(env, old(Snapshot()))
    {
      if frontier == [] {
        return false;
      }
      var message := frontier[0];
      frontier := frontier[1..];
      Work(message);
      return true;
    }

    /** Runs the loop until no message is left. This terminates when every
        message lies in a finite `universe` that holds every link of every
        allowed page in it. At the end every message ever waiting was
        rejected or claimed, and every link of a claimed page is forbidden or
        claimed itself. */
    method Crawl(ghost universe: set<Url>)
      requires Valid() && Closed(env, Snapshot())
      requires forall u :: u in frontier ==> u in universe
      requires forall u, v :: u in universe && !IsForbidden(u) && v in PageLinks(env, u) ==> v in universe
      modifies this
      ensures Valid() && Closed(env, Snapshot())
      ensures frontier == []
      ensures old(checked) <= checked && checked <= old(checked) + universe
      ensures forall u :: u in old(frontier) ==> IsForbidden(u) || u in checked
      ensures forall u, v :: u in checked && v in PageLinks(env, u) ==> IsForbidden(v) || v in checked
    {
      while frontier != []
        invariant Valid() && Closed(env, Snapshot())
        invariant forall u :: u in frontier ==> u in universe
        invariant old(checked) <= checked && checked <= old(checked) + universe
        invariant forall u :: u in old(frontier) ==> Accounted(Snapshot(), u)
        decreases universe - checked, |frontier|
      {
        ghost var before := Snapshot();
        ghost var message := frontier[0];
        assert message in universe;
        StepKeepsClosed(env, before);
        forall u | u in old(frontier) ensures Accounted(AfterStep(env, before), u) {
          StepKeepsAccounted(env, before, u);
        }
        var _ := Step();
      }
      forall u, v | u in checked && v in PageLinks(env, u) ensures IsForbidden(v) || v in checked {
        assert Accounted(Snapshot(), v);
        assert v !in frontier;
      }
    }
  }
}
