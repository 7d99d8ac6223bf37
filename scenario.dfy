/** A small crawl worked through to the end: a seed page links to a second
    page by a relative href and to a forbidden host by an absolute one; the
    second page links back to the seed. */
module Scenario {
  import opened Wrappers
  import opened Urls
  import opened Pages
  import opened Crawl

  const A := Url("https://example.com/a", Some("example.com"))
  const B := Url("https://example.com/b", Some("example.com"))
  const G := Url("https://google.com/x", Some("google.com"))

  /** Page A (body [0]) has anchors "/b" and "https://google.com/x"; page B
      (body [1]) has the anchor "/a"; only the absolute href parses alone. */
  const Web := Env(
    u => Some(if u == A then [0 as bv8] else [1 as bv8]),
    body => Some(if body == [0 as bv8]
                 then [Anchor(Some("/b")), Anchor(Some("https://google.com/x"))]
                 else [Anchor(Some("/a"))]),
    href => if href == "https://google.com/x" then Some(G) else None,
    (page, href) => if href == "/b" then Some(B) else if href == "/a" then Some(A) else None)

  lemma DistinctUrls()
    ensures A != B && A != G && B != G
  {
    assert A.serialization[20] == 'a' && B.serialization[20] == 'b';
    assert A.serialization[8] == 'e' && B.serialization[8] == 'e' && G.serialization[8] == 'g';
  }

  lemma Filtered()
    ensures !IsForbidden(A) && !IsForbidden(B) && IsForbidden(G)
  {
    NoOccurrenceWithoutFirstPair("example.com", GOOGLE);
    NoOccurrenceWithoutFirstPair("example.com", YOUTUBE);
    assert OccursAt("google.com", GOOGLE, 0);
  }

  lemma PageOfA()
    ensures PageLinks(Web, A) == [B, G]
  {
    var anchors := [Anchor(Some("/b")), Anchor(Some("https://google.com/x"))];
    assert Web.fetch(A) == Some([0 as bv8]);
    assert Web.extract([0 as bv8]) == Some(anchors);
    assert AnchorLinks(Web, A, anchors[0]) == [B];
    assert AnchorLinks(Web, A, anchors[1]) == [G];
    assert anchors[1..][1..] == [];
  }

  lemma PageOfB()
    ensures PageLinks(Web, B) == [A]
  {
    var anchors := [Anchor(Some("/a"))];
    DistinctUrls();
    assert Web.fetch(B) == Some([1 as bv8]);
    assert Web.extract([1 as bv8]) == Some(anchors);
    assert AnchorLinks(Web, B, anchors[0]) == [A];
  }

  /** A and then B are admitted when they are first received. */
  lemma AdmittedInTurn()
    ensures Admits({}, A) && Admits({A}, B)
  {
    Filtered();
    DistinctUrls();
  }

  lemma Rearranged()
    ensures {} + {A} == {A} && [A][1..] + [B, G] == [B, G] && [] + [A] == [A]
    ensures {A} + {B} == {A, B} && [B, G][1..] + [A] == [G, A] && [A] + [B] == [A, B]
  {
  }

  lemma FirstStep()
    ensures AfterStep(Web, Initial(A)) == State({A}, [B, G], [A])
  {
    AdmittedInTurn();
    FreshAdmitted(Web, Initial(A));
    PageOfA();
    Rearranged();
  }

  lemma SecondStep()
    ensures AfterStep(Web, State({A}, [B, G], [A])) == State({A, B}, [G, A], [A, B])
  {
    AdmittedInTurn();
    FreshAdmitted(Web, State({A}, [B, G], [A]));
    PageOfB();
    Rearranged();
  }

  lemma FirstTwoSteps()
    ensures AfterStep(Web, AfterStep(Web, Initial(A))) == State({A, B}, [G, A], [A, B])
  {
    FirstStep();
    SecondStep();
  }

  lemma LastTwoSteps()
    ensures AfterStep(Web, AfterStep(Web, State({A, B}, [G, A], [A, B]))) == State({A, B}, [], [A, B])
  {
    Filtered();
    var s3 := AfterStep(Web, State({A, B}, [G, A], [A, B]));
    assert s3 == State({A, B}, [A], [A, B]);
  }

  /** Four iterations drain the frontier: A and B are each fetched exactly
      once, in that order, the forbidden URL is never claimed, and the link
      back to A is dropped as a duplicate. */
  lemma CycleCrawledOnce()
    ensures AfterSteps(Web, Initial(A), 4) == State({A, B}, [], [A, B])
  {
    FirstTwoSteps();
    LastTwoSteps();
    var s2 := State({A, B}, [G, A], [A, B]);
    assert AfterSteps(Web, Initial(A), 4) == AfterSteps(Web, s2, 2);
  }
}
