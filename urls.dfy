/** URLs as the crawler sees them, and the forbidden-host filter
    (`is_forbidden_url` in src/main.rs). */
module Urls {
  import opened Wrappers

  /** A parsed URL of the `url` crate: its serialization and what `host_str()`
      returns. Two values are equal when both fields are. The crate derives the
      host from the serialization, so for the URLs it produces this is the
      same as comparing serializations; the model does not tie the two fields
      together. */
  datatype Url = Url(serialization: string, host: Option<string>)

  /** `pat` occurs in `s` starting at position `i`. */
  ghost predicate OccursAt(s: string, pat: string, i: nat)
  {
    i + |pat| <= |s| && s[i..i + |pat|] == pat
  }

  /** `str::contains`: case-sensitive substring search. */
  function Contains(s: string, pat: string): (r: bool)
    ensures r <==> exists i: nat :: OccursAt(s, pat, i)
    decreases |s|
  {
    if |pat| > |s| then
      assert forall i: nat :: !OccursAt(s, pat, i);
      false
    else if s[..|pat|] == pat then
      assert OccursAt(s, pat, 0);
      true
    else
      var r := Contains(s[1..], pat);
      assert forall i: nat :: OccursAt(s[1..], pat, i) <==> OccursAt(s, pat, i + 1) by {
        forall i: nat ensures OccursAt(s[1..], pat, i) <==> OccursAt(s, pat, i + 1) {
          if i + |pat| <= |s[1..]| {
            assert s[1..][i..i + |pat|] == s[i + 1..i + 1 + |pat|];
          }
        }
      }
      assert !OccursAt(s, pat, 0);
      assert forall i: nat :: OccursAt(s, pat, i) ==> i > 0 && OccursAt(s[1..], pat, i - 1);
      r
  }

  /** The host substrings that make a URL forbidden. */
  const GOOGLE := "google"
  const YOUTUBE := "youtube"

  /** The filter applied to every message before it may be admitted: a URL is
      forbidden exactly when it has a host and that host contains "google" or
      "youtube" (case-sensitive). The path is not looked at. */
  function IsForbidden(url: Url): (r: bool)
    ensures r <==> url.host.Some? &&
                   exists i: nat :: OccursAt(url.host.value, GOOGLE, i) || OccursAt(url.host.value, YOUTUBE, i)
    ensures url.host.None? ==> !r
  {
    match url.host
    case None => false
    case Some(host) => Contains(host, GOOGLE) || Contains(host, YOUTUBE)
  }

  /** No occurrence of `pat` can start where its first two characters are absent. */
  lemma NoOccurrenceWithoutFirstPair(s: string, pat: string)
    requires |pat| >= 2
    requires forall i :: 0 <= i < |s| - 1 ==> s[i] != pat[0] || s[i + 1] != pat[1]
    ensures forall i: nat :: !OccursAt(s, pat, i)
  {
    forall i: nat | i + |pat| <= |s| ensures !OccursAt(s, pat, i) {
      assert s[i..i + |pat|][0] == s[i] && s[i..i + |pat|][1] == s[i + 1];
    }
  }

  /** A host with "google" or "youtube" anywhere in it is forbidden; the
      crawler's default seed host is not; a URL without a host never is. */
  lemma ForbiddenHostExamples()
    ensures IsForbidden(Url("https://www.google.com/", Some("www.google.com")))
    ensures IsForbidden(Url("https://m.youtube.com/watch", Some("m.youtube.com")))
    ensures !IsForbidden(Url("https://doc.rust-lang.org/", Some("doc.rust-lang.org")))
    ensures !IsForbidden(Url("mailto:google@example.com", None))
  {
    assert OccursAt("www.google.com", GOOGLE, 4);
    assert OccursAt("m.youtube.com", YOUTUBE, 2);
    var host := "doc.rust-lang.org";
    NoOccurrenceWithoutFirstPair(host, GOOGLE);
    NoOccurrenceWithoutFirstPair(host, YOUTUBE);
  }

  /** The match is case-sensitive: an upper-case host is let through. The
      `url` crate lowercases the hosts of http and https URLs, so this case
      arises only under schemes whose host it keeps as written. */
  lemma UpperCaseHostAllowed()
    ensures !IsForbidden(Url("foo://GOOGLE.COM/", Some("GOOGLE.COM")))
  {
    var host := "GOOGLE.COM";
    NoOccurrenceWithoutFirstPair(host, GOOGLE);
    NoOccurrenceWithoutFirstPair(host, YOUTUBE);
  }
}
