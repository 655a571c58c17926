/**
 * `perform_web_search` in backend/gemini_client.py: the hits that the
 * search library yields are filtered down to well-formed results. The
 * library itself is an oracle: for a query and a result cap it yields a
 * sequence of hits and then either finishes or raises.
 */
module WebSearch {
  import opened PyText

  /** One hit as the search library yields it: not a dictionary at all, or
      a dictionary whose keys may be missing (or hold a falsy value). */
  datatype RawHit =
    | NotADict
    | Dict(title: Option<string>, href: Option<string>, body: Option<string>)

  /** A result handed on to the prompt: title and href are never empty. */
  datatype SearchResult = SearchResult(title: string, href: string, body: string)

  /** What one call of the search library does: the hits it yields, and
      whether it raises after yielding them. */
  datatype SearchFeed = SearchFeed(hits: seq<RawHit>, raises: bool)

  /** The result kept for one hit, if any. */
  function Keep(hit: RawHit): Option<SearchResult> {
    match hit
    case NotADict => None
    case Dict(title, href, body) =>
      var t, h, b := title.GetOr(""), href.GetOr(""), body.GetOr("");
      if t != "" && h != "" then Some(SearchResult(t, h, b)) else None
  }

  /** The results kept from `hits`, in the order the hits came. */
  function KeptHits(hits: seq<RawHit>): seq<SearchResult>
    decreases |hits|
  {
    if hits == [] then []
    else
      var last := hits[|hits| - 1];
      KeptHits(hits[..|hits| - 1]) + (if Keep(last).Some? then [Keep(last).value] else [])
  }

  /** What `perform_web_search` returns for one feed: an exception anywhere
      throws away what was already collected. */
  function SearchOutcome(feed: SearchFeed): seq<SearchResult> {
    if feed.raises then [] else KeptHits(feed.hits)
  }

  /** The filter loop of `perform_web_search`. */
  method PerformWebSearch(query: string, maxResults: nat, search: (string, nat) -> SearchFeed)
    returns (results: seq<SearchResult>)
    ensures results == SearchOutcome(search(query, maxResults))
  {
    var feed := search(query, maxResults);
    results := [];
    for i := 0 to |feed.hits|
      invariant results == KeptHits(feed.hits[..i])
    {
      assert feed.hits[..i + 1][..i] == feed.hits[..i];
      var hit := feed.hits[i];
      if hit.Dict? {
        var title := hit.title.GetOr("");
        var href := hit.href.GetOr("");
        var body := hit.body.GetOr("");
        if title != "" && href != "" {
          results := results + [SearchResult(title, href, body)];
        }
      }
    }
    assert feed.hits[..|feed.hits|] == feed.hits;
    if feed.raises {
      results := [];
    }
  }

  /** Filtering commutes with concatenation: the relative order of the
      kept hits is the order of the feed. */
  lemma {:induction false} KeptHitsAppend(a: seq<RawHit>, b: seq<RawHit>)
    ensures KeptHits(a + b) == KeptHits(a) + KeptHits(b)
    decreases |b|
  {
    if b != [] {
      var n := |b|;
      assert (a + b)[..|a + b| - 1] == a + b[..n - 1];
      KeptHitsAppend(a, b[..n - 1]);
    } else {
      assert a + b == a;
    }
  }

  /** Filtering never adds results. */
  lemma {:induction false} KeptHitsShrinks(hits: seq<RawHit>)
    ensures |KeptHits(hits)| <= |hits|
    decreases |hits|
  {
    if hits != [] {
      KeptHitsShrinks(hits[..|hits| - 1]);
    }
  }

  /** `r` is what the filter makes of `hit`: a dictionary whose title and
      href are non-empty, with a missing body read as the empty string. */
  predicate Yields(hit: RawHit, r: SearchResult) {
    hit.Dict? &&
    r.title == hit.title.GetOr("") && r.title != "" &&
    r.href == hit.href.GetOr("") && r.href != "" &&
    r.body == hit.body.GetOr("")
  }

  /** A result is kept exactly when some hit of the feed yields it. */
  lemma {:induction false} KeptHitsMembers(hits: seq<RawHit>, r: SearchResult)
    ensures r in KeptHits(hits) <==> exists i :: 0 <= i < |hits| && Yields(hits[i], r)
    decreases |hits|
  {
    if hits != [] {
      var n := |hits|;
      var init := hits[..n - 1];
      KeptHitsMembers(init, r);
      if r in KeptHits(hits) && r !in KeptHits(init) {
        assert Yields(hits[n - 1], r);
      }
      if exists i :: 0 <= i < n && Yields(hits[i], r) {
        var i :| 0 <= i < n && Yields(hits[i], r);
        if i == n - 1 {
          assert Keep(hits[i]) == Some(r);
        } else {
          assert init[i] == hits[i];
        }
      }
    }
  }
}
