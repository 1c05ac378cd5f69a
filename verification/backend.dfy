/** The engine's view of the text-generation service: where its API lives,
    what is asked of it, and the fail-soft completion (`_generate_completion`). */
module Backend {
  import opened Strings
  import opened Links

  const VersionSegment := "/v1/"

  /** Base address used when `OLLAMA_BASE_URL` is not set:
      `http://localhost:11434/v1/`. */
  const DefaultAuthority := "localhost:11434"
  const DefaultBaseUrl := "http://" + DefaultAuthority + VersionSegment

  /** `ollama_api_url`: the base address with every `/v1/` removed, wherever
      it occurs. An address without the segment is kept as it is; one
      with it gets shorter by at least the segment. */
  function ApiUrl(base: string): (api: string)
    ensures !Contains(base, VersionSegment) ==> api == base
    ensures Contains(base, VersionSegment) ==> |api| + |VersionSegment| <= |base|
  {
    ReplaceAll(base, VersionSegment, "")
  }

  /** The API root is the base address split at `/v1/` and joined back
      without it. */
  lemma ApiUrlMatchesSplitJoin(base: string)
    ensures ApiUrl(base) == Join(Split(base, VersionSegment), "")
  {
    ReplaceAllIsJoinOfSplit(base, VersionSegment, "");
  }

  /** Where the pattern does not start, the scan keeps the character and
      moves on. */
  lemma ScanPast(s: string, p: string, r: string)
    requires |p| > 0 && |s| >= |p| && !StartsWith(s, p)
    ensures ReplaceAll(s, p, r) == [s[0]] + ReplaceAll(s[1..], p, r)
  {
  }

  /** After a slash that follows the authority's leading slashes, `/v1/`
      can only start if the authority is exactly `v1`. */
  lemma NoSegmentAtAuthority(authority: string)
    requires authority != "v1" && '/' !in authority
    ensures !StartsWith("/" + authority + VersionSegment, VersionSegment)
  {
    var x := "/" + authority + VersionSegment;
    StartsWithIffPrefix(x, VersionSegment);
    if |authority| >= 3 {
      assert x[3] == authority[2];
    } else if |authority| == 2 {
      assert x[1..3] == authority;
    } else if |authority| == 1 {
      assert x[2] == '/';
    } else {
      assert x[1] == '/';
    }
  }

  /** The authority followed by `/v1/` loses exactly the segment. */
  lemma SegmentAfterAuthority(authority: string)
    requires '/' !in authority
    ensures ReplaceAll(authority + VersionSegment, VersionSegment, "") == authority
  {
    var p := VersionSegment;
    ReplaceAllSkips(authority, p, p, "");
    assert p == p + "";
    ReplaceAllHits(p, "", "");
  }

  /** A slash directly before another slash cannot start `/v1/`. */
  lemma SlashBeforeSlash(y: string)
    requires |y| >= 3 && y[0] == '/'
    ensures ReplaceAll("/" + y, VersionSegment, "") == "/" + ReplaceAll(y, VersionSegment, "")
  {
    var x := "/" + y;
    StartsWithIffPrefix(x, VersionSegment);
    assert x[..4][1] == '/';
    ScanPast(x, VersionSegment, "");
    assert x[1..] == y;
  }

  /** After the slash before the authority, `/v1/` cannot start (the
      authority is not `v1`), so only the final segment goes. */
  lemma SegmentAfterSlash(authority: string)
    requires authority != "v1" && '/' !in authority
    ensures ReplaceAll("/" + authority + VersionSegment, VersionSegment, "") == "/" + authority
  {
    var x := "/" + authority + VersionSegment;
    NoSegmentAtAuthority(authority);
    ScanPast(x, VersionSegment, "");
    assert x[1..] == authority + VersionSegment;
    SegmentAfterAuthority(authority);
    assert ReplaceAll(x[1..], VersionSegment, "") == authority;
    assert [x[0]] + authority == "/" + authority;
  }

  /** After the two slashes of the scheme, the scan passes both slashes and
      the authority and removes only the final segment. */
  lemma SegmentAfterSlashes(authority: string)
    requires authority != "v1" && '/' !in authority
    ensures ReplaceAll("//" + authority + VersionSegment, VersionSegment, "") == "//" + authority
  {
    var y := "/" + authority + VersionSegment;
    assert "//" + authority + VersionSegment == "/" + y;
    SlashBeforeSlash(y);
    SegmentAfterSlash(authority);
  }

  /** A base address `http://<authority>/v1/`, with no slash in the
      authority, has API root `http://<authority>`, unless the authority is
      `v1` itself: then the `/v1/` right after `http:/` is the one removed. */
  lemma VersionedBaseApiUrl(authority: string)
    requires authority != "v1" && '/' !in authority
    ensures ApiUrl("http://" + authority + VersionSegment) == "http://" + authority
  {
    var x := "//" + authority + VersionSegment;
    assert "http://" + authority + VersionSegment == "http:" + x;
    ReplaceAllSkips("http:", x, VersionSegment, "");
    SegmentAfterSlashes(authority);
    assert "http:" + ("//" + authority) == "http://" + authority;
  }

  /** A slash, the segment and a remainder too short to hold another lose
      just the segment. */
  lemma SegmentAfterOneSlash(rest: string)
    requires |rest| < |VersionSegment|
    ensures ReplaceAll("/" + VersionSegment + rest, VersionSegment, "") == "/" + rest
  {
    var p := VersionSegment;
    var y := p + rest;
    assert "/" + p + rest == "/" + y;
    SlashBeforeSlash(y);
    ReplaceAllHits(p, rest, "");
    ShorterLacks(rest, p);
    assert ReplaceAll(y, p, "") == rest;
  }

  /** The one authority the rule above excludes: in `http://v1/v1/` the
      scan removes the `/v1/` that starts at the scheme's second slash, and
      what follows is too short to hold another, leaving `http:/v1/`. */
  lemma AuthorityV1Collapses()
    // The literal is let-bound so the solver does not unfold the string
    // functions over it character by character.
    ensures var a := "v1"; ApiUrl("http://" + a + VersionSegment) == "http:/" + a + "/"
  {
    var x := "/" + VersionSegment + "v1/";
    assert "http://" + "v1" + VersionSegment == "http:" + x;
    ReplaceAllSkips("http:", x, VersionSegment, "");
    SegmentAfterOneSlash("v1/");
  }

  /** With the default base address the API root is `http://localhost:11434`. */
  lemma DefaultApiUrl()
    ensures ApiUrl(DefaultBaseUrl) == "http://" + DefaultAuthority
  {
    VersionedBaseApiUrl(DefaultAuthority);
  }

  /** What the engine asks the model for; the prompt texts themselves are
      opaque and are not modelled. */
  datatype Request = PageRequest(site: string, path: string) | SearchRequest(query: string)

  /** Outcome of one `/api/chat` call: the returned content (seen through its
      parse) or a request failure (`RequestException`). */
  datatype Reply = Content(doc: Document) | RequestFailed

  /** The service as an oracle: the reply to a request is a function of the
      request and of how many calls were made before it, so two calls with
      the same request may answer differently. */
  type Generator = (Request, nat) -> Reply

  /** The fixed page returned in place of content when a request fails. */
  const ErrorHtml := "<!DOCTYPE html><html><body><h1>Error generating page</h1></body></html>"

  /** The error page seen through its parse: markup without any anchor.
      Its serialisation after formatting is not modelled. */
  const ErrorPage: Document := [Markup(ErrorHtml)]

  /** A reply the engine can format: content whose anchors all carry `href`. */
  predicate Usable(reply: Reply) {
    reply.Content? ==> WellFormed(reply.doc)
  }

  /** `_generate_completion`: a request failure is not raised. Content is
      passed on unchanged; a failed request becomes the fixed error page,
      whose nodes link formatting leaves as they are. */
  function Complete(reply: Reply): (page: Document)
    ensures reply.Content? ==> page == reply.doc
    ensures reply.RequestFailed? ==> page == ErrorPage
    ensures Usable(reply) ==> WellFormed(page)
    ensures reply.RequestFailed? ==> FormatPage(page) == page
  {
    match reply
    case Content(doc) => doc
    case RequestFailed => ErrorPage
  }
}
