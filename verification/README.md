# Dead Internet: the Reaper engine in Dafny

This project models the core of the Dead Internet `ReaperEngine`. The engine
invents a retro web page for any site and path a visitor asks for. It has the
page written by a local text-generation model, rewrites the page's links so they
stay inside the simulated web, and keeps the page in an in-memory database, so a
second visit to the same address returns the same page. Search pages are
generated on every request and never stored. On start-up the engine checks that
its model is present on the model server, pulls it if it is not, and retries a
bounded number of times while the server cannot be reached.

The model has six modules:

- `Wrappers`: the `Option` type.
- `Strings`: the Python string operations the engine relies on.
  - Substring test (`in`) is `Contains`.
  - `str.replace` is `ReplaceAll`: a single left-to-right pass that replaces
    every non-overlapping occurrence.
  - `ReplaceAll` is proved equal to a split-and-join reference
    (`Join(Split(s, p), r)`), where `Split` cuts at the leftmost occurrence each
    time.
- `Links`: `_format_page`.
  - A page is seen through its parse tree, flattened to a sequence of nodes.
  - A node is an anchor with an optional `href`, or other markup.
- `Backend`: the service-facing part.
  - `ollama_api_url` is derived from the base address.
  - The generation call is an oracle `Generator`, a function of the request
    and of the number of calls made before it. Its reply is content or a request
    failure.
  - `_generate_completion` turns a failure into the fixed error page.
- `Reaper`: the page database (`site -> path -> page`), `get_page` and
  `get_search`.
  - The engine state is the database plus a count of generation calls. This
    makes "the generator is not called" observable.
  - A run of many visits is a fold over the visits.
- `Startup`: `_ensure_model_available`.
  - Each loop iteration meets one abstract `Attempt`: a connection error, any
    other error, or a reached server with its tags status, its listed names, its
    pull status and the lines of its pull stream.
  - The loop is a state machine (`Probing(made)` or `Finished(result)`) folded
    over the attempts.

The model follows the code, including where it behaves unexpectedly:

- The API root is the base address with every `/v1/` removed, wherever it
  occurs. An address with `/v1/` in its middle loses that too.
- The availability check does not always end with a ready model.
  - A non-200 answer to the pull request ends the check normally
    (`Startup.RefusedPullReturns`).
  - If 30 pull streams each end without reporting `success`, the check also
    ends normally (`Startup.SilentStreamsExhaustBudget`).
  - In both cases the model may still be missing.
- The `mailto:` test is a substring test, so a link containing `mailto:`
  anywhere is kept.
- An already rooted link gets a second slash.

## Model

| member | source | states |
|---|---|---|
| Strings.ContainsIffOccurs | ReaperEngine.py:89 | The `in` test holds exactly when the pattern occurs at some position of the string. |
| Strings.ReplaceAll | ReaperEngine.py:91-92 | A string without the pattern comes back unchanged. Deleting the pattern never lengthens the string, and it shortens the string by at least the pattern's length when the pattern occurs. |
| Strings.FindFirstIsLeftmost | ReaperEngine.py:91-92 | The search for the pattern fails exactly when the pattern does not occur. A found index is an occurrence, and no earlier index is one. |
| Strings.SplitJoinRoundTrip | ReaperEngine.py:91-92 | Splitting at the pattern and joining with the pattern gives back the original string. |
| Strings.ReplaceAllIsJoinOfSplit | ReaperEngine.py:91-92 | Replacing the pattern equals splitting at every leftmost non-overlapping occurrence and joining with the replacement. |
| Links.RewriteHref | ReaperEngine.py:89-93 | The output equals the input exactly when the input contains `mailto:`. Every other output starts with `/`. |
| Links.RewriteMatchesSplitJoin | ReaperEngine.py:91-93 | A non-mail target becomes `/` followed by the target with every `http://` and then every `https://` split out and rejoined with nothing. |
| Links.MailtoAnywhereIsKept | ReaperEngine.py:89-90 | A target with `mailto:` anywhere inside it, not only as a prefix, is kept. |
| Links.PlainTargetIsRooted | ReaperEngine.py:91-93 | A target without `mailto:`, `http://` or `https://` is only prefixed with `/`. |
| Links.SchemeTargetIsRooted | ReaperEngine.py:91-93 | `http://` followed by a plain remainder becomes `/` followed by the remainder. |
| Links.ColonFreeTargetIsRooted | ReaperEngine.py:89-93 | Every marker holds a colon, so a target without a colon is only prefixed with `/`. |
| Links.PlainUrlLosesScheme | ReaperEngine.py:89-93 | `http://` followed by a remainder without a colon or an `i` becomes `/` followed by the remainder. |
| Links.FullUrlLosesScheme | ReaperEngine.py:91-93 | `http://foo.com/bar` becomes `/foo.com/bar`. |
| Links.MailLinkKept | ReaperEngine.py:89-90 | `mailto:a@b.com` is unchanged. |
| Links.RootedPathDoubled | ReaperEngine.py:93 | `/already/rooted` becomes `//already/rooted`. |
| Links.FormatPage | ReaperEngine.py:82-94 | Every anchor's `href` is replaced by its rewrite. All other nodes, and their number and order, are kept. Every link of the result is rooted or a mail link. |
| Links.RootedIsWellFormed | ReaperEngine.py:88 | A formatted page has an `href` on every anchor, so formatting it again raises no `KeyError`. |
| Links.FormatTwiceRootsAgain | ReaperEngine.py:82-94 | Formatting is not idempotent. A second pass roots every non-mail link again, after removing any `http://` or `https://` the link still holds, so the twice-formatted page differs from the once-formatted one. |
| Backend.ApiUrl | ReaperEngine.py:15-16 | A base address without `/v1/` is the API root itself. One with `/v1/` loses at least those four characters. |
| Backend.ApiUrlMatchesSplitJoin | ReaperEngine.py:16 | The API root is the base address split at every `/v1/` and joined with nothing. |
| Backend.VersionedBaseApiUrl | ReaperEngine.py:16 | `http://<authority>/v1/` gives `http://<authority>` for every authority without a slash, except `v1` itself. |
| Backend.AuthorityV1Collapses | ReaperEngine.py:16 | The exception: `http://v1/v1/` gives `http:/v1/`, because the `/v1/` starting at the scheme's second slash is the one removed. |
| Backend.DefaultApiUrl | ReaperEngine.py:15-16 | The default base `http://localhost:11434/v1/` gives the API root `http://localhost:11434`. |
| Backend.Complete | ReaperEngine.py:161-174 | Content is returned as it is. A failed request yields exactly the fixed error page, whose nodes formatting leaves unchanged. A usable reply gives a page that can be formatted. |
| Reaper.Store | ReaperEngine.py:127-130 | The address then holds the page. Every other address, other paths of the same site included, keeps its entry. The site's inner map is created when absent. The stored addresses grow by exactly this one. |
| Reaper.GetPage | ReaperEngine.py:100-132 | On a hit: the stored page is returned verbatim, no call is made and the state is unchanged. On a miss: one generator call is made, and its formatted completion is returned, stored under the address and rooted. No other address changes. |
| Reaper.GetSearch | ReaperEngine.py:134-147 | The returned page is the formatted completion of this call's generator answer. The database is unchanged, exactly one generator call is made, and the page is rooted. |
| Reaper.RevisitIsStable | ReaperEngine.py:100-103 | A second visit to an address returns the first visit's page and state unchanged, with no further call. |
| Reaper.FailedGenerationIsCached | ReaperEngine.py:114-132 | When generation fails, the error page is returned. It becomes the stored page for the address and is returned by the next visit. |
| Reaper.SitesArePartitioned | ReaperEngine.py:127-130 | The same path under two sites yields two separate entries, each holding its own generated page. |
| Reaper.SearchIgnoresDb | ReaperEngine.py:134-147 | A search result does not depend on the stored pages. |
| Reaper.SearchIsNotCached | ReaperEngine.py:134-147 | Searching twice calls the generator twice. The second result is the formatted second answer. |
| Reaper.RunKeys | ReaperEngine.py:100-132 | After any run of visits, the stored addresses are the initial ones plus the visited ones. |
| Reaper.RunCalls | ReaperEngine.py:100-147 | Over any run, the generator is called once per search and once per visited address not yet stored. This is at most one page generation per address. |
| Reaper.RunKeeps | ReaperEngine.py:100-132 | Over any run, a stored page is never replaced (first write wins), and stored pages stay rooted. |
| Startup.ListedBySubstring | ReaperEngine.py:44 | The model counts as listed when its name occurs inside a listed name. |
| Startup.ReadStream | ReaperEngine.py:57-64 | The first line that is not quiet decides the stream. `success` stops the check with success. A garbled line raises an unexpected error. A stream of blank and non-success lines only ends the attempt. Each case holds in both directions, and no line raises a connection error. |
| Startup.AttemptVerdict | ReaperEngine.py:38-67 | An iteration ends the check with "model listed" exactly when the tags call succeeds and lists the model. Otherwise it ends with "pull refused" exactly when the pull status is not 200. It falls through exactly when the pull is accepted and its stream stays quiet. The iteration raises a connection error exactly when the attempt meets one, and other errors map to the unexpected fault. |
| Startup.EnsureModelAvailable | ReaperEngine.py:33-80 | At most 30 attempts are made. Every attempt but the last passes, meaning it is retried or falls through. The last attempt is the first that does not pass, or the thirtieth, and it decides the result. |
| Startup.EnsureModelAvailableIff | ReaperEngine.py:36-80 | The check ends with a result exactly when that result is decided by the attempts, in the sense above. |
| Startup.OnlyAttemptsMadeMatter | ReaperEngine.py:33-36 | Answers to attempts beyond those made do not change the result. |
| Startup.PersistentConnectionFailure | ReaperEngine.py:69-77 | When every attempt fails to connect, the connection error is raised after exactly 30 attempts. |
| Startup.ConnectionErrorsAreRetried | ReaperEngine.py:69-73 | Connection errors before the last attempt are retried. If attempt `k + 1` finds the model listed, the check returns normally after `k + 1` attempts. |
| Startup.UnexpectedErrorIsImmediate | ReaperEngine.py:78-80 | Any other error raises at once, on the attempt where it occurs. |
| Startup.RefusedPullReturns | ReaperEngine.py:65-67 | When the first attempt does not find the model listed (a failed tags call or a list without it) and the pull is refused, the check ends normally, without the model, after one attempt. |
| Startup.SilentStreamsExhaustBudget | ReaperEngine.py:36-64 | Thirty accepted pulls whose streams never report success end the check normally after 30 attempts. |

## Left out

- The pull response is read in full by `requests.post` (no streaming), so a
  connection failure shows up as a `ConnectionError` attempt. No stream line
  stands for it.
- The model name, temperature and token limit sent with each request. They
  only shape the payload.
- HTTP calls, JSON encoding and decoding, and timeouts. The service's answers
  are the `Generator` oracle and the `Attempt` values.
- The 2-second `time.sleep` between attempts (ReaperEngine.py:34, :73) is not
  modelled.
- HTML parsing and serialisation by BeautifulSoup. A page is its sequence of
  anchors and other markup nodes, and the returned string is not modelled.
- Backend.Complete: the cached error page is the error literal's nodes, not
  its bytes. Re-serialising the parsed literal (a newline after the doctype)
  gives a string that is not byte-identical to the literal at
  ReaperEngine.py:174.
- An anchor without `href`, which raises `KeyError` at ReaperEngine.py:88.
  `Links.FormatPage` requires every anchor to carry one, and `Reaper.GetPage`
  and `Reaper.GetSearch` require a usable generator reply.
- A chat response without `message.content`, which raises out of
  `_generate_completion`. A `Reply` is either content or a request failure.
- Non-string `status` values in the pull stream, and `models` entries without
  a `name`. They raise, and they are covered by the `Garbled` line and the
  `OtherError` attempt rather than modelled field by field.
- The prompts and the system prompt: they are opaque text. A `Request` keeps
  only the site and path, or the query.
- The `curpage.html` write, `export_internet`, `get_index` and every `print`.
  These are file I/O, a constant string and logging.
- Reading `OLLAMA_BASE_URL` from the environment. The base address is a
  parameter of `Backend.ApiUrl`, and `Backend.DefaultBaseUrl` is the default.
- Concurrent access to the page database. The engine is single-threaded.
