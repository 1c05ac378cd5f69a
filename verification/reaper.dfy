/** The page database and the two page operations of `ReaperEngine`:
    `get_page` (memoised per site and path) and `get_search` (never cached). */
module Reaper {
  import opened Wrappers
  import opened Links
  import opened Backend

  type Site = string
  type Path = string

  /** `internet_db`: site, then path, to the formatted page. */
  type Db = map<Site, map<Path, Document>>

  /** The engine's state: the page database and how many generation calls
      have been made so far (which selects the generator's next answer). */
  datatype Engine = Engine(db: Db, calls: nat)

  /** A served page together with the engine state after serving it. */
  datatype Served = Served(page: Document, engine: Engine)

  /** The state at start-up: an empty database, no calls yet. */
  const Start := Engine(map[], 0)

  /** `internet_db[url][path]`, or nothing when either key is missing. */
  function Lookup(db: Db, site: Site, path: Path): Option<Document> {
    if site in db && path in db[site] then Some(db[site][path]) else None
  }

  /** The (site, path) addresses that hold a page. */
  function Keys(db: Db): set<(Site, Path)> {
    set s, p | s in db && p in db[s] :: (s, p)
  }

  lemma KeysAreLookups(db: Db, site: Site, path: Path)
    ensures (site, path) in Keys(db) <==> Lookup(db, site, path).Some?
  {
  }

  /** Adding a page: the site's inner map is created when the site is new,
      the address then holds exactly `page`, and every other address, other
      paths of the same site included, keeps what it held. */
  function Store(db: Db, site: Site, path: Path, page: Document): (r: Db)
    ensures Lookup(r, site, path) == Some(page)
    ensures forall s, p :: (s, p) != (site, path) ==> Lookup(r, s, p) == Lookup(db, s, p)
    ensures r.Keys == db.Keys + {site}
    ensures Keys(r) == Keys(db) + {(site, path)}
  {
    var inner := if site in db then db[site] else map[];
    var r := db[site := inner[path := page]];
    KeysAfterUpdate(db, site, path, r);
    r
  }

  lemma KeysAfterUpdate(db: Db, site: Site, path: Path, r: Db)
    requires r.Keys == db.Keys + {site} && site in r && path in r[site]
    requires r[site].Keys == (if site in db then db[site].Keys else {}) + {path}
    requires forall s | s in db && s != site :: r[s] == db[s]
    ensures Keys(r) == Keys(db) + {(site, path)}
  {
    forall k | k in Keys(r) ensures k in Keys(db) + {(site, path)} {
      KeysAreLookups(r, k.0, k.1);
      KeysAreLookups(db, k.0, k.1);
    }
    forall k | k in Keys(db) + {(site, path)} ensures k in Keys(r) {
      KeysAreLookups(r, k.0, k.1);
      KeysAreLookups(db, k.0, k.1);
    }
  }

  /** Every stored page keeps its links inside the simulated web. */
  predicate AllRooted(db: Db) {
    forall s, p | s in db && p in db[s] :: Rooted(db[s][p])
  }

  /** `get_page`. A stored page is returned as it is, with no generator call
      and no change of state. Otherwise the generator is called once, its
      completion is formatted, stored under the address and returned; no
      other address changes. */
  function GetPage(e: Engine, site: Site, path: Path, gen: Generator): (res: Served)
    requires Lookup(e.db, site, path).None? ==> Usable(gen(PageRequest(site, path), e.calls))
    ensures Lookup(e.db, site, path).Some? ==>
      res.page == Lookup(e.db, site, path).value && res.engine == e
    ensures Lookup(e.db, site, path).None? ==>
      && res.engine.calls == e.calls + 1
      && res.page == FormatPage(Complete(gen(PageRequest(site, path), e.calls)))
      && Rooted(res.page)
      && Lookup(res.engine.db, site, path) == Some(res.page)
      && (forall s, p :: (s, p) != (site, path) ==> Lookup(res.engine.db, s, p) == Lookup(e.db, s, p))
      && Keys(res.engine.db) == Keys(e.db) + {(site, path)}
  {
    match Lookup(e.db, site, path)
    case Some(page) => Served(page, e)
    case None =>
      var page := FormatPage(Complete(gen(PageRequest(site, path), e.calls)));
      Served(page, Engine(Store(e.db, site, path, page), e.calls + 1))
  }

  /** `get_search`: one generator call whose formatted completion is
      returned; the database is neither consulted nor changed. */
  function GetSearch(e: Engine, query: string, gen: Generator): (res: Served)
    requires Usable(gen(SearchRequest(query), e.calls))
    ensures res.page == FormatPage(Complete(gen(SearchRequest(query), e.calls)))
    ensures res.engine.db == e.db
    ensures res.engine.calls == e.calls + 1
    ensures Rooted(res.page)
  {
    Served(FormatPage(Complete(gen(SearchRequest(query), e.calls))), Engine(e.db, e.calls + 1))
  }

  /** A second visit to an address returns the first visit's page verbatim,
      makes no generator call and leaves the state as the first visit left it. */
  lemma RevisitIsStable(e: Engine, site: Site, path: Path, gen: Generator)
    requires Lookup(e.db, site, path).None? ==> Usable(gen(PageRequest(site, path), e.calls))
    ensures var first := GetPage(e, site, path, gen);
      GetPage(first.engine, site, path, gen) == first
  {
  }

  /** When the generation request fails, the fixed error page is what the
      visit returns, and it becomes the stored page for the address: later
      visits return it without another call. */
  lemma FailedGenerationIsCached(e: Engine, site: Site, path: Path, gen: Generator)
    requires Lookup(e.db, site, path).None?
    requires gen(PageRequest(site, path), e.calls) == RequestFailed
    ensures GetPage(e, site, path, gen).page == ErrorPage
    ensures Lookup(GetPage(e, site, path, gen).engine.db, site, path) == Some(ErrorPage)
    ensures GetPage(GetPage(e, site, path, gen).engine, site, path, gen).page == ErrorPage
  {
  }

  /** The same path under two different sites gets two separate entries,
      each holding the page generated for it. */
  lemma SitesArePartitioned(a: Site, b: Site, path: Path, gen: Generator)
    requires a != b
    requires Usable(gen(PageRequest(a, path), 0)) && Usable(gen(PageRequest(b, path), 1))
    ensures var first := GetPage(Start, a, path, gen);
      var second := GetPage(first.engine, b, path, gen);
      && second.engine.calls == 2
      && Lookup(second.engine.db, a, path) == Some(first.page)
      && Lookup(second.engine.db, b, path) == Some(second.page)
      && first.page == FormatPage(Complete(gen(PageRequest(a, path), 0)))
      && second.page == FormatPage(Complete(gen(PageRequest(b, path), 1)))
  {
  }

  /** A search result does not depend on the database: two engines that
      differ only in their stored pages return the same result. */
  lemma SearchIgnoresDb(e1: Engine, e2: Engine, query: string, gen: Generator)
    requires e1.calls == e2.calls && Usable(gen(SearchRequest(query), e1.calls))
    ensures GetSearch(e1, query, gen).page == GetSearch(e2, query, gen).page
  {
  }

  /** Searching twice for the same query calls the generator twice; the
      second result is the second answer, so the two results differ whenever
      the generator's answers format differently. */
  lemma SearchIsNotCached(e: Engine, query: string, gen: Generator)
    requires Usable(gen(SearchRequest(query), e.calls)) && Usable(gen(SearchRequest(query), e.calls + 1))
    ensures var first := GetSearch(e, query, gen);
      var second := GetSearch(first.engine, query, gen);
      && second.engine == Engine(e.db, e.calls + 2)
      && second.page == FormatPage(Complete(gen(SearchRequest(query), e.calls + 1)))
  {
  }

  /** A caller's request: a page at an address, or a search. */
  datatype Visit = PageVisit(site: Site, path: Path) | SearchVisit(query: string)

  /** A generator whose every answer can be formatted. */
  ghost predicate Reliable(gen: Generator) {
    forall req, n :: Usable(gen(req, n))
  }

  function Serve(e: Engine, v: Visit, gen: Generator): Served
    requires Reliable(gen)
  {
    match v
    case PageVisit(site, path) => GetPage(e, site, path, gen)
    case SearchVisit(query) => GetSearch(e, query, gen)
  }

  /** The engine state after serving the visits in order. */
  function Run(e: Engine, visits: seq<Visit>, gen: Generator): Engine
    requires Reliable(gen)
    decreases |visits|
  {
    if |visits| == 0 then e else Run(Serve(e, visits[0], gen).engine, visits[1..], gen)
  }

  /** The addresses the visits ask for. */
  function PageKeys(visits: seq<Visit>): set<(Site, Path)>
    decreases |visits|
  {
    if |visits| == 0 then {}
    else (match visits[0]
          case PageVisit(site, path) => {(site, path)}
          case SearchVisit(_) => {}) + PageKeys(visits[1..])
  }

  /** How many of the visits are searches. */
  function SearchCount(visits: seq<Visit>): nat
    decreases |visits|
  {
    if |visits| == 0 then 0
    else (if visits[0].SearchVisit? then 1 else 0) + SearchCount(visits[1..])
  }

  /** Serving one visit adds at most the visited address to the database. */
  lemma ServeKeys(e: Engine, v: Visit, gen: Generator)
    requires Reliable(gen)
    ensures Keys(Serve(e, v, gen).engine.db) == Keys(e.db) + PageKeys([v])
  {
    assert [v][1..] == [];
    if v.PageVisit? {
      assert PageKeys([v]) == {(v.site, v.path)};
      KeysAreLookups(e.db, v.site, v.path);
    }
  }

  /** Serving one visit calls the generator exactly for a search or for an
      address not yet stored. */
  lemma ServeCalls(e: Engine, v: Visit, gen: Generator)
    requires Reliable(gen)
    ensures Serve(e, v, gen).engine.calls == e.calls + SearchCount([v]) + |PageKeys([v]) - Keys(e.db)|
  {
    assert [v][1..] == [];
    if v.PageVisit? {
      var k := (v.site, v.path);
      assert PageKeys([v]) == {k};
      KeysAreLookups(e.db, v.site, v.path);
      if k in Keys(e.db) {
        assert {k} - Keys(e.db) == {};
      } else {
        assert {k} - Keys(e.db) == {k};
      }
    }
  }

  /** Serving one visit keeps every stored page and keeps them all rooted. */
  lemma ServeKeeps(e: Engine, v: Visit, gen: Generator)
    requires Reliable(gen)
    ensures forall s, p :: Lookup(e.db, s, p).Some? ==> Lookup(Serve(e, v, gen).engine.db, s, p) == Lookup(e.db, s, p)
    ensures AllRooted(e.db) ==> AllRooted(Serve(e, v, gen).engine.db)
  {
    var next := Serve(e, v, gen).engine;
    if v.PageVisit? && AllRooted(e.db) {
      forall s, p | s in next.db && p in next.db[s] ensures Rooted(next.db[s][p]) {
        assert Lookup(next.db, s, p).Some?;
        if (s, p) != (v.site, v.path) {
          assert Lookup(e.db, s, p) == Lookup(next.db, s, p);
        }
      }
    }
  }

  lemma CountAfterStep<T>(k: set<T>, step: set<T>, rest: set<T>)
    ensures |(step + rest) - k| == |step - k| + |rest - (k + step)|
  {
    assert (step + rest) - k == (step - k) + (rest - (k + step));
    assert (step - k) !! (rest - (k + step));
  }

  lemma PageKeysCons(visits: seq<Visit>)
    requires |visits| > 0
    ensures PageKeys(visits) == PageKeys([visits[0]]) + PageKeys(visits[1..])
    ensures SearchCount(visits) == SearchCount([visits[0]]) + SearchCount(visits[1..])
  {
    assert [visits[0]][1..] == [];
  }

  /** Over any run of visits the database ends up holding exactly the
      addresses it held plus the ones visited. */
  lemma {:induction false} RunKeys(e: Engine, visits: seq<Visit>, gen: Generator)
    requires Reliable(gen)
    ensures Keys(Run(e, visits, gen).db) == Keys(e.db) + PageKeys(visits)
    decreases |visits|
  {
    if |visits| > 0 {
      ServeKeys(e, visits[0], gen);
      RunKeys(Serve(e, visits[0], gen).engine, visits[1..], gen);
      PageKeysCons(visits);
    }
  }

  /** Over any run of visits the generator is called once per search plus
      once per visited address that was not yet stored: at most once per
      address, however often it is visited. */
  lemma {:induction false} RunCalls(e: Engine, visits: seq<Visit>, gen: Generator)
    requires Reliable(gen)
    ensures Run(e, visits, gen).calls == e.calls + SearchCount(visits) + |PageKeys(visits) - Keys(e.db)|
    decreases |visits|
  {
    if |visits| > 0 {
      var v := visits[0];
      ServeKeys(e, v, gen);
      ServeCalls(e, v, gen);
      RunCalls(Serve(e, v, gen).engine, visits[1..], gen);
      PageKeysCons(visits);
      CountAfterStep(Keys(e.db), PageKeys([v]), PageKeys(visits[1..]));
    }
  }

  /** Over any run of visits a stored page is never replaced (first write
      wins), and stored pages stay rooted. */
  lemma {:induction false} RunKeeps(e: Engine, visits: seq<Visit>, gen: Generator)
    requires Reliable(gen)
    ensures forall s, p :: Lookup(e.db, s, p).Some? ==> Lookup(Run(e, visits, gen).db, s, p) == Lookup(e.db, s, p)
    ensures AllRooted(e.db) ==> AllRooted(Run(e, visits, gen).db)
    decreases |visits|
  {
    if |visits| > 0 {
      ServeKeeps(e, visits[0], gen);
      RunKeeps(Serve(e, visits[0], gen).engine, visits[1..], gen);
    }
  }
}
