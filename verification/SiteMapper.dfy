/** The site mapper of src/crawl/mapper.ts: a breadth-first walk with a depth limit, a page cap and a
    visited set keyed by canonical URL. Fetching, link extraction, canonical forms and pattern matching
    are functions of the URL. */
module SiteMapper {
  import opened Options

  /** The world the walk sees: `fetch` gives the links of a page, or nothing when it fails. */
  datatype Site = Site(canonical: string -> string, fetch: string -> Option<seq<string>>, matches: string -> bool) {
    function Links(url: string): seq<string> {
      match fetch(url) case Some(links) => links case None => []
    }

    /** Canonical forms of the links a page contributes. */
    ghost function Targets(url: string): set<string> {
      set l | l in Links(url) && matches(l) :: canonical(l)
    }

    /** Two spellings of one page offer the same links. */
    ghost predicate Congruent() {
      forall u: string, v: string :: canonical(u) == canonical(v) ==> Targets(u) == Targets(v)
    }

    /** URLs reachable from the seeds in at most k hops through matching links. */
    ghost function Reach(seeds: set<string>, k: nat): set<string> {
      if k == 0 then seeds
      else Reach(seeds, k - 1) + set u, l | u in Reach(seeds, k - 1) && l in Links(u) && matches(l) :: l
    }
  }

  datatype Entry = Entry(url: string, depth: nat)

  datatype MapError = InvalidSeed | SeedFetchFailed

  datatype MapOutput = MapOutput(urls: seq<string>, totalFound: nat, sitemapFound: bool, error: Option<MapError>)

  ghost predicate NoRepeats(s: seq<string>) {
    forall i, j :: 0 <= i < j < |s| ==> s[i] != s[j]
  }

  ghost function Seeds(site: Site, seed: string, sitemap: seq<string>): set<string> {
    {seed} + set u | u in sitemap && site.matches(u)
  }

  /** How many hops from the seeds a discovered page can be. */
  function MaxHops(maxDepth: int): nat { if maxDepth >= 0 then maxDepth + 1 else 0 }

  function Limit(maxPages: int): int { if maxPages >= 1 then maxPages else 1 }

  // ---------------------------------------------------------------- what the walk keeps

  /** The walk so far. `discovered` keeps insertion order, as a JavaScript Set does. Beside the program's
      own state: the level each page was found at, the URLs fetched, and the pages taken off the queue. */
  datatype Walk = Walk(discovered: seq<string>, queued: set<string>, queue: seq<Entry>,
                       dist: map<string, nat>, fetched: seq<string>, popped: set<string>)

  ghost predicate QueuedAt(site: Site, w: Walk, e: Entry) {
    var c := site.canonical(e.url);
    c in w.queued && c !in w.popped && c in w.dist && w.dist[c] == e.depth
  }

  ghost predicate OnQueue(site: Site, w: Walk, c: string) {
    exists k :: 0 <= k < |w.queue| && site.canonical(w.queue[k].url) == c
  }

  ghost predicate WasFetched(site: Site, w: Walk, c: string) {
    exists k :: 0 <= k < |w.fetched| && site.canonical(w.fetched[k]) == c
  }

  /** The visited sets: nothing is listed twice, and what is shallow enough has been queued. */
  ghost predicate Visited(w: Walk, maxDepth: int) {
    && NoRepeats(w.discovered)
    && (forall c :: c in w.dist <==> c in w.discovered)
    && (forall c :: c in w.queued ==> c in w.dist)
    && (forall c :: c in w.dist && w.dist[c] <= maxDepth ==> c in w.queued)
  }

  /** The queue: each page that was ever queued is either still on it, once, or was taken off. */
  ghost predicate Queue(site: Site, w: Walk) {
    && (forall k :: 0 <= k < |w.queue| ==> QueuedAt(site, w, w.queue[k]))
    && (forall i, j :: 0 <= i < j < |w.queue| ==> site.canonical(w.queue[i].url) != site.canonical(w.queue[j].url))
    && (forall c :: c in w.queued ==> c in w.popped || OnQueue(site, w, c))
    && w.popped <= w.queued
  }

  /** Fetches: one per page, for exactly the pages taken off the queue. */
  ghost predicate Fetches(site: Site, w: Walk, maxDepth: int) {
    && (forall k :: 0 <= k < |w.fetched| ==> site.canonical(w.fetched[k]) in w.popped)
    && (forall i, j :: 0 <= i < j < |w.fetched| ==> site.canonical(w.fetched[i]) != site.canonical(w.fetched[j]))
    && (maxDepth >= 0 ==> forall c :: c in w.popped ==> WasFetched(site, w, c))
  }

  ghost predicate FoundAt(site: Site, seeds: set<string>, c: string, k: nat) {
    exists u :: u in site.Reach(seeds, k) && site.canonical(u) == c
  }

  /** Everything found is really reachable within its recorded distance. */
  ghost predicate Sound(site: Site, seeds: set<string>, maxDepth: int, w: Walk) {
    && (forall c :: c in w.dist ==> w.dist[c] <= MaxHops(maxDepth) && FoundAt(site, seeds, c, w.dist[c]))
    && (forall k :: 0 <= k < |w.queue| ==> w.queue[k].url in site.Reach(seeds, w.queue[k].depth))
    && (forall k :: 0 <= k < |w.queue| ==> w.queue[k].depth == 0 || w.queue[k].depth <= maxDepth)
  }

  /** The queue is sorted by depth, and nothing found is more than one level past `level`. */
  ghost predicate Levels(w: Walk, level: nat) {
    && (forall i, j :: 0 <= i < j < |w.queue| ==> w.queue[i].depth <= w.queue[j].depth)
    && (forall k :: 0 <= k < |w.queue| ==> level <= w.queue[k].depth <= level + 1)
    && (forall c :: c in w.dist ==> w.dist[c] <= level + 1)
  }

  /** Pages are listed by level, beginning with `first`. */
  ghost predicate InOrder(w: Walk, first: string) {
    && w.discovered != [] && w.discovered[0] == first
    && (forall i, j ::
          0 <= i < j < |w.discovered| && w.discovered[i] in w.dist && w.discovered[j] in w.dist ==>
            w.dist[w.discovered[i]] <= w.dist[w.discovered[j]])
  }

  ghost predicate Inv(site: Site, seeds: set<string>, maxDepth: int, w: Walk, level: nat) {
    Visited(w, maxDepth) && Queue(site, w) && Fetches(site, w, maxDepth) && Sound(site, seeds, maxDepth, w) && Levels(w, level)
  }

  /** The first n links of a page, where they match, were found at most one level past the page. */
  ghost predicate LinksFound(site: Site, dist: map<string, nat>, url: string, n: nat) {
    && n <= |site.Links(url)|
    && site.canonical(url) in dist
    && forall j :: 0 <= j < n && site.matches(site.Links(url)[j]) ==>
         LinkFound(site, dist, url, site.canonical(site.Links(url)[j]))
  }

  ghost predicate LinkFound(site: Site, dist: map<string, nat>, url: string, c: string)
    requires site.canonical(url) in dist
  {
    c in dist && dist[c] <= dist[site.canonical(url)] + 1
  }

  /** Every link of the first n fetched pages was found. */
  ghost predicate Closed(site: Site, w: Walk, n: nat) {
    && n <= |w.fetched|
    && forall k :: 0 <= k < n ==> LinksFound(site, w.dist, w.fetched[k], |site.Links(w.fetched[k])|)
  }

  /** The first n sitemap URLs, where they match, were found at distance zero; so was the seed. */
  ghost predicate SeedsFound(site: Site, dist: map<string, nat>, seed: string, sitemap: seq<string>, n: nat) {
    && n <= |sitemap|
    && SeedFound(site, dist, seed)
    && forall k :: 0 <= k < n && site.matches(sitemap[k]) ==> SeedFound(site, dist, sitemap[k])
  }

  ghost predicate SeedFound(site: Site, dist: map<string, nat>, u: string) {
    site.canonical(u) in dist && dist[site.canonical(u)] == 0
  }

  // ---------------------------------------------------------------- the steps

  function StartWalk(site: Site, seed: string): Walk {
    var c := site.canonical(seed);
    Walk([c], {c}, [Entry(seed, 0)], map[c := 0], [], {})
  }

  /** A newly found page, queued for its own links when it is shallow enough. */
  function AddPage(site: Site, w: Walk, url: string, depth: nat, enqueue: bool): Walk {
    var c := site.canonical(url);
    var v := w.(discovered := w.discovered + [c], dist := w.dist[c := depth]);
    if enqueue then v.(queued := w.queued + {c}, queue := w.queue + [Entry(url, depth)]) else v
  }

  /** Taking the head off the queue, and fetching it when it is within the depth limit. */
  function PopPage(site: Site, w: Walk, fetch: bool): Walk
    requires w.queue != []
  {
    var url := w.queue[0].url;
    var v := w.(queue := w.queue[1..], popped := w.popped + {site.canonical(url)});
    if fetch then v.(fetched := w.fetched + [url]) else v
  }

  lemma StartInv(site: Site, seeds: set<string>, maxDepth: int, seed: string)
    requires seed in seeds
    ensures Inv(site, seeds, maxDepth, StartWalk(site, seed), 0)
  {
    var w := StartWalk(site, seed);
    assert seed in site.Reach(seeds, 0);
    assert FoundAt(site, seeds, site.canonical(seed), 0);
    assert w.queue[0] == Entry(seed, 0);
  }

  lemma AddKeepsQueue(site: Site, w: Walk, url: string, depth: nat, enqueue: bool, maxDepth: int)
    requires Visited(w, maxDepth) && Queue(site, w)
    requires site.canonical(url) !in w.dist
    ensures Queue(site, AddPage(site, w, url, depth, enqueue))
  {
    var v, c := AddPage(site, w, url, depth, enqueue), site.canonical(url);
    forall k | 0 <= k < |v.queue|
      ensures QueuedAt(site, v, v.queue[k])
    {
      if k < |w.queue| { assert QueuedAt(site, w, w.queue[k]); }
    }
    forall d | d in v.queued
      ensures d in v.popped || OnQueue(site, v, d)
    {
      if d == c {
        assert v.queue[|w.queue|].url == url;
      } else if d !in w.popped {
        assert OnQueue(site, w, d);
        var k :| 0 <= k < |w.queue| && site.canonical(w.queue[k].url) == d;
        assert v.queue[k] == w.queue[k];
      }
    }
    forall i, j | 0 <= i < j < |v.queue|
      ensures site.canonical(v.queue[i].url) != site.canonical(v.queue[j].url)
    {
      assert QueuedAt(site, w, w.queue[i]);
    }
  }

  lemma AddKeepsSound(site: Site, seeds: set<string>, maxDepth: int, w: Walk, url: string, depth: nat, enqueue: bool)
    requires Sound(site, seeds, maxDepth, w)
    requires depth <= MaxHops(maxDepth) && url in site.Reach(seeds, depth)
    requires enqueue == (depth == 0 || depth <= maxDepth)
    ensures Sound(site, seeds, maxDepth, AddPage(site, w, url, depth, enqueue))
  {
    assert FoundAt(site, seeds, site.canonical(url), depth);
  }

  /** Adding a page at most one level past the current one, behind everything queued, keeps the invariant. */
  lemma AddKeepsInv(site: Site, seeds: set<string>, maxDepth: int, w: Walk, level: nat, url: string, depth: nat, enqueue: bool)
    requires Inv(site, seeds, maxDepth, w, level)
    requires site.canonical(url) !in w.dist
    requires level <= depth <= level + 1 && forall k :: 0 <= k < |w.queue| ==> w.queue[k].depth <= depth
    requires depth <= MaxHops(maxDepth) && url in site.Reach(seeds, depth)
    requires enqueue == (depth == 0 || depth <= maxDepth)
    ensures Inv(site, seeds, maxDepth, AddPage(site, w, url, depth, enqueue), level)
  {
    AddKeepsQueue(site, w, url, depth, enqueue, maxDepth);
    AddKeepsSound(site, seeds, maxDepth, w, url, depth, enqueue);
    AddKeepsFetches(site, w, url, depth, enqueue, maxDepth);
    AddKeepsVisited(w, site.canonical(url), depth, maxDepth, AddPage(site, w, url, depth, enqueue));
    AddKeepsLevels(site, w, level, url, depth, enqueue);
    hide Queue, Sound, Fetches, Visited, Levels;
  }

  lemma AddKeepsVisited(w: Walk, c: string, depth: nat, maxDepth: int, v: Walk)
    requires Visited(w, maxDepth) && c !in w.dist
    requires v.discovered == w.discovered + [c] && v.dist == w.dist[c := depth]
    requires v.queued == w.queued + {c} || (v.queued == w.queued && depth > maxDepth)
    ensures Visited(v, maxDepth)
  {
  }

  lemma AddKeepsLevels(site: Site, w: Walk, level: nat, url: string, depth: nat, enqueue: bool)
    requires Levels(w, level) && level <= depth <= level + 1
    requires forall k :: 0 <= k < |w.queue| ==> w.queue[k].depth <= depth
    ensures Levels(AddPage(site, w, url, depth, enqueue), level)
  {
  }

  /** A page as far as everything found goes to the end of the list. */
  lemma AddKeepsOrder(site: Site, w: Walk, url: string, depth: nat, enqueue: bool, first: string)
    requires InOrder(w, first) && site.canonical(url) !in w.discovered && forall c :: c in w.dist ==> w.dist[c] <= depth
    ensures InOrder(AddPage(site, w, url, depth, enqueue), first)
  {
    var v, c := AddPage(site, w, url, depth, enqueue), site.canonical(url);
    forall i, j | 0 <= i < j < |v.discovered| && v.discovered[i] in v.dist && v.discovered[j] in v.dist
      ensures v.dist[v.discovered[i]] <= v.dist[v.discovered[j]]
    {
      assert v.discovered[i] == w.discovered[i] != c;
    }
  }

  lemma AddKeepsFetches(site: Site, w: Walk, url: string, depth: nat, enqueue: bool, maxDepth: int)
    requires Fetches(site, w, maxDepth)
    ensures Fetches(site, AddPage(site, w, url, depth, enqueue), maxDepth)
  {
    var v := AddPage(site, w, url, depth, enqueue);
    forall c | maxDepth >= 0 && c in v.popped
      ensures WasFetched(site, v, c)
    {
      assert WasFetched(site, w, c);
    }
  }

  lemma PopKeepsQueue(site: Site, w: Walk, fetch: bool)
    requires Queue(site, w) && w.queue != []
    ensures Queue(site, PopPage(site, w, fetch))
    ensures site.canonical(w.queue[0].url) !in w.popped && site.canonical(w.queue[0].url) in w.dist
    ensures w.dist[site.canonical(w.queue[0].url)] == w.queue[0].depth
  {
    var v, c := PopPage(site, w, fetch), site.canonical(w.queue[0].url);
    assert QueuedAt(site, w, w.queue[0]);
    forall k | 0 <= k < |v.queue|
      ensures QueuedAt(site, v, v.queue[k])
    {
      assert QueuedAt(site, w, w.queue[k + 1]);
    }
    forall d | d in v.queued
      ensures d in v.popped || OnQueue(site, v, d)
    {
      if d !in v.popped {
        assert OnQueue(site, w, d);
        var k :| 0 <= k < |w.queue| && site.canonical(w.queue[k].url) == d;
        assert v.queue[k - 1] == w.queue[k];
      }
    }
  }

  lemma PopKeepsFetches(site: Site, w: Walk, fetch: bool, maxDepth: int)
    requires Fetches(site, w, maxDepth) && w.queue != []
    requires site.canonical(w.queue[0].url) !in w.popped
    requires maxDepth >= 0 ==> fetch
    ensures Fetches(site, PopPage(site, w, fetch), maxDepth)
  {
    var v, c := PopPage(site, w, fetch), site.canonical(w.queue[0].url);
    forall d | maxDepth >= 0 && d in v.popped
      ensures WasFetched(site, v, d)
    {
      if d == c {
        assert v.fetched[|w.fetched|] == w.queue[0].url;
      } else {
        assert WasFetched(site, w, d);
        var k :| 0 <= k < |w.fetched| && site.canonical(w.fetched[k]) == d;
        assert v.fetched[k] == w.fetched[k];
      }
    }
  }

  lemma PopKeepsVisited(site: Site, w: Walk, fetch: bool, maxDepth: int)
    requires Visited(w, maxDepth) && w.queue != []
    ensures Visited(PopPage(site, w, fetch), maxDepth)
  {
  }

  lemma PopKeepsSound(site: Site, seeds: set<string>, maxDepth: int, w: Walk, fetch: bool)
    requires Sound(site, seeds, maxDepth, w) && w.queue != []
    ensures Sound(site, seeds, maxDepth, PopPage(site, w, fetch))
    ensures w.queue[0].url in site.Reach(seeds, w.queue[0].depth)
    ensures w.queue[0].depth == 0 || w.queue[0].depth <= maxDepth
  {
    hide FoundAt;
  }

  lemma PopMovesLevel(site: Site, w: Walk, level: nat, fetch: bool)
    requires Levels(w, level) && w.queue != []
    ensures Levels(PopPage(site, w, fetch), w.queue[0].depth)
  {
  }

  /** Taking the head off the queue moves the level to its depth. */
  lemma PopKeepsInv(site: Site, seeds: set<string>, maxDepth: int, w: Walk, level: nat, fetch: bool)
    requires Inv(site, seeds, maxDepth, w, level) && w.queue != []
    requires fetch == (w.queue[0].depth <= maxDepth)
    ensures Inv(site, seeds, maxDepth, PopPage(site, w, fetch), w.queue[0].depth)
    ensures w.queue[0].url in site.Reach(seeds, w.queue[0].depth)
    ensures site.canonical(w.queue[0].url) in w.dist && w.dist[site.canonical(w.queue[0].url)] == w.queue[0].depth
    ensures w.queue[0].depth == 0 || w.queue[0].depth <= maxDepth
  {
    hide Queue, Fetches, Visited, Sound, Levels, PopPage;
    PopKeepsQueue(site, w, fetch);
    PopKeepsSound(site, seeds, maxDepth, w, fetch);
    PopKeepsFetches(site, w, fetch, maxDepth);
    PopKeepsVisited(site, w, fetch, maxDepth);
    PopMovesLevel(site, w, level, fetch);
  }

  // ---------------------------------------------------------------- what is found stays found

  lemma LinksStayFound(site: Site, dist: map<string, nat>, c: string, depth: nat, url: string, n: nat)
    requires LinksFound(site, dist, url, n) && c !in dist
    ensures LinksFound(site, dist[c := depth], url, n)
  {
    forall j | 0 <= j < n && site.matches(site.Links(url)[j])
      ensures LinkFound(site, dist[c := depth], url, site.canonical(site.Links(url)[j]))
    {
      assert LinkFound(site, dist, url, site.canonical(site.Links(url)[j]));
    }
  }

  lemma ClosedStays(site: Site, w: Walk, n: nat, url: string, depth: nat, enqueue: bool)
    requires Closed(site, w, n) && site.canonical(url) !in w.dist
    ensures Closed(site, AddPage(site, w, url, depth, enqueue), n)
  {
    forall k | 0 <= k < n
      ensures LinksFound(site, AddPage(site, w, url, depth, enqueue).dist, w.fetched[k], |site.Links(w.fetched[k])|)
    {
      LinksStayFound(site, w.dist, site.canonical(url), depth, w.fetched[k], |site.Links(w.fetched[k])|);
    }
  }

  lemma SeedsStayFound(site: Site, dist: map<string, nat>, c: string, depth: nat, seed: string, sitemap: seq<string>, n: nat)
    requires SeedsFound(site, dist, seed, sitemap, n) && c !in dist
    ensures SeedsFound(site, dist[c := depth], seed, sitemap, n)
  {
    forall k | 0 <= k < n && site.matches(sitemap[k])
      ensures SeedFound(site, dist[c := depth], sitemap[k])
    {
      assert SeedFound(site, dist, sitemap[k]);
    }
  }

  lemma LinkReached(site: Site, seeds: set<string>, url: string, depth: nat, j: nat)
    requires url in site.Reach(seeds, depth) && j < |site.Links(url)| && site.matches(site.Links(url)[j])
    ensures site.Links(url)[j] in site.Reach(seeds, depth + 1)
  {
    assert site.Links(url)[j] in site.Links(url);
  }

  // ---------------------------------------------------------------- the walk

  /** Phase 1: the sitemap's matching URLs are found and queued at depth 0, up to the page cap. */
  method AddSitemap(site: Site, seed: string, sitemap: seq<string>, maxDepth: int, maxPages: int, start: Walk) returns (w: Walk)
    requires start == StartWalk(site, seed)
    ensures Inv(site, Seeds(site, seed, sitemap), maxDepth, w, 0)
    ensures |w.discovered| <= Limit(maxPages)
    ensures w.fetched == []
    ensures |w.discovered| < maxPages ==> SeedsFound(site, w.dist, seed, sitemap, |sitemap|)
    ensures AllAtZero(w) && InOrder(w, site.canonical(seed))
  {
    w := start;
    ghost var seeds := Seeds(site, seed, sitemap);
    StartInv(site, seeds, maxDepth, seed);
    assert SeedFound(site, w.dist, seed);
    assert InOrder(w, site.canonical(seed));
    hide Inv, SeedFound, Seeds, SeedsFound, AllAtZero, InOrder;
    for k := 0 to |sitemap|
      invariant Inv(site, seeds, maxDepth, w, 0)
      invariant AllAtZero(w) && InOrder(w, site.canonical(seed))
      invariant |w.discovered| <= Limit(maxPages)
      invariant w.fetched == []
      invariant SeedsFound(site, w.dist, seed, sitemap, k)
    {
      if |w.discovered| >= maxPages {
        break;
      }
      NextSeed(site, w.dist, seed, sitemap, k);
      if site.matches(sitemap[k]) {
        var canonical := site.canonical(sitemap[k]);
        DiscoveredIsDist(site, seeds, maxDepth, w, 0, canonical);
        if canonical in w.discovered {
          FoundAtZero(site, w, sitemap[k]);
          continue;
        }
        ZeroMore(site, w, sitemap[k]);
        SitemapReached(site, seed, sitemap, k);
        AddKeepsInv(site, seeds, maxDepth, w, 0, sitemap[k], 0, true);
        ZeroIsFar(w);
        AddKeepsOrder(site, w, sitemap[k], 0, true, site.canonical(seed));
        SeedsStayFound(site, w.dist, canonical, 0, seed, sitemap, k);
        NewSeedFound(site, w.dist, sitemap[k]);
        NextSeed(site, w.dist[canonical := 0], seed, sitemap, k);
        var found := w.(discovered := w.discovered + [canonical], dist := w.dist[canonical := 0]);
        if canonical !in w.queued {
          found := found.(queued := w.queued + {canonical}, queue := w.queue + [Entry(sitemap[k], 0)]);
        }
        w := found;
      }
    }
  }

  ghost predicate AllAtZero(w: Walk) {
    && (forall k :: 0 <= k < |w.queue| ==> w.queue[k].depth == 0)
    && (forall c :: c in w.dist ==> w.dist[c] == 0)
  }

  lemma ZeroMore(site: Site, w: Walk, url: string)
    requires AllAtZero(w)
    ensures forall k :: 0 <= k < |w.queue| ==> w.queue[k].depth <= 0
    ensures AllAtZero(AddPage(site, w, url, 0, true))
  {
  }

  lemma ZeroIsFar(w: Walk)
    requires AllAtZero(w)
    ensures forall c :: c in w.dist ==> w.dist[c] <= 0
  {
  }

  lemma NextSeed(site: Site, dist: map<string, nat>, seed: string, sitemap: seq<string>, k: nat)
    requires k < |sitemap| && SeedsFound(site, dist, seed, sitemap, k)
    ensures !site.matches(sitemap[k]) || SeedFound(site, dist, sitemap[k]) ==> SeedsFound(site, dist, seed, sitemap, k + 1)
  {
  }

  lemma FoundAtZero(site: Site, w: Walk, u: string)
    requires AllAtZero(w) && site.canonical(u) in w.dist
    ensures SeedFound(site, w.dist, u)
  {
  }

  lemma NewSeedFound(site: Site, dist: map<string, nat>, u: string)
    ensures SeedFound(site, dist[site.canonical(u) := 0], u)
  {
  }

  lemma SitemapReached(site: Site, seed: string, sitemap: seq<string>, k: nat)
    requires k < |sitemap| && site.matches(sitemap[k])
    ensures sitemap[k] in site.Reach(Seeds(site, seed, sitemap), 0)
  {
  }

  /** A page is listed exactly when it has a distance; only listed pages are queued. */
  lemma DiscoveredIsDist(site: Site, seeds: set<string>, maxDepth: int, w: Walk, level: nat, c: string)
    requires Inv(site, seeds, maxDepth, w, level)
    ensures c in w.discovered <==> c in w.dist
    ensures c in w.queued ==> c in w.dist
  {
  }

  lemma NextLink(site: Site, dist: map<string, nat>, url: string, j: nat)
    requires j < |site.Links(url)| && LinksFound(site, dist, url, j)
    ensures !site.matches(site.Links(url)[j]) || LinkFound(site, dist, url, site.canonical(site.Links(url)[j]))
            ==> LinksFound(site, dist, url, j + 1)
  {
  }

  /** What was found earlier is at most one level past the page being read. */
  lemma EarlierFound(site: Site, seeds: set<string>, maxDepth: int, w: Walk, depth: nat, url: string, c: string)
    requires Inv(site, seeds, maxDepth, w, depth)
    requires site.canonical(url) in w.dist && w.dist[site.canonical(url)] == depth && c in w.dist
    ensures LinkFound(site, w.dist, url, c)
  {
  }

  lemma NewLinkFound(site: Site, dist: map<string, nat>, url: string, c: string)
    requires site.canonical(url) in dist && c !in dist
    ensures LinkFound(site, dist[c := dist[site.canonical(url)] + 1], url, c)
  {
  }

  lemma DepthsBehind(site: Site, seeds: set<string>, maxDepth: int, w: Walk, depth: nat)
    requires Inv(site, seeds, maxDepth, w, depth)
    ensures forall k :: 0 <= k < |w.queue| ==> w.queue[k].depth <= depth + 1
  {
  }

  lemma LinkKeepsOrder(site: Site, seeds: set<string>, maxDepth: int, w: Walk, level: nat, url: string, enqueue: bool, first: string)
    requires Inv(site, seeds, maxDepth, w, level) && InOrder(w, first) && site.canonical(url) !in w.discovered
    ensures InOrder(AddPage(site, w, url, level + 1, enqueue), first)
  {
    hide Visited, Queue, Fetches, Sound, InOrder;
    AddKeepsOrder(site, w, url, level + 1, enqueue, first);
  }

  lemma LastClosed(site: Site, w: Walk)
    requires w.fetched != [] && Closed(site, w, |w.fetched| - 1)
    requires var url := w.fetched[|w.fetched| - 1]; LinksFound(site, w.dist, url, |site.Links(url)|)
    ensures Closed(site, w, |w.fetched|)
  {
  }

  /** One fetched page: its matching links that are new are found, up to the page cap. */
  method VisitLinks(site: Site, ghost seed: string, ghost sitemap: seq<string>, maxDepth: int, maxPages: int,
                    current: Entry, links: seq<string>, before: Walk) returns (w: Walk)
    requires links == site.Links(current.url) && current.depth <= maxDepth
    requires Inv(site, Seeds(site, seed, sitemap), maxDepth, before, current.depth)
    requires current.url in site.Reach(Seeds(site, seed, sitemap), current.depth)
    requires site.canonical(current.url) in before.dist && before.dist[site.canonical(current.url)] == current.depth
    requires before.fetched != [] && before.fetched[|before.fetched| - 1] == current.url
    requires Closed(site, before, |before.fetched| - 1)
    requires SeedsFound(site, before.dist, seed, sitemap, |sitemap|)
    requires |before.discovered| < maxPages && InOrder(before, site.canonical(seed))
    ensures Inv(site, Seeds(site, seed, sitemap), maxDepth, w, current.depth)
    ensures InOrder(w, site.canonical(seed))
    ensures w.fetched == before.fetched && Closed(site, w, |before.fetched| - 1)
    ensures site.canonical(current.url) in w.dist && w.dist[site.canonical(current.url)] == current.depth
    ensures SeedsFound(site, w.dist, seed, sitemap, |sitemap|)
    ensures |w.discovered| <= maxPages
    ensures 0 <= |w.queue| - |before.queue| <= |w.discovered| - |before.discovered|
    ensures |w.discovered| < maxPages ==> Closed(site, w, |w.fetched|)
  {
    hide Inv, Seeds, SeedsFound, LinkFound, Closed, InOrder;
    w := before;
    ghost var seeds, here := Seeds(site, seed, sitemap), site.canonical(current.url);
    for j := 0 to |links|
      invariant Inv(site, seeds, maxDepth, w, current.depth)
      invariant SeedsFound(site, w.dist, seed, sitemap, |sitemap|) && InOrder(w, site.canonical(seed))
      invariant w.fetched == before.fetched
      invariant here in w.dist && w.dist[here] == current.depth
      invariant |w.discovered| <= maxPages
      invariant 0 <= |w.queue| - |before.queue| <= |w.discovered| - |before.discovered|
      invariant Closed(site, w, |w.fetched| - 1)
      invariant LinksFound(site, w.dist, current.url, j)
    {
      if |w.discovered| >= maxPages {
        break;
      }
      NextLink(site, w.dist, current.url, j);
      var canonical := site.canonical(links[j]);
      DiscoveredIsDist(site, seeds, maxDepth, w, current.depth, canonical);
      if canonical in w.discovered {
        EarlierFound(site, seeds, maxDepth, w, current.depth, current.url, canonical);
        continue;
      }
      if !site.matches(links[j]) {
        continue;
      }
      var depth, enqueue := current.depth + 1, current.depth + 1 <= maxDepth && canonical !in w.queued;
      FindLink(site, seed, sitemap, maxDepth, w, current, j);
      LinkKeepsOrder(site, seeds, maxDepth, w, current.depth, links[j], enqueue, site.canonical(seed));
      w := AddPage(site, w, links[j], depth, enqueue);
    }
    if |w.discovered| < maxPages {
      LastClosed(site, w);
    }
  }

  /** A new matching link can be added one level past the page it is on. */
  lemma FindLink(site: Site, seed: string, sitemap: seq<string>, maxDepth: int, w: Walk, current: Entry, j: nat)
    requires current.depth <= maxDepth && j < |site.Links(current.url)| && site.matches(site.Links(current.url)[j])
    requires Inv(site, Seeds(site, seed, sitemap), maxDepth, w, current.depth)
    requires current.url in site.Reach(Seeds(site, seed, sitemap), current.depth)
    requires site.canonical(current.url) in w.dist && w.dist[site.canonical(current.url)] == current.depth
    requires SeedsFound(site, w.dist, seed, sitemap, |sitemap|)
    requires w.fetched != [] && Closed(site, w, |w.fetched| - 1)
    requires LinksFound(site, w.dist, current.url, j)
    requires site.canonical(site.Links(current.url)[j]) !in w.dist
    ensures var l := site.Links(current.url)[j];
      var v := AddPage(site, w, l, current.depth + 1, current.depth + 1 <= maxDepth);
      && Inv(site, Seeds(site, seed, sitemap), maxDepth, v, current.depth)
      && SeedsFound(site, v.dist, seed, sitemap, |sitemap|)
      && Closed(site, v, |v.fetched| - 1)
      && LinksFound(site, v.dist, current.url, j + 1)
  {
    hide Inv, Seeds, SeedsFound, Closed, LinkFound, LinksFound, AddPage;
    var l, depth := site.Links(current.url)[j], current.depth + 1;
    FoundIsKept(site, Seeds(site, seed, sitemap), maxDepth, w, current, j);
    SeedsKeptByAdd(site, w, l, depth, depth <= maxDepth, seed, sitemap);
    ClosedKeptByAdd(site, w, l, depth, depth <= maxDepth);
    FoundNext(site, w, current, j, depth <= maxDepth);
  }

  lemma FoundIsKept(site: Site, seeds: set<string>, maxDepth: int, w: Walk, current: Entry, j: nat)
    requires current.depth <= maxDepth && j < |site.Links(current.url)| && site.matches(site.Links(current.url)[j])
    requires Inv(site, seeds, maxDepth, w, current.depth) && current.url in site.Reach(seeds, current.depth)
    requires site.canonical(site.Links(current.url)[j]) !in w.dist
    ensures var depth := current.depth + 1;
      Inv(site, seeds, maxDepth, AddPage(site, w, site.Links(current.url)[j], depth, depth <= maxDepth), current.depth)
  {
    hide Inv, AddPage, Site.Reach;
    var depth := current.depth + 1;
    LinkReached(site, seeds, current.url, current.depth, j);
    DepthsBehind(site, seeds, maxDepth, w, current.depth);
    AddKeepsInv(site, seeds, maxDepth, w, current.depth, site.Links(current.url)[j], depth, depth <= maxDepth);
  }

  lemma SeedsKeptByAdd(site: Site, w: Walk, l: string, depth: nat, enqueue: bool, seed: string, sitemap: seq<string>)
    requires SeedsFound(site, w.dist, seed, sitemap, |sitemap|) && site.canonical(l) !in w.dist
    ensures SeedsFound(site, AddPage(site, w, l, depth, enqueue).dist, seed, sitemap, |sitemap|)
  {
    hide SeedsFound;
    SeedsStayFound(site, w.dist, site.canonical(l), depth, seed, sitemap, |sitemap|);
  }

  lemma ClosedKeptByAdd(site: Site, w: Walk, l: string, depth: nat, enqueue: bool)
    requires w.fetched != [] && Closed(site, w, |w.fetched| - 1) && site.canonical(l) !in w.dist
    ensures var v := AddPage(site, w, l, depth, enqueue); v.fetched == w.fetched && Closed(site, v, |v.fetched| - 1)
  {
    ClosedStays(site, w, |w.fetched| - 1, l, depth, enqueue);
  }

  lemma FoundNext(site: Site, w: Walk, current: Entry, j: nat, enqueue: bool)
    requires j < |site.Links(current.url)| && LinksFound(site, w.dist, current.url, j)
    requires site.canonical(current.url) in w.dist && w.dist[site.canonical(current.url)] == current.depth
    requires site.canonical(site.Links(current.url)[j]) !in w.dist
    ensures LinksFound(site, AddPage(site, w, site.Links(current.url)[j], current.depth + 1, enqueue).dist, current.url, j + 1)
  {
    hide LinksFound, LinkFound;
    var c := site.canonical(site.Links(current.url)[j]);
    LinksStayFound(site, w.dist, c, current.depth + 1, current.url, j);
    NewLinkFound(site, w.dist, current.url, c);
    NextLink(site, w.dist[c := current.depth + 1], current.url, j);
  }

  lemma PoppedClosed(site: Site, w: Walk, fetch: bool)
    requires w.queue != [] && Closed(site, w, |w.fetched|)
    ensures Closed(site, PopPage(site, w, fetch), |w.fetched|)
  {
  }

  lemma HeadIsSeed(site: Site, seed: string, sitemap: seq<string>, maxDepth: int, w: Walk, level: nat)
    requires Inv(site, Seeds(site, seed, sitemap), maxDepth, w, level) && w.queue != []
    requires SeedsFound(site, w.dist, seed, sitemap, |sitemap|)
    ensures w.queue[0].url == seed ==> w.queue[0].depth == 0
  {
    assert QueuedAt(site, w, w.queue[0]);
  }

  method MapUrls(site: Site, valid: string -> bool, seed: string, sitemap: seq<string>, maxDepth: int, maxPages: int)
    returns (out: MapOutput, ghost fetched: seq<string>)
    ensures !valid(seed) ==> out == MapOutput([], 0, false, Some(InvalidSeed)) && fetched == []
    ensures valid(seed) ==> WalkResult(site, seed, sitemap, maxDepth, maxPages, out.urls, fetched)
    ensures valid(seed) ==> out.totalFound == |out.urls| && out.sitemapFound == (|sitemap| > 0)
    ensures valid(seed) ==>
              out.error == if seed in fetched && site.fetch(seed).None? then Some(SeedFetchFailed) else None
  {
    if !valid(seed) {
      return MapOutput([], 0, false, Some(InvalidSeed)), [];
    }
    hide Inv, Seeds, SeedsFound, Closed, PopPage, WalkResult, AllAtZero, InOrder, SoFar;
    ghost var level := 0;
    var w := AddSitemap(site, seed, sitemap, maxDepth, maxPages, StartWalk(site, seed));
    NothingFetched(site, seed, sitemap, maxDepth, maxPages, w);
    var seedError := false;
    while |w.queue| > 0 && |w.discovered| < maxPages
      invariant SoFar(site, seed, sitemap, maxDepth, maxPages, w, level)
      invariant seedError <==> seed in w.fetched && site.fetch(seed).None?
      decreases 2 * (maxPages - |w.discovered|) + |w.queue|
    {
      var current := w.queue[0];
      var fetch := current.depth <= maxDepth;
      Popped(site, seed, sitemap, maxDepth, maxPages, w, level, fetch);
      w := PopPage(site, w, fetch);
      level := current.depth;
      if current.depth > maxDepth {
        continue;
      }
      match site.fetch(current.url) {
        case Some(links) =>
          w := VisitLinks(site, seed, sitemap, maxDepth, maxPages, current, links, w);
          PageRead(site, seed, sitemap, maxDepth, maxPages, w, level, current.url);
        case None =>
          NoLinksClosed(site, w, current.url);
          PageRead(site, seed, sitemap, maxDepth, maxPages, w, level, current.url);
          if current.url == seed && current.depth == 0 {
            seedError := true;
          }
      }
    }
    fetched := w.fetched;
    Conclude(site, seed, sitemap, maxDepth, maxPages, w, level);
    out := MapOutput(w.discovered, |w.discovered|, |sitemap| > 0, if seedError then Some(SeedFetchFailed) else None);
  }

  /** What holds between two pages. */
  ghost predicate SoFar(site: Site, seed: string, sitemap: seq<string>, maxDepth: int, maxPages: int, w: Walk, level: nat) {
    && Inv(site, Seeds(site, seed, sitemap), maxDepth, w, level)
    && |w.discovered| <= Limit(maxPages)
    && (|w.discovered| < maxPages ==> SeedsFound(site, w.dist, seed, sitemap, |sitemap|) && Closed(site, w, |w.fetched|))
    && InOrder(w, site.canonical(seed)) && NearClosed(site, seed, sitemap, maxDepth, w, level)
  }

  lemma NothingFetched(site: Site, seed: string, sitemap: seq<string>, maxDepth: int, maxPages: int, w: Walk)
    requires Inv(site, Seeds(site, seed, sitemap), maxDepth, w, 0) && |w.discovered| <= Limit(maxPages) && w.fetched == []
    requires |w.discovered| < maxPages ==> SeedsFound(site, w.dist, seed, sitemap, |sitemap|)
    requires AllAtZero(w) && InOrder(w, site.canonical(seed))
    ensures SoFar(site, seed, sitemap, maxDepth, maxPages, w, 0)
  {
    hide Inv, SeedsFound, InOrder, Seeds;
  }

  /** What the next page is and what holds once it is off the queue. */
  lemma Popped(site: Site, seed: string, sitemap: seq<string>, maxDepth: int, maxPages: int, w: Walk, level: nat, fetch: bool)
    requires SoFar(site, seed, sitemap, maxDepth, maxPages, w, level) && w.queue != [] && |w.discovered| < maxPages
    requires fetch == (w.queue[0].depth <= maxDepth)
    ensures var v, current := PopPage(site, w, fetch), w.queue[0];
      && v.queue == w.queue[1..] && v.discovered == w.discovered
      && (!fetch ==> v.fetched == w.fetched && SoFar(site, seed, sitemap, maxDepth, maxPages, v, current.depth))
      && (fetch ==> v.fetched == w.fetched + [current.url] && v.fetched[|v.fetched| - 1] == current.url)
      && (fetch ==> Closed(site, v, |v.fetched| - 1))
      && SeedsFound(site, v.dist, seed, sitemap, |sitemap|) && InOrder(v, site.canonical(seed))
      && Inv(site, Seeds(site, seed, sitemap), maxDepth, v, current.depth)
      && current.url in site.Reach(Seeds(site, seed, sitemap), current.depth)
      && site.canonical(current.url) in v.dist && v.dist[site.canonical(current.url)] == current.depth
      && (current.url == seed ==> current.depth == 0)
  {
    hide Inv, Seeds, SeedsFound, Closed, InOrder, NearClosed;
    PopKeepsInv(site, Seeds(site, seed, sitemap), maxDepth, w, level, fetch);
    PoppedClosed(site, w, fetch);
    HeadIsSeed(site, seed, sitemap, maxDepth, w, level);
    OrderStays(site, w, fetch, site.canonical(seed));
    if !fetch {
      OnlyZero(site, Seeds(site, seed, sitemap), maxDepth, PopPage(site, w, fetch), w.queue[0].depth);
      NearFromZero(site, seed, sitemap, maxDepth, PopPage(site, w, fetch), w.queue[0].depth);
    }
  }

  lemma PageRead(site: Site, seed: string, sitemap: seq<string>, maxDepth: int, maxPages: int, w: Walk, level: nat, url: string)
    requires Inv(site, Seeds(site, seed, sitemap), maxDepth, w, level) && |w.discovered| <= Limit(maxPages)
    requires SeedsFound(site, w.dist, seed, sitemap, |sitemap|) && InOrder(w, site.canonical(seed))
    requires |w.discovered| < maxPages ==> Closed(site, w, |w.fetched|)
    requires w.fetched != [] && w.fetched[|w.fetched| - 1] == url && Closed(site, w, |w.fetched| - 1)
    requires site.canonical(url) in w.dist && w.dist[site.canonical(url)] == level <= maxDepth
    ensures SoFar(site, seed, sitemap, maxDepth, maxPages, w, level)
  {
    hide Inv, Seeds, SeedsFound, Closed, InOrder;
  }

  /** Either nothing beyond the seeds was found yet, or all seeds were, and the links of all fetched pages but perhaps
      the last, which is one of the current level. */
  ghost predicate NearClosed(site: Site, seed: string, sitemap: seq<string>, maxDepth: int, w: Walk, level: nat) {
    || (forall c :: c in w.dist ==> w.dist[c] == 0)
    || (&& SeedsFound(site, w.dist, seed, sitemap, |sitemap|)
        && w.fetched != [] && Closed(site, w, |w.fetched| - 1)
        && site.canonical(w.fetched[|w.fetched| - 1]) in w.dist
        && w.dist[site.canonical(w.fetched[|w.fetched| - 1])] == level <= maxDepth)
  }

  lemma NearFromZero(site: Site, seed: string, sitemap: seq<string>, maxDepth: int, w: Walk, level: nat)
    requires forall c :: c in w.dist ==> w.dist[c] == 0
    ensures NearClosed(site, seed, sitemap, maxDepth, w, level)
  {
  }

  lemma OrderStays(site: Site, w: Walk, fetch: bool, first: string)
    requires w.queue != [] && InOrder(w, first)
    ensures InOrder(PopPage(site, w, fetch), first)
  {
  }

  /** With a negative depth limit nothing but seeds is ever found. */
  lemma OnlyZero(site: Site, seeds: set<string>, maxDepth: int, w: Walk, level: nat)
    requires Inv(site, seeds, maxDepth, w, level) && maxDepth < 0
    ensures forall c :: c in w.dist ==> w.dist[c] == 0
  {
  }

  /** A page that could not be fetched contributes no links. */
  lemma NoLinksClosed(site: Site, w: Walk, url: string)
    requires w.fetched != [] && w.fetched[|w.fetched| - 1] == url && site.fetch(url).None?
    requires site.canonical(url) in w.dist && Closed(site, w, |w.fetched| - 1)
    ensures Closed(site, w, |w.fetched|)
  {
  }

  // ---------------------------------------------------------------- what the walk returns

  /** The result in terms of the link graph. */
  ghost predicate WalkResult(site: Site, seed: string, sitemap: seq<string>, maxDepth: int, maxPages: int,
                             urls: seq<string>, fetched: seq<string>) {
    var seeds, hops := Seeds(site, seed, sitemap), MaxHops(maxDepth);
    && NoRepeats(urls) && |urls| <= Limit(maxPages)
    // every URL is the seed, a matching sitemap URL, or reachable in at most maxDepth + 1 matching hops
    && (forall c :: c in urls ==> FoundAt(site, seeds, c, hops))
    // and below the cap every such page is listed
    && (|urls| < maxPages && site.Congruent() ==> forall u :: u in site.Reach(seeds, hops) ==> site.canonical(u) in urls)
    // no page is fetched twice
    && (forall i, j :: 0 <= i < j < |fetched| ==> site.canonical(fetched[i]) != site.canonical(fetched[j]))
    && (forall k :: 0 <= k < |fetched| ==> site.canonical(fetched[k]) in urls)
    // the seed comes first, nearer pages before farther ones, and no page is left out for a farther one
    && urls != [] && urls[0] == site.canonical(seed)
    && (site.Congruent() ==> NearestFirst(site, seeds, urls, hops) && NoneNearerLeftOut(site, seeds, urls, hops))
  }

  /** Whatever hops lead to a listed page also lead to each page listed before it. */
  ghost predicate NearestFirst(site: Site, seeds: set<string>, urls: seq<string>, hops: nat) {
    forall i, j, k: nat :: 0 <= i < j < |urls| && k <= hops && FoundAt(site, seeds, urls[j], k) ==> FoundAt(site, seeds, urls[i], k)
  }

  /** Whatever hops lead to a page that is not listed also lead to each page that is. */
  ghost predicate NoneNearerLeftOut(site: Site, seeds: set<string>, urls: seq<string>, hops: nat) {
    forall c, d, k: nat :: k <= hops && FoundAt(site, seeds, c, k) && c !in urls && d in urls ==> FoundAt(site, seeds, d, k)
  }

  lemma ReachOnce(site: Site, seeds: set<string>, k: nat)
    requires k > 0
    ensures site.Reach(seeds, k - 1) <= site.Reach(seeds, k)
  {
  }

  lemma {:induction false} ReachGrows(site: Site, seeds: set<string>, j: nat, k: nat)
    requires j <= k
    ensures site.Reach(seeds, j) <= site.Reach(seeds, k)
  {
    hide Site.Reach;
    if j < k {
      ReachGrows(site, seeds, j, k - 1);
      ReachOnce(site, seeds, k);
    }
  }

  lemma FollowLink(site: Site, w: Walk, i: nat, v: string, u: string)
    requires site.Congruent() && Closed(site, w, |w.fetched|)
    requires i < |w.fetched| && site.canonical(w.fetched[i]) == site.canonical(v)
    requires u in site.Links(v) && site.matches(u)
    ensures site.canonical(v) in w.dist && LinkFound(site, w.dist, v, site.canonical(u))
  {
    hide Closed, LinkFound, Site.Congruent;
    FollowClosed(site, w, |w.fetched|, i, v, u);
  }

  lemma FollowClosed(site: Site, w: Walk, n: nat, i: nat, v: string, u: string)
    requires site.Congruent() && Closed(site, w, n)
    requires i < n && site.canonical(w.fetched[i]) == site.canonical(v)
    requires u in site.Links(v) && site.matches(u)
    ensures site.canonical(v) in w.dist && LinkFound(site, w.dist, v, site.canonical(u))
  {
    var p := w.fetched[i];
    assert site.canonical(u) in site.Targets(v);
    assert site.Targets(v) == site.Targets(p);
    var l :| l in site.Links(p) && site.matches(l) && site.canonical(l) == site.canonical(u);
    var j :| 0 <= j < |site.Links(p)| && site.Links(p)[j] == l;
    assert LinksFound(site, w.dist, p, |site.Links(p)|);
    assert LinkFound(site, w.dist, p, site.canonical(site.Links(p)[j]));
  }

  /** Once the queue is empty and nothing was cut off, whatever is reachable was found, at no more than
      its distance. */
  lemma {:induction false} Complete(site: Site, seed: string, sitemap: seq<string>, maxDepth: int, w: Walk, k: nat, u: string)
    requires site.Congruent() && w.queue == []
    requires Visited(w, maxDepth) && Queue(site, w) && Fetches(site, w, maxDepth)
    requires Closed(site, w, |w.fetched|) && SeedsFound(site, w.dist, seed, sitemap, |sitemap|)
    requires k <= MaxHops(maxDepth) && u in site.Reach(Seeds(site, seed, sitemap), k)
    ensures site.canonical(u) in w.dist && w.dist[site.canonical(u)] <= k
  {
    hide Closed, SeedsFound, Seeds, Visited, Queue, Fetches, LinkFound, SeedFound, Site.Reach, Site.Congruent;
    var seeds := Seeds(site, seed, sitemap);
    if k == 0 {
      ReachStart(site, seeds);
      SeedIsFound(site, seed, sitemap, w, u);
      FoundAtStart(site, w.dist, u);
    } else if u in site.Reach(seeds, k - 1) {
      Complete(site, seed, sitemap, maxDepth, w, k - 1, u);
    } else {
      var v := LastHop(site, seeds, k, u);
      Complete(site, seed, sitemap, maxDepth, w, k - 1, v);
      var i := ShallowFetched(site, w, maxDepth, site.canonical(v));
      FollowLink(site, w, i, v, u);
      OneLevelUp(site, w.dist, v, site.canonical(u));
    }
  }

  /** While the walk is at a level, whatever is reachable in that many hops was found, at no more than its distance. */
  lemma {:induction false} NearComplete(site: Site, seed: string, sitemap: seq<string>, maxDepth: int, w: Walk, level: nat, k: nat, u: string)
    requires site.Congruent() && level <= maxDepth
    requires Visited(w, maxDepth) && Queue(site, w) && Fetches(site, w, maxDepth) && Levels(w, level)
    requires SeedsFound(site, w.dist, seed, sitemap, |sitemap|) && w.fetched != [] && Closed(site, w, |w.fetched| - 1)
    requires var last := site.canonical(w.fetched[|w.fetched| - 1]); last in w.dist && w.dist[last] == level
    requires k <= level && u in site.Reach(Seeds(site, seed, sitemap), k)
    ensures site.canonical(u) in w.dist && w.dist[site.canonical(u)] <= k
  {
    hide Closed, SeedsFound, Seeds, Visited, Queue, Fetches, Levels, LinkFound, SeedFound, Site.Reach, Site.Congruent;
    var seeds := Seeds(site, seed, sitemap);
    if k == 0 {
      ReachStart(site, seeds);
      SeedIsFound(site, seed, sitemap, w, u);
      FoundAtStart(site, w.dist, u);
    } else if u in site.Reach(seeds, k - 1) {
      NearComplete(site, seed, sitemap, maxDepth, w, level, k - 1, u);
    } else {
      var v := LastHop(site, seeds, k, u);
      NearComplete(site, seed, sitemap, maxDepth, w, level, k - 1, v);
      var i := NearFetched(site, w, maxDepth, level, site.canonical(v));
      FollowClosed(site, w, |w.fetched| - 1, i, v, u);
      OneLevelUp(site, w.dist, v, site.canonical(u));
    }
  }

  /** A page found before the current level was fetched before the last page. */
  lemma NearFetched(site: Site, w: Walk, maxDepth: int, level: nat, c: string) returns (i: nat)
    requires Visited(w, maxDepth) && Queue(site, w) && Fetches(site, w, maxDepth) && Levels(w, level) && level <= maxDepth
    requires w.fetched != [] && c in w.dist && w.dist[c] < level
    requires var last := site.canonical(w.fetched[|w.fetched| - 1]); last in w.dist && w.dist[last] == level
    ensures i < |w.fetched| - 1 && site.canonical(w.fetched[i]) == c
  {
    forall k | 0 <= k < |w.queue|
      ensures site.canonical(w.queue[k].url) in w.dist && w.dist[site.canonical(w.queue[k].url)] >= level
    {
      assert QueuedAt(site, w, w.queue[k]);
    }
    assert !OnQueue(site, w, c);
    assert c in w.queued && WasFetched(site, w, c);
    i :| 0 <= i < |w.fetched| && site.canonical(w.fetched[i]) == c;
  }

  ghost predicate Shortest(site: Site, seeds: set<string>, w: Walk, hops: nat) {
    && (forall u, k: nat :: k <= hops && u in site.Reach(seeds, k) && site.canonical(u) in w.dist ==> w.dist[site.canonical(u)] <= k)
    && (forall u, k: nat, c :: k <= hops && u in site.Reach(seeds, k) && site.canonical(u) !in w.dist && c in w.dist ==> w.dist[c] <= k)
  }

  /** Recorded levels are shortest distances, and what was not found is no nearer than what was. */
  lemma ShortestFound(site: Site, seed: string, sitemap: seq<string>, maxDepth: int, w: Walk, level: nat)
    requires site.Congruent() && Inv(site, Seeds(site, seed, sitemap), maxDepth, w, level)
    requires NearClosed(site, seed, sitemap, maxDepth, w, level)
    ensures Shortest(site, Seeds(site, seed, sitemap), w, MaxHops(maxDepth))
  {
    hide Seeds, SeedsFound, Site.Congruent, Site.Reach, Closed, Visited, Queue, Fetches, Sound;
    var seeds := Seeds(site, seed, sitemap);
    if exists c :: c in w.dist && w.dist[c] > 0 {
      forall u, k: nat | k <= level && u in site.Reach(seeds, k)
        ensures site.canonical(u) in w.dist && w.dist[site.canonical(u)] <= k
      {
        NearComplete(site, seed, sitemap, maxDepth, w, level, k, u);
      }
    }
  }

  lemma ReachStart(site: Site, seeds: set<string>)
    ensures site.Reach(seeds, 0) == seeds
  {
  }

  lemma FoundAtStart(site: Site, dist: map<string, nat>, u: string)
    requires SeedFound(site, dist, u)
    ensures site.canonical(u) in dist && dist[site.canonical(u)] == 0
  {
  }

  lemma OneLevelUp(site: Site, dist: map<string, nat>, v: string, c: string)
    requires site.canonical(v) in dist && LinkFound(site, dist, v, c)
    ensures c in dist && dist[c] <= dist[site.canonical(v)] + 1
  {
  }

  lemma LastHop(site: Site, seeds: set<string>, k: nat, u: string) returns (v: string)
    requires k > 0 && u in site.Reach(seeds, k) && u !in site.Reach(seeds, k - 1)
    ensures v in site.Reach(seeds, k - 1) && u in site.Links(v) && site.matches(u)
  {
    v :| v in site.Reach(seeds, k - 1) && u in site.Links(v) && site.matches(u);
  }

  /** With the queue empty, every page found within the depth limit was fetched. */
  lemma ShallowFetched(site: Site, w: Walk, maxDepth: int, c: string) returns (i: nat)
    requires w.queue == [] && Visited(w, maxDepth) && Queue(site, w) && Fetches(site, w, maxDepth)
    requires c in w.dist && w.dist[c] <= maxDepth
    ensures i < |w.fetched| && site.canonical(w.fetched[i]) == c
  {
    assert c in w.queued && !OnQueue(site, w, c);
    assert WasFetched(site, w, c);
    i :| 0 <= i < |w.fetched| && site.canonical(w.fetched[i]) == c;
  }

  lemma SeedIsFound(site: Site, seed: string, sitemap: seq<string>, w: Walk, u: string)
    requires SeedsFound(site, w.dist, seed, sitemap, |sitemap|)
    requires u in Seeds(site, seed, sitemap)
    ensures SeedFound(site, w.dist, u)
  {
    if u != seed {
      var k :| 0 <= k < |sitemap| && sitemap[k] == u;
      assert site.matches(sitemap[k]);
    }
  }

  lemma FoundGrows(site: Site, seeds: set<string>, c: string, j: nat, k: nat)
    requires FoundAt(site, seeds, c, j) && j <= k
    ensures FoundAt(site, seeds, c, k)
  {
    ReachGrows(site, seeds, j, k);
  }

  lemma ShortestOrders(site: Site, seeds: set<string>, maxDepth: int, w: Walk, first: string)
    requires Visited(w, maxDepth) && Sound(site, seeds, maxDepth, w) && InOrder(w, first)
    requires Shortest(site, seeds, w, MaxHops(maxDepth))
    ensures NearestFirst(site, seeds, w.discovered, MaxHops(maxDepth))
    ensures NoneNearerLeftOut(site, seeds, w.discovered, MaxHops(maxDepth))
  {
    hide FoundAt;
    var hops := MaxHops(maxDepth);
    forall i, j, k: nat | 0 <= i < j < |w.discovered| && k <= hops && FoundAt(site, seeds, w.discovered[j], k)
      ensures FoundAt(site, seeds, w.discovered[i], k)
    {
      NoFarther(site, seeds, w, hops, w.discovered[j], w.discovered[j], k);
      FoundGrows(site, seeds, w.discovered[i], w.dist[w.discovered[i]], k);
    }
    forall c, d, k: nat | k <= hops && FoundAt(site, seeds, c, k) && c !in w.discovered && d in w.discovered
      ensures FoundAt(site, seeds, d, k)
    {
      NoFarther(site, seeds, w, hops, c, d, k);
      FoundGrows(site, seeds, d, w.dist[d], k);
    }
  }

  lemma NoFarther(site: Site, seeds: set<string>, w: Walk, hops: nat, c: string, d: string, k: nat)
    requires Shortest(site, seeds, w, hops) && k <= hops && FoundAt(site, seeds, c, k)
    requires d in w.dist && (c == d || c !in w.dist)
    ensures w.dist[d] <= k
  {
    var u :| u in site.Reach(seeds, k) && site.canonical(u) == c;
  }

  lemma OrderOfResult(site: Site, seed: string, sitemap: seq<string>, maxDepth: int, w: Walk, level: nat)
    requires Inv(site, Seeds(site, seed, sitemap), maxDepth, w, level)
    requires InOrder(w, site.canonical(seed)) && NearClosed(site, seed, sitemap, maxDepth, w, level)
    ensures w.discovered != [] && w.discovered[0] == site.canonical(seed)
    ensures site.Congruent() ==>
      && NearestFirst(site, Seeds(site, seed, sitemap), w.discovered, MaxHops(maxDepth))
      && NoneNearerLeftOut(site, Seeds(site, seed, sitemap), w.discovered, MaxHops(maxDepth))
  {
    hide Visited, Queue, Fetches, Sound, Levels, NearestFirst, NoneNearerLeftOut, NearClosed, Shortest, Seeds;
    if site.Congruent() {
      ShortestFound(site, seed, sitemap, maxDepth, w, level);
      ShortestOrders(site, Seeds(site, seed, sitemap), maxDepth, w, site.canonical(seed));
    }
  }

  lemma Conclude(site: Site, seed: string, sitemap: seq<string>, maxDepth: int, maxPages: int, w: Walk, level: nat)
    requires SoFar(site, seed, sitemap, maxDepth, maxPages, w, level)
    requires w.queue == [] || |w.discovered| >= maxPages
    ensures WalkResult(site, seed, sitemap, maxDepth, maxPages, w.discovered, w.fetched)
  {
    OrderOfResult(site, seed, sitemap, maxDepth, w, level);
    hide Closed, SeedsFound, Seeds, Levels, NearestFirst, NoneNearerLeftOut, NearClosed;
    var seeds, hops := Seeds(site, seed, sitemap), MaxHops(maxDepth);
    forall c | c in w.discovered
      ensures FoundAt(site, seeds, c, hops)
    {
      assert FoundAt(site, seeds, c, w.dist[c]);
      ReachGrows(site, seeds, w.dist[c], hops);
    }
    if |w.discovered| < maxPages && site.Congruent() {
      forall u | u in site.Reach(seeds, hops)
        ensures site.canonical(u) in w.discovered
      {
        Complete(site, seed, sitemap, maxDepth, w, hops, u);
      }
    }
  }
}
