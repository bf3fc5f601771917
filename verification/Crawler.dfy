/**
 The crawl of crawler/baike_crawler2.0: the URL manager's two sets and the worklist loop of
 SpiderMain.craw. Downloading and parsing are a function from a URL to the links of its page, or
 to None where the source's loop is left by an exception.
 */
module Crawler {
  import opened Wrappers

  type Url = string
  type Links = Url -> set<Url>
  type Pages = Url -> Option<set<Url>>

  // A page that cannot be had links to nothing.
  function LinksOf(pages: Pages): Links {
    (u: Url) => match pages(u) case None => {} case Some(links) => links
  }

  // --- Reachability: the reference the crawl is measured against ---

  // u is n links away from root.
  ghost predicate ReachableIn(links: Links, root: Url, u: Url, n: nat)
    decreases n
  {
    if n == 0 then u == root else exists v :: ReachableIn(links, root, v, n - 1) && u in links(v)
  }

  ghost predicate Reachable(links: Links, root: Url, u: Url) {
    exists n: nat :: ReachableIn(links, root, u, n)
  }

  lemma ReachableRoot(links: Links, root: Url)
    ensures Reachable(links, root, root)
  {
    assert ReachableIn(links, root, root, 0);
  }

  lemma ReachableLink(links: Links, root: Url, v: Url, u: Url)
    requires Reachable(links, root, v) && u in links(v)
    ensures Reachable(links, root, u)
  {
    var n: nat :| ReachableIn(links, root, v, n);
    assert ReachableIn(links, root, u, n + 1);
  }

  // A set with the root that no link leaves has every reachable page.
  lemma {:induction false} ClosedHasReachable(links: Links, root: Url, s: set<Url>, u: Url, n: nat)
    requires root in s && (forall v | v in s :: links(v) <= s)
    requires ReachableIn(links, root, u, n)
    ensures u in s
    decreases n
  {
    if n > 0 {
      var v :| ReachableIn(links, root, v, n - 1) && u in links(v);
      ClosedHasReachable(links, root, s, v, n - 1);
    }
  }

  // The page v can be had and has a link to u.
  predicate HasLink(pages: Pages, v: Url, u: Url) {
    match pages(v) case None => false case Some(urls) => u in urls
  }

  // A walk from the root to u along such links.
  predicate IsWalk(pages: Pages, root: Url, walk: seq<Url>, u: Url)
    decreases |walk|
  {
    var n := |walk| - 1;
    && n >= 0 && walk[n] == u
    && if n == 0 then u == root else IsWalk(pages, root, walk[..n], walk[n - 1]) && HasLink(pages, walk[n - 1], u)
  }

  lemma {:induction false} WalkTo(pages: Pages, root: Url, u: Url, n: nat) returns (walk: seq<Url>)
    requires ReachableIn(LinksOf(pages), root, u, n)
    ensures IsWalk(pages, root, walk, u)
    decreases n
  {
    if n == 0 {
      walk := [root];
    } else {
      var v :| ReachableIn(LinksOf(pages), root, v, n - 1) && u in LinksOf(pages)(v);
      var before := WalkTo(pages, root, v, n - 1);
      walk := before + [u];
      assert walk[..|before|] == before;
    }
  }

  lemma {:induction false} WalkReaches(pages: Pages, root: Url, walk: seq<Url>, u: Url)
    requires IsWalk(pages, root, walk, u)
    ensures Reachable(LinksOf(pages), root, u)
    decreases |walk|
  {
    var n := |walk| - 1;
    if n == 0 {
      ReachableRoot(LinksOf(pages), root);
    } else {
      WalkReaches(pages, root, walk[..n], walk[n - 1]);
      ReachableLink(LinksOf(pages), root, walk[n - 1], u);
    }
  }

  /** A page is reachable exactly if a walk along links of downloaded pages leads to it. */
  lemma ReachableIffWalk(pages: Pages, root: Url, u: Url)
    ensures Reachable(LinksOf(pages), root, u) <==> exists walk :: IsWalk(pages, root, walk, u)
  {
    if Reachable(LinksOf(pages), root, u) {
      var n: nat :| ReachableIn(LinksOf(pages), root, u, n);
      var walk := WalkTo(pages, root, u, n);
      assert exists w :: IsWalk(pages, root, w, u);
    } else if walk :| IsWalk(pages, root, walk, u) {
      WalkReaches(pages, root, walk, u);
    }
  }

  // --- manager.py ---

  class Manager {
    var new_url: set<Url>
    var old_url: set<Url>

    constructor ()
      ensures new_url == {} && old_url == {}
    {
      new_url, old_url := {}, {};
    }

    method AddUrl(url: Option<Url>)
      modifies this
      ensures old_url == old(old_url)
      ensures new_url == if url.Some? && url.value !in old(old_url) then old(new_url) + {url.value} else old(new_url)
    {
      if url.None? {
        return;
      } else if url.value !in new_url && url.value !in old_url {
        new_url := new_url + {url.value};
      }
    }

    method AddUrls(urls: Option<set<Url>>)
      modifies this
      ensures old_url == old(old_url)
      ensures new_url == old(new_url) + if urls.Some? then urls.value - old(old_url) else {}
    {
      if urls.None? || urls.value == {} {
        return;
      }
      var left := urls.value;
      while left != {}
        invariant left <= urls.value && old_url == old(old_url)
        invariant new_url == old(new_url) + (urls.value - left - old(old_url))
      {
        var x :| x in left;
        AddUrl(Some(x));
        left := left - {x};
      }
    }

    method HasNewUrl() returns (r: bool)
      ensures r <==> new_url != {}
    {
      r := new_url != {};
    }

    // set.pop takes any element; on an empty set it raises KeyError: None.
    method GetUrl() returns (ret: Option<Url>)
      modifies this
      ensures ret.None? <==> old(new_url) == {}
      ensures ret.None? ==> new_url == old(new_url) && old_url == old(old_url)
      ensures ret.Some? ==> ret.value in old(new_url) && new_url == old(new_url) - {ret.value}
      ensures ret.Some? ==> old_url == old(old_url) + {ret.value}
    {
      if new_url == {} {
        return None;
      }
      var u :| u in new_url;
      new_url := new_url - {u};
      old_url := old_url + {u};
      ret := Some(u);
    }
  }

  // --- main.py ---

  ghost function AllLinks(links: Links, pages: set<Url>): set<Url> {
    set v, u | v in pages && u in links(v) :: u
  }

  ghost function Elements(s: seq<Url>): set<Url> {
    set u | u in s
  }

  ghost predicate NoDuplicates(s: seq<Url>) {
    forall i, j | 0 <= i < j < |s| :: s[i] != s[j]
  }

  ghost predicate LinkedFromEarlier(links: Links, fetched: seq<Url>, i: nat)
    requires i < |fetched|
  {
    exists j :: 0 <= j < i && fetched[i] in links(fetched[j])
  }

  // The first page is the root; each later one is linked from one that was fetched before it.
  ghost predicate Discovered(links: Links, root: Url, fetched: seq<Url>) {
    && (fetched != [] ==> fetched[0] == root)
    && forall i | 0 < i < |fetched| :: LinkedFromEarlier(links, fetched, i)
  }

  // What holds whenever the loop tests its condition.
  ghost predicate CrawlInv(links: Links, root: Url, newUrls: set<Url>, oldUrls: set<Url>, fetched: seq<Url>) {
    && newUrls !! oldUrls
    && oldUrls == Elements(fetched) && NoDuplicates(fetched)
    && newUrls + oldUrls == {root} + AllLinks(links, oldUrls)
    && Discovered(links, root, fetched)
    && (forall u | u in newUrls + oldUrls :: Reachable(links, root, u))
  }

  lemma {:induction false} ElementsSize(s: seq<Url>)
    requires NoDuplicates(s)
    ensures |Elements(s)| == |s|
  {
    if s != [] {
      ElementsSize(s[1..]);
      assert Elements(s) == {s[0]} + Elements(s[1..]);
    }
  }

  lemma SubsetSize(a: set<Url>, b: set<Url>)
    requires a <= b
    ensures |a| <= |b| && (|a| == |b| ==> a == b)
  {
    assert b == a + (b - a);
  }

  // A known page that was not fetched is the root or is linked from a fetched page.
  lemma DiscoveredNext(links: Links, root: Url, newUrls: set<Url>, oldUrls: set<Url>, fetched: seq<Url>, u: Url)
    requires CrawlInv(links, root, newUrls, oldUrls, fetched) && u in newUrls
    ensures Discovered(links, root, fetched + [u])
  {
    var longer := fetched + [u];
    if fetched != [] {
      assert root in oldUrls && u in AllLinks(links, oldUrls);
      var v :| v in oldUrls && u in links(v);
      var j :| 0 <= j < |fetched| && fetched[j] == v;
      assert longer[|fetched|] in links(longer[j]);
      forall i | 0 < i < |fetched|
        ensures LinkedFromEarlier(links, longer, i)
      {
        assert LinkedFromEarlier(links, fetched, i);
        var k :| 0 <= k < i && fetched[i] in links(fetched[k]);
        assert longer[i] in links(longer[k]);
      }
    }
  }

  // The known pages grow by the links of the page that is visited.
  lemma KnownAfterVisit(links: Links, root: Url, newUrls: set<Url>, oldUrls: set<Url>, u: Url)
    requires newUrls !! oldUrls && u in newUrls
    requires newUrls + oldUrls == {root} + AllLinks(links, oldUrls)
    ensures var old' := oldUrls + {u}; var new' := newUrls - {u} + (links(u) - old');
            && new' !! old' && new' + old' == newUrls + oldUrls + links(u)
            && new' + old' == {root} + AllLinks(links, old')
  {
    assert AllLinks(links, oldUrls + {u}) == AllLinks(links, oldUrls) + links(u);
  }

  lemma ElementsAppend(s: seq<Url>, u: Url)
    requires NoDuplicates(s) && u !in Elements(s)
    ensures Elements(s + [u]) == Elements(s) + {u} && NoDuplicates(s + [u])
  {
    assert forall i | 0 <= i < |s| :: s[i] in Elements(s);
  }

  lemma VisitKeepsInv(links: Links, root: Url, newUrls: set<Url>, oldUrls: set<Url>, fetched: seq<Url>, u: Url)
    requires CrawlInv(links, root, newUrls, oldUrls, fetched) && u in newUrls
    ensures var old' := oldUrls + {u};
            CrawlInv(links, root, newUrls - {u} + (links(u) - old'), old', fetched + [u])
  {
    DiscoveredNext(links, root, newUrls, oldUrls, fetched, u);
    ElementsAppend(fetched, u);
    KnownAfterVisit(links, root, newUrls, oldUrls, u);
    assert u in newUrls + oldUrls;
    forall x | x in newUrls + oldUrls + links(u)
      ensures Reachable(links, root, x)
    {
      if x in links(u) {
        ReachableLink(links, root, u, x);
      }
    }
  }

  // The known pages are the root and whatever a visited page has a link to.
  ghost predicate KnowsLinks(pages: Pages, root: Url, newUrls: set<Url>, oldUrls: set<Url>) {
    forall u :: u in newUrls + oldUrls <==> u == root || exists v :: v in oldUrls && HasLink(pages, v, u)
  }

  // The visited pages are those a walk leads to.
  ghost predicate VisitedAll(pages: Pages, root: Url, oldUrls: set<Url>) {
    forall u :: u in oldUrls <==> exists walk :: IsWalk(pages, root, walk, u)
  }

  /** The invariant in terms of the downloaded pages. */
  lemma CrawlByPages(pages: Pages, root: Url, newUrls: set<Url>, oldUrls: set<Url>, fetched: seq<Url>)
    requires CrawlInv(LinksOf(pages), root, newUrls, oldUrls, fetched)
    ensures KnowsLinks(pages, root, newUrls, oldUrls)
    ensures newUrls == {} ==> VisitedAll(pages, root, oldUrls)
  {
    forall u
      ensures u in newUrls + oldUrls <==> u == root || exists v :: v in oldUrls && HasLink(pages, v, u)
    {
      assert u in newUrls + oldUrls <==> u == root || u in AllLinks(LinksOf(pages), oldUrls);
      if v :| v in oldUrls && HasLink(pages, v, u) {
        assert u in LinksOf(pages)(v);
      }
    }
    if newUrls == {} {
      EmptyFrontierIsComplete(LinksOf(pages), root, oldUrls, fetched);
      forall u {
        ReachableIffWalk(pages, root, u);
      }
    }
  }

  // The source stops at 5 pages; here at `limit`. `fetched` lists the pages in the order in which
  // they are asked for. `failed`: the last of them could not be had, and an exception ended the
  // crawl.
  method Craw(pages: Pages, root: Option<Url>, limit: nat) returns (m: Manager, fetched: seq<Url>, failed: bool)
    ensures fresh(m)
    ensures root.None? ==> fetched == [] && m.new_url == m.old_url == {} && !failed
    ensures root.Some? ==> CrawlInv(LinksOf(pages), root.value, m.new_url, m.old_url, fetched)
    ensures root.Some? ==> KnowsLinks(pages, root.value, m.new_url, m.old_url)
    ensures root.Some? && m.new_url == {} ==> VisitedAll(pages, root.value, m.old_url)
    ensures root.Some? && !failed ==> |fetched| == limit || m.new_url == {}
    ensures |fetched| <= limit && (failed ==> fetched != [])
    ensures forall i | 0 <= i < |fetched| :: pages(fetched[i]).None? <==> failed && i == |fetched| - 1
  {
    m := new Manager();
    m.AddUrl(root);
    fetched := [];
    failed := false;
    ghost var links := LinksOf(pages);
    if root.Some? {
      ReachableRoot(links, root.value);
      assert m.new_url + m.old_url == {root.value} + AllLinks(links, m.old_url);
    }
    var count := 0;
    var more := m.HasNewUrl();
    while more && count < limit && !failed
      invariant fresh(m) && |fetched| <= limit && (more <==> m.new_url != {} && !failed)
      invariant !failed ==> count == |fetched|
      invariant root.None? ==> fetched == [] && m.new_url == m.old_url == {} && !failed
      invariant root.Some? ==> CrawlInv(links, root.value, m.new_url, m.old_url, fetched)
      invariant failed ==> fetched != []
      invariant forall i | 0 <= i < |fetched| :: pages(fetched[i]).None? <==> failed && i == |fetched| - 1
      decreases limit - |fetched|
    {
      ghost var newUrls, oldUrls := m.new_url, m.old_url;
      var popped := m.GetUrl();
      var u := popped.value;
      count := count + 1;
      VisitKeepsInv(links, root.value, newUrls, oldUrls, fetched, u);
      fetched := fetched + [u];
      var page := pages(u);
      if page.None? {
        failed, more := true, false;
      } else {
        m.AddUrls(page);
        more := m.HasNewUrl();
      }
    }
    if root.Some? {
      CrawlByPages(pages, root.value, m.new_url, m.old_url, fetched);
    }
  }

  /** When the frontier runs empty, the fetched pages are exactly the reachable ones, whatever
      the order of the pops. */
  lemma EmptyFrontierIsComplete(links: Links, root: Url, oldUrls: set<Url>, fetched: seq<Url>)
    requires CrawlInv(links, root, {}, oldUrls, fetched)
    ensures forall u :: u in oldUrls <==> Reachable(links, root, u)
  {
    forall v | v in oldUrls
      ensures links(v) <= oldUrls
    {
      assert forall u | u in links(v) :: u in AllLinks(links, oldUrls);
    }
    assert root in {} + oldUrls;
    forall u | Reachable(links, root, u)
      ensures u in oldUrls
    {
      var n: nat :| ReachableIn(links, root, u, n);
      ClosedHasReachable(links, root, oldUrls, u, n);
    }
    assert forall u | u in oldUrls :: u in {} + oldUrls;
  }

  /** How much is fetched does not depend on the order either: all reachable pages, or as many
      as the limit allows. */
  lemma PagesFetched(
      links: Links, root: Url, limit: nat, reachable: set<Url>, newUrls: set<Url>, oldUrls: set<Url>, fetched: seq<Url>)
    requires CrawlInv(links, root, newUrls, oldUrls, fetched)
    requires |fetched| <= limit && (|fetched| == limit || newUrls == {})
    requires forall u :: u in reachable <==> Reachable(links, root, u)
    ensures |fetched| == if |reachable| <= limit then |reachable| else limit
    ensures |reachable| <= limit ==> oldUrls == reachable && newUrls == {}
  {
    ElementsSize(fetched);
    assert forall u | u in oldUrls :: u in newUrls + oldUrls;
    SubsetSize(oldUrls, reachable);
    if newUrls == {} {
      EmptyFrontierIsComplete(links, root, oldUrls, fetched);
      assert oldUrls == reachable;
    } else {
      var u :| u in newUrls;
      assert u in newUrls + oldUrls;
      assert u in reachable && u !in oldUrls;
    }
  }

  /** The crawl fails only on a page that is reachable: if every reachable page can be had, it
      does not fail. */
  lemma NoFailureIfAllReachableDownload(
      pages: Pages, root: Url, newUrls: set<Url>, oldUrls: set<Url>, fetched: seq<Url>)
    requires CrawlInv(LinksOf(pages), root, newUrls, oldUrls, fetched)
    requires forall u | Reachable(LinksOf(pages), root, u) :: pages(u).Some?
    ensures forall i | 0 <= i < |fetched| :: pages(fetched[i]).Some?
  {
    forall i | 0 <= i < |fetched|
      ensures pages(fetched[i]).Some?
    {
      assert fetched[i] in oldUrls && fetched[i] in newUrls + oldUrls;
    }
  }
}
