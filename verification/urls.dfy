/**
 * URLs as the crawler sees them after `urlparse`, the link filter of both
 * crawlers and the cleaning `scheme + "://" + netloc + path` that makes a
 * link a crawl key.  Resolving an `href` against the page URL
 * (`urljoin` followed by `urlparse`) is a parameter `resolve` of the
 * operations that need it.
 */
module Urls {
  import opened Util
  import opened Html

  /** The six fields of `urllib.parse.urlparse`. */
  datatype Url = Url(scheme: string, netloc: string, path: string, params: string, query: string, fragment: string)

  /** `urljoin` then `urlparse`: the URL an `href` on a page leads to. */
  type Resolver = (Url, string) -> Url

  /** A URL already in the form `scheme://netloc/path`. */
  predicate IsClean(u: Url)
  {
    u.params == "" && u.query == "" && u.fragment == ""
  }

  /** The URL read back from `parsed.scheme + "://" + parsed.netloc + parsed.path`. */
  function Clean(u: Url): (r: Url)
    ensures IsClean(r)
    ensures r.scheme == u.scheme && r.netloc == u.netloc && r.path == u.path
    ensures IsClean(u) ==> r == u
  {
    Url(u.scheme, u.netloc, u.path, "", "", "")
  }

  lemma CleanIdempotent(u: Url)
    ensures Clean(Clean(u)) == Clean(u)
  {
  }

  /** The string form of a clean URL, as the crawlers print and key it. */
  function Render(u: Url): string
  {
    u.scheme + "://" + u.netloc + u.path
  }

  /** The targets faster.py drops before resolving: mail, telephone and script links and Cloudflare paths. */
  predicate Skipped(href: string)
  {
    || StartsWith(href, "mailto:") || StartsWith(href, "tel:") || StartsWith(href, "javascript:")
    || Contains(href, "cdn-cgi")
  }

  /** Mail, telephone and script targets are dropped, and so is any target mentioning `cdn-cgi` wherever it stands. */
  lemma SkippedTargets(s: string, t: string)
    ensures Skipped("mailto:" + s) && Skipped("tel:" + s) && Skipped("javascript:" + s)
    ensures Skipped(s + "cdn-cgi" + t)
  {
    assert ("mailto:" + s)[..|"mailto:"|] == "mailto:";
    assert ("tel:" + s)[..|"tel:"|] == "tel:";
    assert ("javascript:" + s)[..|"javascript:"|] == "javascript:";
    var u := s + "cdn-cgi" + t;
    assert u[|s|..|s| + |"cdn-cgi"|] == "cdn-cgi";
    assert OccursAt(u, "cdn-cgi", |s|);
  }

  /** main.py resolves every target. */
  predicate NeverSkipped(href: string)
  {
    false
  }

  /** The link that one `href` on `page` contributes, if it passes the filter and stays on `base`'s host. */
  function Follow(href: string, page: Url, base: Url, resolve: Resolver, skip: string -> bool): (r: Option<Url>)
    ensures r.Some? ==> IsClean(r.value) && r.value.netloc == base.netloc
    ensures skip(Strip(href)) ==> r.None?
    ensures !skip(Strip(href)) ==> (r.Some? <==> resolve(page, Strip(href)).netloc == base.netloc)
    ensures r.Some? ==> r.value == Clean(resolve(page, Strip(href)))
  {
    var h := Strip(href);
    if skip(h) then None
    else
      var full := resolve(page, h);
      if full.netloc == base.netloc then Some(Clean(full)) else None
  }

  /** The set of links that the `href`s of a page contribute. */
  function Harvest(hrefs: seq<string>, page: Url, base: Url, resolve: Resolver, skip: string -> bool): (r: set<Url>)
    ensures forall l :: l in r ==> IsClean(l) && l.netloc == base.netloc
  {
    if hrefs == [] then {}
    else
      var last := Follow(hrefs[|hrefs| - 1], page, base, resolve, skip);
      Harvest(hrefs[..|hrefs| - 1], page, base, resolve, skip) + (if last.Some? then {last.value} else {})
  }

  /** The link set holds exactly the links that some `href` of the page contributes. */
  lemma {:induction false} HarvestMembers(hrefs: seq<string>, page: Url, base: Url, resolve: Resolver, skip: string -> bool)
    ensures forall l :: l in Harvest(hrefs, page, base, resolve, skip) <==>
      exists h :: h in hrefs && Follow(h, page, base, resolve, skip) == Some(l)
  {
    if hrefs != [] {
      var init, last := hrefs[..|hrefs| - 1], hrefs[|hrefs| - 1];
      HarvestMembers(init, page, base, resolve, skip);
      assert hrefs == init + [last];
      forall l | exists h :: h in hrefs && Follow(h, page, base, resolve, skip) == Some(l)
        ensures l in Harvest(hrefs, page, base, resolve, skip)
      {
        var h :| h in hrefs && Follow(h, page, base, resolve, skip) == Some(l);
        if h != last {
          assert h in init;
        }
      }
    }
  }

  /** A skipped target contributes nothing, wherever it stands among the others. */
  lemma SkippedContributesNothing(before: seq<string>, h: string, after: seq<string>,
                                  page: Url, base: Url, resolve: Resolver, skip: string -> bool)
    requires skip(Strip(h))
    ensures Harvest(before + [h] + after, page, base, resolve, skip) == Harvest(before + after, page, base, resolve, skip)
  {
    var all := before + [h] + after;
    var rest := before + after;
    HarvestMembers(all, page, base, resolve, skip);
    HarvestMembers(rest, page, base, resolve, skip);
    forall l | l in Harvest(all, page, base, resolve, skip)
      ensures l in Harvest(rest, page, base, resolve, skip)
    {
      var g :| g in all && Follow(g, page, base, resolve, skip) == Some(l);
      assert g in rest;
    }
    forall l | l in Harvest(rest, page, base, resolve, skip)
      ensures l in Harvest(all, page, base, resolve, skip)
    {
      var g :| g in rest && Follow(g, page, base, resolve, skip) == Some(l);
      assert g in all;
    }
  }

  /** A target without surrounding whitespace is its own stripped form. */
  lemma StripUnchanged(s: string)
    requires s != [] && !IsSpace(s[0]) && !IsSpace(s[|s| - 1])
    ensures Strip(s) == s
  {
    assert LeadingSpaces(s) == 0;
    assert s[0..] == s;
    assert TrailingStart(s) == |s|;
  }

  /**
   * The scenario of a page at `http://ex.com/` linking to `/b?q#f`,
   * `mailto:a@ex.com` and `//o.io`: whatever `urljoin` makes of
   * the mail link, only `http://ex.com/b` is harvested.
   */
  lemma HarvestScenario(resolve: Resolver)
    requires resolve(Url("http", "ex.com", "/", "", "", ""), "/b?q#f") == Url("http", "ex.com", "/b", "", "q", "f")
    requires resolve(Url("http", "ex.com", "/", "", "", ""), "//o.io").netloc == "o.io"
    ensures var home := Url("http", "ex.com", "/", "", "", "");
            Harvest(["/b?q#f", "mailto:a@ex.com", "//o.io"], home, home, resolve, Skipped)
              == {Url("http", "ex.com", "/b", "", "", "")}
  {
    ScenarioLocal(resolve);
    ScenarioMail(resolve);
    ScenarioOther(resolve);
    var home := Url("http", "ex.com", "/", "", "", "");
    HarvestOneOfThree("/b?q#f", "mailto:a@ex.com", "//o.io", home, home, resolve, Skipped,
                      Url("http", "ex.com", "/b", "", "", ""));
  }

  lemma HarvestOneOfThree(a: string, b: string, c: string, page: Url, base: Url, resolve: Resolver,
                          skip: string -> bool, x: Url)
    requires Follow(a, page, base, resolve, skip) == Some(x)
    requires Follow(b, page, base, resolve, skip).None? && Follow(c, page, base, resolve, skip).None?
    ensures Harvest([a, b, c], page, base, resolve, skip) == {x}
  {
    assert [] + [a] == [a] && [a] + [b] == [a, b] && [a, b] + [c] == [a, b, c];
    HarvestSnoc([], a, page, base, resolve, skip);
    assert Harvest([a], page, base, resolve, skip) == {x};
    HarvestSnoc([a], b, page, base, resolve, skip);
    assert Harvest([a, b], page, base, resolve, skip) == {x};
    HarvestSnoc([a, b], c, page, base, resolve, skip);
  }

  /** One more target adds its own link, if any, to the set. */
  lemma HarvestSnoc(hrefs: seq<string>, h: string, page: Url, base: Url, resolve: Resolver, skip: string -> bool)
    ensures var f := Follow(h, page, base, resolve, skip);
            Harvest(hrefs + [h], page, base, resolve, skip)
              == Harvest(hrefs, page, base, resolve, skip) + (if f.Some? then {f.value} else {})
  {
    assert (hrefs + [h])[..|hrefs|] == hrefs;
  }

  lemma ScenarioLocal(resolve: Resolver)
    requires resolve(Url("http", "ex.com", "/", "", "", ""), "/b?q#f") == Url("http", "ex.com", "/b", "", "q", "f")
    ensures var home := Url("http", "ex.com", "/", "", "", "");
            Follow("/b?q#f", home, home, resolve, Skipped) == Some(Url("http", "ex.com", "/b", "", "", ""))
  {
    var h := "/b?q#f";
    StripUnchanged(h);
    NotSkipped(h);
  }

  lemma ScenarioMail(resolve: Resolver)
    ensures var home := Url("http", "ex.com", "/", "", "", "");
            Follow("mailto:a@ex.com", home, home, resolve, Skipped) == None
  {
    var h := "mailto:a@ex.com";
    StripUnchanged(h);
    assert h[..7] == "mailto:";
  }

  lemma ScenarioOther(resolve: Resolver)
    requires resolve(Url("http", "ex.com", "/", "", "", ""), "//o.io").netloc == "o.io"
    ensures var home := Url("http", "ex.com", "/", "", "", "");
            Follow("//o.io", home, home, resolve, Skipped) == None
  {
    var h := "//o.io";
    StripUnchanged(h);
    NotSkipped(h);
  }

  /** A target shorter than `mailto:` that does not start with `t` passes the filter. */
  lemma NotSkipped(s: string)
    requires 0 < |s| < 7 && s[0] != 't'
    ensures !Skipped(s)
  {
  }
}
