/**
 * The client-side domain-migration redirect: a page opened on the legacy
 * domain moves to the primary domain, except for the root and the
 * brand-transition page, and the brand-transition page opened on the
 * primary domain moves to the primary root.
 */
module DomainRedirect {
  import opened Wrappers
  import opened Text

  /**
   * The site constants the redirect reads: the brand-transition path, the
   * legacy and primary host names, and the primary origin.
   */
  datatype Site = Site(brandPath: string, legacyHostname: string, primaryHostname: string, primaryOrigin: string)

  /**
   * `localhost`, the loop-back addresses, and any `*.localhost` name: apart
   * from the two addresses, every local name ends with `localhost`.
   */
  predicate IsLocalHost(hostname: string)
    ensures IsLocalHost(hostname) ==>
              hostname == "127.0.0.1" || hostname == "::1" || EndsWith(hostname, "localhost")
  {
    assert EndsWith(hostname, ".localhost") ==> EndsWith(hostname, "localhost") by {
      if EndsWith(hostname, ".localhost") {
        assert hostname[|hostname| - 9..] == hostname[|hostname| - 10..][1..];
      }
    }
    hostname == "localhost" || hostname == "127.0.0.1" || hostname == "::1" || EndsWith(hostname, ".localhost")
  }

  /** The host itself or its `www.` form: either way the name ends with the expected host. */
  predicate MatchesHost(hostname: string, expected: string)
    ensures MatchesHost(hostname, expected) ==>
              EndsWith(hostname, expected) && (|hostname| == |expected| || |hostname| == |expected| + 4)
  {
    assert hostname == "www." + expected ==> hostname[|hostname| - |expected|..] == expected;
    hostname == expected || hostname == "www." + expected
  }

  /** The brand-transition path itself or anything below it: either way the path starts with the brand path. */
  predicate IsBrandTransitionPath(site: Site, pathname: string)
    ensures IsBrandTransitionPath(site, pathname) ==> StartsWith(pathname, site.brandPath)
  {
    assert StartsWith(pathname, site.brandPath + "/") ==> pathname[..|site.brandPath|] == site.brandPath by {
      if StartsWith(pathname, site.brandPath + "/") {
        assert pathname[..|site.brandPath|] == pathname[..|site.brandPath| + 1][..|site.brandPath|];
      }
    }
    pathname == site.brandPath || StartsWith(pathname, site.brandPath + "/")
  }

  /** Where a redirect goes on the primary origin: a path, the query and the fragment. */
  datatype Target = Target(pathname: string, search: string, hash: string)

  /** The address a redirect replaces the page with. */
  function Url(site: Site, t: Target): string {
    site.primaryOrigin + t.pathname + t.search + t.hash
  }

  /**
   * Where maybeRedirectForDomainMigration sends a page, if anywhere: nowhere
   * on a local host; the same path, query and fragment on the primary origin
   * for a legacy host away from the root and the brand page; the primary
   * root with the same query and fragment for the brand page on the primary
   * host. Only a host that is not local and is one of the two site hosts
   * is ever sent anywhere, and the query and fragment always go along.
   */
  function Redirect(site: Site, hostname: string, pathname: string, search: string, hash: string): (r: Option<Target>)
    ensures r.Some? ==> !IsLocalHost(ToLower(hostname))
    ensures r.Some? ==> MatchesHost(ToLower(hostname), ToLower(site.legacyHostname)) ||
                        MatchesHost(ToLower(hostname), ToLower(site.primaryHostname))
    ensures r.Some? ==> r.value.search == search && r.value.hash == hash
    ensures r.Some? ==> (r.value.pathname == pathname && pathname != "/") || r.value.pathname == "/"
  {
    var host := ToLower(hostname);
    if IsLocalHost(host) then None
    else
      var isLegacy := MatchesHost(host, ToLower(site.legacyHostname));
      var isPrimary := MatchesHost(host, ToLower(site.primaryHostname));
      var isBrandTransition := IsBrandTransitionPath(site, pathname);
      if isLegacy && pathname != "/" && !isBrandTransition then Some(Target(pathname, search, hash))
      else if isPrimary && isBrandTransition then Some(Target("/", search, hash))
      else None
  }

  /** The page's address, and the addresses it has been replaced with. */
  class Location {
    var hostname: string
    var pathname: string
    var search: string
    var hash: string
    var replacements: seq<string>

    constructor (hostname: string, pathname: string, search: string, hash: string)
      ensures this.hostname == hostname && this.pathname == pathname
      ensures this.search == search && this.hash == hash && replacements == []
    {
      this.hostname := hostname;
      this.pathname := pathname;
      this.search := search;
      this.hash := hash;
      replacements := [];
    }

    /** `location.replace(url)`: navigate to `url` without a history entry. */
    method Replace(url: string)
      modifies this
      ensures replacements == old(replacements) + [url]
      ensures hostname == old(hostname) && pathname == old(pathname)
      ensures search == old(search) && hash == old(hash)
    {
      replacements := replacements + [url];
    }
  }

  /** maybeRedirectForDomainMigration: replace the page when Redirect says where. */
  method MaybeRedirectForDomainMigration(site: Site, loc: Location)
    modifies loc
    ensures loc.hostname == old(loc.hostname) && loc.pathname == old(loc.pathname)
    ensures loc.search == old(loc.search) && loc.hash == old(loc.hash)
    ensures var r := Redirect(site, old(loc.hostname), old(loc.pathname), old(loc.search), old(loc.hash));
            loc.replacements == old(loc.replacements) + (if r.Some? then [Url(site, r.value)] else [])
  {
    var hostname := ToLower(loc.hostname);
    if IsLocalHost(hostname) {
      return;
    }
    var isLegacy := MatchesHost(hostname, ToLower(site.legacyHostname));
    var isPrimary := MatchesHost(hostname, ToLower(site.primaryHostname));
    var isBrandTransition := IsBrandTransitionPath(site, loc.pathname);
    if isLegacy && loc.pathname != "/" && !isBrandTransition {
      var target := site.primaryOrigin + loc.pathname + loc.search + loc.hash;
      loc.Replace(target);
      return;
    }
    if isPrimary && isBrandTransition {
      var target := site.primaryOrigin + "/" + loc.search + loc.hash;
      loc.Replace(target);
    }
  }

  /**
   * The site constants are consistent: the two domains differ even up to
   * `www.` and case, neither is local, and the brand page is not the root.
   */
  predicate Coherent(site: Site) {
    var legacy := ToLower(site.legacyHostname);
    var primary := ToLower(site.primaryHostname);
    !MatchesHost(primary, legacy) && !MatchesHost(legacy, primary)
    && !IsLocalHost(legacy) && !IsLocalHost(primary)
    && site.brandPath != "" && site.brandPath != "/"
  }

  lemma LowerCharIdempotent(c: char)
    ensures LowerChar(LowerChar(c)) == LowerChar(c)
  {
  }

  lemma ToLowerIdempotent(s: string)
    ensures ToLower(ToLower(s)) == ToLower(s)
  {
    forall i | 0 <= i < |s|
      ensures ToLower(ToLower(s))[i] == ToLower(s)[i]
    {
      LowerCharIdempotent(s[i]);
    }
  }

  /**
   * On the legacy host, only the root and the brand page stay; every other
   * page moves to the primary origin with its path, query and fragment.
   */
  lemma LegacyHostMoves(site: Site, hostname: string, pathname: string, search: string, hash: string)
    requires Coherent(site)
    requires MatchesHost(ToLower(hostname), ToLower(site.legacyHostname))
    ensures Redirect(site, hostname, pathname, search, hash).None? <==>
              pathname == "/" || IsBrandTransitionPath(site, pathname)
    ensures Redirect(site, hostname, pathname, search, hash).Some? ==>
              Url(site, Redirect(site, hostname, pathname, search, hash).value) ==
                site.primaryOrigin + pathname + search + hash
  {
    LegacyIsNotPrimary(site, ToLower(hostname));
  }

  /** On the primary host, exactly the brand page moves, to the root with its query and fragment. */
  lemma PrimaryHostMoves(site: Site, hostname: string, pathname: string, search: string, hash: string)
    requires Coherent(site)
    requires MatchesHost(ToLower(hostname), ToLower(site.primaryHostname))
    ensures Redirect(site, hostname, pathname, search, hash).Some? <==> IsBrandTransitionPath(site, pathname)
    ensures Redirect(site, hostname, pathname, search, hash).Some? ==>
              Url(site, Redirect(site, hostname, pathname, search, hash).value) == site.primaryOrigin + "/" + search + hash
  {
    LegacyIsNotPrimary(site, ToLower(hostname));
  }

  /** Under coherent constants no host is both the legacy and the primary one, nor local. */
  lemma LegacyIsNotPrimary(site: Site, host: string)
    requires Coherent(site)
    ensures !(MatchesHost(host, ToLower(site.legacyHostname)) && MatchesHost(host, ToLower(site.primaryHostname)))
    ensures MatchesHost(host, ToLower(site.legacyHostname)) || MatchesHost(host, ToLower(site.primaryHostname)) ==>
              !IsLocalHost(host)
  {
    var legacy := ToLower(site.legacyHostname);
    var primary := ToLower(site.primaryHostname);
    assert host == "www." + legacy ==> host[4..] == legacy;
    assert host == "www." + primary ==> host[4..] == primary;
    if MatchesHost(host, legacy) && host != legacy {
      WwwIsNotLocal(legacy);
    }
    if MatchesHost(host, primary) && host != primary {
      WwwIsNotLocal(primary);
    }
  }

  /** Prefixing `www.` to a host that is not local keeps it not local. */
  lemma WwwIsNotLocal(host: string)
    requires !IsLocalHost(host)
    ensures !IsLocalHost("www." + host)
  {
    WwwLocalSuffix(host);
    assert ("www." + host)[0] == 'w';
  }

  /** `www.` followed by a host ends with `.localhost` only when the host is or ends with it. */
  lemma WwwLocalSuffix(host: string)
    ensures EndsWith("www." + host, ".localhost") ==> host == "localhost" || EndsWith(host, ".localhost")
  {
    var w := "www." + host;
    if |host| >= 10 {
      assert w[|w| - 10..] == host[|host| - 10..];
    } else if |host| == 9 {
      assert w[|w| - 10..] == "." + host;
      assert ("." + host)[1..] == host && ".localhost"[1..] == "localhost";
    } else if |w| >= 10 {
      assert w[|w| - 10..][0] == w[|w| - 10] == 'w';
    }
  }

  /**
   * Under coherent constants a redirect never loops: the page it lands on,
   * on the primary host, is not redirected again.
   */
  lemma RedirectSettles(site: Site, hostname: string, pathname: string, search: string, hash: string)
    requires Coherent(site)
    requires Redirect(site, hostname, pathname, search, hash).Some?
    ensures var t := Redirect(site, hostname, pathname, search, hash).value;
            Redirect(site, site.primaryHostname, t.pathname, t.search, t.hash).None?
  {
    var primary := ToLower(site.primaryHostname);
    LegacyIsNotPrimary(site, primary);
    assert MatchesHost(primary, primary);
    assert !IsBrandTransitionPath(site, "/");
  }
}
