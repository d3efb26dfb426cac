/** The route families of the documentation: which family a url belongs to, and the footer
    walk over a family with that resolution. */
module DocsFamilies {
  import opened Common
  import opened NextLinks
  import opened PageTree
  import R = LocaleRoutes

  const DIRECT_DOCS_ROUTE_FAMILY_IDS := ["references", "factories", "workers", "workstations"]

  predicate IsFamilySlug(slug: string) {
    exists id :: id in DIRECT_DOCS_ROUTE_FAMILY_IDS && InFamily(id, slug)
  }

  /** `resolveDirectDocsRouteFamilyFromUrl` */
  function FamilyOf(url: string): Option<string> {
    var m := R.MatchLocalizedRoute(url);
    if !m.Matched? || !m.destination.DocsPage? || !IsFamilySlug(m.destination.slug) then None
    else
      var section := R.Split(m.destination.slug)[0];
      if section !in DIRECT_DOCS_ROUTE_FAMILY_IDS then None else Some(section)
  }

  function IndexUrl(family: string, locale: R.Locale): string {
    R.BuildLocalizedRoute(R.DocsPage(family), locale)
  }

  /** The index, in the url's locale, of the url's family. */
  function FamilyIndex(url: string): Option<string> {
    match FamilyOf(url)
    case None => None
    case Some(family) => Some(IndexUrl(family, R.MatchLocalizedRoute(url).locale))
  }

  lemma FamilyIds(family: string)
    ensures family in DIRECT_DOCS_ROUTE_FAMILY_IDS
       <==> family in {"references", "factories", "workers", "workstations"}
  {
  }

  // ----- Paths of a family -----

  lemma FamilyIsWord(family: string)
    requires family in DIRECT_DOCS_ROUTE_FAMILY_IDS
    ensures family != "" && '/' !in family && R.NoSuffix(family) && family != "architecture"
  {
  }

  lemma SectionIsFamily(family: string, slug: string)
    requires '/' !in family && InFamily(family, slug)
    ensures R.Split(slug)[0] == family
  {
    if slug == family {
      R.SplitAtSlash(family, "");
    } else {
      assert slug == family + "/" + slug[|family| + 1..];
      R.SplitAtSlash(family, slug[|family| + 1..]);
    }
  }

  lemma InFamilyUnder(base: string, family: string, slug: string)
    ensures InFamily(base + family, base + slug) <==> InFamily(family, slug)
  {
    var below := base + family + "/";
    assert below == base + (family + "/");
    assert (base + slug)[|base|..] == slug && (base + family)[|base|..] == family;
    if StartsWith(base + slug, below) {
      assert (base + slug)[..|below|][|base|..] == family + "/";
      assert slug[..|family| + 1] == family + "/";
    }
    if StartsWith(slug, family + "/") {
      assert (base + slug)[..|below|] == base + slug[..|family| + 1];
    }
  }

  lemma InFamilyHasPrefix(base: string, family: string, path: string)
    requires InFamily(base + family, path)
    ensures |path| >= |base| && path == base + path[|base|..]
  {
    if path != base + family {
      assert path[..|base|] == (base + family + "/")[..|base|] == base;
    }
  }

  /** The addresses that mean a docs page. */
  lemma DocsPageIff(pathname: string, slug: string)
    ensures R.DestinationOf(pathname) == Some(R.DocsPage(slug))
       <==> pathname == "/docs/" + slug && slug != "" && slug != "architecture"
  {
    R.DestinationOfDocs(slug);
    if R.DestinationOf(pathname) == Some(R.DocsPage(slug)) {
      assert pathname == pathname[..6] + pathname[6..];
    }
  }

  lemma FamilyPathIsPage(family: string, pathname: string)
    requires family in DIRECT_DOCS_ROUTE_FAMILY_IDS && InFamily("/docs/" + family, pathname)
    ensures |pathname| > 6 && InFamily(family, pathname[6..])
    ensures R.DestinationOf(pathname) == Some(R.DocsPage(pathname[6..]))
  {
    InFamilyHasPrefix("/docs/", family, pathname);
    InFamilyUnder("/docs/", family, pathname[6..]);
    FamilyIsWord(family);
    NotArchitecture(family, pathname[6..]);
    DocsPageIff(pathname, pathname[6..]);
  }

  lemma NotArchitecture(family: string, slug: string)
    requires family != "" && family != "architecture" && InFamily(family, slug)
    ensures slug != "" && slug != "architecture"
  {
    if slug != family {
      assert slug[|family|] == '/';
    }
  }

  /** A url belongs to a family exactly when its path without locale is the family's index
      or lies below it. */
  lemma FamilyOfIff(url: string, family: string)
    requires family in DIRECT_DOCS_ROUTE_FAMILY_IDS
    ensures var m := R.MatchLocalizedRoute(url);
      FamilyOf(url) == Some(family) <==> m.Matched? && InFamily("/docs/" + family, m.pathname)
  {
    var m := R.MatchLocalizedRoute(url);
    R.MatchedMeans(url);
    FamilyIsWord(family);
    if FamilyOf(url) == Some(family) {
      var slug := m.destination.slug;
      var id :| id in DIRECT_DOCS_ROUTE_FAMILY_IDS && InFamily(id, slug);
      FamilyIsWord(id);
      SectionIsFamily(id, slug);
      DocsPageIff(m.pathname, slug);
      InFamilyUnder("/docs/", family, slug);
    }
    if m.Matched? && InFamily("/docs/" + family, m.pathname) {
      FamilyPathIsPage(family, m.pathname);
      SectionIsFamily(family, m.pathname[6..]);
    }
  }

  // ----- Indexes -----

  lemma IndexIsWellFormed(family: string, locale: R.Locale)
    requires family in DIRECT_DOCS_ROUTE_FAMILY_IDS
    ensures R.WellFormed(R.DocsPage(family), locale)
  {
    FamilyIsWord(family);
    R.SplitAtSlash(family, "");
  }

  lemma IndexMatches(family: string, locale: R.Locale)
    requires family in DIRECT_DOCS_ROUTE_FAMILY_IDS
    ensures R.MatchLocalizedRoute(IndexUrl(family, locale))
         == R.Matched(locale, R.PathOf(R.DocsPage(family)), R.DocsPage(family))
  {
    IndexIsWellFormed(family, locale);
    R.RouteRoundTripIff(R.DocsPage(family), locale);
  }

  /** The index of a url is that of a family and locale exactly when the url is of that
      locale and its path without locale lies in the family. So other spellings of a page,
      with the default locale written out or a query, have the same index. */
  lemma FamilyIndexIff(url: string, family: string, locale: R.Locale)
    requires family in DIRECT_DOCS_ROUTE_FAMILY_IDS
    ensures var m := R.MatchLocalizedRoute(url);
      FamilyIndex(url) == Some(IndexUrl(family, locale))
      <==> m.Matched? && m.locale == locale && InFamily("/docs/" + family, m.pathname)
  {
    FamilyOfIff(url, family);
    if FamilyOf(url).Some? {
      FamilyOfIsFamily(url);
      IndexMatches(FamilyOf(url).value, R.MatchLocalizedRoute(url).locale);
      IndexMatches(family, locale);
    }
  }

  lemma FamilyOfIsFamily(url: string)
    requires FamilyOf(url).Some?
    ensures FamilyOf(url).value in DIRECT_DOCS_ROUTE_FAMILY_IDS
  {
  }

  /** A path below the index stays below it when it is split and joined again. */
  lemma ReadBackInFamily(locale: R.Locale, family: string, rest: string)
    requires family != "" && '/' !in family && (rest != "" ==> rest[0] == '/')
    ensures InFamily("/docs/" + family, R.ReadBack(locale, "docs", "/" + (family + rest)))
  {
    if locale == R.En {
      assert "/" + "docs" + ("/" + (family + rest)) == "/docs/" + (family + rest);
      InFamilyUnder("/docs/", family, family + rest);
      assert rest != "" ==> family + rest == family + "/" + rest[1..];
      assert rest == "" ==> family + rest == family;
    } else {
      var below := R.Segments(rest);
      R.SegmentsAfterSlash(family + rest);
      R.SegmentsOfWord(family, rest);
      JoinedInFamily(family, below);
    }
  }

  lemma JoinedInFamily(family: string, below: seq<string>)
    ensures InFamily("/docs/" + family, "/" + R.Join(["docs"] + ([family] + below)))
  {
    assert (["docs"] + ([family] + below))[1..] == [family] + below;
    assert ([family] + below)[1..] == below;
    var slug := R.Join([family] + below);
    assert "/" + ("docs" + "/" + slug) == "/docs/" + slug;
    assert below != [] ==> slug == family + "/" + R.Join(below);
    InFamilyUnder("/docs/", family, slug);
  }

  lemma CutTail(tail: string)
    requires tail != "" ==> tail[0] == '/'
    ensures var (rest, suffix) := R.SplitPathname(tail);
      && tail == rest + suffix && R.NoSuffix(rest)
      && (rest != "" ==> rest[0] == '/') && (suffix != "" ==> suffix[0] in {'?', '#'})
  {
    R.SplitPathnameMeans(tail);
  }

  lemma IndexUrlIs(family: string, locale: R.Locale)
    requires R.NoSuffix(family)
    ensures IndexUrl(family, locale) == R.LocalePrefix(locale) + ("/docs/" + family)
  {
    var path := "/docs/" + family;
    R.LocalizePathOf(path, "", locale);
    assert path + "" == path && R.LocalePrefix(locale) + path + "" == R.LocalePrefix(locale) + path;
  }

  lemma TailOf(index: string, url: string) returns (tail: string)
    requires InFamily(index, url)
    ensures url == index + tail && (tail != "" ==> tail[0] == '/')
  {
    tail := url[|index|..];
    assert url != index ==> url[..|index|] == (index + "/")[..|index|] && url[|index|] == '/';
  }

  lemma UrlParts(prefix: string, family: string, rest: string, suffix: string)
    ensures prefix + ("/docs/" + family) + (rest + suffix)
         == prefix + ("/" + "docs" + ("/" + (family + rest))) + suffix
  {
    assert "/" + "docs" + ("/" + (family + rest)) == "/docs/" + family + rest;
  }

  /** Every url at or below a family's index, in any locale, resolves to that index. */
  lemma PageResolves(family: string, locale: R.Locale, url: string)
    requires family in DIRECT_DOCS_ROUTE_FAMILY_IDS && InFamily(IndexUrl(family, locale), url)
    ensures FamilyIndex(url) == Some(IndexUrl(family, locale))
  {
    FamilyIsWord(family);
    IndexUrlIs(family, locale);
    var tail := TailOf(IndexUrl(family, locale), url);
    TailResolves(family, locale, R.LocalePrefix(locale) + ("/docs/" + family) + tail, tail);
  }

  lemma TailResolves(family: string, locale: R.Locale, url: string, tail: string)
    requires family in DIRECT_DOCS_ROUTE_FAMILY_IDS && (tail != "" ==> tail[0] == '/')
    requires url == R.LocalePrefix(locale) + ("/docs/" + family) + tail
    ensures FamilyIndex(url) == Some(IndexUrl(family, locale))
  {
    var (rest, suffix) := R.SplitPathname(tail);
    CutTail(tail);
    UrlParts(R.LocalePrefix(locale), family, rest, suffix);
    PageMatches(family, locale, rest, suffix, "/" + "docs" + ("/" + (family + rest)));
    FamilyIndexIff(url, family, locale);
  }

  lemma PageMatches(family: string, locale: R.Locale, rest: string, suffix: string, plain: string)
    requires family in DIRECT_DOCS_ROUTE_FAMILY_IDS && plain == "/" + "docs" + ("/" + (family + rest))
    requires R.NoSuffix(rest) && (rest != "" ==> rest[0] == '/') && (suffix != "" ==> suffix[0] in {'?', '#'})
    ensures var m := R.MatchLocalizedRoute(R.LocalePrefix(locale) + plain + suffix);
      m.Matched? && m.locale == locale && InFamily("/docs/" + family, m.pathname)
  {
    var pathname := R.ReadBack(locale, "docs", "/" + (family + rest));
    FamilyIsWord(family);
    R.LongWordIsPlain("docs");
    R.MatchLocalized(locale, "docs", "/" + (family + rest), plain, suffix);
    ReadBackInFamily(locale, family, rest);
    FamilyPathIsPage(family, pathname);
  }

  /** So the footer walk of every family in every locale visits exactly the family. */
  lemma EveryFamilyWalk(items: seq<Item>, family: string, locale: R.Locale, indexLabel: string,
                        deleted: string -> bool, n: nat)
    requires Distinct(Urls(items)) && family in DIRECT_DOCS_ROUTE_FAMILY_IDS
    ensures var index := IndexUrl(family, locale);
      WalkFrom(FamilyFooter(items, FamilyIndex, indexLabel, deleted), On(index), n)
      == PlaceAfter([Item(indexLabel, index)] + NestedItems(items, index), deleted, n)
  {
    forall url | InFamily(IndexUrl(family, locale), url)
      ensures FamilyIndex(url) == Some(IndexUrl(family, locale))
    {
      PageResolves(family, locale, url);
    }
    FamilyWalk(items, FamilyIndex, IndexUrl(family, locale), indexLabel, deleted, n);
  }
}
