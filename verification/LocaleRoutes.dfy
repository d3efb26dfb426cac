/** Locale-prefixed routes: building the address of a destination, and reading one back. */
module LocaleRoutes {
  import opened Common

  datatype Locale = En | Ja | ZhCn | Vi

  datatype Destination =
    | Home | Browse | Search | Topology
    | BlogIndex | BlogPost(slug: string)
    | DocsPage(slug: string) | ArchitectureIndex
    | TagsIndex | TagPage(slug: string)

  datatype Match =
    | Matched(locale: Locale, pathname: string, destination: Destination)
    | UnsupportedLocale(name: string, pathname: string)
    | Unmatched(pathname: string)

  function Name(locale: Locale): string {
    match locale
    case En => "en"
    case Ja => "ja"
    case ZhCn => "zh-CN"
    case Vi => "vi"
  }

  function LocaleOf(name: string): Option<Locale> {
    if name == "en" then Some(En)
    else if name == "ja" then Some(Ja)
    else if name == "zh-CN" then Some(ZhCn)
    else if name == "vi" then Some(Vi)
    else None
  }

  /** The default locale has no prefix. */
  function LocalePrefix(locale: Locale): string {
    if locale == En then "" else "/" + Name(locale)
  }

  predicate Lower(c: char) { 'a' <= c <= 'z' }

  predicate Upper(c: char) { 'A' <= c <= 'Z' }

  predicate LooksLikeLocale(s: string) {
    && (|s| == 2 || |s| == 5) && Lower(s[0]) && Lower(s[1])
    && (|s| == 5 ==> s[2] == '-' && Upper(s[3]) && Upper(s[4]))
  }

  // ----- Query and fragment -----

  /** Path, and query or fragment from the first `?` or `#`. */
  function SplitPathname(pathname: string): (string, string) {
    var query, hash := IndexOf(pathname, '?'), IndexOf(pathname, '#');
    var at := if query == -1 then hash else if hash == -1 then query else if query < hash then query else hash;
    if at == -1 then (pathname, "") else (pathname[..at], pathname[at..])
  }

  predicate NoSuffix(path: string) { '?' !in path && '#' !in path }

  lemma SplitPathnameMeans(s: string)
    ensures var (path, suffix) := SplitPathname(s);
      && path + suffix == s && NoSuffix(path)
      && (suffix != "" ==> suffix[0] in {'?', '#'})
  {
  }

  lemma SplitIsUnique(p: string, q: string, s: string, t: string)
    requires NoSuffix(p) && NoSuffix(q) && p + s == q + t
    requires (s != "" ==> s[0] in {'?', '#'}) && (t != "" ==> t[0] in {'?', '#'})
    ensures p == q && s == t
  {
    assert forall k | 0 <= k < |q| :: (p + s)[k] == q[k] && q[k] in q;
    assert forall k | 0 <= k < |p| :: (q + t)[k] == p[k] && p[k] in p;
    assert (s != "" ==> (p + s)[|p|] == s[0]) && (t != "" ==> (q + t)[|q|] == t[0]);
    assert |p| == |q|;
    assert p == (p + s)[..|p|] && q == (q + t)[..|q|];
    assert s == (p + s)[|p|..] && t == (q + t)[|q|..];
  }

  // ----- Segments -----

  function Split(path: string): (parts: seq<string>)
    ensures parts != []
  {
    if path == "" then [""]
    else
      var rest := Split(path[1..]);
      if path[0] == '/' then [""] + rest else [[path[0]] + rest[0]] + rest[1..]
  }

  predicate NonEmpty(s: string) { s != "" }

  /** The non-empty segments of a path. */
  function Segments(path: string): seq<string> {
    Filter(Split(path), NonEmpty)
  }

  function Join(parts: seq<string>): string {
    if parts == [] then ""
    else if |parts| == 1 then parts[0]
    else parts[0] + "/" + Join(parts[1..])
  }

  lemma {:induction false} JoinSplit(path: string)
    ensures Join(Split(path)) == path
  {
    if path != "" {
      JoinSplit(path[1..]);
      assert path == [path[0]] + path[1..];
      assert Split(path)[1..] == if path[0] == '/' then Split(path[1..]) else Split(path[1..])[1..];
    }
  }

  lemma {:induction false} SplitAtSlash(word: string, rest: string)
    requires '/' !in word
    ensures Split(word + "/" + rest) == [word] + Split(rest)
    ensures Split(word) == [word]
  {
    var whole := word + "/" + rest;
    if word == "" {
      assert whole[0] == '/' && whole[1..] == rest;
    } else {
      SplitAtSlash(word[1..], rest);
      assert whole[0] == word[0] && whole[1..] == word[1..] + "/" + rest;
      assert word == [word[0]] + word[1..];
    }
  }

  lemma SegmentsAtSlash(word: string, rest: string)
    requires '/' !in word && word != ""
    ensures Segments(word + "/" + rest) == [word] + Segments(rest)
    ensures Segments(word) == [word]
  {
    SplitAtSlash(word, rest);
    assert ([word] + Split(rest))[1..] == Split(rest);
    FilterSingleton(word, NonEmpty);
  }

  lemma SegmentsAfterSlash(rest: string)
    ensures Segments("/" + rest) == Segments(rest)
  {
    SplitAtSlash("", rest);
    assert "" + "/" + rest == "/" + rest;
    assert ([""] + Split(rest))[1..] == Split(rest);
  }

  /** Joining the segments gives back the path exactly when none is empty. */
  lemma JoinSegmentsIff(path: string)
    requires path != ""
    ensures |Join(Segments(path))| <= |path|
    ensures Join(Segments(path)) == path <==> "" !in Split(path)
  {
    JoinSplit(path);
    JoinShrinks(Split(path));
    if "" !in Split(path) {
      FilterAll(Split(path), NonEmpty);
    }
  }

  lemma {:induction false} JoinShrinks(parts: seq<string>)
    ensures |Join(Filter(parts, NonEmpty))| <= |Join(parts)|
    ensures "" in parts && parts != [""] ==> |Join(Filter(parts, NonEmpty))| < |Join(parts)|
  {
    if |parts| > 0 {
      var kept := Filter(parts[1..], NonEmpty);
      JoinShrinks(parts[1..]);
      assert ([parts[0]] + kept)[1..] == kept;
    }
  }

  // ----- Routes -----

  function NormalizeAbsolutePath(pathname: string): string {
    if pathname == "" then "/" else if pathname[0] == '/' then pathname else "/" + pathname
  }

  function LocalizePath(pathname: string, locale: Locale): string {
    var (path, suffix) := SplitPathname(pathname);
    var normalized := NormalizeAbsolutePath(path);
    if normalized == "/" then (if LocalePrefix(locale) == "" then "/" else LocalePrefix(locale)) + suffix
    else LocalePrefix(locale) + normalized + suffix
  }

  function PathOf(destination: Destination): string {
    match destination
    case Home => "/"
    case Browse => "/browse"
    case Search => "/search"
    case Topology => "/topology"
    case BlogIndex => "/blog"
    case BlogPost(slug) => "/blog/" + slug
    case DocsPage(slug) => "/docs/" + slug
    case ArchitectureIndex => "/docs/architecture"
    case TagsIndex => "/tags"
    case TagPage(slug) => "/tags/" + slug
  }

  function BuildLocalizedRoute(destination: Destination, locale: Locale): string {
    LocalizePath(PathOf(destination), locale)
  }

  function DestinationOf(pathname: string): Option<Destination> {
    if pathname == "/" then Some(Home)
    else if pathname == "/browse" then Some(Browse)
    else if pathname == "/search" then Some(Search)
    else if pathname == "/topology" then Some(Topology)
    else if pathname == "/blog" then Some(BlogIndex)
    else if pathname == "/docs/architecture" then Some(ArchitectureIndex)
    else if pathname == "/tags" then Some(TagsIndex)
    else if "/docs/" <= pathname && |pathname| > 6 then Some(DocsPage(pathname[6..]))
    else if "/blog/" <= pathname && |pathname| > 6 then Some(BlogPost(pathname[6..]))
    else if "/tags/" <= pathname && |pathname| > 6 then Some(TagPage(pathname[6..]))
    else None
  }

  function MatchLocalizedRoute(pathname: string): Match {
    var path := NormalizeAbsolutePath(SplitPathname(pathname).0);
    MatchSegments(path, Segments(path))
  }

  function MatchSegments(path: string, segments: seq<string>): Match {
    if segments != [] && LocaleOf(segments[0]).Some? then
      MatchIn(LocaleOf(segments[0]).value, Stripped(segments), path)
    else if segments != [] && LooksLikeLocale(segments[0]) then UnsupportedLocale(segments[0], path)
    else MatchIn(En, path, path)
  }

  function Stripped(segments: seq<string>): string
    requires segments != []
  {
    if |segments| == 1 then "/" else "/" + Join(segments[1..])
  }

  function MatchIn(locale: Locale, pathname: string, path: string): Match {
    match DestinationOf(pathname)
    case None => Unmatched(path)
    case Some(destination) => Matched(locale, pathname, destination)
  }

  lemma MatchedMeans(pathname: string)
    ensures var m := MatchLocalizedRoute(pathname); m.Matched? ==> DestinationOf(m.pathname) == Some(m.destination)
  {
  }

  lemma LocaleNames(locale: Locale)
    ensures LocaleOf(Name(locale)) == Some(locale)
    ensures '/' !in Name(locale) && Name(locale) != "" && NoSuffix(Name(locale))
  {
  }

  lemma MatchOfPath(path: string, suffix: string)
    requires NoSuffix(path) && path != "" && path[0] == '/' && (suffix != "" ==> suffix[0] in {'?', '#'})
    ensures MatchLocalizedRoute(path + suffix) == MatchSegments(path, Segments(path))
  {
    SplitOfSuffix(path, suffix);
  }

  lemma SegmentsOfPrefixed(name: string, tail: string)
    requires name != "" && '/' !in name
    ensures Segments("/" + name + "/" + tail) == [name] + Segments(tail)
  {
    assert "/" + name + "/" + tail == "/" + (name + "/" + tail);
    SegmentsAfterSlash(name + "/" + tail);
    SegmentsAtSlash(name, tail);
  }

  /** How a path is read: with a locale's prefix taken off, or as it is. */
  lemma MatchAfterPrefix(locale: Locale, word: string, rest: string, path: string)
    requires locale != En && word != "" && '/' !in word && (rest != "" ==> rest[0] == '/')
    requires path == "/" + Name(locale) + "/" + word + rest
    ensures MatchSegments(path, Segments(path)) == MatchIn(locale, "/" + Join([word] + Segments(rest)), path)
  {
    var name := Name(locale);
    LocaleNames(locale);
    assert path == "/" + name + "/" + (word + rest);
    SegmentsOfPrefixed(name, word + rest);
    SegmentsOfWord(word, rest);
    assert Segments(path)[1..] == [word] + Segments(rest);
  }

  lemma MatchWithoutPrefix(word: string, rest: string, path: string)
    requires word != "" && '/' !in word && LocaleOf(word).None? && !LooksLikeLocale(word)
    requires (rest != "" ==> rest[0] == '/') && path == "/" + word + rest
    ensures MatchSegments(path, Segments(path)) == MatchIn(En, path, path)
  {
    SegmentsOfWord(word, rest);
    assert path == "/" + (word + rest);
    SegmentsAfterSlash(word + rest);
  }

  lemma SplitOfSuffix(path: string, suffix: string)
    requires NoSuffix(path) && (suffix != "" ==> suffix[0] in {'?', '#'})
    ensures SplitPathname(path + suffix) == (path, suffix)
  {
    SplitPathnameMeans(path + suffix);
    var (p, s) := SplitPathname(path + suffix);
    SplitIsUnique(p, path, s, suffix);
  }

  lemma SegmentsOfWord(word: string, rest: string)
    requires word != "" && '/' !in word && (rest != "" ==> rest[0] == '/')
    ensures Segments(word + rest) == [word] + Segments(rest)
  {
    if rest == "" {
      assert word + rest == word;
      SegmentsAtSlash(word, "");
    } else {
      assert rest == "/" + rest[1..] && word + rest == word + "/" + rest[1..];
      SegmentsAtSlash(word, rest[1..]);
      SegmentsAfterSlash(rest[1..]);
    }
  }

  // ----- Reading back what was built -----

  /** A first segment that is not taken for a locale. */
  predicate PlainWord(word: string) {
    word != "" && '/' !in word && NoSuffix(word) && LocaleOf(word).None? && !LooksLikeLocale(word)
  }

  /** The pathname a built route is read back as: prefixed routes are split and joined again. */
  function ReadBack(locale: Locale, word: string, rest: string): string {
    if locale == En then "/" + word + rest else "/" + Join([word] + Segments(rest))
  }

  lemma LocalizePathOf(path: string, suffix: string, locale: Locale)
    requires NoSuffix(path) && |path| > 1 && path[0] == '/' && (suffix != "" ==> suffix[0] in {'?', '#'})
    ensures LocalizePath(path + suffix, locale) == LocalePrefix(locale) + path + suffix
  {
    SplitOfSuffix(path, suffix);
  }

  lemma PrefixedPath(locale: Locale, path: string)
    requires NoSuffix(path) && path != "" && path[0] == '/'
    ensures var whole := LocalePrefix(locale) + path; NoSuffix(whole) && whole != "" && whole[0] == '/'
  {
    LocaleNames(locale);
  }

  lemma MatchDefault(word: string, rest: string, plain: string, suffix: string)
    requires PlainWord(word) && NoSuffix(plain) && (rest != "" ==> rest[0] == '/')
    requires plain == "/" + word + rest && (suffix != "" ==> suffix[0] in {'?', '#'})
    ensures MatchLocalizedRoute(plain + suffix) == MatchIn(En, plain, plain)
  {
    MatchOfPath(plain, suffix);
    MatchWithoutPrefix(word, rest, plain);
  }

  lemma MatchPrefixed(locale: Locale, word: string, rest: string, path: string, suffix: string)
    requires locale != En && PlainWord(word) && NoSuffix(path) && (rest != "" ==> rest[0] == '/')
    requires path == "/" + Name(locale) + "/" + word + rest && (suffix != "" ==> suffix[0] in {'?', '#'})
    ensures MatchLocalizedRoute(path + suffix) == MatchIn(locale, "/" + Join([word] + Segments(rest)), path)
  {
    MatchOfPath(path, suffix);
    MatchAfterPrefix(locale, word, rest, path);
  }

  lemma PrefixThen(locale: Locale, word: string, rest: string)
    ensures locale == En ==> LocalePrefix(locale) + ("/" + word + rest) == "/" + word + rest
    ensures locale != En ==>
              LocalePrefix(locale) + ("/" + word + rest) == "/" + Name(locale) + "/" + word + rest
  {
    var name := Name(locale);
    assert ("/" + name) + ("/" + word + rest) == "/" + name + "/" + word + rest;
  }

  /** A built route, `plain` being its path without locale, is read back in its locale. */
  lemma MatchLocalized(locale: Locale, word: string, rest: string, plain: string, suffix: string)
    requires PlainWord(word) && NoSuffix(plain) && (rest != "" ==> rest[0] == '/')
    requires plain == "/" + word + rest && (suffix != "" ==> suffix[0] in {'?', '#'})
    ensures LocalizePath(plain + suffix, locale) == LocalePrefix(locale) + plain + suffix
    ensures MatchLocalizedRoute(LocalePrefix(locale) + plain + suffix)
         == MatchIn(locale, ReadBack(locale, word, rest), LocalePrefix(locale) + plain)
  {
    LocalizePathOf(plain, suffix, locale);
    PrefixedPath(locale, plain);
    PrefixThen(locale, word, rest);
    if locale == En {
      MatchDefault(word, rest, plain, suffix);
    } else {
      MatchPrefixed(locale, word, rest, LocalePrefix(locale) + plain, suffix);
    }
  }

  predicate HasSlug(destination: Destination) {
    destination.BlogPost? || destination.DocsPage? || destination.TagPage?
  }

  /** The slug survives: it is not empty, has no query or fragment, is not the one of the
      architecture page, and under a locale prefix has no empty segment. */
  predicate WellFormed(destination: Destination, locale: Locale) {
    HasSlug(destination) ==>
      && destination.slug != "" && NoSuffix(destination.slug)
      && destination != DocsPage("architecture")
      && (locale != En ==> "" !in Split(destination.slug))
  }

  function Word(destination: Destination): string
    requires HasSlug(destination)
  {
    match destination
    case DocsPage(_) => "docs"
    case BlogPost(_) => "blog"
    case TagPage(_) => "tags"
  }

  lemma PathOfSlug(destination: Destination)
    requires HasSlug(destination)
    ensures PathOf(destination) == "/" + Word(destination) + ("/" + destination.slug)
  {
  }

  lemma DestinationOfSlug(destination: Destination)
    requires HasSlug(destination)
    ensures DestinationOf(PathOf(destination)) == Some(destination)
       <==> destination.slug != "" && destination != DocsPage("architecture")
  {
    match destination
    case DocsPage(slug) => DestinationOfDocs(slug);
    case BlogPost(slug) => DestinationOfBlog(slug);
    case TagPage(slug) => DestinationOfTag(slug);
  }

  lemma DestinationOfBlog(slug: string)
    ensures DestinationOf("/blog/" + slug) == Some(BlogPost(slug)) <==> slug != ""
  {
    var path := "/blog/" + slug;
    assert path[6..] == slug && path[1] == 'b' && path[2] == 'l' && path[5] == '/';
  }

  lemma DestinationOfTag(slug: string)
    ensures DestinationOf("/tags/" + slug) == Some(TagPage(slug)) <==> slug != ""
  {
    var path := "/tags/" + slug;
    assert path[6..] == slug && path[1] == 't' && path[2] == 'a' && path[5] == '/';
  }

  lemma DestinationOfDocs(slug: string)
    ensures DestinationOf("/docs/" + slug) == Some(DocsPage(slug)) <==> slug != "" && slug != "architecture"
  {
    var path := "/docs/" + slug;
    assert path[6..] == slug && path[1] == 'd' && path[5] == '/';
    assert path == "/docs/architecture" <==> slug == "architecture" by {
      assert "/docs/architecture" == "/docs/" + "architecture";
    }
  }

  /** What is read back under a prefix is the slug itself exactly when nothing was cut off
      it and it has no empty segment. */
  lemma ReadBackIff(locale: Locale, word: string, path: string, suffix: string)
    ensures ReadBack(locale, word, "/" + path) == "/" + word + ("/" + path + suffix)
       <==> suffix == "" && (locale != En ==> "" !in Split(path))
  {
    if locale == En {
      assert |"/" + word + ("/" + path + suffix)| == |"/" + word + ("/" + path)| + |suffix|;
      assert suffix == "" ==> path + suffix == path;
    } else {
      SegmentsAfterSlash(path);
      PrefixedReadBackIff(word, path, suffix);
    }
  }

  lemma PrefixedReadBackIff(word: string, path: string, suffix: string)
    ensures "/" + Join([word] + Segments(path)) == "/" + word + ("/" + path + suffix)
       <==> suffix == "" && "" !in Split(path)
  {
    var segments := Segments(path);
    assert ([word] + segments)[1..] == segments;
    if path == "" {
      assert segments == [];
    } else {
      JoinSegmentsIff(path);
      SameAfterWord(word, Join(segments), path + suffix);
      assert suffix == "" ==> path + suffix == path;
      assert segments == [] ==> Join(segments) == "";
    }
  }

  lemma SameAfterWord(word: string, a: string, b: string)
    ensures "/" + word + "/" + a == "/" + word + ("/" + b) <==> a == b
    ensures "/" + (word + "/" + a) == "/" + word + "/" + a
  {
    var head := "/" + word + "/";
    assert (head + a)[|head|..] == a && (head + b)[|head|..] == b;
    assert "/" + word + ("/" + b) == head + b;
  }

  /** A destination's route in any locale is matched to that destination, locale and path
      exactly when its slug is well formed. */
  lemma RouteRoundTripIff(destination: Destination, locale: Locale)
    ensures MatchLocalizedRoute(BuildLocalizedRoute(destination, locale))
              == Matched(locale, PathOf(destination), destination)
       <==> WellFormed(destination, locale)
  {
    if HasSlug(destination) {
      SlugRoundTripIff(destination, locale);
    } else {
      FixedRoundTrip(destination, locale);
    }
  }

  lemma SlugRoundTripIff(destination: Destination, locale: Locale)
    requires HasSlug(destination)
    ensures MatchLocalizedRoute(BuildLocalizedRoute(destination, locale))
              == Matched(locale, PathOf(destination), destination)
       <==> WellFormed(destination, locale)
  {
    var (path, suffix) := SplitPathname(destination.slug);
    SplitPathnameMeans(destination.slug);
    SlugReadBack(destination, locale, path, suffix);
    SlugSurvivesIff(destination, locale, path, suffix, MatchLocalizedRoute(BuildLocalizedRoute(destination, locale)),
                    LocalePrefix(locale) + ("/" + Word(destination) + ("/" + path)));
  }

  lemma NothingCutIff(slug: string, path: string, suffix: string)
    requires slug == path + suffix && NoSuffix(path) && (suffix != "" ==> suffix[0] in {'?', '#'})
    ensures suffix == "" <==> NoSuffix(slug)
    ensures suffix == "" ==> path == slug
  {
    if suffix == "" {
      assert path + suffix == path;
    } else {
      assert suffix[0] == slug[|path|];
    }
  }

  lemma SlugSurvivesIff(
      destination: Destination, locale: Locale, path: string, suffix: string, m: Match, whole: string)
    requires HasSlug(destination) && destination.slug == path + suffix
    requires NoSuffix(path) && (suffix != "" ==> suffix[0] in {'?', '#'})
    requires m == MatchIn(locale, ReadBack(locale, Word(destination), "/" + path), whole)
    ensures m == Matched(locale, PathOf(destination), destination) <==> WellFormed(destination, locale)
  {
    var pathname := ReadBack(locale, Word(destination), "/" + path);
    MatchInIff(locale, pathname, whole, destination);
    DestinationOfSlug(destination);
    SlugReadIff(destination, locale, path, suffix, pathname);
    NothingCutIff(destination.slug, path, suffix);
  }

  lemma SlugReadIff(destination: Destination, locale: Locale, path: string, suffix: string, pathname: string)
    requires HasSlug(destination) && destination.slug == path + suffix
    requires pathname == ReadBack(locale, Word(destination), "/" + path)
    ensures pathname == PathOf(destination) <==> suffix == "" && (locale != En ==> "" !in Split(path))
  {
    PathOfSlug(destination);
    ReadBackIff(locale, Word(destination), path, suffix);
    assert "/" + path + suffix == "/" + destination.slug;
  }

  lemma MatchInIff(locale: Locale, pathname: string, whole: string, destination: Destination)
    ensures MatchIn(locale, pathname, whole) == Matched(locale, PathOf(destination), destination)
       <==> pathname == PathOf(destination) && DestinationOf(pathname) == Some(destination)
  {
  }

  lemma SlugReadBack(destination: Destination, locale: Locale, path: string, suffix: string)
    requires HasSlug(destination) && destination.slug == path + suffix
    requires NoSuffix(path) && (suffix != "" ==> suffix[0] in {'?', '#'})
    ensures var plain := "/" + Word(destination) + ("/" + path);
      MatchLocalizedRoute(BuildLocalizedRoute(destination, locale))
      == MatchIn(locale, ReadBack(locale, Word(destination), "/" + path), LocalePrefix(locale) + plain)
  {
    PathOfSlug(destination);
    WordIsPlain(destination);
    PathReadBack(Word(destination), PathOf(destination), locale, path, suffix);
  }

  lemma WordIsPlain(destination: Destination)
    requires HasSlug(destination)
    ensures PlainWord(Word(destination))
  {
    LongWordIsPlain(Word(destination));
  }

  lemma PathReadBack(word: string, whole: string, locale: Locale, path: string, suffix: string)
    requires PlainWord(word) && NoSuffix(path) && (suffix != "" ==> suffix[0] in {'?', '#'})
    requires whole == "/" + word + ("/" + (path + suffix))
    ensures MatchLocalizedRoute(LocalizePath(whole, locale))
         == MatchIn(locale, ReadBack(locale, word, "/" + path), LocalePrefix(locale) + ("/" + word + ("/" + path)))
  {
    var plain := "/" + word + ("/" + path);
    assert plain + suffix == whole;
    MatchLocalized(locale, word, "/" + path, plain, suffix);
  }

  /** A page with a fixed path is matched to whatever its path stands for. */
  lemma FixedRoundTrip(destination: Destination, locale: Locale)
    requires !HasSlug(destination)
    ensures MatchLocalizedRoute(BuildLocalizedRoute(destination, locale))
         == Matched(locale, PathOf(destination), destination)
  {
    match destination
    case Home => HomeRoundTrip(locale);
    case ArchitectureIndex => ArchitectureRoundTrip(locale);
    case _ => WordRoundTrip(destination, locale);
  }

  lemma WordRoundTrip(destination: Destination, locale: Locale)
    requires !HasSlug(destination) && !destination.Home? && !destination.ArchitectureIndex?
    ensures MatchLocalizedRoute(BuildLocalizedRoute(destination, locale))
         == Matched(locale, PathOf(destination), destination)
  {
    var path := PathOf(destination);
    PathIsWord(destination, path, path[1..]);
    ReadBackWord(locale, path[1..]);
    FixedPageIsRead(locale, path[1..], "", path);
    DestinationOfFixed(destination);
    assert MatchIn(locale, path, LocalePrefix(locale) + path) == Matched(locale, path, destination);
  }

  lemma FixedPathShape(destination: Destination, path: string)
    requires !HasSlug(destination) && !destination.Home? && !destination.ArchitectureIndex?
    requires path == PathOf(destination)
    ensures path[0] == '/' && |path| > 4 && |path| != 6
    ensures NoSuffix(path) && '/' !in path[1..]
  {
  }

  lemma LongWordIsPlain(word: string)
    requires |word| > 3 && |word| != 5 && '/' !in word && NoSuffix(word)
    ensures PlainWord(word)
  {
  }

  lemma PathIsWord(destination: Destination, path: string, word: string)
    requires !HasSlug(destination) && !destination.Home? && !destination.ArchitectureIndex?
    requires path == PathOf(destination) && word == path[1..]
    ensures PlainWord(word) && path == "/" + word + "" && NoSuffix(path)
  {
    FixedPathShape(destination, path);
    LongWordIsPlain(word);
  }

  lemma DestinationOfFixed(destination: Destination)
    requires !HasSlug(destination)
    ensures DestinationOf(PathOf(destination)) == Some(destination)
  {
  }

  lemma ReadBackWord(locale: Locale, word: string)
    ensures ReadBack(locale, word, "") == "/" + word + ""
  {
    assert [word] + Segments("") == [word];
  }

  lemma FixedPageIsRead(locale: Locale, word: string, rest: string, path: string)
    requires PlainWord(word) && path == "/" + word + rest && NoSuffix(path) && (rest != "" ==> rest[0] == '/')
    requires ReadBack(locale, word, rest) == path
    ensures MatchLocalizedRoute(LocalizePath(path, locale)) == MatchIn(locale, path, LocalePrefix(locale) + path)
  {
    MatchLocalized(locale, word, rest, path, "");
    assert path + "" == path && LocalePrefix(locale) + path + "" == LocalePrefix(locale) + path;
  }

  lemma ArchitectureRoundTrip(locale: Locale)
    ensures MatchLocalizedRoute(BuildLocalizedRoute(ArchitectureIndex, locale))
         == Matched(locale, PathOf(ArchitectureIndex), ArchitectureIndex)
  {
    var path := PathOf(ArchitectureIndex);
    ArchitectureIsPage(path, path[1..5], path[6..]);
    TwoSegmentsAreRead(locale, path[1..5], path[6..], path);
    DestinationOfFixed(ArchitectureIndex);
  }

  lemma ArchitectureIsPage(path: string, word: string, page: string)
    requires path == PathOf(ArchitectureIndex) && word == path[1..5] && page == path[6..]
    ensures PlainWord(word) && '/' !in page && page != "" && NoSuffix(path)
    ensures path == "/" + word + ("/" + page)
  {
    assert word == "docs" && page == "architecture";
    LongWordIsPlain(word);
  }

  lemma ReadBackTwo(locale: Locale, word: string, page: string)
    requires '/' !in page && page != ""
    ensures ReadBack(locale, word, "/" + page) == "/" + word + ("/" + page)
  {
    SegmentsAfterSlash(page);
    SegmentsAtSlash(page, "");
    JoinTwo(word, page);
    SameAfterWord(word, page, page);
  }

  lemma JoinTwo(word: string, page: string)
    ensures Join([word] + [page]) == word + "/" + page
  {
    assert ([word] + [page])[1..] == [page];
  }

  lemma TwoSegmentsAreRead(locale: Locale, word: string, page: string, path: string)
    requires PlainWord(word) && '/' !in page && page != "" && NoSuffix(path)
    requires path == "/" + word + ("/" + page)
    ensures MatchLocalizedRoute(LocalizePath(path, locale)) == MatchIn(locale, path, LocalePrefix(locale) + path)
  {
    ReadBackTwo(locale, word, page);
    FixedPageIsRead(locale, word, "/" + page, path);
  }

  lemma LocalizeHome(locale: Locale)
    ensures LocalizePath("/", locale) == if locale == En then "/" else "/" + Name(locale)
  {
    SplitOfSuffix("/", "");
    assert "/" + "" == "/";
    assert locale != En ==> ("/" + Name(locale)) + "" == "/" + Name(locale);
  }

  lemma HomeRoundTrip(locale: Locale)
    ensures MatchLocalizedRoute(BuildLocalizedRoute(Home, locale)) == Matched(locale, "/", Home)
  {
    LocalizeHome(locale);
    if locale == En {
      UnprefixedHome();
    } else {
      PrefixedHome(Name(locale), locale);
    }
  }

  lemma UnprefixedHome()
    ensures MatchLocalizedRoute("/") == Matched(En, "/", Home)
  {
    MatchOfPath("/", "");
    SegmentsAfterSlash("");
    assert "/" + "" == "/";
  }

  lemma PrefixedHome(name: string, locale: Locale)
    requires locale != En && name == Name(locale)
    ensures MatchLocalizedRoute("/" + name) == Matched(locale, "/", Home)
  {
    LocaleNames(locale);
    MatchOfPath("/" + name, "");
    SegmentsAfterSlash(name);
    SegmentsAtSlash(name, "");
    assert "/" + name + "" == "/" + name;
  }

  // ----- Literal addresses -----

  lemma SupportedLocales(name: string)
    ensures LocaleOf(name).Some? <==> name in {"en", "ja", "zh-CN", "vi"}
    ensures LocaleOf(name).Some? ==> Name(LocaleOf(name).value) == name
  {
  }

  /** Addresses in the default locale; other locales put a slash and their name in front. */
  function DefaultAddress(destination: Destination): string {
    match destination
    case Home => "/"
    case Browse => "/browse"
    case Search => "/search"
    case Topology => "/topology"
    case BlogIndex => "/blog"
    case BlogPost(slug) => "/blog/" + slug
    case DocsPage(slug) => "/docs/" + slug
    case ArchitectureIndex => "/docs/architecture"
    case TagsIndex => "/tags"
    case TagPage(slug) => "/tags/" + slug
  }

  lemma PathHasShape(destination: Destination)
    ensures PathOf(destination) == DefaultAddress(destination)
    ensures PathOf(destination) != "" && PathOf(destination)[0] == '/'
  {
  }

  lemma LongPath(destination: Destination)
    requires !destination.Home?
    ensures |PathOf(destination)| > 4 && NoSuffix(PathOf(destination)[..4])
  {
  }

  lemma PathSplits(destination: Destination) returns (path: string, suffix: string)
    requires !destination.Home?
    ensures SplitPathname(PathOf(destination)) == (path, suffix) && path + suffix == PathOf(destination)
    ensures NoSuffix(path) && (suffix != "" ==> suffix[0] in {'?', '#'})
    ensures |path| > 1 && path[0] == '/'
  {
    var whole := PathOf(destination);
    path, suffix := SplitPathname(whole).0, SplitPathname(whole).1;
    SplitPathnameMeans(whole);
    PathHasShape(destination);
    LongPath(destination);
    CutIsLate(whole, path, suffix);
  }

  lemma CutIsLate(whole: string, path: string, suffix: string)
    requires path + suffix == whole && |whole| > 4 && NoSuffix(whole[..4]) && whole[0] == '/'
    requires suffix != "" ==> suffix[0] in {'?', '#'}
    ensures |path| > 1 && path[0] == '/'
  {
    assert forall i | 0 <= i < 4 :: whole[i] == whole[..4][i] && whole[..4][i] in whole[..4];
    assert suffix != "" ==> whole[|path|] == suffix[0];
    assert |path| >= 4;
    assert path[0] == whole[0];
  }

  lemma PrefixIs(locale: Locale, whole: string)
    ensures LocalePrefix(locale) + whole == if locale == En then whole else "/" + Name(locale) + whole
  {
    assert "" + whole == whole;
  }

  lemma LocalizeWhole(whole: string, path: string, suffix: string, locale: Locale)
    requires whole == path + suffix && NoSuffix(path) && |path| > 1 && path[0] == '/'
    requires suffix != "" ==> suffix[0] in {'?', '#'}
    ensures LocalizePath(whole, locale) == LocalePrefix(locale) + whole
  {
    LocalizePathOf(path, suffix, locale);
    SameGrouping(LocalePrefix(locale), path, suffix);
  }

  lemma SameGrouping(a: string, b: string, c: string)
    ensures a + b + c == a + (b + c)
  {
  }

  lemma PageAddressIs(destination: Destination, locale: Locale, address: string)
    requires !destination.Home? && address == PathOf(destination)
    ensures BuildLocalizedRoute(destination, locale)
         == if locale == En then address else "/" + Name(locale) + address
  {
    var path, suffix := PathSplits(destination);
    LocalizeWhole(address, path, suffix, locale);
    PrefixIs(locale, address);
  }

  /** Every address is the default one with the locale in front; the default locale's home
      is a lone slash, another locale's its prefix. */
  lemma AddressIs(destination: Destination, locale: Locale)
    ensures BuildLocalizedRoute(destination, locale)
         == if locale == En then DefaultAddress(destination)
            else if destination.Home? then "/" + Name(locale)
            else "/" + Name(locale) + DefaultAddress(destination)
  {
    if destination.Home? {
      LocalizeHome(locale);
    } else {
      PathHasShape(destination);
      PageAddressIs(destination, locale, PathOf(destination));
    }
  }

  /** Two lower-case letters, or these, a hyphen and two upper-case letters. */
  lemma LocaleShapeIff(s: string)
    ensures LooksLikeLocale(s) <==>
      || (|s| == 2 && 'a' <= s[0] <= 'z' && 'a' <= s[1] <= 'z')
      || (|s| == 5 && 'a' <= s[0] <= 'z' && 'a' <= s[1] <= 'z' && s[2] == '-'
          && 'A' <= s[3] <= 'Z' && 'A' <= s[4] <= 'Z')
  {
  }

  /** A missing leading slash is added. */
  lemma LeadingSlash(path: string)
    ensures NormalizeAbsolutePath(path) == if path != "" && path[0] == '/' then path else "/" + path
  {
  }

  // ----- Every address -----

  /** An address without query and fragment stands for a destination exactly when it is that
      destination's and its slug, if it has one, is not empty; the architecture page hides
      a docs page of that slug. */
  lemma DestinationIff(pathname: string, destination: Destination)
    ensures DestinationOf(pathname) == Some(destination)
       <==> && pathname == DefaultAddress(destination) && destination != DocsPage("architecture")
            && (HasSlug(destination) ==> destination.slug != "")
  {
    PathHasShape(destination);
    if HasSlug(destination) {
      DestinationOfSlug(destination);
      if DestinationOf(pathname) == Some(destination) {
        assert pathname == pathname[..6] + pathname[6..];
      }
    } else {
      DestinationOfFixed(destination);
    }
  }

  /** How any address is matched. The first non-empty segment decides: a supported locale is
      taken off, and the remaining segments are joined; another two-letter code, with or
      without a region, is reported; everything else is read in the default locale. */
  lemma MatchTells(address: string)
    ensures var path := NormalizeAbsolutePath(SplitPathname(address).0);
      var segments := Segments(path);
      match MatchLocalizedRoute(address)
      case Matched(locale, pathname, destination) =>
        && DestinationOf(pathname) == Some(destination)
        && if segments != [] && LocaleOf(segments[0]).Some? then
             && segments[0] == Name(locale)
             && pathname == if |segments| == 1 then "/" else "/" + Join(segments[1..])
           else locale == En && pathname == path && (segments == [] || !LooksLikeLocale(segments[0]))
      case UnsupportedLocale(name, pathname) =>
        && pathname == path && segments != [] && segments[0] == name
        && LooksLikeLocale(name) && name !in {"en", "ja", "zh-CN", "vi"}
      case Unmatched(pathname) =>
        && pathname == path
        && if segments != [] && LocaleOf(segments[0]).Some? then
             DestinationOf(if |segments| == 1 then "/" else "/" + Join(segments[1..])).None?
           else DestinationOf(path).None? && (segments == [] || !LooksLikeLocale(segments[0]))
  {
    var segments := Segments(NormalizeAbsolutePath(SplitPathname(address).0));
    if segments != [] {
      SupportedLocales(segments[0]);
    }
  }

  /** Segments are the non-empty slash-free pieces of a path, in order. */
  lemma {:induction false} SplitPieces(path: string)
    ensures Join(Split(path)) == path && forall piece :: piece in Split(path) ==> '/' !in piece
    ensures forall s :: s in Segments(path) <==> s in Split(path) && s != ""
  {
    JoinSplit(path);
    if path != "" {
      SplitPieces(path[1..]);
      var rest := Split(path[1..]);
      assert rest[0] in rest && forall piece :: piece in rest[1..] ==> piece in rest;
    }
  }
}
