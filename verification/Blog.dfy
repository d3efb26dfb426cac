/** Blog dates, the published list and its next-post links. A date is checked by building
    it with `Date.UTC`, which overflows out-of-range months and days into their neighbours
    and maps the years 0 to 99 to 1900 to 1999 (section 21.4.3.4 of ECMA-262). */
module Blog {
  import opened Common
  import opened NextLinks

  // ---------------------------------------------------------------- days since the epoch

  predicate IsLeap(year: int) {
    year % 4 == 0 && (year % 100 != 0 || year % 400 == 0)
  }

  function DaysInYear(year: int): int {
    if IsLeap(year) then 366 else 365
  }

  /** Day number of 1 January (section 21.4.1.3 of ECMA-262). */
  function DayFromYear(year: int): int {
    365 * (year - 1970) + (year - 1969) / 4 - (year - 1901) / 100 + (year - 1601) / 400
  }

  function DaysInMonth(year: int, month: int): int {
    if month == 1 then (if IsLeap(year) then 29 else 28)
    else if month in {3, 5, 8, 10} then 30
    else 31
  }

  /** Days of `year` before the zero-based `month` (section 21.4.1.11 of ECMA-262). */
  function MonthStart(year: int, month: nat): int
    requires month <= 12
  {
    var leapDay := if month >= 2 && IsLeap(year) then 1 else 0;
    leapDay + match month
      case 0 => 0
      case 1 => 31
      case 2 => 59
      case 3 => 90
      case 4 => 120
      case 5 => 151
      case 6 => 181
      case 7 => 212
      case 8 => 243
      case 9 => 273
      case 10 => 304
      case 11 => 334
      case _ => 365
  }

  lemma MonthLength(year: int, month: nat)
    requires month < 12
    ensures MonthStart(year, month + 1) == MonthStart(year, month) + DaysInMonth(year, month)
  {
  }

  datatype Fields = Fields(year: int, month: int, day: int)

  /** Calendar fields with a zero-based month, as a `Date` reports them. */
  predicate IsReal(f: Fields) {
    0 <= f.month < 12 && 1 <= f.day <= DaysInMonth(f.year, f.month)
  }

  /** `MakeDay`: months overflow into years, days into months (section 21.4.1.28). */
  function MakeDay(year: int, month: int, day: int): int {
    DayFromYear(year + month / 12) + MonthStart(year + month / 12, month % 12) + day - 1
  }

  function YearFrom(day: int, year: int): (r: int)
    requires DayFromYear(year) <= day
    ensures year <= r && DayFromYear(r) <= day < DayFromYear(r + 1)
    decreases day - DayFromYear(year)
  {
    YearLength(year);
    if day < DayFromYear(year + 1) then year else YearFrom(day, year + 1)
  }

  lemma YearLength(year: int)
    ensures DayFromYear(year + 1) == DayFromYear(year) + DaysInYear(year)
  {
    FourthYears(year);
    HundredthYears(year);
    FourHundredthYears(year);
    DivisorsNest(year);
  }

  lemma FourthYears(year: int)
    ensures (year - 1968) / 4 == (year - 1969) / 4 + if year % 4 == 0 then 1 else 0
  {
  }

  lemma HundredthYears(year: int)
    ensures (year - 1900) / 100 == (year - 1901) / 100 + if year % 100 == 0 then 1 else 0
  {
  }

  lemma FourHundredthYears(year: int)
    ensures (year - 1600) / 400 == (year - 1601) / 400 + if year % 400 == 0 then 1 else 0
  {
  }

  lemma DivisorsNest(year: int)
    ensures year % 400 == 0 ==> year % 100 == 0
    ensures year % 100 == 0 ==> year % 4 == 0
  {
  }

  lemma {:induction false} YearsIncrease(a: int, b: int)
    requires a <= b
    ensures DayFromYear(a) + 365 * (b - a) <= DayFromYear(b)
    decreases b - a
  {
    if a < b {
      YearsIncrease(a, b - 1);
      YearLength(b - 1);
    }
  }

  function MonthFrom(year: int, offset: int, month: nat): (r: nat)
    requires month < 12 && MonthStart(year, month) <= offset < DaysInYear(year)
    ensures r < 12 && MonthStart(year, r) <= offset < MonthStart(year, r + 1)
    decreases 12 - month
  {
    MonthsFillYear(year);
    if offset < MonthStart(year, month + 1) then month else MonthFrom(year, offset, month + 1)
  }

  lemma MonthsFillYear(year: int)
    ensures MonthStart(year, 12) == DaysInYear(year)
  {
  }

  lemma {:induction false} MonthsIncrease(year: int, a: nat, b: nat)
    requires a <= b <= 12
    ensures MonthStart(year, a) + 28 * (b - a) <= MonthStart(year, b)
  {
    if a < b {
      MonthsIncrease(year, a, b - 1);
      MonthLength(year, b - 1);
    }
  }

  /** The UTC fields of a day at or after 1 January of year 0. */
  function FieldsOf(day: int): (f: Fields)
    requires DayFromYear(0) <= day
    ensures IsReal(f) && DayFromYear(f.year) + MonthStart(f.year, f.month) + f.day - 1 == day
  {
    var year := YearFrom(day, 0);
    YearLength(year);
    var month := MonthFrom(year, day - DayFromYear(year), 0);
    MonthLength(year, month);
    Fields(year, month, day - DayFromYear(year) - MonthStart(year, month) + 1)
  }

  /** The day of a real date is its month's start plus its day of the month. */
  lemma DayOfRealDate(f: Fields)
    requires IsReal(f)
    ensures MakeDay(f.year, f.month, f.day) == DayFromYear(f.year) + MonthStart(f.year, f.month) + f.day - 1
    ensures MonthStart(f.year, f.month) + f.day <= MonthStart(f.year, f.month + 1)
  {
    assert f.month / 12 == 0 && f.month % 12 == f.month;
    MonthLength(f.year, f.month);
  }

  /** Chronological order of dates by their fields. */
  predicate Earlier(a: Fields, b: Fields) {
    a.year < b.year || (a.year == b.year && (a.month < b.month || (a.month == b.month && a.day < b.day)))
  }

  /** Days of real dates compare as their fields do, year first. */
  lemma DaysFollowFields(a: Fields, b: Fields)
    requires IsReal(a) && IsReal(b)
    requires Earlier(a, b)
    ensures MakeDay(a.year, a.month, a.day) < MakeDay(b.year, b.month, b.day)
  {
    DayOfRealDate(a);
    DayOfRealDate(b);
    if a.year < b.year {
      EarlierYear(a, b);
    } else if a.month < b.month {
      MonthsIncrease(a.year, a.month + 1, b.month);
    }
  }

  lemma EarlierYear(a: Fields, b: Fields)
    requires IsReal(a) && IsReal(b) && a.year < b.year
    requires MonthStart(a.year, a.month) + a.day <= MonthStart(a.year, a.month + 1)
    ensures DayFromYear(a.year) + MonthStart(a.year, a.month) + a.day
            <= DayFromYear(b.year) + MonthStart(b.year, b.month)
  {
    MonthsIncrease(a.year, a.month + 1, 12);
    MonthsIncrease(b.year, 0, b.month);
    MonthsFillYear(a.year);
    YearLength(a.year);
    YearsIncrease(a.year + 1, b.year);
  }

  /** The fields of a day build that day again. */
  lemma DayRoundTrip(day: int)
    requires DayFromYear(0) <= day
    ensures var f := FieldsOf(day); MakeDay(f.year, f.month, f.day) == day
  {
    DayOfRealDate(FieldsOf(day));
  }

  /** Reading back a day built from real fields gives those fields. */
  lemma FieldsRoundTrip(f: Fields)
    requires IsReal(f) && f.year >= 0
    ensures DayFromYear(0) <= MakeDay(f.year, f.month, f.day)
    ensures FieldsOf(MakeDay(f.year, f.month, f.day)) == f
  {
    DayIsNotBeforeYearZero(f);
    var day := MakeDay(f.year, f.month, f.day);
    DayRoundTrip(day);
    SameDaySameFields(f, FieldsOf(day));
  }

  lemma DayIsNotBeforeYearZero(f: Fields)
    requires IsReal(f) && f.year >= 0
    ensures DayFromYear(0) <= MakeDay(f.year, f.month, f.day)
  {
    DayOfRealDate(f);
    MonthsIncrease(f.year, 0, f.month);
    YearsIncrease(0, f.year);
  }

  lemma SameDaySameFields(f: Fields, g: Fields)
    requires IsReal(f) && IsReal(g) && MakeDay(f.year, f.month, f.day) == MakeDay(g.year, g.month, g.day)
    ensures f == g
  {
    if Earlier(f, g) {
      DaysFollowFields(f, g);
    } else if Earlier(g, f) {
      DaysFollowFields(g, f);
    }
  }

  // ---------------------------------------------------------------- date strings

  predicate IsDigit(c: char) {
    '0' <= c <= '9'
  }

  /** The pattern: four digits, two digits and two digits joined by hyphens. */
  predicate HasDateShape(s: string) {
    && |s| == 10 && s[4] == '-' && s[7] == '-'
    && forall i :: 0 <= i < 10 && i != 4 && i != 7 ==> IsDigit(s[i])
  }

  function Digit(c: char): int {
    c as int - '0' as int
  }

  /** The three numbers as written, the month counted from 1. */
  function Written(s: string): Fields
    requires HasDateShape(s)
  {
    Fields(1000 * Digit(s[0]) + 100 * Digit(s[1]) + 10 * Digit(s[2]) + Digit(s[3]),
           10 * Digit(s[5]) + Digit(s[6]), 10 * Digit(s[8]) + Digit(s[9]))
  }

  lemma WrittenRange(s: string)
    requires HasDateShape(s)
    ensures 0 <= Written(s).year <= 9999 && 0 <= Written(s).month <= 99 && 0 <= Written(s).day <= 99
  {
    assert IsDigit(s[0]) && IsDigit(s[1]) && IsDigit(s[2]) && IsDigit(s[3]);
    assert IsDigit(s[5]) && IsDigit(s[6]) && IsDigit(s[8]) && IsDigit(s[9]);
  }

  /** The year `Date.UTC` uses for a two-digit year. */
  function FullYear(year: int): int {
    if 0 <= year <= 99 then 1900 + year else year
  }

  lemma OverflowIsBounded(year: int, month: int, day: int)
    requires 100 <= year && -1 <= month <= 98 && 0 <= day <= 99
    ensures DayFromYear(year - 2) <= MakeDay(year, month, day)
  {
    YearsIncrease(year - 2, year - 1);
    YearsIncrease(year - 1, year + month / 12);
    MonthsIncrease(year + month / 12, 0, month % 12);
  }

  function UtcDay(s: string): (day: int)
    requires HasDateShape(s)
    ensures DayFromYear(FullYear(Written(s).year) - 2) <= day && DayFromYear(0) <= day
  {
    WrittenRange(s);
    var f := Written(s);
    OverflowIsBounded(FullYear(f.year), f.month - 1, f.day);
    YearsIncrease(0, FullYear(f.year) - 2);
    MakeDay(FullYear(f.year), f.month - 1, f.day)
  }

  predicate IsValidCalendarDate(s: string) {
    HasDateShape(s) &&
    var f := Written(s);
    FieldsOf(UtcDay(s)) == Fields(f.year, f.month - 1, f.day)
  }

  /** Fields survive `Date.UTC` exactly when they are a real date. */
  lemma SurvivesIffReal(f: Fields)
    requires 100 <= f.year && -1 <= f.month <= 98 && 0 <= f.day <= 99
    ensures DayFromYear(0) <= MakeDay(f.year, f.month, f.day)
    ensures FieldsOf(MakeDay(f.year, f.month, f.day)) == f <==> IsReal(f)
  {
    OverflowIsBounded(f.year, f.month, f.day);
    YearsIncrease(0, f.year - 2);
    if IsReal(f) {
      FieldsRoundTrip(f);
    }
  }

  lemma YearFieldIsAtLeast(day: int, year: int)
    requires 0 <= year && DayFromYear(year) <= day && DayFromYear(0) <= day
    ensures year <= FieldsOf(day).year
  {
    var found := YearFrom(day, 0);
    if found < year {
      YearsIncrease(found + 1, year);
    }
  }

  /** The shape, and a date of the Gregorian calendar from the year 100 on. */
  predicate NamesDate(s: string) {
    HasDateShape(s) && Written(s).year >= 100 && IsReal(Written(s).(month := Written(s).month - 1))
  }

  /** A string is accepted exactly when it names such a date; earlier years are read as 19xx
      and so rejected. */
  lemma AcceptedIffRealDate(s: string)
    ensures IsValidCalendarDate(s) <==> NamesDate(s)
  {
    if HasDateShape(s) {
      WrittenRange(s);
      var f := Written(s);
      if f.year < 100 {
        YearFieldIsAtLeast(UtcDay(s), f.year + 1898);
      } else {
        SurvivesIffReal(Fields(f.year, f.month - 1, f.day));
      }
    }
  }

  // ---------------------------------------------------------------- chronological order

  /** What the model asks of `localeCompare`: a total order on strings that puts strings
      of the date shape in digit order. */
  ghost predicate DateCollation(leq: (string, string) -> bool) {
    && TotalOrder(leq)
    && forall a, b :: HasDateShape(a) && HasDateShape(b) ==> (leq(a, b) <==> LexLeq(a, b))
  }

  lemma DateCollationExists()
    ensures DateCollation(LexLeq)
  {
    LexIsTotalOrder();
  }

  lemma {:induction false} LexAt(a: string, b: string, k: nat)
    requires |a| == |b| && k < |a| && a[..k] == b[..k] && a[k] < b[k]
    ensures LexLeq(a, b) && !LexLeq(b, a)
  {
    if k > 0 {
      assert a[0] == a[..k][0] == b[0];
      assert a[1..][..k - 1] == a[..k][1..] == b[..k][1..] == b[1..][..k - 1];
      LexAt(a[1..], b[1..], k - 1);
    }
  }

  /** Position of the first difference. */
  lemma {:induction false} FirstDifference(a: string, b: string) returns (k: nat)
    requires |a| == |b| && a != b
    ensures k < |a| && a[..k] == b[..k] && a[k] != b[k]
  {
    if a[0] != b[0] {
      k := 0;
    } else {
      if a[1..] == b[1..] {
        SameHeadAndTail(a, b);
      }
      var j := FirstDifference(a[1..], b[1..]);
      k := j + 1;
      assert a[..k] == [a[0]] + a[1..][..j] && b[..k] == [b[0]] + b[1..][..j];
    }
  }

  lemma DigitsDecide(a: string, b: string, k: nat)
    requires HasDateShape(a) && HasDateShape(b) && k < 10 && a[..k] == b[..k] && a[k] < b[k]
    ensures Earlier(Written(a), Written(b))
  {
    forall i | 0 <= i < k ensures a[i] == b[i] {
      assert a[i] == a[..k][i] && b[i] == b[..k][i];
    }
    forall i | 0 <= i < 10 && i != 4 && i != 7 ensures 0 <= Digit(a[i]) <= 9 && 0 <= Digit(b[i]) <= 9 {
      assert IsDigit(a[i]) && IsDigit(b[i]);
    }
  }

  lemma EarlierStringEarlierDay(a: string, b: string, k: nat)
    requires NamesDate(a) && NamesDate(b)
    requires k < 10 && a[..k] == b[..k] && a[k] < b[k]
    ensures UtcDay(a) < UtcDay(b)
  {
    DigitsDecide(a, b, k);
    var f, g := Written(a), Written(b);
    DaysFollowFields(f.(month := f.month - 1), g.(month := g.month - 1));
  }

  /** On the dates that are accepted the collation is chronological: strings compare as
      their days. */
  lemma StringOrderIsChronological(leq: (string, string) -> bool, a: string, b: string)
    requires DateCollation(leq) && NamesDate(a) && NamesDate(b)
    ensures leq(a, b) <==> UtcDay(a) <= UtcDay(b)
  {
    if a != b {
      var k := FirstDifference(a, b);
      if a[k] < b[k] {
        LexAt(a, b, k);
        EarlierStringEarlierDay(a, b, k);
      } else {
        LexAt(b, a, k);
        EarlierStringEarlierDay(b, a, k);
      }
    } else {
      LexTotal(a, a);
    }
  }

  // ---------------------------------------------------------------- the published list

  /** A post directory as the list sees it; `listed` says published with messages for the
      locale. */
  datatype Post = Post(slug: string, publishedAt: string, listed: bool)

  /** The comparator as an order: newest date first, then slug. */
  predicate NewestFirst(leq: (string, string) -> bool, a: Post, b: Post) {
    if a.publishedAt != b.publishedAt then leq(b.publishedAt, a.publishedAt) else leq(a.slug, b.slug)
  }

  function Published(posts: seq<Post>): seq<Post> {
    Filter(posts, (p: Post) => p.listed)
  }

  function Listing(leq: (string, string) -> bool, posts: seq<Post>): seq<Post> {
    Sort((a, b) => NewestFirst(leq, a, b), Published(posts))
  }

  /** The loop over the discovered directories. */
  method CollectPublished(posts: seq<Post>) returns (published: seq<Post>)
    ensures published == Published(posts)
  {
    published := [];
    for i := 0 to |posts|
      invariant published == Published(posts[..i])
    {
      FilterSnoc(posts, (p: Post) => p.listed, i);
      if posts[i].listed {
        published := published + [posts[i]];
      }
    }
    TakeAll(posts);
  }

  method ListPublishedBlogPosts(leq: (string, string) -> bool, posts: seq<Post>) returns (listing: seq<Post>)
    ensures listing == Listing(leq, posts)
  {
    var published := CollectPublished(posts);
    listing := Sort((a, b) => NewestFirst(leq, a, b), published);
  }

  function Slugs(posts: seq<Post>): seq<string> {
    seq(|posts|, i requires 0 <= i < |posts| => posts[i].slug)
  }

  lemma NewestFirstIsPreorder(leq: (string, string) -> bool)
    requires TotalOrder(leq)
    ensures TotalPreorder((a, b) => NewestFirst(leq, a, b))
  {
    var order := (a, b) => NewestFirst(leq, a, b);
    forall a, b, c | order(a, b) && order(b, c) ensures order(a, c) {
      NewestFirstTrans(leq, a, b, c);
    }
    forall a, b ensures order(a, b) || order(b, a) {
      assert leq(a.publishedAt, b.publishedAt) || leq(b.publishedAt, a.publishedAt);
      assert leq(a.slug, b.slug) || leq(b.slug, a.slug);
    }
  }

  lemma NewestFirstTrans(leq: (string, string) -> bool, a: Post, b: Post, c: Post)
    requires TotalOrder(leq) && NewestFirst(leq, a, b) && NewestFirst(leq, b, c)
    ensures NewestFirst(leq, a, c)
  {
    if a.publishedAt == b.publishedAt == c.publishedAt {
      assert leq(a.slug, b.slug) && leq(b.slug, c.slug);
    } else if a.publishedAt != b.publishedAt && b.publishedAt != c.publishedAt {
      assert leq(c.publishedAt, b.publishedAt) && leq(b.publishedAt, a.publishedAt);
    }
  }

  lemma DistinctSlugsNoTies(leq: (string, string) -> bool, posts: seq<Post>)
    requires TotalOrder(leq) && Distinct(Slugs(posts))
    ensures NoTies((a, b) => NewestFirst(leq, a, b), posts)
  {
    forall a, b | a in posts && b in posts && NewestFirst(leq, a, b) && NewestFirst(leq, b, a) ensures a == b {
      assert a.slug == b.slug;
      var i, j :| 0 <= i < |posts| && 0 <= j < |posts| && posts[i] == a && posts[j] == b;
      assert Slugs(posts)[i] == Slugs(posts)[j];
    }
  }

  lemma SlugsStayDistinct(posts: seq<Post>, others: seq<Post>)
    requires Distinct(Slugs(posts)) && (forall x :: multiset(others)[x] <= multiset(posts)[x])
    ensures Distinct(Slugs(others))
  {
    assert Distinct(posts) by {
      forall i, j | 0 <= i < j < |posts| ensures posts[i] != posts[j] {
        assert Slugs(posts)[i] != Slugs(posts)[j];
      }
    }
    DistinctCounts(posts);
    DistinctCounts(others);
    forall i, j | 0 <= i < j < |others| ensures Slugs(others)[i] != Slugs(others)[j] {
      assert others[i] in multiset(posts) && others[j] in multiset(posts);
      var m, n :| 0 <= m < |posts| && 0 <= n < |posts| && posts[m] == others[i] && posts[n] == others[j];
      assert Slugs(posts)[m] != Slugs(posts)[n];
    }
  }

  lemma ListingSlugsDistinct(leq: (string, string) -> bool, posts: seq<Post>)
    requires Distinct(Slugs(posts))
    ensures Distinct(Slugs(Published(posts))) && Distinct(Slugs(Listing(leq, posts)))
    ensures forall x :: x in Listing(leq, posts) <==> x in posts && x.listed
  {
    forall x ensures multiset(Published(posts))[x] <= multiset(posts)[x] {
      FilterCounts(posts, (p: Post) => p.listed, x);
    }
    SlugsStayDistinct(posts, Published(posts));
    SlugsStayDistinct(posts, Listing(leq, posts));
    forall x ensures x in Listing(leq, posts) <==> x in Published(posts) {
      assert x in multiset(Listing(leq, posts)) <==> x in multiset(Published(posts));
    }
  }

  /** The listing does not depend on the order the file system enumerates directories in. */
  lemma ListingIgnoresDirectoryOrder(leq: (string, string) -> bool, posts: seq<Post>, others: seq<Post>)
    requires TotalOrder(leq) && Distinct(Slugs(posts)) && multiset(posts) == multiset(others)
    ensures Listing(leq, posts) == Listing(leq, others)
  {
    var order := (a, b) => NewestFirst(leq, a, b);
    NewestFirstIsPreorder(leq);
    ListingSlugsDistinct(leq, posts);
    DistinctSlugsNoTies(leq, Listing(leq, posts));
    SortIsSorted(order, Published(posts));
    SortIsSorted(order, Published(others));
    forall x ensures multiset(Published(posts))[x] == multiset(Published(others))[x] {
      FilterCounts(posts, (p: Post) => p.listed, x);
      FilterCounts(others, (p: Post) => p.listed, x);
    }
    SortedIsUnique(order, Listing(leq, posts), Listing(leq, others));
  }

  ghost predicate AllDatesValid(posts: seq<Post>) {
    forall p :: p in posts ==> IsValidCalendarDate(p.publishedAt)
  }

  /** `earlier` precedes `later` in a reader's walk: it is newer, or as new with a smaller slug. */
  ghost predicate ReadsBefore(leq: (string, string) -> bool, earlier: Post, later: Post)
    requires HasDateShape(earlier.publishedAt) && HasDateShape(later.publishedAt)
  {
    || UtcDay(earlier.publishedAt) > UtcDay(later.publishedAt)
    || (UtcDay(earlier.publishedAt) == UtcDay(later.publishedAt) && leq(earlier.slug, later.slug))
  }

  function StepPost(posts: seq<Post>): Option<Post> -> Option<Post> {
    (at: Option<Post>) => match at case None => None case Some(post) => ResolveNext(post.slug, posts)
  }

  /** The post a reader is at after following `n` next-post links from the first listed post. */
  function FollowPosts(posts: seq<Post>, n: nat): Option<Post> {
    Iterate(StepPost(posts), if posts == [] then None else Some(posts[0]), n)
  }

  function SlugOf(post: Option<Post>): Option<string> {
    match post case None => None case Some(p) => Some(p.slug)
  }

  /** On slugs this is the walk of `NextLinks`. */
  lemma {:induction false} FollowPostsIsFollow(posts: seq<Post>, n: nat)
    ensures SlugOf(FollowPosts(posts, n)) == Follow(Slugs(posts), n)
    ensures FollowPosts(posts, n).Some? ==> FollowPosts(posts, n).value in posts
  {
    if n > 0 {
      FollowPostsIsFollow(posts, n - 1);
      if FollowPosts(posts, n - 1).Some? {
        ResolveNextIsNext(FollowPosts(posts, n - 1).value.slug, posts);
      }
    } else if posts != [] {
      assert Slugs(posts)[0] == posts[0].slug;
    }
  }

  lemma FollowPostsVisits(posts: seq<Post>, n: nat)
    requires Distinct(Slugs(posts))
    ensures FollowPosts(posts, n) == if n < |posts| then Some(posts[n]) else None
  {
    FollowPostsIsFollow(posts, n);
    WalkVisitsInOrder(Slugs(posts), n);
    if n < |posts| {
      SlugAt(posts, n, FollowPosts(posts, n).value);
    }
  }

  /** Following next-post links from the first listed post visits every published post
      exactly once, newest to oldest by calendar day and by slug within a day, and stops. */
  lemma NextLinksVisitNewestToOldest(leq: (string, string) -> bool, posts: seq<Post>)
    requires DateCollation(leq) && Distinct(Slugs(posts)) && AllDatesValid(posts)
    ensures var listing := Listing(leq, posts);
      && (forall x :: x in listing <==> x in posts && x.listed)
      && Distinct(Slugs(listing))
      && (forall n: nat :: FollowPosts(listing, n) == if n < |listing| then Some(listing[n]) else None)
      && forall i, j :: 0 <= i < j < |listing| ==> ListedInOrder(leq, listing, i, j)
  {
    var listing := Listing(leq, posts);
    var order := (a, b) => NewestFirst(leq, a, b);
    ListingSlugsDistinct(leq, posts);
    forall n: nat ensures FollowPosts(listing, n) == if n < |listing| then Some(listing[n]) else None {
      FollowPostsVisits(listing, n);
    }
    NewestFirstIsPreorder(leq);
    SortIsSorted(order, Published(posts));
    forall i, j | 0 <= i < j < |listing| ensures ListedInOrder(leq, listing, i, j) {
      assert order(listing[i], listing[j]);
      assert listing[i] in listing && listing[j] in listing;
      AcceptedIffRealDate(listing[i].publishedAt);
      AcceptedIffRealDate(listing[j].publishedAt);
      OrderedPairReadsBefore(leq, listing[i], listing[j]);
    }
  }

  ghost predicate ListedInOrder(leq: (string, string) -> bool, listing: seq<Post>, i: nat, j: nat)
    requires i < |listing| && j < |listing|
  {
    && HasDateShape(listing[i].publishedAt) && HasDateShape(listing[j].publishedAt)
    && ReadsBefore(leq, listing[i], listing[j])
  }

  lemma OrderedPairReadsBefore(leq: (string, string) -> bool, a: Post, b: Post)
    requires DateCollation(leq) && NamesDate(a.publishedAt) && NamesDate(b.publishedAt)
    requires NewestFirst(leq, a, b)
    ensures ReadsBefore(leq, a, b)
  {
    StringOrderIsChronological(leq, b.publishedAt, a.publishedAt);
    StringOrderIsChronological(leq, a.publishedAt, b.publishedAt);
  }

  // ---------------------------------------------------------------- the next-post link

  /** `resolveNextPublishedBlogPostFromList` on an already loaded list: the post after the
      first one with the slug. */
  function ResolveNext(slug: string, posts: seq<Post>): (next: Option<Post>)
    ensures next.Some? ==> next.value in posts
  {
    var index := IndexOf(Slugs(posts), slug);
    if index == -1 || index + 1 == |posts| then None else Some(posts[index + 1])
  }

  lemma ResolveNextIsNext(slug: string, posts: seq<Post>)
    ensures Next(Slugs(posts), slug) == SlugOf(ResolveNext(slug, posts))
  {
  }

  /** `post` is listed and comes after the post with that slug in the order of the index. */
  ghost predicate ComesAfter(leq: (string, string) -> bool, listing: seq<Post>, slug: string, post: Post) {
    exists a :: a in listing && a.slug == slug && post in listing && post != a && NewestFirst(leq, a, post)
  }

  /** Sorted for the index, with distinct slugs. */
  ghost predicate IsIndex(leq: (string, string) -> bool, listing: seq<Post>) {
    && Distinct(Slugs(listing))
    && forall i, j :: 0 <= i < j < |listing| ==> NewestFirst(leq, listing[i], listing[j])
  }

  lemma ListingIsIndex(leq: (string, string) -> bool, posts: seq<Post>)
    requires TotalOrder(leq) && Distinct(Slugs(posts))
    ensures IsIndex(leq, Listing(leq, posts))
  {
    var order := (a, b) => NewestFirst(leq, a, b);
    var listing := Listing(leq, posts);
    ListingSlugsDistinct(leq, posts);
    NewestFirstIsPreorder(leq);
    SortIsSorted(order, Published(posts));
    forall i, j | 0 <= i < j < |listing| ensures NewestFirst(leq, listing[i], listing[j]) {
      assert order(listing[i], listing[j]);
    }
  }

  lemma SlugAt(listing: seq<Post>, i: nat, post: Post)
    requires Distinct(Slugs(listing)) && i < |listing| && post in listing && post.slug == listing[i].slug
    ensures post == listing[i]
  {
    var m :| 0 <= m < |listing| && listing[m] == post;
    assert Slugs(listing)[m] == Slugs(listing)[i];
  }

  lemma LaterComesAfter(leq: (string, string) -> bool, listing: seq<Post>, i: nat, j: nat)
    requires IsIndex(leq, listing) && i < j < |listing|
    ensures ComesAfter(leq, listing, listing[i].slug, listing[j])
  {
    assert Slugs(listing)[i] != Slugs(listing)[j];
    assert NewestFirst(leq, listing[i], listing[j]);
  }

  lemma ComesAfterIsLater(leq: (string, string) -> bool, listing: seq<Post>, i: nat, post: Post) returns (j: nat)
    requires TotalOrder(leq) && IsIndex(leq, listing) && i < |listing|
    requires ComesAfter(leq, listing, listing[i].slug, post)
    ensures i < j < |listing| && listing[j] == post
  {
    var a :| a in listing && a.slug == listing[i].slug && post in listing && post != a && NewestFirst(leq, a, post);
    SlugAt(listing, i, a);
    j :| 0 <= j < |listing| && listing[j] == post;
    if j < i {
      TiesAreSlugs(leq, listing[j], listing[i]);
      SlugAt(listing, i, post);
    }
  }

  lemma TiesAreSlugs(leq: (string, string) -> bool, a: Post, b: Post)
    requires TotalOrder(leq) && NewestFirst(leq, a, b) && NewestFirst(leq, b, a)
    ensures a.slug == b.slug
  {
  }

  /** `next` is the first post to come after the one with that slug, if any does. */
  ghost predicate IsSuccessor(leq: (string, string) -> bool, listing: seq<Post>, slug: string, next: Option<Post>) {
    match next
    case None => forall post :: !ComesAfter(leq, listing, slug, post)
    case Some(n) =>
      && ComesAfter(leq, listing, slug, n)
      && forall post | ComesAfter(leq, listing, slug, post) :: post == n || ComesAfter(leq, listing, n.slug, post)
  }

  /** The next link names the immediate successor in the order of the index: a listed post
      that comes after, with no listed post strictly between. There is no link exactly when
      nothing comes after, which includes a slug that is not listed. */
  lemma NextIsImmediateSuccessor(leq: (string, string) -> bool, posts: seq<Post>, slug: string)
    requires TotalOrder(leq) && Distinct(Slugs(posts))
    ensures IsSuccessor(leq, Listing(leq, posts), slug, ResolveNext(slug, Listing(leq, posts)))
  {
    ListingIsIndex(leq, posts);
    ResolvesSuccessor(leq, Listing(leq, posts), slug);
  }

  lemma ResolvesSuccessor(leq: (string, string) -> bool, listing: seq<Post>, slug: string)
    requires TotalOrder(leq) && IsIndex(leq, listing)
    ensures IsSuccessor(leq, listing, slug, ResolveNext(slug, listing))
  {
    var i := IndexOf(Slugs(listing), slug);
    if i == -1 {
      forall a | a in listing ensures a.slug != slug {
        SlugIsListed(listing, a);
      }
    } else {
      SuccessorIsNext(leq, listing, i);
    }
  }

  lemma SlugIsListed(listing: seq<Post>, post: Post)
    requires post in listing
    ensures post.slug in Slugs(listing)
  {
    var k :| 0 <= k < |listing| && listing[k] == post;
    assert Slugs(listing)[k] == post.slug;
  }

  lemma SuccessorIsNext(leq: (string, string) -> bool, listing: seq<Post>, i: nat)
    requires TotalOrder(leq) && IsIndex(leq, listing) && i < |listing|
    ensures i + 1 == |listing| ==> forall post :: !ComesAfter(leq, listing, listing[i].slug, post)
    ensures i + 1 < |listing| ==> ComesAfter(leq, listing, listing[i].slug, listing[i + 1])
    ensures i + 1 < |listing| ==> forall post | ComesAfter(leq, listing, listing[i].slug, post) ::
              post == listing[i + 1] || ComesAfter(leq, listing, listing[i + 1].slug, post)
  {
    if i + 1 < |listing| {
      LaterComesAfter(leq, listing, i, i + 1);
    }
    forall post | ComesAfter(leq, listing, listing[i].slug, post)
      ensures i + 1 < |listing| && (post == listing[i + 1] || ComesAfter(leq, listing, listing[i + 1].slug, post))
    {
      var j := ComesAfterIsLater(leq, listing, i, post);
      if i + 1 < j {
        LaterComesAfter(leq, listing, i + 1, j);
      }
    }
  }
}
