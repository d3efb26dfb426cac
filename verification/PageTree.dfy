/** Previous/next links of the documentation footer: the page tree is linearised in
    pre-order, globally or for one route family, and neighbours are read off the list. */
module PageTree {
  import opened Common
  import opened NextLinks

  datatype Page = Page(name: string, url: string, external: bool)

  datatype Node = Leaf(page: Page) | Separator | Folder(index: Option<Page>, children: seq<Node>)

  datatype Item = Item(name: string, url: string)

  function PageItems(page: Page): seq<Item> {
    if page.external then [] else [Item(page.name, page.url)]
  }

  function IndexItems(index: Option<Page>): seq<Item> {
    match index
    case None => []
    case Some(page) => PageItems(page)
  }

  /** What `onNode` appends for a node. */
  function Items(node: Node): seq<Item> {
    match node
    case Leaf(page) => PageItems(page)
    case Separator => []
    case Folder(index, children) => IndexItems(index) + AllItems(children)
  }

  function AllItems(nodes: seq<Node>): seq<Item> {
    if nodes == [] then [] else AllItems(nodes[..|nodes| - 1]) + Items(nodes[|nodes| - 1])
  }

  /** The list `collectDocsFooterPageItems` fills while it recurses. */
  class Collector {
    var list: seq<Item>

    constructor ()
      ensures list == []
    {
      list := [];
    }

    method OnPage(page: Page)
      modifies this
      ensures list == old(list) + PageItems(page)
    {
      if !page.external {
        list := list + [Item(page.name, page.url)];
      }
    }

    method OnNode(node: Node)
      modifies this
      ensures list == old(list) + Items(node)
      decreases node, 0
    {
      match node
      case Leaf(page) => OnPage(page);
      case Separator =>
      case Folder(index, children) =>
        if index.Some? {
          OnPage(index.value);
        }
        OnNodes(children);
    }

    method OnNodes(nodes: seq<Node>)
      modifies this
      ensures list == old(list) + AllItems(nodes)
      decreases nodes, |nodes|
    {
      for i := 0 to |nodes|
        invariant list == old(list) + AllItems(nodes[..i])
      {
        assert nodes[..i + 1][..i] == nodes[..i];
        OnNode(nodes[i]);
      }
      assert nodes[..|nodes|] == nodes;
    }
  }

  method CollectDocsFooterPageItems(children: seq<Node>) returns (list: seq<Item>)
    ensures list == AllItems(children)
  {
    var collector := new Collector();
    collector.OnNodes(children);
    list := collector.list;
  }

  // ---------------------------------------------------------------- pre-order

  /** A position in a tree: 0 is a folder's index page, k + 1 its child k. */
  type Address = seq<nat>

  function PageItem(page: Page): Option<Item> {
    if page.external then None else Some(Item(page.name, page.url))
  }

  /** The non-external page at an address. */
  function At(node: Node, address: Address): Option<Item>
    decreases |address|
  {
    match node
    case Leaf(page) => if address == [] then PageItem(page) else None
    case Separator => None
    case Folder(index, children) =>
      if address == [] then None
      else if address[0] == 0 then (if |address| == 1 && index.Some? then PageItem(index.value) else None)
      else if address[0] <= |children| then At(children[address[0] - 1], address[1..])
      else None
  }

  /** Pre-order of addresses. */
  predicate Before(a: Address, b: Address) {
    b != [] && (a == [] || a[0] < b[0] || (a[0] == b[0] && Before(a[1..], b[1..])))
  }

  /** `addresses` are those of `items` in `node`, in pre-order. */
  ghost predicate Locates(node: Node, items: seq<Item>, addresses: seq<Address>) {
    && |addresses| == |items|
    && (forall k :: 0 <= k < |items| ==> At(node, addresses[k]) == Some(items[k]))
    && forall i, j :: 0 <= i < j < |addresses| ==> Before(addresses[i], addresses[j])
  }

  ghost predicate FindsAll(node: Node, addresses: seq<Address>) {
    forall a :: At(node, a).Some? ==> a in addresses
  }

  function Under(step: nat, addresses: seq<Address>): seq<Address> {
    seq(|addresses|, i requires 0 <= i < |addresses| => [step] + addresses[i])
  }

  /** The part of a folder before child `n`, with the addresses of its pages. */
  ghost predicate LocatesUpTo(folder: Node, n: nat, items: seq<Item>, addresses: seq<Address>)
    requires folder.Folder?
  {
    && Locates(folder, items, addresses)
    && (forall k :: 0 <= k < |addresses| ==> addresses[k] != [] && addresses[k][0] <= n)
    && forall a :: a != [] && a[0] <= n && At(folder, a).Some? ==> a in addresses
  }

  /** Items of a folder's index page and first `n` children. */
  function ItemsUpTo(folder: Node, n: nat): seq<Item>
    requires folder.Folder? && n <= |folder.children|
  {
    IndexItems(folder.index) + AllItems(folder.children[..n])
  }

  lemma ItemsUpToStep(folder: Node, n: nat)
    requires folder.Folder? && 0 < n <= |folder.children|
    ensures ItemsUpTo(folder, n) == ItemsUpTo(folder, n - 1) + Items(folder.children[n - 1])
  {
    assert folder.children[..n][..n - 1] == folder.children[..n - 1];
  }

  lemma OwnAddresses(folder: Node) returns (addresses: seq<Address>)
    requires folder.Folder?
    ensures LocatesUpTo(folder, 0, ItemsUpTo(folder, 0), addresses)
  {
    addresses := if IndexItems(folder.index) == [] then [] else [[0]];
    forall a: Address | a != [] && a[0] <= 0 && At(folder, a).Some? ensures a in addresses {
      assert a == [0];
    }
    assert ItemsUpTo(folder, 0) == IndexItems(folder.index);
  }

  lemma {:induction false} FolderAddresses(folder: Node, n: nat) returns (addresses: seq<Address>)
    requires folder.Folder? && n <= |folder.children|
    ensures LocatesUpTo(folder, n, ItemsUpTo(folder, n), addresses)
    decreases folder, n
  {
    if n == 0 {
      addresses := OwnAddresses(folder);
    } else {
      var before := FolderAddresses(folder, n - 1);
      var inside := PreOrderAddresses(folder.children[n - 1]);
      addresses := before + Under(n, inside);
      ItemsUpToStep(folder, n);
      ChildAddresses(folder, n, ItemsUpTo(folder, n - 1), Items(folder.children[n - 1]), before, inside);
    }
  }

  lemma ChildAddresses(folder: Node, n: nat, items: seq<Item>, own: seq<Item>, before: seq<Address>,
                       inside: seq<Address>)
    requires folder.Folder? && 0 < n <= |folder.children|
    requires LocatesUpTo(folder, n - 1, items, before)
    requires Locates(folder.children[n - 1], own, inside) && FindsAll(folder.children[n - 1], inside)
    ensures LocatesUpTo(folder, n, items + own, before + Under(n, inside))
  {
    AddressesUnderChild(folder, n, inside);
    UnderInOrder(n, before, inside);
    LocatesConcatenation(folder, items, own, before, Under(n, inside));
    forall a: Address | a != [] && a[0] <= n && At(folder, a).Some? ensures a in before + Under(n, inside) {
      FoundUnder(folder, n, before, inside, a);
    }
  }

  lemma LocatesConcatenation(node: Node, items: seq<Item>, own: seq<Item>, before: seq<Address>, under: seq<Address>)
    requires |before| == |items| && |under| == |own|
    requires forall k :: 0 <= k < |items| ==> At(node, before[k]) == Some(items[k])
    requires forall k :: 0 <= k < |own| ==> At(node, under[k]) == Some(own[k])
    ensures forall k :: 0 <= k < |items + own| ==> At(node, (before + under)[k]) == Some((items + own)[k])
  {
  }

  lemma FoundUnder(folder: Node, n: nat, before: seq<Address>, inside: seq<Address>, a: Address)
    requires folder.Folder? && 0 < n <= |folder.children|
    requires a != [] && a[0] <= n && At(folder, a).Some?
    requires a[0] <= n - 1 ==> a in before
    requires FindsAll(folder.children[n - 1], inside)
    ensures a in before + Under(n, inside)
  {
    if a[0] == n {
      assert a[1..] in inside;
      var k :| 0 <= k < |inside| && inside[k] == a[1..];
      assert Under(n, inside)[k] == a;
    }
  }

  lemma AddressesUnderChild(folder: Node, n: nat, inside: seq<Address>)
    requires folder.Folder? && 0 < n <= |folder.children|
    ensures forall k :: 0 <= k < |inside| ==> At(folder, Under(n, inside)[k]) == At(folder.children[n - 1], inside[k])
  {
    forall k | 0 <= k < |inside| ensures At(folder, Under(n, inside)[k]) == At(folder.children[n - 1], inside[k]) {
      assert Under(n, inside)[k][1..] == inside[k];
    }
  }

  lemma UnderInOrder(n: nat, before: seq<Address>, inside: seq<Address>)
    requires forall i, j :: 0 <= i < j < |before| ==> Before(before[i], before[j])
    requires forall i, j :: 0 <= i < j < |inside| ==> Before(inside[i], inside[j])
    requires forall k :: 0 <= k < |before| ==> before[k] != [] && before[k][0] < n
    ensures var all := before + Under(n, inside); forall i, j :: 0 <= i < j < |all| ==> Before(all[i], all[j])
  {
    var all := before + Under(n, inside);
    forall i, j | 0 <= i < j < |all| ensures Before(all[i], all[j]) {
      if |before| <= i {
        assert all[i][1..] == inside[i - |before|] && all[j][1..] == inside[j - |before|];
      }
    }
  }

  /** The linearisation is the tree's pre-order: its items correspond one to one, in
      order, to the addresses of the non-external pages. */
  lemma {:induction false} PreOrderAddresses(node: Node) returns (addresses: seq<Address>)
    ensures Locates(node, Items(node), addresses) && FindsAll(node, addresses)
    decreases node, |(if node.Folder? then node.children else [])| + 1
  {
    match node
    case Leaf(page) =>
      addresses := if page.external then [] else [[]];
    case Separator =>
      addresses := [];
    case Folder(_, children) =>
      addresses := FolderAddresses(node, |children|);
      assert children[..|children|] == children;
      assert ItemsUpTo(node, |children|) == Items(node);
  }

  // ---------------------------------------------------------------- neighbours

  datatype Footer = Footer(previous: Option<Item>, next: Option<Item>) | PointsAtDeleted

  function Urls(items: seq<Item>): seq<string> {
    seq(|items|, i requires 0 <= i < |items| => items[i].url)
  }

  predicate Deleted(deleted: string -> bool, item: Option<Item>) {
    item.Some? && deleted(item.value.url)
  }

  /** Neighbours of `url` in a list; a neighbour at a deleted address is an error. */
  function Neighbors(items: seq<Item>, url: string, deleted: string -> bool): Footer {
    var idx := IndexOf(Urls(items), url);
    if idx == -1 then Footer(None, None)
    else
      var previous := if idx == 0 then None else Some(items[idx - 1]);
      var next := if idx + 1 == |items| then None else Some(items[idx + 1]);
      if Deleted(deleted, previous) || Deleted(deleted, next) then PointsAtDeleted else Footer(previous, next)
  }

  function UrlOf(item: Option<Item>): Option<string> {
    if item.Some? then Some(item.value.url) else None
  }

  /** The footer links are the list's previous and next links, reported unless one of them
      points at a deleted address. */
  lemma NeighborsAreLinks(items: seq<Item>, url: string, deleted: string -> bool)
    ensures var previous, next := Previous(Urls(items), url), Next(Urls(items), url);
      match Neighbors(items, url, deleted)
      case PointsAtDeleted => (previous.Some? && deleted(previous.value)) || (next.Some? && deleted(next.value))
      case Footer(p, n) =>
        && UrlOf(p) == previous && UrlOf(n) == next
        && !(previous.Some? && deleted(previous.value)) && !(next.Some? && deleted(next.value))
        && (p.Some? ==> p.value in items) && (n.Some? ==> n.value in items)
  {
  }

  // ---------------------------------------------------------------- walks

  /** Where a reader who follows the footer's next links is. */
  datatype Place = On(url: string) | Finished | Failed

  function StepFooter(footer: string -> Footer, at: Place): Place {
    match at
    case On(url) => (
      match footer(url)
      case PointsAtDeleted => Failed
      case Footer(_, next) => if next.Some? then On(next.value.url) else Finished)
    case _ => at
  }

  function Stepper(footer: string -> Footer): Place -> Place {
    (at: Place) => StepFooter(footer, at)
  }

  /** The place after `n` next links, each resolved afresh on the page it is followed from. */
  function WalkFrom(footer: string -> Footer, start: Place, n: nat): Place {
    Iterate(Stepper(footer), start, n)
  }

  function ListFooter(items: seq<Item>, deleted: string -> bool): string -> Footer {
    (url: string) => Neighbors(items, url, deleted)
  }

  function FirstPlace(items: seq<Item>): Place {
    if items == [] then Finished else On(items[0].url)
  }

  /** No page before position `n` has a neighbour at a deleted address. */
  ghost predicate SafeUpTo(items: seq<Item>, deleted: string -> bool, n: nat) {
    forall k :: 0 <= k < n && k < |items| ==> SafeAt(items, deleted, k)
  }

  ghost predicate SafeAt(items: seq<Item>, deleted: string -> bool, k: nat)
    requires k < |items|
  {
    !(k > 0 && deleted(items[k - 1].url)) && !(k + 1 < |items| && deleted(items[k + 1].url))
  }

  ghost function PlaceAfter(items: seq<Item>, deleted: string -> bool, n: nat): Place {
    if !SafeUpTo(items, deleted, n) then Failed else if n < |items| then On(items[n].url) else Finished
  }

  lemma NeighborsAt(items: seq<Item>, deleted: string -> bool, k: nat)
    requires Distinct(Urls(items)) && k < |items|
    ensures Neighbors(items, items[k].url, deleted)
         == if SafeAt(items, deleted, k)
            then Footer(if k == 0 then None else Some(items[k - 1]),
                        if k + 1 == |items| then None else Some(items[k + 1]))
            else PointsAtDeleted
  {
    assert Urls(items)[k] == items[k].url;
    assert IndexOf(Urls(items), items[k].url) == k;
  }

  lemma SafeUpToStep(items: seq<Item>, deleted: string -> bool, n: nat)
    requires n > 0
    ensures SafeUpTo(items, deleted, n)
       <==> SafeUpTo(items, deleted, n - 1) && (n - 1 < |items| ==> SafeAt(items, deleted, n - 1))
  {
  }

  /** On the listed pages the footer is the list's. */
  ghost predicate FollowsList(footer: string -> Footer, items: seq<Item>, deleted: string -> bool) {
    forall k :: 0 <= k < |items| ==> FollowsAt(footer, items, deleted, k)
  }

  ghost predicate FollowsAt(footer: string -> Footer, items: seq<Item>, deleted: string -> bool, k: nat)
    requires k < |items|
  {
    footer(items[k].url) == Neighbors(items, items[k].url, deleted)
  }

  lemma PlaceStep(footer: string -> Footer, items: seq<Item>, deleted: string -> bool, n: nat)
    requires Distinct(Urls(items)) && FollowsList(footer, items, deleted) && n > 0
    ensures StepFooter(footer, PlaceAfter(items, deleted, n - 1)) == PlaceAfter(items, deleted, n)
  {
    SafeUpToStep(items, deleted, n);
    if n - 1 < |items| {
      assert FollowsAt(footer, items, deleted, n - 1);
      NeighborsAt(items, deleted, n - 1);
    }
  }

  /** Exactly where a walk is after `n` links: at the `n`-th item, or finished past the last,
      unless a page visited before has a deleted neighbour, at which the walk fails. */
  lemma {:induction false} ListWalk(footer: string -> Footer, items: seq<Item>, deleted: string -> bool, n: nat)
    requires Distinct(Urls(items)) && FollowsList(footer, items, deleted)
    ensures WalkFrom(footer, FirstPlace(items), n) == PlaceAfter(items, deleted, n)
  {
    if n > 0 {
      ListWalk(footer, items, deleted, n - 1);
      PlaceStep(footer, items, deleted, n);
    }
  }

  /** Walking next from the first page visits every non-external page of the tree once, in
      pre-order, until a page with a deleted neighbour throws. */
  lemma TreeWalk(root: Node, deleted: string -> bool) returns (addresses: seq<Address>)
    requires Distinct(Urls(Items(root)))
    ensures Locates(root, Items(root), addresses) && FindsAll(root, addresses)
    ensures forall n: nat {:trigger PlaceAfter(Items(root), deleted, n)} ::
              WalkFrom(ListFooter(Items(root), deleted), FirstPlace(Items(root)), n)
              == PlaceAfter(Items(root), deleted, n)
  {
    addresses := PreOrderAddresses(root);
    forall n: nat
      ensures WalkFrom(ListFooter(Items(root), deleted), FirstPlace(Items(root)), n)
              == PlaceAfter(Items(root), deleted, n)
    {
      ListWalk(ListFooter(Items(root), deleted), Items(root), deleted, n);
    }
  }

  ghost predicate NeverFails(footer: string -> Footer, start: Place) {
    forall n: nat :: WalkFrom(footer, start, n) != Failed
  }

  predicate NoneDeleted(items: seq<Item>, deleted: string -> bool) {
    forall i :: 0 <= i < |items| ==> !deleted(items[i].url)
  }

  /** The walk over a list's footers never throws exactly when no page of the list is at a
      deleted address, or there is at most one page. */
  lemma WalkNeverFailsIff(footer: string -> Footer, items: seq<Item>, deleted: string -> bool)
    requires Distinct(Urls(items)) && FollowsList(footer, items, deleted)
    ensures NeverFails(footer, FirstPlace(items)) <==> |items| <= 1 || NoneDeleted(items, deleted)
  {
    if NeverFails(footer, FirstPlace(items)) && |items| > 1 {
      assert WalkFrom(footer, FirstPlace(items), |items|) != Failed;
      ListWalk(footer, items, deleted, |items|);
      forall i | 0 <= i < |items| ensures !deleted(items[i].url) {
        assert SafeAt(items, deleted, if i > 0 then i - 1 else 1);
      }
    }
    if |items| <= 1 || NoneDeleted(items, deleted) {
      forall n: nat ensures WalkFrom(footer, FirstPlace(items), n) != Failed {
        ListWalk(footer, items, deleted, n);
      }
    }
  }

  /** So for the walk over the whole tree. */
  lemma TreeWalkNeverFailsIff(root: Node, deleted: string -> bool)
    requires Distinct(Urls(Items(root)))
    ensures NeverFails(ListFooter(Items(root), deleted), FirstPlace(Items(root)))
       <==> |Items(root)| <= 1 || NoneDeleted(Items(root), deleted)
  {
    WalkNeverFailsIff(ListFooter(Items(root), deleted), Items(root), deleted);
  }

  /** Where neither page throws, previous undoes next. */
  lemma PreviousUndoesNext(items: seq<Item>, deleted: string -> bool, url: string)
    requires Distinct(Urls(items))
    requires Neighbors(items, url, deleted).Footer? && Neighbors(items, url, deleted).next.Some?
    ensures var next := Neighbors(items, url, deleted).next.value.url;
      Neighbors(items, next, deleted) == PointsAtDeleted
      || UrlOf(Neighbors(items, next, deleted).previous) == Some(url)
  {
    var next := Neighbors(items, url, deleted).next.value.url;
    InverseIffDistinct(Urls(items));
    NeighborsAreLinks(items, url, deleted);
    NeighborsAreLinks(items, next, deleted);
  }

  // ---------------------------------------------------------------- route families

  predicate StartsWith(s: string, prefix: string) {
    prefix <= s
  }

  predicate InFamily(indexUrl: string, url: string) {
    url == indexUrl || StartsWith(url, indexUrl + "/")
  }

  /** `collectFamilyDocsFooterPageItems` on the linearised tree. */
  function FamilyItems(items: seq<Item>, indexUrl: string, indexLabel: string): seq<Item> {
    var nested := Filter(items, (item: Item) => InFamily(indexUrl, item.url));
    [Item(indexLabel, indexUrl)] + Filter(nested, (item: Item) => item.url != indexUrl)
  }

  function NestedItems(items: seq<Item>, indexUrl: string): seq<Item> {
    Filter(items, (item: Item) => StartsWith(item.url, indexUrl + "/"))
  }

  lemma {:induction false} FilterTwice(items: seq<Item>, indexUrl: string)
    ensures Filter(Filter(items, (item: Item) => InFamily(indexUrl, item.url)), (item: Item) => item.url != indexUrl)
         == NestedItems(items, indexUrl)
  {
    if items != [] {
      FilterTwice(items[1..], indexUrl);
      var kept := Filter(items[1..], (item: Item) => InFamily(indexUrl, item.url));
      assert ([items[0]] + kept)[1..] == kept;
    }
  }

  /** A family's list is its index page followed by the tree's pages below the index, in
      tree order, whether or not the tree has the index page itself. */
  lemma FamilyIsIndexThenNested(items: seq<Item>, indexUrl: string, indexLabel: string)
    ensures FamilyItems(items, indexUrl, indexLabel) == [Item(indexLabel, indexUrl)] + NestedItems(items, indexUrl)
  {
    FilterTwice(items, indexUrl);
  }

  lemma {:induction false} NestedUrlsDistinct(items: seq<Item>, indexUrl: string)
    requires Distinct(Urls(items))
    ensures Distinct(Urls(NestedItems(items, indexUrl)))
  {
    if items != [] {
      assert Distinct(Urls(items[1..])) by {
        forall i, j | 0 <= i < j < |items[1..]| ensures Urls(items[1..])[i] != Urls(items[1..])[j] {
          assert Urls(items)[i + 1] != Urls(items)[j + 1];
        }
      }
      NestedUrlsDistinct(items[1..], indexUrl);
      var rest, all := NestedItems(items[1..], indexUrl), NestedItems(items, indexUrl);
      forall k | 0 <= k < |rest| ensures rest[k].url != items[0].url {
        assert rest[k] in items[1..];
        var m :| 0 <= m < |items[1..]| && items[1..][m] == rest[k];
        assert Urls(items)[m + 1] != Urls(items)[0];
      }
      forall i, j | 0 <= i < j < |all| ensures Urls(all)[i] != Urls(all)[j] {
        if |all| == |rest| {
          assert Urls(rest)[i] != Urls(rest)[j];
        } else if i > 0 {
          assert Urls(rest)[i - 1] != Urls(rest)[j - 1];
        }
      }
    }
  }

  lemma FamilyUrlsDistinct(items: seq<Item>, indexUrl: string, indexLabel: string)
    requires Distinct(Urls(items))
    ensures Distinct(Urls(FamilyItems(items, indexUrl, indexLabel)))
  {
    FamilyIsIndexThenNested(items, indexUrl, indexLabel);
    NestedUrlsDistinct(items, indexUrl);
    var nested, all := NestedItems(items, indexUrl), FamilyItems(items, indexUrl, indexLabel);
    forall i, j | 0 <= i < j < |all| ensures Urls(all)[i] != Urls(all)[j] {
      if i == 0 {
        assert all[j] in nested;
      } else {
        assert Urls(nested)[i - 1] != Urls(nested)[j - 1];
      }
    }
  }

  /** `resolveFamilyScopedDocsFooterNeighbors`; `familyIndex` is the index url, in the
      url's locale, of the route family a url belongs to. */
  function FamilyNeighbors(items: seq<Item>, url: string, familyIndex: string -> Option<string>, indexLabel: string,
                           deleted: string -> bool): Option<Footer> {
    match familyIndex(url)
    case None => None
    case Some(indexUrl) => Some(Neighbors(FamilyItems(items, indexUrl, indexLabel), url, deleted))
  }

  /** No link leaves the family: both neighbours of a family page are the family's index or
      pages below it. */
  lemma FamilyLinksStayInside(items: seq<Item>, url: string, familyIndex: string -> Option<string>, indexLabel: string,
                              deleted: string -> bool)
    requires familyIndex(url).Some?
    ensures FamilyNeighbors(items, url, familyIndex, indexLabel, deleted).Some?
    ensures match FamilyNeighbors(items, url, familyIndex, indexLabel, deleted).value
      case PointsAtDeleted => true
      case Footer(p, n) =>
        && (p.Some? ==> InFamily(familyIndex(url).value, p.value.url))
        && (n.Some? ==> InFamily(familyIndex(url).value, n.value.url))
  {
    var indexUrl := familyIndex(url).value;
    NeighborsAreLinks(FamilyItems(items, indexUrl, indexLabel), url, deleted);
  }

  /** Every url at or below the index resolves to it. Other spellings may as well. */
  ghost predicate ResolvesFamily(familyIndex: string -> Option<string>, indexUrl: string) {
    forall url :: InFamily(indexUrl, url) ==> familyIndex(url) == Some(indexUrl)
  }

  /** The footer of any url; outside the families there is no family footer to follow. */
  function FamilyFooter(items: seq<Item>, familyIndex: string -> Option<string>, indexLabel: string,
                        deleted: string -> bool): string -> Footer {
    (url: string) => FamilyNeighbors(items, url, familyIndex, indexLabel, deleted).GetOr(Footer(None, None))
  }

  lemma FamilyItemsAreInside(items: seq<Item>, indexUrl: string, indexLabel: string, k: nat)
    requires k < |FamilyItems(items, indexUrl, indexLabel)|
    ensures InFamily(indexUrl, FamilyItems(items, indexUrl, indexLabel)[k].url)
  {
    if k > 0 {
      assert FamilyItems(items, indexUrl, indexLabel)[k] in FamilyItems(items, indexUrl, indexLabel)[1..];
    }
  }

  /** A walk from the family index, with the family resolved afresh on every page, visits
      exactly the family: the index, then the pages below it in tree order, each once, until
      a page with a deleted neighbour throws. */
  lemma FamilyWalk(items: seq<Item>, familyIndex: string -> Option<string>, indexUrl: string,
                   indexLabel: string, deleted: string -> bool, n: nat)
    requires Distinct(Urls(items)) && ResolvesFamily(familyIndex, indexUrl)
    ensures WalkFrom(FamilyFooter(items, familyIndex, indexLabel, deleted), On(indexUrl), n)
         == PlaceAfter([Item(indexLabel, indexUrl)] + NestedItems(items, indexUrl), deleted, n)
  {
    FamilyIsIndexThenNested(items, indexUrl, indexLabel);
    FamilyUrlsDistinct(items, indexUrl, indexLabel);
    FamilyFooterFollows(items, familyIndex, indexUrl, indexLabel, deleted);
    var footer := FamilyFooter(items, familyIndex, indexLabel, deleted);
    ListWalk(footer, FamilyItems(items, indexUrl, indexLabel), deleted, n);
  }

  lemma FamilyFooterFollows(items: seq<Item>, familyIndex: string -> Option<string>, indexUrl: string,
                            indexLabel: string, deleted: string -> bool)
    requires ResolvesFamily(familyIndex, indexUrl)
    ensures FollowsList(FamilyFooter(items, familyIndex, indexLabel, deleted),
                        FamilyItems(items, indexUrl, indexLabel), deleted)
  {
    var footer := FamilyFooter(items, familyIndex, indexLabel, deleted);
    var family := FamilyItems(items, indexUrl, indexLabel);
    forall k | 0 <= k < |family| ensures FollowsAt(footer, family, deleted, k) {
      FamilyItemsAreInside(items, indexUrl, indexLabel, k);
    }
  }

  /** Families with different indexes, neither below the other, share no page. */
  lemma FamiliesAreDisjoint(first: string, second: string, url: string)
    requires InFamily(first, url) && InFamily(second, url)
    ensures first == second || StartsWith(second, first + "/") || StartsWith(first, second + "/")
  {
    if |first| < |second| {
      assert (first + "/") == url[..|first| + 1] == second[..|first| + 1];
    } else if |second| < |first| {
      assert (second + "/") == url[..|second| + 1] == first[..|second| + 1];
    } else {
      assert first == url[..|first|] == second;
    }
  }
}
