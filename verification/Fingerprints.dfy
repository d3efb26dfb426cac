/** Fingerprint material over declared paths: how a file tree is serialised for
    hashing, and what equal fingerprints say about two trees. SHA-256 and the
    locale order are parameters: an injective function with newline-free values
    (collisions are out of scope) and a total order. */
module Fingerprints {
  import opened Common

  /** A directory's entries come in the order in which it is listed. */
  datatype Tree = File(content: string) | Dir(entries: seq<Named>)
  datatype Named = Named(name: string, node: Tree)

  /** What lies at each declared path; absent paths do not exist. */
  type Repo = map<string, Tree>

  datatype Hashing = Hashing(sha: string -> string, leq: (string, string) -> bool)

  ghost predicate ValidHashing(h: Hashing) {
    && (forall x, y :: h.sha(x) == h.sha(y) ==> x == y)
    && (forall x :: h.sha(x) != "" && '\n' !in h.sha(x))
    && TotalOrder(h.leq)
  }

  // ----- One directory: entries `path \0 content \n` -----

  datatype Entry = Entry(path: string, content: string)

  function DirMaterial(entries: seq<Entry>): string {
    if entries == [] then ""
    else entries[0].path + "\0" + entries[0].content + "\n" + DirMaterial(entries[1..])
  }

  predicate PlainPath(p: string) { '\0' !in p && '\n' !in p }

  /** A newline at `j` opens what reads like the path of a next entry. */
  ghost predicate Opens(r: string, j: nat) {
    j < |r| && r[j] == '\n' && exists k :: j < k < |r| && r[k] == '\0' && PlainPath(r[j + 1..k])
  }

  /** Contents in which no newline comes before a NUL; NUL-free contents among them. */
  ghost predicate PlainContent(c: string) {
    forall j, k :: 0 <= j < k < |c| ==> !(c[j] == '\n' && c[k] == '\0')
  }

  lemma {:induction false} NewlineBeforeNulOpens(c: string, j: nat, k: nat) returns (o: nat)
    requires j < k < |c| && c[j] == '\n' && c[k] == '\0'
    ensures Opens(c, o)
    decreases k - j
  {
    if PlainPath(c[j + 1..k]) {
      o := j;
    } else {
      var x :| 0 <= x < k - j - 1 && (c[j + 1..k][x] == '\0' || c[j + 1..k][x] == '\n');
      if c[j + 1 + x] == '\n' {
        o := NewlineBeforeNulOpens(c, j + 1 + x, k);
      } else {
        o := NewlineBeforeNulOpens(c, j, j + 1 + x);
      }
    }
  }

  lemma PlainContentIffNothingOpens(c: string)
    ensures PlainContent(c) <==> forall j: nat :: !Opens(c, j)
  {
    if !PlainContent(c) {
      var j, k :| 0 <= j < k < |c| && c[j] == '\n' && c[k] == '\0';
      var o := NewlineBeforeNulOpens(c, j, k);
    }
  }

  /** The first opening newline at or after `j`, or `|r|`. */
  ghost function FirstOpening(r: string, j: nat): (o: nat)
    requires j <= |r|
    ensures j <= o <= |r| && (o < |r| ==> Opens(r, o)) && forall i: nat :: j <= i < o ==> !Opens(r, i)
    decreases |r| - j
  {
    if j == |r| || Opens(r, j) then j else FirstOpening(r, j + 1)
  }

  /** Reads directory material back: a path up to its NUL, then what follows. */
  ghost function Decode(m: string): (entries: seq<Entry>)
    ensures forall e :: e in entries ==> PlainContent(e.content)
    decreases |m|, 1
  {
    var i := IndexOf(m, '\0');
    if i < 0 || i == |m| - 1 then [] else DecodeContent(m[..i], m[i + 1..])
  }

  /** A content ends at the first newline that opens a next entry, else at the end. */
  ghost function DecodeContent(path: string, r: string): (entries: seq<Entry>)
    requires r != ""
    ensures forall e :: e in entries ==> PlainContent(e.content)
    decreases |r|, 0
  {
    var o := FirstOpening(r, 0);
    if o == |r| then
      PrefixIsPlain(r, |r| - 1);
      [Entry(path, r[..|r| - 1])]
    else
      PrefixIsPlain(r, o);
      [Entry(path, r[..o])] + Decode(r[o + 1..])
  }

  lemma PrefixIsPlain(r: string, o: nat)
    requires o <= |r| && forall i: nat :: i < o ==> !Opens(r, i)
    ensures PlainContent(r[..o])
  {
    PlainContentIffNothingOpens(r[..o]);
    forall j: nat
      ensures !Opens(r[..o], j)
    {
      if Opens(r[..o], j) {
        var k :| j < k < o && r[k] == '\0' && PlainPath(r[..o][j + 1..k]);
        assert r[..o][j + 1..k] == r[j + 1..k];
        assert Opens(r, j);
      }
    }
  }

  lemma PlainAt(r: string, a: nat, b: nat, x: nat)
    requires a <= x < b <= |r| && PlainPath(r[a..b])
    ensures r[x] != '\0' && r[x] != '\n'
  {
    assert r[x] == r[a..b][x - a];
  }

  lemma NothingOpensInside(c: string, rest: string, j: nat)
    requires PlainContent(c) && j < |c|
    ensures !Opens(c + "\n" + rest, j)
  {
    var r := c + "\n" + rest;
    if Opens(r, j) {
      var k :| j < k < |r| && r[k] == '\0' && PlainPath(r[j + 1..k]);
      if k > |c| {
        PlainAt(r, j + 1, k, |c|);
      }
    }
  }

  /** `rest` is empty or starts with a plain path and its NUL. */
  ghost predicate StartsEntry(rest: string) {
    rest == "" || exists k :: 0 <= k < |rest| && rest[k] == '\0' && PlainPath(rest[..k])
  }

  lemma TerminatorOpensIff(c: string, rest: string)
    requires StartsEntry(rest)
    ensures Opens(c + "\n" + rest, |c|) <==> rest != ""
  {
    var r := c + "\n" + rest;
    assert |r| == |c| + 1 + |rest|;
    if rest != "" {
      var k :| 0 <= k < |rest| && rest[k] == '\0' && PlainPath(rest[..k]);
      assert r[|c| + 1..|c| + 1 + k] == rest[..k] && r[|c| + 1 + k] == '\0';
      assert PlainPath(r[|c| + 1..|c| + 1 + k]);
    }
  }

  /** Behind a plain content, the next opening newline is the entry's own terminator. */
  lemma FirstOpeningIsTerminator(c: string, rest: string)
    requires PlainContent(c) && StartsEntry(rest)
    ensures FirstOpening(c + "\n" + rest, 0) == if rest == "" then |c| + 1 else |c|
  {
    var r := c + "\n" + rest;
    TerminatorOpensIff(c, rest);
    forall j: nat | j < |c|
      ensures !Opens(r, j)
    {
      NothingOpensInside(c, rest, j);
    }
  }

  ghost predicate PlainPaths(entries: seq<Entry>) {
    forall k :: 0 <= k < |entries| ==> PlainPath(entries[k].path)
  }

  /** Decoding inverts the material exactly when no content holds a newline before a NUL. */
  lemma DecodeInvertsIff(entries: seq<Entry>)
    requires PlainPaths(entries)
    ensures Decode(DirMaterial(entries)) == entries
       <==> forall k :: 0 <= k < |entries| ==> PlainContent(entries[k].content)
  {
    if forall k :: 0 <= k < |entries| ==> PlainContent(entries[k].content) {
      DecodeInverts(entries);
    } else {
      var decoded := Decode(DirMaterial(entries));
      var k :| 0 <= k < |entries| && !PlainContent(entries[k].content);
      assert k < |decoded| ==> decoded[k] in decoded;
    }
  }

  lemma FirstNul(p: string, r: string)
    requires PlainPath(p)
    ensures IndexOf(p + "\0" + r, '\0') == |p|
  {
    var m := p + "\0" + r;
    forall k | 0 <= k < |p|
      ensures m[k] != '\0'
    {
      assert m[k] == p[k] && p[k] in p;
    }
    assert m[|p|] == '\0';
  }

  lemma DecodeEntry(e: Entry, rest: string)
    requires PlainPath(e.path) && PlainContent(e.content) && StartsEntry(rest)
    ensures Decode(e.path + "\0" + e.content + "\n" + rest) == [e] + Decode(rest)
  {
    var r := e.content + "\n" + rest;
    var m := e.path + "\0" + r;
    assert e.path + "\0" + e.content + "\n" + rest == m;
    FirstNul(e.path, r);
    assert m[..|e.path|] == e.path;
    assert m[|e.path| + 1..] == r;
    DecodePlainContent(e, rest);
  }

  lemma DecodePlainContent(e: Entry, rest: string)
    requires PlainContent(e.content) && StartsEntry(rest)
    ensures DecodeContent(e.path, e.content + "\n" + rest) == [e] + Decode(rest)
  {
    var r := e.content + "\n" + rest;
    FirstOpeningIsTerminator(e.content, rest);
    if rest == "" {
      assert r[..|r| - 1] == e.content;
    } else {
      assert r[..|e.content|] == e.content;
      assert r[|e.content| + 1..] == rest;
    }
  }

  lemma MaterialStartsEntry(entries: seq<Entry>)
    requires PlainPaths(entries)
    ensures StartsEntry(DirMaterial(entries))
  {
    if entries != [] {
      var q, m := entries[0].path, DirMaterial(entries);
      assert m[|q|] == '\0' && m[..|q|] == q;
    }
  }

  lemma {:induction false} DecodeInverts(entries: seq<Entry>)
    requires PlainPaths(entries) && forall k :: 0 <= k < |entries| ==> PlainContent(entries[k].content)
    ensures Decode(DirMaterial(entries)) == entries
  {
    if entries != [] {
      DecodeInverts(entries[1..]);
      MaterialStartsEntry(entries[1..]);
      DecodeEntry(entries[0], DirMaterial(entries[1..]));
    }
  }

  /** A content with a newline before a NUL collides with two separate files. */
  lemma NulContentsCollide(p: string, u: string, q: string, v: string)
    ensures DirMaterial([Entry(p, u + "\n" + q + "\0" + v)]) == DirMaterial([Entry(p, u), Entry(q, v)])
  {
    assert [Entry(p, u), Entry(q, v)][1..] == [Entry(q, v)];
    assert [Entry(q, v)][1..] == [];
    var rest := q + "\0" + v + "\n";
    assert DirMaterial([Entry(q, v)]) == rest;
    assert (u + "\n" + q + "\0" + v) + "\n" == u + "\n" + rest;
  }

  // ----- Trees: which files a declared path covers -----

  function Child(path: string, name: string): string { path + "/" + name }

  /** Paths of the files under `tree`, sorted at every level. */
  function CollectSorted(leq: (string, string) -> bool, tree: Tree, path: string): seq<string> {
    match tree
    case File(_) => [path]
    case Dir(entries) => Sort(leq, CollectEntries(leq, entries, path))
  }

  function CollectEntries(leq: (string, string) -> bool, entries: seq<Named>, path: string): seq<string> {
    if entries == [] then []
    else CollectSorted(leq, entries[0].node, Child(path, entries[0].name)) + CollectEntries(leq, entries[1..], path)
  }

  /** What reading each file path under `tree` returns. */
  function Contents(tree: Tree, path: string): map<string, string> {
    match tree
    case File(content) => map[path := content]
    case Dir(entries) => ContentsOf(entries, path)
  }

  function ContentsOf(entries: seq<Named>, path: string): map<string, string> {
    if entries == [] then map[]
    else Contents(entries[0].node, Child(path, entries[0].name)) + ContentsOf(entries[1..], path)
  }

  predicate GoodName(name: string) { '/' !in name && PlainPath(name) }

  /** Names within a directory differ, contain no separator, and contents are plain. */
  ghost predicate WellFormed(tree: Tree) {
    match tree
    case File(content) => PlainContent(content)
    case Dir(entries) => WellFormedEntries(entries)
  }

  ghost predicate WellFormedEntries(entries: seq<Named>) {
    entries == [] ||
    ( && GoodName(entries[0].name)
      && WellFormed(entries[0].node)
      && (forall k :: 1 <= k < |entries| ==> entries[k].name != entries[0].name)
      && WellFormedEntries(entries[1..]))
  }

  /** `x` is `base` or lies below it. */
  ghost predicate Under(x: string, base: string) {
    x == base || base + "/" <= x
  }

  lemma UnderIsTransitive(x: string, path: string, name: string)
    requires Under(x, Child(path, name))
    ensures path + "/" <= x && path + "/" + name <= x
    ensures |x| > |path| + 1 + |name| ==> x[|path| + 1 + |name|] == '/'
  {
    var c := Child(path, name);
    assert path + "/" <= c;
    if x != c {
      assert x[..|c| + 1] == c + "/";
    }
  }

  /** A path lies under at most one of two differently named siblings. */
  lemma SiblingsAreDisjoint(x: string, path: string, a: string, b: string)
    requires GoodName(a) && GoodName(b)
    requires Under(x, Child(path, a)) && Under(x, Child(path, b))
    ensures a == b
  {
    UnderIsTransitive(x, path, a);
    UnderIsTransitive(x, path, b);
    var p := |path| + 1;
    assert a == x[p..p + |a|] && b == x[p..p + |b|];
    NameEndsAtSlash(x, p, a, |b|);
    NameEndsAtSlash(x, p, b, |a|);
  }

  lemma NameEndsAtSlash(x: string, p: nat, name: string, k: nat)
    requires p + |name| <= |x| && name == x[p..p + |name|] && GoodName(name)
    ensures k < |name| ==> x[p + k] != '/'
  {
    assert k < |name| ==> x[p + k] == name[k] && name[k] in name;
  }

  lemma {:induction false} ContentsLieUnder(tree: Tree, path: string)
    requires WellFormed(tree)
    ensures forall x :: x in Contents(tree, path) ==> Under(x, path)
    ensures forall x :: x in Contents(tree, path) ==> PlainContent(Contents(tree, path)[x])
    ensures PlainPath(path) ==> forall x :: x in Contents(tree, path) ==> PlainPath(x)
    decreases tree
  {
    if tree.Dir? {
      EntriesLieUnder(tree.entries, path);
    }
  }

  lemma {:induction false} EntriesLieUnder(entries: seq<Named>, path: string)
    requires WellFormedEntries(entries)
    ensures forall x :: x in ContentsOf(entries, path) ==>
              exists k :: 0 <= k < |entries| && Under(x, Child(path, entries[k].name))
    ensures forall x :: x in ContentsOf(entries, path) ==> Under(x, path)
    ensures forall x :: x in ContentsOf(entries, path) ==> PlainContent(ContentsOf(entries, path)[x])
    ensures PlainPath(path) ==> forall x :: x in ContentsOf(entries, path) ==> PlainPath(x)
    decreases entries
  {
    if entries != [] {
      var first := Child(path, entries[0].name);
      ContentsLieUnder(entries[0].node, first);
      EntriesLieUnder(entries[1..], path);
      forall x | x in ContentsOf(entries, path)
        ensures exists k :: 0 <= k < |entries| && Under(x, Child(path, entries[k].name))
        ensures Under(x, path)
      {
        if x in ContentsOf(entries[1..], path) {
          var k :| 0 <= k < |entries[1..]| && Under(x, Child(path, entries[1..][k].name));
          assert entries[1..][k] == entries[k + 1];
        } else {
          UnderIsTransitive(x, path, entries[0].name);
          assert Under(x, Child(path, entries[0].name));
        }
      }
    }
  }

  /** The collected list is a sorted, duplicate-free enumeration of the readable files. */
  lemma {:induction false} CollectEnumeratesContents(leq: (string, string) -> bool, tree: Tree, path: string)
    requires TotalOrder(leq) && WellFormed(tree)
    ensures var paths := CollectSorted(leq, tree, path);
            Sorted(leq, paths) && Distinct(paths) && forall x :: x in paths <==> x in Contents(tree, path)
    decreases tree
  {
    match tree
    case File(_) =>
    case Dir(entries) =>
      var all := CollectEntries(leq, entries, path);
      CollectEntriesEnumerates(leq, entries, path);
      SortIsSorted(leq, all);
      DistinctCounts(all);
      DistinctCounts(Sort(leq, all));
      assert forall x :: x in Sort(leq, all) <==> x in multiset(Sort(leq, all));
  }

  lemma {:induction false} CollectEntriesEnumerates(leq: (string, string) -> bool, entries: seq<Named>, path: string)
    requires TotalOrder(leq) && WellFormedEntries(entries)
    ensures var paths := CollectEntries(leq, entries, path);
            Distinct(paths) && forall x :: x in paths <==> x in ContentsOf(entries, path)
    decreases entries
  {
    if entries != [] {
      var name := entries[0].name;
      var first := CollectSorted(leq, entries[0].node, Child(path, name));
      var rest := CollectEntries(leq, entries[1..], path);
      CollectEnumeratesContents(leq, entries[0].node, Child(path, name));
      CollectEntriesEnumerates(leq, entries[1..], path);
      ContentsLieUnder(entries[0].node, Child(path, name));
      forall x | x in first
        ensures x !in rest
      {
        FirstEntryIsApart(entries, path, x);
      }
      DistinctAppend(first, rest);
    }
  }

  lemma FirstEntryIsApart(entries: seq<Named>, path: string, x: string)
    requires entries != [] && WellFormedEntries(entries)
    requires Under(x, Child(path, entries[0].name))
    ensures x !in ContentsOf(entries[1..], path)
  {
    EntriesLieUnder(entries[1..], path);
    if x in ContentsOf(entries[1..], path) {
      var k :| 0 <= k < |entries[1..]| && Under(x, Child(path, entries[1..][k].name));
      assert entries[1..][k] == entries[k + 1];
      WellFormedAt(entries[1..], k);
      SiblingsAreDisjoint(x, path, entries[0].name, entries[k + 1].name);
    }
  }

  lemma {:induction false} WellFormedAt(entries: seq<Named>, k: nat)
    requires WellFormedEntries(entries) && k < |entries|
    ensures GoodName(entries[k].name)
  {
    if k > 0 {
      WellFormedAt(entries[1..], k - 1);
    }
  }

  lemma SameElementsSameSortedList(leq: (string, string) -> bool, s: seq<string>, t: seq<string>)
    requires TotalOrder(leq) && Sorted(leq, s) && Sorted(leq, t) && Distinct(s) && Distinct(t)
    requires forall x :: x in s <==> x in t
    ensures s == t
  {
    DistinctCounts(s);
    DistinctCounts(t);
    forall x
      ensures multiset(s)[x] == multiset(t)[x]
    {
      assert x in s <==> x in multiset(s);
      assert x in t <==> x in multiset(t);
    }
    SortedIsUnique(leq, s, t);
  }

  function EntriesFor(paths: seq<string>, contents: map<string, string>): seq<Entry>
    requires forall x :: x in paths ==> x in contents
  {
    if paths == [] then [] else [Entry(paths[0], contents[paths[0]])] + EntriesFor(paths[1..], contents)
  }

  lemma {:induction false} EntriesForAt(paths: seq<string>, contents: map<string, string>, k: nat)
    requires k < |paths| && forall x :: x in paths ==> x in contents
    ensures |EntriesFor(paths, contents)| == |paths|
    ensures EntriesFor(paths, contents)[k] == Entry(paths[k], contents[paths[k]])
  {
    if k > 0 {
      EntriesForAt(paths[1..], contents, k - 1);
    } else if |paths| > 1 {
      EntriesForAt(paths[1..], contents, 0);
    }
  }

  // ----- A declared path, and a whole step -----

  /** What a fingerprint is meant to stand for at one declared path. */
  datatype View = Missing | FileView(content: string) | DirView(files: map<string, string>)

  function ViewAt(repo: Repo, path: string): View {
    if path !in repo then Missing
    else if repo[path].File? then FileView(repo[path].content)
    else DirView(Contents(repo[path], path))
  }

  /** The directory case hashes the sorted files; a directory without files is marked empty. */
  function PathMaterial(h: Hashing, repo: Repo, path: string): string
    requires path in repo ==> CollectedIsReadable(h, repo[path], path)
  {
    if path !in repo then "missing:" + path
    else if repo[path].File? then "file:" + path + ":" + h.sha(repo[path].content)
    else
      var nested := CollectSorted(h.leq, repo[path], path);
      if nested == [] then "empty-dir:" + path
      else "dir:" + path + ":" + h.sha(DirMaterial(EntriesFor(nested, Contents(repo[path], path))))
  }

  predicate CollectedIsReadable(h: Hashing, tree: Tree, path: string) {
    forall x :: x in CollectSorted(h.leq, tree, path) ==> x in Contents(tree, path)
  }

  predicate AllReadable(h: Hashing, repo: Repo) {
    forall p :: p in repo ==> CollectedIsReadable(h, repo[p], p)
  }

  function OneFile(name: string, content: string): Tree {
    Dir([Named(name, File(content))])
  }

  function TwoFiles(p: string, u: string, q: string, v: string): Tree {
    Dir([Named(p, File(u)), Named(q, File(v))])
  }

  lemma EntriesRead(leq: (string, string) -> bool, path: string, name: string, content: string, rest: seq<Named>)
    ensures CollectEntries(leq, [Named(name, File(content))] + rest, path)
            == [Child(path, name)] + CollectEntries(leq, rest, path)
    ensures ContentsOf([Named(name, File(content))] + rest, path)
            == map[Child(path, name) := content] + ContentsOf(rest, path)
  {
    assert ([Named(name, File(content))] + rest)[1..] == rest;
  }

  lemma OneFileReads(leq: (string, string) -> bool, path: string, name: string, content: string)
    ensures CollectSorted(leq, OneFile(name, content), path) == [Child(path, name)]
    ensures Contents(OneFile(name, content), path) == map[Child(path, name) := content]
  {
    assert [Named(name, File(content))] == [Named(name, File(content))] + [];
    EntriesRead(leq, path, name, content, []);
    SortOfOne(leq, Child(path, name));
    assert [Child(path, name)] + [] == [Child(path, name)];
    assert map[Child(path, name) := content] + map[] == map[Child(path, name) := content];
  }

  lemma SortOfOne(leq: (string, string) -> bool, a: string)
    ensures Sort(leq, [a]) == [a]
  {
    assert [a][..0] == [];
  }

  lemma SortOfTwo(leq: (string, string) -> bool, a: string, b: string)
    requires leq(a, b)
    ensures Sort(leq, [a, b]) == [a, b]
  {
    SortOfOne(leq, a);
    assert [a, b][..1] == [a];
  }

  lemma TwoFilesPaths(leq: (string, string) -> bool, path: string, p: string, u: string, q: string, v: string)
    requires leq(Child(path, p), Child(path, q))
    ensures CollectSorted(leq, TwoFiles(p, u, q, v), path) == [Child(path, p), Child(path, q)]
  {
    var a, b := Child(path, p), Child(path, q);
    var second := [Named(q, File(v))];
    assert [Named(p, File(u)), Named(q, File(v))] == [Named(p, File(u))] + second && second == second + [];
    EntriesRead(leq, path, p, u, second);
    EntriesRead(leq, path, q, v, []);
    assert CollectEntries(leq, second, path) == [b];
    assert [a] + [b] == [a, b];
    SortOfTwo(leq, a, b);
  }

  lemma TwoFilesContents(leq: (string, string) -> bool, path: string, p: string, u: string, q: string, v: string)
    requires p != q
    ensures Contents(TwoFiles(p, u, q, v), path) == map[Child(path, p) := u, Child(path, q) := v]
  {
    var a, b := Child(path, p), Child(path, q);
    var second := [Named(q, File(v))];
    assert [Named(p, File(u)), Named(q, File(v))] == [Named(p, File(u))] + second && second == second + [];
    EntriesRead(leq, path, p, u, second);
    EntriesRead(leq, path, q, v, []);
    assert ContentsOf(second, path) == map[b := v];
    ChildrenDiffer(path, p, q);
    assert map[a := u] + map[b := v] == map[a := u, b := v];
  }

  lemma ChildrenDiffer(path: string, p: string, q: string)
    requires p != q
    ensures Child(path, p) != Child(path, q)
  {
    assert Child(path, p)[|path| + 1..] == p && Child(path, q)[|path| + 1..] == q;
  }

  /** The hypothesis on contents is needed for trees too: a directory with one file whose
      content has a newline, another file's path and a NUL is hashed like the directory with
      both files, though the two directories show different things. */
  lemma DirectoriesCollide(h: Hashing, path: string, p: string, u: string, q: string, v: string)
    requires h.leq(Child(path, p), Child(path, q)) && p != q
    ensures var one := map[path := OneFile(p, u + "\n" + Child(path, q) + "\0" + v)];
      var two := map[path := TwoFiles(p, u, q, v)];
      && AllReadable(h, one) && AllReadable(h, two)
      && PathMaterial(h, one, path) == PathMaterial(h, two, path)
      && ViewAt(one, path) != ViewAt(two, path)
  {
    var content := u + "\n" + Child(path, q) + "\0" + v;
    var a, b := Child(path, p), Child(path, q);
    OneFileReads(h.leq, path, p, content);
    TwoFilesPaths(h.leq, path, p, u, q, v);
    TwoFilesContents(h.leq, path, p, u, q, v);
    ChildrenDiffer(path, p, q);
    EntriesForOne(a, content);
    EntriesForTwo(a, u, b, v);
    NulContentsCollide(a, u, b, v);
    assert b !in map[a := content] && b in map[a := u, b := v];
  }

  lemma EntriesForOne(a: string, content: string)
    ensures EntriesFor([a], map[a := content]) == [Entry(a, content)]
  {
    assert [a][1..] == [];
  }

  lemma EntriesForTwo(a: string, u: string, b: string, v: string)
    requires a != b
    ensures EntriesFor([a, b], map[a := u, b := v]) == [Entry(a, u), Entry(b, v)]
  {
    var contents := map[a := u, b := v];
    assert [a, b][1..] == [b] && [b][1..] == [];
    assert EntriesFor([b], contents) == [Entry(b, v)];
    assert [Entry(a, u)] + [Entry(b, v)] == [Entry(a, u), Entry(b, v)];
  }

  /** Declared paths and everything below them are well formed. */
  ghost predicate WellFormedRepo(repo: Repo) {
    forall p :: p in repo ==> WellFormed(repo[p]) && PlainPath(p)
  }

  lemma CollectedIsAlwaysReadable(h: Hashing, repo: Repo)
    requires ValidHashing(h) && WellFormedRepo(repo)
    ensures AllReadable(h, repo)
  {
    forall path | path in repo
      ensures CollectedIsReadable(h, repo[path], path)
    {
      CollectEnumeratesContents(h.leq, repo[path], path);
    }
  }

  lemma {:induction false} DirMaterialDeterminesContents(h: Hashing, s: Tree, t: Tree, path: string)
    requires ValidHashing(h) && WellFormed(s) && WellFormed(t) && PlainPath(path)
    requires CollectedIsReadable(h, s, path) && CollectedIsReadable(h, t, path)
    ensures DirMaterial(EntriesFor(CollectSorted(h.leq, s, path), Contents(s, path)))
         == DirMaterial(EntriesFor(CollectSorted(h.leq, t, path), Contents(t, path)))
       <==> Contents(s, path) == Contents(t, path)
    ensures Contents(s, path) == Contents(t, path) ==> CollectSorted(h.leq, s, path) == CollectSorted(h.leq, t, path)
  {
    var ps, pt := CollectSorted(h.leq, s, path), CollectSorted(h.leq, t, path);
    var cs, ct := Contents(s, path), Contents(t, path);
    var es, et := EntriesFor(ps, cs), EntriesFor(pt, ct);
    CollectEnumeratesContents(h.leq, s, path);
    CollectEnumeratesContents(h.leq, t, path);
    if cs == ct {
      SameElementsSameSortedList(h.leq, ps, pt);
    }
    if DirMaterial(es) == DirMaterial(et) {
      EntriesArePlain(s, path, ps);
      EntriesArePlain(t, path, pt);
      DecodeInverts(es);
      DecodeInverts(et);
      EntriesDetermineContents(ps, cs, pt, ct);
    }
  }

  lemma EntriesArePlain(tree: Tree, path: string, paths: seq<string>)
    requires WellFormed(tree) && PlainPath(path)
    requires forall x :: x in paths <==> x in Contents(tree, path)
    ensures var entries := EntriesFor(paths, Contents(tree, path));
            PlainPaths(entries) && forall k :: 0 <= k < |entries| ==> PlainContent(entries[k].content)
  {
    ContentsLieUnder(tree, path);
    var contents := Contents(tree, path);
    var entries := EntriesFor(paths, contents);
    forall k | 0 <= k < |entries|
      ensures PlainPath(entries[k].path) && PlainContent(entries[k].content)
    {
      EntriesForLength(paths, contents);
      EntriesForAt(paths, contents, k);
      assert paths[k] in contents;
    }
  }

  lemma EntriesDetermineContents(ps: seq<string>, cs: map<string, string>, pt: seq<string>, ct: map<string, string>)
    requires (forall x :: x in ps <==> x in cs) && (forall x :: x in pt <==> x in ct)
    requires EntriesFor(ps, cs) == EntriesFor(pt, ct)
    ensures cs == ct
  {
    EntriesForLength(ps, cs);
    EntriesForLength(pt, ct);
    forall k | 0 <= k < |ps|
      ensures ps[k] == pt[k] && cs[ps[k]] == ct[pt[k]]
    {
      EntriesForAt(ps, cs, k);
      EntriesForAt(pt, ct, k);
    }
    assert ps == pt;
  }

  lemma {:induction false} EntriesForLength(paths: seq<string>, contents: map<string, string>)
    requires forall x :: x in paths ==> x in contents
    ensures |EntriesFor(paths, contents)| == |paths|
  {
    if paths != [] {
      EntriesForLength(paths[1..], contents);
    }
  }

  /** Material at one path is the same for two repositories exactly when they show
      the same thing there: listing order and empty directories make no difference. */
  lemma PathMaterialDeterminesView(h: Hashing, r: Repo, s: Repo, path: string)
    requires ValidHashing(h) && WellFormedRepo(r) && WellFormedRepo(s)
    requires path in r ==> CollectedIsReadable(h, r[path], path)
    requires path in s ==> CollectedIsReadable(h, s[path], path)
    ensures PathMaterial(h, r, path) == PathMaterial(h, s, path) <==> ViewAt(r, path) == ViewAt(s, path)
  {
    var m, n := PathMaterial(h, r, path), PathMaterial(h, s, path);
    if m == n {
      assert m[0] == n[0];
      if path in r && path in s && r[path].File? {
        HashTail("file:" + path + ":", h.sha(r[path].content), h.sha(s[path].content));
      } else if path in r && path in s {
        EmptyIffNoFiles(h, r[path], path);
        EmptyIffNoFiles(h, s[path], path);
        if m[0] == 'd' {
          var mr := DirMaterial(EntriesFor(CollectSorted(h.leq, r[path], path), Contents(r[path], path)));
          var ms := DirMaterial(EntriesFor(CollectSorted(h.leq, s[path], path), Contents(s[path], path)));
          HashTail("dir:" + path + ":", h.sha(mr), h.sha(ms));
          DirMaterialDeterminesContents(h, r[path], s[path], path);
        }
      }
    }
    if ViewAt(r, path) == ViewAt(s, path) && path in r && r[path].Dir? {
      DirMaterialDeterminesContents(h, r[path], s[path], path);
    }
  }

  lemma HashTail(prefix: string, a: string, b: string)
    requires prefix + a == prefix + b
    ensures a == b
  {
    assert (prefix + a)[|prefix|..] == a && (prefix + b)[|prefix|..] == b;
  }

  lemma EmptyIffNoFiles(h: Hashing, tree: Tree, path: string)
    requires ValidHashing(h) && WellFormed(tree)
    ensures CollectSorted(h.leq, tree, path) == [] <==> Contents(tree, path) == map[]
  {
    CollectEnumeratesContents(h.leq, tree, path);
    var paths, contents := CollectSorted(h.leq, tree, path), Contents(tree, path);
    assert paths != [] ==> paths[0] in contents;
  }

  datatype StepInputs = StepInputs(
    stepId: string,
    inputPaths: seq<string>,
    generatorPaths: seq<string>,
    schemaPaths: seq<string>)

  function DeclaredPaths(inputs: StepInputs): seq<string> {
    inputs.inputPaths + inputs.generatorPaths + inputs.schemaPaths
  }

  function Lines(lines: seq<string>): string {
    if lines == [] then "" else Lines(lines[..|lines| - 1]) + lines[|lines| - 1] + "\n"
  }

  function PathLines(h: Hashing, repo: Repo, paths: seq<string>): seq<string>
    requires AllReadable(h, repo)
  {
    seq(|paths|, i requires 0 <= i < |paths| => PathMaterial(h, repo, paths[i]))
  }

  function StepHeader(inputs: StepInputs): seq<string> {
    ["schemaVersion:1", "stepId:" + inputs.stepId]
  }

  function Sections(head: seq<string>, i: seq<string>, g: seq<string>, c: seq<string>): seq<string> {
    head + ["inputs:"] + i + ["generators:"] + g + ["schemas:"] + c
  }

  /** The hashed text, line by line: schema version, step, then each section's paths. */
  function StepLines(h: Hashing, repo: Repo, inputs: StepInputs): seq<string>
    requires AllReadable(h, repo)
  {
    Sections(StepHeader(inputs), PathLines(h, repo, inputs.inputPaths),
             PathLines(h, repo, inputs.generatorPaths), PathLines(h, repo, inputs.schemaPaths))
  }

  function Fingerprint(h: Hashing, repo: Repo, inputs: StepInputs): string
    requires AllReadable(h, repo)
  {
    h.sha(Lines(StepLines(h, repo, inputs)))
  }

  lemma NoNewlineBeyond(x: string, a: string, y: string)
    requires '\n' !in a && y <= x + a && (y == "" || y[|y| - 1] == '\n')
    ensures |y| <= |x|
  {
    forall k | |x| <= k < |x + a|
      ensures (x + a)[k] != '\n'
    {
      assert (x + a)[k] == a[k - |x|] && a[k - |x|] in a;
    }
    assert y != "" ==> (x + a)[|y| - 1] == y[|y| - 1];
  }

  lemma LastLineSplits(x: string, a: string, y: string, b: string)
    requires '\n' !in a && '\n' !in b && x + a + "\n" == y + b + "\n"
    requires (x == "" || x[|x| - 1] == '\n') && (y == "" || y[|y| - 1] == '\n')
    ensures a == b && x == y
  {
    var u, v := x + a, y + b;
    assert u == (u + "\n")[..|u|] && v == (v + "\n")[..|v|];
    NoNewlineBeyond(x, a, y);
    NoNewlineBeyond(y, b, x);
    assert x == u[..|x|] && y == v[..|y|] && a == u[|x|..] && b == v[|y|..];
  }

  ghost predicate NewlineFree(lines: seq<string>) {
    forall k :: 0 <= k < |lines| ==> '\n' !in lines[k]
  }

  /** Newline-free lines can be told apart in the joined text. */
  lemma {:induction false} LinesAreInjective(s: seq<string>, t: seq<string>)
    requires NewlineFree(s) && NewlineFree(t)
    requires Lines(s) == Lines(t)
    ensures s == t
  {
    if s != [] && t != [] {
      var fs, ft := s[..|s| - 1], t[..|t| - 1];
      LastLineSplits(Lines(fs), s[|s| - 1], Lines(ft), t[|t| - 1]);
      LinesAreInjective(fs, ft);
      assert s == fs + [s[|s| - 1]] && t == ft + [t[|t| - 1]];
    }
  }

  lemma PathMaterialIsOneLine(h: Hashing, repo: Repo, path: string)
    requires ValidHashing(h) && PlainPath(path)
    requires path in repo ==> CollectedIsReadable(h, repo[path], path)
    ensures '\n' !in PathMaterial(h, repo, path)
  {
  }

  /** All declared paths show the same thing in `r` and `s`. */
  ghost predicate SameViews(inputs: StepInputs, r: Repo, s: Repo) {
    forall p :: p in DeclaredPaths(inputs) ==> ViewAt(r, p) == ViewAt(s, p)
  }

  ghost predicate PlainInputs(inputs: StepInputs) {
    '\n' !in inputs.stepId && forall p :: p in DeclaredPaths(inputs) ==> PlainPath(p)
  }

  lemma PathLinesDetermineViews(h: Hashing, r: Repo, s: Repo, paths: seq<string>)
    requires ValidHashing(h) && WellFormedRepo(r) && WellFormedRepo(s)
    requires forall p :: p in paths ==> PlainPath(p)
    requires AllReadable(h, r)
    requires AllReadable(h, s)
    ensures PathLines(h, r, paths) == PathLines(h, s, paths)
            <==> forall p :: p in paths ==> ViewAt(r, p) == ViewAt(s, p)
    ensures NewlineFree(PathLines(h, r, paths))
  {
    forall k | 0 <= k < |paths|
      ensures PathLines(h, r, paths)[k] == PathLines(h, s, paths)[k] <==> ViewAt(r, paths[k]) == ViewAt(s, paths[k])
      ensures '\n' !in PathLines(h, r, paths)[k]
    {
      PathMaterialDeterminesView(h, r, s, paths[k]);
      PathMaterialIsOneLine(h, r, paths[k]);
    }
    if PathLines(h, r, paths) == PathLines(h, s, paths) {
      forall p | p in paths
        ensures ViewAt(r, p) == ViewAt(s, p)
      {
        var k :| 0 <= k < |paths| && paths[k] == p;
        assert PathLines(h, r, paths)[k] == PathLines(h, s, paths)[k];
      }
    }
  }

  lemma StepLinesDetermineViews(h: Hashing, r: Repo, s: Repo, inputs: StepInputs)
    requires ValidHashing(h) && WellFormedRepo(r) && WellFormedRepo(s) && PlainInputs(inputs)
    requires AllReadable(h, r)
    requires AllReadable(h, s)
    ensures StepLines(h, r, inputs) == StepLines(h, s, inputs) <==> SameViews(inputs, r, s)
    ensures NewlineFree(StepLines(h, r, inputs))
  {
    PathLinesDetermineViews(h, r, s, inputs.inputPaths);
    PathLinesDetermineViews(h, r, s, inputs.generatorPaths);
    PathLinesDetermineViews(h, r, s, inputs.schemaPaths);
    SectionsAgreeIff(StepHeader(inputs),
      PathLines(h, r, inputs.inputPaths), PathLines(h, r, inputs.generatorPaths), PathLines(h, r, inputs.schemaPaths),
      PathLines(h, s, inputs.inputPaths), PathLines(h, s, inputs.generatorPaths), PathLines(h, s, inputs.schemaPaths));
  }

  lemma SectionsAgreeIff(head: seq<string>, i: seq<string>, g: seq<string>, c: seq<string>,
                         i': seq<string>, g': seq<string>, c': seq<string>)
    requires |i| == |i'| && |g| == |g'| && |c| == |c'|
    ensures Sections(head, i, g, c) == Sections(head, i', g', c') <==> i == i' && g == g' && c == c'
    ensures NewlineFree(head) && NewlineFree(i) && NewlineFree(g) && NewlineFree(c)
            ==> NewlineFree(Sections(head, i, g, c))
  {
    var a, a' := head + ["inputs:"] + i, head + ["inputs:"] + i';
    var b, b' := a + ["generators:"] + g, a' + ["generators:"] + g';
    if Sections(head, i, g, c) == Sections(head, i', g', c') {
      ConcatSplits(b + ["schemas:"], c, b' + ["schemas:"], c');
      ConcatSplits(b, ["schemas:"], b', ["schemas:"]);
      ConcatSplits(a + ["generators:"], g, a' + ["generators:"], g');
      ConcatSplits(a, ["generators:"], a', ["generators:"]);
      ConcatSplits(head + ["inputs:"], i, head + ["inputs:"], i');
    }
  }

  lemma ConcatSplits(a: seq<string>, b: seq<string>, c: seq<string>, d: seq<string>)
    requires |a| == |c| && a + b == c + d
    ensures a == c && b == d
  {
    assert a == (a + b)[..|a|] && c == (c + d)[..|c|];
    assert b == (a + b)[|a|..] && d == (c + d)[|c|..];
  }

  /** Equal fingerprints mean the same view under every declared path, and conversely. */
  lemma FingerprintDeterminesViews(h: Hashing, r: Repo, s: Repo, inputs: StepInputs)
    requires ValidHashing(h) && WellFormedRepo(r) && WellFormedRepo(s) && PlainInputs(inputs)
    requires AllReadable(h, r)
    requires AllReadable(h, s)
    ensures Fingerprint(h, r, inputs) == Fingerprint(h, s, inputs) <==> SameViews(inputs, r, s)
  {
    StepLinesDetermineViews(h, r, s, inputs);
    StepLinesDetermineViews(h, s, r, inputs);
    if Fingerprint(h, r, inputs) == Fingerprint(h, s, inputs) {
      LinesAreInjective(StepLines(h, r, inputs), StepLines(h, s, inputs));
    }
  }

  // ----- Listing order -----

  /** Whatever `s` lists, `t` lists too, in any order and at every level. */
  ghost predicate ListedIn(s: Tree, t: Tree)
    decreases s
  {
    match s
    case File(content) => t == File(content)
    case Dir(es) =>
      t.Dir? && forall m :: m in es ==> exists n :: n in t.entries && n.name == m.name && ListedIn(m.node, n.node)
  }

  /** The two trees differ only in the order in which directories list their entries. */
  ghost predicate SameListing(s: Tree, t: Tree) {
    ListedIn(s, t) && ListedIn(t, s)
  }

  lemma {:induction false} ContentsOfEntry(entries: seq<Named>, path: string, n: Named, x: string)
    requires WellFormedEntries(entries) && n in entries && x in Contents(n.node, Child(path, n.name))
    ensures WellFormed(n.node)
    ensures x in ContentsOf(entries, path) && ContentsOf(entries, path)[x] == Contents(n.node, Child(path, n.name))[x]
  {
    if n == entries[0] {
      ContentsLieUnder(n.node, Child(path, n.name));
      FirstEntryIsApart(entries, path, x);
    } else {
      ContentsOfEntry(entries[1..], path, n, x);
    }
  }

  lemma {:induction false} EntryOfContents(entries: seq<Named>, path: string, x: string) returns (n: Named)
    requires WellFormedEntries(entries) && x in ContentsOf(entries, path)
    ensures n in entries && WellFormed(n.node) && x in Contents(n.node, Child(path, n.name))
  {
    if x in ContentsOf(entries[1..], path) {
      n := EntryOfContents(entries[1..], path, x);
    } else {
      n := entries[0];
    }
  }

  lemma {:induction false} ListedContents(s: Tree, t: Tree, path: string, x: string)
    requires WellFormed(s) && WellFormed(t) && ListedIn(s, t) && x in Contents(s, path)
    ensures x in Contents(t, path) && Contents(t, path)[x] == Contents(s, path)[x]
    decreases s
  {
    if s.Dir? {
      var m := EntryOfContents(s.entries, path, x);
      var n :| n in t.entries && n.name == m.name && ListedIn(m.node, n.node);
      WellFormedEntry(t.entries, n);
      ListedContents(m.node, n.node, Child(path, m.name), x);
      ContentsOfEntry(s.entries, path, m, x);
      ContentsOfEntry(t.entries, path, n, x);
    }
  }

  lemma AllListedContents(s: Tree, t: Tree, path: string)
    requires WellFormed(s) && WellFormed(t) && ListedIn(s, t)
    ensures Contents(s, path).Items <= Contents(t, path).Items
  {
    var cs, ct := Contents(s, path), Contents(t, path);
    forall e | e in cs.Items
      ensures e in ct.Items
    {
      ListedContents(s, t, path, e.0);
    }
  }

  /** Trees that differ only in listing order read the same. */
  lemma ListingOrderIsIrrelevant(s: Tree, t: Tree, path: string)
    requires WellFormed(s) && WellFormed(t) && SameListing(s, t)
    ensures Contents(s, path) == Contents(t, path)
  {
    AllListedContents(s, t, path);
    AllListedContents(t, s, path);
    SameItemsSameMap(Contents(s, path), Contents(t, path));
  }

  lemma SameItemsSameMap(m: map<string, string>, n: map<string, string>)
    requires m.Items <= n.Items && n.Items <= m.Items
    ensures m == n
  {
    forall x | x in m ensures x in n && n[x] == m[x] {
      assert (x, m[x]) in n.Items;
    }
    forall x | x in n ensures x in m {
      assert (x, n[x]) in m.Items;
    }
  }

  lemma {:induction false} WellFormedEntry(entries: seq<Named>, n: Named)
    requires WellFormedEntries(entries) && n in entries
    ensures WellFormed(n.node)
  {
    if n != entries[0] {
      WellFormedEntry(entries[1..], n);
    }
  }

  // ----- The computation with its loops -----

  method CollectSortedFiles(leq: (string, string) -> bool, tree: Tree, path: string) returns (files: seq<string>)
    ensures files == CollectSorted(leq, tree, path)
    decreases tree, 1
  {
    match tree
    case File(_) => files := [path];
    case Dir(entries) =>
      files := CollectChildren(leq, tree, path);
      files := Sort(leq, files);
  }

  lemma CollectUnfolds(leq: (string, string) -> bool, entries: seq<Named>, i: nat, path: string)
    requires i < |entries|
    ensures CollectEntries(leq, entries[i..], path)
         == CollectSorted(leq, entries[i].node, Child(path, entries[i].name))
            + CollectEntries(leq, entries[i + 1..], path)
  {
    assert entries[i..][1..] == entries[i + 1..];
  }

  method CollectChildren(leq: (string, string) -> bool, dir: Tree, path: string) returns (files: seq<string>)
    requires dir.Dir?
    ensures files == CollectEntries(leq, dir.entries, path)
    decreases dir, 0
  {
    files := [];
    for i := 0 to |dir.entries|
      invariant files + CollectEntries(leq, dir.entries[i..], path) == CollectEntries(leq, dir.entries, path)
    {
      var entry := dir.entries[i];
      ghost var before, rest := files, CollectEntries(leq, dir.entries[i + 1..], path);
      CollectUnfolds(leq, dir.entries, i, path);
      var nested := CollectSortedFiles(leq, entry.node, Child(path, entry.name));
      files := files + nested;
      assert files + rest == before + (nested + rest);
    }
  }

  method HashDirectory(nested: seq<string>, contents: map<string, string>) returns (hashed: string)
    requires forall x :: x in nested ==> x in contents
    ensures hashed == DirMaterial(EntriesFor(nested, contents))
  {
    hashed := "";
    for i := 0 to |nested|
      invariant hashed + DirMaterial(EntriesFor(nested[i..], contents)) == DirMaterial(EntriesFor(nested, contents))
    {
      EntriesForUnfolds(nested[i..], contents);
      assert nested[i..][1..] == nested[i + 1..];
      hashed := hashed + (nested[i] + "\0" + contents[nested[i]] + "\n");
    }
  }

  lemma EntriesForUnfolds(paths: seq<string>, contents: map<string, string>)
    requires paths != [] && forall x :: x in paths ==> x in contents
    ensures DirMaterial(EntriesFor(paths, contents))
         == paths[0] + "\0" + contents[paths[0]] + "\n" + DirMaterial(EntriesFor(paths[1..], contents))
  {
    assert EntriesFor(paths, contents)[1..] == EntriesFor(paths[1..], contents);
  }

  method HashPathMaterial(h: Hashing, repo: Repo, path: string) returns (material: string)
    requires path in repo ==> CollectedIsReadable(h, repo[path], path)
    ensures material == PathMaterial(h, repo, path)
  {
    if path !in repo {
      return "missing:" + path;
    }
    if repo[path].File? {
      return "file:" + path + ":" + h.sha(repo[path].content);
    }
    var nested := CollectSortedFiles(h.leq, repo[path], path);
    if nested == [] {
      return "empty-dir:" + path;
    }
    var hashed := HashDirectory(nested, Contents(repo[path], path));
    return "dir:" + path + ":" + h.sha(hashed);
  }

  lemma LinesSnoc(lines: seq<string>, line: string)
    ensures Lines(lines + [line]) == Lines(lines) + line + "\n"
  {
    assert (lines + [line])[..|lines|] == lines;
  }

  lemma SectionGrows(h: Hashing, repo: Repo, paths: seq<string>, before: seq<string>, i: nat)
    requires i < |paths| && AllReadable(h, repo)
    ensures var all := PathLines(h, repo, paths);
            Lines(before + all[..i + 1]) == Lines(before + all[..i]) + PathMaterial(h, repo, paths[i]) + "\n"
  {
    var all := PathLines(h, repo, paths);
    LinesSnoc(before + all[..i], all[i]);
    assert before + all[..i] + [all[i]] == before + all[..i + 1];
  }

  method AppendSection(h: Hashing, repo: Repo, title: string, paths: seq<string>, hashed: string,
                       ghost before: seq<string>)
    returns (text: string)
    requires AllReadable(h, repo)
    requires hashed == Lines(before)
    ensures text == Lines(before + [title] + PathLines(h, repo, paths))
  {
    LinesSnoc(before, title);
    text := hashed + title + "\n";
    ghost var start, all := before + [title], PathLines(h, repo, paths);
    assert start + all[..0] == start;
    for i := 0 to |paths|
      invariant text == Lines(start + all[..i])
    {
      SectionGrows(h, repo, paths, start, i);
      var material := HashPathMaterial(h, repo, paths[i]);
      text := text + material + "\n";
    }
    assert all[..|paths|] == all;
  }

  method ComputeStepFingerprint(h: Hashing, repo: Repo, inputs: StepInputs) returns (fingerprint: string)
    requires AllReadable(h, repo)
    ensures fingerprint == Fingerprint(h, repo, inputs)
  {
    ghost var header := StepHeader(inputs);
    LinesSnoc([], header[0]);
    LinesSnoc([header[0]], header[1]);
    assert [] + [header[0]] == [header[0]] && [header[0]] + [header[1]] == header;
    var hashed := "" + "schemaVersion:1" + "\n" + ("stepId:" + inputs.stepId) + "\n";
    ghost var i := PathLines(h, repo, inputs.inputPaths);
    ghost var g := PathLines(h, repo, inputs.generatorPaths);
    hashed := AppendSection(h, repo, "inputs:", inputs.inputPaths, hashed, header);
    hashed := AppendSection(h, repo, "generators:", inputs.generatorPaths, hashed, header + ["inputs:"] + i);
    hashed := AppendSection(h, repo, "schemas:", inputs.schemaPaths, hashed,
                            header + ["inputs:"] + i + ["generators:"] + g);
    fingerprint := h.sha(hashed);
  }

  // ----- The hypotheses on hashing can be met -----

  function Escape(s: string): string {
    if s == "" then "" else (if s[0] == '\n' then "nn" else ['c', s[0]]) + Escape(s[1..])
  }

  lemma {:induction false} EscapeIsInjective(s: string, t: string)
    requires Escape(s) == Escape(t)
    ensures s == t
  {
    if s != "" && t != "" {
      assert Escape(s)[0..2] == Escape(t)[0..2];
      assert Escape(s)[0] == Escape(t)[0] && Escape(s)[1] == Escape(t)[1];
      assert Escape(s)[2..] == Escape(s[1..]) && Escape(t)[2..] == Escape(t[1..]);
      EscapeIsInjective(s[1..], t[1..]);
      assert s == [s[0]] + s[1..] && t == [t[0]] + t[1..];
    }
  }

  lemma {:induction false} EscapeHasNoNewline(s: string)
    ensures '\n' !in Escape(s)
  {
    if s != "" {
      EscapeHasNoNewline(s[1..]);
    }
  }

  lemma ValidHashingExists()
    ensures ValidHashing(Hashing((s: string) => "h" + Escape(s), LexLeq))
  {
    LexIsTotalOrder();
    forall x, y | "h" + Escape(x) == "h" + Escape(y)
      ensures x == y
    {
      HashTail("h", Escape(x), Escape(y));
      EscapeIsInjective(x, y);
    }
    forall x
      ensures '\n' !in Escape(x)
    {
      EscapeHasNoNewline(x);
    }
  }
}
