/** The text that is hashed for a step, spelled out, and which files a declared directory
    stands for. */
module FingerprintText {
  import opened Common
  import opened Fingerprints

  // ----- The files below a path -----

  /** A path followed by names, each after a slash. */
  function Joined(path: string, names: seq<string>): string
    decreases |names|
  {
    if names == [] then path else Joined(path + "/" + names[0], names[1..])
  }

  /** Walking down `names` from the top of the tree ends at a file with that content. */
  ghost predicate FileAt(tree: Tree, names: seq<string>, content: string)
    decreases tree
  {
    match tree
    case File(c) => names == [] && c == content
    case Dir(entries) => names != [] && EntryAt(entries, names, content)
  }

  ghost predicate EntryAt(entries: seq<Named>, names: seq<string>, content: string)
    requires names != []
    decreases entries
  {
    entries != [] &&
    (|| (entries[0].name == names[0] && FileAt(entries[0].node, names[1..], content))
     || EntryAt(entries[1..], names, content))
  }

  ghost predicate Holds(m: map<string, string>, x: string, content: string) {
    x in m && m[x] == content
  }

  ghost predicate FileLies(tree: Tree, path: string, x: string, content: string) {
    exists names :: Joined(path, names) == x && FileAt(tree, names, content)
  }

  ghost predicate EntryLies(entries: seq<Named>, path: string, x: string, content: string) {
    exists names :: names != [] && Joined(path, names) == x && EntryAt(entries, names, content)
  }

  /** A directory shows exactly the files that lie below it, at their joined paths. */
  lemma {:induction false} ContentsAre(tree: Tree, path: string, x: string, content: string)
    requires WellFormed(tree)
    ensures Holds(Contents(tree, path), x, content) <==> FileLies(tree, path, x, content)
    decreases tree
  {
    match tree
    case File(c) =>
      assert Joined(path, []) == path;
      assert Holds(Contents(tree, path), x, content) ==> FileAt(tree, [], content);
    case Dir(entries) => EntriesAre(entries, path, x, content);
  }

  lemma {:induction false} EntriesAre(entries: seq<Named>, path: string, x: string, content: string)
    requires WellFormedEntries(entries)
    ensures Holds(ContentsOf(entries, path), x, content) <==> EntryLies(entries, path, x, content)
    decreases entries
  {
    if entries != [] {
      var first, child := entries[0], Child(path, entries[0].name);
      ContentsAre(first.node, child, x, content);
      EntriesAre(entries[1..], path, x, content);
      FirstOrRest(entries, path, x, content);
      FirstOrRestLies(entries, path, x, content);
    }
  }

  lemma FirstOrRest(entries: seq<Named>, path: string, x: string, content: string)
    requires WellFormedEntries(entries) && entries != []
    ensures Holds(ContentsOf(entries, path), x, content)
       <==> || Holds(Contents(entries[0].node, Child(path, entries[0].name)), x, content)
            || Holds(ContentsOf(entries[1..], path), x, content)
  {
    var child := Child(path, entries[0].name);
    ContentsLieUnder(entries[0].node, child);
    if x in Contents(entries[0].node, child) {
      FirstEntryIsApart(entries, path, x);
    }
  }

  lemma FirstOrRestLies(entries: seq<Named>, path: string, x: string, content: string)
    requires entries != []
    ensures EntryLies(entries, path, x, content)
       <==> || FileLies(entries[0].node, Child(path, entries[0].name), x, content)
            || EntryLies(entries[1..], path, x, content)
  {
    var first, child := entries[0], Child(path, entries[0].name);
    if names :| Joined(child, names) == x && FileAt(first.node, names, content) {
      var longer := [first.name] + names;
      assert longer[1..] == names && Joined(path, longer) == x;
      assert EntryAt(entries, longer, content);
    }
    if names :| names != [] && Joined(path, names) == x && EntryAt(entries[1..], names, content) {
      assert EntryAt(entries, names, content);
    }
    if names :| names != [] && Joined(path, names) == x && EntryAt(entries, names, content) {
      if first.name == names[0] && FileAt(first.node, names[1..], content) {
        assert Joined(child, names[1..]) == x;
      }
    }
  }

  // ----- The text -----

  /** Path, NUL, content, newline, for each path in turn. */
  function Spelled(paths: seq<string>, files: map<string, string>): string
    requires forall x :: x in paths ==> x in files
  {
    if paths == [] then ""
    else
      var front, last := paths[..|paths| - 1], paths[|paths| - 1];
      Spelled(front, files) + last + "\0" + files[last] + "\n"
  }

  /** The files of a directory, once each, in locale order of their paths. */
  ghost predicate InOrder(leq: (string, string) -> bool, files: map<string, string>, paths: seq<string>) {
    Sorted(leq, paths) && Distinct(paths) && forall x :: x in paths <==> x in files
  }

  ghost predicate IsPathText(h: Hashing, repo: Repo, path: string, text: string) {
    match ViewAt(repo, path)
    case Missing => text == "missing:" + path
    case FileView(content) => text == "file:" + path + ":" + h.sha(content)
    case DirView(files) =>
      if files == map[] then text == "empty-dir:" + path
      else exists paths :: InOrder(h.leq, files, paths) && text == "dir:" + path + ":" + h.sha(Spelled(paths, files))
  }

  lemma SpelledFromFront(paths: seq<string>, files: map<string, string>)
    requires paths != [] && forall x :: x in paths ==> x in files
    ensures Spelled(paths, files) == paths[0] + "\0" + files[paths[0]] + "\n" + Spelled(paths[1..], files)
    decreases |paths|
  {
    var front, last := paths[..|paths| - 1], paths[|paths| - 1];
    if |paths| == 1 {
      assert front == [] && "" + last == last;
      assert last + "\0" + files[last] + "\n" + "" == last + "\0" + files[last] + "\n";
    } else {
      SpelledFromFront(front, files);
      var rest := paths[1..];
      assert front[1..] == rest[..|rest| - 1] && rest[|rest| - 1] == last;
      SameGrouping(paths[0] + "\0" + files[paths[0]] + "\n", Spelled(front[1..], files), last, files[last]);
    }
  }

  lemma SameGrouping(first: string, middle: string, last: string, content: string)
    ensures first + middle + last + "\0" + content + "\n" == first + (middle + last + "\0" + content + "\n")
  {
  }

  lemma {:induction false} MaterialIsSpelled(paths: seq<string>, files: map<string, string>)
    requires forall x :: x in paths ==> x in files
    ensures DirMaterial(EntriesFor(paths, files)) == Spelled(paths, files)
  {
    if paths != [] {
      MaterialIsSpelled(paths[1..], files);
      SpelledFromFront(paths, files);
      assert EntriesFor(paths, files)[1..] == EntriesFor(paths[1..], files);
    }
  }

  /** What is written for a declared path. */
  lemma PathTextIs(h: Hashing, repo: Repo, path: string)
    requires ValidHashing(h) && WellFormedRepo(repo) && AllReadable(h, repo)
    ensures IsPathText(h, repo, path, PathMaterial(h, repo, path))
  {
    if path in repo && repo[path].Dir? {
      var nested, files := CollectSorted(h.leq, repo[path], path), Contents(repo[path], path);
      CollectEnumeratesContents(h.leq, repo[path], path);
      EmptyIffNoFiles(h, repo[path], path);
      MaterialIsSpelled(nested, files);
      assert InOrder(h.leq, files, nested);
    }
  }

  /** The lines of a section: its title and then the text of each path. */
  ghost predicate IsSection(h: Hashing, repo: Repo, title: string, paths: seq<string>, lines: seq<string>) {
    && |lines| == |paths| + 1 && lines[0] == title + ":"
    && forall k :: 0 <= k < |paths| ==> IsPathText(h, repo, paths[k], lines[k + 1])
  }

  /** Each line followed by a newline. */
  function Text(lines: seq<string>): string {
    if lines == [] then "" else lines[0] + "\n" + Text(lines[1..])
  }

  lemma {:induction false} TextSnoc(lines: seq<string>, last: string)
    ensures Text(lines + [last]) == Text(lines) + last + "\n"
  {
    if lines == [] {
      assert [] + [last] == [last] && [last][1..] == [];
      assert last + "\n" + "" == "" + last + "\n";
    } else {
      assert (lines + [last])[1..] == lines[1..] + [last];
      TextSnoc(lines[1..], last);
      assert lines[0] + "\n" + (Text(lines[1..]) + last + "\n") == lines[0] + "\n" + Text(lines[1..]) + last + "\n";
    }
  }

  lemma {:induction false} LinesAreText(lines: seq<string>)
    ensures Lines(lines) == Text(lines)
  {
    if lines != [] {
      var front, last := lines[..|lines| - 1], lines[|lines| - 1];
      LinesAreText(front);
      TextSnoc(front, last);
      assert lines == front + [last];
    }
  }

  lemma SectionIs(h: Hashing, repo: Repo, title: string, paths: seq<string>, texts: seq<string>)
    requires ValidHashing(h) && WellFormedRepo(repo) && AllReadable(h, repo) && texts == PathLines(h, repo, paths)
    ensures IsSection(h, repo, title, paths, [title + ":"] + texts)
  {
    var lines := [title + ":"] + texts;
    forall k | 0 <= k < |paths| ensures IsPathText(h, repo, paths[k], lines[k + 1]) {
      PathTextIs(h, repo, paths[k]);
      assert lines[k + 1] == texts[k];
    }
  }

  /** The fingerprint hashes two header lines, schema version 1 and the step's id, and then
      the sections of the inputs, the generators and the schemas, in that order. */
  lemma FingerprintHashes(h: Hashing, repo: Repo, inputs: StepInputs)
    returns (i: seq<string>, g: seq<string>, c: seq<string>)
    requires ValidHashing(h) && WellFormedRepo(repo) && AllReadable(h, repo)
    ensures Fingerprint(h, repo, inputs)
         == h.sha(Text(["schemaVersion:1", "stepId:" + inputs.stepId] + i + g + c))
    ensures IsSection(h, repo, "inputs", inputs.inputPaths, i)
    ensures IsSection(h, repo, "generators", inputs.generatorPaths, g)
    ensures IsSection(h, repo, "schemas", inputs.schemaPaths, c)
  {
    i := ["inputs" + ":"] + PathLines(h, repo, inputs.inputPaths);
    g := ["generators" + ":"] + PathLines(h, repo, inputs.generatorPaths);
    c := ["schemas" + ":"] + PathLines(h, repo, inputs.schemaPaths);
    SectionIs(h, repo, "inputs", inputs.inputPaths, PathLines(h, repo, inputs.inputPaths));
    SectionIs(h, repo, "generators", inputs.generatorPaths, PathLines(h, repo, inputs.generatorPaths));
    SectionIs(h, repo, "schemas", inputs.schemaPaths, PathLines(h, repo, inputs.schemaPaths));
    TitlesAre();
    assert StepLines(h, repo, inputs) == ["schemaVersion:1", "stepId:" + inputs.stepId] + i + g + c;
    LinesAreText(StepLines(h, repo, inputs));
  }

  lemma TitlesAre()
    ensures "inputs" + ":" == "inputs:" && "generators" + ":" == "generators:" && "schemas" + ":" == "schemas:"
  {
  }
}
