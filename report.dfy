/** Report assembly: the per-child collection of `GetDirectorySizesAsync`
    and `GetFileSizesAsync` (Program.cs:58-90), the ordering and line format
    of the report in `Main` (Program.cs:31-48), and the whole run of `Main`
    (Program.cs:20-56) from the command line to the console and output file.

    The collections are `ConcurrentBag`s filled by `Parallel.ForEach`; the
    model fills a multiset sequentially and lets enumeration pick any order,
    which is as much as the source guarantees. */
module Report {
  import opened Basics
  import opened FileSystem
  import opened FriendlyBytes
  import opened CommandLine
  import opened Output

  /** A `KeyValuePair<string, string>` of the collections: a name and its friendly size. */
  datatype Entry = Entry(name: string, size: string)

  /** A report line for one entry. */
  function EntryLine(e: Entry): string
  {
    e.name + "\t" + e.size
  }

  function DirectoryEntry(d: Directory, fixed2: (nat, nat) -> string): Entry
  {
    Entry(d.name, FriendlyBytesAmount(Size(d), fixed2))
  }

  function FileEntry(f: File, fixed2: (nat, nat) -> string): Entry
  {
    Entry(f.name, FriendlyBytesAmount(f.length, fixed2))
  }

  // ---------------------------------------------------------------------------
  // Collection
  // ---------------------------------------------------------------------------

  /** The entries of the subdirectories, in listing order. */
  function DirectoryEntries(children: seq<Directory>, fixed2: (nat, nat) -> string): (es: seq<Entry>)
    ensures |es| == |children|
    ensures forall i :: 0 <= i < |children| ==> es[i] == DirectoryEntry(children[i], fixed2)
  {
    if children == [] then []
    else DirectoryEntries(children[..|children| - 1], fixed2) + [DirectoryEntry(children[|children| - 1], fixed2)]
  }

  function FileEntries(files: seq<File>, fixed2: (nat, nat) -> string): (es: seq<Entry>)
    ensures |es| == |files|
    ensures forall i :: 0 <= i < |files| ==> es[i] == FileEntry(files[i], fixed2)
  {
    if files == [] then []
    else FileEntries(files[..|files| - 1], fixed2) + [FileEntry(files[|files| - 1], fixed2)]
  }

  /** The bag `GetDirectorySizesAsync` fills: one entry per subdirectory,
      with the subdirectory's name and its friendly recursive size. */
  function DirectorySizes(children: seq<Directory>, fixed2: (nat, nat) -> string): (bag: multiset<Entry>)
    ensures |bag| == |children|
    ensures forall e :: e in bag <==> exists i :: 0 <= i < |children| && e == DirectoryEntry(children[i], fixed2)
  {
    var es := DirectoryEntries(children, fixed2);
    assert forall e :: e in multiset(es) <==> e in es;
    multiset(es)
  }

  /** The bag `GetFileSizesAsync` fills: one entry per file, with the file's
      name and its friendly length. */
  function FileSizes(files: seq<File>, fixed2: (nat, nat) -> string): (bag: multiset<Entry>)
    ensures |bag| == |files|
    ensures forall e :: e in bag <==> exists i :: 0 <= i < |files| && e == FileEntry(files[i], fixed2)
  {
    var es := FileEntries(files, fixed2);
    assert forall e :: e in multiset(es) <==> e in es;
    multiset(es)
  }

  /** `GetDirectorySizesAsync`: one `GetDirectorySize` per subdirectory, each
      result added to the bag (sequentially here: the bag forgets the order). */
  method GetDirectorySizes(children: seq<Directory>, fixed2: (nat, nat) -> string) returns (directories: multiset<Entry>)
    ensures directories == DirectorySizes(children, fixed2)
  {
    ghost var es := DirectoryEntries(children, fixed2);
    directories := multiset{};
    for i := 0 to |children|
      invariant directories == multiset(es[..i])
    {
      var size := GetDirectorySize(children[i]);
      assert es[..i + 1] == es[..i] + [es[i]];
      directories := directories + multiset{Entry(children[i].name, FriendlyBytesAmount(size, fixed2))};
    }
    assert es[..|children|] == es;
  }

  /** `GetFileSizesAsync`: one entry per file. */
  method GetFileSizes(files: seq<File>, fixed2: (nat, nat) -> string) returns (fileDetails: multiset<Entry>)
    ensures fileDetails == FileSizes(files, fixed2)
  {
    ghost var es := FileEntries(files, fixed2);
    fileDetails := multiset{};
    for i := 0 to |files|
      invariant fileDetails == multiset(es[..i])
    {
      assert es[..i + 1] == es[..i] + [es[i]];
      var entry := Entry(files[i].name, FriendlyBytesAmount(files[i].length, fixed2));
      assert entry == es[i];
      fileDetails := fileDetails + multiset{entry};
    }
    assert es[..|files|] == es;
  }

  /** Enumerating a `ConcurrentBag`: every element once, in an order the
      model leaves open (the source's order depends on thread timing). */
  method Enumerate(bag: multiset<Entry>) returns (order: seq<Entry>)
    ensures multiset(order) == bag
  {
    order := [];
    var rest := bag;
    while rest != multiset{}
      invariant multiset(order) + rest == bag
      decreases |rest|
    {
      var e :| e in rest;
      order := order + [e];
      rest := rest - multiset{e};
    }
  }

  // ---------------------------------------------------------------------------
  // Ordering directories by name (`OrderBy(d => d.Key)`, a stable sort)
  // ---------------------------------------------------------------------------

  /** Ordinal order on names: character codes compared left to right, a
      proper prefix first. */
  predicate NameAtMost(a: string, b: string)
    decreases |a|
  {
    a == [] || (b != [] && (a[0] < b[0] || (a[0] == b[0] && NameAtMost(a[1..], b[1..]))))
  }

  lemma {:induction false} NameAtMostReflexive(a: string)
    ensures NameAtMost(a, a)
    decreases |a|
  {
    if a != [] {
      NameAtMostReflexive(a[1..]);
    }
  }

  lemma {:induction false} NameAtMostTotal(a: string, b: string)
    ensures NameAtMost(a, b) || NameAtMost(b, a)
    decreases |a|
  {
    if a != [] && b != [] && a[0] == b[0] {
      NameAtMostTotal(a[1..], b[1..]);
    }
  }

  lemma {:induction false} NameAtMostTransitive(a: string, b: string, c: string)
    requires NameAtMost(a, b) && NameAtMost(b, c)
    ensures NameAtMost(a, c)
    decreases |a|
  {
    if a != [] && a[0] == b[0] && b[0] == c[0] {
      NameAtMostTransitive(a[1..], b[1..], c[1..]);
    }
  }

  lemma {:induction false} NameAtMostAntisymmetric(a: string, b: string)
    requires NameAtMost(a, b) && NameAtMost(b, a)
    ensures a == b
    decreases |a|
  {
    if a != [] {
      NameAtMostAntisymmetric(a[1..], b[1..]);
      assert a == [a[0]] + a[1..] && b == [b[0]] + b[1..];
    }
  }

  predicate SortedByName(s: seq<Entry>)
  {
    forall i, j {:trigger NameAtMost(s[i].name, s[j].name)} :: 0 <= i < j < |s| ==> NameAtMost(s[i].name, s[j].name)
  }

  /** Inserts `e` after every element whose name is at most `e`'s, so equal
      names keep their order of arrival. */
  function Insert(s: seq<Entry>, e: Entry): (r: seq<Entry>)
    ensures multiset(r) == multiset(s) + multiset{e}
    decreases |s|
  {
    if s == [] then [e]
    else if NameAtMost(s[|s| - 1].name, e.name) then s + [e]
    else
      assert s == s[..|s| - 1] + [s[|s| - 1]];
      Insert(s[..|s| - 1], e) + [s[|s| - 1]]
  }

  /** `OrderBy(d => d.Key)`: a stable insertion sort by name (see
      `SortByNameStable`).  It keeps every entry, as often as it occurs. */
  function SortByName(s: seq<Entry>): (r: seq<Entry>)
    ensures multiset(r) == multiset(s)
    ensures |r| == |s|
  {
    if s == [] then []
    else
      assert s == s[..|s| - 1] + [s[|s| - 1]];
      var r := Insert(SortByName(s[..|s| - 1]), s[|s| - 1]);
      assert |r| == |multiset(r)|;
      r
  }

  lemma {:induction false} InsertSorted(s: seq<Entry>, e: Entry)
    requires SortedByName(s)
    ensures SortedByName(Insert(s, e))
    ensures multiset(Insert(s, e)) == multiset(s) + multiset{e}
    decreases |s|
  {
    if s == [] {
    } else {
      var last := s[|s| - 1];
      var init := s[..|s| - 1];
      assert s == init + [last];
      if NameAtMost(last.name, e.name) {
        var r := s + [e];
        forall i, j | 0 <= i < j < |r| ensures NameAtMost(r[i].name, r[j].name) {
          if j == |s| && i < |s| - 1 {
            NameAtMostTransitive(s[i].name, last.name, e.name);
          }
        }
      } else {
        NameAtMostTotal(last.name, e.name);
        InsertSorted(init, e);
        var t := Insert(init, e);
        var r := t + [last];
        forall x | x in t ensures NameAtMost(x.name, last.name) {
          assert x in multiset(t);
          if x != e {
            assert x in multiset(init);
            var k :| 0 <= k < |init| && init[k] == x;
            assert s[k] == x;
          }
        }
        forall i, j | 0 <= i < j < |r| ensures NameAtMost(r[i].name, r[j].name) {
          if j == |t| {
            assert r[i] in t;
          }
        }
      }
    }
  }

  /** The sorted sequence is ordered by name and is a permutation of the input. */
  lemma {:induction false} SortByNameSpec(s: seq<Entry>)
    ensures SortedByName(SortByName(s))
    ensures multiset(SortByName(s)) == multiset(s)
    decreases |s|
  {
    if s != [] {
      SortByNameSpec(s[..|s| - 1]);
      InsertSorted(SortByName(s[..|s| - 1]), s[|s| - 1]);
    }
  }

  /** The entries of `s` whose name is `n`, in their order in `s`. */
  function Named(s: seq<Entry>, n: string): seq<Entry>
    decreases |s|
  {
    if s == [] then []
    else Named(s[..|s| - 1], n) + (if s[|s| - 1].name == n then [s[|s| - 1]] else [])
  }

  lemma {:induction false} NamedConcat(a: seq<Entry>, b: seq<Entry>, n: string)
    ensures Named(a + b, n) == Named(a, n) + Named(b, n)
    decreases |b|
  {
    if b == [] {
      assert a + b == a;
    } else {
      assert (a + b)[..|a + b| - 1] == a + b[..|b| - 1];
      assert (a + b)[|a + b| - 1] == b[|b| - 1];
      NamedConcat(a, b[..|b| - 1], n);
    }
  }

  /** Insertion puts `e` after every entry with its name, and moves no
      entry past another of the same name. */
  lemma {:induction false} InsertStable(s: seq<Entry>, e: Entry, n: string)
    ensures Named(Insert(s, e), n) == Named(s, n) + (if e.name == n then [e] else [])
    decreases |s|
  {
    if s == [] {
    } else if NameAtMost(s[|s| - 1].name, e.name) {
      NamedConcat(s, [e], n);
    } else {
      var last := s[|s| - 1];
      InsertStable(s[..|s| - 1], e, n);
      NamedConcat(Insert(s[..|s| - 1], e), [last], n);
      if e.name == n {
        NameAtMostReflexive(n);
        assert last.name != n;
      }
    }
  }

  /** `OrderBy` is stable: the entries sharing a name come out in the order
      they went in. */
  lemma {:induction false} SortByNameStable(s: seq<Entry>, n: string)
    ensures Named(SortByName(s), n) == Named(s, n)
    decreases |s|
  {
    if s != [] {
      SortByNameStable(s[..|s| - 1], n);
      InsertStable(SortByName(s[..|s| - 1]), s[|s| - 1], n);
    }
  }

  /** No two different entries of a bag carry the same name (true of the
      subdirectories of one directory). */
  ghost predicate UniqueNames(bag: multiset<Entry>)
  {
    forall a, b :: a in bag && b in bag && a.name == b.name ==> a == b
  }

  /** The last element of a name-sorted sequence has the largest name. */
  lemma LastIsLargest(x: seq<Entry>, v: Entry)
    requires SortedByName(x) && v in multiset(x)
    ensures NameAtMost(v.name, x[|x| - 1].name)
  {
    var k :| 0 <= k < |x| && x[k] == v;
    if k == |x| - 1 {
      NameAtMostReflexive(v.name);
    }
  }

  lemma DropLastSorted(x: seq<Entry>)
    requires SortedByName(x) && x != []
    ensures SortedByName(x[..|x| - 1])
  {
  }

  lemma SameLength<T>(x: seq<T>, y: seq<T>)
    requires multiset(x) == multiset(y)
    ensures |x| == |y|
  {
    assert |x| == |multiset(x)| && |y| == |multiset(y)|;
  }

  lemma DropLastMultiset<T>(x: seq<T>)
    requires x != []
    ensures multiset(x[..|x| - 1]) == multiset(x) - multiset{x[|x| - 1]}
  {
    assert x == x[..|x| - 1] + [x[|x| - 1]];
  }

  lemma UniqueNamesRemove(bag: multiset<Entry>, v: Entry)
    requires UniqueNames(bag)
    ensures UniqueNames(bag - multiset{v})
  {
  }

  lemma SameLast(x: seq<Entry>, y: seq<Entry>)
    requires x != [] && |y| == |x|
    requires SortedByName(x) && SortedByName(y)
    requires multiset(x) == multiset(y) && UniqueNames(multiset(x))
    ensures x[|x| - 1] == y[|y| - 1]
  {
    var xl, yl := x[|x| - 1], y[|y| - 1];
    assert xl in multiset(y) && yl in multiset(x);
    LastIsLargest(x, yl);
    LastIsLargest(y, xl);
    NameAtMostAntisymmetric(xl.name, yl.name);
  }

  /** The step of `SortedUnique`: equal last elements, and the prefixes
      again satisfy its preconditions. */
  lemma DropLastBoth(x: seq<Entry>, y: seq<Entry>)
    requires x != []
    requires SortedByName(x) && SortedByName(y)
    requires multiset(x) == multiset(y) && UniqueNames(multiset(x))
    ensures |y| == |x|
    ensures x[|x| - 1] == y[|y| - 1]
    ensures SortedByName(x[..|x| - 1]) && SortedByName(y[..|y| - 1])
    ensures multiset(x[..|x| - 1]) == multiset(y[..|y| - 1])
    ensures UniqueNames(multiset(x[..|x| - 1]))
  {
    SameLength(x, y);
    SameLast(x, y);
    DropLastMultiset(x);
    DropLastMultiset(y);
    UniqueNamesRemove(multiset(x), x[|x| - 1]);
    DropLastSorted(x);
    DropLastSorted(y);
  }

  /** Two name-sorted sequences with the same elements and no name shared by
      two different entries are the same sequence. */
  lemma {:induction false} SortedUnique(x: seq<Entry>, y: seq<Entry>)
    requires SortedByName(x) && SortedByName(y)
    requires multiset(x) == multiset(y) && UniqueNames(multiset(x))
    ensures x == y
    decreases |x|
  {
    if x == [] {
      assert |y| == |multiset(y)| == 0;
    } else {
      DropLastBoth(x, y);
      SortedUnique(x[..|x| - 1], y[..|y| - 1]);
      assert x == x[..|x| - 1] + [x[|x| - 1]] && y == y[..|y| - 1] + [y[|y| - 1]];
    }
  }

  /** With unique names, the directory lines do not depend on the order in
      which the bag was enumerated. */
  lemma SortDeterminedByBag(s: seq<Entry>, t: seq<Entry>)
    requires multiset(s) == multiset(t) && UniqueNames(multiset(s))
    ensures SortByName(s) == SortByName(t)
  {
    SortByNameSpec(s);
    SortByNameSpec(t);
    SortedUnique(SortByName(s), SortByName(t));
  }

  /** Subdirectories with distinct names give a bag with unique names. */
  lemma DistinctChildrenUniqueNames(children: seq<Directory>, fixed2: (nat, nat) -> string)
    requires forall i, j :: 0 <= i < j < |children| ==> children[i].name != children[j].name
    ensures UniqueNames(DirectorySizes(children, fixed2))
  {
    var bag := DirectorySizes(children, fixed2);
    forall a, b | a in bag && b in bag && a.name == b.name ensures a == b {
      var i :| 0 <= i < |children| && a == DirectoryEntry(children[i], fixed2);
      var j :| 0 <= j < |children| && b == DirectoryEntry(children[j], fixed2);
      assert a.name == children[i].name && b.name == children[j].name;
    }
  }

  // ---------------------------------------------------------------------------
  // The report
  // ---------------------------------------------------------------------------

  function DirectoriesHeader(root: string, count: nat): string
  {
    root + " " + DecimalString(count) + " SubDirectories:"
  }

  function FilesHeader(root: string, count: nat): string
  {
    root + " " + DecimalString(count) + " Files:"
  }

  function EntryLines(es: seq<Entry>): (lines: seq<string>)
    ensures |lines| == |es|
    ensures forall k :: 0 <= k < |es| ==> lines[k] == EntryLine(es[k])
  {
    if es == [] then [] else EntryLines(es[..|es| - 1]) + [EntryLine(es[|es| - 1])]
  }

  /** The lines `Main` writes, given the order in which each bag was enumerated. */
  function ReportLines(root: string, directories: seq<Entry>, files: seq<Entry>): (r: seq<string>)
    ensures |r| == |directories| + |files| + 2
    ensures r[0] == DirectoriesHeader(root, |directories|)
    ensures r[|directories| + 1] == FilesHeader(root, |files|)
  {
    [DirectoriesHeader(root, |directories|)] + EntryLines(SortByName(directories))
    + [FilesHeader(root, |files|)] + EntryLines(files)
  }

  /** The report: a header with the subdirectory count, the subdirectories
      ordered by name (the same entries as the bag), a header with the file
      count, then the files in enumeration order. */
  lemma {:induction false} ReportShape(root: string, directories: seq<Entry>, files: seq<Entry>)
    ensures var r := ReportLines(root, directories, files);
      var d, f := |directories|, |files|;
      && |r| == d + f + 2
      && r[0] == DirectoriesHeader(root, d)
      && r[d + 1] == FilesHeader(root, f)
      && (forall k :: 0 <= k < f ==> r[d + 2 + k] == EntryLine(files[k]))
      && |SortByName(directories)| == d
      && (forall k :: 0 <= k < d ==> r[1 + k] == EntryLine(SortByName(directories)[k]))
    ensures SortedByName(SortByName(directories))
    ensures multiset(SortByName(directories)) == multiset(directories)
  {
    SortByNameSpec(directories);
  }

  /** With unique names, the report does not depend on the enumeration order
      of the directory bag. */
  lemma ReportIgnoresDirectoryOrder(root: string, d1: seq<Entry>, d2: seq<Entry>, files: seq<Entry>)
    requires multiset(d1) == multiset(d2) && UniqueNames(multiset(d1))
    ensures ReportLines(root, d1, files) == ReportLines(root, d2, files)
  {
    SortDeterminedByBag(d1, d2);
    assert |d1| == |multiset(d1)| == |d2|;
  }

  /** Subdirectories "b", "a", "c" are reported as "a", "b", "c". */
  lemma SortExample(x: string, y: string, z: string)
    ensures SortByName([Entry("b", x), Entry("a", y), Entry("c", z)])
         == [Entry("a", y), Entry("b", x), Entry("c", z)]
  {
    var s := [Entry("b", x), Entry("a", y), Entry("c", z)];
    assert s[..2] == [Entry("b", x), Entry("a", y)];
    assert s[..2][..1] == [Entry("b", x)];
    assert NameAtMost("a", "b") && !NameAtMost("b", "a") && NameAtMost("b", "c");
    assert SortByName([Entry("b", x)]) == [Entry("b", x)];
    assert SortByName(s[..2]) == Insert([Entry("b", x)], Entry("a", y)) == [Entry("a", y), Entry("b", x)];
    assert SortByName(s) == Insert([Entry("a", y), Entry("b", x)], Entry("c", z));
  }

  /** Two files of 500 and 2048 bytes give the entries "500 bytes" and a
      kilobyte text. */
  lemma TwoFilesBag(fixed2: (nat, nat) -> string)
    ensures FileSizes([File("a", 500), File("b", 2048)], fixed2)
         == multiset{Entry("a", "500 bytes"), Entry("b", fixed2(2048, 1024) + " KB")}
  {
    assert DecimalString(500) == "500" by {
      assert DecimalString(50) == "50";
    }
    var files := [File("a", 500), File("b", 2048)];
    var es := [Entry("a", "500 bytes"), Entry("b", fixed2(2048, 1024) + " KB")];
    assert FileEntry(files[0], fixed2) == es[0];
    assert FileEntry(files[1], fixed2) == es[1];
    assert FileEntries(files, fixed2) == es;
  }

  lemma TwoLineReport(root: string, a: Entry, b: Entry)
    ensures ReportLines(root, [], [a, b])
         == [root + " 0 SubDirectories:", root + " 2 Files:", EntryLine(a), EntryLine(b)]
  {
    assert DecimalString(0) == "0" && DecimalString(2) == "2";
    assert DirectoriesHeader(root, 0) == root + " 0 SubDirectories:";
    assert FilesHeader(root, 2) == root + " 2 Files:";
    assert EntryLines([a, b]) == [EntryLine(a), EntryLine(b)] by {
      assert [a, b][..1] == [a];
    }
    assert SortByName([]) == [];
  }

  /** The two orders in which that bag can be enumerated. */
  lemma TwoFilesOrders(fixed2: (nat, nat) -> string, fileOrder: seq<Entry>)
    requires multiset(fileOrder) == FileSizes([File("a", 500), File("b", 2048)], fixed2)
    ensures var ea, eb := Entry("a", "500 bytes"), Entry("b", fixed2(2048, 1024) + " KB");
      fileOrder == [ea, eb] || fileOrder == [eb, ea]
  {
    TwoFilesBag(fixed2);
    var ea, eb := Entry("a", "500 bytes"), Entry("b", fixed2(2048, 1024) + " KB");
    assert ea != eb by { assert ea.name != eb.name; }
    assert |fileOrder| == 2 by { assert |fileOrder| == |multiset(fileOrder)|; }
    var x, y := fileOrder[0], fileOrder[1];
    assert fileOrder == [x, y];
    assert x in multiset(fileOrder) && y in multiset(fileOrder);
  }

  /** A root with no subdirectories and files of 500 and 2048 bytes,
      whichever order the bag was enumerated in: the directory header with
      count 0, no directory lines, the file header with count 2, then the two
      file lines in one of the two orders. */
  lemma TwoFilesReport(root: string, fixed2: (nat, nat) -> string, fileOrder: seq<Entry>)
    requires multiset(fileOrder) == FileSizes([File("a", 500), File("b", 2048)], fixed2)
    ensures var la, lb := "a\t500 bytes", "b\t" + fixed2(2048, 1024) + " KB";
      var r := ReportLines(root, [], fileOrder);
      || r == [root + " 0 SubDirectories:", root + " 2 Files:", la, lb]
      || r == [root + " 0 SubDirectories:", root + " 2 Files:", lb, la]
  {
    var ea, eb := Entry("a", "500 bytes"), Entry("b", fixed2(2048, 1024) + " KB");
    TwoFilesOrders(fixed2, fileOrder);
    assert EntryLine(ea) == "a\t500 bytes";
    assert EntryLine(eb) == "b\t" + fixed2(2048, 1024) + " KB";
    TwoLineReport(root, fileOrder[0], fileOrder[1]);
    assert fileOrder == [fileOrder[0], fileOrder[1]];
  }

  // ---------------------------------------------------------------------------
  // The whole run of `Main`
  // ---------------------------------------------------------------------------

  datatype RunError =
    | InvalidArguments(error: ParseError)  // `ParseCommandLine` throws
    | RootDirectoryMissing                 // `ValidateParameters` throws
    | RootListingDenied                    // the root's own listing throws (unguarded)

  datatype RunOutcome = Completed | Failed(error: RunError)

  /** What a run leaves behind: how it ended, whether the output file was
      created and closed, the file's lines and the console lines. */
  datatype Observation = Observation(
    outcome: RunOutcome,
    fileCreated: bool,
    fileDisposed: bool,
    fileLines: seq<string>,
    console: seq<ConsoleLine>)

  const PausePrompt := "Press [Enter] to close."

  /** `char.IsWhiteSpace`: the Unicode space, line and paragraph separators,
      the controls U+0009 to U+000D, and U+0085. */
  predicate IsWhiteSpace(c: char)
  {
    || c == ' ' || '\t' <= c <= '\r' || c == '\U{0085}' || c == '\U{00A0}'
    || c == '\U{1680}' || '\U{2000}' <= c <= '\U{200A}' || c == '\U{2028}' || c == '\U{2029}'
    || c == '\U{202F}' || c == '\U{205F}' || c == '\U{3000}'
  }

  /** `String.IsNullOrWhiteSpace`. */
  predicate IsNullOrWhiteSpace(s: Option<string>)
  {
    s.None? || forall i :: 0 <= i < |s.value| ==> IsWhiteSpace(s.value[i])
  }

  /** `ValidateParameters`: `Directory.Exists` of the root; a `null` root does not exist. */
  predicate RootExists(p: Parameters, directoryExists: string -> bool)
  {
    p.rootDirectory.Some? && directoryExists(p.rootDirectory.value)
  }

  /** The bag a listing of the root fills (empty when the listing is refused). */
  function DirectoryBag(root: Directory, fixed2: (nat, nat) -> string): multiset<Entry>
  {
    match root.subdirectories case Denied => multiset{} case Listed(cs) => DirectorySizes(cs, fixed2)
  }

  function FileBag(root: Directory, fixed2: (nat, nat) -> string): multiset<Entry>
  {
    match root.files case Denied => multiset{} case Listed(fs) => FileSizes(fs, fixed2)
  }

  /** What `Main` does with arguments `args`, when `directoryExists` answers
      `Directory.Exists`, `root` is the tree at the root path and the bags
      were enumerated in the orders given. */
  function Expected(args: seq<string>, directoryExists: string -> bool, root: Directory,
                    fixed2: (nat, nat) -> string, dirOrder: seq<Entry>, fileOrder: seq<Entry>): (r: Observation)
    ensures r.fileDisposed == r.fileCreated
    ensures r.outcome == Completed <==>
      && Parse(args, Unset).Ok? && RootExists(Parse(args, Unset).value, directoryExists)
      && root.subdirectories.Listed? && root.files.Listed?
    ensures r.outcome.Failed? && !r.outcome.error.RootListingDenied? ==>
      !r.fileCreated && r.fileLines == [] && r.console == []
    ensures r.fileCreated ==> Parse(args, Unset).Ok? && !IsNullOrWhiteSpace(Parse(args, Unset).value.outputFile)
  {
    match Parse(args, Unset)
    case Err(e) => Observation(Failed(InvalidArguments(e)), false, false, [], [])
    case Ok(p) =>
      if !RootExists(p, directoryExists) then Observation(Failed(RootDirectoryMissing), false, false, [], [])
      else Collected(p.rootDirectory.value, !IsNullOrWhiteSpace(p.outputFile), root, dirOrder, fileOrder)
  }

  /** What `Main` does once the parameters are valid: `created` says whether
      an output file was opened. */
  function Collected(rootDirectory: string, created: bool, root: Directory,
                     dirOrder: seq<Entry>, fileOrder: seq<Entry>): (r: Observation)
    ensures r.fileCreated == created && r.fileDisposed == created
    ensures r.outcome == Completed <==> root.subdirectories.Listed? && root.files.Listed?
    ensures !created || r.outcome != Completed ==> r.fileLines == []
    ensures r.outcome == Completed ==>
      && |r.console| == |dirOrder| + |fileOrder| + 3
      && r.console[|r.console| - 1] == ConsoleLine(Default, PausePrompt)
      && |r.fileLines| == if created then 2 * (|dirOrder| + |fileOrder| + 2) else 0
  {
    if root.subdirectories.Denied? || root.files.Denied? then
      // the exception reaches the unhandled-exception hook, which disposes the file
      Observation(Failed(RootListingDenied), created, created, [], [])
    else
      var lines := ReportLines(rootDirectory, dirOrder, fileOrder);
      Observation(Completed, created, created,
                  if created then Doubled(lines) else [],
                  Coloured(lines) + [ConsoleLine(Default, PausePrompt)])
  }

  /** A header line followed by a block of lines, each through `WriteOutput`. */
  method WriteSection(sink: Sink, header: string, lines: seq<string>)
    requires !sink.disposed
    modifies sink
    ensures sink.outputFile == old(sink.outputFile) && !sink.disposed
    ensures sink.fileLines == old(sink.fileLines) + (if sink.outputFile then Doubled([header] + lines) else [])
    ensures sink.console == old(sink.console) + Coloured([header] + lines)
  {
    sink.WriteOutput(header);
    SingleLine([header]);
    WriteAll(sink, lines);
    ColouredConcat([header], lines);
    DoubledConcat([header], lines);
  }

  /** The report-writing part of `Main` (Program.cs:36-48): the directory
      header and the sorted directory lines, then the file header and the
      file lines. */
  method WriteReport(sink: Sink, rootDirectory: string, directoriesList: seq<Entry>, filesList: seq<Entry>)
    requires !sink.disposed
    modifies sink
    ensures sink.outputFile == old(sink.outputFile) && !sink.disposed
    ensures sink.fileLines == old(sink.fileLines)
      + (if sink.outputFile then Doubled(ReportLines(rootDirectory, directoriesList, filesList)) else [])
    ensures sink.console == old(sink.console) + Coloured(ReportLines(rootDirectory, directoriesList, filesList))
  {
    ghost var file0, console0 := sink.fileLines, sink.console;
    var header1, lines1 := DirectoriesHeader(rootDirectory, |directoriesList|), EntryLines(SortByName(directoriesList));
    var header2, lines2 := FilesHeader(rootDirectory, |filesList|), EntryLines(filesList);
    WriteSection(sink, header1, lines1);
    WriteSection(sink, header2, lines2);
    ReportOutput(rootDirectory, directoriesList, filesList);
    ghost var c1, c2 := Coloured([header1] + lines1), Coloured([header2] + lines2);
    ghost var d1, d2 := Doubled([header1] + lines1), Doubled([header2] + lines2);
    AppendAssociative(console0, c1, c2);
    AppendAssociative(file0, d1, d2);
  }

  lemma AppendAssociative<T>(a: seq<T>, b: seq<T>, c: seq<T>)
    ensures a + b + c == a + (b + c)
  {
  }

  /** The report's console and file output, split at the file header. */
  lemma ReportOutput(root: string, directories: seq<Entry>, files: seq<Entry>)
    ensures var first := [DirectoriesHeader(root, |directories|)] + EntryLines(SortByName(directories));
      var second := [FilesHeader(root, |files|)] + EntryLines(files);
      && Coloured(ReportLines(root, directories, files)) == Coloured(first) + Coloured(second)
      && Doubled(ReportLines(root, directories, files)) == Doubled(first) + Doubled(second)
  {
    var first := [DirectoriesHeader(root, |directories|)] + EntryLines(SortByName(directories));
    var second := [FilesHeader(root, |files|)] + EntryLines(files);
    assert ReportLines(root, directories, files) == first + second;
    ColouredConcat(first, second);
    DoubledConcat(first, second);
  }

  /** The part of `Main` after validation (Program.cs:29-55): collect both
      bags from the root's listings, write the report, close the file,
      prompt.  The orders in which the bags were enumerated are returned
      as ghost results. */
  method Collect(sink: Sink, rootDirectory: string, root: Directory, fixed2: (nat, nat) -> string)
    returns (outcome: RunOutcome, ghost dirOrder: seq<Entry>, ghost fileOrder: seq<Entry>)
    requires !sink.disposed && sink.fileLines == [] && sink.console == []
    modifies sink
    ensures multiset(dirOrder) == DirectoryBag(root, fixed2)
    ensures multiset(fileOrder) == FileBag(root, fixed2)
    ensures Observation(outcome, sink.outputFile, sink.disposed, sink.fileLines, sink.console)
         == Collected(rootDirectory, old(sink.outputFile), root, dirOrder, fileOrder)
  {
    if root.subdirectories.Denied? || root.files.Denied? {
      dirOrder := match root.subdirectories
        case Denied => [] case Listed(cs) => DirectoryEntries(cs, fixed2);
      fileOrder := match root.files
        case Denied => [] case Listed(fs) => FileEntries(fs, fixed2);
      if sink.outputFile {
        sink.Dispose();
      }
      return Failed(RootListingDenied), dirOrder, fileOrder;
    }
    var directoriesBag := GetDirectorySizes(root.subdirectories.entries, fixed2);
    var filesBag := GetFileSizes(root.files.entries, fixed2);
    var directoriesList := Enumerate(directoriesBag);
    var filesList := Enumerate(filesBag);
    ghost var created := sink.outputFile;
    ghost var lines := ReportLines(rootDirectory, directoriesList, filesList);
    WriteReport(sink, rootDirectory, directoriesList, filesList);
    assert sink.console == Coloured(lines) by {
      assert [] + Coloured(lines) == Coloured(lines);
    }
    assert sink.fileLines == if created then Doubled(lines) else [] by {
      assert [] + Doubled(lines) == Doubled(lines);
    }
    if sink.outputFile {
      sink.Dispose();
    }
    sink.WriteConsole(PausePrompt);
    outcome, dirOrder, fileOrder := Completed, directoriesList, filesList;
    assert Observation(outcome, sink.outputFile, sink.disposed, sink.fileLines, sink.console)
        == Observation(Completed, created, created, if created then Doubled(lines) else [],
                       Coloured(lines) + [ConsoleLine(Default, PausePrompt)]);
  }

  /** `Main`: parse, validate, open the output file, then `Collect`. */
  method Run(args: seq<string>, directoryExists: string -> bool, root: Directory, fixed2: (nat, nat) -> string)
    returns (outcome: RunOutcome, sink: Sink)
    ensures fresh(sink)
    ensures exists dirOrder, fileOrder ::
      && multiset(dirOrder) == DirectoryBag(root, fixed2)
      && multiset(fileOrder) == FileBag(root, fixed2)
      && Observation(outcome, sink.outputFile, sink.disposed, sink.fileLines, sink.console)
         == Expected(args, directoryExists, root, fixed2, dirOrder, fileOrder)
  {
    sink := new Sink();
    ghost var noDirs := match root.subdirectories
      case Denied => [] case Listed(cs) => DirectoryEntries(cs, fixed2);
    ghost var noFiles := match root.files
      case Denied => [] case Listed(fs) => FileEntries(fs, fixed2);
    assert multiset(noDirs) == DirectoryBag(root, fixed2);
    assert multiset(noFiles) == FileBag(root, fixed2);

    var parsed := ParseCommandLine(args);
    if parsed.Err? {
      outcome := Failed(InvalidArguments(parsed.error));
      assert Observation(outcome, sink.outputFile, sink.disposed, sink.fileLines, sink.console)
          == Expected(args, directoryExists, root, fixed2, noDirs, noFiles);
      return;
    }
    var parameters := parsed.value;
    if parameters.rootDirectory.None? || !directoryExists(parameters.rootDirectory.value) {
      outcome := Failed(RootDirectoryMissing);
      assert Observation(outcome, sink.outputFile, sink.disposed, sink.fileLines, sink.console)
          == Expected(args, directoryExists, root, fixed2, noDirs, noFiles);
      return;
    }
    if !IsNullOrWhiteSpace(parameters.outputFile) {
      sink.Open();
    }
    ghost var dirOrder, fileOrder;
    outcome, dirOrder, fileOrder := Collect(sink, parameters.rootDirectory.value, root, fixed2);
    assert Observation(outcome, sink.outputFile, sink.disposed, sink.fileLines, sink.console)
        == Expected(args, directoryExists, root, fixed2, dirOrder, fileOrder);
  }
}
