/** The directory tree as `GetDirectorySize` sees it, and the recursive,
    access-denied-tolerant size accumulator (Program.cs:156-185).

    Each directory has two listings, the answers of `GetDirectories()` and
    `GetFiles()`; either can be refused with `UnauthorizedAccessException`,
    which the model writes as `Denied`. */
module FileSystem {
  import opened Basics

  /** The answer to one directory-listing call. */
  datatype Listing<T> = Denied | Listed(entries: seq<T>)

  /** A file as `FileInfo` reports it: its name and its length in bytes. */
  datatype File = File(name: string, length: nat)

  /** A directory: its name, and the answers of `GetDirectories()` and `GetFiles()`. */
  datatype Directory = Directory(name: string, subdirectories: Listing<Directory>, files: Listing<File>)

  // ---------------------------------------------------------------------------
  // Specification of the accumulator
  // ---------------------------------------------------------------------------

  /** What `GetDirectorySize` returns for `d`.  A refused subdirectory listing
      throws before anything is added, so the result is 0; a refused file
      listing throws after the subdirectories were added, and that running
      total is what is returned. */
  function Size(d: Directory): nat
    decreases d, 1
  {
    match d.subdirectories
    case Denied => 0
    case Listed(children) =>
      SizeOfAll(children) + (match d.files case Denied => 0 case Listed(fs) => Sum(Lengths(fs)))
  }

  /** The sizes of a sequence of sibling directories, added up from the left. */
  function SizeOfAll(ds: seq<Directory>): nat
    decreases ds, 0
  {
    if ds == [] then 0 else SizeOfAll(ds[..|ds| - 1]) + Size(ds[|ds| - 1])
  }

  function Lengths(fs: seq<File>): (ls: seq<nat>)
    ensures |ls| == |fs| && forall i :: 0 <= i < |fs| ==> ls[i] == fs[i].length
  {
    if fs == [] then [] else Lengths(fs[..|fs| - 1]) + [fs[|fs| - 1].length]
  }

  // ---------------------------------------------------------------------------
  // The accumulator itself
  // ---------------------------------------------------------------------------

  /** `GetDirectorySize`: a running total, first over the subdirectories
      (each by a recursive call), then over the files.  The recursive call
      cannot throw `UnauthorizedAccessException` (the callee catches its own),
      so every child contributes what its own rules give and no child stops
      its siblings from being added. */
  method GetDirectorySize(d: Directory) returns (directorySize: nat)
    ensures directorySize == Size(d)
    decreases d
  {
    directorySize := 0;
    match d.subdirectories {
      case Denied =>
        // `GetDirectories()` throws; the outer catch returns the total as it is
      case Listed(children) =>
        var i := 0;
        while i < |children|
          invariant 0 <= i <= |children|
          invariant directorySize == SizeOfAll(children[..i])
        {
          var childSize := GetDirectorySize(children[i]);
          assert children[..i + 1][..i] == children[..i];
          directorySize := directorySize + childSize;
          i := i + 1;
        }
        assert children[..i] == children;
        match d.files {
          case Denied =>
            // `GetFiles()` throws; the subdirectory total survives the catch
          case Listed(files) =>
            var j := 0;
            while j < |files|
              invariant 0 <= j <= |files|
              invariant directorySize == SizeOfAll(children) + Sum(Lengths(files[..j]))
            {
              assert files[..j + 1][..j] == files[..j];
              directorySize := directorySize + files[j].length;
              j := j + 1;
            }
            assert files[..j] == files;
        }
    }
  }

  // ---------------------------------------------------------------------------
  // A reference definition: every file length anywhere in the tree
  // ---------------------------------------------------------------------------

  /** Every file length that a listing shows anywhere in the subtree of `d`,
      own files first, then the subtrees in order (a refused listing shows
      nothing). */
  function AllLengths(d: Directory): seq<nat>
    decreases d, 1
  {
    (match d.files case Denied => [] case Listed(fs) => Lengths(fs))
    + (match d.subdirectories case Denied => [] case Listed(children) => AllLengthsOf(children))
  }

  function AllLengthsOf(ds: seq<Directory>): seq<nat>
    decreases ds, 0
  {
    if ds == [] then [] else AllLengths(ds[0]) + AllLengthsOf(ds[1..])
  }

  /** No listing anywhere in the subtree is refused. */
  predicate FullyAccessible(d: Directory)
    decreases d
  {
    && d.subdirectories.Listed?
    && d.files.Listed?
    && forall c :: c in d.subdirectories.entries ==> FullyAccessible(c)
  }

  // ---------------------------------------------------------------------------
  // Properties
  // ---------------------------------------------------------------------------

  lemma {:induction false} SizeOfAllConcat(a: seq<Directory>, b: seq<Directory>)
    ensures SizeOfAll(a + b) == SizeOfAll(a) + SizeOfAll(b)
    decreases |b|
  {
    if b == [] {
      assert a + b == a;
    } else {
      assert (a + b)[..|a + b| - 1] == a + b[..|b| - 1];
      SizeOfAllConcat(a, b[..|b| - 1]);
    }
  }

  /** An empty directory has size 0. */
  lemma EmptyDirectorySize(name: string)
    ensures Size(Directory(name, Listed([]), Listed([]))) == 0
  {
  }

  /** A refused subdirectory listing makes the directory count 0, its files
      included: the exception skips the file loop. */
  lemma DeniedSubdirectoriesSize(d: Directory)
    requires d.subdirectories.Denied?
    ensures Size(d) == 0
  {
  }

  /** A refused file listing after a successful subdirectory listing leaves
      exactly the sum of the subdirectory sizes. */
  lemma DeniedFilesSize(d: Directory)
    requires d.subdirectories.Listed? && d.files.Denied?
    ensures Size(d) == SizeOfAll(d.subdirectories.entries)
  {
  }

  /** When nothing is refused, the size is the sum of every file length in
      the subtree. */
  lemma {:induction false} FullyAccessibleSize(d: Directory)
    requires FullyAccessible(d)
    ensures Size(d) == Sum(AllLengths(d))
    decreases d, 1
  {
    var children := d.subdirectories.entries;
    var fs := d.files.entries;
    assert forall i :: 0 <= i < |children| ==> children[i] in children;
    FullyAccessibleSizeOfAll(children);
    SumConcat(Lengths(fs), AllLengthsOf(children));
  }

  lemma {:induction false} FullyAccessibleSizeOfAll(ds: seq<Directory>)
    requires forall i :: 0 <= i < |ds| ==> FullyAccessible(ds[i])
    ensures SizeOfAll(ds) == Sum(AllLengthsOf(ds))
    decreases ds, 0
  {
    if ds != [] {
      var rest := ds[1..];
      FullyAccessibleSize(ds[0]);
      assert forall i :: 0 <= i < |rest| ==> FullyAccessible(rest[i]) by {
        assert forall i :: 0 <= i < |rest| ==> rest[i] == ds[i + 1];
      }
      FullyAccessibleSizeOfAll(rest);
      SizeOfAllCons(ds);
      SumConcat(AllLengths(ds[0]), AllLengthsOf(rest));
    }
  }

  /** The left-to-right total, taken apart at its first element. */
  lemma SizeOfAllCons(ds: seq<Directory>)
    requires ds != []
    ensures SizeOfAll(ds) == Size(ds[0]) + SizeOfAll(ds[1..])
  {
    assert ds == [ds[0]] + ds[1..];
    SizeOfAllConcat([ds[0]], ds[1..]);
    assert SizeOfAll([ds[0]]) == Size(ds[0]) by {
      assert [ds[0]][..0] == [];
    }
  }

  /** Whatever is refused, the size never exceeds the sum of the file lengths
      that the listings show. */
  lemma {:induction false} SizeAtMostShownLengths(d: Directory)
    ensures Size(d) <= Sum(AllLengths(d))
    decreases d, 1
  {
    match d.subdirectories
    case Denied =>
    case Listed(children) =>
      SizeOfAllAtMostShownLengths(children);
      var own := match d.files case Denied => [] case Listed(fs) => Lengths(fs);
      SumConcat(own, AllLengthsOf(children));
  }

  lemma {:induction false} SizeOfAllAtMostShownLengths(ds: seq<Directory>)
    ensures SizeOfAll(ds) <= Sum(AllLengthsOf(ds))
    decreases ds, 0
  {
    if ds != [] {
      SizeAtMostShownLengths(ds[0]);
      SizeOfAllAtMostShownLengths(ds[1..]);
      SizeOfAllCons(ds);
      SumConcat(AllLengths(ds[0]), AllLengthsOf(ds[1..]));
    }
  }

  /** The order in which `GetDirectories()` lists the children does not
      matter: any permutation has the same total. */
  lemma {:induction false} SizeOfAllPermutation(ds: seq<Directory>, ps: seq<Directory>)
    requires multiset(ds) == multiset(ps)
    ensures SizeOfAll(ds) == SizeOfAll(ps)
    decreases |ds|
  {
    if ds == [] {
      assert |ps| == |multiset(ps)| == 0;
    } else {
      var x := ds[|ds| - 1];
      var init := ds[..|ds| - 1];
      assert ds == init + [x];
      assert x in multiset(ps);
      var k :| 0 <= k < |ps| && ps[k] == x;
      var rest := ps[..k] + ps[k + 1..];
      assert ps == ps[..k] + [x] + ps[k + 1..];
      assert multiset(ps) == multiset(ps[..k]) + multiset{x} + multiset(ps[k + 1..]);
      assert multiset(ds) == multiset(init) + multiset{x};
      assert multiset(rest) == multiset(ps[..k]) + multiset(ps[k + 1..]);
      assert multiset(rest) == multiset(ps) - multiset{x};
      assert multiset(init) == multiset(ds) - multiset{x};
      SizeOfAllPermutation(init, rest);
      SizeOfAllConcat(ps[..k] + [x], ps[k + 1..]);
      SizeOfAllConcat(ps[..k], [x]);
      SizeOfAllConcat(ps[..k], ps[k + 1..]);
      assert SizeOfAll([x]) == Size(x) by {
        assert [x][..0] == [];
      }
    }
  }

  /** The same, stated for a directory whose children are listed in another order. */
  lemma ChildOrderIrrelevant(d: Directory, reordered: seq<Directory>)
    requires d.subdirectories.Listed?
    requires multiset(reordered) == multiset(d.subdirectories.entries)
    ensures Size(d.(subdirectories := Listed(reordered))) == Size(d)
  {
    SizeOfAllPermutation(reordered, d.subdirectories.entries);
  }

  /** Replacing one child changes the parent's size by exactly the
      difference of the two children's sizes; the siblings are all still
      added.  With a child whose own listing is refused this is the
      "denied child does not abort its siblings" behaviour. */
  lemma {:induction false} ReplaceChild(d: Directory, i: nat, c: Directory)
    requires d.subdirectories.Listed? && i < |d.subdirectories.entries|
    ensures Size(d.(subdirectories := Listed(d.subdirectories.entries[i := c]))) + Size(d.subdirectories.entries[i])
         == Size(d) + Size(c)
  {
    var cs := d.subdirectories.entries;
    var cs' := cs[i := c];
    assert cs == cs[..i] + [cs[i]] + cs[i + 1..];
    assert cs' == cs[..i] + [c] + cs[i + 1..];
    SizeOfAllConcat(cs[..i] + [cs[i]], cs[i + 1..]);
    SizeOfAllConcat(cs[..i], [cs[i]]);
    SizeOfAllConcat(cs[..i] + [c], cs[i + 1..]);
    SizeOfAllConcat(cs[..i], [c]);
    assert SizeOfAll([c]) == Size(c) by {
      assert [c][..0] == [];
    }
    assert SizeOfAll([cs[i]]) == Size(cs[i]) by {
      assert [cs[i]][..0] == [];
    }
  }

  /** A child whose subdirectory listing is refused drops out of its parent's
      size and nothing else does. */
  lemma DeniedChild(d: Directory, i: nat)
    requires d.subdirectories.Listed? && i < |d.subdirectories.entries|
    ensures var child := d.subdirectories.entries[i];
      Size(d.(subdirectories := Listed(d.subdirectories.entries[i := child.(subdirectories := Denied)])))
        == Size(d) - Size(child)
  {
    var child := d.subdirectories.entries[i];
    ReplaceChild(d, i, child.(subdirectories := Denied));
  }

  /** With a successful subdirectory listing, each child's size is part of
      the parent's. */
  lemma ChildAtMostParent(d: Directory, i: nat)
    requires d.subdirectories.Listed? && i < |d.subdirectories.entries|
    ensures Size(d.subdirectories.entries[i]) <= Size(d)
  {
    var child := d.subdirectories.entries[i];
    ReplaceChild(d, i, child.(subdirectories := Denied));
  }
}
