/** `Functions.GetGPPXml`: the Group Policy Preferences files found under a
    directory. The file system is a tree of `DirNode`s whose file and
    subdirectory listings may each fail, as `Directory.GetFiles` and
    `Directory.GetDirectories` may throw. */
module GppDiscovery {
  import opened Common

  /** The `xmlList` of names a path must contain to be kept. */
  const GppFileNames: seq<string> :=
    ["Groups.xml", "Services.xml", "Scheduledtasks.xml", "Datasources.xml", "Printers.xml", "Drives.xml"]

  /** `xmlList.Any(file.Contains)`: the full path contains one of the six
      names, compared ordinally and case-sensitively. */
  predicate IsGppCandidate(file: string)
  {
    ContainsAny(file, GppFileNames)
  }

  /** `names.Any(s.Contains)`. */
  predicate ContainsAny(s: string, names: seq<string>)
  {
    names != [] && (Contains(s, names[0]) || ContainsAny(s, names[1..]))
  }

  /** A directory: its path, the full paths of the files directly in it,
      and its subdirectories. `Unlistable` is a directory for which
      `Directory.GetFiles` or `Directory.GetDirectories` throws; the code
      reacts to either in the same way, since it keeps nothing it found
      before the throw. */
  datatype DirNode =
    | Dir(path: string, files: seq<string>, subdirs: seq<DirNode>)
    | Unlistable(path: string, error: string)

  /** The candidates among `files`, in listing order. */
  function Filter(files: seq<string>): (r: seq<string>)
    ensures forall f :: f in r <==> f in files && IsGppCandidate(f)
  {
    if files == [] then []
    else
      var last := files[|files| - 1];
      assert files == files[..|files| - 1] + [last];
      Filter(files[..|files| - 1]) + if IsGppCandidate(last) then [last] else []
  }

  /** Filtering keeps each candidate as often as it is listed, and drops
      every other path. */
  lemma {:induction false} FilterCounts(files: seq<string>, f: string)
    ensures multiset(Filter(files))[f] == if IsGppCandidate(f) then multiset(files)[f] else 0
  {
    if files != [] {
      var last := files[|files| - 1];
      assert files == files[..|files| - 1] + [last];
      FilterCounts(files[..|files| - 1], f);
    }
  }

  /** Filtering keeps listing order: it distributes over concatenation. */
  lemma {:induction false} FilterAppend(a: seq<string>, b: seq<string>)
    ensures Filter(a + b) == Filter(a) + Filter(b)
    decreases |b|
  {
    if b == [] {
      assert a + b == a;
    } else {
      var last := b[|b| - 1];
      var keep := if IsGppCandidate(last) then [last] else [];
      assert (a + b)[..|a + b| - 1] == a + b[..|b| - 1];
      assert (a + b)[|a + b| - 1] == last;
      assert Filter(a + b) == Filter(a + b[..|b| - 1]) + keep;
      assert Filter(b) == Filter(b[..|b| - 1]) + keep;
      FilterAppend(a, b[..|b| - 1]);
    }
  }

  /** `GetGPPXml(fPath)` as written. The candidates directly in `node` are
      collected; each subdirectory is searched recursively, but what that
      search finds is thrown away (line 391) and what it throws is caught. A
      failing listing of `node` itself escapes. */
  method GetGPPXml(node: DirNode) returns (r: Result<seq<string>, string>)
    ensures node.Unlistable? ==> r == Failure(node.error)
    ensures node.Dir? ==> r == Success(Filter(node.files))
    decreases node
  {
    if node.Unlistable? {
      return Failure(node.error);
    }
    var listing := node.files;
    var files := [];
    for i := 0 to |listing|
      invariant files == Filter(listing[..i])
    {
      assert listing[..i + 1] == listing[..i] + [listing[i]];
      FilterAppend(listing[..i], [listing[i]]);
      if IsGppCandidate(listing[i]) {
        files := files + [listing[i]];
      }
    }
    assert listing[..|listing|] == listing;
    var directories := node.subdirs;
    for i := 0 to |directories| {
      var _ := GetGPPXml(directories[i]);
    }
    return Success(files);
  }

  /** The discarded results lose every file below the top directory: a
      `Groups.xml` one level down is not returned, while the intended search
      returns it. */
  lemma NestedFileIsDropped()
    ensures var file := "P\\Machine\\Groups.xml";
            var root := Dir("P", [], [Dir("P\\Machine", [file], [])]);
            && IsGppCandidate(file)
            && Filter(root.files) == []
            && CollectGppFiles(root) == Success([file])
  {
    var file := "P\\Machine\\Groups.xml";
    assert OccursAt(file, GppFileNames[0], 10);
    ContainsAt(file, GppFileNames[0], 10);
    assert Filter([file]) == [file] by {
      assert [file][..0] == [];
    }
    var nested := Dir("P\\Machine", [file], []);
    assert CollectChildren(nested, 0) == [];
    assert nested.files == [file];
    assert Filter(nested.files) + CollectChildren(nested, 0) == [file];
    assert CollectGppFiles(nested) == Success([file]);
    var root := Dir("P", [], [nested]);
    assert CollectChildren(root, 1) == [];
    assert CollectChildren(root, 0) == [file];
  }

  /** The evidently intended `GetGPPXml`: the recursive results are added to
      the list (`files.AddRange(GetGPPXml(directory))` inside the `try`), so a
      subdirectory that cannot be listed contributes nothing and its
      siblings are still searched. */
  function CollectGppFiles(node: DirNode): Result<seq<string>, string>
    decreases node, 1, 0
  {
    match node
    case Unlistable(_, error) => Failure(error)
    case Dir(_, files, _) => Success(Filter(files) + CollectChildren(node, 0))
  }

  /** What the subdirectories from index `i` on contribute. */
  function CollectChildren(node: DirNode, i: nat): seq<string>
    requires node.Dir?
    decreases node, 0, |node.subdirs| - i
  {
    if i >= |node.subdirs| then []
    else
      var here := match CollectGppFiles(node.subdirs[i])
                  case Success(found) => found
                  case Failure(_) => [];
      here + CollectChildren(node, i + 1)
  }

  /** Every directory of the tree can be listed. */
  predicate Listable(node: DirNode)
    decreases node, 1, 0
  {
    node.Dir? && ListableFrom(node, 0)
  }

  predicate ListableFrom(node: DirNode, i: nat)
    requires node.Dir?
    decreases node, 0, |node.subdirs| - i
  {
    i >= |node.subdirs| || (Listable(node.subdirs[i]) && ListableFrom(node, i + 1))
  }

  /** All files of a listable tree, directory by directory in listing order. */
  function AllFiles(node: DirNode): seq<string>
    requires Listable(node)
    decreases node, 1, 0
  {
    node.files + AllFilesFrom(node, 0)
  }

  function AllFilesFrom(node: DirNode, i: nat): seq<string>
    requires node.Dir? && ListableFrom(node, i)
    decreases node, 0, |node.subdirs| - i
  {
    if i >= |node.subdirs| then []
    else AllFiles(node.subdirs[i]) + AllFilesFrom(node, i + 1)
  }

  /** On a tree that can be listed throughout, the intended search returns
      exactly the candidates among all its files, in walk order. */
  lemma {:induction false} CollectFindsEveryCandidate(node: DirNode)
    requires Listable(node)
    ensures CollectGppFiles(node) == Success(Filter(AllFiles(node)))
    decreases node, 1, 0
  {
    CollectChildrenFindsEveryCandidate(node, 0);
    FilterAppend(node.files, AllFilesFrom(node, 0));
  }

  lemma {:induction false} CollectChildrenFindsEveryCandidate(node: DirNode, i: nat)
    requires node.Dir? && ListableFrom(node, i)
    ensures CollectChildren(node, i) == Filter(AllFilesFrom(node, i))
    decreases node, 0, |node.subdirs| - i
  {
    if i < |node.subdirs| {
      CollectFindsEveryCandidate(node.subdirs[i]);
      CollectChildrenFindsEveryCandidate(node, i + 1);
      FilterAppend(AllFiles(node.subdirs[i]), AllFilesFrom(node, i + 1));
    } else {
      assert Filter([]) == [];
    }
  }

  /** A subdirectory that cannot be listed does not hide the files of its
      siblings: whatever any other subdirectory yields is in the result. */
  lemma SiblingFailureIsolated(node: DirNode, j: nat, f: string)
    requires node.Dir? && j < |node.subdirs|
    requires CollectGppFiles(node.subdirs[j]).Success?
    requires f in CollectGppFiles(node.subdirs[j]).value
    ensures CollectGppFiles(node).Success? && f in CollectGppFiles(node).value
  {
    ChildContributes(node, 0, j, f);
  }

  lemma {:induction false} ChildContributes(node: DirNode, i: nat, j: nat, f: string)
    requires node.Dir? && i <= j < |node.subdirs|
    requires CollectGppFiles(node.subdirs[j]).Success?
    requires f in CollectGppFiles(node.subdirs[j]).value
    ensures f in CollectChildren(node, i)
    decreases j - i
  {
    if i < j {
      ChildContributes(node, i + 1, j, f);
    }
  }
}
