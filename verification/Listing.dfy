// The two path lists of the file-system iterator.
module Listing {
  import opened Basics
  import opened FileTree
  import opened Paths
  import Decimal

  // One line of a list: a record and the directory it stands in.
  datatype Entry = Entry(dir: Path, file: File) {
    function Target(): Path {
      dir + [file.name]
    }
  }

  function PlainAt(base: Path, xs: seq<File>): seq<Entry> {
    if xs == [] then []
    else (if xs[0].isFolder then [] else [Entry(base, xs[0])]) + PlainAt(base, xs[1..])
  }

  function FoldersAt(base: Path, xs: seq<File>): seq<Entry> {
    if xs == [] then []
    else (if xs[0].isFolder then [Entry(base, Marker(xs[0].name))] else []) + FoldersAt(base, xs[1..])
  }

  // filesystem_get_path_list_file_first: plain files, then the sub-folders' lists, then the markers.
  function FileFirst(base: Path, t: Folder): seq<Entry>
    decreases t, 1
  {
    PlainAt(base, t.files) + FileFirstAll(base, t.folders) + FoldersAt(base, t.files)
  }

  function FileFirstAll(base: Path, fs: seq<Folder>): seq<Entry>
    decreases fs, 0
  {
    if fs == [] then [] else FileFirst(base + [fs[0].name], fs[0]) + FileFirstAll(base, fs[1..])
  }

  // filesystem_get_path_list_folder_first: markers, then the sub-folders' lists, then plain files.
  function FolderFirst(base: Path, t: Folder): seq<Entry>
    decreases t, 1
  {
    FoldersAt(base, t.files) + FolderFirstAll(base, t.folders) + PlainAt(base, t.files)
  }

  function FolderFirstAll(base: Path, fs: seq<Folder>): seq<Entry>
    decreases fs, 0
  {
    if fs == [] then [] else FolderFirst(base + [fs[0].name], fs[0]) + FolderFirstAll(base, fs[1..])
  }

  // ---------------------------------------------------------------- the lists as the source builds them

  // A file record whose name is a whole path string.
  datatype Listed = Listed(path: Bytes, size: nat, mtime: int, isFolder: bool)

  function Show(e: Entry): Listed {
    Listed(Render(e.Target()), e.file.size, e.file.mtime, e.file.isFolder)
  }

  function ShowAll(es: seq<Entry>): (r: seq<Listed>)
    ensures |r| == |es|
    ensures forall i :: 0 <= i < |es| ==> r[i] == Show(es[i])
  {
    if es == [] then [] else [Show(es[0])] + ShowAll(es[1..])
  }

  lemma {:induction false} ShowAllAppend(a: seq<Entry>, b: seq<Entry>)
    ensures ShowAll(a + b) == ShowAll(a) + ShowAll(b)
  {
    if a == [] {
      assert a + b == b;
    } else {
      assert (a + b)[1..] == a[1..] + b;
      ShowAllAppend(a[1..], b);
    }
  }

  lemma {:induction false} SplitAtSnoc(base: Path, xs: seq<File>, x: File)
    ensures PlainAt(base, xs + [x]) == PlainAt(base, xs) + (if x.isFolder then [] else [Entry(base, x)])
    ensures FoldersAt(base, xs + [x])
         == FoldersAt(base, xs) + (if x.isFolder then [Entry(base, Marker(x.name))] else [])
  {
    if xs == [] {
      assert xs + [x] == [x];
    } else {
      assert (xs + [x])[1..] == xs[1..] + [x];
      SplitAtSnoc(base, xs[1..], x);
    }
  }

  function ListedAt(path: Bytes, x: File): Listed {
    if x.isFolder then Listed(path + [SLASH] + x.name, 0, 0, true)
    else Listed(path + [SLASH] + x.name, x.size, x.mtime, false)
  }

  lemma ShownSnoc(base: Path, xs: seq<File>, x: File)
    ensures var l := ListedAt(Render(base), x);
      && ShowAll(PlainAt(base, xs + [x])) == ShowAll(PlainAt(base, xs)) + (if x.isFolder then [] else [l])
      && ShowAll(FoldersAt(base, xs + [x])) == ShowAll(FoldersAt(base, xs)) + (if x.isFolder then [l] else [])
  {
    SplitAtSnoc(base, xs, x);
    RenderAppend(base, x.name);
    if x.isFolder {
      ShownOne(FoldersAt(base, xs), Entry(base, Marker(x.name)));
      NothingAdded(PlainAt(base, xs), PlainAt(base, xs));
    } else {
      ShownOne(PlainAt(base, xs), Entry(base, x));
      NothingAdded(FoldersAt(base, xs), FoldersAt(base, xs));
    }
  }

  lemma ShownOne(es: seq<Entry>, e: Entry)
    ensures ShowAll(es + [e]) == ShowAll(es) + [Show(e)]
  {
    ShowAllAppend(es, [e]);
  }

  // The loop over files that both builders start with: it splits them into two queues of path
  // records.
  method SplitFiles(path: Bytes, files: seq<File>, ghost base: Path)
    returns (plain: seq<Listed>, folders: seq<Listed>)
    requires path == Render(base)
    ensures plain == ShowAll(PlainAt(base, files))
    ensures folders == ShowAll(FoldersAt(base, files))
  {
    plain, folders := [], [];
    for i := 0 to |files|
      invariant plain == ShowAll(PlainAt(base, files[..i]))
      invariant folders == ShowAll(FoldersAt(base, files[..i]))
    {
      var file := files[i];
      assert files[..i + 1] == files[..i] + [file];
      ShownSnoc(base, files[..i], file);
      if !file.isFolder {
        plain := plain + [ListedAt(path, file)];
      } else {
        folders := folders + [ListedAt(path, file)];
      }
    }
    assert files[..|files|] == files;
  }

  lemma {:induction false} FileFirstAllSnoc(base: Path, fs: seq<Folder>, c: Folder)
    ensures FileFirstAll(base, fs + [c]) == FileFirstAll(base, fs) + FileFirst(base + [c.name], c)
    decreases |fs|
  {
    if fs == [] {
      assert fs + [c] == [c];
    } else {
      assert (fs + [c])[1..] == fs[1..] + [c];
      FileFirstAllSnoc(base, fs[1..], c);
    }
  }

  lemma {:induction false} FolderFirstAllSnoc(base: Path, fs: seq<Folder>, c: Folder)
    ensures FolderFirstAll(base, fs + [c]) == FolderFirstAll(base, fs) + FolderFirst(base + [c.name], c)
    decreases |fs|
  {
    if fs == [] {
      assert fs + [c] == [c];
    } else {
      assert (fs + [c])[1..] == fs[1..] + [c];
      FolderFirstAllSnoc(base, fs[1..], c);
    }
  }

  lemma ShownParts(front: seq<Listed>, a: seq<Entry>, b: seq<Entry>, c: seq<Entry>)
    ensures front + ShowAll(a) + ShowAll(b) + ShowAll(c) == front + ShowAll(a + b + c)
  {
    ShowAllAppend(a, b);
    ShowAllAppend(a + b, c);
    Associate(front, ShowAll(a), ShowAll(b));
    Associate(front, ShowAll(a + b), ShowAll(c));
  }

  // One more sub-folder's list after the lists `done`.
  lemma ShownNext(front: seq<Listed>, done: seq<Entry>, next: seq<Entry>)
    ensures front + ShowAll(done) + ShowAll(next) == front + ShowAll(done + next)
  {
    ShowAllAppend(done, next);
    Associate(front, ShowAll(done), ShowAll(next));
  }

  method GetPathListFileFirst(path: Bytes, fileList: seq<Listed>, f: Folder, ghost base: Path)
    returns (out: seq<Listed>)
    requires path == Render(base)
    ensures out == fileList + ShowAll(FileFirst(base, f))
    decreases f
  {
    var plain, folders := SplitFiles(path, f.files, base);
    out := fileList + plain;
    for i := 0 to |f.folders|
      invariant out == fileList + plain + ShowAll(FileFirstAll(base, f.folders[..i]))
    {
      var folder := f.folders[i];
      ghost var done := FileFirstAll(base, f.folders[..i]);
      RenderAppend(base, folder.name);
      ShownNext(fileList + plain, done, FileFirst(base + [folder.name], folder));
      out := GetPathListFileFirst(path + [SLASH] + folder.name, out, folder, base + [folder.name]);
      OneMore(f.folders, i);
      FileFirstAllSnoc(base, f.folders[..i], folder);
    }
    WholeTaken(f.folders);
    ShownParts(fileList, PlainAt(base, f.files), FileFirstAll(base, f.folders), FoldersAt(base, f.files));
    out := out + folders;
  }

  method GetPathListFolderFirst(path: Bytes, fileList: seq<Listed>, f: Folder, ghost base: Path)
    returns (out: seq<Listed>)
    requires path == Render(base)
    ensures out == fileList + ShowAll(FolderFirst(base, f))
    decreases f
  {
    var plain, folders := SplitFiles(path, f.files, base);
    out := fileList + folders;
    for i := 0 to |f.folders|
      invariant out == fileList + folders + ShowAll(FolderFirstAll(base, f.folders[..i]))
    {
      var folder := f.folders[i];
      ghost var done := FolderFirstAll(base, f.folders[..i]);
      RenderAppend(base, folder.name);
      ShownNext(fileList + folders, done, FolderFirst(base + [folder.name], folder));
      out := GetPathListFolderFirst(path + [SLASH] + folder.name, out, folder, base + [folder.name]);
      OneMore(f.folders, i);
      FolderFirstAllSnoc(base, f.folders[..i], folder);
    }
    WholeTaken(f.folders);
    ShownParts(fileList, FoldersAt(base, f.files), FolderFirstAll(base, f.folders), PlainAt(base, f.files));
    out := out + plain;
  }

  // filesystemiterator_next: the length is an int, -1 for a folder.
  function Length(x: File): int {
    if x.isFolder then -1 else Decimal.ToInt(x.size)
  }

  // A record the loops over the file table do not skip.
  predicate Counted(x: File) {
    Length(x) >= 0
  }

  // ---------------------------------------------------------------- what the lists hold

  // e is an entry of the tree t that hangs at `base`.
  ghost predicate HasUnder(base: Path, t: Folder, e: Entry) {
    base <= e.dir && Has(t, e.dir[|base|..], e.file)
  }

  // Markers carry no size and no time.
  ghost predicate CleanMarkers(t: Folder) {
    forall dir, x :: Has(t, dir, x) && x.isFolder ==> x == Marker(x.name)
  }

  lemma CleanBelow(t: Folder, c: Folder)
    requires CleanMarkers(t) && Unique(t) && c in t.folders
    ensures CleanMarkers(c)
  {
    ChildFound(t.folders, c);
    forall dir, x | Has(c, dir, x) && x.isFolder ensures x == Marker(x.name) {
      HasCons(t, c.name, dir, x);
    }
  }

  lemma {:induction false} SplitMembers(base: Path, xs: seq<File>, e: Entry)
    requires forall x :: x in xs && x.isFolder ==> x == Marker(x.name)
    ensures e in PlainAt(base, xs) <==> e.dir == base && e.file in xs && !e.file.isFolder
    ensures e in FoldersAt(base, xs) <==> e.dir == base && e.file in xs && e.file.isFolder
  {
    if xs == [] {
    } else {
      SplitMembers(base, xs[1..], e);
      assert forall x :: x in xs <==> x == xs[0] || x in xs[1..];
    }
  }

  // Lemmas about both lists are stated with this switch.
  function List(fileFirst: bool, base: Path, t: Folder): seq<Entry> {
    if fileFirst then FileFirst(base, t) else FolderFirst(base, t)
  }

  function ListAll(fileFirst: bool, base: Path, fs: seq<Folder>): seq<Entry> {
    if fileFirst then FileFirstAll(base, fs) else FolderFirstAll(base, fs)
  }

  // Either list holds exactly the entries of the tree.
  lemma {:induction false} ListMembers(ff: bool, base: Path, t: Folder, e: Entry)
    requires Unique(t) && CleanMarkers(t)
    ensures e in List(ff, base, t) <==> HasUnder(base, t, e)
    decreases t, 1
  {
    assert forall x :: Has(t, [], x) <==> x in t.files;
    SplitMembers(base, t.files, e);
    forall c | c in t.folders ensures CleanMarkers(c) {
      CleanBelow(t, c);
    }
    ListAllMembers(ff, base, t.folders, e);
    if base <= e.dir {
      var rest := e.dir[|base|..];
      if rest != [] {
        var c := Child(t.folders, rest[0]);
        if c.Some? {
          BelowBase(base, c.value.name, e);
        }
        forall d | d in t.folders && HasUnder(base + [d.name], d, e) ensures c == Some(d) {
          BelowBase(base, d.name, e);
          ChildFound(t.folders, d);
        }
      } else {
        assert e.dir == base;
      }
    }
  }

  lemma BelowBase(base: Path, n: Bytes, e: Entry)
    requires base <= e.dir
    ensures base + [n] <= e.dir <==> |base| < |e.dir| && e.dir[|base|] == n
    ensures |base| < |e.dir| ==> e.dir[|base|..][1..] == e.dir[|base + [n]|..]
  {
  }

  lemma {:induction false} ListAllMembers(ff: bool, base: Path, fs: seq<Folder>, e: Entry)
    requires forall c :: c in fs ==> Unique(c) && CleanMarkers(c)
    ensures e in ListAll(ff, base, fs) <==> exists c :: c in fs && HasUnder(base + [c.name], c, e)
    decreases fs, 0
  {
    if fs == [] {
    } else {
      ListMembers(ff, base + [fs[0].name], fs[0], e);
      ListAllMembers(ff, base, fs[1..], e);
      assert ListAll(ff, base, fs) == List(ff, base + [fs[0].name], fs[0]) + ListAll(ff, base, fs[1..]);
      assert forall c :: c in fs <==> c == fs[0] || c in fs[1..];
    }
  }

  // ---------------------------------------------------------------- their order

  ghost predicate Distinct(es: seq<Entry>) {
    forall i, j :: 0 <= i < j < |es| ==> es[i] != es[j]
  }

  // No directory is listed before something that stands in it.
  ghost predicate ContentFirst(es: seq<Entry>) {
    forall i, j :: 0 <= i < j < |es| && es[i].file.isFolder ==> !(es[i].Target() <= es[j].dir)
  }

  // No directory is listed after something that stands in it.
  ghost predicate ParentsFirst(es: seq<Entry>) {
    forall i, j :: 0 <= i < j < |es| && es[j].file.isFolder ==> !(es[j].Target() <= es[i].dir)
  }

  ghost predicate Ordered(ff: bool, es: seq<Entry>) {
    Distinct(es) && if ff then ContentFirst(es) else ParentsFirst(es)
  }

  // What it takes for a list to be followed by another.
  ghost predicate Precedes(ff: bool, a: Entry, b: Entry) {
    && a != b
    && (ff && a.file.isFolder ==> !(a.Target() <= b.dir))
    && (!ff && b.file.isFolder ==> !(b.Target() <= a.dir))
  }

  lemma OrderedConcat(ff: bool, a: seq<Entry>, b: seq<Entry>)
    requires Ordered(ff, a) && Ordered(ff, b)
    requires forall x, y :: x in a && y in b ==> Precedes(ff, x, y)
    ensures Ordered(ff, a + b)
  {
    var es := a + b;
    forall i, j | 0 <= i < j < |es| ensures Precedes(ff, es[i], es[j]) {
      if j < |a| {
        assert es[i] == a[i] && es[j] == a[j];
      } else if i >= |a| {
        assert es[i] == b[i - |a|] && es[j] == b[j - |a|];
      } else {
        assert es[i] in a && es[j] in b;
      }
    }
  }

  lemma {:induction false} SplitOrdered(ff: bool, base: Path, xs: seq<File>)
    requires UniqueFiles(xs) && forall x :: x in xs && x.isFolder ==> x == Marker(x.name)
    ensures Ordered(ff, PlainAt(base, xs)) && Ordered(ff, FoldersAt(base, xs))
  {
    if xs == [] {
    } else {
      SplitOrdered(ff, base, xs[1..]);
      forall e ensures e in PlainAt(base, xs[1..]) <==> e.dir == base && e.file in xs[1..] && !e.file.isFolder
               ensures e in FoldersAt(base, xs[1..]) <==> e.dir == base && e.file in xs[1..] && e.file.isFolder {
        SplitMembers(base, xs[1..], e);
      }
      assert xs[0] !in xs[1..];
      if xs[0].isFolder {
        OrderedConcat(ff, [Entry(base, Marker(xs[0].name))], FoldersAt(base, xs[1..]));
        assert [] + PlainAt(base, xs[1..]) == PlainAt(base, xs[1..]);
      } else {
        OrderedConcat(ff, [Entry(base, xs[0])], PlainAt(base, xs[1..]));
        assert [] + FoldersAt(base, xs[1..]) == FoldersAt(base, xs[1..]);
      }
    }
  }

  // The file-first list puts content before directories, the folder-first list directories before
  // content; both list each entry once.
  lemma {:induction false} ListOrdered(ff: bool, base: Path, t: Folder)
    requires Unique(t) && CleanMarkers(t)
    ensures Ordered(ff, List(ff, base, t))
    decreases t, 1
  {
    assert forall x :: Has(t, [], x) <==> x in t.files;
    SplitOrdered(ff, base, t.files);
    forall c | c in t.folders ensures CleanMarkers(c) {
      CleanBelow(t, c);
    }
    ListAllOrdered(ff, base, t.folders);
    var plain, below, markers := PlainAt(base, t.files), ListAll(ff, base, t.folders), FoldersAt(base, t.files);
    forall e
      ensures e in plain ==> e.dir == base && !e.file.isFolder
      ensures e in markers ==> e.dir == base && e.file.isFolder
      ensures e in below ==> |base| < |e.dir|
    {
      SplitMembers(base, t.files, e);
      ListAllMembers(ff, base, t.folders, e);
    }
    if ff {
      OrderedConcat(ff, plain, below);
      OrderedConcat(ff, plain + below, markers);
    } else {
      OrderedConcat(ff, markers, below);
      OrderedConcat(ff, markers + below, plain);
    }
  }

  lemma {:induction false} ListAllOrdered(ff: bool, base: Path, fs: seq<Folder>)
    requires UniqueFolders(fs) && forall c :: c in fs ==> Unique(c) && CleanMarkers(c)
    ensures Ordered(ff, ListAll(ff, base, fs))
    decreases fs, 0
  {
    if fs == [] {
    } else {
      var head, tail := List(ff, base + [fs[0].name], fs[0]), ListAll(ff, base, fs[1..]);
      ListOrdered(ff, base + [fs[0].name], fs[0]);
      assert forall c :: c in fs[1..] ==> c in fs && c.name != fs[0].name;
      ListAllOrdered(ff, base, fs[1..]);
      forall e
        ensures e in head ==> |base| < |e.dir| && e.dir[|base|] == fs[0].name
        ensures e in tail ==> |base| < |e.dir| && e.dir[|base|] != fs[0].name
      {
        ListMembers(ff, base + [fs[0].name], fs[0], e);
        ListAllMembers(ff, base, fs[1..], e);
      }
      forall x, y | x in head && y in tail ensures Precedes(ff, x, y) {
        assert x.dir[|base|] != y.dir[|base|];
        assert x.Target()[|base|] == x.dir[|base|] && y.Target()[|base|] == y.dir[|base|];
      }
      OrderedConcat(ff, head, tail);
    }
  }
}
