// The in-memory file trees of FileSystem.c and what they denote.
module FileTree {
  import opened Basics

  datatype File = File(name: Bytes, size: nat, mtime: int, isFolder: bool)

  // `files` also holds one marker record for each sub-folder the tree owns.
  datatype Folder = Folder(name: Bytes, files: seq<File>, folders: seq<Folder>)

  // A directory, as its list of components below the root.
  type Path = seq<Bytes>

  function Marker(n: Bytes): File {
    File(n, 0, 0, true)
  }

  function EmptyFolder(n: Bytes): Folder {
    Folder(n, [], [])
  }

  // filesystem_is_empty, on any folder
  predicate IsEmpty(t: Folder) {
    t.files == [] && t.folders == []
  }

  // ---------------------------------------------------------------- queues of folders and files

  // queue_search with folder_equals: the first sub-folder of that name.
  function Child(fs: seq<Folder>, n: Bytes): (r: Option<Folder>)
    ensures r.Some? ==> r.value in fs && r.value.name == n
    ensures r.None? ==> forall c :: c in fs ==> c.name != n
  {
    if fs == [] then None
    else if fs[0].name == n then Some(fs[0])
    else Child(fs[1..], n)
  }

  // queue_remove with folder_equals.
  function DropChild(fs: seq<Folder>, n: Bytes): (r: seq<Folder>)
    ensures forall c :: c in r ==> c in fs
  {
    if fs == [] then []
    else if fs[0].name == n then fs[1..]
    else [fs[0]] + DropChild(fs[1..], n)
  }

  // The queue after the folder that queue_search finds was edited into `d`.
  function PutChild(fs: seq<Folder>, n: Bytes, d: Folder): (r: seq<Folder>)
    requires d.name == n
    ensures |r| == |fs|
    ensures forall i :: 0 <= i < |fs| ==> r[i].name == fs[i].name
    ensures forall c :: c in r ==> c in fs || c == d
  {
    if fs == [] then []
    else if fs[0].name == n then [d] + fs[1..]
    else [fs[0]] + PutChild(fs[1..], n, d)
  }

  // queue_remove with file_equals.
  function DropFile(xs: seq<File>, x: File): (r: seq<File>)
    ensures forall y :: y in r ==> y in xs
  {
    if xs == [] then []
    else if xs[0] == x then xs[1..]
    else [xs[0]] + DropFile(xs[1..], x)
  }

  ghost predicate UniqueFolders(fs: seq<Folder>) {
    forall i, j :: 0 <= i < j < |fs| ==> fs[i].name != fs[j].name
  }

  ghost predicate UniqueFiles(xs: seq<File>) {
    forall i, j :: 0 <= i < j < |xs| ==> xs[i].name != xs[j].name
  }

  // ---------------------------------------------------------------- shapes

  // No two records, and no two sub-folders, of one folder share a name.
  ghost predicate Unique(t: Folder) {
    && UniqueFiles(t.files)
    && UniqueFolders(t.folders)
    && forall c :: c in t.folders ==> Unique(c)
  }

  // Every sub-folder has its marker, every marker its sub-folder.
  ghost predicate MarkersMatch(t: Folder) {
    && (forall x :: x in t.files && x.isFolder ==> x == Marker(x.name))
    && (forall n :: Child(t.folders, n).Some? <==> Marker(n) in t.files)
  }

  // A tree as folder_new reads it from a directory.
  ghost predicate Snapshot(t: Folder) {
    && UniqueFiles(t.files)
    && UniqueFolders(t.folders)
    && MarkersMatch(t)
    && forall c :: c in t.folders ==> Snapshot(c)
  }

  // ---------------------------------------------------------------- denotation

  // Record x stands in the directory `dir` of t.
  ghost predicate Has(t: Folder, dir: Path, x: File) {
    if dir == [] then x in t.files
    else Child(t.folders, dir[0]).Some? && Has(Child(t.folders, dir[0]).value, dir[1..], x)
  }

  ghost predicate SameEntries(a: Folder, b: Folder) {
    forall dir, x :: Has(a, dir, x) <==> Has(b, dir, x)
  }

  // ---------------------------------------------------------------- queue lemmas

  lemma {:induction false} ChildFound(fs: seq<Folder>, c: Folder)
    requires UniqueFolders(fs) && c in fs
    ensures Child(fs, c.name) == Some(c)
  {
    if fs[0] == c {
    } else {
      var i :| 0 <= i < |fs| && fs[i] == c;
      assert fs[1..][i - 1] == c;
      ChildFound(fs[1..], c);
    }
  }

  lemma {:induction false} PutChildLookup(fs: seq<Folder>, n: Bytes, d: Folder, m: Bytes)
    requires d.name == n
    ensures Child(PutChild(fs, n, d), m)
         == if m == n && Child(fs, n).Some? then Some(d) else Child(fs, m)
  {
    if fs == [] || fs[0].name == n {
    } else {
      PutChildLookup(fs[1..], n, d, m);
    }
  }

  lemma {:induction false} PutChildSame(fs: seq<Folder>, n: Bytes, d: Folder)
    requires Child(fs, n) == Some(d)
    ensures PutChild(fs, n, d) == fs
  {
    if fs[0].name == n {
    } else {
      PutChildSame(fs[1..], n, d);
    }
  }

  lemma {:induction false} DropChildLookup(fs: seq<Folder>, n: Bytes, m: Bytes)
    requires UniqueFolders(fs)
    ensures UniqueFolders(DropChild(fs, n))
    ensures Child(DropChild(fs, n), m) == if m == n then None else Child(fs, m)
  {
    if fs == [] {
    } else if fs[0].name == n {
      assert forall i :: 0 <= i < |fs[1..]| ==> fs[1..][i] == fs[i + 1];
    } else {
      DropChildLookup(fs[1..], n, m);
      var r := DropChild(fs[1..], n);
      forall i | 0 <= i < |r| ensures r[i].name != fs[0].name {
        assert r[i] in fs[1..];
        var k :| 0 <= k < |fs[1..]| && fs[1..][k] == r[i];
        assert fs[k + 1] == r[i];
      }
    }
  }

  lemma {:induction false} DropFileMembers(xs: seq<File>, x: File)
    requires UniqueFiles(xs)
    ensures UniqueFiles(DropFile(xs, x))
    ensures forall y :: y in DropFile(xs, x) <==> y in xs && y != x
  {
    if xs == [] {
    } else if xs[0] == x {
      assert forall y :: y in xs <==> y == xs[0] || y in xs[1..];
      assert forall i :: 0 <= i < |xs[1..]| ==> xs[1..][i] == xs[i + 1];
    } else {
      DropFileMembers(xs[1..], x);
      var r := DropFile(xs[1..], x);
      assert forall y :: y in xs <==> y == xs[0] || y in xs[1..];
      forall i | 0 <= i < |r| ensures r[i].name != xs[0].name {
        assert r[i] in xs[1..];
        var k :| 0 <= k < |xs[1..]| && xs[1..][k] == r[i];
        assert xs[k + 1] == r[i];
      }
    }
  }

  lemma {:induction false} DropFileAbsent(xs: seq<File>, x: File)
    requires x !in xs
    ensures DropFile(xs, x) == xs
  {
    if xs == [] {
    } else {
      DropFileAbsent(xs[1..], x);
    }
  }

  lemma UniqueName(xs: seq<File>, x: File, y: File)
    requires UniqueFiles(xs) && x in xs && y in xs && x.name == y.name
    ensures x == y
  {
    var i :| 0 <= i < |xs| && xs[i] == x;
    var j :| 0 <= j < |xs| && xs[j] == y;
    assert i == j;
  }

  // ---------------------------------------------------------------- facts about shapes

  lemma {:induction false} SnapshotIsUnique(t: Folder)
    requires Snapshot(t)
    ensures Unique(t)
  {
    forall c | c in t.folders ensures Unique(c) {
      SnapshotIsUnique(c);
    }
  }

  // In a snapshot whatever holds an entry is itself marked, all the way up.
  lemma {:induction false} AncestorsMarked(t: Folder, dir: Path, x: File, k: nat)
    requires Snapshot(t) && Has(t, dir, x) && k < |dir|
    ensures Has(t, dir[..k], Marker(dir[k]))
  {
    if k == 0 {
    } else {
      var c := Child(t.folders, dir[0]).value;
      AncestorsMarked(c, dir[1..], x, k - 1);
      assert dir[..k][1..] == dir[1..][..k - 1];
    }
  }

  // Equal snapshots have corresponding sub-folders.
  lemma HasCons(t: Folder, n: Bytes, dir: Path, x: File)
    ensures Has(t, [n] + dir, x) <==> Child(t.folders, n).Some? && Has(Child(t.folders, n).value, dir, x)
  {
    assert ([n] + dir)[1..] == dir;
  }
}
