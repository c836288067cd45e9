// The three tree operations of FileSystem.c, on values: folder_subtract, folder_remove and
// folder_add, each recursion following one loop of the source.
module FolderOps {
  import opened Basics
  import opened FileTree

  // ---------------------------------------------------------------- folder_subtract

  function SubtractFiles(xs: seq<File>, ss: seq<File>): seq<File>
    decreases ss
  {
    if ss == [] then xs else SubtractFiles(DropFile(xs, ss[0]), ss[1..])
  }

  function Subtract(f: Folder, s: Folder): Folder
    decreases s, 1
  {
    Folder(f.name, SubtractFiles(f.files, s.files), SubtractFolders(f.folders, s.folders))
  }

  function SubtractFolders(fs: seq<Folder>, ss: seq<Folder>): seq<Folder>
    decreases ss, 0
  {
    if ss == [] then fs else SubtractFolders(SubtractFrom(fs, ss[0]), ss[1..])
  }

  // One turn of the sub-folder loop: subtract, then drop the sub-folder if that emptied it.
  function SubtractFrom(fs: seq<Folder>, s: Folder): seq<Folder>
    decreases s, 2
  {
    match Child(fs, s.name)
    case None => fs
    case Some(g) =>
      var d := Subtract(g, s);
      if IsEmpty(d) then DropChild(fs, s.name) else PutChild(fs, s.name, d)
  }

  // ---------------------------------------------------------------- folder_remove

  // The file loop: a removed marker takes its whole sub-folder along.
  function RemoveFiles(xs: seq<File>, fs: seq<Folder>, ss: seq<File>): (seq<File>, seq<Folder>)
    decreases ss
  {
    if ss == [] then (xs, fs)
    else
      var fs' := if ss[0] in xs && ss[0].isFolder then DropChild(fs, ss[0].name) else fs;
      RemoveFiles(DropFile(xs, ss[0]), fs', ss[1..])
  }

  function Remove(f: Folder, s: Folder): Folder
    decreases s, 1
  {
    var (xs, fs) := RemoveFiles(f.files, f.folders, s.files);
    Folder(f.name, xs, RemoveFolders(fs, s.folders))
  }

  function RemoveFolders(fs: seq<Folder>, ss: seq<Folder>): seq<Folder>
    decreases ss, 0
  {
    if ss == [] then fs else RemoveFolders(RemoveFrom(fs, ss[0]), ss[1..])
  }

  function RemoveFrom(fs: seq<Folder>, s: Folder): seq<Folder>
    decreases s, 2
  {
    match Child(fs, s.name)
    case None => fs
    case Some(g) => PutChild(fs, s.name, Remove(g, s))
  }

  // ---------------------------------------------------------------- folder_add

  // The file loop; None when one of its asserts fails. `all` is toAdd->folders.
  function AddFiles(xs: seq<File>, fs: seq<Folder>, aa: seq<File>, all: seq<Folder>)
    : Option<(seq<File>, seq<Folder>)>
    decreases aa
  {
    if aa == [] then Some((xs, fs))
    else
      var a := aa[0];
      if a.isFolder then
        if Child(all, a.name).None? then None
        else if a in xs then
          if Child(fs, a.name).None? then None else AddFiles(xs, fs, aa[1..], all)
        else
          if Child(fs, a.name).Some? then None
          else AddFiles(xs + [a], fs + [EmptyFolder(a.name)], aa[1..], all)
      else
        AddFiles(if a in xs then xs else xs + [a], fs, aa[1..], all)
  }

  function Add(f: Folder, a: Folder): (r: Option<Folder>)
    ensures r.Some? ==> r.value.name == f.name
    decreases a, 1
  {
    match AddFiles(f.files, f.folders, a.files, a.folders)
    case None => None
    case Some((xs, fs)) =>
      match AddFolders(fs, a.folders)
      case None => None
      case Some(gs) => Some(Folder(f.name, xs, gs))
  }

  // The folder loop; None when a sub-folder to add has no counterpart, or an assert fails inside.
  function AddFolders(fs: seq<Folder>, aa: seq<Folder>): Option<seq<Folder>>
    decreases aa, 0
  {
    if aa == [] then Some(fs)
    else
      match Child(fs, aa[0].name)
      case None => None
      case Some(g) =>
        match Add(g, aa[0])
        case None => None
        case Some(d) => AddFolders(PutChild(fs, aa[0].name, d), aa[1..])
  }

  // ---------------------------------------------------------------- one level of folder_subtract

  lemma {:induction false} SubtractFilesMembers(xs: seq<File>, ss: seq<File>)
    requires UniqueFiles(xs)
    ensures UniqueFiles(SubtractFiles(xs, ss))
    ensures forall y :: y in SubtractFiles(xs, ss) <==> y in xs && y !in ss
    decreases ss
  {
    if ss == [] {
    } else {
      DropFileMembers(xs, ss[0]);
      SubtractFilesMembers(DropFile(xs, ss[0]), ss[1..]);
      assert forall y :: y in ss <==> y == ss[0] || y in ss[1..];
    }
  }

  function SubtractedChild(g: Option<Folder>, s: Option<Folder>): Option<Folder> {
    if g.None? || s.None? then g
    else if IsEmpty(Subtract(g.value, s.value)) then None
    else Some(Subtract(g.value, s.value))
  }

  lemma SubtractFromLookup(fs: seq<Folder>, s: Folder, m: Bytes)
    requires UniqueFolders(fs)
    ensures UniqueFolders(SubtractFrom(fs, s))
    ensures Child(SubtractFrom(fs, s), m)
         == SubtractedChild(Child(fs, m), if m == s.name then Some(s) else None)
  {
    DropChildLookup(fs, s.name, m);
    if Child(fs, s.name).Some? {
      PutChildLookup(fs, s.name, Subtract(Child(fs, s.name).value, s), m);
    }
  }

  lemma {:induction false} SubtractFoldersLookup(fs: seq<Folder>, ss: seq<Folder>, m: Bytes)
    requires UniqueFolders(fs) && UniqueFolders(ss)
    ensures UniqueFolders(SubtractFolders(fs, ss))
    ensures Child(SubtractFolders(fs, ss), m) == SubtractedChild(Child(fs, m), Child(ss, m))
    decreases ss
  {
    if ss == [] {
    } else {
      HeadNotInTail(ss);
      SubtractFromLookup(fs, ss[0], m);
      SubtractFoldersLookup(SubtractFrom(fs, ss[0]), ss[1..], m);
    }
  }

  lemma HeadNotInTail(ss: seq<Folder>)
    requires UniqueFolders(ss) && ss != []
    ensures UniqueFolders(ss[1..])
    ensures Child(ss[1..], ss[0].name) == None
  {
    assert forall i :: 0 <= i < |ss[1..]| ==> ss[1..][i] == ss[i + 1];
  }

  lemma {:induction false} SubtractUnique(f: Folder, s: Folder)
    requires Unique(f) && Unique(s)
    ensures Unique(Subtract(f, s))
    decreases s
  {
    var r := Subtract(f, s);
    SubtractFilesMembers(f.files, s.files);
    SubtractFoldersLookup(f.folders, s.folders, f.name);
    forall c | c in r.folders ensures Unique(c) {
      SubtractFoldersLookup(f.folders, s.folders, c.name);
      ChildFound(r.folders, c);
      var g, t := Child(f.folders, c.name), Child(s.folders, c.name);
      if t.Some? {
        SubtractUnique(g.value, t.value);
      }
    }
  }

  // ---------------------------------------------------------------- one level of folder_remove

  // A marker of that name is in both file queues, so the sub-folder goes.
  ghost predicate MarkerRemoved(xs: seq<File>, ss: seq<File>, n: Bytes) {
    exists y :: y in xs && y in ss && y.isFolder && y.name == n
  }

  lemma {:induction false} RemoveFilesMembers(xs: seq<File>, fs: seq<Folder>, ss: seq<File>, m: Bytes)
    requires UniqueFiles(xs) && UniqueFolders(fs)
    ensures RemoveFiles(xs, fs, ss).0 == SubtractFiles(xs, ss)
    ensures UniqueFolders(RemoveFiles(xs, fs, ss).1)
    ensures Child(RemoveFiles(xs, fs, ss).1, m)
         == if MarkerRemoved(xs, ss, m) then None else Child(fs, m)
    decreases ss
  {
    if ss == [] {
    } else {
      var s, xs' := ss[0], DropFile(xs, ss[0]);
      var fs' := if s in xs && s.isFolder then DropChild(fs, s.name) else fs;
      DropFileMembers(xs, s);
      DropChildLookup(fs, s.name, m);
      RemoveFilesMembers(xs', fs', ss[1..], m);
      assert forall y :: y in ss <==> y == s || y in ss[1..];
      if MarkerRemoved(xs, ss, m) {
        var y :| y in xs && y in ss && y.isFolder && y.name == m;
        if y != s {
          assert y in xs' && y in ss[1..];
          assert MarkerRemoved(xs', ss[1..], m);
        }
      }
    }
  }

  function RemovedChild(g: Option<Folder>, s: Option<Folder>): Option<Folder> {
    if g.None? || s.None? then g else Some(Remove(g.value, s.value))
  }

  lemma RemoveFromLookup(fs: seq<Folder>, s: Folder, m: Bytes)
    requires UniqueFolders(fs)
    ensures UniqueFolders(RemoveFrom(fs, s))
    ensures Child(RemoveFrom(fs, s), m)
         == RemovedChild(Child(fs, m), if m == s.name then Some(s) else None)
  {
    if Child(fs, s.name).Some? {
      PutChildLookup(fs, s.name, Remove(Child(fs, s.name).value, s), m);
    }
  }

  lemma {:induction false} RemoveFoldersLookup(fs: seq<Folder>, ss: seq<Folder>, m: Bytes)
    requires UniqueFolders(fs) && UniqueFolders(ss)
    ensures UniqueFolders(RemoveFolders(fs, ss))
    ensures Child(RemoveFolders(fs, ss), m) == RemovedChild(Child(fs, m), Child(ss, m))
    decreases ss
  {
    if ss == [] {
    } else {
      HeadNotInTail(ss);
      RemoveFromLookup(fs, ss[0], m);
      RemoveFoldersLookup(RemoveFrom(fs, ss[0]), ss[1..], m);
    }
  }

  // The children of Remove(f, s), by name.
  lemma RemoveLookup(f: Folder, s: Folder, m: Bytes)
    requires UniqueFiles(f.files) && UniqueFolders(f.folders) && UniqueFolders(s.folders)
    ensures UniqueFiles(Remove(f, s).files) && UniqueFolders(Remove(f, s).folders)
    ensures forall y :: y in Remove(f, s).files <==> y in f.files && y !in s.files
    ensures Child(Remove(f, s).folders, m)
         == if MarkerRemoved(f.files, s.files, m) then None
            else RemovedChild(Child(f.folders, m), Child(s.folders, m))
  {
    RemoveFilesMembers(f.files, f.folders, s.files, m);
    SubtractFilesMembers(f.files, s.files);
    var (xs, fs) := RemoveFiles(f.files, f.folders, s.files);
    RemoveFoldersLookup(fs, s.folders, m);
  }

  // ---------------------------------------------------------------- one level of folder_add

  ghost predicate NoDuplicates(xs: seq<File>) {
    forall i, j :: 0 <= i < j < |xs| ==> xs[i] != xs[j]
  }

  // The condition the asserts of the file loop check.
  ghost predicate MarkersFit(xs: seq<File>, fs: seq<Folder>, aa: seq<File>, all: seq<Folder>) {
    forall a :: a in aa && a.isFolder ==>
      Child(all, a.name).Some? && (a in xs <==> Child(fs, a.name).Some?)
  }

  ghost predicate MarkerAdded(aa: seq<File>, n: Bytes) {
    exists a :: a in aa && a.isFolder && a.name == n
  }

  lemma {:induction false} ChildAppend(fs: seq<Folder>, c: Folder, m: Bytes)
    ensures Child(fs + [c], m)
         == if Child(fs, m).Some? then Child(fs, m) else if c.name == m then Some(c) else None
  {
    if fs == [] {
      assert fs + [c] == [c];
    } else {
      assert (fs + [c])[1..] == fs[1..] + [c];
      ChildAppend(fs[1..], c, m);
    }
  }

  // The file loop succeeds exactly when the markers fit.
  lemma {:induction false} AddFilesSucceeds(xs: seq<File>, fs: seq<Folder>, aa: seq<File>, all: seq<Folder>)
    requires UniqueFiles(aa)
    ensures AddFiles(xs, fs, aa, all).Some? <==> MarkersFit(xs, fs, aa, all)
    decreases aa
  {
    if aa == [] {
    } else {
      var a, rest := aa[0], aa[1..];
      assert forall b :: b in aa <==> b == a || b in rest;
      assert forall b :: b in rest ==> b.name != a.name;
      var xs' := if a in xs then xs else xs + [a];
      if !a.isFolder || a in xs {
        AddFilesSucceeds(xs', fs, rest, all);
      } else {
        AddFilesSucceeds(xs', fs + [EmptyFolder(a.name)], rest, all);
        forall b | b in rest
          ensures Child(fs + [EmptyFolder(a.name)], b.name).Some? <==> Child(fs, b.name).Some?
        {
          ChildAppend(fs, EmptyFolder(a.name), b.name);
        }
      }
    }
  }

  // What the file loop leaves: the union of records, and an empty sub-folder for each new marker.
  lemma {:induction false} AddFilesMembers(xs: seq<File>, fs: seq<Folder>, aa: seq<File>, all: seq<Folder>, m: Bytes)
    requires NoDuplicates(xs) && UniqueFolders(fs)
    requires AddFiles(xs, fs, aa, all).Some?
    ensures var r := AddFiles(xs, fs, aa, all).value;
      && NoDuplicates(r.0) && UniqueFolders(r.1)
      && (forall y :: y in r.0 <==> y in xs || y in aa)
      && Child(r.1, m)
         == if Child(fs, m).Some? then Child(fs, m)
            else if MarkerAdded(aa, m) then Some(EmptyFolder(m)) else None
    decreases aa
  {
    if aa == [] {
    } else {
      var a, rest := aa[0], aa[1..];
      assert forall b :: b in aa <==> b == a || b in rest;
      var xs' := if a in xs then xs else xs + [a];
      if !a.isFolder || a in xs {
        AddFilesMembers(xs', fs, rest, all, m);
      } else {
        var fs' := fs + [EmptyFolder(a.name)];
        ChildAppend(fs, EmptyFolder(a.name), m);
        AddFilesMembers(xs', fs', rest, all, m);
      }
    }
  }

  function AddedChild(g: Option<Folder>, a: Option<Folder>): Option<Folder> {
    if g.None? || a.None? then g else Add(g.value, a.value)
  }

  lemma {:induction false} AddFoldersSucceeds(fs: seq<Folder>, aa: seq<Folder>)
    requires UniqueFolders(aa)
    ensures AddFolders(fs, aa).Some?
       <==> forall a :: a in aa ==>
              Child(fs, a.name).Some? && Add(Child(fs, a.name).value, a).Some?
    decreases aa
  {
    if aa == [] {
    } else {
      var a, rest := aa[0], aa[1..];
      assert forall b :: b in aa <==> b == a || b in rest;
      if Child(fs, a.name).Some? && Add(Child(fs, a.name).value, a).Some? {
        var fs' := PutChild(fs, a.name, Add(Child(fs, a.name).value, a).value);
        AddFoldersSucceeds(fs', rest);
        forall b | b in rest ensures Child(fs', b.name) == Child(fs, b.name) {
          PutChildLookup(fs, a.name, Add(Child(fs, a.name).value, a).value, b.name);
          var i :| 0 <= i < |rest| && rest[i] == b;
          assert aa[i + 1] == b;
        }
      }
    }
  }

  lemma {:induction false} AddFoldersLookup(fs: seq<Folder>, aa: seq<Folder>, m: Bytes)
    requires UniqueFolders(fs) && UniqueFolders(aa) && AddFolders(fs, aa).Some?
    ensures UniqueFolders(AddFolders(fs, aa).value)
    ensures Child(AddFolders(fs, aa).value, m) == AddedChild(Child(fs, m), Child(aa, m))
    decreases aa
  {
    if aa == [] {
    } else {
      var d := Add(Child(fs, aa[0].name).value, aa[0]).value;
      PutChildLookup(fs, aa[0].name, d, m);
      HeadNotInTail(aa);
      AddFoldersLookup(PutChild(fs, aa[0].name, d), aa[1..], m);
    }
  }

  // The sub-folder folder_add works on for name m, before it recurses.
  ghost function AddBase(f: Folder, a: Folder, m: Bytes): Option<Folder> {
    if Child(f.folders, m).Some? then Child(f.folders, m)
    else if MarkerAdded(a.files, m) then Some(EmptyFolder(m)) else None
  }

  // The children of Add(f, a), by name.
  lemma AddLookup(f: Folder, a: Folder, m: Bytes)
    requires NoDuplicates(f.files) && UniqueFolders(f.folders) && UniqueFolders(a.folders)
    requires Add(f, a).Some?
    ensures var r := Add(f, a).value;
      && NoDuplicates(r.files) && UniqueFolders(r.folders)
      && (forall y :: y in r.files <==> y in f.files || y in a.files)
      && Child(r.folders, m) == AddedChild(AddBase(f, a, m), Child(a.folders, m))
  {
    AddFilesMembers(f.files, f.folders, a.files, a.folders, m);
    var (xs, fs) := AddFiles(f.files, f.folders, a.files, a.folders).value;
    AddFoldersLookup(fs, a.folders, m);
  }
}
