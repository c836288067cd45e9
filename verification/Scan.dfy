// folder_new: a directory read from the disk into a tree.
module Scan {
  import opened Basics
  import opened FileTree
  import opened DiskReplay
  import opened Listing

  // Whatever stands on the disk stands in directories, up to the root.
  ghost predicate Rooted(d: Disk) {
    forall p :: p in d ==> p != [] && ParentThere(d, p)
  }

  lemma {:induction false} PrefixIsDir(d: Disk, p: Path, k: nat)
    requires Rooted(d) && p in d && 0 < k < |p|
    ensures p[..k] in d && d[p[..k]].Dir?
    decreases |p|
  {
    assert Parent(p) == p[..|p| - 1];
    if k < |p| - 1 {
      PrefixIsDir(d, Parent(p), k);
      assert Parent(p)[..k] == p[..k];
    }
  }

  // ---------------------------------------------------------------- the reading

  ghost function BelowOf(d: Disk, dir: Path): set<Path> {
    set p | p in d && Below(p, dir)
  }

  // What readdir finds in the directory `dir`.
  ghost function Names(d: Disk, dir: Path): (r: set<Bytes>)
    ensures forall n :: n in r <==> dir + [n] in d
  {
    var r := set p | p in d && p != [] && Parent(p) == dir :: p[|p| - 1];
    assert forall n :: n in r <==> dir + [n] in d by {
      forall n ensures n in r <==> dir + [n] in d {
        assert Parent(dir + [n]) == dir && (dir + [n])[|dir + [n]| - 1] == n;
        if n in r {
          var p :| p in d && p != [] && Parent(p) == dir && p[|p| - 1] == n;
          assert p == dir + [n];
        }
      }
    }
    r
  }

  // readdir gives the names in some order, each once.
  ghost function SomeOrder(s: set<Bytes>): (r: seq<Bytes>)
    ensures forall n :: n in r <==> n in s
    ensures forall i, j :: 0 <= i < j < |r| ==> r[i] != r[j]
  {
    if s == {} then []
    else
      var n :| n in s;
      [n] + SomeOrder(s - {n})
  }

  // The records of a directory's content; a sub-directory is recorded by a marker.
  ghost function Records(d: Disk, dir: Path, ns: seq<Bytes>): (r: seq<File>)
    requires forall n :: n in ns ==> dir + [n] in d
    ensures |r| == |ns| && forall i :: 0 <= i < |ns| ==> r[i] == Record(dir + [ns[i]], d[dir + [ns[i]]])
  {
    seq(|ns|, i requires 0 <= i < |ns| => Record(dir + [ns[i]], d[dir + [ns[i]]]))
  }

  ghost function ReadFolder(d: Disk, dir: Path, name: Bytes): (r: Folder)
    ensures r.name == name
    decreases BelowOf(d, dir), 1, 0
  {
    var ns := SomeOrder(Names(d, dir));
    Folder(name, Records(d, dir, ns), ReadFolders(d, dir, ns))
  }

  ghost function ReadFolders(d: Disk, dir: Path, ns: seq<Bytes>): (r: seq<Folder>)
    decreases BelowOf(d, dir), 0, |ns|
  {
    if ns == [] then []
    else
      var p := dir + [ns[0]];
      var rest := ReadFolders(d, dir, ns[1..]);
      if p in d && d[p].Dir? then
        assert p in BelowOf(d, dir) && p !in BelowOf(d, p);
        [ReadFolder(d, p, ns[0])] + rest
      else rest
  }

  // ---------------------------------------------------------------- what it reads

  lemma RecordNamed(p: Path, node: Node)
    requires p != []
    ensures Record(p, node).name == p[|p| - 1] && NodeOf(Record(p, node)) == node
  {
  }

  lemma RecordsMembers(d: Disk, dir: Path, ns: seq<Bytes>, x: File)
    requires forall n :: n in ns ==> dir + [n] in d
    ensures x in Records(d, dir, ns)
       <==> x.name in ns && x == Record(dir + [x.name], d[dir + [x.name]])
  {
    var r := Records(d, dir, ns);
    if x.name in ns && x == Record(dir + [x.name], d[dir + [x.name]]) {
      var i :| 0 <= i < |ns| && ns[i] == x.name;
      assert r[i] == x;
    }
    if x in r {
      var i :| 0 <= i < |r| && r[i] == x;
      RecordNamed(dir + [ns[i]], d[dir + [ns[i]]]);
    }
  }

  lemma {:induction false} FoldersRead(d: Disk, dir: Path, ns: seq<Bytes>, n: Bytes)
    ensures Child(ReadFolders(d, dir, ns), n)
         == if n in ns && dir + [n] in d && d[dir + [n]].Dir? then Some(ReadFolder(d, dir + [n], n)) else None
    decreases |ns|
  {
    if ns == [] {
    } else {
      FoldersRead(d, dir, ns[1..], n);
      var rest := ReadFolders(d, dir, ns[1..]);
      var p := dir + [ns[0]];
      assert n in ns <==> n == ns[0] || n in ns[1..];
      if p in d && d[p].Dir? {
        assert ([ReadFolder(d, p, ns[0])] + rest)[1..] == rest;
      }
    }
  }

  lemma {:induction false} FoldersReadUnique(d: Disk, dir: Path, ns: seq<Bytes>)
    requires forall i, j :: 0 <= i < j < |ns| ==> ns[i] != ns[j]
    ensures UniqueFolders(ReadFolders(d, dir, ns))
    ensures forall c :: c in ReadFolders(d, dir, ns) ==> c.name in ns
    decreases |ns|
  {
    if ns == [] {
    } else {
      FoldersReadUnique(d, dir, ns[1..]);
      var rest := ReadFolders(d, dir, ns[1..]);
      assert ns[0] !in ns[1..];
      forall i | 0 <= i < |rest| ensures rest[i].name != ns[0] {
        assert rest[i] in rest;
      }
    }
  }

  // Whatever the disk holds, a scan reads a snapshot.
  lemma {:induction false} ReadIsSnapshot(d: Disk, dir: Path, name: Bytes)
    ensures Snapshot(ReadFolder(d, dir, name))
    decreases BelowOf(d, dir)
  {
    var r := ReadFolder(d, dir, name);
    var ns := SomeOrder(Names(d, dir));
    FoldersReadUnique(d, dir, ns);
    ReadMarkers(d, dir, name);
    forall c | c in r.folders ensures Snapshot(c) {
      ChildFound(r.folders, c);
      FoldersRead(d, dir, ns, c.name);
      var p := dir + [c.name];
      assert p in BelowOf(d, dir) && p !in BelowOf(d, p);
      ReadIsSnapshot(d, p, c.name);
    }
  }

  lemma ReadMarkers(d: Disk, dir: Path, name: Bytes)
    ensures UniqueFiles(ReadFolder(d, dir, name).files) && MarkersMatch(ReadFolder(d, dir, name))
  {
    var r := ReadFolder(d, dir, name);
    var ns := SomeOrder(Names(d, dir));
    forall x | x in r.files && x.isFolder ensures x == Marker(x.name) {
      RecordsMembers(d, dir, ns, x);
    }
    forall n ensures Child(r.folders, n).Some? <==> Marker(n) in r.files {
      FoldersRead(d, dir, ns, n);
      RecordsMembers(d, dir, ns, Marker(n));
    }
    RecordsUnique(d, dir, ns);
  }

  lemma RecordsUnique(d: Disk, dir: Path, ns: seq<Bytes>)
    requires forall n :: n in ns ==> dir + [n] in d
    requires forall i, j :: 0 <= i < j < |ns| ==> ns[i] != ns[j]
    ensures UniqueFiles(Records(d, dir, ns))
  {
    var r := Records(d, dir, ns);
    forall i | 0 <= i < |ns| ensures r[i].name == ns[i] {
      RecordNamed(dir + [ns[i]], d[dir + [ns[i]]]);
    }
  }

  // On the way to a node the first step leads into a directory.
  lemma FirstStep(d: Disk, dir: Path, q: Path, n: Bytes)
    requires Rooted(d) && q != []
    ensures dir + [q[0]] + q[1..] == dir + q
    ensures dir + q + [n] in d ==> dir + [q[0]] in d && d[dir + [q[0]]].Dir?
  {
    var whole := dir + q + [n];
    assert whole[..|dir| + 1] == dir + [q[0]];
    if whole in d {
      PrefixIsDir(d, whole, |dir| + 1);
    }
  }

  // An entry is read exactly when its node stands at its path.
  lemma {:induction false} ReadHas(d: Disk, dir: Path, name: Bytes, q: Path, x: File)
    requires Rooted(d)
    ensures Has(ReadFolder(d, dir, name), q, x)
       <==> dir + q + [x.name] in d && x == Record(dir + q + [x.name], d[dir + q + [x.name]])
    decreases |q|
  {
    var ns := SomeOrder(Names(d, dir));
    if q == [] {
      RecordsMembers(d, dir, ns, x);
      assert dir + q == dir;
    } else {
      FoldersRead(d, dir, ns, q[0]);
      FirstStep(d, dir, q, x.name);
      if dir + [q[0]] in d && d[dir + [q[0]]].Dir? {
        ReadHas(d, dir + [q[0]], q[0], q[1..], x);
      }
    }
  }

  // A scan reads a snapshot that stands on the disk.
  lemma ScanStands(d: Disk, name: Bytes)
    requires Rooted(d)
    ensures Snapshot(ReadFolder(d, [], name)) && OnDisk(d, ReadFolder(d, [], name))
  {
    ReadIsSnapshot(d, [], name);
    forall p | p in d ensures p != [] && Has(ReadFolder(d, [], name), Parent(p), Record(p, d[p])) {
      NodeRead(d, name, p);
    }
    forall e: Entry | Has(ReadFolder(d, [], name), e.dir, e.file)
      ensures e.Target() in d && d[e.Target()] == NodeOf(e.file)
    {
      EntryRead(d, name, e);
    }
  }

  lemma NodeRead(d: Disk, name: Bytes, p: Path)
    requires Rooted(d) && p in d
    ensures p != [] && Has(ReadFolder(d, [], name), Parent(p), Record(p, d[p]))
  {
    RecordNamed(p, d[p]);
    assert [] + Parent(p) + [p[|p| - 1]] == p;
    ReadHas(d, [], name, Parent(p), Record(p, d[p]));
  }

  lemma EntryRead(d: Disk, name: Bytes, e: Entry)
    requires Rooted(d) && Has(ReadFolder(d, [], name), e.dir, e.file)
    ensures e.Target() in d && d[e.Target()] == NodeOf(e.file)
  {
    assert [] + e.dir == e.dir;
    ReadHas(d, [], name, e.dir, e.file);
    RecordNamed(e.Target(), d[e.Target()]);
  }

  // Any two snapshots that stand on the disk hold the same entries.
  lemma ScansAgree(d: Disk, a: Folder, b: Folder)
    requires Snapshot(a) && Snapshot(b) && OnDisk(d, a) && OnDisk(d, b)
    ensures SameEntries(a, b)
  {
    forall dir, x ensures Has(a, dir, x) <==> Has(b, dir, x) {
      EntryOnDisk(d, a, Entry(dir, x));
      EntryOnDisk(d, b, Entry(dir, x));
    }
  }
}
