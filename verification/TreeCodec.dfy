// filesystem_serialize and filesystem_deserialize, and the payloads that hold two trees.
module TreeCodec {
  import opened Basics
  import opened FileTree
  import opened Decimal

  const FILE_MARKER: byte := 0xFF
  const FOLDER_START: byte := 0xFE
  const FOLDER_END: byte := 0xFD

  // ---------------------------------------------------------------- writing

  // push_string
  function CString(s: Bytes): Bytes {
    s + [NUL]
  }

  // sprintf(buf, "%ld %ld %d", size, last_modified, is_folder)
  function Numbers(x: File): Bytes {
    Print(AsSigned(x.size)) + ([SPACE] + (Print(x.mtime) + ([SPACE] + Print(if x.isFolder then 1 else 0))))
  }

  function WriteFile(x: File): Bytes {
    [FILE_MARKER] + CString(x.name) + CString(Numbers(x))
  }

  function WriteFiles(xs: seq<File>): Bytes {
    if xs == [] then [] else WriteFile(xs[0]) + WriteFiles(xs[1..])
  }

  // filesystem_serialize_helper
  function Write(t: Folder): Bytes
    decreases t, 1
  {
    [FOLDER_START] + Body(t)
  }

  function Body(t: Folder): Bytes
    decreases t, 0
  {
    CString(t.name) + (WriteFiles(t.files) + (WriteAll(t.folders) + [FOLDER_END]))
  }

  function WriteAll(fs: seq<Folder>): Bytes
    decreases fs, 0
  {
    if fs == [] then [] else Write(fs[0]) + WriteAll(fs[1..])
  }

  // The bytes of a file "a" of 5 bytes and time -7, of a marker "d", of an empty folder "d", and of
  // the folder "r" with all of them.
  lemma SampleFile()
    ensures WriteFile(File([97], 5, -7, false)) == [0xFF, 97, 0, 53, 32, 45, 55, 32, 48, 0]
  {
    var a := File([97], 5, -7, false);
    assert Print(5) == [53] && Print(-7) == [45, 55] && Print(0) == [48];
    assert Numbers(a) == [53, 32, 45, 55, 32, 48];
  }

  lemma SampleMarker()
    ensures WriteFile(Marker([100])) == [0xFF, 100, 0, 48, 32, 48, 32, 49, 0]
  {
    assert Print(0) == [48] && Print(1) == [49];
    assert Numbers(Marker([100])) == [48, 32, 48, 32, 49];
  }

  lemma SampleFolder()
    ensures Write(Folder([100], [], [])) == [0xFE, 100, 0, 0xFD]
  {
    assert WriteFiles([]) == [] && WriteAll([]) == [];
  }

  lemma SampleTree()
    ensures Write(Folder([114], [File([97], 5, -7, false), Marker([100])], [Folder([100], [], [])]))
         == [0xFE, 114, 0] + ([0xFF, 97, 0, 53, 32, 45, 55, 32, 48, 0] + [0xFF, 100, 0, 48, 32, 48, 32, 49, 0]
            + ([0xFE, 100, 0, 0xFD] + [0xFD]))
  {
    SampleFile();
    SampleMarker();
    SampleFolder();
    Framed([114], File([97], 5, -7, false), Marker([100]), Folder([100], [], []));
  }

  // A folder of two files and one sub-folder.
  lemma Framed(n: Bytes, a: File, b: File, c: Folder)
    ensures Write(Folder(n, [a, b], [c]))
         == [FOLDER_START] + n + [NUL] + (WriteFile(a) + WriteFile(b) + (Write(c) + [FOLDER_END]))
  {
    TwoFiles(a, b);
    assert [c][1..] == [] && WriteAll([c]) == Write(c) + [];
    assert Write(c) + [] == Write(c);
    Associate([FOLDER_START], n, [NUL]);
    Associate([FOLDER_START], n + [NUL], WriteFile(a) + WriteFile(b) + (Write(c) + [FOLDER_END]));
  }

  lemma TwoFiles(a: File, b: File)
    ensures WriteFiles([a, b]) == WriteFile(a) + WriteFile(b)
  {
    assert [a, b][1..] == [b] && [b][1..] == [];
    assert WriteFiles([b]) == WriteFile(b) + [];
    assert WriteFile(b) + [] == WriteFile(b);
  }

  // ---------------------------------------------------------------- reading

  // copy_string and the step over the terminator; None when there is none.
  function ReadString(s: Bytes): (r: Option<(Bytes, Bytes)>)
    ensures r.Some? ==> |r.value.1| < |s|
  {
    if s == [] then None
    else if s[0] == NUL then Some(([], s[1..]))
    else
      match ReadString(s[1..])
      case None => None
      case Some((n, rest)) => Some(([s[0]] + n, rest))
  }

  // sscanf(data, "%lu %ld %d%n", ...) and the step over one more byte
  function ReadNumbers(s: Bytes): (r: Option<((nat, int, bool), Bytes)>)
    ensures r.Some? ==> |r.value.1| < |s|
  {
    match ScanNumber(s)
    case None => None
    case Some((size, s1)) =>
      match ScanNumber(s1)
      case None => None
      case Some((mtime, s2)) =>
        match ScanNumber(s2)
        case None => None
        case Some((flag, s3)) =>
          if s3 == [] then None
          else Some(((ToUlong(size), ToLong(mtime), ToInt(ToLong(flag)) != 0), s3[1..]))
  }

  // The bytes after a FILE_MARKER.
  function ReadFile(s: Bytes): (r: Option<(File, Bytes)>)
    ensures r.Some? ==> |r.value.1| < |s|
  {
    match ReadString(s)
    case None => None
    case Some((name, s1)) =>
      match ReadNumbers(s1)
      case None => None
      case Some(((size, mtime, isFolder), rest)) => Some((File(name, size, mtime, isFolder), rest))
  }

  // filesystem_deserialize_helper: the bytes after a FOLDER_START. None where the source asserts
  // or would leave the buffer.
  function ReadFolder(s: Bytes): (r: Option<(Folder, Bytes)>)
    ensures r.Some? ==> |r.value.1| < |s|
    decreases |s|, 1
  {
    match ReadString(s)
    case None => None
    case Some((name, s1)) => ReadItems(name, [], [], s1)
  }

  // The switch inside the endless loop.
  function ReadItems(name: Bytes, xs: seq<File>, fs: seq<Folder>, s: Bytes): (r: Option<(Folder, Bytes)>)
    ensures r.Some? ==> |r.value.1| < |s|
    decreases |s|, 0
  {
    if s == [] then None
    else if s[0] == FOLDER_START then
      match ReadFolder(s[1..])
      case None => None
      case Some((c, rest)) => ReadItems(name, xs, fs + [c], rest)
    else if s[0] == FILE_MARKER then
      match ReadFile(s[1..])
      case None => None
      case Some((x, rest)) => ReadItems(name, xs + [x], fs, rest)
    else if s[0] == FOLDER_END then Some((Folder(name, xs, fs), s[1..]))
    else None
  }

  // filesystem_deserialize: the tree and the number of bytes read. The first byte is stepped over
  // unseen.
  function Deserialize(data: Bytes): Option<(Folder, nat)> {
    if data == [] then None else Consumed(|data|, ReadFolder(data[1..]))
  }

  function Consumed(length: nat, r: Option<(Folder, Bytes)>): (c: Option<(Folder, nat)>)
    requires r.Some? ==> |r.value.1| <= length
  {
    match r
    case None => None
    case Some((t, rest)) => Some((t, length - |rest|))
  }

  // ---------------------------------------------------------------- the round trip

  // What the C types hold: names without NUL, unsigned long sizes, signed 64-bit times.
  ghost predicate Encodable(t: Folder) {
    && NUL !in t.name
    && (forall x :: x in t.files ==> EncodableFile(x))
    && (forall c :: c in t.folders ==> Encodable(c))
  }

  lemma {:induction false} StringRoundTrip(n: Bytes, rest: Bytes)
    requires NUL !in n
    ensures ReadString(CString(n) + rest) == Some((n, rest))
  {
    if n == [] {
      assert CString(n) + rest == [NUL] + rest;
    } else {
      assert (CString(n) + rest)[1..] == CString(n[1..]) + rest;
      StringRoundTrip(n[1..], rest);
      assert [n[0]] + n[1..] == n;
    }
  }

  lemma NumbersRoundTrip(x: File, rest: Bytes)
    requires x.size < ULONG_LIMIT && -LONG_LIMIT <= x.mtime < LONG_LIMIT
    ensures ReadNumbers(CString(Numbers(x)) + rest) == Some(((x.size, x.mtime, x.isFolder), rest))
  {
    var flag := if x.isFolder then 1 else 0;
    var end := [NUL] + rest;
    var s3 := [SPACE] + (Print(flag) + end);
    var s2 := [SPACE] + (Print(x.mtime) + s3);
    NumbersShape(AsSigned(x.size), x.mtime, flag, rest);
    ScanPrinted(AsSigned(x.size), s2);
    ScanSpaced(x.mtime, s3);
    ScanSpaced(flag, end);
    UlongRoundTrip(x.size);
    ReadThree(CString(Numbers(x)) + rest, AsSigned(x.size), s2, x.mtime, s3, flag, end);
  }

  lemma NumbersShape(a: int, b: int, c: int, rest: Bytes)
    ensures Print(a) + ([SPACE] + (Print(b) + ([SPACE] + Print(c)))) + [NUL] + rest
         == Print(a) + ([SPACE] + (Print(b) + ([SPACE] + (Print(c) + ([NUL] + rest)))))
  {
    var x, y, z, end := Print(a), Print(b), Print(c), [NUL] + rest;
    Associate(x + ([SPACE] + (y + ([SPACE] + z))), [NUL], rest);
    Associate(x, [SPACE] + (y + ([SPACE] + z)), end);
    Associate([SPACE], y + ([SPACE] + z), end);
    Associate(y, [SPACE] + z, end);
    Associate([SPACE], z, end);
  }

  lemma ReadThree(s: Bytes, a: int, s1: Bytes, b: int, s2: Bytes, c: int, s3: Bytes)
    requires ScanNumber(s) == Some((a, s1)) && ScanNumber(s1) == Some((b, s2)) && ScanNumber(s2) == Some((c, s3))
    requires s3 != []
    ensures ReadNumbers(s) == Some(((ToUlong(a), ToLong(b), ToInt(ToLong(c)) != 0), s3[1..]))
  {
  }

  lemma FileRoundTrip(x: File, rest: Bytes)
    requires NUL !in x.name && x.size < ULONG_LIMIT && -LONG_LIMIT <= x.mtime < LONG_LIMIT
    ensures (WriteFile(x) + rest)[0] == FILE_MARKER
    ensures ReadFile((WriteFile(x) + rest)[1..]) == Some((x, rest))
  {
    FileShape(x, rest);
    StringRoundTrip(x.name, CString(Numbers(x)) + rest);
    NumbersRoundTrip(x, rest);
  }

  lemma FileShape(x: File, rest: Bytes)
    ensures (WriteFile(x) + rest)[0] == FILE_MARKER
    ensures (WriteFile(x) + rest)[1..] == CString(x.name) + (CString(Numbers(x)) + rest)
  {
    var a, b := CString(x.name), CString(Numbers(x));
    Associate([FILE_MARKER], a, b);
    Associate([FILE_MARKER], a + b, rest);
    Associate(a, b, rest);
  }

  ghost predicate EncodableFile(x: File) {
    NUL !in x.name && x.size < ULONG_LIMIT && -LONG_LIMIT <= x.mtime < LONG_LIMIT
  }

  lemma FileItem(name: Bytes, xs: seq<File>, fs: seq<Folder>, y: File, tail: Bytes)
    requires EncodableFile(y)
    ensures ReadItems(name, xs, fs, WriteFile(y) + tail) == ReadItems(name, xs + [y], fs, tail)
  {
    FileRoundTrip(y, tail);
    ItemsStep(name, xs, fs, WriteFile(y) + tail);
  }

  lemma {:induction false} FilesRoundTrip(name: Bytes, xs: seq<File>, ys: seq<File>, rest: Bytes)
    requires forall y :: y in ys ==> EncodableFile(y)
    ensures ReadItems(name, xs, [], WriteFiles(ys) + rest) == ReadItems(name, xs + ys, [], rest)
    decreases |ys|
  {
    if ys == [] {
      NothingAdded(rest, xs);
    } else {
      Associate(WriteFile(ys[0]), WriteFiles(ys[1..]), rest);
      FileItem(name, xs, [], ys[0], WriteFiles(ys[1..]) + rest);
      FilesRoundTrip(name, xs + [ys[0]], ys[1..], rest);
      Regroup(xs, ys);
    }
  }

  // Reading back what was written gives the same tree, queues in the same order, and stops at the
  // first byte after it, whatever follows.
  lemma {:induction false} FolderRoundTrip(t: Folder, rest: Bytes)
    requires Encodable(t)
    ensures ReadFolder(Body(t) + rest) == Some((t, rest))
    decreases t, 1
  {
    var end := [FOLDER_END] + rest;
    var s2 := WriteAll(t.folders) + end;
    var s1 := WriteFiles(t.files) + s2;
    BodyShape(t, rest);
    StringRoundTrip(t.name, s1);
    FilesRoundTrip(t.name, [], t.files, s2);
    assert [] + t.files == t.files;
    FoldersRoundTrip(t.name, t.files, [], t.folders, end);
    assert [] + t.folders == t.folders;
    assert end[1..] == rest;
    FolderRead(t, CString(t.name) + s1, s1, end, rest);
  }

  lemma BodyShape(t: Folder, rest: Bytes)
    ensures Body(t) + rest
         == CString(t.name) + (WriteFiles(t.files) + (WriteAll(t.folders) + ([FOLDER_END] + rest)))
  {
    var a, b, c := CString(t.name), WriteFiles(t.files), WriteAll(t.folders);
    Associate(a, b + (c + [FOLDER_END]), rest);
    Associate(b, c + [FOLDER_END], rest);
    Associate(c, [FOLDER_END], rest);
  }

  lemma FolderRead(t: Folder, s: Bytes, s1: Bytes, end: Bytes, rest: Bytes)
    requires ReadString(s) == Some((t.name, s1))
    requires ReadItems(t.name, [], [], s1) == ReadItems(t.name, t.files, t.folders, end)
    requires end != [] && end[0] == FOLDER_END && end[1..] == rest
    ensures ReadFolder(s) == Some((t, rest))
  {
    FolderEnds(t, end, rest);
  }

  lemma FolderEnds(t: Folder, end: Bytes, rest: Bytes)
    requires end != [] && end[0] == FOLDER_END && end[1..] == rest
    ensures ReadItems(t.name, t.files, t.folders, end) == Some((t, rest))
  {
  }

  lemma {:induction false} FoldersRoundTrip(name: Bytes, xs: seq<File>, gs: seq<Folder>, fs: seq<Folder>, rest: Bytes)
    requires forall c :: c in fs ==> Encodable(c)
    ensures ReadItems(name, xs, gs, WriteAll(fs) + rest) == ReadItems(name, xs, gs + fs, rest)
    decreases fs, 0
  {
    if fs == [] {
      NothingAdded(rest, gs);
    } else {
      var tail := WriteAll(fs[1..]) + rest;
      FolderRoundTrip(fs[0], tail);
      Associate(Write(fs[0]), WriteAll(fs[1..]), rest);
      FolderItem(name, xs, gs, fs[0], tail);
      FoldersRoundTrip(name, xs, gs + [fs[0]], fs[1..], rest);
      Regroup(gs, fs);
    }
  }

  lemma FolderItem(name: Bytes, xs: seq<File>, gs: seq<Folder>, c: Folder, tail: Bytes)
    requires ReadFolder(Body(c) + tail) == Some((c, tail))
    ensures ReadItems(name, xs, gs, Write(c) + tail) == ReadItems(name, xs, gs + [c], tail)
  {
    TreeShape(c, tail);
    ItemsStep(name, xs, gs, Write(c) + tail);
  }

  lemma DeserializeOf(data: Bytes, t: Folder, rest: Bytes)
    requires data != [] && ReadFolder(data[1..]) == Some((t, rest))
    ensures Deserialize(data) == Some((t, |data| - |rest|))
  {
  }

  lemma TreeShape(t: Folder, trailing: Bytes)
    ensures var data := Write(t) + trailing;
      data != [] && data[0] == FOLDER_START && data[1..] == Body(t) + trailing && |data| == |Write(t)| + |trailing|
  {
    Associate([FOLDER_START], Body(t), trailing);
  }

  // filesystem_deserialize inverts filesystem_serialize in front of any trailing bytes and reports
  // exactly the serialized length.
  lemma TreeRoundTrip(t: Folder, trailing: Bytes)
    requires Encodable(t)
    ensures Deserialize(Write(t) + trailing) == Some((t, |Write(t)|))
  {
    TreeShape(t, trailing);
    FolderRoundTrip(t, trailing);
    DeserializeOf(Write(t) + trailing, t, trailing);
  }

  // ---------------------------------------------------------------- the loops of the source

  lemma {:induction false} WriteFilesSnoc(xs: seq<File>, x: File)
    ensures WriteFiles(xs + [x]) == WriteFiles(xs) + WriteFile(x)
  {
    if xs == [] {
      assert xs + [x] == [x];
    } else {
      assert (xs + [x])[1..] == xs[1..] + [x];
      WriteFilesSnoc(xs[1..], x);
    }
  }

  lemma {:induction false} WriteAllSnoc(fs: seq<Folder>, c: Folder)
    ensures WriteAll(fs + [c]) == WriteAll(fs) + Write(c)
    decreases |fs|
  {
    if fs == [] {
      assert fs + [c] == [c];
    } else {
      assert (fs + [c])[1..] == fs[1..] + [c];
      WriteAllSnoc(fs[1..], c);
    }
  }

  lemma WrittenFile(front: Bytes, xs: seq<File>, x: File)
    ensures front + WriteFiles(xs) + [FILE_MARKER] + CString(x.name) + CString(Numbers(x))
         == front + WriteFiles(xs + [x])
  {
    WriteFilesSnoc(xs, x);
    var out := front + WriteFiles(xs);
    Associate(out, [FILE_MARKER], CString(x.name));
    Associate(out, [FILE_MARKER] + CString(x.name), CString(Numbers(x)));
    Associate(front, WriteFiles(xs), WriteFile(x));
  }

  lemma WrittenFolder(front: Bytes, t: Folder)
    ensures front + [FOLDER_START] + CString(t.name) + WriteFiles(t.files) + WriteAll(t.folders) + [FOLDER_END]
         == front + Write(t)
  {
    var a, b, c, d := front + [FOLDER_START], CString(t.name), WriteFiles(t.files), WriteAll(t.folders);
    Associate(a + b + c, d, [FOLDER_END]);
    Associate(a + b, c, d + [FOLDER_END]);
    Associate(a, b, c + (d + [FOLDER_END]));
    Associate(front, [FOLDER_START], Body(t));
  }

  method SerializeHelper(folder: Folder, data: Bytes) returns (out: Bytes)
    ensures out == data + Write(folder)
    decreases folder
  {
    ghost var xs, fs := folder.files, folder.folders;
    out := data + [FOLDER_START];
    out := out + CString(folder.name);
    ghost var head := out;
    for i := 0 to |folder.files|
      invariant out == head + WriteFiles(xs[..i])
    {
      var file := folder.files[i];
      OneMore(xs, i);
      WrittenFile(head, xs[..i], file);
      out := out + [FILE_MARKER];
      out := out + CString(file.name);
      out := out + CString(Numbers(file));
    }
    WholeTaken(xs);
    ghost var mid := out;
    for i := 0 to |folder.folders|
      invariant out == mid + WriteAll(fs[..i])
    {
      OneMore(fs, i);
      WriteAllSnoc(fs[..i], fs[i]);
      Associate(mid, WriteAll(fs[..i]), Write(fs[i]));
      out := SerializeHelper(folder.folders[i], out);
    }
    WholeTaken(fs);
    out := out + [FOLDER_END];
    WrittenFolder(data, folder);
  }

  // One turn of the reader's loop.
  lemma ItemsStep(name: Bytes, xs: seq<File>, fs: seq<Folder>, s: Bytes)
    ensures ReadItems(name, xs, fs, s)
         == if s == [] then None
            else if s[0] == FOLDER_START then
              var c := ReadFolder(s[1..]);
              if c.None? then None else ReadItems(name, xs, fs + [c.value.0], c.value.1)
            else if s[0] == FILE_MARKER then
              var x := ReadFile(s[1..]);
              if x.None? then None else ReadItems(name, xs + [x.value.0], fs, x.value.1)
            else if s[0] == FOLDER_END then Some((Folder(name, xs, fs), s[1..]))
            else None
  {
  }

  // The reader moves a cursor through the buffer, here the bytes from the cursor on. `folder` is
  // None where the source stops on its assert or leaves the buffer.
  method DeserializeHelper(data: Bytes) returns (folder: Option<Folder>, rest: Bytes)
    ensures folder.None? ==> ReadFolder(data).None?
    ensures folder.Some? ==> ReadFolder(data) == Some((folder.value, rest))
    decreases |data|
  {
    var name := ReadString(data);
    if name.None? {
      return None, data;
    }
    rest := name.value.1;
    var files, folders := [], [];
    ghost var goal := ReadFolder(data);
    while true
      invariant |rest| < |data|
      invariant goal == ReadItems(name.value.0, files, folders, rest)
      decreases |rest|
    {
      ItemsStep(name.value.0, files, folders, rest);
      if rest == [] {
        return None, rest;
      }
      if rest[0] == FOLDER_START {
        var c, r := DeserializeHelper(rest[1..]);
        if c.None? {
          return None, rest;
        }
        folders, rest := folders + [c.value], r;
      } else if rest[0] == FILE_MARKER {
        var x := ReadFile(rest[1..]);
        if x.None? {
          return None, rest;
        }
        files, rest := files + [x.value.0], x.value.1;
      } else if rest[0] == FOLDER_END {
        return Some(Folder(name.value.0, files, folders)), rest[1..];
      } else {
        return None, rest;
      }
    }
  }

  // ---------------------------------------------------------------- payloads

  // memcpy of an int in the byte order of the machines concerned.
  function IntBytes(v: int): Bytes {
    var u := v % 0x1_0000_0000;
    [(u % 256) as byte, (u / 256 % 256) as byte, (u / 256 / 256 % 256) as byte, (u / 256 / 256 / 256) as byte]
  }

  function BytesInt(s: Bytes): int
    requires |s| >= 4
  {
    ToInt(s[0] as int + 256 * (s[1] as int) + 65536 * (s[2] as int) + 16777216 * (s[3] as int))
  }

  lemma IntRoundTrip(v: int, rest: Bytes)
    requires -INT_LIMIT <= v < INT_LIMIT
    ensures BytesInt(IntBytes(v) + rest) == v
  {
    var u := v % 0x1_0000_0000;
    var a := u / 256;
    var b := a / 256;
    assert u == 256 * a + u % 256 && a == 256 * b + a % 256 && b == 256 * (b / 256) + b % 256;
    var s := IntBytes(v) + rest;
    assert s[0] as int == u % 256 && s[1] as int == a % 256 && s[2] as int == b % 256 && s[3] as int == b / 256;
    ToIntOfResidue(v);
  }

  lemma ToIntOfResidue(v: int)
    requires -INT_LIMIT <= v < INT_LIMIT
    ensures ToInt(v % 0x1_0000_0000) == v
  {
    if v < 0 {
      assert v % 0x1_0000_0000 == v + 0x1_0000_0000;
    }
  }

  // send_updated_files
  function ClientPayload(additions: Folder, deletions: Folder): Bytes {
    Write(additions) + Write(deletions)
  }

  // receive_client_update
  function ReadClientPayload(data: Bytes): Option<(Folder, Folder)> {
    match Deserialize(data)
    case None => None
    case Some((additions, n)) =>
      if n > |data| then None
      else
        match Deserialize(data[n..])
        case None => None
        case Some((deletions, _)) => Some((additions, deletions))
  }

  // send_FS_update
  function TrackerPayload(additions: Folder, deletions: Folder, author: int): Bytes {
    Write(additions) + Write(deletions) + IntBytes(author)
  }

  // recv_diff
  function ReadTrackerPayload(data: Bytes): Option<(Folder, Folder, int)> {
    match Deserialize(data)
    case None => None
    case Some((additions, n)) =>
      if n > |data| then None
      else
        match Deserialize(data[n..])
        case None => None
        case Some((deletions, m)) =>
          if m > |data[n..]| || |data[n..][m..]| < 4 then None
          else Some((additions, deletions, BytesInt(data[n..][m..])))
  }

  // A diff that one client sends through the tracker reaches the others unchanged, with its author.
  lemma DiffRelayed(additions: Folder, deletions: Folder, author: int)
    requires Encodable(additions) && Encodable(deletions) && -INT_LIMIT <= author < INT_LIMIT
    ensures ReadClientPayload(ClientPayload(additions, deletions)) == Some((additions, deletions))
    ensures ReadTrackerPayload(TrackerPayload(additions, deletions, author))
         == Some((additions, deletions, author))
  {
    var a, d := Write(additions), Write(deletions);
    TreeRoundTrip(additions, d);
    TreeRoundTrip(deletions, []);
    assert (a + d)[|a|..] == d + [];
    TreeRoundTrip(additions, d + IntBytes(author));
    TreeRoundTrip(deletions, IntBytes(author));
    var data := TrackerPayload(additions, deletions, author);
    assert data == a + (d + IntBytes(author));
    assert data[|a|..] == d + IntBytes(author);
    assert data[|a|..][|d|..] == IntBytes(author) + [];
    IntRoundTrip(author, []);
  }
}
