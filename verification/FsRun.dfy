/**
 Whole runs of the file system: for every sequence of operations from a freshly formatted
 device, with the device closed and reopened anywhere in between, the answers are those of a
 map from names to byte sequences.
 */
module FsRun {
  import opened Basics
  import opened Bytes
  import opened InodeIndex
  import opened FileContent
  import opened Directory
  import opened EfsLayout
  import opened DiskFormat
  import opened EfsState
  import opened EfsAlloc
  import opened Vfs

  /** The simple file system: the names in creation order and the contents of each file. */
  datatype SimpleFs = SimpleFs(names: seq<Name>, data: map<Name, seq<byte>>)

  datatype Op =
    | Create(name: Name)
    | Write(name: Name, offset: nat, buf: seq<byte>)
    | Read(name: Name, offset: nat, len: nat)
    | Clear(name: Name)
    | List
    | Remount

  datatype Answer = Done | Exists | NotFound | Written(n: nat) | Bytes(data: seq<byte>) | Names(names: seq<Name>)

  function Step(s: SimpleFs, op: Op): (SimpleFs, Answer)
  {
    match op
    case Create(name) =>
      if name in s.names then (s, Exists) else (SimpleFs(s.names + [name], s.data[name := []]), Done)
    case Write(name, offset, buf) =>
      if name in s.data then (s.(data := s.data[name := Overwrite(s.data[name], offset, buf)]), Written(|buf|)) else (s, NotFound)
    case Read(name, offset, len) =>
      (s, if name in s.data then Bytes(Slice(s.data[name], offset, len)) else NotFound)
    case Clear(name) =>
      if name in s.data then (s.(data := s.data[name := []]), Done) else (s, NotFound)
    case List => (s, Names(s.names))
    case Remount => (s, Done)
  }

  ghost function Run(s: SimpleFs, ops: seq<Op>): (r: (SimpleFs, seq<Answer>))
    ensures |r.1| == |ops|
  {
    if ops == [] then (s, [])
    else
      var (s1, answers) := Run(s, ops[..|ops| - 1]);
      var (s2, a) := Step(s1, ops[|ops| - 1]);
      (s2, answers + [a])
  }

  /** What operations do to the names: creation of a new one appends it, and nothing else changes the list. */
  lemma NamesAfter(s: SimpleFs, op: Op)
    ensures Step(s, op).0.names == if op.Create? && op.name !in s.names then s.names + [op.name] else s.names
    ensures Step(s, List).1 == Names(s.names)
    ensures op.Create? ==> Step(s, op).1 == if op.name in s.names then Exists else Done
  {
  }

  /** What they do to the files: only the file named is touched, and only if it exists; a new one and a cleared one are empty. */
  lemma FilesAfter(s: SimpleFs, op: Op, name: Name)
    requires forall n :: n in s.data <==> n in s.names
    ensures var s' := Step(s, op).0; forall n :: n in s'.data <==> n in s'.names
    ensures name in s.data && ((op.Write? || op.Clear?) ==> op.name != name) ==>
              name in Step(s, op).0.data && Step(s, op).0.data[name] == s.data[name]
    ensures op.Create? && op.name !in s.names ==> op.name in Step(s, op).0.data && |Step(s, op).0.data[op.name]| == 0
    ensures op.Clear? && op.name in s.data ==> op.name in Step(s, op).0.data && |Step(s, op).0.data[op.name]| == 0
    ensures op.Write? || op.Read? || op.Clear? ==> (Step(s, op).1 == NotFound <==> op.name !in s.data)
  {
  }

  /** A read delivers what is there of the range asked for. */
  lemma ReadAnswers(s: SimpleFs, name: Name, offset: nat, len: nat)
    requires name in s.data
    ensures var f, a := s.data[name], Step(s, Read(name, offset, len)).1;
            && Step(s, Read(name, offset, len)).0 == s && a.Bytes?
            && |a.data| == (if offset >= |f| then 0 else Min(len, |f| - offset))
            && forall k :: 0 <= k < |a.data| ==> a.data[k] == f[offset + k]
  {
  }

  /** After a clear, or right after its creation, a file reads as empty. */
  lemma EmptiedReadsEmpty(s: SimpleFs, op: Op, offset: nat, len: nat)
    requires (op.Clear? && op.name in s.data) || (op.Create? && op.name !in s.names)
    ensures Step(Step(s, op).0, Read(op.name, offset, len)).1 == Bytes([])
  {
  }

  /** The operation does not create, change or empty the file. */
  predicate Spares(op: Op, name: Name) {
    op.Create? || op.Write? || op.Clear? ==> op.name != name
  }

  lemma {:induction false} StillThere(s: SimpleFs, name: Name, offset: nat, buf: seq<byte>, ops: seq<Op>)
    requires name in s.data && forall k :: 0 <= k < |ops| ==> Spares(ops[k], name)
    ensures var s' := Run(s, [Write(name, offset, buf)] + ops).0;
            name in s'.data && s'.data[name] == Overwrite(s.data[name], offset, buf)
    decreases |ops|
  {
    var all := [Write(name, offset, buf)] + ops;
    if ops == [] {
      assert all[..0] == [] && all[0] == Write(name, offset, buf);
    } else {
      var n := |ops| - 1;
      StillThere(s, name, offset, buf, ops[..n]);
      assert all[..n + 1] == [Write(name, offset, buf)] + ops[..n] && all[n + 1] == ops[n];
    }
  }

  /** What is written is read back, whatever happens to other files in between and however often the device is reopened. */
  lemma WriteThenRead(s: SimpleFs, name: Name, offset: nat, buf: seq<byte>, ops: seq<Op>)
    requires name in s.data && forall k :: 0 <= k < |ops| ==> Spares(ops[k], name)
    ensures var answers := Run(s, [Write(name, offset, buf)] + ops + [Read(name, offset, |buf|)]).1;
            answers[|ops| + 1] == Bytes(buf)
  {
    var all := [Write(name, offset, buf)] + ops + [Read(name, offset, |buf|)];
    StillThere(s, name, offset, buf, ops);
    SliceOfOverwrite(s.data[name], offset, buf);
    assert all[..|ops| + 1] == [Write(name, offset, buf)] + ops;
  }

  ghost predicate Coherent(s: SimpleFs) {
    NamesOk(s.names) && s.data.Keys == set name | name in s.names
  }

  /** The list of files, the directory first. */
  ghost function FilesOf(s: SimpleFs): (f: seq<seq<byte>>)
    requires Coherent(s)
    ensures |f| == |s.names| + 1
  {
    [DirBytes(s.names)] + seq(|s.names|, j requires 0 <= j < |s.names| => s.data[s.names[j]])
  }

  /** The files fit on the device. */
  ghost predicate Fits(s: SimpleFs, l: Layout) {
    && Coherent(s) && |s.names| < l.Inodes() && 32 * |s.names| <= MAX_SIZE
    && (forall name :: name in s.data ==> |s.data[name]| <= MAX_SIZE)
    && BlocksOf(FilesOf(s)) <= l.dataAreaBlocks
  }

  /** The operation does not run into one of the panics of the source: space, illegal names, a lookup off the device. */
  ghost predicate Possible(s: SimpleFs, op: Op, l: Layout) {
    forall k :: PossibleOpened(k) ==>
      && Fits(Step(s, op).0, l)
      && (op.Create? ==> ValidName(op.name))
      && (op.Write? && op.name in s.data ==> Lands(|s.data[op.name]|, op.offset, |op.buf|))
  }

  ghost predicate PossibleOpened(k: int) { true }

  ghost predicate AllPossible(s: SimpleFs, ops: seq<Op>, l: Layout) {
    forall k :: 0 <= k < |ops| ==> Possible(Run(s, ops[..k]).0, ops[k], l)
  }

  ghost predicate HoldsOpened(k: int) { true }

  /** `fs` holds exactly the files of `s`. */
  ghost predicate Holds(fs: EasyFileSystem, s: SimpleFs)
    reads fs, fs.c
  {
    forall k :: HoldsOpened(k) ==>
      fs.DirValid() && fs.c.Synced() && Coherent(s) && fs.names == s.names && fs.files == FilesOf(s)
  }

  lemma FileOfName(s: SimpleFs, name: Name)
    requires Coherent(s) && name in s.data
    ensures name in s.names && FilesOf(s)[IndexOf(s.names, name) + 1] == s.data[name]
  {
  }

  lemma SetFile(s: SimpleFs, name: Name, f: seq<byte>)
    requires Coherent(s) && name in s.data
    ensures var s' := s.(data := s.data[name := f]);
            Coherent(s') && FilesOf(s') == FilesOf(s)[IndexOf(s.names, name) + 1 := f]
  {
    FileOfName(s, name);
    var s' := s.(data := s.data[name := f]);
    var k := IndexOf(s.names, name);
    assert s'.data.Keys == s.data.Keys;
    forall j | 0 <= j <= |s.names| ensures FilesOf(s')[j] == FilesOf(s)[k + 1 := f][j] {
      if 0 < j && j - 1 != k {
        assert s.names[j - 1] != s.names[k];
      }
    }
  }

  lemma AddFile(s: SimpleFs, name: Name)
    requires Coherent(s) && name !in s.names && ValidName(name) && |s.names| + 1 < 0xFFFF_FFFF - 1
    ensures var s' := SimpleFs(s.names + [name], s.data[name := []]);
            Coherent(s') && FilesOf(s') == (FilesOf(s) + [[]])[0 := DirBytes(s'.names)]
  {
    NamesOkAppend(s.names, name);
    var s' := SimpleFs(s.names + [name], s.data[name := []]);
    var f, f' := (FilesOf(s) + [[]])[0 := DirBytes(s'.names)], FilesOf(s');
    forall j | 0 <= j < |f'| ensures f'[j] == f[j] {
      if 0 < j <= |s.names| {
        assert s'.names[j - 1] == s.names[j - 1] != name;
      }
    }
  }

  lemma CreateFits(s: SimpleFs, name: Name, l: Layout)
    requires Coherent(s) && Possible(s, Create(name), l) && name !in s.names
    ensures var s' := Step(s, Create(name)).0;
            Coherent(s') && CanCreate(l, FilesOf(s), s.names, name) && FilesOf(s') == WithFile(FilesOf(s), s'.names)
  {
    assert PossibleOpened(0);
    AddFile(s, name);
  }

  method PerformCreate(fs: EasyFileSystem, name: Name, ghost s: SimpleFs) returns (a: Answer)
    requires Holds(fs, s) && Possible(s, Create(name), fs.l)
    modifies fs, fs.c
    ensures Holds(fs, Step(s, Create(name)).0) && a == Step(s, Create(name)).1
  {
    assert ValidName(name) by { assert PossibleOpened(0); }
    assert HoldsOpened(0);
    if name !in fs.names {
      CreateFits(s, name, fs.l);
    }
    var r := fs.CreateFile(name);
    a := if r.Some? then Done else Exists;
  }

  method PerformWrite(fs: EasyFileSystem, name: Name, offset: nat, buf: seq<byte>, ghost s: SimpleFs) returns (a: Answer)
    requires Holds(fs, s) && Possible(s, Write(name, offset, buf), fs.l)
    modifies fs, fs.c
    ensures Holds(fs, Step(s, Write(name, offset, buf)).0) && a == Step(s, Write(name, offset, buf)).1
  {
    assert PossibleOpened(0);
    assert HoldsOpened(0);
    var ino := fs.Find(name);
    if ino.None? {
      return NotFound;
    }
    FileOfName(s, name);
    SetFile(s, name, Overwrite(s.data[name], offset, buf));
    var n := fs.WriteAt(ino.value, offset, buf, IndexOf(s.names, name) + 1);
    a := Written(n);
  }

  method PerformRead(fs: EasyFileSystem, name: Name, offset: nat, len: nat, ghost s: SimpleFs) returns (a: Answer)
    requires Holds(fs, s)
    modifies fs.c
    ensures Holds(fs, s) && a == Step(s, Read(name, offset, len)).1
  {
    assert HoldsOpened(0);
    var ino := fs.Find(name);
    if ino.None? {
      return NotFound;
    }
    FileOfName(s, name);
    var data := fs.ReadAt(ino.value, offset, len, IndexOf(s.names, name) + 1);
    a := Bytes(data);
  }

  method PerformClear(fs: EasyFileSystem, name: Name, ghost s: SimpleFs) returns (a: Answer)
    requires Holds(fs, s)
    modifies fs, fs.c
    ensures Holds(fs, Step(s, Clear(name)).0) && a == Step(s, Clear(name)).1
  {
    assert HoldsOpened(0);
    var ino := fs.Find(name);
    if ino.None? {
      return NotFound;
    }
    FileOfName(s, name);
    SetFile(s, name, []);
    fs.Clear(ino.value, IndexOf(s.names, name) + 1);
    a := Done;
  }

  method Perform(fs: EasyFileSystem, op: Op, ghost s: SimpleFs) returns (fs': EasyFileSystem, a: Answer)
    requires Holds(fs, s) && Possible(s, op, fs.l)
    modifies fs, fs.c
    ensures Holds(fs', Step(s, op).0) && a == Step(s, op).1 && fs'.l == fs.l
    ensures fs' == fs || (fresh(fs') && fresh(fs'.c))
  {
    fs' := fs;
    match op
    case Create(name) => a := PerformCreate(fs, name, s);
    case Write(name, offset, buf) => a := PerformWrite(fs, name, offset, buf, s);
    case Read(name, offset, len) => a := PerformRead(fs, name, offset, len, s);
    case Clear(name) => a := PerformClear(fs, name, s);
    case List =>
      assert HoldsOpened(0);
      var names := fs.Ls();
      a := Names(names);
    case Remount =>
      fs' := Reopen(fs, s);
      a := Done;
  }

  /** Nothing but the device survives. */
  method Reopen(fs: EasyFileSystem, ghost s: SimpleFs) returns (fs': EasyFileSystem)
    requires Holds(fs, s)
    ensures Holds(fs', s) && fs'.l == fs.l && fresh(fs') && fresh(fs'.c)
  {
    assert HoldsOpened(0);
    fs' := new EasyFileSystem.Open(fs.c.disk, fs.l, fs.owned, fs.files, fs.names);
  }

  lemma AllPossibleBefore(s: SimpleFs, ops: seq<Op>, l: Layout, n: nat)
    requires AllPossible(s, ops, l) && n < |ops|
    ensures AllPossible(s, ops[..n], l) && Possible(Run(s, ops[..n]).0, ops[n], l)
  {
    forall k | 0 <= k < n ensures Possible(Run(s, ops[..n][..k]).0, ops[..n][k], l) {
      assert ops[..n][..k] == ops[..k];
    }
  }

  /** Every run of the file system answers as the simple file system does. */
  method PerformAll(fs0: EasyFileSystem, ops: seq<Op>, ghost s: SimpleFs) returns (fs: EasyFileSystem, answers: seq<Answer>)
    requires Holds(fs0, s) && AllPossible(s, ops, fs0.l)
    modifies fs0, fs0.c
    ensures Holds(fs, Run(s, ops).0) && answers == Run(s, ops).1
    ensures fs.l == fs0.l && (fs == fs0 || (fresh(fs) && fresh(fs.c)))
    decreases |ops|
  {
    if ops == [] {
      return fs0, [];
    }
    var n := |ops| - 1;
    AllPossibleBefore(s, ops, fs0.l, n);
    fs, answers := PerformAll(fs0, ops[..n], s);
    var a;
    fs, a := Perform(fs, ops[n], Run(s, ops[..n]).0);
    answers := answers + [a];
  }

  /**
   What holds of the device: its image is consistent, so no block is shared and the bitmaps mark
   exactly what is in use, and that is as many blocks as the files account for; none is leaked.
   */
  lemma HeldImage(fs: EasyFileSystem, s: SimpleFs)
    requires Holds(fs, s)
    ensures Coherent(s) && fs.names == s.names && Consistent(fs.c.disk, fs.l, fs.owned, FilesOf(s))
    ensures |Used(fs.owned)| == BlocksOf(FilesOf(s))
  {
    assert HoldsOpened(0);
    assert IntactOpened(0);
    BlocksInUse(fs.c.view, fs.l, fs.owned, fs.files);
  }

  ghost predicate OnDeviceOpened(q: int) { true }

  /**
   The files of `s` as a reader of the bytes finds them: inode 0 is the directory, with an entry of
   32 bytes for each name in order, and inode `j + 1` has the contents of file `j`.
   */
  ghost predicate OnDevice(disk: seq<Block>, s: SimpleFs) {
    forall q :: OnDeviceOpened(q) ==>
      && Coherent(s) && RawSize(disk, 0) == 32 * |s.names| <= MAX_SIZE && RawKind(disk, 0) == 1
      && (forall j :: 0 <= j < |s.names| ==> EntryIs(RawEntry(disk, j), s.names[j], j + 1) && FileOnDevice(disk, s, j))
  }

  ghost predicate FileOnDevice(disk: seq<Block>, s: SimpleFs, j: nat)
    requires j < |s.names| && s.names[j] in s.data
  {
    var f := s.data[s.names[j]];
    && RawSize(disk, j + 1) == |f| <= MAX_SIZE && RawKind(disk, j + 1) != 1
    && forall p :: 0 <= p < |f| ==> RawByte(disk, j + 1, p) == f[p]
  }

  lemma FileRead(disk: seq<Block>, l: Layout, owned: seq<seq<nat>>, s: SimpleFs, j: nat)
    requires Coherent(s) && Consistent(disk, l, owned, FilesOf(s)) && j < |s.names|
    ensures s.names[j] in s.data && FileOnDevice(disk, s, j)
  {
    var f := s.data[s.names[j]];
    ReadsFiles(disk, l, owned, FilesOf(s), j + 1, 0);
    forall p | 0 <= p < |f| ensures RawByte(disk, j + 1, p) == f[p] {
      ReadsFiles(disk, l, owned, FilesOf(s), j + 1, p);
    }
  }

  /** What the file system holds is on the device, for anyone to read who knows the format. */
  lemma HeldBytes(disk: seq<Block>, l: Layout, owned: seq<seq<nat>>, s: SimpleFs)
    requires Coherent(s) && Consistent(disk, l, owned, FilesOf(s))
    ensures OnDevice(disk, s)
  {
    ReadsFiles(disk, l, owned, FilesOf(s), 0, 0);
    forall j | 0 <= j < |s.names|
      ensures EntryIs(RawEntry(disk, j), s.names[j], j + 1) && s.names[j] in s.data && FileOnDevice(disk, s, j)
    {
      ReadsDirectory(disk, l, owned, FilesOf(s), s.names, j);
      FileRead(disk, l, owned, s, j);
    }
  }

  /**
   From a fresh device every run answers as the simple file system does, and leaves a device that
   holds exactly its files, byte by byte where the format has them: a consistent image with no block
   shared and none leaked.
   */
  method FreshRun(device: seq<Block>, inodeBitmapBlocks: nat, ops: seq<Op>) returns (fs: EasyFileSystem, answers: seq<Answer>)
    requires |device| < 0x1_0000_0000 && 0 < inodeBitmapBlocks && 1 + 1025 * inodeBitmapBlocks <= |device|
    requires AllPossible(SimpleFs([], map[]), ops, Plan(|device|, inodeBitmapBlocks))
    ensures answers == Run(SimpleFs([], map[]), ops).1
    ensures var s := Run(SimpleFs([], map[]), ops).0;
            && Holds(fs, s) && OnDevice(fs.c.disk, s) && fs.l == Plan(|device|, inodeBitmapBlocks)
            && Coherent(s) && Consistent(fs.c.disk, fs.l, fs.owned, FilesOf(s)) && |Used(fs.owned)| == BlocksOf(FilesOf(s))
  {
    fs := new EasyFileSystem.Create(device, |device|, inodeBitmapBlocks);
    ghost var s := SimpleFs([], map[]);
    assert Coherent(s) && FilesOf(s) == [[]];
    fs, answers := PerformAll(fs, ops, s);
    HeldImage(fs, Run(s, ops).0);
    HeldBytes(fs.c.disk, fs.l, fs.owned, Run(s, ops).0);
  }
}
