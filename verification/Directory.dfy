/**
 The flat root directory (easy-fs/src/vfs.rs and `DirEntry` in layout.rs). Its file is a list of
 32-byte entries: a name padded with zeros to 28 bytes and an inode number.
 */
module Directory {
  import opened Options
  import opened Bytes
  import opened FileContent

  type Name = seq<byte>

  const NAME_LENGTH_LIMIT: nat := 27

  predicate ValidName(s: Name) {
    |s| <= NAME_LENGTH_LIMIT && forall i :: 0 <= i < |s| ==> s[i] != 0
  }

  /** `DirEntry::new(name, ino).as_bytes()`. */
  function Dirent(name: Name, ino: u32): (b: seq<byte>)
    requires |name| <= 28
    ensures |b| == 32
  {
    name + Zeros(28 - |name|) + [ByteOf(ino, 0), ByteOf(ino, 1), ByteOf(ino, 2), ByteOf(ino, 3)]
  }

  function Zeros(n: nat): (z: seq<byte>)
    ensures |z| == n && forall i :: 0 <= i < n ==> z[i] == 0
  {
    seq(n, _ => 0)
  }

  /** Position of the first zero byte from `from` on, or 28. */
  function FirstZero(b: seq<byte>, from: nat): (k: nat)
    requires |b| == 32 && from <= 28
    ensures from <= k <= 28 && (k < 28 ==> b[k] == 0) && forall i :: from <= i < k ==> b[i] != 0
    decreases 28 - from
  {
    if from == 28 || b[from] == 0 then from else FirstZero(b, from + 1)
  }

  /** `DirEntry::name`: the bytes before the first zero; there is no name, and the source panics, when none is zero. */
  function NameOf(b: seq<byte>): Option<Name>
    requires |b| == 32
  {
    var k := FirstZero(b, 0);
    if k == 28 then None else Some(b[..k])
  }

  function InodeNumberOf(b: seq<byte>): u32
    requires |b| == 32
  {
    Join(b[28], b[29], b[30], b[31])
  }

  /** An entry gives back the inode number always, and the name exactly when it is short enough and has no zero byte. */
  lemma DirentRoundTrip(name: Name, ino: u32)
    requires |name| <= 28
    ensures InodeNumberOf(Dirent(name, ino)) == ino
    ensures NameOf(Dirent(name, ino)) == Some(name) <==> ValidName(name)
  {
    JoinByteOf(ino);
    var b := Dirent(name, ino);
    var k := FirstZero(b, 0);
    assert forall i :: 0 <= i < |name| ==> b[i] == name[i];
    assert |name| < 28 ==> b[|name|] == 0;
    if ValidName(name) {
      assert k == |name|;
      assert b[..k] == name;
    } else if k < 28 {
      assert |b[..k]| == k;
    }
  }

  /** The contents of the directory after the files `names` have been created, in this order: file `j` has inode `j + 1`. */
  ghost function DirBytes(names: seq<Name>): (d: seq<byte>)
    requires |names| < 0xFFFF_FFFF && forall j :: 0 <= j < |names| ==> |names[j]| <= 28
    ensures |d| == 32 * |names|
  {
    if names == [] then []
    else
      var n := |names| - 1;
      DirBytes(names[..n]) + Dirent(names[n], n + 1)
  }

  lemma {:induction false} DirentAt(names: seq<Name>, j: nat)
    requires |names| < 0xFFFF_FFFF && (forall j :: 0 <= j < |names| ==> |names[j]| <= 28) && j < |names|
    ensures Slice(DirBytes(names), 32 * j, 32) == Dirent(names[j], j + 1)
  {
    var n := |names| - 1;
    var d := DirBytes(names);
    if j < n {
      DirentAt(names[..n], j);
      assert d[32 * j..32 * j + 32] == DirBytes(names[..n])[32 * j..32 * j + 32];
    } else {
      assert d[32 * j..32 * j + 32] == Dirent(names[n], n + 1);
    }
  }

  lemma DirBytesAppend(names: seq<Name>, name: Name)
    requires |names| + 1 < 0xFFFF_FFFF && (forall j :: 0 <= j < |names| ==> |names[j]| <= 28) && |name| <= 28
    ensures Overwrite(DirBytes(names), 32 * |names|, Dirent(name, |names| + 1)) == DirBytes(names + [name])
  {
    assert (names + [name])[..|names|] == names;
  }

  /** Position of the first occurrence of `name`, or `|names|`. */
  function IndexOf(names: seq<Name>, name: Name): (k: nat)
    ensures k <= |names| && (k < |names| ==> names[k] == name) && forall j :: 0 <= j < k ==> names[j] != name
  {
    if names == [] || names[0] == name then 0 else 1 + IndexOf(names[1..], name)
  }

  ghost predicate Unique(names: seq<Name>) {
    forall i, j :: 0 <= i < j < |names| ==> names[i] != names[j]
  }

  /** Names are legal and unique. */
  ghost predicate NamesOk(names: seq<Name>) {
    |names| < 0xFFFF_FFFF - 1 && (forall j :: 0 <= j < |names| ==> ValidName(names[j])) && Unique(names)
  }

  /** Entry `j` of a directory names file `j` and its inode. */
  lemma EntryOf(names: seq<Name>, j: nat, entry: seq<byte>)
    requires NamesOk(names) && j < |names| && entry == Slice(DirBytes(names), 32 * j, 32)
    ensures |entry| == 32 && NameOf(entry) == Some(names[j]) && InodeNumberOf(entry) == j + 1
  {
    DirentAt(names, j);
    DirentRoundTrip(names[j], j + 1);
  }

  lemma NamesOkAppend(names: seq<Name>, name: Name)
    requires NamesOk(names) && ValidName(name) && name !in names && |names| + 1 < 0xFFFF_FFFF - 1
    ensures NamesOk(names + [name])
  {
  }
}
