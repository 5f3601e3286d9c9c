/**
 Program arguments: `exec` lays them out on the user stack (os/src/task/process.rs) and `_start`
 reads them back (user/src/lib.rs). User memory is an array of bytes indexed by address.
 */
module ExecArgs {
  import opened Bytes

  /** The number little-endian bytes stand for. */
  function Value(s: seq<byte>): nat {
    if s == [] then 0 else s[0] + 256 * Value(s[1..])
  }

  /** The `n` low bytes of `v`, little-endian. */
  function Encode(v: nat, n: nat): (s: seq<byte>)
    ensures |s| == n
  {
    if n == 0 then [] else [v % 256] + Encode(v / 256, n - 1)
  }

  function Power256(n: nat): nat {
    if n == 0 then 1 else 256 * Power256(n - 1)
  }

  lemma {:induction false} ValueOfEncode(v: nat, n: nat)
    requires v < Power256(n)
    ensures Value(Encode(v, n)) == v
  {
    if n > 0 {
      ValueOfEncode(v / 256, n - 1);
      assert Encode(v, n)[1..] == Encode(v / 256, n - 1);
    }
  }

  /** The word stored at `a`, its lowest byte first. */
  function WordAt(m: seq<byte>, a: nat): nat
    requires a + 8 <= |m|
  {
    Value(m[a..a + 8])
  }

  lemma FourBytes(s: seq<byte>)
    requires |s| >= 4
    ensures Value(s) == s[0] as int + 0x100 * s[1] as int + 0x1_0000 * s[2] as int + 0x100_0000 * s[3] as int + 0x1_0000_0000 * Value(s[4..])
  {
    assert s[1..][1..] == s[2..] && s[2..][1..] == s[3..] && s[3..][1..] == s[4..];
    assert Value(s) == s[0] as int + 256 * Value(s[1..]);
    assert Value(s[1..]) == s[1] as int + 256 * Value(s[2..]);
    assert Value(s[2..]) == s[2] as int + 256 * Value(s[3..]);
    assert Value(s[3..]) == s[3] as int + 256 * Value(s[4..]);
  }

  lemma EightBytes(s: seq<byte>)
    requires |s| == 8
    ensures Value(s) == s[0] as int + 0x100 * s[1] as int + 0x1_0000 * s[2] as int + 0x100_0000 * s[3] as int
                      + 0x1_0000_0000 * s[4] as int + 0x100_0000_0000 * s[5] as int + 0x1_0000_0000_0000 * s[6] as int
                      + 0x100_0000_0000_0000 * s[7] as int
  {
    FourBytes(s);
    FourBytes(s[4..]);
  }

  /** Words are stored lowest byte first. */
  lemma WordIs(m: seq<byte>, a: nat)
    requires a + 8 <= |m|
    ensures WordAt(m, a) == m[a] as int + 0x100 * m[a + 1] as int + 0x1_0000 * m[a + 2] as int + 0x100_0000 * m[a + 3] as int
                          + 0x1_0000_0000 * m[a + 4] as int + 0x100_0000_0000 * m[a + 5] as int + 0x1_0000_0000_0000 * m[a + 6] as int
                          + 0x100_0000_0000_0000 * m[a + 7] as int
  {
    EightBytes(m[a..a + 8]);
  }

  lemma {:induction false} ValueDetermines(s: seq<byte>, t: seq<byte>)
    requires |s| == |t| && Value(s) == Value(t)
    ensures s == t
  {
    if s != [] {
      assert s[0] == t[0] && Value(s[1..]) == Value(t[1..]);
      ValueDetermines(s[1..], t[1..]);
      assert s == [s[0]] + s[1..] && t == [t[0]] + t[1..];
    }
  }

  lemma WordExists(v: nat)
    requires v < 0x1_0000_0000_0000_0000
    ensures |Encode(v, 8)| == 8 && Value(Encode(v, 8)) == v
  {
    assert Power256(4) == 0x1_0000_0000;
    assert Power256(8) == 0x1_0000_0000_0000_0000;
    ValueOfEncode(v, 8);
  }

  /** The eight bytes of the word `v`. */
  ghost function WordBytes(v: nat): (s: seq<byte>)
    requires v < 0x1_0000_0000_0000_0000
    ensures |s| == 8 && Value(s) == v
  {
    WordExists(v);
    var s: seq<byte> :| |s| == 8 && Value(s) == v;
    s
  }

  /** Memory with the bytes `s` stored from `a` on. */
  function Put(m: seq<byte>, a: nat, s: seq<byte>): (r: seq<byte>)
    requires a + |s| <= |m|
    ensures |r| == |m|
    decreases |s|
  {
    if s == [] then m else Put(m, a, s[..|s| - 1])[a + |s| - 1 := s[|s| - 1]]
  }

  lemma {:induction false} PutAt(m: seq<byte>, a: nat, s: seq<byte>, i: nat)
    requires a + |s| <= |m| && i < |m|
    ensures Put(m, a, s)[i] == if a <= i < a + |s| then s[i - a] else m[i]
    decreases |s|
  {
    if s != [] {
      PutAt(m, a, s[..|s| - 1], i);
    }
  }

  lemma PutHere(m: seq<byte>, a: nat, s: seq<byte>)
    requires a + |s| <= |m|
    ensures Put(m, a, s)[a..a + |s|] == s
  {
    forall i | 0 <= i < |s| ensures Put(m, a, s)[a + i] == s[i] {
      PutAt(m, a, s, a + i);
    }
  }

  /** A store elsewhere leaves a stretch of memory alone. */
  lemma PutElsewhere(m: seq<byte>, a: nat, s: seq<byte>, b: nat, n: nat)
    requires a + |s| <= |m| && b + n <= |m| && (a + |s| <= b || b + n <= a)
    ensures Put(m, a, s)[b..b + n] == m[b..b + n]
  {
    forall i | b <= i < b + n ensures Put(m, a, s)[i] == m[i] {
      PutAt(m, a, s, i);
    }
  }

  // ---- The layout

  /** The bytes the first `i` arguments take with their terminators. */
  function Room(args: seq<seq<byte>>, i: nat): nat
    requires i <= |args|
  {
    if i == 0 then 0 else Room(args, i - 1) + |args[i - 1]| + 1
  }

  lemma {:induction false} RoomGrows(args: seq<seq<byte>>, i: nat, j: nat)
    requires i <= j <= |args|
    ensures Room(args, i) <= Room(args, j)
    decreases j
  {
    if i < j {
      RoomGrows(args, i, j - 1);
    }
  }

  /** The words of `argv` and the strings fit below `top`, in addresses that fit a word. */
  predicate Fits(args: seq<seq<byte>>, top: nat, size: nat) {
    top <= size < 0x1_0000_0000_0000_0000 && 8 * (|args| + 1) + Room(args, |args|) <= top
  }

  function ArgvBase(args: seq<seq<byte>>, top: nat): nat
    requires 8 * (|args| + 1) <= top
  {
    top - 8 * (|args| + 1)
  }

  /** Where argument `i` lies: below `argv` and all the arguments before it. */
  function AddressOf(args: seq<seq<byte>>, top: nat, i: nat): (a: nat)
    requires i < |args| && 8 * (|args| + 1) + Room(args, |args|) <= top
    ensures a + |args[i]| + 1 + Room(args, i) == ArgvBase(args, top)
  {
    RoomGrows(args, i + 1, |args|);
    ArgvBase(args, top) - Room(args, i + 1)
  }

  /** Memory after argument `i` has been pushed. */
  ghost function PushArg(m: seq<byte>, args: seq<seq<byte>>, top: nat, i: nat): (r: seq<byte>)
    requires Fits(args, top, |m|) && i < |args|
    ensures |r| == |m|
  {
    var a := AddressOf(args, top, i);
    Put(Put(m, ArgvBase(args, top) + 8 * i, WordBytes(a)), a, args[i] + [0])
  }

  /** Memory after `argv` has been closed and the first `i` arguments pushed. */
  ghost function Pushed(m: seq<byte>, args: seq<seq<byte>>, top: nat, i: nat): (r: seq<byte>)
    requires Fits(args, top, |m|) && i <= |args|
    ensures |r| == |m|
  {
    if i == 0 then Put(m, ArgvBase(args, top) + 8 * |args|, WordBytes(0))
    else PushArg(Pushed(m, args, top, i - 1), args, top, i - 1)
  }

  ghost predicate PlacedOpened(q: int) { true }

  /** Argument `j` is where `argv[j]` points, with a terminator after it. */
  ghost predicate Placed(m: seq<byte>, args: seq<seq<byte>>, top: nat, j: nat)
    requires Fits(args, top, |m|) && j < |args|
  {
    forall q :: PlacedOpened(q) ==>
      var a := AddressOf(args, top, j);
      && WordAt(m, ArgvBase(args, top) + 8 * j) == a
      && m[a..a + |args[j]| + 1] == args[j] + [0]
  }

  /** Pushing an argument places it. */
  lemma PushPlaces(m: seq<byte>, args: seq<seq<byte>>, top: nat, i: nat)
    requires Fits(args, top, |m|) && i < |args|
    ensures Placed(PushArg(m, args, top, i), args, top, i)
  {
    var base, a := ArgvBase(args, top), AddressOf(args, top, i);
    var m1 := Put(m, base + 8 * i, WordBytes(a));
    PutHere(m, base + 8 * i, WordBytes(a));
    PutElsewhere(m1, a, args[i] + [0], base + 8 * i, 8);
    PutHere(m1, a, args[i] + [0]);
  }

  /** It touches neither the rest of `argv` nor the strings above it. */
  lemma PushElsewhere(m: seq<byte>, args: seq<seq<byte>>, top: nat, i: nat, b: nat, n: nat)
    requires Fits(args, top, |m|) && i < |args| && b + n <= |m|
    requires var base := ArgvBase(args, top);
             || (base - Room(args, i) <= b && b + n <= base + 8 * i)
             || base + 8 * (i + 1) <= b
             || b + n <= AddressOf(args, top, i)
    ensures PushArg(m, args, top, i)[b..b + n] == m[b..b + n]
  {
    var base, a := ArgvBase(args, top), AddressOf(args, top, i);
    PutElsewhere(m, base + 8 * i, WordBytes(a), b, n);
    PutElsewhere(Put(m, base + 8 * i, WordBytes(a)), a, args[i] + [0], b, n);
  }

  /** And so moves no argument pushed before. */
  lemma PushKeeps(m: seq<byte>, args: seq<seq<byte>>, top: nat, i: nat, j: nat)
    requires Fits(args, top, |m|) && j < i < |args| && Placed(m, args, top, j)
    ensures Placed(PushArg(m, args, top, i), args, top, j)
  {
    assert PlacedOpened(0);
    RoomGrows(args, j + 1, i);
    PushElsewhere(m, args, top, i, ArgvBase(args, top) + 8 * j, 8);
    PushElsewhere(m, args, top, i, AddressOf(args, top, j), |args[j]| + 1);
  }

  lemma {:induction false} AllPlaced(m: seq<byte>, args: seq<seq<byte>>, top: nat, i: nat, j: nat)
    requires Fits(args, top, |m|) && j < i <= |args|
    ensures Placed(Pushed(m, args, top, i), args, top, j)
    decreases i
  {
    if j < i - 1 {
      AllPlaced(m, args, top, i - 1, j);
      PushKeeps(Pushed(m, args, top, i - 1), args, top, i - 1, j);
    } else {
      PushPlaces(Pushed(m, args, top, i - 1), args, top, i - 1);
    }
  }

  /** Each string ends where the one before it begins, the first where `argv` does. */
  lemma StringsMeet(args: seq<seq<byte>>, top: nat, i: nat)
    requires i < |args| && 8 * (|args| + 1) + Room(args, |args|) <= top
    ensures AddressOf(args, top, i) + |args[i]| + 1 == if i == 0 then top - 8 * (|args| + 1) else AddressOf(args, top, i - 1)
  {
    RoomGrows(args, i, |args|);
  }

  /** The strings lie one below the other, all of them below `argv`, and none reaches into the next. */
  lemma StringsApart(args: seq<seq<byte>>, top: nat, i: nat, j: nat)
    requires i < |args| && j < |args| && 8 * (|args| + 1) + Room(args, |args|) <= top
    ensures AddressOf(args, top, i) + |args[i]| + 1 <= ArgvBase(args, top) < ArgvBase(args, top) + 8 * (|args| + 1) == top
    ensures i < j ==> AddressOf(args, top, j) + |args[j]| + 1 <= AddressOf(args, top, i)
  {
    if i < j {
      RoomGrows(args, i + 1, j);
    }
  }

  lemma ArgvOpened(m: seq<byte>, args: seq<seq<byte>>, top: nat)
    requires Fits(args, top, |m|)
    ensures WordAt(Pushed(m, args, top, 0), ArgvBase(args, top) + 8 * |args|) == 0
  {
    PutHere(m, ArgvBase(args, top) + 8 * |args|, WordBytes(0));
  }

  lemma PushKeepsEnd(m: seq<byte>, args: seq<seq<byte>>, top: nat, i: nat)
    requires Fits(args, top, |m|) && i < |args|
    ensures WordAt(PushArg(m, args, top, i), ArgvBase(args, top) + 8 * |args|) == WordAt(m, ArgvBase(args, top) + 8 * |args|)
  {
    PushElsewhere(m, args, top, i, ArgvBase(args, top) + 8 * |args|, 8);
  }

  /** `argv` ends with a null pointer. */
  lemma {:induction false} ArgvClosed(m: seq<byte>, args: seq<seq<byte>>, top: nat, i: nat)
    requires Fits(args, top, |m|) && i <= |args|
    ensures WordAt(Pushed(m, args, top, i), ArgvBase(args, top) + 8 * |args|) == 0
  {
    if i == 0 {
      ArgvOpened(m, args, top);
    } else {
      ArgvClosed(m, args, top, i - 1);
      PushKeepsEnd(Pushed(m, args, top, i - 1), args, top, i - 1);
    }
  }

  /** The `n` bytes from `b` on. */
  function Stretch(m: seq<byte>, b: nat, n: nat): seq<byte>
    requires b + n <= |m|
  {
    m[b..b + n]
  }

  lemma OpenElsewhere(m: seq<byte>, args: seq<seq<byte>>, top: nat, b: nat, n: nat)
    requires Fits(args, top, |m|) && b + n <= |m| && (b + n <= ArgvBase(args, top) || top <= b)
    ensures Stretch(Pushed(m, args, top, 0), b, n) == Stretch(m, b, n)
  {
    PutElsewhere(m, ArgvBase(args, top) + 8 * |args|, WordBytes(0), b, n);
  }

  lemma PushKeepsRest(m: seq<byte>, args: seq<seq<byte>>, top: nat, i: nat, b: nat, n: nat)
    requires Fits(args, top, |m|) && i < |args| && b + n <= |m|
    requires b + n + Room(args, i + 1) <= ArgvBase(args, top) || top <= b
    ensures Stretch(PushArg(m, args, top, i), b, n) == Stretch(m, b, n)
  {
    PushElsewhere(m, args, top, i, b, n);
  }

  /** Nothing below the last string or from `top` on is written. */
  lemma {:induction false} RestUntouched(m: seq<byte>, args: seq<seq<byte>>, top: nat, i: nat, b: nat, n: nat)
    requires Fits(args, top, |m|) && i <= |args| && b + n <= |m|
    requires b + n + Room(args, i) <= ArgvBase(args, top) || top <= b
    ensures Stretch(Pushed(m, args, top, i), b, n) == Stretch(m, b, n)
  {
    if i == 0 {
      OpenElsewhere(m, args, top, b, n);
    } else {
      RestUntouched(m, args, top, i - 1, b, n);
      PushKeepsRest(Pushed(m, args, top, i - 1), args, top, i - 1, b, n);
    }
  }

  // ---- Reading them back

  /** The bytes from the start of `s` up to its first zero byte, or all of them. */
  function UpToNul(s: seq<byte>): seq<byte> {
    if s == [] || s[0] == 0 then [] else [s[0]] + UpToNul(s[1..])
  }

  /** The string at address `a`. */
  function StringAt(m: seq<byte>, a: nat): seq<byte>
    decreases |m| - a
  {
    if a >= |m| || m[a] == 0 then [] else [m[a]] + StringAt(m, a + 1)
  }

  lemma {:induction false} StringAtIs(m: seq<byte>, a: nat, s: seq<byte>)
    requires a + |s| + 1 <= |m| && m[a..a + |s| + 1] == s + [0]
    ensures StringAt(m, a) == UpToNul(s)
    decreases |s|
  {
    assert m[a] == m[a..a + |s| + 1][0] == (s + [0])[0];
    if s != [] && s[0] != 0 {
      assert m[a + 1..a + 1 + |s[1..]| + 1] == m[a..a + |s| + 1][1..] == s[1..] + [0];
      StringAtIs(m, a + 1, s[1..]);
    }
  }

  lemma {:induction false} UpToNulWhole(s: seq<byte>)
    ensures UpToNul(s) == s <==> 0 !in s
    ensures UpToNul(s) <= s && 0 !in UpToNul(s) && (|UpToNul(s)| < |s| ==> s[|UpToNul(s)|] == 0)
  {
    if s != [] && s[0] != 0 {
      UpToNulWhole(s[1..]);
      assert s == [s[0]] + s[1..];
    }
  }

  /** `argv[i]`. */
  function ArgWord(m: seq<byte>, argv: nat, i: nat): nat
    requires argv + 8 * (i + 1) <= |m|
  {
    WordAt(m, argv + 8 * i)
  }

  lemma ReadsBack(m: seq<byte>, args: seq<seq<byte>>, top: nat, j: nat)
    requires Fits(args, top, |m|) && j < |args| && Placed(m, args, top, j)
    ensures StringAt(m, ArgWord(m, ArgvBase(args, top), j)) == UpToNul(args[j])
  {
    assert PlacedOpened(0);
    StringAtIs(m, AddressOf(args, top, j), args[j]);
  }

  /** The program finds each argument cut at its first zero byte: whole exactly when there is none. */
  lemma ArgumentArrives(m: seq<byte>, args: seq<seq<byte>>, top: nat, i: nat)
    requires Fits(args, top, |m|) && i < |args|
    ensures var r := Pushed(m, args, top, |args|); var v := StringAt(r, ArgWord(r, ArgvBase(args, top), i));
            v == UpToNul(args[i]) && (v == args[i] <==> 0 !in args[i])
  {
    AllPlaced(m, args, top, |args|, i);
    ReadsBack(Pushed(m, args, top, |args|), args, top, i);
    UpToNulWhole(args[i]);
  }

  // ---- The code

  /** Stores a word at an address of user memory. */
  method StoreWord(mem: array<byte>, a: nat, v: nat)
    requires a + 8 <= mem.Length && v < 0x1_0000_0000_0000_0000
    modifies mem
    ensures mem[..] == Put(old(mem[..]), a, WordBytes(v)) && WordAt(mem[..], a) == v
  {
    WordExists(v);
    PutHere(mem[..], a, WordBytes(v));
    var s := Encode(v, 8);
    ValueDetermines(s, WordBytes(v));
    StoreBytes(mem, a, s);
  }

  method StoreBytes(mem: array<byte>, a: nat, s: seq<byte>)
    requires a + |s| <= mem.Length
    modifies mem
    ensures mem[..] == Put(old(mem[..]), a, s)
  {
    var i := 0;
    while i < |s|
      invariant 0 <= i <= |s|
      invariant mem[..] == Put(old(mem[..]), a, s[..i])
    {
      mem[a + i] := s[i];
      assert s[..i + 1][..i] == s[..i];
      i := i + 1;
    }
    assert s[..i] == s;
  }

  /** Pushes argument `i` below the ones before it. */
  method PushArgument(mem: array<byte>, top: nat, args: seq<seq<byte>>, i: nat, argv: nat, sp: nat) returns (sp': nat)
    requires Fits(args, top, mem.Length) && i < |args| && argv == ArgvBase(args, top) && sp + Room(args, i) == argv
    modifies mem
    ensures sp' == AddressOf(args, top, i) && mem[..] == PushArg(old(mem[..]), args, top, i)
  {
    ghost var a := AddressOf(args, top, i);
    sp' := sp - (|args[i]| + 1);
    StoreWord(mem, argv + i * 8, sp');
    StoreBytes(mem, sp', args[i] + [0]);
  }

  /** Pushes all the strings, each with its word in `argv`. */
  method PushStrings(mem: array<byte>, top: nat, args: seq<seq<byte>>, argv: nat, ghost before: seq<byte>) returns (sp: nat)
    requires Fits(args, top, mem.Length) && argv == ArgvBase(args, top) && |before| == mem.Length && mem[..] == Pushed(before, args, top, 0)
    modifies mem
    ensures mem[..] == Pushed(before, args, top, |args|) && sp + Room(args, |args|) == argv
  {
    sp := argv;
    var i := 0;
    while i < |args|
      invariant 0 <= i <= |args| && sp + Room(args, i) == argv
      invariant mem[..] == Pushed(before, args, top, i)
    {
      sp := PushArgument(mem, top, args, i, argv, sp);
      i := i + 1;
    }
  }

  /**
   The part of `exec` that pushes the arguments below `top`; returns `argv` and the stack pointer,
   the highest aligned address that is not above the last string.
   */
  method PushArguments(mem: array<byte>, top: nat, args: seq<seq<byte>>) returns (argv: nat, sp: nat)
    requires Fits(args, top, mem.Length)
    modifies mem
    ensures argv == ArgvBase(args, top) && mem[..] == Pushed(old(mem[..]), args, top, |args|)
    ensures argv + 8 * (|args| + 1) == top
    ensures sp % 8 == 0 && sp + Room(args, |args|) <= argv < sp + Room(args, |args|) + 8
    ensures sp <= (if args == [] then argv else AddressOf(args, top, |args| - 1)) < sp + 8
  {
    argv := top - (|args| + 1) * 8;
    ghost var before := mem[..];
    StoreWord(mem, argv + |args| * 8, 0);
    sp := PushStrings(mem, top, args, argv, before);
    sp := sp - sp % 8;
  }

  /** A string that can be read: a zero byte comes before the memory ends. */
  ghost predicate Terminated(m: seq<byte>, a: nat) {
    exists k :: a <= k < |m| && m[k] == 0
  }

  lemma StringStep(m: seq<byte>, a: nat)
    requires Terminated(m, a)
    ensures a < |m| && if m[a] == 0 then StringAt(m, a) == [] else Terminated(m, a + 1) && StringAt(m, a) == [m[a]] + StringAt(m, a + 1)
  {
  }

  /** The search for the terminator in `_start`. */
  method ReadString(m: seq<byte>, start: nat) returns (s: seq<byte>)
    requires Terminated(m, start)
    ensures s == StringAt(m, start)
  {
    var len := 0;
    s := [];
    StringStep(m, start);
    while m[start + len] != 0
      invariant Terminated(m, start + len) && start + len < |m|
      invariant StringAt(m, start) == s + StringAt(m, start + len)
      decreases |m| - len
    {
      StringStep(m, start + len);
      s := s + [m[start + len]];
      len := len + 1;
      StringStep(m, start + len);
    }
    StringStep(m, start + len);
  }

  /** The loop of `_start` that collects the arguments. */
  method ReadArguments(m: seq<byte>, argc: nat, argv: nat) returns (v: seq<seq<byte>>)
    requires argv + 8 * argc <= |m|
    requires forall i :: 0 <= i < argc ==> Terminated(m, ArgWord(m, argv, i))
    ensures |v| == argc && forall i :: 0 <= i < argc ==> v[i] == StringAt(m, ArgWord(m, argv, i))
  {
    v := [];
    var i := 0;
    while i < argc
      invariant 0 <= i <= argc && |v| == i && forall k :: 0 <= k < i ==> v[k] == StringAt(m, ArgWord(m, argv, k))
    {
      var start := ArgWord(m, argv, i);
      var s := ReadString(m, start);
      v := v + [s];
      i := i + 1;
    }
  }

  /** After `exec` has pushed the arguments, `_start` finds a terminator for each. */
  lemma AllTerminated(m: seq<byte>, args: seq<seq<byte>>, top: nat, i: nat)
    requires Fits(args, top, |m|) && i < |args|
    ensures var r := Pushed(m, args, top, |args|); Terminated(r, ArgWord(r, ArgvBase(args, top), i))
  {
    AllPlaced(m, args, top, |args|, i);
    assert PlacedOpened(0);
    var r, a := Pushed(m, args, top, |args|), AddressOf(args, top, i);
    assert r[a + |args[i]|] == r[a..a + |args[i]| + 1][|args[i]|] == 0;
  }

  /** `exec` followed by `_start`. */
  method ExecThenStart(mem: array<byte>, top: nat, args: seq<seq<byte>>) returns (v: seq<seq<byte>>)
    requires Fits(args, top, mem.Length)
    modifies mem
    ensures |v| == |args| && forall i :: 0 <= i < |args| ==> v[i] == UpToNul(args[i])
    ensures v == args <==> forall i :: 0 <= i < |args| ==> 0 !in args[i]
  {
    ghost var before := mem[..];
    var argv, sp := PushArguments(mem, top, args);
    forall i | 0 <= i < |args|
      ensures Terminated(mem[..], ArgWord(mem[..], argv, i))
      ensures StringAt(mem[..], ArgWord(mem[..], argv, i)) == UpToNul(args[i])
      ensures UpToNul(args[i]) == args[i] <==> 0 !in args[i]
    {
      AllTerminated(before, args, top, i);
      ArgumentArrives(before, args, top, i);
    }
    v := ReadArguments(mem[..], |args|, argv);
  }
}
