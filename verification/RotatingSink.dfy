/** The size-rotating file sink of spdlog, on a file system without errors. */
module RotatingSink {

  /** A file system: the contents of the existing files by name. */
  type Disk = map<string, string>

  function Digit(d: nat): char
    requires d < 10
  {
    "0123456789"[d]
  }

  function Decimal(n: nat): (s: string)
    ensures s != ""
  {
    if n < 10 then [Digit(n)] else Decimal(n / 10) + [Digit(n % 10)]
  }

  function CalcFilename(base: string, index: nat): string {
    if index > 0 then base + "." + Decimal(index) else base
  }

  /** The number that a string of digits stands for. */
  function ValueOf(s: string): int {
    if s == "" then 0 else 10 * ValueOf(s[..|s| - 1]) + (s[|s| - 1] as int - '0' as int)
  }

  /** The digits of n, without leading zeros. */
  predicate Numeral(s: string, n: nat) {
    && s != "" && (forall i :: 0 <= i < |s| ==> '0' <= s[i] <= '9') && (|s| > 1 ==> s[0] != '0')
    && ValueOf(s) == n
  }

  lemma {:induction false} DecimalIsNumeral(n: nat)
    ensures Numeral(Decimal(n), n) && (n > 0 ==> Decimal(n)[0] != '0')
  {
    DigitIs(n % 10);
    if n < 10 {
      assert Decimal(n)[..0] == "";
    } else {
      DecimalIsNumeral(n / 10);
      var s := Decimal(n);
      assert s[..|s| - 1] == Decimal(n / 10);
    }
  }

  lemma DigitIs(d: nat)
    requires d < 10
    ensures '0' <= Digit(d) <= '9' && Digit(d) as int - '0' as int == d
  {
  }

  /** File 0 has the base name; the others have the base name, a dot and their index. */
  lemma FilenameIs(base: string, index: nat)
    ensures CalcFilename(base, 0) == base
    ensures index > 0 ==> exists digits :: CalcFilename(base, index) == base + "." + digits && Numeral(digits, index)
  {
    DecimalIsNumeral(index);
  }

  lemma {:induction false} DecimalInjective(a: nat, b: nat)
    requires Decimal(a) == Decimal(b)
    ensures a == b
    decreases a
  {
    var s, t := Decimal(a), Decimal(b);
    assert s[|s| - 1] == Digit(a % 10) && t[|t| - 1] == Digit(b % 10);
    assert a % 10 == b % 10;
    if a >= 10 && b >= 10 {
      assert s[..|s| - 1] == Decimal(a / 10) && t[..|t| - 1] == Decimal(b / 10);
      DecimalInjective(a / 10, b / 10);
    } else if a >= 10 || b >= 10 {
      assert false;
    }
  }

  /** Different indices name different files. */
  lemma FilenamesDiffer(base: string, i: nat, j: nat)
    requires CalcFilename(base, i) == CalcFilename(base, j)
    ensures i == j
  {
    hide Decimal;
    if i > 0 && j > 0 {
      assert CalcFilename(base, i)[|base| + 1..] == Decimal(i);
      assert CalcFilename(base, j)[|base| + 1..] == Decimal(j);
      DecimalInjective(i, j);
    }
  }

  function Content(disk: Disk, name: string): string {
    if name in disk then disk[name] else ""
  }

  /** The messages of one file after the other. */
  function Flat(messages: seq<string>): string {
    if messages == [] then "" else Flat(messages[..|messages| - 1]) + messages[|messages| - 1]
  }

  /** The messages of all files, oldest file first; file 0 is the newest. */
  function Joined(files: seq<seq<string>>): seq<string> {
    if files == [] then [] else Joined(files[1..]) + files[0]
  }

  /** The messages in the files after one more: appended to file 0, or alone in it when file 0 would
      become too long; then every file moves on by one place and the last one is dropped. */
  function Sunk(files: seq<seq<string>>, maxSize: nat, message: string): seq<seq<string>>
    requires files != []
  {
    if |Flat(files[0])| + |message| > maxSize then [[message]] + files[..|files| - 1]
    else files[0 := files[0] + [message]]
  }

  function SunkAll(files: seq<seq<string>>, maxSize: nat, messages: seq<string>): (r: seq<seq<string>>)
    requires files != []
    ensures |r| == |files|
  {
    if messages == [] then files
    else Sunk(SunkAll(files, maxSize, messages[..|messages| - 1]), maxSize, messages[|messages| - 1])
  }

  ghost predicate Suffix(s: seq<string>, t: seq<string>) {
    |s| <= |t| && s == t[|t| - |s|..]
  }

  lemma {:induction false} JoinedDropsOldest(files: seq<seq<string>>)
    requires files != []
    ensures Joined(files) == files[|files| - 1] + Joined(files[..|files| - 1])
  {
    if |files| > 1 {
      JoinedDropsOldest(files[1..]);
      assert files[1..][..|files| - 2] == files[..|files| - 1][1..];
    }
  }

  lemma SunkJoined(files: seq<seq<string>>, maxSize: nat, message: string)
    requires files != []
    ensures Suffix(Joined(Sunk(files, maxSize, message)), Joined(files) + [message])
    ensures |Flat(files[0])| + |message| <= maxSize ==>
      Joined(Sunk(files, maxSize, message)) == Joined(files) + [message]
  {
    var r := Sunk(files, maxSize, message);
    if |Flat(files[0])| + |message| > maxSize {
      JoinedDropsOldest(files);
      assert r[1..] == files[..|files| - 1];
      var kept := Joined(files[..|files| - 1]);
      assert Joined(files) + [message] == files[|files| - 1] + (kept + [message]);
    } else {
      assert r[1..] == files[1..];
      assert Joined(r) == Joined(files[1..]) + (files[0] + [message]);
    }
  }

  lemma SuffixOfSuffix(a: seq<string>, b: seq<string>, c: seq<string>, m: string)
    requires Suffix(a, b + [m]) && Suffix(b, c)
    ensures Suffix(a, c + [m])
  {
    assert (c + [m])[|c| - |b|..] == b + [m];
  }

  lemma SuffixItself(s: seq<string>)
    ensures Suffix(s, s + [])
  {
    assert s + [] == s;
  }

  /** Over any run the files hold, oldest first, a suffix of what they held at first and all messages
      since: whole messages, none out of order. */
  lemma {:induction false} FilesHoldSuffix(files: seq<seq<string>>, maxSize: nat, messages: seq<string>)
    requires files != []
    ensures Suffix(Joined(SunkAll(files, maxSize, messages)), Joined(files) + messages)
  {
    hide Sunk, Joined, Suffix;
    if messages == [] {
      SuffixItself(Joined(files));
    } else {
      var n := |messages| - 1;
      var r := SunkAll(files, maxSize, messages[..n]);
      FilesHoldSuffix(files, maxSize, messages[..n]);
      SunkJoined(r, maxSize, messages[n]);
      SuffixOfSuffix(Joined(Sunk(r, maxSize, messages[n])), Joined(r), Joined(files) + messages[..n], messages[n]);
      assert Joined(files) + messages[..n] + [messages[n]] == Joined(files) + messages;
    }
  }

  /** A file that keeps to the maximum, or holds a single message. */
  predicate Bounded(file: seq<string>, maxSize: nat) {
    |file| <= 1 || |Flat(file)| <= maxSize
  }

  /** No file grows beyond the maximum, unless by one message alone. */
  lemma {:induction false} FilesBounded(files: seq<seq<string>>, maxSize: nat, messages: seq<string>)
    requires files != [] && forall i :: 0 <= i < |files| ==> Bounded(files[i], maxSize)
    ensures forall i :: 0 <= i < |files| ==> Bounded(SunkAll(files, maxSize, messages)[i], maxSize)
  {
    if messages != [] {
      var n := |messages| - 1;
      FilesBounded(files, maxSize, messages[..n]);
      FlatAppend(SunkAll(files, maxSize, messages[..n])[0], messages[n]);
    }
  }

  lemma FlatAppend(file: seq<string>, message: string)
    ensures Flat(file + [message]) == Flat(file) + message
    ensures Flat([message]) == message
  {
    assert (file + [message])[..|file|] == file;
    assert [message][..0] == [];
    assert Flat([message]) == Flat([]) + message;
  }

  lemma StartsFile(files: seq<seq<string>>, others: seq<seq<string>>, message: string)
    requires files == [[]] + others
    ensures files[0 := files[0] + [message]] == [[message]] + others
  {
    assert [] + [message] == [message];
  }

  /** The contents of the files n to 0. */
  function Contents(disk: Disk, base: string, n: nat): string {
    Content(disk, CalcFilename(base, n)) + if n == 0 then "" else Contents(disk, base, n - 1)
  }

  lemma {:induction false} FlatJoined(s: seq<string>, t: seq<string>)
    ensures Flat(s + t) == Flat(s) + Flat(t)
  {
    if t == [] {
      assert s + t == s && Flat(t) == "";
    } else {
      var n := |t| - 1;
      FlatJoined(s, t[..n]);
      assert s + t == (s + t[..n]) + [t[n]];
      assert t == t[..n] + [t[n]];
      FlatAppend(s + t[..n], t[n]);
      FlatAppend(t[..n], t[n]);
      hide Flat;
      assert (Flat(s) + Flat(t[..n])) + t[n] == Flat(s) + (Flat(t[..n]) + t[n]);
    }
  }

  lemma {:induction false} ContentsFlat(disk: Disk, base: string, files: seq<seq<string>>, n: nat)
    requires n < |files| && forall i :: 0 <= i <= n ==> Content(disk, CalcFilename(base, i)) == Flat(files[i])
    ensures Contents(disk, base, n) == Flat(Joined(files[..n + 1]))
  {
    var f := files[..n + 1];
    JoinedDropsOldest(f);
    assert f[..n] == files[..n];
    FlatJoined(files[n], Joined(files[..n]));
    if n > 0 {
      ContentsFlat(disk, base, files, n - 1);
    }
  }

  /** s is the end of t. */
  ghost predicate IsTail(s: string, t: string) {
    |s| <= |t| && s == t[|t| - |s|..]
  }

  /** A suffix of the messages is stored as the end of their text. */
  lemma SuffixStored(kept: seq<string>, first: seq<string>, messages: seq<string>)
    requires Suffix(kept, first + messages)
    ensures IsTail(Flat(kept), Flat(first) + Flat(messages))
  {
    var all := first + messages;
    var n := |all| - |kept|;
    assert all == all[..n] + kept;
    FlatJoined(all[..n], kept);
    FlatJoined(first, messages);
  }

  class RotatingFileSink {
    const baseFilename: string
    const maxSize: nat
    const maxFiles: nat
    var currentSize: nat
    var disk: Disk
    /** The messages in each file; what a file held at first counts as one. */
    ghost var files: seq<seq<string>>

    ghost predicate Valid()
      reads this
    {
      && |files| == maxFiles + 1 && baseFilename in disk && currentSize == |disk[baseFilename]|
      && forall i :: 0 <= i <= maxFiles ==> Holds(i)
    }

    ghost predicate Holds(i: nat)
      reads this
    {
      i < |files| && Content(disk, CalcFilename(baseFilename, i)) == Flat(files[i])
    }

    /** Opens file 0 for appending. */
    constructor (baseFilename: string, maxSize: nat, maxFiles: nat, disk: Disk)
      ensures Valid() && this.baseFilename == baseFilename && this.maxSize == maxSize && this.maxFiles == maxFiles
      ensures forall i :: 0 <= i <= maxFiles ==> files[i] == [Content(disk, CalcFilename(baseFilename, i))]
      ensures this.disk == disk[baseFilename := Content(disk, baseFilename)]
    {
      this.baseFilename, this.maxSize, this.maxFiles := baseFilename, maxSize, maxFiles;
      this.disk := disk[baseFilename := Content(disk, baseFilename)];
      currentSize := |Content(disk, baseFilename)|;
      files := seq(maxFiles + 1, i requires 0 <= i => [Content(disk, CalcFilename(baseFilename, i))]);
      new;
      forall i | 0 <= i <= maxFiles
        ensures Holds(i)
      {
        FlatAppend([], Content(disk, CalcFilename(baseFilename, i)));
        NotBase(baseFilename, i);
      }
    }

    /** Writes a message, after rotating the files when it does not fit any more. */
    method SinkIt(message: string)
      requires Valid()
      modifies this
      ensures Valid() && files == Sunk(old(files), maxSize, message)
      ensures OthersKept(baseFilename, maxFiles, old(disk), disk)
    {
      assert Holds(0);
      currentSize := currentSize + |message|;
      if currentSize > maxSize {
        Rotate();
        currentSize := |message|;
        ghost var before := files;
        files := [[]] + files[..maxFiles];
        assert forall i :: 0 < i <= maxFiles ==> files[i] == before[i - 1];
        forall i | 0 <= i <= maxFiles
          ensures Holds(i)
        {
          if i > 0 {
            assert Moved(baseFilename, old(disk), disk, i) && old(Holds(i - 1));
          }
        }
        StartsFile(files, before[..maxFiles], message);
      } else {
        assert forall i :: 0 <= i <= maxFiles && old(Holds(i)) ==> Holds(i);
      }
      Write(message);
    }

    /** The contents of the files, from the oldest one on. */
    function Stored(): string
      reads this
    {
      Contents(disk, baseFilename, maxFiles)
    }

    /** Sinks one message after the other. What is then stored is whole messages, none out of order: the end of
        what was stored and all messages. No file grows beyond the maximum, unless it is one message. */
    method SinkMessages(messages: seq<string>)
      requires Valid()
      modifies this
      ensures Valid() && files == SunkAll(old(files), maxSize, messages)
      ensures Suffix(Joined(files), Joined(old(files)) + messages) && Stored() == Flat(Joined(files))
      ensures IsTail(Stored(), old(Stored()) + Flat(messages))
      ensures (forall i :: 0 <= i <= maxFiles ==> Bounded(old(files)[i], maxSize)) ==>
        forall i :: 0 <= i <= maxFiles ==>
          |files[i]| <= 1 || |Content(disk, CalcFilename(baseFilename, i))| <= maxSize
      ensures OthersKept(baseFilename, maxFiles, old(disk), disk)
    {
      hide OthersKept, Suffix, IsTail, Sunk, CalcFilename, Content, Flat, Joined;
      ghost var f := files;
      StoredIsFlat();
      KeptItself(baseFilename, maxFiles, disk);
      assert messages[..0] == [];
      for i := 0 to |messages|
        invariant Valid() && files == SunkAll(f, maxSize, messages[..i])
        invariant OthersKept(baseFilename, maxFiles, old(disk), disk)
      {
        ghost var d := disk;
        SinkIt(messages[i]);
        KeptTwice(baseFilename, maxFiles, old(disk), d, disk);
        assert messages[..i + 1][..i] == messages[..i];
      }
      assert messages[..|messages|] == messages;
      StoredIsFlat();
      FilesHoldSuffix(f, maxSize, messages);
      SuffixStored(Joined(files), Joined(f), messages);
      if forall i :: 0 <= i <= maxFiles ==> Bounded(f[i], maxSize) {
        FilesBounded(f, maxSize, messages);
        assert forall i :: 0 <= i <= maxFiles ==> Holds(i) && Bounded(files[i], maxSize);
      }
    }

    lemma StoredIsFlat()
      requires Valid()
      ensures Stored() == Flat(Joined(files))
    {
      assert files[..maxFiles + 1] == files;
      forall i | 0 <= i <= maxFiles
        ensures Content(disk, CalcFilename(baseFilename, i)) == Flat(files[i])
      {
        assert Holds(i);
      }
      ContentsFlat(disk, baseFilename, files, maxFiles);
    }

    method Write(message: string)
      requires |files| == maxFiles + 1 && baseFilename in disk && forall i :: 0 <= i <= maxFiles ==> Holds(i)
      modifies this`disk, this`files
      ensures files == old(files)[0 := old(files)[0] + [message]] && forall i :: 0 <= i <= maxFiles ==> Holds(i)
      ensures baseFilename in disk && |disk[baseFilename]| == |old(disk)[baseFilename]| + |message|
      ensures OthersKept(baseFilename, maxFiles, old(disk), disk)
    {
      OthersKeptPut(baseFilename, maxFiles, disk, disk, disk[baseFilename] + message);
      hide OthersKept;
      disk := disk[baseFilename := disk[baseFilename] + message];
      FlatAppend(files[0], message);
      files := files[0 := files[0] + [message]];
      forall i | 0 <= i <= maxFiles
        ensures Holds(i)
      {
        NotBase(baseFilename, i);
        assert old(Holds(i));
      }
    }

    /** Moves every file on by one place, from the last; the last one is deleted, file 0 begins anew. */
    method Rotate()
      requires baseFilename in disk
      modifies this`disk
      ensures baseFilename in disk && disk[baseFilename] == ""
      ensures forall i :: 0 < i <= maxFiles ==> Moved(baseFilename, old(disk), disk, i)
      ensures OthersKept(baseFilename, maxFiles, old(disk), disk)
    {
      hide CalcFilename;
      var i := maxFiles;
      while i > 0
        invariant 0 <= i <= maxFiles
        invariant forall j: nat :: j < i || i == maxFiles ==> Same(baseFilename, old(disk), disk, j)
        invariant forall j: nat :: i < j <= maxFiles ==> Moved(baseFilename, old(disk), disk, j)
        invariant OthersKept(baseFilename, maxFiles, old(disk), disk)
      {
        var src, target := CalcFilename(baseFilename, i - 1), CalcFilename(baseFilename, i);
        ghost var before := disk;
        if target in disk {
          disk := disk - {target};
        }
        if src in disk {
          disk := disk[target := disk[src]] - {src};
        }
        OneMoved(baseFilename, before, disk, i);
        forall j: nat | j < i - 1
          ensures Same(baseFilename, old(disk), disk, j)
        {
          assert Same(baseFilename, old(disk), before, j) && Same(baseFilename, before, disk, j);
        }
        forall j: nat | i <= j <= maxFiles
          ensures Moved(baseFilename, old(disk), disk, j)
        {
          if j > i {
            assert Moved(baseFilename, old(disk), before, j) && Same(baseFilename, before, disk, j);
          } else {
            assert Same(baseFilename, old(disk), before, i - 1);
          }
        }
        i := i - 1;
      }
      ghost var last := disk;
      OthersKeptPut(baseFilename, maxFiles, old(disk), disk, "");
      disk := disk[baseFilename := ""];
      forall j: nat | 0 < j <= maxFiles
        ensures Moved(baseFilename, old(disk), disk, j)
      {
        NotBase(baseFilename, j);
        assert Moved(baseFilename, old(disk), last, j);
      }
    }
  }

  /** File i exists in both, with the same contents, or in neither. */
  predicate Same(base: string, d: Disk, e: Disk, i: nat) {
    var name := CalcFilename(base, i);
    (name in e <==> name in d) && Content(e, name) == Content(d, name)
  }

  /** File i is what file i - 1 was. */
  predicate Moved(base: string, d: Disk, e: Disk, i: nat) {
    i > 0 && var name, from := CalcFilename(base, i), CalcFilename(base, i - 1);
    (name in e <==> from in d) && Content(e, name) == Content(d, from)
  }

  /** Files of other names are the same. */
  ghost predicate OthersKept(base: string, maxFiles: nat, d: Disk, e: Disk) {
    forall name :: NotOurs(base, maxFiles, name) ==> Kept(d, e, name)
  }

  predicate Kept(d: Disk, e: Disk, name: string) {
    (name in e <==> name in d) && Content(e, name) == Content(d, name)
  }

  predicate NotOurs(base: string, maxFiles: nat, name: string) {
    forall i :: 0 <= i <= maxFiles ==> name != CalcFilename(base, i)
  }

  lemma KeptItself(base: string, maxFiles: nat, d: Disk)
    ensures OthersKept(base, maxFiles, d, d)
  {
  }

  lemma KeptTwice(base: string, maxFiles: nat, d: Disk, e: Disk, f: Disk)
    requires OthersKept(base, maxFiles, d, e) && OthersKept(base, maxFiles, e, f)
    ensures OthersKept(base, maxFiles, d, f)
  {
    forall name | NotOurs(base, maxFiles, name)
      ensures Kept(d, f, name)
    {
      assert Kept(d, e, name) && Kept(e, f, name);
    }
  }

  lemma OthersKeptPut(base: string, maxFiles: nat, d: Disk, e: Disk, content: string)
    requires OthersKept(base, maxFiles, d, e)
    ensures OthersKept(base, maxFiles, d, e[base := content])
  {
    assert base == CalcFilename(base, 0);
    forall name | NotOurs(base, maxFiles, name)
      ensures Kept(d, e[base := content], name)
    {
      assert Kept(d, e, name);
    }
  }

  lemma NotBase(base: string, i: nat)
    ensures CalcFilename(base, i) == base <==> i == 0
  {
  }

  lemma OneMoved(base: string, d: Disk, e: Disk, i: nat)
    requires i > 0
    requires var src, target := CalcFilename(base, i - 1), CalcFilename(base, i);
      e == if src in d then (d - {target})[target := d[src]] - {src} else d - {target}
    ensures Moved(base, d, e, i)
    ensures forall j: nat :: j != i && j != i - 1 ==> Same(base, d, e, j)
  {
    forall j: nat | j != i
      ensures CalcFilename(base, j) != CalcFilename(base, i)
    {
      if CalcFilename(base, j) == CalcFilename(base, i) {
        FilenamesDiffer(base, j, i);
      }
    }
    forall j: nat | j != i && j != i - 1
      ensures Same(base, d, e, j)
    {
      if CalcFilename(base, j) == CalcFilename(base, i - 1) {
        FilenamesDiffer(base, j, i - 1);
      }
      hide CalcFilename;
    }
  }
}
