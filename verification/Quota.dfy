/** The upload quota: how many files a directory holds and how many bytes, in 64-bit arithmetic, and the
    settings its limits come from. */
module Quota {
  const MAX_INT64: int := 0x7FFF_FFFF_FFFF_FFFF

  newtype int64 = n: int | -0x8000_0000_0000_0000 <= n <= 0x7FFF_FFFF_FFFF_FFFF
  type FileSize = n: int64 | n >= 0

  datatype DirEntry = DirEntry(name: string, regular: bool, size: FileSize)

  // ---- usage ----

  /** Usage as plain numbers. */
  function TotalBytes(dir: seq<DirEntry>): nat {
    if dir == [] then 0
    else TotalBytes(dir[..|dir| - 1]) + if dir[|dir| - 1].regular then dir[|dir| - 1].size as int else 0
  }

  function FileCount(dir: seq<DirEntry>): nat {
    if dir == [] then 0 else FileCount(dir[..|dir| - 1]) + if dir[|dir| - 1].regular then 1 else 0
  }

  datatype Usage = Usage(count: nat, size: FileSize) | Overflow

  /** The running sum never overflows: the test before each addition catches exactly the sums that would. */
  method RegularFileUsage(dir: seq<DirEntry>) returns (u: Usage)
    ensures u.Usage? ==> u.count == FileCount(dir) && u.size as int == TotalBytes(dir)
    ensures u.Overflow? <==> TotalBytes(dir) > MAX_INT64
  {
    var count: nat, size: int64 := 0, 0;
    var i := 0;
    while i < |dir|
      invariant 0 <= i <= |dir|
      invariant size >= 0 && size as int == TotalBytes(dir[..i]) && count == FileCount(dir[..i])
    {
      assert dir[..i + 1][..i] == dir[..i];
      BytesGrow(dir, i + 1);
      if dir[i].regular {
        count := count + 1;
        if dir[i].size > 0x7FFF_FFFF_FFFF_FFFF - size {
          return Overflow;
        }
        size := size + dir[i].size;
      }
      i := i + 1;
    }
    assert dir[..i] == dir;
    u := Usage(count, size);
  }

  lemma {:induction false} BytesGrow(dir: seq<DirEntry>, i: nat)
    requires i <= |dir|
    ensures TotalBytes(dir[..i]) <= TotalBytes(dir)
    decreases |dir|
  {
    if i == |dir| {
      assert dir[..i] == dir;
    } else {
      var n := |dir| - 1;
      assert dir[..n][..i] == dir[..i];
      BytesGrow(dir[..n], i);
    }
  }

  lemma {:induction false} UsageWithout(dir: seq<DirEntry>, i: nat)
    requires i < |dir|
    ensures TotalBytes(dir) == TotalBytes(dir[..i] + dir[i + 1..]) + TotalBytes([dir[i]])
    ensures FileCount(dir) == FileCount(dir[..i] + dir[i + 1..]) + FileCount([dir[i]])
    decreases |dir|
  {
    var n := |dir| - 1;
    assert [dir[i]][..0] == [];
    if i == n {
      assert dir[..i] + dir[i + 1..] == dir[..n];
    } else {
      UsageWithout(dir[..n], i);
      var less := dir[..i] + dir[i + 1..];
      assert less[..n - 1] == dir[..n][..i] + dir[..n][i + 1..] && less[n - 1] == dir[n];
    }
  }

  lemma SameHead(a: seq<DirEntry>, b: seq<DirEntry>) returns (i: nat)
    requires multiset(a) == multiset(b) && a != []
    ensures i < |b| && b[i] == a[0]
    ensures multiset(a[1..]) == multiset(b[..i] + b[i + 1..])
  {
    assert a[0] in multiset(b);
    i :| i < |b| && b[i] == a[0];
    assert b == b[..i] + [b[i]] + b[i + 1..];
    assert a == [a[0]] + a[1..];
    calc {
      multiset(a[1..]);
      multiset(a) - multiset{a[0]};
      multiset(b) - multiset{b[i]};
      multiset(b[..i] + b[i + 1..]);
    }
  }

  /** The order in which a directory is listed does not matter. */
  lemma {:induction false} UsageIgnoresOrder(a: seq<DirEntry>, b: seq<DirEntry>)
    requires multiset(a) == multiset(b)
    ensures TotalBytes(a) == TotalBytes(b) && FileCount(a) == FileCount(b)
    decreases |a|
  {
    if a == [] {
      assert |multiset(b)| == 0;
    } else {
      var i := SameHead(a, b);
      var rest := b[..i] + b[i + 1..];
      assert a[..0] + a[1..] == a[1..];
      UsageIgnoresOrder(a[1..], rest);
      UsageWithout(a, 0);
      UsageWithout(b, i);
    }
  }

  // ---- limits ----

  /** A limit that is not positive is none. */
  datatype Limits = Limits(maxFiles: int, maxBytes: int64)

  predicate Within(dir: seq<DirEntry>, l: Limits) {
    && (l.maxFiles > 0 ==> FileCount(dir) <= l.maxFiles)
    && (l.maxBytes > 0 ==> TotalBytes(dir) <= l.maxBytes as int)
  }

  /** A file of this size is let in: usage can be told, and is within the limits with the file as well. */
  predicate Accepts(dir: seq<DirEntry>, l: Limits, size: FileSize) {
    TotalBytes(dir) <= MAX_INT64 && Within(dir + [DirEntry("", true, size)], l)
  }

  /** In numbers: below the count, and bytes for the file left. */
  lemma AcceptsMeaning(dir: seq<DirEntry>, l: Limits, size: FileSize)
    ensures Accepts(dir, l, size)
       <==> && TotalBytes(dir) <= MAX_INT64
            && (l.maxFiles <= 0 || FileCount(dir) < l.maxFiles)
            && (l.maxBytes <= 0 || TotalBytes(dir) + size as int <= l.maxBytes as int)
  {
    WithOneMore(dir, DirEntry("", true, size));
  }

  datatype Verdict = Accepted | CountExceeded | StorageExceeded | UsageError

  /** enforceFileQuota. */
  method EnforceFileQuota(dir: seq<DirEntry>, l: Limits, newBytes: FileSize) returns (v: Verdict)
    ensures v.Accepted? <==> Accepts(dir, l, newBytes)
    ensures v.UsageError? <==> TotalBytes(dir) > MAX_INT64
  {
    var u := RegularFileUsage(dir);
    WithOneMore(dir, DirEntry("", true, newBytes));
    if u.Overflow? {
      return UsageError;
    }
    if l.maxFiles > 0 && u.count >= l.maxFiles {
      return CountExceeded;
    }
    if l.maxBytes > 0 {
      if u.size > l.maxBytes || newBytes > l.maxBytes - u.size {
        return StorageExceeded;
      }
    }
    return Accepted;
  }

  lemma WithOneMore(dir: seq<DirEntry>, f: DirEntry)
    ensures TotalBytes(dir + [f]) == TotalBytes(dir) + if f.regular then f.size as int else 0
    ensures FileCount(dir + [f]) == FileCount(dir) + if f.regular then 1 else 0
  {
    assert (dir + [f])[..|dir|] == dir;
  }

  /** An accepted file keeps the directory within its limits, even if only part of it gets written. */
  lemma AcceptedStaysWithin(dir: seq<DirEntry>, l: Limits, size: FileSize, name: string, written: FileSize)
    requires Accepts(dir, l, size) && written <= size
    ensures Within(dir + [DirEntry(name, true, written)], l)
  {
    WithOneMore(dir, DirEntry("", true, size));
    WithOneMore(dir, DirEntry(name, true, written));
  }

  // ---- removing files ----

  function NamesIn(dir: seq<DirEntry>): (names: set<string>) {
    set f | f in dir :: f.name
  }

  /** The directory without the file of this name. */
  function Removed(dir: seq<DirEntry>, name: string): (r: seq<DirEntry>)
    ensures forall f :: f in r <==> f in dir && f.name != name
  {
    if dir == [] then []
    else
      var n := |dir| - 1;
      Removed(dir[..n], name) + if dir[n].name == name then [] else [dir[n]]
  }

  lemma NamesRemoved(dir: seq<DirEntry>, name: string)
    ensures NamesIn(Removed(dir, name)) == NamesIn(dir) - {name}
  {
  }

  lemma NamesAppended(dir: seq<DirEntry>, f: DirEntry)
    ensures NamesIn(dir + [f]) == NamesIn(dir) + {f.name}
  {
    assert (dir + [f])[|dir|] == f;
  }

  lemma {:induction false} NothingRemoved(dir: seq<DirEntry>, name: string)
    requires forall f | f in dir :: f.name != name
    ensures Removed(dir, name) == dir
  {
    if dir != [] {
      var n := |dir| - 1;
      assert dir == dir[..n] + [dir[n]];
      NothingRemoved(dir[..n], name);
    }
  }

  /** Taking back the file added last. */
  lemma AddedAndRemoved(dir: seq<DirEntry>, f: DirEntry)
    requires f.name !in NamesIn(dir)
    ensures Removed(dir + [f], f.name) == dir
  {
    assert (dir + [f])[..|dir|] == dir;
    NothingRemoved(dir, f.name);
  }

  /** Taking a file away never exceeds a limit. */
  lemma RemovalStaysWithin(dir: seq<DirEntry>, name: string, l: Limits)
    requires Within(dir, l)
    ensures Within(Removed(dir, name), l)
  {
    RemovalShrinks(dir, name);
  }

  lemma {:induction false} RemovalShrinks(dir: seq<DirEntry>, name: string)
    ensures TotalBytes(Removed(dir, name)) <= TotalBytes(dir) && FileCount(Removed(dir, name)) <= FileCount(dir)
  {
    if dir != [] {
      var n := |dir| - 1;
      var less := Removed(dir[..n], name);
      RemovalShrinks(dir[..n], name);
      WithOneMore(less, dir[n]);
      assert less + [] == less;
    }
  }

  // ---- limits from settings ----

  const BYTES_PER_MEGABYTE: int64 := 1024 * 1024
  const MAX_STORAGE_MEGABYTES: int64 := 0x7FFF_FFFF_FFFF_FFFF / BYTES_PER_MEGABYTE

  datatype DashboardSettings = DashboardSettings(
    maxUploadSizeMb: int64, maxTemplateUploads: int64, maxIconUploads: int64,
    maxTemplateUploadStorageMb: int64, maxIconUploadStorageMb: int64)

  predicate StorageFits(mb: int64) {
    0 <= mb as int && mb as int * 1024 * 1024 <= MAX_INT64
  }

  /** None is negative, and no number of megabytes overflows as bytes. */
  predicate ValidSettings(c: DashboardSettings) {
    && c.maxTemplateUploads >= 0 && c.maxIconUploads >= 0 && StorageFits(c.maxUploadSizeMb)
    && StorageFits(c.maxTemplateUploadStorageMb) && StorageFits(c.maxIconUploadStorageMb)
  }

  method ValidateDashboard(c: DashboardSettings) returns (ok: bool)
    ensures ok <==> ValidSettings(c)
  {
    if c.maxUploadSizeMb < 0 { return false; }
    if c.maxUploadSizeMb > MAX_STORAGE_MEGABYTES { return false; }
    if c.maxTemplateUploads < 0 { return false; }
    if c.maxIconUploads < 0 { return false; }
    if c.maxTemplateUploadStorageMb < 0 { return false; }
    if c.maxTemplateUploadStorageMb > MAX_STORAGE_MEGABYTES { return false; }
    if c.maxIconUploadStorageMb < 0 { return false; }
    if c.maxIconUploadStorageMb > MAX_STORAGE_MEGABYTES { return false; }
    return true;
  }

  /** In 64 bits at every step; a limit is set in bytes exactly if it is set in megabytes. */
  function MegabytesToBytes(mb: int64): (b: int64)
    requires StorageFits(mb)
    ensures b as int == mb as int * 0x10_0000 && (b > 0 <==> mb > 0)
  {
    mb * 1024 * 1024
  }

  /** The limits the two stores are opened with; a limit in bytes is set exactly if one in megabytes is. */
  function TemplateLimits(c: DashboardSettings): (l: Limits)
    requires StorageFits(c.maxTemplateUploadStorageMb)
    ensures l.maxBytes > 0 <==> c.maxTemplateUploadStorageMb > 0
  {
    Limits(c.maxTemplateUploads as int, MegabytesToBytes(c.maxTemplateUploadStorageMb))
  }

  function IconLimits(c: DashboardSettings): (l: Limits)
    requires StorageFits(c.maxIconUploadStorageMb)
    ensures l.maxBytes > 0 <==> c.maxIconUploadStorageMb > 0
  {
    Limits(c.maxIconUploads as int, MegabytesToBytes(c.maxIconUploadStorageMb))
  }
}
