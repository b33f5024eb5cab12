/** What the file-backed stores stand on: a metadata file that is replaced atomically and a directory of files
    it refers to, with a crash or an I/O error possible at every step. */
module Disks {
  import opened Names
  import opened Quota

  /** An item of the metadata; `path` names its file, or is empty for an item without one. */
  datatype Record<D> = Record(id: string, path: string, data: D)

  datatype Snapshot<D> = Snapshot(meta: seq<Record<D>>, dir: seq<DirEntry>)

  /** What becomes of one I/O step. `done` says how much of it was done: nothing, or all of a step that is
      atomic, or `done - 1` bytes of a file. */
  datatype Fate = Succeeds | Fails(done: nat) | Crashes(done: nat)

  /** What the next step meets, and what is left for the ones after it. */
  function Fated(fates: seq<Fate>): Fate {
    if fates == [] then Succeeds else fates[0]
  }

  function Later(fates: seq<Fate>): seq<Fate> {
    if fates == [] then [] else fates[1..]
  }

  predicate AtMostOneFails(fates: seq<Fate>) {
    forall i, j | 0 <= i < j < |fates| :: fates[i].Succeeds? || fates[j].Succeeds?
  }

  /** After a failure everything succeeds. */
  lemma OneFails(fates: seq<Fate>)
    requires AtMostOneFails(fates)
    ensures AtMostOneFails(Later(fates))
    ensures !Fated(fates).Succeeds? ==> Fated(Later(fates)).Succeeds? && Fated(Later(Later(fates))).Succeeds?
  {
  }

  predicate NoFailures(fates: seq<seq<Fate>>) {
    forall f | f in fates :: f == []
  }

  lemma NoFailuresYet(fates: seq<seq<Fate>>, i: nat)
    requires i < |fates|
    ensures NoFailures(fates[..i + 1]) <==> NoFailures(fates[..i]) && fates[i] == []
  {
    assert fates[..i + 1] == fates[..i] + [fates[i]];
    assert fates[i] in fates[..i + 1] && forall f | f in fates[..i] :: f in fates[..i + 1];
  }

  /** The disk, and what the steps still to come will meet; without a prediction they succeed. */
  class Disk<D> {
    var meta: seq<Record<D>>
    var dir: seq<DirEntry>
    var fates: seq<Fate>
    var crashed: bool

    ghost function Now(): Snapshot<D>
      reads this
    {
      Snapshot(meta, dir)
    }

    constructor (s: Snapshot<D>)
      ensures Now() == s && fates == [] && !crashed
    {
      meta, dir, fates, crashed := s.meta, s.dir, [], false;
    }

    /** After a crash only the disk's contents are left. */
    method Restart(fates: seq<Fate>)
      modifies this`fates, this`crashed
      ensures this.fates == fates && !crashed
    {
      this.fates, crashed := fates, false;
    }

    method NextFate() returns (f: Fate)
      requires !crashed
      modifies this`fates, this`crashed
      ensures f == Fated(old(fates)) && fates == Later(old(fates)) && crashed == f.Crashes?
    {
      f := Succeeds;
      if fates != [] {
        f, fates := fates[0], fates[1..];
      }
      crashed := f.Crashes?;
    }

    /** A step that only looks. */
    method Look() returns (ok: bool)
      requires !crashed
      modifies this`fates, this`crashed
      ensures ok == Fated(old(fates)).Succeeds? && fates == Later(old(fates)) && crashed == Fated(old(fates)).Crashes?
    {
      var f := NextFate();
      ok := f.Succeeds?;
    }

    method CreateFile(name: string, size: FileSize) returns (ok: bool)
      requires !crashed
      modifies this`dir, this`fates, this`crashed
      ensures ok == Fated(old(fates)).Succeeds? && fates == Later(old(fates)) && crashed == Fated(old(fates)).Crashes?
      ensures ok ==> dir == old(dir) + [DirEntry(name, true, size)]
      ensures !ok ==> Partly(old(dir), dir, name, size)
    {
      var f := NextFate();
      ok := f.Succeeds?;
      if ok {
        dir := dir + [DirEntry(name, true, size)];
      } else if f.done > 0 {
        var written := if f.done - 1 < size as int then (f.done - 1) as FileSize else size;
        dir := dir + [DirEntry(name, true, written)];
      }
    }

    /** Removal whose error nobody looks at. */
    method RemoveFile(name: string)
      requires !crashed
      modifies this`dir, this`fates, this`crashed
      ensures fates == Later(old(fates)) && crashed == Fated(old(fates)).Crashes?
      ensures dir == old(dir) || dir == Removed(old(dir), name)
      ensures Fated(old(fates)).Succeeds? ==> dir == Removed(old(dir), name)
    {
      var f := NextFate();
      if f.Succeeds? || (f.Crashes? && f.done > 0) {
        dir := Removed(dir, name);
      }
    }

    /** Write a temporary file, then rename it over the metadata. */
    method ReplaceMeta(items: seq<Record<D>>) returns (ok: bool)
      requires !crashed
      modifies this`meta, this`fates, this`crashed
      ensures ok == Fated(old(fates)).Succeeds? && fates == Later(old(fates)) && crashed == Fated(old(fates)).Crashes?
      ensures ok ==> meta == items
      ensures !ok && !crashed ==> meta == old(meta)
      ensures meta == old(meta) || meta == items
    {
      var f := NextFate();
      if f.Succeeds? || (f.Crashes? && f.done > 0) {
        meta := items;
      }
      ok := f.Succeeds?;
    }
  }

  /** A file that may be there, and may be incomplete. */
  ghost predicate Partly(before: seq<DirEntry>, after: seq<DirEntry>, name: string, size: FileSize) {
    after == before || exists n: FileSize :: n <= size && after == before + [DirEntry(name, true, n)]
  }

  lemma PartlyWithin(before: seq<DirEntry>, after: seq<DirEntry>, name: string, size: FileSize, l: Limits)
    requires Partly(before, after, name, size) && Accepts(before, l, size)
    ensures Within(after, l)
    ensures NamesIn(after) == NamesIn(before) || NamesIn(after) == NamesIn(before) + {name}
    ensures name !in NamesIn(before) ==> Removed(after, name) == before
  {
    if after == before {
      WithOneMore(before, DirEntry("", true, size));
      if name !in NamesIn(before) { NothingRemoved(before, name); }
    } else {
      var n: FileSize :| n <= size && after == before + [DirEntry(name, true, n)];
      AcceptedStaysWithin(before, l, size, name, n);
      NamesAppended(before, DirEntry(name, true, n));
      if name !in NamesIn(before) { AddedAndRemoved(before, DirEntry(name, true, n)); }
    }
  }

  // ---- what the stores promise ----

  /** Every item's file exists. */
  ghost predicate Referenced<D>(meta: seq<Record<D>>, files: set<string>) {
    forall e | e in meta && e.path != "" :: Base(e.path) in files
  }

  /** No two items share an id or a file. */
  ghost predicate Separate<D>(meta: seq<Record<D>>) {
    forall i, j | 0 <= i < j < |meta| ::
      && meta[i].id != meta[j].id
      && (meta[i].path != "" && meta[j].path != "" ==> Base(meta[i].path) != Base(meta[j].path))
  }

  ghost predicate Sound<D>(meta: seq<Record<D>>, files: set<string>) {
    Referenced(meta, files) && Separate(meta)
  }

  ghost function FilesOf<D>(meta: seq<Record<D>>): set<string> {
    set e | e in meta && e.path != "" :: Base(e.path)
  }

  /** The directory holds the files referred to and no others. */
  ghost predicate Tidy<D>(s: Snapshot<D>) {
    NamesIn(s.dir) == FilesOf(s.meta)
  }

  ghost predicate UnusedId<D>(meta: seq<Record<D>>, id: string) {
    forall e | e in meta :: e.id != id
  }

  function IndexOf<D>(meta: seq<Record<D>>, id: string): (i: nat)
    ensures i <= |meta|
    ensures i < |meta| ==> meta[i].id == id
    ensures forall j | 0 <= j < i :: meta[j].id != id
  {
    var ids := seq(|meta|, j requires 0 <= j < |meta| => meta[j].id);
    assert forall j | 0 <= j < |meta| :: ids[j] == meta[j].id;
    FirstOf(ids, id)
  }

  function Without<D>(meta: seq<Record<D>>, i: nat): seq<Record<D>>
    requires i < |meta|
  {
    meta[..i] + meta[i + 1..]
  }

  lemma UnusedIsLast<D>(meta: seq<Record<D>>, id: string)
    ensures UnusedId(meta, id) <==> IndexOf(meta, id) == |meta|
  {
    if IndexOf(meta, id) < |meta| {
      assert meta[IndexOf(meta, id)] in meta;
    }
  }

  lemma SeparateWithout<D>(meta: seq<Record<D>>, i: nat)
    requires i < |meta| && Separate(meta)
    ensures Separate(Without(meta, i))
    ensures forall e | e in Without(meta, i) :: e in meta && e.id != meta[i].id
    ensures meta[i].path != "" ==> Base(meta[i].path) !in FilesOf(Without(meta, i))
  {
    hide Base;
    var rest := Without(meta, i);
    forall e | e in rest ensures exists j | 0 <= j < |meta| :: j != i && meta[j] == e {
      var k :| 0 <= k < |rest| && rest[k] == e;
      assert meta[if k < i then k else k + 1] == e;
    }
  }

  lemma FilesOfAppended<D>(meta: seq<Record<D>>, e: Record<D>)
    ensures FilesOf(meta + [e]) == if e.path == "" then FilesOf(meta) else FilesOf(meta) + {Base(e.path)}
  {
    hide Base;
    assert (meta + [e])[|meta|] == e;
  }

  lemma AppendedIsSound<D>(meta: seq<Record<D>>, files: set<string>, e: Record<D>)
    requires Sound(meta, files) && UnusedId(meta, e.id)
    requires e.path != "" ==> Base(e.path) !in files
    ensures Sound(meta + [e], if e.path == "" then files else files + {Base(e.path)})
    ensures Sound(meta, if e.path == "" then files else files + {Base(e.path)})
  {
    hide Base;
    var all := meta + [e];
    forall i, j | 0 <= i < j < |all|
      ensures all[i].id != all[j].id
      ensures all[i].path != "" && all[j].path != "" ==> Base(all[i].path) != Base(all[j].path)
    {
      assert meta[i] in meta;
    }
  }

  ghost predicate SameRefs<D>(a: seq<Record<D>>, b: seq<Record<D>>) {
    |a| == |b| && forall k | 0 <= k < |a| :: a[k].id == b[k].id && a[k].path == b[k].path
  }

  lemma SameRefsIncluded<D>(a: seq<Record<D>>, b: seq<Record<D>>)
    requires SameRefs(a, b)
    ensures FilesOf(a) <= FilesOf(b)
  {
    hide Base;
    forall f | f in FilesOf(a) ensures f in FilesOf(b) {
      var x :| x in a && x.path != "" && Base(x.path) == f;
      var k :| 0 <= k < |a| && a[k] == x;
      assert b[k] in b && b[k].path == x.path;
    }
  }

  /** Only ids and paths matter. */
  lemma SameRefsSound<D>(a: seq<Record<D>>, b: seq<Record<D>>)
    requires SameRefs(a, b)
    ensures FilesOf(a) == FilesOf(b)
    ensures forall files :: Sound(a, files) ==> Sound(b, files)
  {
    hide Base;
    SameRefsIncluded(a, b);
    SameRefsIncluded(b, a);
    forall files | Sound(a, files) ensures Sound(b, files) {
      FilesDecide(a, files);
      FilesDecide(b, files);
    }
  }

  lemma WithoutFiles<D>(meta: seq<Record<D>>, i: nat)
    requires i < |meta| && Separate(meta)
    ensures FilesOf(Without(meta, i))
         == if meta[i].path == "" then FilesOf(meta) else FilesOf(meta) - {Base(meta[i].path)}
  {
    hide Base;
    SeparateWithout(meta, i);
    forall x | x in meta && x != meta[i] ensures x in Without(meta, i) {
      var k :| 0 <= k < |meta| && meta[k] == x;
      assert Without(meta, i)[if k < i then k else k - 1] == x;
    }
  }

  /** The files referred to decide whether all of them exist. */
  lemma FilesDecide<D>(meta: seq<Record<D>>, files: set<string>)
    ensures Referenced(meta, files) <==> FilesOf(meta) <= files
  {
    hide Base;
  }
}
