/** The store of dashboard entries: hosts and uploaded templates, and the admin requests on them. */
module Entries {
  import opened RdpText
  import opened Names
  import opened Quota
  import opened Disks

  datatype Kind = HostKind | TemplateKind | UnknownKind

  datatype Details = Details(kind: Kind, name: string, groups: seq<string>, host: string, ipOverride: string)

  type Entry = Record<Details>

  type Store = Snapshot<Details>

  const NOTHING: Store := Snapshot([], [])

  /** Which texts are addresses and host:port pairs is the net library's. */
  datatype Syntax = Syntax(ip: string -> bool, hostPort: string -> bool)

  // ---- validation ----

  predicate Valid(x: Syntax, e: Entry) {
    && Trim(e.id) != "" && Trim(e.data.name) != ""
    && (exists g | g in e.data.groups :: Trim(g) != "")
    && (Trim(e.data.ipOverride) != "" ==> x.ip(Trim(e.data.ipOverride)))
    && match e.data.kind
       case HostKind => x.hostPort(Trim(e.data.host))
       case TemplateKind => EndsWith(Lower(Trim(e.path)), ".rdp")
       case UnknownKind => false
  }

  method Validate(x: Syntax, e: Entry) returns (ok: bool)
    ensures ok <==> Valid(x, e)
  {
    hide Trim, Lower;
    if Trim(e.id) == "" || Trim(e.data.name) == "" {
      return false;
    }
    var validGroups := 0;
    for i := 0 to |e.data.groups|
      invariant validGroups > 0 <==> exists j | 0 <= j < i :: Trim(e.data.groups[j]) != ""
    {
      if Trim(e.data.groups[i]) != "" {
        validGroups := validGroups + 1;
      }
    }
    if validGroups == 0 {
      assert forall g | g in e.data.groups :: Trim(g) == "";
      return false;
    }
    assert exists g | g in e.data.groups :: Trim(g) != "" by {
      var j :| 0 <= j < |e.data.groups| && Trim(e.data.groups[j]) != "";
      assert e.data.groups[j] in e.data.groups;
    }
    var override := Trim(e.data.ipOverride);
    if override != "" && !x.ip(override) {
      return false;
    }
    match e.data.kind {
      case HostKind => return x.hostPort(Trim(e.data.host));
      case TemplateKind => return EndsWith(Lower(Trim(e.path)), ".rdp");
      case UnknownKind => return false;
    }
  }

  /** A valid entry with any one thing wrong is refused. */
  lemma EachDefectIsRefused(x: Syntax, e: Entry)
    requires Valid(x, e)
    ensures !Valid(x, e.(id := " ")) && !Valid(x, e.(data := e.data.(name := "")))
    ensures !Valid(x, e.(data := e.data.(groups := []))) && !Valid(x, e.(data := e.data.(groups := ["", " "])))
    ensures !Valid(x, e.(data := e.data.(kind := UnknownKind)))
    ensures !x.ip("z") ==> !Valid(x, e.(data := e.data.(ipOverride := "z")))
    ensures e.data.kind.TemplateKind? ==> !Valid(x, e.(path := "a.txt")) && !Valid(x, e.(path := ""))
    ensures e.data.kind.HostKind? && !x.hostPort("h") ==> !Valid(x, e.(data := e.data.(host := "h")))
  {
    hide Trim, Lower;
    forall s | s in ["", "z", "h", "a.txt"] ensures Trim(s) == s {
      TrimMeaning(s);
    }
    BlankIsEmpty();
    assert Lower("a.txt")[1..] == ".txt" && Lower("") == "";
  }

  lemma BlankIsEmpty()
    ensures Trim(" ") == ""
  {
    assert TrimLeft(" ") == TrimLeft("");
  }

  // ---- the store ----

  datatype UploadResult = Uploaded | QuotaRefused | UploadFailed

  /** FileStore.SaveUpload: a file under a new name if the quota lets it in, removed again if it could not be
      written whole. */
  method SaveUpload<D>(d: Disk<D>, l: Limits, name: string, size: FileSize) returns (r: UploadResult)
    requires !d.crashed
    modifies d`dir, d`fates, d`crashed
    ensures r == Uploaded ==>
              && !d.crashed && Accepts(old(d.dir), l, size) && name !in NamesIn(old(d.dir))
              && d.dir == old(d.dir) + [DirEntry(name, true, size)]
    ensures r == QuotaRefused ==> !Accepts(old(d.dir), l, size)
    ensures r == QuotaRefused || !Accepts(old(d.dir), l, size) || name in NamesIn(old(d.dir)) ==> d.dir == old(d.dir)
    ensures NamesIn(d.dir) == NamesIn(old(d.dir)) || NamesIn(d.dir) == NamesIn(old(d.dir)) + {name}
    ensures Within(old(d.dir), l) ==> Within(d.dir, l)
    ensures AtMostOneFails(old(d.fates)) && !d.crashed ==>
              AtMostOneFails(d.fates) && (r == Uploaded || d.dir == old(d.dir))
    ensures old(d.fates) == [] ==>
              && !d.crashed && d.fates == []
              && r == if !Accepts(old(d.dir), l, size) then QuotaRefused
                      else if name in NamesIn(old(d.dir)) then UploadFailed
                      else Uploaded
  {
    hide Accepts, Within, NamesIn, Removed, Partly, AtMostOneFails;
    ghost var dir0 := d.dir;
    ghost var fates0 := d.fates;
    if AtMostOneFails(fates0) {
      OneFails(fates0);
      OneFails(Later(fates0));
      OneFails(Later(Later(fates0)));
    }
    var ok := d.Look();
    if !ok {
      return UploadFailed;
    }
    var v := EnforceFileQuota(d.dir, l, size);
    if !v.Accepted? {
      return QuotaRefused;
    }
    if name in NamesIn(d.dir) {
      return UploadFailed;
    }
    ok := d.CreateFile(name, size);
    if ok {
      NamesAppended(dir0, DirEntry(name, true, size));
      AcceptedStaysWithin(dir0, l, size, name, size);
      return Uploaded;
    }
    PartlyWithin(dir0, d.dir, name, size, l);
    if !d.crashed {
      d.RemoveFile(name);
    }
    return UploadFailed;
  }

  /** The entries after Put: replaced under its id, or added at the end. */
  function PutEntry(meta: seq<Entry>, e: Entry): seq<Entry> {
    var i := IndexOf(meta, e.id);
    if i < |meta| then meta[i := e] else meta + [e]
  }

  /** The path whose file Put removes afterwards: the replaced entry's, if it is another string. */
  function StalePath(meta: seq<Entry>, e: Entry): string {
    var i := IndexOf(meta, e.id);
    if i < |meta| && meta[i].path != e.path then meta[i].path else ""
  }

  function WithoutFile(dir: seq<DirEntry>, path: string): seq<DirEntry> {
    if path == "" then dir else Removed(dir, Base(path))
  }

  /** What Put demands: a valid entry, and the upload of a template. */
  predicate Allowed(x: Syntax, dir: seq<DirEntry>, e: Entry) {
    Valid(x, e) && (e.data.kind.TemplateKind? ==> Base(e.path) in NamesIn(dir))
  }

  function AfterPut(x: Syntax, s: Store, e: Entry): Store {
    if Allowed(x, s.dir, e) then Snapshot(PutEntry(s.meta, e), WithoutFile(s.dir, StalePath(s.meta, e))) else s
  }

  datatype PutResult = Stored | Invalid | NoSuchUpload | NotStored

  method PutInStore(d: Disk<Details>, x: Syntax, e: Entry) returns (r: PutResult)
    requires !d.crashed
    modifies d
    ensures r == Invalid <==> !Valid(x, e)
    ensures r == NoSuchUpload ==> Valid(x, e) && !Allowed(x, old(d.dir), e)
    ensures r == Stored ==> Allowed(x, old(d.dir), e) && d.meta == PutEntry(old(d.meta), e)
    ensures d.meta == old(d.meta) || (Allowed(x, old(d.dir), e) && d.meta == PutEntry(old(d.meta), e))
    ensures d.dir == old(d.dir)
            || (d.meta == PutEntry(old(d.meta), e) && d.dir == WithoutFile(old(d.dir), StalePath(old(d.meta), e)))
    ensures r != Stored && !d.crashed ==> d.Now() == old(d.Now())
    ensures AtMostOneFails(old(d.fates)) && r == NotStored ==> Fated(d.fates).Succeeds?
    ensures old(d.fates) == [] ==>
              && !d.crashed && d.fates == [] && d.Now() == AfterPut(x, old(d.Now()), e)
              && (r == Stored <==> Allowed(x, old(d.dir), e))
  {
    hide Valid, Base, Removed, NamesIn, AtMostOneFails;
    ghost var store := d.Now();
    if AtMostOneFails(d.fates) {
      OneFails(d.fates);
      OneFails(Later(d.fates));
      OneFails(Later(Later(d.fates)));
    }
    var ok := Validate(x, e);
    if !ok {
      return Invalid;
    }
    if e.data.kind.TemplateKind? {
      ok := d.Look();
      if !ok {
        return NotStored;
      }
      if Base(e.path) !in NamesIn(d.dir) {
        return NoSuchUpload;
      }
    }
    assert Allowed(x, store.dir, e);
    ok := d.Look();
    if !ok {
      return NotStored;
    }
    var entries := d.meta;
    var stale := "";
    var i := 0;
    while i < |entries| && entries[i].id != e.id
      invariant 0 <= i <= |entries|
      invariant forall j | 0 <= j < i :: entries[j].id != e.id
    {
      i := i + 1;
    }
    if i < |entries| {
      if entries[i].path != "" && entries[i].path != e.path {
        stale := entries[i].path;
      }
      entries := entries[i := e];
    } else {
      entries := entries + [e];
    }
    assert i == IndexOf(d.meta, e.id);
    assert stale == StalePath(store.meta, e) && entries == PutEntry(store.meta, e);
    ok := d.ReplaceMeta(entries);
    if !ok {
      return NotStored;
    }
    if stale != "" {
      d.RemoveFile(Base(stale));
    }
    return Stored;
  }

  function AfterDelete(s: Store, id: string): Store {
    var i := IndexOf(s.meta, id);
    if i < |s.meta| then Snapshot(Without(s.meta, i), WithoutFile(s.dir, s.meta[i].path)) else s
  }

  method DeleteFromStore(d: Disk<Details>, id: string)
    requires !d.crashed
    modifies d
    ensures var i := IndexOf(old(d.meta), id);
            if i == |old(d.meta)| then d.Now() == old(d.Now())
            else
              && (d.meta == old(d.meta) || d.meta == Without(old(d.meta), i))
              && (d.dir == old(d.dir)
                  || (d.meta == Without(old(d.meta), i) && d.dir == WithoutFile(old(d.dir), old(d.meta)[i].path)))
    ensures old(d.fates) == [] ==> d.fates == [] && !d.crashed && d.Now() == AfterDelete(old(d.Now()), id)
  {
    hide Base, Removed;
    var ok := d.Look();
    if !ok {
      return;
    }
    var entries := d.meta;
    var index := 0;
    while index < |entries| && entries[index].id != id
      invariant 0 <= index <= |entries|
      invariant forall j | 0 <= j < index :: entries[j].id != id
    {
      index := index + 1;
    }
    assert index == IndexOf(entries, id);
    if index == |entries| {
      return;
    }
    var path := entries[index].path;
    entries := entries[..index] + entries[index + 1..];
    ok := d.ReplaceMeta(entries);
    if ok && path != "" {
      d.RemoveFile(Base(path));
    }
  }

  // ---- the quota, whoever calls ----

  /** One call that holds the store's mutex, or an upload removed after a request failed. */
  datatype Call =
    | Upload(name: string, size: FileSize)
    | Put(entry: Entry)
    | Drop(id: string)
    | Unlink(name: string)

  /** Uploads, changes, deletions and removals in any order, whoever makes them and whatever they meet, keep the
      directory within its limits. */
  method KeepQuota(x: Syntax, l: Limits, start: Store, calls: seq<Call>, fates: seq<seq<Fate>>) returns (end: Store)
    requires |fates| == |calls| && Within(start.dir, l)
    ensures Within(end.dir, l)
    ensures NoFailures(fates) ==> end == AfterCalls(x, l, start, calls)
  {
    hide Within, Removed, Accepts, PutEntry, StalePath, Valid, Base, NamesIn;
    var d := new Disk<Details>(start);
    for i := 0 to |calls|
      invariant Within(d.dir, l)
      invariant NoFailures(fates[..i]) ==> d.Now() == AfterCalls(x, l, start, calls[..i])
    {
      assert calls[..i + 1][..i] == calls[..i];
      NoFailuresYet(fates, i);
      d.Restart(fates[i]);
      ghost var s := d.Now();
      RemovalsStayWithin(s.dir, l);
      match calls[i] {
        case Upload(name, size) => var r := SaveUpload(d, l, name, size);
        case Put(e) => var r := PutInStore(d, x, e);
        case Drop(id) => DeleteFromStore(d, id);
        case Unlink(name) => d.RemoveFile(name);
      }
    }
    assert calls[..|calls|] == calls && fates[..|fates|] == fates;
    end := Snapshot(d.meta, d.dir);
  }

  function AfterCall(x: Syntax, l: Limits, s: Store, c: Call): Store {
    match c
    case Upload(name, size) =>
      if Accepts(s.dir, l, size) && name !in NamesIn(s.dir) then s.(dir := s.dir + [DirEntry(name, true, size)]) else s
    case Put(e) => AfterPut(x, s, e)
    case Drop(id) => AfterDelete(s, id)
    case Unlink(name) => s.(dir := Removed(s.dir, name))
  }

  /** The store after some calls of which none fails. */
  function AfterCalls(x: Syntax, l: Limits, s: Store, cs: seq<Call>): Store {
    if cs == [] then s else AfterCall(x, l, AfterCalls(x, l, s, cs[..|cs| - 1]), cs[|cs| - 1])
  }

  lemma RemovalsStayWithin(dir: seq<DirEntry>, l: Limits)
    requires Within(dir, l)
    ensures forall name :: Within(Removed(dir, name), l)
    ensures forall path :: Within(WithoutFile(dir, path), l)
  {
    hide Within, Removed, Base;
    forall name ensures Within(Removed(dir, name), l) {
      RemovalStaysWithin(dir, name, l);
    }
  }

  // ---- uploads that are lost ----

  /** Every template's upload is there. */
  ghost predicate TemplatesExist(s: Store) {
    forall e | e in s.meta && e.data.kind.TemplateKind? :: Base(e.path) in NamesIn(s.dir)
  }

  /** Some other entry is a template on the same file. */
  ghost predicate SharesUpload(meta: seq<Entry>, i: nat)
    requires i < |meta|
  {
    exists j | 0 <= j < |meta| ::
      j != i && meta[j].data.kind.TemplateKind? && Base(meta[j].path) == Base(meta[i].path)
  }

  lemma FilesAfter(dir: seq<DirEntry>, path: string)
    ensures NamesIn(WithoutFile(dir, path)) == if path == "" then NamesIn(dir) else NamesIn(dir) - {Base(path)}
  {
    hide Base, NamesIn;
    if path != "" {
      NamesRemoved(dir, Base(path));
    }
  }

  lemma NoFileRemoved(dir: seq<DirEntry>)
    ensures WithoutFile(dir, "") == dir
  {
  }

  /** Put loses an upload exactly if it replaces an entry's path by another string while the file is shared
      with another template, or is still the new entry's under the other string. */
  lemma PutLosesUploadIff(x: Syntax, s: Store, e: Entry)
    requires TemplatesExist(s)
    ensures !TemplatesExist(AfterPut(x, s, e)) <==>
              && Allowed(x, s.dir, e)
              && var i := IndexOf(s.meta, e.id);
                 && i < |s.meta| && s.meta[i].path != "" && s.meta[i].path != e.path
                 && ((e.data.kind.TemplateKind? && Base(e.path) == Base(s.meta[i].path)) || SharesUpload(s.meta, i))
  {
    hide Base, Valid, NamesIn, WithoutFile;
    var i, t := IndexOf(s.meta, e.id), AfterPut(x, s, e);
    if Allowed(x, s.dir, e) {
      FilesAfter(s.dir, StalePath(s.meta, e));
      forall f | f in t.meta && f.data.kind.TemplateKind?
        ensures f == e || exists j | 0 <= j < |s.meta| :: j != i && s.meta[j] == f
      {
        var k :| 0 <= k < |t.meta| && t.meta[k] == f;
      }
      if i < |s.meta| {
        assert t.meta[i] == e;
        assert forall j | 0 <= j < |s.meta| && j != i :: t.meta[j] == s.meta[j];
      } else {
        assert forall j | 0 <= j < |s.meta| :: t.meta[j] == s.meta[j];
      }
    }
  }

  /** Delete loses an upload exactly if another template shares it. */
  lemma DeleteLosesUploadIff(s: Store, id: string)
    requires TemplatesExist(s)
    ensures !TemplatesExist(AfterDelete(s, id)) <==>
              && var i := IndexOf(s.meta, id);
                 i < |s.meta| && s.meta[i].path != "" && SharesUpload(s.meta, i)
  {
    hide Base, NamesIn, WithoutFile;
    var i, t := IndexOf(s.meta, id), AfterDelete(s, id);
    if i < |s.meta| {
      FilesAfter(s.dir, s.meta[i].path);
      forall f | f in t.meta ensures exists j | 0 <= j < |s.meta| :: j != i && s.meta[j] == f {
        var k :| 0 <= k < |t.meta| && t.meta[k] == f;
        assert s.meta[if k < i then k else k + 1] == f;
      }
      forall j | 0 <= j < |s.meta| && j != i ensures s.meta[j] in t.meta {
        assert t.meta[if j < i then j else j - 1] == s.meta[j];
      }
    }
  }

  function Template(id: string, path: string): Entry {
    Record(id, path, Details(TemplateKind, "n", ["g"], "", ""))
  }

  function File(name: string): DirEntry {
    DirEntry(name, true, 1)
  }

  lemma TemplateIsValid(x: Syntax, id: string, stem: string)
    requires id != "" && Trimmed(id) && stem != "" && !IsSpace(stem[0])
    ensures Valid(x, Template(id, stem + ".rdp"))
  {
    hide Trim, IsSpace;
    var e := Template(id, stem + ".rdp");
    TrimMeaning(id);
    PathIsTrimmed(stem);
    LettersAreTrimmed();
    assert e.data.groups[0] == "g";
    assert Lower(e.path)[|stem|..] == ".rdp";
  }

  lemma PathIsTrimmed(stem: string)
    requires stem != "" && !IsSpace(stem[0])
    ensures Trim(stem + ".rdp") == stem + ".rdp"
  {
    hide Trim;
    var path := stem + ".rdp";
    assert path[0] == stem[0] && path[|path| - 1] == 'p';
    TrimMeaning(path);
  }

  lemma LettersAreTrimmed()
    ensures Trim("n") == "n" && Trim("g") == "g" && Trim("") == ""
  {
    hide Trim;
    TrimMeaning("n");
    TrimMeaning("g");
    TrimMeaning("");
  }

  /** Three paths, two of which are the same file. */
  lemma ThreeTemplates(x: Syntax)
    ensures forall id, path | id in ["1", "2"] && path in ["a.rdp", "b.rdp", "x/a.rdp"] ::
              Valid(x, Template(id, path))
    ensures Base("a.rdp") == Base("x/a.rdp") == "a.rdp" && Base("b.rdp") == "b.rdp"
  {
    hide Trim, Base, Valid;
    assert "a" + ".rdp" == "a.rdp" && "b" + ".rdp" == "b.rdp" && "x/a" + ".rdp" == "x/a.rdp";
    forall id, path | id in ["1", "2"] && path in ["a.rdp", "b.rdp", "x/a.rdp"]
      ensures Valid(x, Template(id, path))
    {
      TemplateIsValid(x, id, path[..|path| - 4]);
    }
    BaseIs("x", "a.rdp");
    BaseIs("x", "b.rdp");
    assert "x" + "/" + "a.rdp" == "x/a.rdp";
  }

  /** Two entries of one upload: replacing the template of the first takes the file of the second. */
  lemma PutTakesSharedUpload(x: Syntax)
    ensures var s := Snapshot([Template("1", "a.rdp"), Template("2", "a.rdp")], [File("a.rdp"), File("b.rdp")]);
            && (forall e | e in s.meta :: Valid(x, e)) && TemplatesExist(s)
            && Allowed(x, s.dir, Template("1", "b.rdp"))
            && !TemplatesExist(AfterPut(x, s, Template("1", "b.rdp")))
  {
    hide Base, Valid;
    var s := Snapshot([Template("1", "a.rdp"), Template("2", "a.rdp")], [File("a.rdp"), File("b.rdp")]);
    ThreeTemplates(x);
    assert s.dir[0].name == "a.rdp" && s.dir[1].name == "b.rdp";
    assert IndexOf(s.meta, "1") == 0;
    assert s.meta[1].data.kind.TemplateKind?;
    PutLosesUploadIff(x, s, Template("1", "b.rdp"));
  }

  /** One upload under two paths: replacing the one by the other takes the file just referred to. */
  lemma PutTakesItsOwnUpload(x: Syntax)
    ensures var s := Snapshot([Template("1", "a.rdp")], [File("a.rdp")]);
            && (forall e | e in s.meta :: Valid(x, e)) && TemplatesExist(s)
            && Allowed(x, s.dir, Template("1", "x/a.rdp"))
            && !TemplatesExist(AfterPut(x, s, Template("1", "x/a.rdp")))
  {
    hide Base, Valid;
    var s := Snapshot([Template("1", "a.rdp")], [File("a.rdp")]);
    ThreeTemplates(x);
    assert s.dir[0].name == "a.rdp";
    assert IndexOf(s.meta, "1") == 0;
    PutLosesUploadIff(x, s, Template("1", "x/a.rdp"));
  }

  /** Two entries of one upload: deleting the first takes the file of the second. */
  lemma DeleteTakesSharedUpload(x: Syntax)
    ensures var s := Snapshot([Template("1", "a.rdp"), Template("2", "a.rdp")], [File("a.rdp")]);
            && (forall e | e in s.meta :: Valid(x, e)) && TemplatesExist(s)
            && !TemplatesExist(AfterDelete(s, "1"))
  {
    hide Base, Valid;
    var s := Snapshot([Template("1", "a.rdp"), Template("2", "a.rdp")], [File("a.rdp")]);
    ThreeTemplates(x);
    assert s.dir[0].name == "a.rdp";
    assert IndexOf(s.meta, "1") == 0;
    assert s.meta[1].data.kind.TemplateKind?;
    DeleteLosesUploadIff(s, "1");
  }

  // ---- admin requests ----

  datatype Request =
    | CreateTemplate(id: string, upload: string, details: Details, size: FileSize)
    | CreateHost(id: string, details: Details)
    | Update(id: string, details: Details)
    | Delete(id: string)

  /** The entry a request makes, or makes of the one it names. */
  function EntryOf(q: Request, path: string, kind: Kind): Entry
    requires !q.Delete?
  {
    Record(q.id, path, q.details.(kind := kind))
  }

  function UploadName(q: Request): string
    requires q.CreateTemplate?
  {
    q.upload + ".rdp"
  }

  /** Generated ids and names are new. */
  predicate Fresh(s: Store, q: Request) {
    match q
    case CreateTemplate(id, upload, _, _) =>
      IndexOf(s.meta, id) == |s.meta| && PlainName(upload) && upload + ".rdp" !in NamesIn(s.dir)
    case CreateHost(id, _) => IndexOf(s.meta, id) == |s.meta|
    case _ => true
  }

  /** What a request amounts to if nothing fails. */
  function AfterRequest(x: Syntax, l: Limits, s: Store, q: Request): Store {
    match q
    case CreateTemplate(_, _, _, size) =>
      var e := EntryOf(q, UploadName(q), TemplateKind);
      if Accepts(s.dir, l, size) && Valid(x, e)
      then Snapshot(s.meta + [e], s.dir + [DirEntry(UploadName(q), true, size)])
      else s
    case CreateHost(_, _) => AfterPut(x, s, EntryOf(q, "", HostKind))
    case Update(id, _) =>
      var i := IndexOf(s.meta, id);
      if i < |s.meta| then AfterPut(x, s, EntryOf(q, s.meta[i].path, s.meta[i].data.kind)) else s
    case Delete(id) => AfterDelete(s, id)
  }

  /** What holds of the entries at every moment. */
  ghost predicate Good(s: Store) {
    && Sound(s.meta, NamesIn(s.dir))
    && forall e | e in s.meta && e.data.kind.TemplateKind? :: e.path != ""
  }

  lemma GoodTemplatesExist(s: Store)
    requires Good(s)
    ensures TemplatesExist(s)
  {
    hide Base;
  }

  lemma NothingIsGood()
    ensures Good(NOTHING) && Tidy(NOTHING)
  {
  }

  /** Upload a template and make an entry of it; without the entry the upload is removed again, so that a single
      failure that is no crash leaves everything as it was. */
  method CreateTemplateEntry(d: Disk<Details>, x: Syntax, l: Limits, q: Request)
    requires !d.crashed && Good(d.Now())
    requires q.CreateTemplate? && Fresh(d.Now(), q)
    modifies d
    ensures Good(d.Now())
    ensures AtMostOneFails(old(d.fates)) && !d.crashed && Valid(x, EntryOf(q, UploadName(q), TemplateKind)) ==>
              d.Now() == old(d.Now()) || d.Now() == AfterRequest(x, l, old(d.Now()), q)
    ensures Within(old(d.dir), l) ==> Within(d.dir, l)
    ensures d.meta == old(d.meta) || d.meta == AfterRequest(x, l, old(d.Now()), q).meta
    ensures old(d.fates) == [] ==> !d.crashed && d.Now() == AfterRequest(x, l, old(d.Now()), q)
  {
    hide Base, Valid, Within, NamesIn, Removed, Accepts, AtMostOneFails;
    ghost var s := d.Now();
    var name := UploadName(q);
    var uploaded := SaveUpload(d, l, name, q.size);
    NewTemplateIsGood(s, q);
    if uploaded != Uploaded {
      return;
    }
    var e := EntryOf(q, name, TemplateKind);
    NamesAppended(s.dir, DirEntry(name, true, q.size));
    var r := PutInStore(d, x, e);
    if r != Stored && !d.crashed {
      d.RemoveFile(name);
      AddedAndRemoved(s.dir, DirEntry(name, true, q.size));
    }
  }

  lemma NewTemplateIsGood(s: Store, q: Request)
    requires Good(s) && q.CreateTemplate? && Fresh(s, q)
    ensures var e := EntryOf(q, UploadName(q), TemplateKind);
            && PutEntry(s.meta, e) == s.meta + [e] && StalePath(s.meta, e) == ""
            && Base(UploadName(q)) == UploadName(q)
            && forall dir: seq<DirEntry> ::
                 && (NamesIn(dir) == NamesIn(s.dir) ==> Good(Snapshot(s.meta, dir)))
                 && (NamesIn(dir) == NamesIn(s.dir) + {UploadName(q)} ==>
                       Good(Snapshot(s.meta, dir)) && Good(Snapshot(s.meta + [e], dir)))
  {
    hide Base, NamesIn;
    var name, e := UploadName(q), EntryOf(q, UploadName(q), TemplateKind);
    GeneratedName(q.upload, ".rdp");
    UnusedIsLast(s.meta, q.id);
    AppendedIsSound(s.meta, NamesIn(s.dir), e);
  }

  method CreateHostEntry(d: Disk<Details>, x: Syntax, l: Limits, q: Request)
    requires !d.crashed && Good(d.Now())
    requires q.CreateHost? && Fresh(d.Now(), q)
    modifies d
    ensures Good(d.Now()) && d.dir == old(d.dir)
    ensures d.meta == old(d.meta) || d.meta == AfterRequest(x, l, old(d.Now()), q).meta
    ensures old(d.fates) == [] ==> !d.crashed && d.Now() == AfterRequest(x, l, old(d.Now()), q)
  {
    hide Base, Valid, NamesIn;
    var e := EntryOf(q, "", HostKind);
    NewHostIsGood(d.Now(), q);
    var r := PutInStore(d, x, e);
  }

  lemma NewHostIsGood(s: Store, q: Request)
    requires Good(s) && q.CreateHost? && Fresh(s, q)
    ensures var e := EntryOf(q, "", HostKind);
            && PutEntry(s.meta, e) == s.meta + [e] && StalePath(s.meta, e) == ""
            && Good(Snapshot(s.meta + [e], s.dir))
  {
    hide Base, NamesIn;
    UnusedIsLast(s.meta, q.id);
    AppendedIsSound(s.meta, NamesIn(s.dir), EntryOf(q, "", HostKind));
  }

  /** Change an entry but not its file. */
  method UpdateEntry(d: Disk<Details>, x: Syntax, l: Limits, q: Request)
    requires !d.crashed && Good(d.Now()) && q.Update?
    modifies d
    ensures Good(d.Now()) && d.dir == old(d.dir)
    ensures d.meta == old(d.meta) || d.meta == AfterRequest(x, l, old(d.Now()), q).meta
    ensures old(d.fates) == [] ==> !d.crashed && d.Now() == AfterRequest(x, l, old(d.Now()), q)
  {
    hide Base, Valid, NamesIn;
    var ok := d.Look();
    if !ok {
      return;
    }
    var i := IndexOf(d.meta, q.id);
    if i == |d.meta| {
      return;
    }
    var e := EntryOf(q, d.meta[i].path, d.meta[i].data.kind);
    UpdatedIsGood(d.Now(), i, e);
    var r := PutInStore(d, x, e);
  }

  lemma UpdatedIsGood(s: Store, i: nat, e: Entry)
    requires Good(s) && i < |s.meta|
    requires e.id == s.meta[i].id && e.path == s.meta[i].path && e.data.kind == s.meta[i].data.kind
    ensures Good(Snapshot(s.meta[i := e], s.dir)) && FilesOf(s.meta[i := e]) == FilesOf(s.meta)
  {
    hide Base, NamesIn;
    SameRefsSound(s.meta, s.meta[i := e]);
    assert s.meta[i] in s.meta;
  }

  method DeleteEntry(d: Disk<Details>, x: Syntax, l: Limits, q: Request)
    requires !d.crashed && Good(d.Now()) && q.Delete?
    modifies d
    ensures Good(d.Now())
    ensures Within(old(d.dir), l) ==> Within(d.dir, l)
    ensures d.meta == old(d.meta) || d.meta == AfterRequest(x, l, old(d.Now()), q).meta
    ensures old(d.fates) == [] ==> !d.crashed && d.Now() == AfterRequest(x, l, old(d.Now()), q)
  {
    hide Base, NamesIn, Within, Removed;
    ghost var s, i := d.Now(), IndexOf(d.meta, q.id);
    if i < |s.meta| {
      DeletedIsGood(s, i);
      if Within(s.dir, l) { RemovalStaysWithin(s.dir, Base(s.meta[i].path), l); }
    }
    var ok := d.Look();
    if !ok || IndexOf(d.meta, q.id) == |d.meta| {
      return;
    }
    DeleteFromStore(d, q.id);
  }

  lemma DeletedIsGood(s: Store, i: nat)
    requires Good(s) && i < |s.meta|
    ensures Good(Snapshot(Without(s.meta, i), s.dir))
    ensures Good(Snapshot(Without(s.meta, i), WithoutFile(s.dir, s.meta[i].path)))
  {
    hide Base, NamesIn, WithoutFile;
    SeparateWithout(s.meta, i);
    WithoutFiles(s.meta, i);
    FilesAfter(s.dir, s.meta[i].path);
    FilesDecide(s.meta, NamesIn(s.dir));
    FilesDecide(Without(s.meta, i), NamesIn(s.dir));
    FilesDecide(Without(s.meta, i), NamesIn(WithoutFile(s.dir, s.meta[i].path)));
  }

  // ---- any sequence of requests ----

  method ServeOne(d: Disk<Details>, x: Syntax, l: Limits, q: Request)
    requires !d.crashed && Good(d.Now()) && Fresh(d.Now(), q)
    modifies d
    ensures Good(d.Now())
    ensures Within(old(d.dir), l) ==> Within(d.dir, l)
    ensures d.meta == old(d.meta) || d.meta == AfterRequest(x, l, old(d.Now()), q).meta
    ensures old(d.fates) == [] ==> d.Now() == AfterRequest(x, l, old(d.Now()), q)
  {
    match q {
      case CreateTemplate(_, _, _, _) => CreateTemplateEntry(d, x, l, q);
      case CreateHost(_, _) => CreateHostEntry(d, x, l, q);
      case Update(_, _) => UpdateEntry(d, x, l, q);
      case Delete(_) => DeleteEntry(d, x, l, q);
    }
  }

  /** The store after some requests of which none fails; requests whose generated names are taken do not occur. */
  function Served(x: Syntax, l: Limits, s: Store, qs: seq<Request>): Store {
    if qs == [] then s
    else
      var t := Served(x, l, s, qs[..|qs| - 1]);
      if Fresh(t, qs[|qs| - 1]) then AfterRequest(x, l, t, qs[|qs| - 1]) else t
  }

  /** Requests one after the other, each meeting what failures it may: after every one of them, whatever it
      met, each template has its file, and the directory is within its limits if it was before. */
  method Serve(x: Syntax, l: Limits, start: Store, qs: seq<Request>, fates: seq<seq<Fate>>) returns (end: Store)
    requires Good(start) && |fates| == |qs|
    ensures Good(end) && TemplatesExist(end)
    ensures Within(start.dir, l) ==> Within(end.dir, l)
    ensures NoFailures(fates) ==> end == Served(x, l, start, qs)
  {
    hide Good, Within, TemplatesExist, AfterRequest;
    var d := new Disk<Details>(start);
    for i := 0 to |qs|
      invariant Good(d.Now())
      invariant Within(start.dir, l) ==> Within(d.dir, l)
      invariant NoFailures(fates[..i]) ==> d.Now() == Served(x, l, start, qs[..i])
    {
      assert qs[..i + 1][..i] == qs[..i];
      NoFailuresYet(fates, i);
      d.Restart(fates[i]);
      if Fresh(Snapshot(d.meta, d.dir), qs[i]) {
        ServeOne(d, x, l, qs[i]);
      }
    }
    assert qs[..|qs|] == qs && fates[..|fates|] == fates;
    GoodTemplatesExist(d.Now());
    end := Snapshot(d.meta, d.dir);
  }

  lemma RequestKeepsTidy(x: Syntax, l: Limits, s: Store, q: Request)
    requires Good(s) && Fresh(s, q) && Tidy(s)
    ensures Good(AfterRequest(x, l, s, q)) && Tidy(AfterRequest(x, l, s, q))
  {
    hide Base, NamesIn, Valid, Accepts, WithoutFile;
    match q {
      case CreateTemplate(_, _, _, size) =>
        var e, f := EntryOf(q, UploadName(q), TemplateKind), DirEntry(UploadName(q), true, size);
        NewTemplateIsGood(s, q);
        NamesAppended(s.dir, f);
        FilesOfAppended(s.meta, e);
        assert Good(Snapshot(s.meta + [e], s.dir + [f]));
      case CreateHost(_, _) =>
        NewHostIsGood(s, q);
        FilesOfAppended(s.meta, EntryOf(q, "", HostKind));
        NoFileRemoved(s.dir);
      case Update(id, _) =>
        var i := IndexOf(s.meta, id);
        if i < |s.meta| {
          UpdatedIsGood(s, i, EntryOf(q, s.meta[i].path, s.meta[i].data.kind));
          NoFileRemoved(s.dir);
        }
      case Delete(id) =>
        var i := IndexOf(s.meta, id);
        if i < |s.meta| {
          DeletedIsGood(s, i);
          WithoutFiles(s.meta, i);
          FilesAfter(s.dir, s.meta[i].path);
        }
    }
  }

  /** Without failures the directory holds exactly the templates' files, after any requests. */
  lemma {:induction false} ServedIsTidy(x: Syntax, l: Limits, s: Store, qs: seq<Request>)
    requires Good(s) && Tidy(s)
    ensures Good(Served(x, l, s, qs)) && Tidy(Served(x, l, s, qs))
  {
    hide Good, Tidy, AfterRequest, Fresh;
    if qs != [] {
      var n := |qs| - 1;
      ServedIsTidy(x, l, s, qs[..n]);
      if Fresh(Served(x, l, s, qs[..n]), qs[n]) {
        RequestKeepsTidy(x, l, Served(x, l, s, qs[..n]), qs[n]);
      }
    }
  }

  // ---- what requests do to the entries ----

  /** What a request without failures does, entry by entry. */
  lemma RequestMeaning(x: Syntax, l: Limits, s: Store, q: Request)
    requires Good(s) && Fresh(s, q)
    ensures var t, i := AfterRequest(x, l, s, q), IndexOf(s.meta, q.id);
            match q
            case CreateTemplate(id, upload, d, size) =>
              var e := Record(id, upload + ".rdp", d.(kind := TemplateKind));
              if Valid(x, e) && Accepts(s.dir, l, size)
              then t.meta == s.meta + [e] && t.dir == s.dir + [DirEntry(upload + ".rdp", true, size)]
              else t == s
            case CreateHost(id, d) =>
              var e := Record(id, "", d.(kind := HostKind));
              t.dir == s.dir && t.meta == if Valid(x, e) then s.meta + [e] else s.meta
            case Update(id, d) =>
              && t.dir == s.dir && |t.meta| == |s.meta|
              && forall j | 0 <= j < |s.meta| ::
                   t.meta[j] == if j == i && Valid(x, Changed(s.meta[j], d)) then Changed(s.meta[j], d) else s.meta[j]
            case Delete(id) =>
              t.meta == (if i < |s.meta| then s.meta[..i] + s.meta[i + 1..] else s.meta)
  {
    hide Base, NamesIn, Valid, Accepts, WithoutFile;
    NoFileRemoved(s.dir);
    match q {
      case CreateTemplate(_, _, _, _) =>
      case CreateHost(_, _) =>
        NewHostIsGood(s, q);
      case Update(id, d) =>
        var i := IndexOf(s.meta, id);
        if i < |s.meta| {
          UpdateIsAllowed(x, s, i, d);
        }
      case Delete(_) =>
    }
  }

  /** An entry with other details, but of its old kind and path. */
  function Changed(e: Entry, d: Details): Entry {
    Record(e.id, e.path, Details(e.data.kind, d.name, d.groups, d.host, d.ipOverride))
  }

  lemma UpdateIsAllowed(x: Syntax, s: Store, i: nat, d: Details)
    requires Good(s) && i < |s.meta|
    ensures Allowed(x, s.dir, Changed(s.meta[i], d)) <==> Valid(x, Changed(s.meta[i], d))
  {
    hide Base, NamesIn, Valid;
    assert s.meta[i] in s.meta;
  }

  /** The entries as a table from ids, kept without regard to the list. */
  type Catalog = map<string, Entry>

  /** Whether there is room for an upload is for the directory to say. */
  function Noted(x: Syntax, c: Catalog, q: Request, room: bool): Catalog {
    match q
    case CreateTemplate(id, upload, d, size) =>
      var e := Record(id, upload + ".rdp", d.(kind := TemplateKind));
      if room && Valid(x, e) then c[id := e] else c
    case CreateHost(id, d) =>
      var e := Record(id, "", d.(kind := HostKind));
      if Valid(x, e) then c[id := e] else c
    case Update(id, d) =>
      if id in c && Valid(x, Changed(c[id], d)) then c[id := Changed(c[id], d)] else c
    case Delete(id) => c - {id}
  }

  function Catalogued(x: Syntax, l: Limits, s: Store, c: Catalog, qs: seq<Request>): Catalog {
    if qs == [] then c
    else
      var n := |qs| - 1;
      var q, t, d := qs[n], Served(x, l, s, qs[..n]), Catalogued(x, l, s, c, qs[..n]);
      if Fresh(t, q) then Noted(x, d, q, q.CreateTemplate? ==> Accepts(t.dir, l, q.size)) else d
  }

  /** The list holds the table's entries, each once, and no others. */
  ghost predicate Lists(meta: seq<Entry>, c: Catalog) {
    && (forall j | 0 <= j < |meta| :: Noting(c, meta[j]))
    && (forall id | id in c :: IndexOf(meta, id) < |meta|)
    && (forall j, k | 0 <= j < k < |meta| :: meta[j].id != meta[k].id)
  }

  predicate Noting(c: Catalog, e: Entry) {
    e.id in c && c[e.id] == e
  }

  lemma Indexed(meta: seq<Entry>, j: nat)
    requires j < |meta|
    ensures IndexOf(meta, meta[j].id) < |meta|
  {
  }

  lemma AppendedLists(meta: seq<Entry>, c: Catalog, e: Entry)
    requires Lists(meta, c) && IndexOf(meta, e.id) == |meta|
    ensures Lists(meta + [e], c[e.id := e])
  {
    hide IndexOf;
    var all, c' := meta + [e], c[e.id := e];
    forall j | 0 <= j < |all| ensures Noting(c', all[j]) {
      if j < |meta| { assert Noting(c, meta[j]); }
    }
    forall id | id in c' ensures IndexOf(all, id) < |all| {
      var j := if id == e.id then |meta| else IndexOf(meta, id);
      assert all[j].id == id;
      Indexed(all, j);
    }
  }

  lemma ChangedLists(meta: seq<Entry>, meta': seq<Entry>, c: Catalog, i: nat, e: Entry)
    requires Lists(meta, c) && i < |meta| && e.id == meta[i].id && meta' == meta[i := e]
    ensures Lists(meta', c[e.id := e])
  {
    hide IndexOf;
    var c' := c[e.id := e];
    forall j | 0 <= j < |meta'| ensures Noting(c', meta'[j]) {
      if j != i { assert Noting(c, meta[j]); }
    }
    forall id | id in c' ensures IndexOf(meta', id) < |meta'| {
      var j := if id == e.id then i else IndexOf(meta, id);
      assert meta'[j].id == id;
      Indexed(meta', j);
    }
  }

  lemma WithoutLists(meta: seq<Entry>, c: Catalog, i: nat)
    requires Lists(meta, c) && i < |meta|
    ensures Lists(Without(meta, i), c - {meta[i].id})
  {
    hide IndexOf;
    var rest, c' := Without(meta, i), c - {meta[i].id};
    forall j | 0 <= j < |rest| ensures Noting(c', rest[j]) {
      var k := if j < i then j else j + 1;
      assert rest[j] == meta[k] && Noting(c, meta[k]);
    }
    forall id | id in c' ensures IndexOf(rest, id) < |rest| {
      var k := IndexOf(meta, id);
      assert meta[k].id == id;
      var j := if k < i then k else k - 1;
      assert rest[j] == meta[k];
      Indexed(rest, j);
    }
  }

  lemma NotListed(meta: seq<Entry>, c: Catalog, id: string)
    requires Lists(meta, c) && IndexOf(meta, id) == |meta|
    ensures id !in c && c - {id} == c
  {
  }

  lemma ListedAt(meta: seq<Entry>, c: Catalog, i: nat)
    requires Lists(meta, c) && i < |meta|
    ensures meta[i].id in c && c[meta[i].id] == meta[i]
  {
    assert Noting(c, meta[i]);
  }

  lemma RequestIsNoted(x: Syntax, l: Limits, s: Store, c: Catalog, q: Request)
    requires Good(s) && Fresh(s, q) && Lists(s.meta, c)
    ensures Lists(AfterRequest(x, l, s, q).meta, Noted(x, c, q, q.CreateTemplate? ==> Accepts(s.dir, l, q.size)))
  {
    hide Base, NamesIn, Valid, Accepts, AfterRequest, Lists, IndexOf, Good;
    RequestMeaning(x, l, s, q);
    var t, i := AfterRequest(x, l, s, q), IndexOf(s.meta, q.id);
    if i < |s.meta| {
      ListedAt(s.meta, c, i);
    } else {
      NotListed(s.meta, c, q.id);
    }
    match q {
      case CreateTemplate(id, upload, d, size) =>
        AppendedLists(s.meta, c, Record(id, upload + ".rdp", d.(kind := TemplateKind)));
      case CreateHost(id, d) =>
        AppendedLists(s.meta, c, Record(id, "", d.(kind := HostKind)));
      case Update(id, d) =>
        if i < |s.meta| && Valid(x, Changed(s.meta[i], d)) {
          assert t.meta == s.meta[i := Changed(s.meta[i], d)];
          ChangedLists(s.meta, t.meta, c, i, Changed(s.meta[i], d));
        } else {
          assert t.meta == s.meta;
        }
      case Delete(_) =>
        if i < |s.meta| { WithoutLists(s.meta, c, i); }
    }
  }

  /** After any requests without failures the list is what the table of the same requests says. */
  lemma {:induction false} ServedIsCatalogued(x: Syntax, l: Limits, s: Store, c: Catalog, qs: seq<Request>)
    requires Good(s) && Tidy(s) && Lists(s.meta, c)
    ensures Lists(Served(x, l, s, qs).meta, Catalogued(x, l, s, c, qs))
  {
    hide Good, Tidy, AfterRequest, Fresh, Lists, Noted, Accepts;
    if qs != [] {
      var n := |qs| - 1;
      ServedIsCatalogued(x, l, s, c, qs[..n]);
      ServedIsTidy(x, l, s, qs[..n]);
      if Fresh(Served(x, l, s, qs[..n]), qs[n]) {
        RequestIsNoted(x, l, Served(x, l, s, qs[..n]), Catalogued(x, l, s, c, qs[..n]), qs[n]);
      }
    }
  }

  // ---- a gateway from its settings on ----

  /** From the empty store and under the limits of validated settings: whatever is requested and whatever fails,
      the templates have their files and the uploads are within the configured number and megabytes; and if
      nothing fails, the directory holds the templates' files and no others. */
  method ServeConfigured(x: Syntax, c: DashboardSettings, qs: seq<Request>, fates: seq<seq<Fate>>)
    returns (ok: bool, end: Store)
    requires |fates| == |qs|
    ensures ok <==> ValidSettings(c)
    ensures ok ==> TemplatesExist(end)
    ensures ok && c.maxTemplateUploads > 0 ==> FileCount(end.dir) <= c.maxTemplateUploads as int
    ensures ok && c.maxTemplateUploadStorageMb > 0 ==>
              TotalBytes(end.dir) <= c.maxTemplateUploadStorageMb as int * 0x10_0000
    ensures ok && NoFailures(fates) ==> end == Served(x, TemplateLimits(c), NOTHING, qs) && Tidy(end)
    ensures ok && NoFailures(fates) ==> Lists(end.meta, Catalogued(x, TemplateLimits(c), NOTHING, map[], qs))
  {
    hide Tidy, TemplatesExist;
    end := NOTHING;
    ok := ValidateDashboard(c);
    if ok {
      NothingIsGood();
      end := Serve(x, TemplateLimits(c), NOTHING, qs, fates);
      ServedIsTidy(x, TemplateLimits(c), NOTHING, qs);
      ServedIsCatalogued(x, TemplateLimits(c), NOTHING, map[], qs);
    }
  }

  /** The same limits hold for any calls, in whatever order requests interleave. */
  method KeepConfiguredQuota(x: Syntax, c: DashboardSettings, calls: seq<Call>, fates: seq<seq<Fate>>)
    returns (ok: bool, end: Store)
    requires |fates| == |calls|
    ensures ok <==> ValidSettings(c)
    ensures ok && c.maxTemplateUploads > 0 ==> FileCount(end.dir) <= c.maxTemplateUploads as int
    ensures ok && c.maxTemplateUploadStorageMb > 0 ==>
              TotalBytes(end.dir) <= c.maxTemplateUploadStorageMb as int * 0x10_0000
    ensures ok && NoFailures(fates) ==> end == AfterCalls(x, TemplateLimits(c), NOTHING, calls)
  {
    end := NOTHING;
    ok := ValidateDashboard(c);
    if ok {
      end := KeepQuota(x, TemplateLimits(c), NOTHING, calls, fates);
    }
  }
}
