/** The store of uploaded icons, one of which is active. */
module Icons {
  import opened Bytes
  import opened RdpText
  import opened Names
  import opened Quota
  import opened Disks

  datatype IconData = IconData(originalName: string, contentType: string, active: bool)

  type Icon = Record<IconData>

  type Store = Snapshot<IconData>

  const NOTHING: Store := Snapshot([], [])

  // ---- names and contents ----

  datatype IconName = IconName(ext: string, contentType: string) | NoIcon

  function ValidateIconName(filename: string): IconName {
    var ext := Lower(Ext(Trim(filename)));
    if ext == ".ico" || ext == ".icon" then IconName(ext, "image/x-icon")
    else if ext == ".png" then IconName(ext, "image/png")
    else if ext == ".jpg" || ext == ".jpeg" then IconName(ext, "image/jpeg")
    else NoIcon
  }

  predicate SafeIcon(icon: Icon) {
    var n := ValidateIconName(icon.path);
    n.IconName? && icon.data.contentType == n.contentType
  }

  /** What is read of the metadata: items with a name and type that could have been stored. */
  function FilterSafeIcons(icons: seq<Icon>): seq<Icon> {
    if icons == [] then []
    else (if SafeIcon(icons[0]) then [icons[0]] else []) + FilterSafeIcons(icons[1..])
  }

  predicate AllSafe(icons: seq<Icon>) {
    forall i | i in icons :: SafeIcon(i)
  }

  lemma {:induction false} FilterKeepsSafe(icons: seq<Icon>)
    requires AllSafe(icons)
    ensures FilterSafeIcons(icons) == icons
  {
    hide SafeIcon;
    if icons != [] {
      FilterKeepsSafe(icons[1..]);
    }
  }

  /** What is read has a name and type that could have been stored, and nothing that has them is left out. */
  lemma {:induction false} FilterMeaning(icons: seq<Icon>, icon: Icon)
    ensures icon in FilterSafeIcons(icons)
       <==> && icon in icons
            && Lower(Ext(Trim(icon.path))) in [".ico", ".icon", ".png", ".jpg", ".jpeg"]
            && icon.data.contentType == TypeFor(Lower(Ext(Trim(icon.path))))
  {
    hide Lower, Ext, Trim;
    IconNamesMeaning(icon.path);
    if icons != [] {
      FilterMeaning(icons[1..], icon);
    }
  }

  lemma IconExtension(originalName: string)
    ensures var n := ValidateIconName(originalName);
            n.IconName? ==>
              && |n.ext| >= 2 && n.ext[0] == '.' && (forall k | 1 <= k < |n.ext| :: 'a' <= n.ext[k] <= 'z')
              && n.ext in [".ico", ".icon", ".png", ".jpg", ".jpeg"]
              && n.contentType in ["image/x-icon", "image/png", "image/jpeg"]
  {
    hide Lower, Ext, Trim;
  }

  /** The name an icon is stored under passes the test its metadata is read with, and is a plain file name. */
  lemma StoredNameIsSafe(id: string, originalName: string, data: IconData)
    requires PlainName(id)
    ensures var n := ValidateIconName(originalName);
            n.IconName? ==>
              && (data.contentType == n.contentType ==> SafeIcon(Record(id, id + n.ext, data)))
              && Base(id + n.ext) == id + n.ext
  {
    hide Lower, Ext, Trim, Base;
    var n := ValidateIconName(originalName);
    if n.IconName? {
      IconExtension(originalName);
      ExtOfName(id, n.ext);
      LowerOfLower(n.ext);
      GeneratedName(id, n.ext);
    }
  }

  /** The header of an ICO file: reserved, type, and a positive number of images below 256. */
  predicate IcoHeader(data: Bytes) {
    |data| >= 6 && Get16(data, 0) == 0 && Get16(data, 2) in [1, 2] && 0 < Get16(data, 4) < 256
  }

  /** `format` is what the image decoders make of the data, or empty. */
  predicate ContentFits(contentType: string, data: Bytes, format: string) {
    || (contentType == "image/png" && format == "png")
    || (contentType == "image/jpeg" && format == "jpeg")
    || (contentType == "image/x-icon" && IcoHeader(data))
  }

  method ValidateIconContent(contentType: string, data: Bytes, format: string) returns (ok: bool)
    ensures ok <==> ContentFits(contentType, data, format)
  {
    if contentType == "image/png" {
      return format == "png";
    } else if contentType == "image/jpeg" {
      return format == "jpeg";
    } else if contentType == "image/x-icon" {
      return !(|data| < 6 || data[0] != 0 || data[1] != 0 || (data[2] != 1 && data[2] != 2) || data[3] != 0
               || data[4] == 0 || data[5] != 0);
    } else {
      return false;
    }
  }

  // ---- the active icon ----

  function ActiveCount(icons: seq<Icon>): nat {
    if icons == [] then 0 else (if icons[0].data.active then 1 else 0) + ActiveCount(icons[1..])
  }

  /** One icon is active whenever there is one at all. */
  predicate OneActive(icons: seq<Icon>) {
    icons != [] ==> ActiveCount(icons) == 1
  }

  lemma {:induction false} ActiveCountAppend(a: seq<Icon>, b: seq<Icon>)
    ensures ActiveCount(a + b) == ActiveCount(a) + ActiveCount(b)
  {
    if a == [] {
      assert a + b == b;
    } else {
      ActiveCountAppend(a[1..], b);
      assert (a + b)[1..] == a[1..] + b;
    }
  }

  function WithActive(icon: Icon, active: bool): Icon {
    icon.(data := icon.data.(active := active))
  }

  /** SetActiveIcon: exactly the icon with this id is active. */
  function Activated(icons: seq<Icon>, id: string): (r: seq<Icon>)
    ensures |r| == |icons|
    ensures forall i | 0 <= i < |icons| :: r[i] == WithActive(icons[i], icons[i].id == id)
  {
    if icons == [] then [] else [WithActive(icons[0], icons[0].id == id)] + Activated(icons[1..], id)
  }

  lemma {:induction false} ActivatedCount(icons: seq<Icon>, id: string)
    requires Separate(icons)
    ensures ActiveCount(Activated(icons, id)) == if UnusedId(icons, id) then 0 else 1
  {
    hide Base;
    if icons != [] {
      ActivatedCount(icons[1..], id);
      assert Separate(icons[1..]);
      if icons[0].id == id {
        assert UnusedId(icons[1..], id);
        assert icons[0] in icons;
      } else {
        assert UnusedId(icons, id) <==> UnusedId(icons[1..], id) by {
          assert forall e | e in icons :: e == icons[0] || e in icons[1..];
          assert forall e | e in icons[1..] :: e in icons;
        }
      }
    }
  }

  /** DeleteIcon: the icon goes, and the first of the others takes over if it was the active one. */
  function Deleted(icons: seq<Icon>, i: nat): seq<Icon>
    requires i < |icons|
  {
    var rest := Without(icons, i);
    if icons[i].data.active && rest != [] then rest[0 := WithActive(rest[0], true)] else rest
  }

  lemma DeletedCount(icons: seq<Icon>, i: nat)
    requires i < |icons| && OneActive(icons)
    ensures OneActive(Deleted(icons, i))
  {
    var rest := Without(icons, i);
    ActiveCountAppend(icons[..i], icons[i..]);
    ActiveCountAppend(icons[..i], icons[i + 1..]);
    assert icons == icons[..i] + icons[i..] && icons[i..][1..] == icons[i + 1..];
    if icons[i].data.active && rest != [] {
      assert rest[0 := WithActive(rest[0], true)][1..] == rest[1..];
    }
  }

  // ---- the store ----

  /** What holds of the icons at every moment. */
  ghost predicate Good(s: Store) {
    Sound(s.meta, NamesIn(s.dir)) && OneActive(s.meta) && AllSafe(s.meta)
  }

  lemma NothingIsGood()
    ensures Good(NOTHING) && Tidy(NOTHING)
  {
  }

  datatype Request =
    | Save(originalName: string, data: Bytes, format: string, id: string)
    | Activate(rawId: string)
    | Delete(rawId: string)

  /** Generated ids are new. */
  predicate Fresh(s: Store, q: Request) {
    q.Save? ==>
      && PlainName(q.id) && IndexOf(s.meta, q.id) == |s.meta|
      && var n := ValidateIconName(q.originalName);
         n.IconName? ==> q.id + n.ext !in NamesIn(s.dir)
  }

  predicate Uploadable(q: Request)
    requires q.Save?
  {
    var n := ValidateIconName(q.originalName);
    n.IconName? && q.data != [] && ContentFits(n.contentType, q.data, q.format)
  }

  /** Go's length of the data. */
  function SizeOf(q: Request): FileSize
    requires q.Save? && |q.data| <= MAX_INT64
  {
    |q.data| as FileSize
  }

  /** The icon a request makes of its upload: active if it is the first. */
  function NewIcon(s: Store, q: Request): Icon
    requires q.Save? && Uploadable(q)
  {
    var n := ValidateIconName(q.originalName);
    Record(q.id, q.id + n.ext, IconData(Base(Trim(q.originalName)), n.contentType, s.meta == []))
  }

  predicate Sized(q: Request) {
    q.Save? ==> |q.data| <= MAX_INT64
  }

  /** What a request amounts to if nothing fails. */
  function AfterRequest(l: Limits, s: Store, q: Request): Store
    requires Sized(q)
  {
    match q
    case Save(_, _, _, _) =>
      if Uploadable(q) && Accepts(s.dir, l, SizeOf(q)) then
        var icon := NewIcon(s, q);
        Snapshot(s.meta + [icon], s.dir + [DirEntry(icon.path, true, SizeOf(q))])
      else s
    case Activate(rawId) =>
      if Trim(rawId) != "" && IndexOf(s.meta, Trim(rawId)) < |s.meta|
      then s.(meta := Activated(s.meta, Trim(rawId)))
      else s
    case Delete(rawId) =>
      var i := IndexOf(s.meta, Trim(rawId));
      if Trim(rawId) != "" && i < |s.meta|
      then Snapshot(Deleted(s.meta, i), Removed(s.dir, Base(s.meta[i].path)))
      else s
  }

  datatype IconResult =
    IconDone | BadIconName | EmptyIcon | BadContent | QuotaRefused | IconIdRequired | IconNotFound | IconFailed

  /** The metadata as read: filtering changes nothing of what the store itself has written. */
  method ReadIcons(d: Disk<IconData>) returns (icons: seq<Icon>, ok: bool)
    requires !d.crashed
    modifies d`fates, d`crashed
    ensures ok ==> !d.crashed && icons == FilterSafeIcons(d.meta)
    ensures ok == Fated(old(d.fates)).Succeeds? && d.fates == Later(old(d.fates))
  {
    hide SafeIcon;
    icons := [];
    ok := d.Look();
    if !ok {
      return;
    }
    var i := 0;
    while i < |d.meta|
      invariant 0 <= i <= |d.meta|
      invariant icons + FilterSafeIcons(d.meta[i..]) == FilterSafeIcons(d.meta)
    {
      assert d.meta[i..][1..] == d.meta[i + 1..];
      if SafeIcon(d.meta[i]) {
        icons := icons + [d.meta[i]];
      }
      i := i + 1;
    }
    assert d.meta[i..] == [];
  }

  method SaveIcon(d: Disk<IconData>, l: Limits, q: Request) returns (r: IconResult)
    requires !d.crashed && Good(d.Now())
    requires q.Save? && Sized(q) && Fresh(d.Now(), q)
    modifies d
    ensures Good(d.Now())
    ensures Within(old(d.dir), l) ==> Within(d.dir, l)
    ensures d.meta == old(d.meta) || d.meta == AfterRequest(l, old(d.Now()), q).meta
    ensures old(d.fates) == [] ==> !d.crashed && d.Now() == AfterRequest(l, old(d.Now()), q)
    ensures r == IconDone ==> Uploadable(q) && d.Now() == AfterRequest(l, old(d.Now()), q)
    ensures old(d.fates) == [] ==> (r == IconDone <==> Uploadable(q) && Accepts(old(d.dir), l, SizeOf(q)))
    ensures var n := ValidateIconName(q.originalName);
            && (r == BadIconName <==> n.NoIcon?)
            && (r == EmptyIcon <==> n.IconName? && q.data == [])
            && (r == BadContent <==> n.IconName? && q.data != [] && !ContentFits(n.contentType, q.data, q.format))
    ensures r == QuotaRefused ==> !Accepts(old(d.dir), l, SizeOf(q)) && d.Now() == old(d.Now())
    ensures AtMostOneFails(old(d.fates)) && !d.crashed && Fated(Later(Later(old(d.fates)))).Succeeds? ==>
              d.Now() == old(d.Now()) || d.Now() == AfterRequest(l, old(d.Now()), q)
  {
    hide Base, SafeIcon, Accepts, Within, NamesIn, Removed, Partly, Trim, ContentFits, AtMostOneFails;
    ghost var s := d.Now();
    if AtMostOneFails(d.fates) {
      OneFails(d.fates);
      OneFails(Later(d.fates));
      OneFails(Later(Later(d.fates)));
      OneFails(Later(Later(Later(d.fates))));
    }
    var n := ValidateIconName(q.originalName);
    if n.NoIcon? {
      return BadIconName;
    }
    if |q.data| == 0 {
      return EmptyIcon;
    }
    var ok := ValidateIconContent(n.contentType, q.data, q.format);
    if !ok {
      return BadContent;
    }
    var icons;
    icons, ok := ReadIcons(d);
    if !ok {
      return IconFailed;
    }
    ReadsAll(d.Now());
    ok := d.Look();
    if !ok {
      return IconFailed;
    }
    var v := EnforceFileQuota(d.dir, l, |q.data| as FileSize);
    if !v.Accepted? {
      return QuotaRefused;
    }
    var filename := q.id + n.ext;
    NewIconIsGood(s, q);
    NewFile(s.dir, l, filename, SizeOf(q));
    ok := d.CreateFile(filename, |q.data| as FileSize);
    if !ok {
      PartlyWithin(s.dir, d.dir, filename, SizeOf(q), l);
      return IconFailed;
    }
    var icon := Record(q.id, filename, IconData(Base(Trim(q.originalName)), n.contentType, |icons| == 0));
    assert icon == NewIcon(s, q);
    ok := d.ReplaceMeta(icons + [icon]);
    if !ok {
      if !d.crashed {
        d.RemoveFile(filename);
      }
      return IconFailed;
    }
    return IconDone;
  }

  lemma NewFile(dir: seq<DirEntry>, l: Limits, name: string, size: FileSize)
    requires Accepts(dir, l, size) && name !in NamesIn(dir)
    ensures var dir' := dir + [DirEntry(name, true, size)];
            NamesIn(dir') == NamesIn(dir) + {name} && Within(dir', l) && Removed(dir', name) == dir
  {
    NamesAppended(dir, DirEntry(name, true, size));
    AcceptedStaysWithin(dir, l, size, name, size);
    AddedAndRemoved(dir, DirEntry(name, true, size));
  }

  lemma NewIconIsGood(s: Store, q: Request)
    requires Good(s) && q.Save? && Uploadable(q) && Fresh(s, q)
    ensures var icon := NewIcon(s, q);
            && Base(icon.path) == icon.path && icon.path != ""
            && forall dir: seq<DirEntry> ::
                 && (NamesIn(dir) == NamesIn(s.dir) ==> Good(Snapshot(s.meta, dir)))
                 && (NamesIn(dir) == NamesIn(s.dir) + {icon.path} ==>
                       Good(Snapshot(s.meta, dir)) && Good(Snapshot(s.meta + [icon], dir)))
  {
    hide Base, NamesIn, SafeIcon, Trim, ContentFits;
    var icon := NewIcon(s, q);
    StoredNameIsSafe(q.id, q.originalName, icon.data);
    UnusedIsLast(s.meta, q.id);
    AppendedIsSound(s.meta, NamesIn(s.dir), icon);
    ActiveCountAppend(s.meta, [icon]);
    assert [icon][1..] == [];
    assert s.meta == [] ==> s.meta + [icon] == [icon];
  }

  method MarkActive(before: seq<Icon>, id: string) returns (icons: seq<Icon>, found: bool)
    ensures icons == Activated(before, id)
    ensures found <==> !UnusedId(before, id)
  {
    icons, found := before, false;
    var i := 0;
    while i < |icons|
      invariant 0 <= i <= |icons| == |before|
      invariant found <==> exists k | 0 <= k < i :: before[k].id == id
      invariant forall k | 0 <= k < i :: icons[k] == WithActive(before[k], before[k].id == id)
      invariant forall k | i <= k < |icons| :: icons[k] == before[k]
    {
      var active := icons[i].id == id;
      if active {
        found := true;
      }
      if icons[i].data.active != active {
        icons := icons[i := WithActive(icons[i], active)];
      }
      i := i + 1;
    }
    if found {
      var k :| 0 <= k < i && before[k].id == id;
      assert before[k] in before;
    }
  }

  method SetActiveIcon(d: Disk<IconData>, l: Limits, rawId: string) returns (r: IconResult)
    requires !d.crashed && Good(d.Now())
    modifies d
    ensures Good(d.Now()) && d.dir == old(d.dir)
    ensures r == IconIdRequired <==> Trim(rawId) == ""
    ensures r == IconNotFound ==> Trim(rawId) != "" && UnusedId(old(d.meta), Trim(rawId)) && d.meta == old(d.meta)
    ensures d.meta == old(d.meta) || d.meta == AfterRequest(l, old(d.Now()), Activate(rawId)).meta
    ensures r == IconDone ==> !d.crashed && d.meta == Activated(old(d.meta), Trim(rawId))
    ensures old(d.fates) == [] ==> !d.crashed && d.Now() == AfterRequest(l, old(d.Now()), Activate(rawId))
  {
    hide Base, SafeIcon, Trim, NamesIn, Good, FilterSafeIcons, Accepts, Removed, UnusedId;
    var id := Trim(rawId);
    if id == "" {
      return IconIdRequired;
    }
    var icons, ok := ReadIcons(d);
    if !ok {
      return IconFailed;
    }
    ReadsAll(d.Now());
    ghost var icons0 := icons;
    var found;
    icons, found := MarkActive(icons, id);
    UnusedIsLast(icons0, id);
    if !found {
      return IconNotFound;
    }
    ActivatedIsGood(d.Now(), id);
    ok := d.ReplaceMeta(icons);
    r := if ok then IconDone else IconFailed;
  }

  lemma ReadsAll(s: Store)
    requires Good(s)
    ensures FilterSafeIcons(s.meta) == s.meta
  {
    FilterKeepsSafe(s.meta);
  }

  lemma ActivatedIsGood(s: Store, id: string)
    requires Good(s) && !UnusedId(s.meta, id)
    ensures Good(s.(meta := Activated(s.meta, id))) && FilesOf(Activated(s.meta, id)) == FilesOf(s.meta)
  {
    hide Base, NamesIn, SafeIcon;
    ActivatedCount(s.meta, id);
    SameRefsSound(s.meta, Activated(s.meta, id));
    ActivatedIsSafe(s.meta, id);
  }

  lemma ActivatedIsSafe(icons: seq<Icon>, id: string)
    requires AllSafe(icons)
    ensures AllSafe(Activated(icons, id))
  {
    var t := Activated(icons, id);
    forall e | e in t ensures SafeIcon(e) {
      var k :| 0 <= k < |t| && t[k] == e;
      assert icons[k] in icons;
    }
  }

  method DeleteIcon(d: Disk<IconData>, l: Limits, rawId: string) returns (r: IconResult)
    requires !d.crashed && Good(d.Now())
    modifies d
    ensures Good(d.Now())
    ensures Within(old(d.dir), l) ==> Within(d.dir, l)
    ensures r == IconIdRequired <==> Trim(rawId) == ""
    ensures r == IconNotFound ==> Trim(rawId) != "" && UnusedId(old(d.meta), Trim(rawId)) && d.meta == old(d.meta)
    ensures d.meta == old(d.meta) || d.meta == AfterRequest(l, old(d.Now()), Delete(rawId)).meta
    ensures d.dir != old(d.dir) ==> d.Now() == AfterRequest(l, old(d.Now()), Delete(rawId))
    ensures old(d.fates) == [] ==> !d.crashed && d.Now() == AfterRequest(l, old(d.Now()), Delete(rawId))
  {
    hide Base, SafeIcon, Trim, NamesIn, Within, Removed, Good, FilterSafeIcons, UnusedId;
    var id := Trim(rawId);
    if id == "" {
      return IconIdRequired;
    }
    var icons, ok := ReadIcons(d);
    if !ok {
      return IconFailed;
    }
    ReadsAll(d.Now());
    ghost var s := d.Now();
    var index := 0;
    while index < |icons| && icons[index].id != id
      invariant 0 <= index <= |icons|
      invariant forall j | 0 <= j < index :: icons[j].id != id
    {
      index := index + 1;
    }
    assert index == IndexOf(icons, id);
    UnusedIsLast(icons, id);
    if index == |icons| {
      return IconNotFound;
    }
    var deleted := icons[index];
    icons := icons[..index] + icons[index + 1..];
    if deleted.data.active && |icons| > 0 {
      icons := icons[0 := WithActive(icons[0], true)];
    }
    assert icons == Deleted(s.meta, index);
    DeletedIsGood(s, index);
    if Within(s.dir, l) { RemovalStaysWithin(s.dir, Base(deleted.path), l); }
    ok := d.ReplaceMeta(icons);
    if !ok {
      return IconFailed;
    }
    d.RemoveFile(Base(deleted.path));
    return IconDone;
  }

  lemma DeletedIsGood(s: Store, i: nat)
    requires i < |s.meta| && Good(s)
    ensures Good(Snapshot(Deleted(s.meta, i), s.dir))
    ensures Good(Snapshot(Deleted(s.meta, i), Removed(s.dir, Base(s.meta[i].path))))
    ensures FilesOf(Deleted(s.meta, i)) == FilesOf(s.meta) - {Base(s.meta[i].path)}
  {
    hide Base, NamesIn, Removed;
    var icons, rest := s.meta, Without(s.meta, i);
    assert icons[i] in icons;
    SafeIconHasPath(icons[i]);
    SeparateWithout(icons, i);
    WithoutFiles(icons, i);
    DeletedCount(icons, i);
    NamesRemoved(s.dir, Base(icons[i].path));
    if icons[i].data.active && rest != [] {
      SameRefsSound(rest, rest[0 := WithActive(rest[0], true)]);
      assert rest[0] in rest;
    }
    FilesDecide(Deleted(icons, i), NamesIn(s.dir));
    FilesDecide(Deleted(icons, i), NamesIn(Removed(s.dir, Base(icons[i].path))));
    FilesDecide(icons, NamesIn(s.dir));
    DeletedIsSafe(icons, i);
  }

  lemma SafeIconHasPath(icon: Icon)
    requires SafeIcon(icon)
    ensures icon.path != ""
  {
  }

  lemma DeletedIsSafe(icons: seq<Icon>, i: nat)
    requires i < |icons| && Separate(icons) && AllSafe(icons)
    ensures AllSafe(Deleted(icons, i))
  {
    hide Base;
    SeparateWithout(icons, i);
    var rest := Without(icons, i);
    forall e | e in Deleted(icons, i) ensures SafeIcon(e) {
      var k :| 0 <= k < |rest| && Deleted(icons, i)[k] == e;
      assert rest[k] in rest;
    }
  }

  // ---- any sequence of requests ----

  method ServeOne(d: Disk<IconData>, l: Limits, q: Request)
    requires !d.crashed && Good(d.Now()) && Sized(q) && Fresh(d.Now(), q)
    modifies d
    ensures Good(d.Now())
    ensures Within(old(d.dir), l) ==> Within(d.dir, l)
    ensures d.meta == old(d.meta) || d.meta == AfterRequest(l, old(d.Now()), q).meta
    ensures old(d.fates) == [] ==> d.Now() == AfterRequest(l, old(d.Now()), q)
  {
    match q {
      case Save(_, _, _, _) => var r := SaveIcon(d, l, q);
      case Activate(rawId) => var r := SetActiveIcon(d, l, rawId);
      case Delete(rawId) => var r := DeleteIcon(d, l, rawId);
    }
  }

  /** The store after some requests of which none fails; requests whose generated ids are taken do not occur. */
  function Served(l: Limits, s: Store, qs: seq<Request>): Store
    requires forall q | q in qs :: Sized(q)
  {
    if qs == [] then s
    else
      var n := |qs| - 1;
      var t := Served(l, s, qs[..n]);
      if Fresh(t, qs[n]) then AfterRequest(l, t, qs[n]) else t
  }

  /** Requests one after the other, each meeting what failures it may: after every one of them, whatever it
      met, each icon has its file, exactly one is active if there are any, and the directory is within its
      limits if it was before. */
  method Serve(l: Limits, start: Store, qs: seq<Request>, fates: seq<seq<Fate>>) returns (end: Store)
    requires Good(start) && |fates| == |qs| && forall q | q in qs :: Sized(q)
    ensures Good(end)
    ensures Within(start.dir, l) ==> Within(end.dir, l)
    ensures NoFailures(fates) ==> end == Served(l, start, qs)
  {
    hide Good, Within, AfterRequest, Fresh;
    var d := new Disk<IconData>(start);
    for i := 0 to |qs|
      invariant Good(d.Now())
      invariant Within(start.dir, l) ==> Within(d.dir, l)
      invariant NoFailures(fates[..i]) ==> d.Now() == Served(l, start, qs[..i])
    {
      assert qs[..i + 1][..i] == qs[..i];
      NoFailuresYet(fates, i);
      d.Restart(fates[i]);
      if Fresh(Snapshot(d.meta, d.dir), qs[i]) {
        ServeOne(d, l, qs[i]);
      }
    }
    assert qs[..|qs|] == qs && fates[..|fates|] == fates;
    end := Snapshot(d.meta, d.dir);
  }

  lemma RequestKeepsTidy(l: Limits, s: Store, q: Request)
    requires Good(s) && Sized(q) && Fresh(s, q) && Tidy(s)
    ensures Good(AfterRequest(l, s, q)) && Tidy(AfterRequest(l, s, q))
  {
    hide Base, NamesIn, SafeIcon, Accepts, Removed, Trim, OneActive, Sound, Uploadable;
    match q {
      case Save(_, _, _, _) =>
        if Uploadable(q) && Accepts(s.dir, l, SizeOf(q)) {
          var icon, f := NewIcon(s, q), DirEntry(NewIcon(s, q).path, true, SizeOf(q));
          NewIconIsGood(s, q);
          NamesAppended(s.dir, f);
          FilesOfAppended(s.meta, icon);
        }
      case Activate(rawId) =>
        UnusedIsLast(s.meta, Trim(rawId));
        if Trim(rawId) != "" && IndexOf(s.meta, Trim(rawId)) < |s.meta| {
          ActivatedIsGood(s, Trim(rawId));
        }
      case Delete(rawId) =>
        var i := IndexOf(s.meta, Trim(rawId));
        if Trim(rawId) != "" && i < |s.meta| {
          DeletedIsGood(s, i);
          NamesRemoved(s.dir, Base(s.meta[i].path));
        }
    }
  }

  /** Without failures the directory holds exactly the icons' files, after any requests. */
  lemma {:induction false} ServedIsTidy(l: Limits, s: Store, qs: seq<Request>)
    requires Good(s) && Tidy(s) && forall q | q in qs :: Sized(q)
    ensures Good(Served(l, s, qs)) && Tidy(Served(l, s, qs))
  {
    hide Good, Tidy, AfterRequest, Fresh;
    if qs != [] {
      var n := |qs| - 1;
      ServedIsTidy(l, s, qs[..n]);
      if Fresh(Served(l, s, qs[..n]), qs[n]) {
        RequestKeepsTidy(l, Served(l, s, qs[..n]), qs[n]);
      }
    }
  }

  // ---- what requests do to the icons ----

  /** An icon without its flag. */
  datatype Info = Info(id: string, path: string, originalName: string, contentType: string)

  /** The icons in order and the id of the active one, kept without flags. */
  datatype Shelf = Shelf(icons: seq<Info>, active: string)

  function InfoOf(icon: Icon): Info {
    Info(icon.id, icon.path, icon.data.originalName, icon.data.contentType)
  }

  function TypeFor(ext: string): string {
    if ext == ".png" then "image/png"
    else if ext == ".jpg" || ext == ".jpeg" then "image/jpeg"
    else "image/x-icon"
  }

  /** The extensions that make an icon, their types, and nothing else. */
  lemma IconNamesMeaning(filename: string)
    ensures var n := ValidateIconName(filename);
            && (n.IconName? <==> Lower(Ext(Trim(filename))) in [".ico", ".icon", ".png", ".jpg", ".jpeg"])
            && (n.IconName? ==> n.ext == Lower(Ext(Trim(filename))) && n.contentType == TypeFor(n.ext))
  {
    hide Lower, Ext, Trim;
  }

  /** A name that ends in an extension is known by it, in whatever case. */
  lemma NamedByExtension(id: string, ext: string)
    requires PlainName(id) && ext in [".png", ".jpg", ".jpeg", ".ico", ".icon"]
    ensures ValidateIconName(id + ext) == IconName(ext, TypeFor(ext))
  {
    hide Trim, Ext, Lower, PlainName;
    ExtensionShape(ext);
    GeneratedName(id, ext);
    ExtOfName(id, ext);
    LowerOfLower(ext);
  }

  lemma ExtensionShape(ext: string)
    requires ext in [".png", ".jpg", ".jpeg", ".ico", ".icon"]
    ensures |ext| >= 2 && ext[0] == '.' && forall k | 1 <= k < |ext| :: 'a' <= ext[k] <= 'z'
    ensures forall c | c in ext :: c == '.' || 'a' <= c <= 'z'
  {
  }

  lemma CapitalsAreLowered()
    ensures Lower(".PNG") == ".png" && Lower(".JPeg") == ".jpeg"
  {
  }

  /** What is let in is what its name says: a PNG or JPEG image, or a file with an icon's header. */
  lemma UploadsAreWhatTheySay(q: Request)
    requires q.Save? && Uploadable(q)
    ensures var ext := Lower(Ext(Trim(q.originalName)));
            && (ext == ".png" ==> q.format == "png")
            && (ext == ".jpg" || ext == ".jpeg" ==> q.format == "jpeg")
            && (ext == ".ico" || ext == ".icon" ==>
                  |q.data| >= 6 && q.data[..2] == [0, 0] && q.data[2] in [1, 2] && q.data[3] == 0
                  && q.data[4] != 0 && q.data[5] == 0)
  {
    hide Lower, Ext, Trim;
  }

  function FirstId(icons: seq<Info>): string {
    if icons == [] then "" else icons[0].id
  }

  function WithoutId(icons: seq<Info>, id: string): (r: seq<Info>)
    ensures forall i | i in r :: i in icons && i.id != id
  {
    if icons == [] then []
    else (if icons[0].id == id then [] else [icons[0]]) + WithoutId(icons[1..], id)
  }

  predicate OnShelf(shelf: Shelf, id: string) {
    exists i | i in shelf.icons :: i.id == id
  }

  /** Saving puts an icon at the end, active if it is the first; activating and deleting go by the id. Whether
      there is room for an upload is for the directory to say. */
  function Shelved(shelf: Shelf, q: Request, room: bool): Shelf {
    match q
    case Save(originalName, _, _, id) =>
      if !(room && Uploadable(q)) then shelf
      else
        var ext := Lower(Ext(Trim(originalName)));
        Shelf(shelf.icons + [Info(id, id + ext, Base(Trim(originalName)), TypeFor(ext))],
              if shelf.icons == [] then id else shelf.active)
    case Activate(rawId) =>
      if Trim(rawId) != "" && OnShelf(shelf, Trim(rawId)) then shelf.(active := Trim(rawId)) else shelf
    case Delete(rawId) =>
      if Trim(rawId) == "" || !OnShelf(shelf, Trim(rawId)) then shelf
      else
        var rest := WithoutId(shelf.icons, Trim(rawId));
        Shelf(rest, if shelf.active == Trim(rawId) then FirstId(rest) else shelf.active)
  }

  function ShelvedAll(l: Limits, s: Store, shelf: Shelf, qs: seq<Request>): Shelf
    requires forall q | q in qs :: Sized(q)
  {
    if qs == [] then shelf
    else
      var n := |qs| - 1;
      var t, sh := Served(l, s, qs[..n]), ShelvedAll(l, s, shelf, qs[..n]);
      var q := qs[n];
      assert q in qs && Sized(q);
      if Fresh(t, q) then Shelved(sh, q, q.Save? ==> Accepts(t.dir, l, SizeOf(q))) else sh
  }

  /** The flagged list holds the shelf's icons in order, and flags the active one. */
  ghost predicate Shows(icons: seq<Icon>, shelf: Shelf) {
    && |icons| == |shelf.icons|
    && forall k | 0 <= k < |icons| ::
         InfoOf(icons[k]) == shelf.icons[k] && (icons[k].data.active <==> icons[k].id == shelf.active)
  }

  lemma FoundOnShelf(icons: seq<Icon>, shelf: Shelf, id: string)
    requires Shows(icons, shelf)
    ensures OnShelf(shelf, id) <==> IndexOf(icons, id) < |icons|
  {
    hide IndexOf;
    var k := IndexOf(icons, id);
    if k < |icons| {
      assert shelf.icons[k] in shelf.icons && InfoOf(icons[k]) == shelf.icons[k];
    }
    if OnShelf(shelf, id) {
      var i :| i in shelf.icons && i.id == id;
      var j :| 0 <= j < |shelf.icons| && shelf.icons[j] == i;
      assert InfoOf(icons[j]) == i;
    }
  }

  predicate IdsDiffer(infos: seq<Info>) {
    forall i, j | 0 <= i < j < |infos| :: infos[i].id != infos[j].id
  }

  lemma {:induction false} WithoutIdIs(infos: seq<Info>, id: string, k: nat)
    requires k < |infos| && infos[k].id == id && IdsDiffer(infos)
    ensures WithoutId(infos, id) == infos[..k] + infos[k + 1..]
  {
    var later := infos[1..];
    assert forall i | 0 <= i < |later| :: later[i] == infos[i + 1];
    if k == 0 {
      NothingWithoutId(later, id);
    } else {
      WithoutIdIs(later, id, k - 1);
      FirstKept(infos, k);
    }
  }

  lemma FirstKept(infos: seq<Info>, k: nat)
    requires 0 < k < |infos|
    ensures [infos[0]] + (infos[1..][..k - 1] + infos[1..][k..]) == infos[..k] + infos[k + 1..]
  {
  }

  lemma {:induction false} NothingWithoutId(infos: seq<Info>, id: string)
    requires forall i | 0 <= i < |infos| :: infos[i].id != id
    ensures WithoutId(infos, id) == infos
  {
    if infos != [] {
      NothingWithoutId(infos[1..], id);
    }
  }

  lemma SavedIsShown(s: Store, shelf: Shelf, q: Request, room: bool)
    requires Good(s) && q.Save? && Uploadable(q) && Fresh(s, q) && Shows(s.meta, shelf) && room
    requires s.meta != [] ==> shelf.active != q.id
    ensures Shows(s.meta + [NewIcon(s, q)], Shelved(shelf, q, room))
  {
    hide Base, Trim, ContentFits, Lower, Ext, Good, IndexOf, ValidateIconName;
    IconNamesMeaning(q.originalName);
    var icons := s.meta + [NewIcon(s, q)];
    forall k | 0 <= k < |icons|
      ensures InfoOf(icons[k]) == Shelved(shelf, q, room).icons[k]
      ensures icons[k].data.active <==> icons[k].id == Shelved(shelf, q, room).active
    {
      if k < |s.meta| { assert InfoOf(s.meta[k]) == shelf.icons[k]; }
    }
  }

  /** Some icon is the active one, so its id is in use. */
  lemma {:induction false} ActiveIsUsed(icons: seq<Icon>) returns (k: nat)
    requires ActiveCount(icons) > 0
    ensures k < |icons| && icons[k].data.active
  {
    if icons[0].data.active {
      k := 0;
    } else {
      k := ActiveIsUsed(icons[1..]);
      k := k + 1;
    }
  }

  lemma ActivatedIsShown(icons: seq<Icon>, shelf: Shelf, id: string)
    requires Shows(icons, shelf)
    ensures Shows(Activated(icons, id), shelf.(active := id))
  {
    var t := Activated(icons, id);
    forall k | 0 <= k < |t|
      ensures InfoOf(t[k]) == shelf.icons[k] && (t[k].data.active <==> t[k].id == id)
    {
      assert InfoOf(icons[k]) == shelf.icons[k];
    }
  }

  /** Icons and shelf agree at one place. */
  predicate ShowsAt(icon: Icon, info: Info, active: string) {
    InfoOf(icon) == info && (icon.data.active <==> icon.id == active)
  }

  lemma DeletedIsShown(icons: seq<Icon>, shelf: Shelf, k: nat)
    requires Shows(icons, shelf) && Separate(icons) && k < |icons|
    ensures var rest := WithoutId(shelf.icons, icons[k].id);
            Shows(Deleted(icons, k),
                  Shelf(rest, if shelf.active == icons[k].id then FirstId(rest) else shelf.active))
  {
    hide Base, WithoutId, InfoOf;
    var id, t := icons[k].id, Deleted(icons, k);
    ShelfDiffers(icons, shelf);
    WithoutIdIs(shelf.icons, id, k);
    var rest := WithoutId(shelf.icons, id);
    var active := if shelf.active == id then FirstId(rest) else shelf.active;
    forall i | 0 <= i < |t| ensures ShowsAt(t[i], rest[i], active) {
      ShownAfterDelete(icons, shelf, k, i);
    }
  }

  lemma ShelfDiffers(icons: seq<Icon>, shelf: Shelf)
    requires Shows(icons, shelf) && Separate(icons)
    ensures IdsDiffer(shelf.icons) && forall i | 0 <= i < |icons| :: shelf.icons[i].id == icons[i].id
  {
    hide Base;
    assert forall i | 0 <= i < |icons| :: InfoOf(icons[i]) == shelf.icons[i];
  }

  lemma ShownAfterDelete(icons: seq<Icon>, shelf: Shelf, k: nat, i: nat)
    requires Shows(icons, shelf) && Separate(icons) && k < |icons| && i < |icons| - 1
    ensures var rest := shelf.icons[..k] + shelf.icons[k + 1..];
            ShowsAt(Deleted(icons, k)[i], rest[i],
                    if shelf.active == icons[k].id then FirstId(rest) else shelf.active)
  {
    hide Base;
    var j, first := if i < k then i else i + 1, if 0 < k then 0 else 1;
    assert InfoOf(icons[j]) == shelf.icons[j] && InfoOf(icons[first]) == shelf.icons[first];
    assert icons[j].id != icons[k].id;
    assert i > 0 ==> icons[first].id != icons[j].id;
  }

  lemma RequestIsShelved(l: Limits, s: Store, shelf: Shelf, q: Request)
    requires Good(s) && Sized(q) && Fresh(s, q) && Shows(s.meta, shelf)
    ensures Shows(AfterRequest(l, s, q).meta, Shelved(shelf, q, q.Save? ==> Accepts(s.dir, l, SizeOf(q))))
  {
    hide Base, NamesIn, SafeIcon, Accepts, Removed, Trim, Uploadable, Shows, IndexOf, Activated, Deleted, WithoutId,
         OnShelf, ActiveCount, ValidateIconName, AllSafe, Referenced, Separate;
    match q {
      case Save(_, _, _, _) =>
        var room := Accepts(s.dir, l, SizeOf(q));
        if Uploadable(q) && room {
          if s.meta != [] { ActiveIsAnOther(s, shelf, q.id); }
          SavedIsShown(s, shelf, q, room);
        }
      case Activate(rawId) =>
        FoundOnShelf(s.meta, shelf, Trim(rawId));
        ActivatedIsShown(s.meta, shelf, Trim(rawId));
      case Delete(rawId) =>
        FoundOnShelf(s.meta, shelf, Trim(rawId));
        var k := IndexOf(s.meta, Trim(rawId));
        if k < |s.meta| { DeletedIsShown(s.meta, shelf, k); }
    }
  }

  lemma ActiveIsAnOther(s: Store, shelf: Shelf, id: string)
    requires Good(s) && Shows(s.meta, shelf) && s.meta != [] && IndexOf(s.meta, id) == |s.meta|
    ensures shelf.active != id
  {
    var k := ActiveIsUsed(s.meta);
  }

  /** The file of a saved icon is the whole upload. */
  lemma SavedFileIsWhole(l: Limits, s: Store, q: Request)
    requires q.Save? && Sized(q) && Uploadable(q) && Accepts(s.dir, l, SizeOf(q))
    ensures var t := AfterRequest(l, s, q);
            && |t.dir| == |s.dir| + 1 && t.dir[..|s.dir|] == s.dir
            && t.dir[|s.dir|] == DirEntry(t.meta[|s.meta|].path, true, |q.data| as FileSize)
            && TotalBytes(t.dir) == TotalBytes(s.dir) + |q.data|
  {
    hide Uploadable, Accepts;
    WithOneMore(s.dir, DirEntry(NewIcon(s, q).path, true, SizeOf(q)));
  }

  /** After any requests without failures the flagged list is the shelf of the same requests. */
  lemma {:induction false} ServedIsShelved(l: Limits, s: Store, shelf: Shelf, qs: seq<Request>)
    requires Good(s) && Tidy(s) && Shows(s.meta, shelf) && forall q | q in qs :: Sized(q)
    ensures Shows(Served(l, s, qs).meta, ShelvedAll(l, s, shelf, qs))
  {
    hide Good, Tidy, AfterRequest, Fresh, Shows, Shelved, Accepts;
    if qs != [] {
      var n := |qs| - 1;
      ServedIsShelved(l, s, shelf, qs[..n]);
      ServedIsTidy(l, s, qs[..n]);
      if Fresh(Served(l, s, qs[..n]), qs[n]) {
        RequestIsShelved(l, Served(l, s, qs[..n]), ShelvedAll(l, s, shelf, qs[..n]), qs[n]);
      }
    }
  }

  /** From the empty store and under the limits of validated settings: whatever is requested and whatever fails,
      the icons have their files, one is active if there are any, and the uploads are within the configured
      number and megabytes; and if nothing fails, the directory holds the icons' files and no others. */
  method ServeConfigured(c: DashboardSettings, qs: seq<Request>, fates: seq<seq<Fate>>) returns (ok: bool, end: Store)
    requires |fates| == |qs| && forall q | q in qs :: Sized(q)
    ensures ok <==> ValidSettings(c)
    ensures ok ==> Good(end)
    ensures ok && c.maxIconUploads > 0 ==> FileCount(end.dir) <= c.maxIconUploads as int
    ensures ok && c.maxIconUploadStorageMb > 0 ==>
              TotalBytes(end.dir) <= c.maxIconUploadStorageMb as int * 0x10_0000
    ensures ok && NoFailures(fates) ==> end == Served(IconLimits(c), NOTHING, qs) && Tidy(end)
    ensures ok && NoFailures(fates) ==> Shows(end.meta, ShelvedAll(IconLimits(c), NOTHING, Shelf([], ""), qs))
  {
    hide Tidy, Good;
    end := NOTHING;
    ok := ValidateDashboard(c);
    if ok {
      NothingIsGood();
      end := Serve(IconLimits(c), NOTHING, qs, fates);
      ServedIsTidy(IconLimits(c), NOTHING, qs);
      ServedIsShelved(IconLimits(c), NOTHING, Shelf([], ""), qs);
    }
  }
}
