/** The platform recovery bundle: writing entries and a manifest, and reading them back
    (internal/platform/bundle.go). Encryption, compression and the tar format are taken
    as lossless; hashing and the manifest's JSON are parameters. */
module Bundle {
  import opened Common
  import opened Paths

  type Bytes = seq<bv8>

  datatype Digest = Digest(sha256: string, size: nat)

  datatype Table = Table(name: string, file: string)

  datatype Repository = Repository(id: string, file: string, missing: bool)

  /** `rest` stands for the fields that neither Add nor Open looks at. */
  datatype Manifest = Manifest(kind: string, format: int, tables: seq<Table>, repositories: seq<Repository>,
                               files: map<string, Digest>, rest: nat)

  /** One tar entry. */
  datatype Item = Item(name: string, regular: bool, data: Bytes)

  /** A bundle file; `intact` is false when the stream breaks off or fails to authenticate. */
  datatype Archive = Archive(items: seq<Item>, intact: bool)

  datatype Contents = Contents(manifest: Manifest, files: map<string, Bytes>)

  datatype Codec = Codec(hash: Bytes -> string, encode: Manifest -> Bytes, decode: Bytes -> Option<Manifest>)

  const MANIFEST_NAME := "manifest.json"
  const KIND := "dbr2-platform-recovery-bundle"
  const FORMAT_VERSION := 1
  const SECRET_KEY := "secrets/dbr2_secret_key"
  const MAX_ENTRY_SIZE := 8589934592

  // ---- Names ----------------------------------------------------------------

  predicate HasDotDot(name: string) {
    exists i :: 0 <= i < |name| - 1 && name[i] == '.' && name[i + 1] == '.'
  }

  /** A name all of whose parts are plain, see CleanKeeps. */
  predicate ValidName(name: string) {
    !HasDotDot(name) && (name == "." || forall i :: 0 <= i < |Parts(name)| ==> Parts(name)[i] !in {"", "."})
  }

  lemma ManifestNameFlat()
    ensures '/' !in MANIFEST_NAME
  {
  }

  lemma ManifestNameOneDot()
    ensures !HasDotDot(MANIFEST_NAME)
  {
  }

  lemma ManifestNameValid()
    ensures ValidName(MANIFEST_NAME)
  {
    ManifestNameFlat();
    ManifestNameOneDot();
    OnePart(MANIFEST_NAME);
    assert |MANIFEST_NAME| == 13;
  }

  lemma {:induction false} FirstPart(name: string)
    ensures |Parts(name)| >= 1 && Parts(name)[0] <= name
  {
    if name == "" {
    } else {
      FirstPart(name[1..]);
    }
  }

  /** A part ".." shows in the name. */
  lemma {:induction false} DotDotPart(name: string)
    requires ".." in Parts(name)
    ensures HasDotDot(name)
  {
    if name == "" {
      assert false;
    } else {
      var rest := Parts(name[1..]);
      FirstPart(name[1..]);
      if name[0] != '/' && [name[0]] + rest[0] == ".." {
        assert name[0] == ([name[0]] + rest[0])[0] && rest[0] == ([name[0]] + rest[0])[1..];
        assert rest[0] == "." && name[1] == rest[0][0];
      } else {
        DotDotPart(name[1..]);
        var i :| 0 <= i < |name[1..]| - 1 && name[1..][i] == '.' && name[1..][i + 1] == '.';
        assert name[i + 1] == '.' && name[i + 2] == '.';
      }
    }
  }

  /** The name test is the source's: not empty, no leading slash, left alone by
      path.Clean, no "..". */
  lemma CleanKeeps(name: string)
    ensures ValidName(name) <==> name != "" && name[0] != '/' && Clean(name) == name && !HasDotDot(name)
  {
    FirstPart(name);
    if ".." in Parts(name) {
      DotDotPart(name);
    }
    if name != "" && name[0] == '/' {
      assert Parts(name)[0] == "";
    } else if name != "" {
      CleanIff(name);
    }
  }

  // ---- What a bundle has to be ----------------------------------------------

  function DigestOf(c: Codec, data: Bytes): Digest {
    Digest(c.hash(data), |data|)
  }

  function DigestsOf(c: Codec, files: map<string, Bytes>): map<string, Digest> {
    map n | n in files :: DigestOf(c, files[n])
  }

  /** The manifest tells exactly what the archive holds, and what it refers to is there. */
  ghost predicate Consistent(c: Codec, b: Contents) {
    && b.manifest.kind == KIND && b.manifest.format == FORMAT_VERSION
    && b.manifest.files == DigestsOf(c, b.files)
    && References(b.manifest, b.files.Keys)
  }

  ghost predicate References(m: Manifest, names: set<string>) {
    && (forall i :: 0 <= i < |m.tables| ==> m.tables[i].file in names && m.tables[i].file == "db/" + m.tables[i].name + ".copy")
    && (forall i :: 0 <= i < |m.repositories| ==> m.repositories[i].missing || m.repositories[i].file in names)
    && SECRET_KEY in names
  }

  /** The entries but the manifest. */
  function FilesOf(items: seq<Item>): map<string, Bytes> {
    if items == [] then map[]
    else
      var n := |items| - 1;
      if items[n].name == MANIFEST_NAME then FilesOf(items[..n]) else FilesOf(items[..n])[items[n].name := items[n].data]
  }

  ghost predicate Distinct(items: seq<Item>) {
    forall i, j :: 0 <= i < j < |items| ==> items[i].name != items[j].name
  }

  ghost predicate Acceptable(item: Item) {
    item.regular && ValidName(item.name) && |item.data| <= MAX_ENTRY_SIZE
  }

  ghost predicate Readable(items: seq<Item>) {
    (forall i :: 0 <= i < |items| ==> Acceptable(items[i])) && Distinct(items)
  }

  /** The contents an archive is to be opened to, if it is in order. */
  ghost predicate OpensTo(c: Codec, a: Archive, b: Contents) {
    && a.intact && Readable(a.items)
    && (exists i :: 0 <= i < |a.items| && a.items[i].name == MANIFEST_NAME && c.decode(a.items[i].data) == Some(b.manifest))
    && b.files == FilesOf(a.items) && Consistent(c, b)
  }

  lemma {:induction false} FilesOfKeys(items: seq<Item>, name: string)
    ensures name in FilesOf(items) <==> name != MANIFEST_NAME && exists i :: 0 <= i < |items| && items[i].name == name
  {
    if items == [] {
    } else {
      FilesOfKeys(items[..|items| - 1], name);
    }
  }

  /** At most one reading. */
  lemma OpensOneWay(c: Codec, a: Archive, b1: Contents, b2: Contents)
    requires OpensTo(c, a, b1) && OpensTo(c, a, b2)
    ensures b1 == b2
  {
  }

  // ---- Reading --------------------------------------------------------------

  lemma SameKeys(small: set<string>, big: set<string>)
    requires small <= big && |small| == |big|
    ensures small == big
  {
    assert |big - small| == |big| - |small|;
    assert big == small + (big - small);
  }

  /** verify accepts exactly the consistent bundles, although it compares the number of
      entries and then looks only for the archive's names in the manifest. */
  method VerifyContents(c: Codec, b: Contents) returns (ok: bool)
    ensures ok <==> Consistent(c, b)
  {
    if b.manifest.kind != KIND || b.manifest.format != FORMAT_VERSION {
      return false;
    }
    if |b.manifest.files| != |b.files| {
      assert DigestsOf(c, b.files).Keys == b.files.Keys;
      return false;
    }
    var same := SameDigests(c, b.manifest.files, b.files);
    if !same {
      return false;
    }
    ok := CheckReferences(b.manifest, b.files);
  }

  method SameDigests(c: Codec, listed: map<string, Digest>, files: map<string, Bytes>) returns (ok: bool)
    requires |listed| == |files|
    ensures ok <==> listed == DigestsOf(c, files)
  {
    var names := files.Keys;
    while names != {}
      invariant names <= files.Keys
      invariant forall n :: n in files && n !in names ==> n in listed && listed[n] == DigestOf(c, files[n])
      decreases names
    {
      var n :| n in names;
      names := names - {n};
      if n !in listed || c.hash(files[n]) != listed[n].sha256 || |files[n]| != listed[n].size {
        return false;
      }
    }
    assert |listed.Keys| == |listed| && |files.Keys| == |files|;
    SameKeys(files.Keys, listed.Keys);
    ok := true;
  }

  method CheckReferences(m: Manifest, files: map<string, Bytes>) returns (ok: bool)
    ensures ok <==> References(m, files.Keys)
  {
    for i := 0 to |m.tables|
      invariant forall j :: 0 <= j < i ==> m.tables[j].file in files && m.tables[j].file == "db/" + m.tables[j].name + ".copy"
    {
      if m.tables[i].file !in files || m.tables[i].file != "db/" + m.tables[i].name + ".copy" {
        return false;
      }
    }
    for i := 0 to |m.repositories|
      invariant forall j :: 0 <= j < i ==> m.repositories[j].missing || m.repositories[j].file in files
    {
      if m.repositories[i].missing {
        continue;
      }
      if m.repositories[i].file !in files {
        return false;
      }
    }
    ok := SECRET_KEY in files;
  }

  /** Open accepts exactly the archives in order, and returns what they hold. */
  method Open(c: Codec, a: Archive) returns (b: Option<Contents>)
    ensures b.Some? ==> OpensTo(c, a, b.value)
    ensures b.None? ==> forall x :: !OpensTo(c, a, x)
  {
    var read := ReadItems(a.items);
    if read.None? || !a.intact || read.value.manifest.None? {
      return None;
    }
    var m := c.decode(read.value.manifest.value);
    if m.None? {
      return None;
    }
    b := Some(Contents(m.value, read.value.files));
    var ok := VerifyContents(c, b.value);
    if !ok {
      return None;
    }
  }

  datatype Raw = Raw(files: map<string, Bytes>, manifest: Option<Bytes>)

  /** The raw contents of the entries read so far. */
  ghost predicate ReadTo(items: seq<Item>, r: Raw) {
    && r.files == FilesOf(items)
    && (r.manifest.None? ==> forall i :: 0 <= i < |items| ==> items[i].name != MANIFEST_NAME)
    && (r.manifest.Some? ==> exists i :: 0 <= i < |items| && items[i].name == MANIFEST_NAME && items[i].data == r.manifest.value)
  }

  method ReadItems(items: seq<Item>) returns (r: Option<Raw>)
    ensures r.Some? <==> Readable(items)
    ensures r.Some? ==> ReadTo(items, r.value)
  {
    var raw := Raw(map[], None);
    for i := 0 to |items|
      invariant Readable(items[..i]) && ReadTo(items[..i], raw)
    {
      var item := items[i];
      var ok := item.regular && ValidName(item.name) && |item.data| <= MAX_ENTRY_SIZE;
      var seen := item.name in raw.files || (item.name == MANIFEST_NAME && raw.manifest.Some?);
      ReadNext(items, i, raw);
      if !ok || seen {
        return None;
      }
      raw := if item.name == MANIFEST_NAME then raw.(manifest := Some(item.data))
             else raw.(files := raw.files[item.name := item.data]);
    }
    assert items[..|items|] == items;
    r := Some(raw);
  }

  /** A name was seen exactly when the map or the manifest says so. */
  lemma Seen(items: seq<Item>, raw: Raw, name: string)
    requires ReadTo(items, raw)
    ensures (name in raw.files || (name == MANIFEST_NAME && raw.manifest.Some?)) <==>
            exists i :: 0 <= i < |items| && items[i].name == name
  {
    FilesOfKeys(items, name);
  }

  lemma ReadNext(items: seq<Item>, n: nat, raw: Raw)
    requires n < |items| && Readable(items[..n]) && ReadTo(items[..n], raw)
    ensures var item := items[n];
            var seen := item.name in raw.files || (item.name == MANIFEST_NAME && raw.manifest.Some?);
            && (Readable(items[..n + 1]) <==> Acceptable(item) && !seen)
            && (!(Acceptable(item) && !seen) ==> !Readable(items))
            && (!seen ==> ReadTo(items[..n + 1], if item.name == MANIFEST_NAME then raw.(manifest := Some(item.data))
                                                 else raw.(files := raw.files[item.name := item.data])))
  {
    var prefix := items[..n];
    assert items[..n + 1] == prefix + [items[n]] && items[..n + 1][..n] == prefix;
    Seen(prefix, raw, items[n].name);
  }

  // ---- Writing --------------------------------------------------------------

  /** What Add accepts, whatever the size. */
  ghost predicate Addable(items: seq<Item>) {
    Distinct(items) && forall i :: 0 <= i < |items| ==> items[i].regular && ValidName(items[i].name) && items[i].name != MANIFEST_NAME
  }

  /** The manifest after Add recorded the items. */
  function Recorded(c: Codec, initial: Manifest, items: seq<Item>): Manifest {
    initial.(files := initial.files + DigestsOf(c, FilesOf(items)))
  }

  function Sealed(c: Codec, m: Manifest, items: seq<Item>): Archive {
    Archive(items + [Item(MANIFEST_NAME, true, c.encode(m))], true)
  }

  datatype AddResult = Added | Closed | BadName | Duplicate | WriteFailed

  class Writer {
    const c: Codec
    const initial: Manifest
    var m: Manifest
    var items: seq<Item>
    var done: bool
    var broken: bool

    ghost predicate Valid()
      reads this
    {
      Addable(items) && m == Recorded(c, initial, items) && initial.files.Keys !! FilesOf(items).Keys
    }

    constructor (codec: Codec, manifest: Manifest)
      ensures Valid() && c == codec && initial == manifest && items == [] && !done
    {
      c, initial, m, items := codec, manifest, manifest, [];
      done, broken := false, false;
      new;
      assert m.files + DigestsOf(c, map[]) == m.files;
    }

    /** Every refusal has its one reason and records nothing; an accepted entry is in the
        archive and in the manifest. A failed write may leave the stream usable. */
    method Add(name: string, data: Bytes) returns (r: AddResult)
      requires Valid()
      modifies this
      ensures Valid() && done == old(done) && (old(broken) ==> broken)
      ensures r == Closed <==> done
      ensures r == BadName <==> !done && (!ValidName(name) || name == MANIFEST_NAME)
      ensures r == Duplicate <==> !done && ValidName(name) && name != MANIFEST_NAME && name in old(m).files
      ensures r == Added ==> !broken
      ensures r != WriteFailed ==> broken == old(broken)
      ensures items == if r == Added then old(items) + [Item(name, true, data)] else old(items)
      ensures m == if r == Added then old(m).(files := old(m).files[name := DigestOf(c, data)]) else old(m)
    {
      if done {
        return Closed;
      }
      if !ValidName(name) || name == MANIFEST_NAME {
        return BadName;
      }
      if name in m.files {
        return Duplicate;
      }
      var failed: bool := *;
      if failed || broken {
        var fatal: bool := *;
        broken := broken || fatal;
        return WriteFailed;
      }
      AddKeeps(c, initial, items, Item(name, true, data));
      items := items + [Item(name, true, data)];
      m := m.(files := m.files[name := DigestOf(c, data)]);
      return Added;
    }

    method Close() returns (a: Option<Archive>)
      requires Valid()
      modifies this
      ensures Valid() && done && items == old(items)
      ensures old(done) ==> a == None
      ensures a.Some? ==> a.value == Sealed(c, m, items)
    {
      if done {
        return None;
      }
      done := true;
      var failed: bool := *;
      if failed || broken {
        return None;
      }
      return Some(Archive(items + [Item(MANIFEST_NAME, true, c.encode(m))], true));
    }
  }

  lemma AddKeeps(c: Codec, initial: Manifest, items: seq<Item>, item: Item)
    requires Addable(items) && initial.files.Keys !! FilesOf(items).Keys
    requires item.regular && ValidName(item.name) && item.name != MANIFEST_NAME
    requires item.name !in Recorded(c, initial, items).files
    ensures Addable(items + [item]) && initial.files.Keys !! FilesOf(items + [item]).Keys
    ensures Recorded(c, initial, items + [item]).files == Recorded(c, initial, items).files[item.name := DigestOf(c, item.data)]
  {
    FilesOfKeys(items, item.name);
    assert (items + [item])[..|items|] == items;
    DigestsMore(c, initial.files, FilesOf(items), item.name, item.data);
  }

  lemma DigestsMore(c: Codec, before: map<string, Digest>, files: map<string, Bytes>, name: string, data: Bytes)
    ensures before + DigestsOf(c, files[name := data]) == (before + DigestsOf(c, files))[name := DigestOf(c, data)]
  {
  }

  // ---- Round trip -----------------------------------------------------------

  ghost predicate Faithful(c: Codec) {
    forall m :: c.decode(c.encode(m)) == Some(m)
  }

  /** What the writer's caller has to bring for the bundle to open. */
  ghost predicate Sound(c: Codec, initial: Manifest, items: seq<Item>) {
    && initial.files == map[]
    && initial.kind == KIND && initial.format == FORMAT_VERSION
    && References(initial, FilesOf(items).Keys)
    && (forall i :: 0 <= i < |items| ==> |items[i].data| <= MAX_ENTRY_SIZE)
    && |c.encode(Recorded(c, initial, items))| <= MAX_ENTRY_SIZE
  }

  lemma SealedReadable(c: Codec, m: Manifest, items: seq<Item>)
    requires Addable(items)
    ensures FilesOf(Sealed(c, m, items).items) == FilesOf(items)
    ensures Readable(Sealed(c, m, items).items) <==>
            (forall i :: 0 <= i < |items| ==> |items[i].data| <= MAX_ENTRY_SIZE) && |c.encode(m)| <= MAX_ENTRY_SIZE
  {
    var all := Sealed(c, m, items).items;
    ManifestNameValid();
    assert all[..|items|] == items && all[|items|].name == MANIFEST_NAME;
    if Readable(all) {
      forall i | 0 <= i < |items| ensures |items[i].data| <= MAX_ENTRY_SIZE {
        assert Acceptable(all[i]);
      }
    }
  }

  lemma RecordedExactly(c: Codec, initial: Manifest, items: seq<Item>)
    requires initial.files.Keys !! FilesOf(items).Keys
    ensures Recorded(c, initial, items).files == DigestsOf(c, FilesOf(items)) <==> initial.files == map[]
  {
    var r := Recorded(c, initial, items).files;
    if initial.files != map[] {
      var n :| n in initial.files;
      assert n in r && n !in DigestsOf(c, FilesOf(items));
    }
  }

  /** A closed bundle opens to its entries and manifest exactly when the caller brought a
      consistent manifest and no entry is too large; it opens to nothing else. */
  lemma RoundTrip(c: Codec, initial: Manifest, items: seq<Item>)
    requires Faithful(c) && Addable(items) && initial.files.Keys !! FilesOf(items).Keys
    ensures var m := Recorded(c, initial, items);
            && (OpensTo(c, Sealed(c, m, items), Contents(m, FilesOf(items))) <==> Sound(c, initial, items))
            && (forall b :: OpensTo(c, Sealed(c, m, items), b) ==> b == Contents(m, FilesOf(items)))
  {
    var m := Recorded(c, initial, items);
    var a := Sealed(c, m, items);
    SealedReadable(c, m, items);
    RecordedExactly(c, initial, items);
    assert a.items[|items|].name == MANIFEST_NAME && c.decode(a.items[|items|].data) == Some(m);
    forall b | OpensTo(c, a, b) ensures b == Contents(m, FilesOf(items)) {
      var i :| 0 <= i < |a.items| && a.items[i].name == MANIFEST_NAME && c.decode(a.items[i].data) == Some(b.manifest);
      assert i == |items|;
    }
  }

  /** Writing a list of entries, closing and opening again: every entry that was accepted
      comes back, exactly when the caller's manifest is sound. */
  method WriteAndOpen(c: Codec, initial: Manifest, entries: seq<Item>)
    returns (accepted: seq<Item>, a: Option<Archive>, b: Option<Contents>)
    requires Faithful(c)
    ensures a.Some? ==> (b.Some? <==> Sound(c, initial, accepted))
    ensures b.Some? ==> b.value == Contents(Recorded(c, initial, accepted), FilesOf(accepted))
  {
    var w := new Writer(c, initial);
    accepted := [];
    for i := 0 to |entries|
      invariant fresh(w) && w.Valid() && w.c == c && w.initial == initial && w.items == accepted
    {
      var r := w.Add(entries[i].name, entries[i].data);
      if r == Added {
        accepted := accepted + [Item(entries[i].name, true, entries[i].data)];
      }
    }
    a := w.Close();
    b := None;
    if a.Some? {
      RoundTrip(c, initial, accepted);
      b := Open(c, a.value);
    }
  }
}
