/** The source archive: pruning walk, build and audit (scripts/build-source-archive.py). */
module SourceArchive {
  import opened Common
  import opened Ordering
  import Text

  type Bytes = seq<bv8>

  type Path = seq<string>

  /** What a directory holds. os.walk lists links to directories with the directories. */
  datatype Entry = File(content: Bytes) | Link(toDirectory: bool) | Folder(entries: seq<Named>)

  datatype Named = Named(name: string, entry: Entry)

  /** The exclusion predicates, on a path with its file or directory name last, and the content scan. */
  datatype Policy = Policy(excludedDirectory: Path -> bool, excludedFile: Path -> bool, sensitive: Bytes -> bool)

  predicate ValidName(name: string) {
    name != "" && '/' !in name && name != "." && name != ".."
  }

  predicate WellFormed(entries: seq<Named>) {
    && (forall i, j :: 0 <= i < j < |entries| ==> entries[i].name != entries[j].name)
    && (forall k :: 0 <= k < |entries| ==> ValidName(entries[k].name))
    && (forall k :: 0 <= k < |entries| && entries[k].entry.Folder? ==> WellFormed(entries[k].entry.entries))
  }

  function Find(entries: seq<Named>, name: string): Option<Entry> {
    if entries == [] then None
    else if entries[0].name == name then Some(entries[0].entry)
    else Find(entries[1..], name)
  }

  // ----- the flat reading of a tree: which paths belong to the archive -----

  function Lookup(entries: seq<Named>, p: Path): Option<Entry>
    decreases |p|
  {
    if p == [] then None
    else
      var e := Find(entries, p[0]);
      if e.None? || |p| == 1 then e
      else if e.value.Folder? then Lookup(e.value.entries, p[1..])
      else None
  }

  /** No directory on the way is excluded. */
  ghost predicate Reached(policy: Policy, base: Path, p: Path) {
    forall k :: 0 < k < |p| ==> !policy.excludedDirectory(base + p[..k])
  }

  ghost predicate Included(policy: Policy, base: Path, entries: seq<Named>, p: Path, c: Bytes) {
    p != [] && Reached(policy, base, p) && Lookup(entries, p) == Some(File(c)) && !policy.excludedFile(base + p)
  }

  /** A link in a directory that is walked, or sensitive content in an included file. */
  ghost predicate Offends(policy: Policy, base: Path, entries: seq<Named>, p: Path) {
    && p != [] && Reached(policy, base, p) && Lookup(entries, p).Some?
    && match Lookup(entries, p).value
       case Link(_) => true
       case File(c) => !policy.excludedFile(base + p) && policy.sensitive(c)
       case Folder(_) => false
  }

  // ----- the walk -----

  type Found = (Path, Bytes)

  /** `found` lists exactly the included files below the entries named in `done`, and none of those offends. */
  ghost predicate Walked(policy: Policy, base: Path, entries: seq<Named>, done: set<string>, found: seq<Found>) {
    && (forall i, j :: 0 <= i < j < |found| ==> found[i].0 != found[j].0)
    && (forall f :: f in found ==> |f.0| > |base| && f.0[..|base|] == base && f.0[|base|] in done
                                   && Included(policy, base, entries, f.0[|base|..], f.1))
    && (forall p, c :: p != [] && p[0] in done && Included(policy, base, entries, p, c) ==> (base + p, c) in found)
    && (forall p :: p != [] && p[0] in done ==> !Offends(policy, base, entries, p))
  }

  ghost predicate Clean(policy: Policy, base: Path, entries: seq<Named>) {
    forall p :: !Offends(policy, base, entries, p)
  }

  function DirectoryNames(entries: seq<Named>): (r: seq<string>)
    ensures forall n :: n in r ==>
              exists k :: 0 <= k < |entries| && entries[k].name == n && IsDirectory(entries[k].entry)
    ensures forall k :: 0 <= k < |entries| && IsDirectory(entries[k].entry) ==> entries[k].name in r
  {
    if entries == [] then []
    else DirectoryNames(Init(entries)) + (if IsDirectory(Last(entries).entry) then [Last(entries).name] else [])
  }

  predicate IsDirectory(e: Entry) {
    e.Folder? || (e.Link? && e.toDirectory)
  }

  function FileNames(entries: seq<Named>): (r: seq<string>)
    ensures forall n :: n in r ==>
              exists k :: 0 <= k < |entries| && entries[k].name == n && !IsDirectory(entries[k].entry)
    ensures forall k :: 0 <= k < |entries| && !IsDirectory(entries[k].entry) ==> entries[k].name in r
  {
    if entries == [] then []
    else FileNames(Init(entries)) + (if IsDirectory(Last(entries).entry) then [] else [Last(entries).name])
  }

  lemma {:induction false} FindAt(entries: seq<Named>, k: nat)
    requires k < |entries| && forall i, j :: 0 <= i < j < |entries| ==> entries[i].name != entries[j].name
    ensures Find(entries, entries[k].name) == Some(entries[k].entry)
  {
    if k > 0 {
      assert entries[0].name != entries[k].name;
      FindAt(entries[1..], k - 1);
    }
  }

  lemma {:induction false} FindSome(entries: seq<Named>, name: string) returns (k: nat)
    requires Find(entries, name).Some?
    ensures k < |entries| && entries[k].name == name && Find(entries, name) == Some(entries[k].entry)
  {
    if entries[0].name == name {
      k := 0;
    } else {
      k := FindSome(entries[1..], name);
      k := k + 1;
    }
  }

  lemma NameSplit(entries: seq<Named>, name: string)
    requires WellFormed(entries)
    ensures name in DirectoryNames(entries) <==> Find(entries, name).Some? && IsDirectory(Find(entries, name).value)
    ensures name in FileNames(entries) <==> Find(entries, name).Some? && !IsDirectory(Find(entries, name).value)
  {
    if Find(entries, name).Some? {
      var k := FindSome(entries, name);
    }
    if name in DirectoryNames(entries) {
      var k :| 0 <= k < |entries| && entries[k].name == name && IsDirectory(entries[k].entry);
      FindAt(entries, k);
    }
    if name in FileNames(entries) {
      var k :| 0 <= k < |entries| && entries[k].name == name && !IsDirectory(entries[k].entry);
      FindAt(entries, k);
    }
  }

  /** Below a plain entry there is only the entry itself. */
  lemma PlainEntry(entries: seq<Named>, p: Path)
    requires p != [] && Find(entries, p[0]).Some? && !Find(entries, p[0]).value.Folder?
    ensures Lookup(entries, p) == if |p| == 1 then Find(entries, p[0]) else None
  {
  }

  lemma SingleReached(policy: Policy, base: Path, name: string)
    ensures Reached(policy, base, [name])
  {
  }

  lemma FileIncluded(policy: Policy, base: Path, entries: seq<Named>, p: Path, c: Bytes, name: string)
    requires Find(entries, name).Some? && Find(entries, name).value.File? && p != [] && p[0] == name
    ensures Included(policy, base, entries, p, c) <==>
              p == [name] && c == Find(entries, name).value.content && !policy.excludedFile(base + [name])
    ensures Offends(policy, base, entries, p) <==>
              p == [name] && !policy.excludedFile(base + [name]) && policy.sensitive(Find(entries, name).value.content)
  {
    PlainEntry(entries, p);
    if |p| == 1 { assert p == [name]; }
    SingleReached(policy, base, name);
  }

  lemma AddFile(policy: Policy, base: Path, entries: seq<Named>, done: set<string>, found: seq<Found>, name: string)
    requires Walked(policy, base, entries, done, found) && name !in done
    requires Find(entries, name).Some? && Find(entries, name).value.File?
    requires var c := Find(entries, name).value.content; policy.excludedFile(base + [name]) || !policy.sensitive(c)
    ensures var c := Find(entries, name).value.content;
            Walked(policy, base, entries, done + {name},
                   if policy.excludedFile(base + [name]) then found else found + [(base + [name], c)])
  {
    hide Included, Offends;
    var content := Find(entries, name).value.content;
    var found' := if policy.excludedFile(base + [name]) then found else found + [(base + [name], content)];
    forall p, c | p != [] && p[0] == name
      ensures Included(policy, base, entries, p, c) <==>
              p == [name] && c == content && !policy.excludedFile(base + [name])
    {
      FileIncluded(policy, base, entries, p, c, name);
    }
    forall p | p != [] && p[0] == name ensures !Offends(policy, base, entries, p) {
      FileIncluded(policy, base, entries, p, [], name);
    }
    var added := base + [name];
    assert added[..|base|] == base && added[|base|..] == [name];
    forall f | f in found ensures f.0 != added { assert f.0[|base|] in done; }
    forall f | f in found' ensures f in found || (f == (added, content) && !policy.excludedFile(added)) {}
    forall i, j | 0 <= i < j < |found'| ensures found'[i].0 != found'[j].0 {
      if j == |found| { assert found[i] in found; }
    }
    forall p, c | p != [] && p[0] in done + {name} && Included(policy, base, entries, p, c)
      ensures (base + p, c) in found'
    {
      if p[0] == name { assert found'[|found'| - 1] == (added, content); }
    }
  }

  lemma SensitiveFileOffends(policy: Policy, base: Path, entries: seq<Named>, name: string)
    requires Find(entries, name).Some? && Find(entries, name).value.File?
    requires !policy.excludedFile(base + [name]) && policy.sensitive(Find(entries, name).value.content)
    ensures !Clean(policy, base, entries)
  {
    FileIncluded(policy, base, entries, [name], [], name);
  }

  lemma LinkOffends(policy: Policy, base: Path, entries: seq<Named>, name: string)
    requires Find(entries, name).Some? && Find(entries, name).value.Link?
    ensures !Clean(policy, base, entries)
  {
    SingleReached(policy, base, name);
    assert Offends(policy, base, entries, [name]);
  }

  lemma FolderPath(policy: Policy, base: Path, entries: seq<Named>, p: Path, c: Bytes, name: string)
    requires Find(entries, name).Some? && Find(entries, name).value.Folder? && p != [] && p[0] == name
    ensures policy.excludedDirectory(base + [name]) ==>
            !Included(policy, base, entries, p, c) && !Offends(policy, base, entries, p)
    ensures !policy.excludedDirectory(base + [name]) ==>
              var inner := Find(entries, name).value.entries;
              (Included(policy, base, entries, p, c) <==> Included(policy, base + [name], inner, p[1..], c))
              && (Offends(policy, base, entries, p) <==> Offends(policy, base + [name], inner, p[1..]))
  {
    if |p| > 1 {
      assert base + p[..1] == base + [name];
      assert base + p == base + [name] + p[1..];
      if !policy.excludedDirectory(base + [name]) { ReachedBelow(policy, base, p); }
    }
  }

  lemma ReachedBelow(policy: Policy, base: Path, p: Path)
    requires |p| > 1 && !policy.excludedDirectory(base + [p[0]])
    ensures Reached(policy, base, p) <==> Reached(policy, base + [p[0]], p[1..])
  {
    forall k | 0 < k < |p| - 1 ensures base + p[..k + 1] == base + [p[0]] + p[1..][..k] {}
    if Reached(policy, base, p) {
      forall k | 0 < k < |p[1..]| ensures !policy.excludedDirectory(base + [p[0]] + p[1..][..k]) {
        assert !policy.excludedDirectory(base + p[..k + 1]);
      }
    }
    if Reached(policy, base + [p[0]], p[1..]) {
      forall k | 0 < k < |p| ensures !policy.excludedDirectory(base + p[..k]) {
        if k == 1 {
          assert p[..1] == [p[0]];
        } else {
          assert !policy.excludedDirectory(base + [p[0]] + p[1..][..k - 1]);
        }
      }
    }
  }

  lemma AddFolder(policy: Policy, base: Path, entries: seq<Named>, done: set<string>, found: seq<Found>, name: string,
                  below: seq<Found>)
    requires Walked(policy, base, entries, done, found) && name !in done
    requires Find(entries, name).Some? && Find(entries, name).value.Folder?
    requires if policy.excludedDirectory(base + [name]) then below == []
             else WalkedAll(policy, base + [name], Find(entries, name).value.entries, below)
    ensures Walked(policy, base, entries, done + {name}, found + below)
  {
    hide Included, Offends;
    var inner := Find(entries, name).value.entries;
    forall f | f in below
      ensures |f.0| > |base| && f.0[..|base|] == base && f.0[|base|] == name
              && Included(policy, base, entries, f.0[|base|..], f.1)
    {
      var deeper := base + [name];
      assert f.0[..|base|] == f.0[..|deeper|][..|base|] && f.0[|base|] == f.0[..|deeper|][|base|];
      FolderPath(policy, base, entries, f.0[|base|..], f.1, name);
      assert f.0[|base|..][1..] == f.0[|deeper|..];
    }
    forall p, c | p != [] && p[0] == name && Included(policy, base, entries, p, c) ensures (base + p, c) in below {
      FolderPath(policy, base, entries, p, c, name);
      assert base + [name] + p[1..] == base + p;
    }
    forall p | p != [] && p[0] == name ensures !Offends(policy, base, entries, p) {
      FolderPath(policy, base, entries, p, [], name);
    }
    forall i, j | 0 <= i < |found| && 0 <= j < |below| ensures found[i].0 != below[j].0 {
      assert found[i] in found && below[j] in below;
    }
  }

  /** The whole directory has been walked. */
  ghost predicate WalkedAll(policy: Policy, base: Path, entries: seq<Named>, found: seq<Found>) {
    && Clean(policy, base, entries)
    && (forall i, j :: 0 <= i < j < |found| ==> found[i].0 != found[j].0)
    && (forall f :: f in found ==>
          |f.0| > |base| && f.0[..|base|] == base && Included(policy, base, entries, f.0[|base|..], f.1))
    && (forall p, c :: Included(policy, base, entries, p, c) ==> (base + p, c) in found)
  }

  lemma AllWalked(policy: Policy, base: Path, entries: seq<Named>, done: set<string>, found: seq<Found>)
    requires Walked(policy, base, entries, done, found)
    requires forall name :: Find(entries, name).Some? && name !in done ==>
               Find(entries, name).value.Folder? && policy.excludedDirectory(base + [name])
    ensures WalkedAll(policy, base, entries, found) && Clean(policy, base, entries)
  {
    forall p ensures !Offends(policy, base, entries, p) {
      if p != [] && p[0] !in done && Find(entries, p[0]).Some? { FolderPath(policy, base, entries, p, [], p[0]); }
    }
    forall p, c | Included(policy, base, entries, p, c) ensures (base + p, c) in found {
      if p[0] !in done { FolderPath(policy, base, entries, p, c, p[0]); }
    }
  }

  lemma FolderOffends(policy: Policy, base: Path, entries: seq<Named>, name: string)
    requires Find(entries, name).Some? && Find(entries, name).value.Folder? && !policy.excludedDirectory(base + [name])
    requires !Clean(policy, base + [name], Find(entries, name).value.entries)
    ensures !Clean(policy, base, entries)
  {
    hide Offends;
    var inner := Find(entries, name).value.entries;
    var p :| Offends(policy, base + [name], inner, p);
    FolderPath(policy, base, entries, [name] + p, [], name);
    assert ([name] + p)[1..] == p;
  }

  function Kept(policy: Policy, base: Path, names: seq<string>): (r: seq<string>)
    ensures forall n :: n in r <==> n in names && !policy.excludedDirectory(base + [n])
    ensures Distinct(names) ==> Distinct(r)
  {
    if names == [] then []
    else
      assert forall n :: n in names <==> n in Init(names) || n == Last(names);
      Kept(policy, base, Init(names)) + (if policy.excludedDirectory(base + [Last(names)]) then [] else [Last(names)])
  }

  lemma DistinctAppend<T>(s: seq<T>, x: T)
    requires Distinct(s) && x !in s
    ensures Distinct(s + [x]) && s + [] == s
  {
  }

  lemma {:induction false} NamesAreDistinct(entries: seq<Named>)
    requires forall i, j :: 0 <= i < j < |entries| ==> entries[i].name != entries[j].name
    ensures Distinct(FileNames(entries)) && Distinct(DirectoryNames(entries))
  {
    if entries != [] {
      NamesAreDistinct(Init(entries));
      forall n | n in FileNames(Init(entries)) || n in DirectoryNames(Init(entries)) ensures n != Last(entries).name {
        var k :| 0 <= k < |Init(entries)| && Init(entries)[k].name == n;
      }
      DistinctAppend(FileNames(Init(entries)), Last(entries).name);
      DistinctAppend(DirectoryNames(Init(entries)), Last(entries).name);
    }
  }

  lemma NothingWalked(policy: Policy, base: Path, entries: seq<Named>)
    ensures Walked(policy, base, entries, {}, [])
  {
  }

  lemma NextName(names: seq<string>, listed: seq<string>, k: nat)
    requires names == Sorted(listed) && Distinct(listed) && k < |names|
    ensures names[k] in listed && names[k] !in Elements(names[..k])
    ensures Elements(names[..k + 1]) == Elements(names[..k]) + {names[k]}
  {
    SortedFacts(listed);
    assert names[..k + 1] == names[..k] + [names[k]];
    assert names[k] in names;
  }

  lemma AllNames(names: seq<string>, listed: seq<string>)
    requires names == Sorted(listed)
    ensures Elements(names[..0]) == {} && Elements(names[..|names|]) == Elements(listed)
  {
    SameElements(names, listed);
    assert names[..|names|] == names;
  }

  lemma ListedFileEntry(entries: seq<Named>, name: string)
    requires WellFormed(entries) && name in FileNames(entries)
    ensures Find(entries, name).Some? && (Find(entries, name).value.File? || Find(entries, name).value.Link?)
  {
    NameSplit(entries, name);
  }

  /** The file loop of one directory. None is the raised error. */
  method WalkFiles(policy: Policy, base: Path, entries: seq<Named>) returns (r: Option<seq<Found>>)
    requires WellFormed(entries) && Distinct(FileNames(entries))
    ensures r.Some? ==> Walked(policy, base, entries, Elements(FileNames(entries)), r.value)
    ensures r.None? ==> !Clean(policy, base, entries)
  {
    hide *;
    var names := Sorted(FileNames(entries));
    AllNames(names, FileNames(entries));
    var found: seq<Found> := [];
    NothingWalked(policy, base, entries);
    for k := 0 to |names|
      invariant Walked(policy, base, entries, Elements(names[..k]), found)
    {
      var name := names[k];
      NextName(names, FileNames(entries), k);
      ListedFileEntry(entries, name);
      var entry := Find(entries, name).value;
      if entry.Link? {
        LinkOffends(policy, base, entries, name);
        return None;
      }
      var included := !policy.excludedFile(base + [name]);
      if included && policy.sensitive(entry.content) {
        SensitiveFileOffends(policy, base, entries, name);
        return None;
      }
      AddFile(policy, base, entries, Elements(names[..k]), found, name);
      if included { found := found + [(base + [name], entry.content)]; }
    }
    return Some(found);
  }

  ghost predicate IsFolder(entries: seq<Named>, name: string) {
    Find(entries, name).Some? && Find(entries, name).value.Folder?
  }

  method CheckDirectoryLinks(policy: Policy, base: Path, entries: seq<Named>) returns (ok: bool)
    requires WellFormed(entries)
    ensures !ok ==> !Clean(policy, base, entries)
    ensures ok ==> forall n :: n in DirectoryNames(entries) ==> IsFolder(entries, n)
  {
    hide Clean, WellFormed, IsFolder, Find;
    var names := DirectoryNames(entries);
    for k := 0 to |names|
      invariant forall j :: 0 <= j < k ==> IsFolder(entries, names[j])
    {
      assert names[k] in names;
      NameSplit(entries, names[k]);
      FolderOrLink(entries, names[k]);
      if Find(entries, names[k]).value.Link? {
        LinkOffends(policy, base, entries, names[k]);
        return false;
      }
    }
    return true;
  }

  lemma FolderOrLink(entries: seq<Named>, name: string)
    requires Find(entries, name).Some? && IsDirectory(Find(entries, name).value)
    ensures Find(entries, name).value.Link? || IsFolder(entries, name)
  {
  }

  lemma KeptNames(policy: Policy, base: Path, entries: seq<Named>)
    requires WellFormed(entries)
    ensures Distinct(FileNames(entries)) && Distinct(Kept(policy, base, DirectoryNames(entries)))
    ensures Elements(FileNames(entries)) !! Elements(DirectoryNames(entries))
  {
    NamesAreDistinct(entries);
    forall name ensures !(name in FileNames(entries) && name in DirectoryNames(entries)) { NameSplit(entries, name); }
  }

  lemma KeptFolder(policy: Policy, base: Path, entries: seq<Named>, kept: seq<string>, files: set<string>, k: nat)
    requires WellFormed(entries) && kept == Sorted(Kept(policy, base, DirectoryNames(entries))) && k < |kept|
    requires files == Elements(FileNames(entries))
    requires forall n :: n in DirectoryNames(entries) ==> IsFolder(entries, n)
    ensures var name := kept[k];
            && Find(entries, name).Some? && Find(entries, name).value.Folder?
            && !policy.excludedDirectory(base + [name])
            && name !in files + Elements(kept[..k])
            && files + Elements(kept[..k + 1]) == files + Elements(kept[..k]) + {name}
  {
    KeptNames(policy, base, entries);
    NextName(kept, Kept(policy, base, DirectoryNames(entries)), k);
    assert kept[k] in DirectoryNames(entries);
    assert kept[k] in Elements(DirectoryNames(entries));
  }

  lemma FolderIsWellFormed(entries: seq<Named>, at: nat)
    requires WellFormed(entries) && at < |entries| && entries[at].entry.Folder?
    ensures WellFormed(entries[at].entry.entries)
  {
  }

  lemma WalkComplete(policy: Policy, base: Path, entries: seq<Named>, kept: seq<string>, found: seq<Found>)
    requires WellFormed(entries) && kept == Sorted(Kept(policy, base, DirectoryNames(entries)))
    requires forall n :: n in DirectoryNames(entries) ==> IsFolder(entries, n)
    requires Walked(policy, base, entries, Elements(FileNames(entries)) + Elements(kept), found)
    ensures WalkedAll(policy, base, entries, found) && Clean(policy, base, entries)
  {
    hide Walked, WalkedAll, Clean, WellFormed;
    var done := Elements(FileNames(entries)) + Elements(kept);
    SameElements(kept, Kept(policy, base, DirectoryNames(entries)));
    forall name | Find(entries, name).Some? && name !in done
      ensures Find(entries, name).value.Folder? && policy.excludedDirectory(base + [name])
    {
      NameSplit(entries, name);
    }
    AllWalked(policy, base, entries, done, found);
  }

  /** One step of os.walk: links to directories, then the files, then the kept directories in order. */
  method WalkFolder(policy: Policy, base: Path, entries: seq<Named>) returns (r: Option<seq<Found>>)
    requires WellFormed(entries)
    ensures r.Some? <==> Clean(policy, base, entries)
    ensures r.Some? ==> WalkedAll(policy, base, entries, r.value)
    decreases entries
  {
    hide *;
    var ok := CheckDirectoryLinks(policy, base, entries);
    if !ok { return None; }
    KeptNames(policy, base, entries);
    var kept := Sorted(Kept(policy, base, DirectoryNames(entries)));
    AllNames(kept, Kept(policy, base, DirectoryNames(entries)));
    r := WalkFiles(policy, base, entries);
    if r.None? { return; }
    var found := r.value;
    ghost var files := Elements(FileNames(entries));
    assert files + {} == files;
    for k := 0 to |kept|
      invariant Walked(policy, base, entries, files + Elements(kept[..k]), found)
    {
      var name := kept[k];
      KeptFolder(policy, base, entries, kept, files, k);
      var at := FindIndex(entries, name);
      FolderIsWellFormed(entries, at);
      var below := WalkFolder(policy, base + [name], entries[at].entry.entries);
      if below.None? {
        FolderOffends(policy, base, entries, name);
        return None;
      }
      AddFolder(policy, base, entries, files + Elements(kept[..k]), found, name, below.value);
      found := found + below.value;
    }
    assert kept[..|kept|] == kept;
    WalkComplete(policy, base, entries, kept, found);
    return Some(found);
  }

  method FindIndex(entries: seq<Named>, name: string) returns (at: nat)
    requires Find(entries, name).Some?
    ensures at < |entries| && entries[at].name == name && Find(entries, name) == Some(entries[at].entry)
  {
    at := 0;
    assert entries[0..] == entries;
    while entries[at].name != name
      invariant at < |entries| && Find(entries, name) == Find(entries[at..], name)
      decreases |entries| - at
    {
      assert entries[at..][1..] == entries[at + 1..];
      at := at + 1;
    }
  }

  // ----- names of archive members -----

  function Join(p: Path): string {
    Text.Join('/', p)
  }

  ghost predicate ValidPath(p: Path) {
    forall k :: 0 <= k < |p| ==> ValidName(p[k])
  }

  /** Reading the parts of a member name undoes joining a path. */
  lemma PartsOfJoin(p: Path)
    requires ValidPath(p) && p != []
    ensures Text.Parts(Join(p)) == p && Join(p) != "" && Join(p)[0] != '/'
  {
    Text.SplitJoin('/', p);
    Text.NoDots(p);
    assert p[0][0] in p[0];
  }

  /** Different valid paths have different names. */
  lemma JoinIsInjective(p: Path, q: Path)
    requires ValidPath(p) && ValidPath(q) && p != [] && q != [] && Join(p) == Join(q)
    ensures p == q
  {
    PartsOfJoin(p);
    PartsOfJoin(q);
  }

  lemma {:induction false} LookupIsValid(entries: seq<Named>, p: Path)
    requires WellFormed(entries) && Lookup(entries, p).Some?
    ensures ValidPath(p)
    decreases |p|
  {
    var k := FindSome(entries, p[0]);
    if |p| > 1 {
      LookupIsValid(entries[k].entry.entries, p[1..]);
      forall i | 0 <= i < |p| ensures ValidName(p[i]) { if i > 0 { assert p[i] == p[1..][i - 1]; } }
    }
  }

  // ----- source_files -----

  predicate ByName(a: (string, Bytes), b: (string, Bytes)) {
    LexLe(a.0, b.0)
  }

  /** Exactly the files whose every ancestor directory and own name pass the policy, sorted, each once. */
  ghost predicate SourceList(policy: Policy, root: seq<Named>, files: seq<(string, Bytes)>) {
    && (forall i, j :: 0 <= i < j < |files| ==> files[i].0 != files[j].0 && LexLe(files[i].0, files[j].0))
    && (forall f :: f in files ==> exists p :: f.0 == Join(p) && Included(policy, [], root, p, f.1))
    && (forall p, c :: Included(policy, [], root, p, c) ==> (Join(p), c) in files)
  }

  function WithNames(found: seq<Found>): seq<(string, Bytes)> {
    seq(|found|, k requires 0 <= k < |found| => (Join(found[k].0), found[k].1))
  }

  lemma RootPaths(policy: Policy, root: seq<Named>, found: seq<Found>, k: nat)
    requires WalkedAll(policy, [], root, found) && WellFormed(root) && k < |found|
    ensures Included(policy, [], root, found[k].0, found[k].1) && ValidPath(found[k].0) && found[k].0 != []
  {
    assert found[k] in found;
    assert found[k].0[0..] == found[k].0;
    LookupIsValid(root, found[k].0);
  }

  lemma ByNameOrder()
    ensures TotalPreorder(ByName)
  {
    LexIsTotalOrder();
    forall x, y, z | ByName(x, y) && ByName(y, z) ensures ByName(x, z) { LexTransitive(x.0, y.0, z.0); }
    forall x, y ensures ByName(x, y) || ByName(y, x) { LexTotal(x.0, y.0); }
  }

  lemma FoundNamesAreDistinct(policy: Policy, root: seq<Named>, found: seq<Found>)
    requires WalkedAll(policy, [], root, found) && WellFormed(root)
    ensures forall i, j :: 0 <= i < j < |found| ==> WithNames(found)[i].0 != WithNames(found)[j].0
  {
    hide WellFormed, Included;
    forall i, j | 0 <= i < j < |found| ensures WithNames(found)[i].0 != WithNames(found)[j].0 {
      RootPaths(policy, root, found, i);
      RootPaths(policy, root, found, j);
      if Join(found[i].0) == Join(found[j].0) { JoinIsInjective(found[i].0, found[j].0); }
    }
  }

  lemma NamedIsIncluded(policy: Policy, root: seq<Named>, found: seq<Found>, files: seq<(string, Bytes)>,
                        f: (string, Bytes))
    requires WalkedAll(policy, [], root, found) && WellFormed(root) && f in files
             && multiset(files) == multiset(WithNames(found))
    ensures exists p :: f.0 == Join(p) && Included(policy, [], root, p, f.1)
  {
    hide WellFormed, Included;
    SameElements(files, WithNames(found));
    var k :| 0 <= k < |found| && WithNames(found)[k] == f;
    RootPaths(policy, root, found, k);
  }

  lemma IncludedIsNamed(policy: Policy, root: seq<Named>, found: seq<Found>, files: seq<(string, Bytes)>, p: Path,
                        c: Bytes)
    requires WalkedAll(policy, [], root, found) && Included(policy, [], root, p, c)
             && multiset(files) == multiset(WithNames(found))
    ensures (Join(p), c) in files
  {
    hide Included;
    assert [] + p == p;
    var k :| 0 <= k < |found| && found[k] == (p, c);
    assert WithNames(found)[k] == (Join(p), c);
    SameElements(files, WithNames(found));
  }

  lemma SortedSource(policy: Policy, root: seq<Named>, found: seq<Found>)
    requires WalkedAll(policy, [], root, found) && WellFormed(root)
    ensures SourceList(policy, root, SortBy(ByName, WithNames(found)))
  {
    hide WellFormed, Included, ByName, WalkedAll;
    var named := WithNames(found);
    var files := SortBy(ByName, named);
    ByNameOrder();
    SortBySorts(ByName, named);
    FoundNamesAreDistinct(policy, root, found);
    NamesStayDistinct(named, files);
    forall i, j | 0 <= i < j < |files| ensures LexLe(files[i].0, files[j].0) { SortedPair(files, i, j); }
    forall f | f in files ensures exists p :: f.0 == Join(p) && Included(policy, [], root, p, f.1) {
      NamedIsIncluded(policy, root, found, files, f);
    }
    forall p, c | Included(policy, [], root, p, c)
      ensures (Join(p), c) in files
    {
      IncludedIsNamed(policy, root, found, files, p, c);
    }
  }

  lemma SortedPair(files: seq<(string, Bytes)>, i: nat, j: nat)
    requires SortedBy(ByName, files) && i < j < |files|
    ensures LexLe(files[i].0, files[j].0)
  {
    assert ByName(files[i], files[j]);
  }

  lemma NamesStayDistinct(a: seq<(string, Bytes)>, b: seq<(string, Bytes)>)
    requires multiset(a) == multiset(b) && forall i, j :: 0 <= i < j < |a| ==> a[i].0 != a[j].0
    ensures forall i, j :: 0 <= i < j < |b| ==> b[i].0 != b[j].0
  {
    SameElements(a, b);
    assert Distinct(a);
    DistinctFromMultiset(a, b);
    forall i, j | 0 <= i < j < |b| ensures b[i].0 != b[j].0 { assert b[i] in a && b[j] in a && b[i] != b[j]; }
  }

  method SourceFiles(policy: Policy, root: seq<Named>) returns (r: Option<seq<(string, Bytes)>>)
    requires WellFormed(root)
    ensures r.Some? <==> Clean(policy, [], root)
    ensures r.Some? ==> SourceList(policy, root, r.value)
  {
    hide WalkedAll, Clean, SourceList, WellFormed;
    var found := WalkFolder(policy, [], root);
    if found.None? { return None; }
    SortedSource(policy, root, found.value);
    return Some(SortBy(ByName, WithNames(found.value)));
  }

  // ----- build and audit -----

  datatype Member = Member(name: string, content: Bytes, timestamp: int, system: int, attributes: int)

  datatype ManifestRow = ManifestRow(path: string, sha256: string, size: nat)

  /** 1980-01-01 00:00:00 as a packed constant, and a regular file with mode 0644. */
  const ARCHIVE_TIMESTAMP := 19800101000000
  const ARCHIVE_SYSTEM := 3
  const ARCHIVE_FILE_MODE := 0x81A4 * 0x1_0000

  /** `_zip_info`: the same metadata for every member. */
  function MemberOf(file: (string, Bytes)): Member {
    Member(file.0, file.1, ARCHIVE_TIMESTAMP, ARCHIVE_SYSTEM, ARCHIVE_FILE_MODE)
  }

  function Names(archive: seq<Member>): (r: seq<string>)
    ensures |r| == |archive| && forall k :: 0 <= k < |archive| ==> r[k] == archive[k].name
  {
    seq(|archive|, k requires 0 <= k < |archive| => archive[k].name)
  }

  function RowOf(digest: Bytes -> string, m: Member): ManifestRow {
    ManifestRow(m.name, digest(m.content), |m.content|)
  }

  function Manifest(digest: Bytes -> string, archive: seq<Member>): (r: seq<ManifestRow>)
    ensures |r| == |archive| && forall k :: 0 <= k < |archive| ==> r[k] == RowOf(digest, archive[k])
  {
    seq(|archive|, k requires 0 <= k < |archive| => RowOf(digest, archive[k]))
  }

  /** The audit's own policy check on one member name, from the name's text alone. */
  ghost predicate MemberOk(policy: Policy, m: Member) {
    var parts := Text.Parts(m.name);
    && (m.name == "" || m.name[0] != '/') && ".." !in parts
    && (forall k :: 0 < k < |parts| ==> !policy.excludedDirectory(parts[..k]))
    && !policy.excludedFile(parts)
    && m.timestamp == ARCHIVE_TIMESTAMP && m.system == ARCHIVE_SYSTEM && m.attributes == ARCHIVE_FILE_MODE
    && !policy.sensitive(m.content)
  }

  ghost predicate AuditOk(policy: Policy, digest: Bytes -> string, archive: seq<Member>,
                          expected: Option<seq<ManifestRow>>) {
    && SortedBy(LexLe, Names(archive)) && Distinct(Names(archive))
    && (forall k :: 0 <= k < |archive| ==> MemberOk(policy, archive[k]))
    && (expected.Some? ==> expected.value == Manifest(digest, archive))
  }

  method AuditMember(policy: Policy, m: Member) returns (ok: bool)
    ensures ok <==> MemberOk(policy, m)
  {
    hide Text.Parts;
    var parts := Text.Parts(m.name);
    if (m.name != "" && m.name[0] == '/') || ".." in parts { return false; }
    var k := 1;
    while k < |parts|
      invariant k >= 1 && forall j :: 0 < j < k && j < |parts| ==> !policy.excludedDirectory(parts[..j])
    {
      if policy.excludedDirectory(parts[..k]) { return false; }
      k := k + 1;
    }
    if policy.excludedFile(parts) { return false; }
    if m.timestamp != ARCHIVE_TIMESTAMP { return false; }
    if m.system != ARCHIVE_SYSTEM || m.attributes != ARCHIVE_FILE_MODE { return false; }
    return !policy.sensitive(m.content);
  }

  method AuditArchive(policy: Policy, digest: Bytes -> string, archive: seq<Member>, expected: Option<seq<ManifestRow>>)
    returns (ok: bool)
    ensures ok <==> AuditOk(policy, digest, archive, expected)
  {
    hide MemberOk, RowOf, Sorted, SortedBy, Distinct;
    var names := Names(archive);
    SortedIffUnchanged(names);
    if names != Sorted(names) { return false; }
    if !Distinct(names) { return false; }
    var observed: seq<ManifestRow> := [];
    for k := 0 to |archive|
      invariant forall j :: 0 <= j < k ==> MemberOk(policy, archive[j])
      invariant observed == Manifest(digest, archive)[..k]
    {
      var member := AuditMember(policy, archive[k]);
      if !member { return false; }
      observed := observed + [RowOf(digest, archive[k])];
    }
    assert observed == Manifest(digest, archive);
    return expected.None? || observed == expected.value;
  }

  lemma SortedIffUnchanged(names: seq<string>)
    ensures names == Sorted(names) <==> SortedBy(LexLe, names)
  {
    LexIsTotalOrder();
    SortBySorts(LexLe, names);
    if SortedBy(LexLe, names) { SortedUnique(LexLe, names, Sorted(names)); }
  }

  method BuildArchive(policy: Policy, digest: Bytes -> string, files: seq<(string, Bytes)>)
    returns (archive: seq<Member>, entries: seq<ManifestRow>, audited: bool)
    ensures archive == seq(|files|, k requires 0 <= k < |files| => MemberOf(files[k]))
    ensures entries == Manifest(digest, archive)
    ensures audited <==> AuditOk(policy, digest, archive, Some(entries))
  {
    hide AuditOk;
    archive, entries := [], [];
    for k := 0 to |files|
      invariant |archive| == k == |entries|
      invariant forall j :: 0 <= j < k ==>
                archive[j] == Member(files[j].0, files[j].1, ARCHIVE_TIMESTAMP, ARCHIVE_SYSTEM, ARCHIVE_FILE_MODE)
      invariant forall j :: 0 <= j < k ==> entries[j] == RowOf(digest, archive[j])
    {
      var m := Member(files[k].0, files[k].1, ARCHIVE_TIMESTAMP, ARCHIVE_SYSTEM, ARCHIVE_FILE_MODE);
      archive := archive + [m];
      entries := entries + [RowOf(digest, m)];
    }
    audited := AuditArchive(policy, digest, archive, Some(entries));
  }

  /** The name check of the audit agrees with the path check of the walk. */
  lemma IncludedMemberIsOk(policy: Policy, root: seq<Named>, p: Path, c: Bytes, m: Member)
    requires WellFormed(root) && Clean(policy, [], root) && Included(policy, [], root, p, c)
    requires m == Member(Join(p), c, ARCHIVE_TIMESTAMP, ARCHIVE_SYSTEM, ARCHIVE_FILE_MODE)
    ensures MemberOk(policy, m)
  {
    LookupIsValid(root, p);
    PartsOfJoin(p);
    assert [] + p == p;
    forall k | 0 < k < |p| ensures !policy.excludedDirectory(p[..k]) { assert [] + p[..k] == p[..k]; }
    assert !Offends(policy, [], root, p);
  }

  /** The audit accepts every archive built from the walk of a clean tree. */
  lemma BuiltArchivePassesAudit(policy: Policy, digest: Bytes -> string, root: seq<Named>, files: seq<(string, Bytes)>,
                                archive: seq<Member>)
    requires WellFormed(root) && Clean(policy, [], root) && SourceList(policy, root, files)
    requires archive == seq(|files|, k requires 0 <= k < |files| => MemberOf(files[k]))
    ensures AuditOk(policy, digest, archive, Some(Manifest(digest, archive)))
  {
    hide WellFormed, Included, MemberOk, Clean;
    forall k | 0 <= k < |archive| ensures MemberOk(policy, archive[k]) {
      assert files[k] in files;
      var p :| files[k].0 == Join(p) && Included(policy, [], root, p, files[k].1);
      IncludedMemberIsOk(policy, root, p, files[k].1, archive[k]);
    }
    forall i, j | 0 <= i < j < |archive|
      ensures LexLe(Names(archive)[i], Names(archive)[j]) && Names(archive)[i] != Names(archive)[j] {}
  }

  /** Walk, build and audit in one go, as the delivery command does: a clean tree always yields an accepted archive. */
  method Deliver(policy: Policy, digest: Bytes -> string, root: seq<Named>) returns (r: Option<seq<Member>>)
    requires WellFormed(root)
    ensures r.Some? <==> Clean(policy, [], root)
    ensures r.Some? ==> AuditOk(policy, digest, r.value, Some(Manifest(digest, r.value)))
    ensures r.Some? ==> forall p, c :: Included(policy, [], root, p, c) ==>
              exists m :: m in r.value && m.name == Join(p) && m.content == c
    ensures r.Some? ==> forall m :: m in r.value ==>
              exists p :: m.name == Join(p) && Included(policy, [], root, p, m.content)
  {
    hide WellFormed, Included, Clean, AuditOk, SourceList, Join;
    var files := SourceFiles(policy, root);
    if files.None? { return None; }
    var archive, entries, audited := BuildArchive(policy, digest, files.value);
    BuiltArchivePassesAudit(policy, digest, root, files.value, archive);
    if !audited { return None; }
    forall p, c | Included(policy, [], root, p, c)
      ensures exists m :: m in archive && m.name == Join(p) && m.content == c
    {
      ListedFile(policy, root, files.value, p, c);
      var k :| 0 <= k < |files.value| && files.value[k] == (Join(p), c);
      assert archive[k] in archive;
    }
    forall m | m in archive ensures exists p :: m.name == Join(p) && Included(policy, [], root, p, m.content) {
      var k :| 0 <= k < |archive| && archive[k] == m;
      ListedIsIncluded(policy, root, files.value, files.value[k]);
    }
    return Some(archive);
  }

  lemma ListedIsIncluded(policy: Policy, root: seq<Named>, files: seq<(string, Bytes)>, f: (string, Bytes))
    requires SourceList(policy, root, files) && f in files
    ensures exists p :: f.0 == Join(p) && Included(policy, [], root, p, f.1)
  {
  }

  lemma ListedFile(policy: Policy, root: seq<Named>, files: seq<(string, Bytes)>, p: Path, c: Bytes)
    requires SourceList(policy, root, files) && Included(policy, [], root, p, c)
    ensures (Join(p), c) in files
  {
  }
}
