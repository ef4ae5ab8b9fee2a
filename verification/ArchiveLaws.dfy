/**
 * What enters a source archive and what its audit demands, in the terms of the tree, of member names as text, and of
 * the manifest rows.
 */
module ArchiveLaws {
  import opened Common
  import opened Ordering
  import opened SourceArchive
  import Text

  // ----- the tree -----

  /** The path leads to this entry, folder by folder. */
  ghost predicate LeadsTo(entries: seq<Named>, p: Path, e: Entry)
    decreases |p|
  {
    p != [] && exists k :: 0 <= k < |entries| && LeadsThrough(entries[k], p, e)
  }

  ghost predicate LeadsThrough(named: Named, p: Path, e: Entry)
    requires p != []
    decreases |p|, 0
  {
    && named.name == p[0]
    && if |p| == 1 then named.entry == e else named.entry.Folder? && LeadsTo(named.entry.entries, p[1..], e)
  }

  lemma {:induction false} FindLaw(entries: seq<Named>, k: nat)
    requires k < |entries| && forall i, j :: 0 <= i < j < |entries| ==> entries[i].name != entries[j].name
    ensures Find(entries, entries[k].name) == Some(entries[k].entry)
  {
    if k > 0 { FindLaw(entries[1..], k - 1); }
  }

  lemma {:induction false} FoundLaw(entries: seq<Named>, name: string)
    ensures Find(entries, name).Some? ==>
              exists k :: 0 <= k < |entries| && entries[k].name == name && Find(entries, name) == Some(entries[k].entry)
  {
    if entries != [] && entries[0].name != name {
      FoundLaw(entries[1..], name);
      if Find(entries, name).Some? {
        var k :| 0 <= k < |entries[1..]| && entries[1..][k].name == name
                 && Find(entries[1..], name) == Some(entries[1..][k].entry);
        assert entries[k + 1].name == name && Find(entries, name) == Some(entries[k + 1].entry);
      }
    }
  }

  /** Names are unique in a directory, so looking a path up finds the one entry that it leads to. */
  lemma {:induction false} LookupLaw(entries: seq<Named>, p: Path, e: Entry)
    requires WellFormed(entries)
    ensures Lookup(entries, p) == Some(e) <==> LeadsTo(entries, p, e)
    decreases |p|
  {
    hide Find;
    if p != [] {
      FoundLaw(entries, p[0]);
      if Lookup(entries, p) == Some(e) {
        var k :| 0 <= k < |entries| && entries[k].name == p[0] && Find(entries, p[0]) == Some(entries[k].entry);
        if |p| > 1 { LookupLaw(entries[k].entry.entries, p[1..], e); }
        assert LeadsThrough(entries[k], p, e);
      }
      if LeadsTo(entries, p, e) {
        var k :| 0 <= k < |entries| && LeadsThrough(entries[k], p, e);
        FindLaw(entries, k);
        if |p| > 1 { LookupLaw(entries[k].entry.entries, p[1..], e); }
      }
    }
  }

  /** No directory above the end of the path is excluded. */
  ghost predicate Open(policy: Policy, p: Path) {
    forall k :: 0 < k < |p| ==> !policy.excludedDirectory(p[..k])
  }

  lemma IncludedLaw(policy: Policy, root: seq<Named>, p: Path, c: Bytes)
    requires WellFormed(root)
    ensures Included(policy, [], root, p, c) <==>
              LeadsTo(root, p, File(c)) && Open(policy, p) && !policy.excludedFile(p)
  {
    hide WellFormed;
    LookupLaw(root, p, File(c));
    assert [] + p == p;
    forall k | 0 < k < |p| ensures [] + p[..k] == p[..k] {}
  }

  /** The walk gets through a tree if and only if it meets no link, and no sensitive content in a file it keeps. */
  lemma CleanLaw(policy: Policy, root: seq<Named>)
    requires WellFormed(root)
    ensures Clean(policy, [], root) <==>
              forall p, e :: LeadsTo(root, p, e) && Open(policy, p) ==>
                !e.Link? && (e.File? && !policy.excludedFile(p) ==> !policy.sensitive(e.content))
  {
    hide WellFormed, Lookup;
    if Clean(policy, [], root) {
      forall p, e | LeadsTo(root, p, e) && Open(policy, p)
        ensures !e.Link? && (e.File? && !policy.excludedFile(p) ==> !policy.sensitive(e.content))
      {
        LookupLaw(root, p, e);
        OpenLaw(policy, p);
        assert !Offends(policy, [], root, p);
      }
    } else {
      var p :| Offends(policy, [], root, p);
      LookupLaw(root, p, Lookup(root, p).value);
      OpenLaw(policy, p);
    }
  }

  lemma OpenLaw(policy: Policy, p: Path)
    ensures [] + p == p && (Reached(policy, [], p) <==> Open(policy, p))
  {
    forall k | 0 < k < |p| ensures [] + p[..k] == p[..k] {}
  }

  // ----- members and rows -----

  /** The names on a path, read off a member name: what is between slashes, without "" and ".". */
  lemma {:induction false} PartsLaw(segments: seq<string>)
    ensures forall x :: x in Text.WithoutDots(segments) <==> x in segments && x != "" && x != "."
    ensures (forall x :: x in segments ==> x != "" && x != ".") ==> Text.WithoutDots(segments) == segments
  {
    if segments != [] {
      PartsLaw(segments[1..]);
      assert segments == [segments[0]] + segments[1..];
      assert forall x :: x in segments[1..] ==> x in segments;
      assert segments[0] in segments;
    }
  }

  /** 1980-01-01 00:00:00, a Unix entry, a regular file with mode 0644 in the upper half of the attributes. */
  ghost predicate PlainMember(m: Member) {
    m.timestamp == 19800101000000 && m.system == 3 && m.attributes == 33188 * 65536
  }

  ghost predicate Harmless(policy: Policy, m: Member) {
    var parts := Text.Parts(m.name);
    && PlainMember(m) && !("/" <= m.name) && (forall k :: 0 <= k < |parts| ==> parts[k] != "..")
    && Open(policy, parts) && !policy.excludedFile(parts) && !policy.sensitive(m.content)
  }

  lemma MemberLaw(policy: Policy, m: Member)
    ensures MemberOk(policy, m) <==> Harmless(policy, m)
  {
    hide Text.Parts;
  }

  /** The row of a member: its name, the digest of its content and how many bytes that has. */
  ghost predicate Describes(digest: Bytes -> string, row: ManifestRow, m: Member) {
    row.path == m.name && row.sha256 == digest(m.content) && row.size == |m.content|
  }

  ghost predicate DescribesAll(digest: Bytes -> string, rows: seq<ManifestRow>, archive: seq<Member>) {
    |rows| == |archive| && forall k :: 0 <= k < |rows| ==> Describes(digest, rows[k], archive[k])
  }

  lemma ManifestLaw(digest: Bytes -> string, rows: seq<ManifestRow>, archive: seq<Member>)
    ensures rows == Manifest(digest, archive) <==> DescribesAll(digest, rows, archive)
  {
    if DescribesAll(digest, rows, archive) {
      forall k | 0 <= k < |rows| ensures rows[k] == Manifest(digest, archive)[k] {
        assert Describes(digest, rows[k], archive[k]);
      }
    }
  }

  /** The name comes first at the first place where the two differ. */
  ghost predicate NamesInOrder(archive: seq<Member>) {
    forall i, j :: 0 <= i < j < |archive| ==>
      archive[i].name != archive[j].name && exists k :: PrecedesAt(archive[i].name, archive[j].name, k)
  }

  lemma NamesLaw(archive: seq<Member>)
    ensures SortedBy(LexLe, Names(archive)) && Distinct(Names(archive)) <==> NamesInOrder(archive)
  {
    hide LexLe, PrecedesAt;
    forall i, j | 0 <= i < j < |archive|
      ensures LexLe(Names(archive)[i], Names(archive)[j]) <==>
                exists k :: PrecedesAt(archive[i].name, archive[j].name, k)
    {
      LexLaw(archive[i].name, archive[j].name);
    }
    var names := Names(archive);
    if SortedBy(LexLe, names) && Distinct(names) {
      forall i, j | 0 <= i < j < |archive|
        ensures archive[i].name != archive[j].name && exists k :: PrecedesAt(archive[i].name, archive[j].name, k)
      {
        assert names[i] != names[j] && LexLe(names[i], names[j]);
      }
    }
    if NamesInOrder(archive) {
      forall i, j | 0 <= i < j < |names| ensures LexLe(names[i], names[j]) && names[i] != names[j] {
        assert archive[i].name != archive[j].name;
      }
    }
  }

  /** The audit passes if and only if names are in order, every member is harmless and the rows describe them. */
  lemma AuditLaw(policy: Policy, digest: Bytes -> string, archive: seq<Member>, expected: Option<seq<ManifestRow>>)
    ensures AuditOk(policy, digest, archive, expected) <==>
              && NamesInOrder(archive) && (forall k :: 0 <= k < |archive| ==> Harmless(policy, archive[k]))
              && (expected.Some? ==> DescribesAll(digest, expected.value, archive))
  {
    hide MemberOk, Harmless, NamesInOrder, SortedBy, Distinct, DescribesAll;
    NamesLaw(archive);
    if expected.Some? { ManifestLaw(digest, expected.value, archive); }
    forall k | 0 <= k < |archive| ensures MemberOk(policy, archive[k]) <==> Harmless(policy, archive[k]) {
      MemberLaw(policy, archive[k]);
    }
  }

  /** Every member carries its file's name and content under the same metadata. */
  lemma BuiltLaw(file: (string, Bytes))
    ensures MemberOf(file).name == file.0 && MemberOf(file).content == file.1 && PlainMember(MemberOf(file))
  {
  }
}
