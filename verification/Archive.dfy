/** Deterministic archives: the normalising writer, the readers, and what reading back yields. */
module Archive {
  import opened Names
  import opened Wrappers

  type Byte = b: int | 0 <= b < 256
  type Bytes = seq<Byte>

  /** The bytes of an ASCII text. */
  function Ascii(text: string): (b: Bytes)
    ensures |b| == |text|
  {
    seq(|text|, i requires 0 <= i < |text| => (text[i] as int) % 256)
  }

  /** A dictionary of archive entries. */
  type Entries = map<string, Bytes>

  datatype Time = Time(year: nat, month: nat, day: nat, hour: nat, minute: nat, second: nat)

  const FIXED_ZIP_TIME := Time(1980, 1, 1, 0, 0, 0)

  /** 0o100644: a regular file, readable by all and writable by its owner. */
  const REGULAR_FILE := 33188

  /** One member of an archive as the zip library lists it; an archive is the sequence of its members. */
  datatype Member = Member(name: string, time: Time, mode: nat, data: Bytes)

  type Members = seq<Member>

  // ---------------------------------------------------------------- writing

  function Normalize(name: string): string
    requires ValidateEntryName(name).Some?
  {
    ValidateEntryName(name).value
  }

  /** Every name is accepted and no two normalise to one. */
  predicate Archivable(entries: Entries) {
    && (forall k | k in entries :: ValidateEntryName(k).Some?)
    && (forall j, k | j in entries && k in entries && j != k :: Normalize(j) != Normalize(k))
  }

  /** The entries under their normalised names. */
  function Normalized(entries: Entries): Entries
    requires Archivable(entries)
  {
    map k | k in entries :: Normalize(k) := entries[k]
  }

  /** The zip library ends a member's name at the first NUL. */
  function UpToNul(name: string): string {
    if name == "" || name[0] == '\0' then "" else [name[0]] + UpToNul(name[1..])
  }

  function Regular(name: string, data: Bytes): Member {
    Member(UpToNul(name), FIXED_ZIP_TIME, REGULAR_FILE, data)
  }

  /** The members written for a normalised dictionary, in name order. */
  function Written(normalized: Entries): (r: Members)
    ensures |r| == |SortedKeys(normalized.Keys)|
  {
    var names := SortedKeys(normalized.Keys);
    seq(|names|, i requires 0 <= i < |names| => Regular(names[i], normalized[names[i]]))
  }

  /** What archive_bytes produces: nothing but the dictionary's contents decides it. */
  function Archived(entries: Entries): Option<Members> {
    if Archivable(entries) then Some(Written(Normalized(entries))) else None
  }

  /** A listing of a dictionary's keys, in any order. */
  ghost predicate Lists(order: seq<string>, keys: set<string>) {
    (forall k :: k in order <==> k in keys) && (forall i, j | 0 <= i < j < |order| :: order[i] != order[j])
  }

  class ZipFile {
    var members: Members

    constructor ()
      ensures members == []
    {
      members := [];
    }

    method WriteEntry(name: string, data: Bytes) returns (ok: bool)
      modifies this
      ensures ok <==> ValidateEntryName(name).Some?
      ensures members == if ok then old(members) + [Regular(Normalize(name), data)] else old(members)
    {
      var normalized := ValidateEntryName(name);
      ok := normalized.Some?;
      if ok {
        members := members + [Regular(normalized.value, data)];
      }
    }
  }

  /** archive_bytes, visiting the dictionary in its insertion order; the order leaves no trace. */
  method ArchiveBytes(entries: Entries, order: seq<string>) returns (r: Option<Members>)
    requires Lists(order, entries.Keys)
    ensures r == Archived(entries)
    ensures r.Some? && (forall k | k in entries :: NulFree(k)) ==>
              NamesAscend(r.value) && PlainMetadata(r.value) && HoldsFiles(Normalized(entries), r.value)
  {
    var normalized := NormalizeEntries(entries, order);
    if normalized == None {
      return None;
    }
    var members := WriteEntries(entries, normalized.value);
    WrittenInOrder(entries);
    return Some(members);
  }

  /** Its first loop: the dictionary of normalised names. */
  method NormalizeEntries(entries: Entries, order: seq<string>) returns (r: Option<Entries>)
    requires Lists(order, entries.Keys)
    ensures r == if Archivable(entries) then Some(Normalized(entries)) else None
  {
    hide ValidateEntryName, Normalized, Archivable;
    var normalized: Entries := map[];
    ghost var seen: Entries := map[];
    NothingNormalized();
    for i := 0 to |order|
      invariant forall k :: k in seen <==> k in order[..i]
      invariant Within(seen, entries)
      invariant Archivable(seen) && normalized == Normalized(seen)
    {
      assert order[i] in order && order[i] !in order[..i] && order[..i + 1] == order[..i] + [order[i]];
      OneMoreEntry(seen, order[i], entries[order[i]], entries);
      var safeName := ValidateEntryName(order[i]);
      if safeName == None || safeName.value in normalized {
        return None;
      }
      normalized := normalized[safeName.value := entries[order[i]]];
      seen := seen[order[i] := entries[order[i]]];
    }
    assert order[..|order|] == order;
    assert seen == entries;
    return Some(normalized);
  }

  /** Its second loop: the members in name order. */
  method WriteEntries(entries: Entries, normalized: Entries) returns (members: Members)
    requires Archivable(entries) && normalized == Normalized(entries)
    ensures members == Written(normalized)
  {
    hide ValidateEntryName, SortedKeys, UpToNul, Normalized;
    var archive := new ZipFile();
    var names := SortedKeys(normalized.Keys);
    for i := 0 to |names|
      invariant archive.members == Written(normalized)[..i]
    {
      assert names[i] in names;
      NormalizedNames(entries, names[i]);
      var ok := archive.WriteEntry(names[i], normalized[names[i]]);
    }
    return archive.members;
  }

  ghost predicate Within(some: Entries, all: Entries) {
    forall k | k in some :: k in all && all[k] == some[k]
  }

  lemma NothingNormalized()
    ensures Archivable(map[]) && Normalized(map[]) == map[]
  {
  }

  /** One more name: it joins the dictionary, or no dictionary with it can be archived. */
  lemma OneMoreEntry(seen: Entries, name: string, data: Bytes, all: Entries)
    requires Archivable(seen) && name !in seen && Within(seen[name := data], all)
    ensures var safeName := ValidateEntryName(name);
            if safeName == None || safeName.value in Normalized(seen) then !Archivable(all)
            else Archivable(seen[name := data])
                 && Normalized(seen[name := data]) == Normalized(seen)[safeName.value := data]
  {
    hide ValidateEntryName, Normalized;
    var more := seen[name := data];
    assert name in more;
    if ValidateEntryName(name).Some? {
      if Normalize(name) in Normalized(seen) {
        var j := NormalizedFrom(seen, Normalize(name));
        assert j in more;
      } else {
        FreshName(seen, name, data);
      }
    }
  }

  /** Where a normalised name comes from. */
  lemma NormalizedFrom(entries: Entries, n: string) returns (k: string)
    requires Archivable(entries) && n in Normalized(entries)
    ensures k in entries && Normalize(k) == n && Normalized(entries)[n] == entries[k]
  {
    hide ValidateEntryName;
    k :| k in entries && Normalize(k) == n;
  }

  lemma NormalizedAt(entries: Entries, k: string)
    requires Archivable(entries) && k in entries
    ensures Normalize(k) in Normalized(entries) && Normalized(entries)[Normalize(k)] == entries[k]
  {
    hide ValidateEntryName;
  }

  lemma FreshName(seen: Entries, name: string, data: Bytes)
    requires Archivable(seen) && name !in seen && ValidateEntryName(name).Some?
    requires Normalize(name) !in Normalized(seen)
    ensures Archivable(seen[name := data])
    ensures Normalized(seen[name := data]) == Normalized(seen)[Normalize(name) := data]
  {
    hide ValidateEntryName, Normalized;
    var more := seen[name := data];
    forall j | j in seen ensures Normalize(j) != Normalize(name) { NormalizedAt(seen, j); }
    assert Archivable(more);
    NormalizedAt(more, name);
    forall n | n in Normalized(more) && n != Normalize(name)
      ensures n in Normalized(seen) && Normalized(more)[n] == Normalized(seen)[n]
    {
      var k := NormalizedFrom(more, n);
      NormalizedAt(seen, k);
    }
    forall n | n in Normalized(seen) ensures n in Normalized(more) {
      var k := NormalizedFrom(seen, n);
      NormalizedAt(more, k);
    }
  }

  /** Normalised names are normal. */
  lemma NormalizedNames(entries: Entries, name: string)
    requires Archivable(entries) && name in Normalized(entries)
    ensures Normal(name)
  {
    var k := NormalizedFrom(entries, name);
    NormalizationIsIdempotent(k);
  }

  lemma WithoutOne(entries: Entries, k: string)
    requires Archivable(entries) && k in entries
    ensures Archivable(entries - {k}) && ValidateEntryName(k).Some?
    ensures Normalize(k) !in Normalized(entries - {k})
  {
    hide ValidateEntryName, Normalized;
    var rest := entries - {k};
    assert forall j | j in rest :: j in entries && j != k;
    if Normalize(k) in Normalized(rest) {
      var j := NormalizedFrom(rest, Normalize(k));
      assert false;
    }
  }

  /** Normalising loses no entry. */
  lemma {:induction false} NormalizedSize(entries: Entries)
    requires Archivable(entries)
    ensures |Normalized(entries)| == |entries|
  {
    hide ValidateEntryName, Normalized, Archivable;
    if entries != map[] {
      var k :| k in entries;
      var rest := entries - {k};
      WithoutOne(entries, k);
      NormalizedSize(rest);
      FreshName(rest, k, entries[k]);
      assert rest[k := entries[k]] == entries;
      assert Normalized(entries).Keys == Normalized(rest).Keys + {Normalize(k)};
      assert entries.Keys == rest.Keys + {k};
    } else {
      NothingNormalized();
    }
  }

  /** A dictionary of normal names is its own normalisation. */
  lemma NormalNamesStay(entries: Entries)
    requires forall k | k in entries :: Normal(k)
    ensures Archivable(entries) && Normalized(entries) == entries
  {
  }

  // ---------------------------------------------------------------- reading

  predicate IsDirectory(member: Member) {
    member.name != "" && member.name[|member.name| - 1] == '/'
  }

  function Files(archive: Members): Members {
    if archive == [] then []
    else
      var last := archive[|archive| - 1];
      Files(archive[..|archive| - 1]) + if IsDirectory(last) then [] else [last]
  }

  function NamesOf(archive: Members): seq<string> {
    seq(|archive|, i requires 0 <= i < |archive| => archive[i].name)
  }

  /** The dictionary of members, where a later one of the same name wins. */
  function Contents(archive: Members): Entries {
    if archive == [] then map[]
    else
      var last := archive[|archive| - 1];
      Contents(archive[..|archive| - 1])[last.name := last.data]
  }

  predicate Sorted(names: seq<string>) {
    forall i, j | 0 <= i < j < |names| :: !Less(names[j], names[i])
  }

  predicate Distinct(names: seq<string>) {
    forall i, j | 0 <= i < j < |names| :: names[i] != names[j]
  }

  predicate FixedMetadata(archive: Members) {
    forall i | 0 <= i < |archive| :: archive[i].time == FIXED_ZIP_TIME && archive[i].mode == REGULAR_FILE
  }

  /** read_normalized_archive */
  function ReadNormalized(archive: Members): Option<Entries> {
    var files := Files(archive);
    if Sorted(NamesOf(files)) && Distinct(NamesOf(files)) && FixedMetadata(files)
    then Some(Contents(files)) else None
  }

  /** read_archive: only duplicates are refused. */
  function ReadArchive(archive: Members): Option<Entries> {
    var files := Files(archive);
    if |Contents(files)| == |files| then Some(Contents(files)) else None
  }

  predicate NulFree(name: string) {
    '\0' !in name
  }

  lemma {:induction false} UpToNulFacts(name: string)
    ensures NulFree(UpToNul(name)) && (NulFree(name) ==> UpToNul(name) == name)
  {
    if name != "" && name[0] != '\0' {
      UpToNulFacts(name[1..]);
      assert name == [name[0]] + name[1..];
    }
  }

  lemma {:induction false} NoDirectories(archive: Members)
    requires forall i | 0 <= i < |archive| :: !IsDirectory(archive[i])
    ensures Files(archive) == archive
  {
    if archive != [] {
      NoDirectories(archive[..|archive| - 1]);
      assert archive == archive[..|archive| - 1] + [archive[|archive| - 1]];
    }
  }

  lemma OneMoreName(before: Members, last: Member)
    ensures NamesOf(before + [last]) == NamesOf(before) + [last.name]
    ensures Distinct(NamesOf(before + [last])) ==> Distinct(NamesOf(before)) && last.name !in NamesOf(before)
  {
    var names := NamesOf(before + [last]);
    assert names == NamesOf(before) + [last.name];
    if Distinct(names) {
      assert forall i | 0 <= i < |before| :: NamesOf(before)[i] == names[i] && names[i] != names[|before|];
    }
  }

  lemma {:induction false} ContentsKeys(archive: Members)
    ensures forall n :: n in Contents(archive) <==> n in NamesOf(archive)
  {
    if archive != [] {
      var before, last := archive[..|archive| - 1], archive[|archive| - 1];
      ContentsKeys(before);
      OneMoreName(before, last);
      assert archive == before + [last];
    }
  }

  lemma {:induction false} ContentsAt(archive: Members, i: nat)
    requires Distinct(NamesOf(archive)) && i < |archive|
    ensures archive[i].name in Contents(archive) && Contents(archive)[archive[i].name] == archive[i].data
  {
    var before, last := archive[..|archive| - 1], archive[|archive| - 1];
    OneMoreName(before, last);
    assert archive == before + [last];
    if i < |before| {
      ContentsAt(before, i);
      assert NamesOf(before)[i] == archive[i].name;
    }
  }

  lemma {:induction false} ContentsSize(archive: Members)
    requires Distinct(NamesOf(archive))
    ensures |Contents(archive)| == |archive|
  {
    if archive != [] {
      var before, last := archive[..|archive| - 1], archive[|archive| - 1];
      OneMoreName(before, last);
      assert archive == before + [last];
      ContentsSize(before);
      ContentsKeys(before);
      assert Contents(archive).Keys == Contents(before).Keys + {last.name};
    }
  }

  /** The name is written as it is and not taken for a directory. */
  lemma WrittenAsNamed(name: string, data: Bytes)
    requires Normal(name) && NulFree(name)
    ensures Regular(name, data) == Member(name, FIXED_ZIP_TIME, REGULAR_FILE, data)
    ensures !IsDirectory(Regular(name, data))
  {
    UpToNulFacts(name);
    NormalIsNoDirectory(name);
  }

  ghost predicate Storable(normalized: Entries) {
    forall n | n in normalized :: Normal(n) && NulFree(n)
  }

  lemma WrittenAt(normalized: Entries, i: nat)
    requires Storable(normalized) && i < |SortedKeys(normalized.Keys)|
    ensures var name := SortedKeys(normalized.Keys)[i];
            && name in normalized && !IsDirectory(Written(normalized)[i])
            && Written(normalized)[i] == Member(name, FIXED_ZIP_TIME, REGULAR_FILE, normalized[name])
  {
    var name := SortedKeys(normalized.Keys)[i];
    assert name in SortedKeys(normalized.Keys);
    WrittenAsNamed(name, normalized[name]);
  }

  /** Sorted and distinct is strictly ascending by code points. */
  lemma SortedAreAscending(names: seq<string>)
    ensures Sorted(names) && Distinct(names) <==> Ascending(names)
  {
    hide Less;
    AscendingByLess(names);
    forall i, j | 0 <= i < j < |names|
      ensures Less(names[i], names[j]) <==> names[i] != names[j] && !Less(names[j], names[i])
    {
      LessIsTotal(names[i], names[j]);
    }
  }

  /** Ascending names are sorted and distinct. */
  lemma AscendingNames(names: seq<string>)
    requires forall i, j | 0 <= i < j < |names| :: Less(names[i], names[j])
    ensures Sorted(names) && Distinct(names)
  {
    forall i, j | 0 <= i < j < |names| ensures names[i] != names[j] && !Less(names[j], names[i]) {
      LessIsTotal(names[i], names[j]);
    }
  }

  /** Everything a written archive promises, when no name holds a NUL. */
  lemma WrittenFacts(normalized: Entries)
    requires Storable(normalized)
    ensures var archive := Written(normalized);
            && Files(archive) == archive && NamesOf(archive) == SortedKeys(normalized.Keys)
            && Sorted(NamesOf(archive)) && Distinct(NamesOf(archive)) && FixedMetadata(archive)
            && NamesAscend(archive) && PlainMetadata(archive)
  {
    hide ValidateEntryName, SortedKeys;
    var archive, names := Written(normalized), SortedKeys(normalized.Keys);
    forall i | 0 <= i < |archive|
      ensures archive[i].name == names[i] && !IsDirectory(archive[i])
      ensures archive[i].time == FIXED_ZIP_TIME && archive[i].mode == REGULAR_FILE
    {
      WrittenAt(normalized, i);
    }
    NoDirectories(archive);
    assert NamesOf(archive) == names;
    AscendingNames(names);
    SortedAreAscending(names);
    AscendingMembers(archive);
  }

  lemma WrittenContents(normalized: Entries)
    requires Storable(normalized)
    ensures Contents(Written(normalized)) == normalized
    ensures |normalized| == |Written(normalized)|
  {
    hide *;
    var archive, names := Written(normalized), SortedKeys(normalized.Keys);
    WrittenFacts(normalized);
    ContentsKeys(archive);
    ContentsSize(archive);
    assert Contents(archive).Keys == normalized.Keys;
    forall n | n in normalized ensures Contents(archive)[n] == normalized[n] {
      assert n in names;
      var i :| 0 <= i < |names| && names[i] == n;
      WrittenAt(normalized, i);
      ContentsAt(archive, i);
    }
  }

  /** Read-back. What archive_bytes accepted reads back as exactly the normalised dictionary, through
      either reader, if and only if no normalised name holds a NUL. */
  lemma ReadsBackExactly(entries: Entries)
    requires Archivable(entries)
    ensures var normalized, archive := Normalized(entries), Archived(entries).value;
            && (ReadNormalized(archive) == Some(normalized) <==> forall n | n in normalized :: NulFree(n))
            && (ReadArchive(archive) == Some(normalized) <==> forall n | n in normalized :: NulFree(n))
  {
    hide ValidateEntryName, SortedKeys, Contents, Files, Written, Sorted, Distinct, FixedMetadata, NamesOf, Less;
    var normalized, archive := Normalized(entries), Archived(entries).value;
    forall n | n in normalized ensures Normal(n) { NormalizedNames(entries, n); }
    if forall n | n in normalized :: NulFree(n) {
      WrittenFacts(normalized);
      WrittenContents(normalized);
    } else {
      var n :| n in normalized && !NulFree(n);
      WrittenNamesAreNulFree(normalized);
      ReadNamesAreNulFree(archive);
      assert n !in Contents(Files(archive));
    }
  }

  lemma ReadNamesAreNulFree(archive: Members)
    requires forall i | 0 <= i < |archive| :: NulFree(archive[i].name)
    ensures forall n | n in Contents(Files(archive)) :: NulFree(n)
  {
    FilesAreMembers(archive);
    ContentsKeys(Files(archive));
    forall n | n in NamesOf(Files(archive)) ensures NulFree(n) {
      var i :| 0 <= i < |Files(archive)| && NamesOf(Files(archive))[i] == n;
      assert Files(archive)[i] in archive;
    }
  }

  lemma WrittenNamesAreNulFree(normalized: Entries)
    ensures forall i | 0 <= i < |Written(normalized)| :: NulFree(Written(normalized)[i].name)
  {
    forall i | 0 <= i < |Written(normalized)| ensures NulFree(Written(normalized)[i].name) {
      UpToNulFacts(SortedKeys(normalized.Keys)[i]);
    }
  }

  lemma {:induction false} FilesAreMembers(archive: Members)
    ensures forall m | m in Files(archive) :: m in archive
  {
    if archive != [] { FilesAreMembers(archive[..|archive| - 1]); }
  }

  /** The other way round: an archive of normal NUL-free names that the normalised reader accepts is
      the very archive the writer makes of its contents. */
  lemma NormalizedArchivesAreCanonical(archive: Members, contents: Entries)
    requires ReadNormalized(archive) == Some(contents)
    requires forall i | 0 <= i < |archive| :: Normal(archive[i].name) && NulFree(archive[i].name)
    ensures Archived(contents) == Some(archive)
  {
    hide ValidateEntryName, SortedKeys, Contents, Written, Normalized;
    forall i | 0 <= i < |archive| ensures !IsDirectory(archive[i]) { NormalIsNoDirectory(archive[i].name); }
    NoDirectories(archive);
    ContentsKeys(archive);
    var names := NamesOf(archive);
    forall i, j | 0 <= i < j < |names| ensures Less(names[i], names[j]) { LessIsTotal(names[i], names[j]); }
    SortedIsUnique(names, contents.Keys);
    NormalNamesStay(contents);
    forall i | 0 <= i < |archive| ensures Written(contents)[i] == archive[i] {
      ContentsAt(archive, i);
      WrittenAt(contents, i);
    }
    assert Written(contents) == archive;
  }

  lemma OneMoreFile(members: Members, member: Member)
    requires !IsDirectory(member)
    ensures |Files(members + [member])| == |Files(members)| + 1
    ensures Contents(Files(members + [member])) == Contents(Files(members))[member.name := member.data]
    ensures member.name !in Contents(Files(members)) ==>
              |Contents(Files(members + [member]))| == |Contents(Files(members))| + 1
  {
    var all := members + [member];
    assert all[..|all| - 1] == members;
    assert Files(all)[..|Files(all)| - 1] == Files(members);
    assert Contents(Files(all)).Keys == Contents(Files(members)).Keys + {member.name};
  }

  // ---------------------------------------------------------------- what is written and what is read

  /** What is written when no name holds a NUL: one file for each entry, under its normalised name, in the
      order of code points, with the fixed time and mode. */
  lemma WrittenInOrder(entries: Entries)
    requires Archivable(entries)
    ensures (forall k | k in entries :: NulFree(k)) ==>
              NamesAscend(Archived(entries).value) && PlainMetadata(Archived(entries).value)
              && HoldsFiles(Normalized(entries), Archived(entries).value)
  {
    hide ValidateEntryName, Written, Normalized, NamesAscend, PlainMetadata, HoldsFiles, Contents, Files;
    var normalized := Normalized(entries);
    if forall k | k in entries :: NulFree(k) {
      forall n | n in normalized ensures Normal(n) && NulFree(n) {
        var k := NormalizedFrom(entries, n);
        NormalizingKeepsNulFree(k);
        NormalizedNames(entries, n);
      }
      WrittenFacts(normalized);
      WrittenContents(normalized);
      DistinctFilesAreHeld(Written(normalized));
    }
  }

  lemma NormalizingKeepsNulFree(name: string)
    requires ValidateEntryName(name).Some? && NulFree(name)
    ensures NulFree(Normalize(name))
  {
    hide ValidateEntryName, Safe;
    AcceptsExactlySafeNames(name);
    NoNewCharacters(name, '\0');
    SignificantFacts(Split(name));
    JoinedCharacters(Components(name), '\0');
  }

  /** The members that are files: all but those whose name ends with a slash, in their order. */
  lemma {:induction false} FilesAreKept(before: Members, member: Member, after: Members)
    ensures Files(before + [member] + after)
         == Files(before) + (if exists d :: member.name == d + "/" then [] else [member]) + Files(after)
    decreases after
  {
    hide Files, IsDirectory;
    EndsWithSlash(member.name);
    IsDirectoryMeans(member);
    FilesStep(before, member);
    if after == [] {
      NoFiles();
      assert before + [member] + after == before + [member];
    } else {
      var rest, last := after[..|after| - 1], after[|after| - 1];
      FilesAreKept(before, member, rest);
      FilesStep(before + [member] + rest, last);
      FilesStep(rest, last);
      assert after == rest + [last] && before + [member] + after == before + [member] + rest + [last];
    }
  }

  lemma NoFiles()
    ensures Files([]) == []
  {
  }

  lemma FilesStep(before: Members, last: Member)
    ensures Files(before + [last]) == Files(before) + if IsDirectory(last) then [] else [last]
  {
    assert (before + [last])[..|before|] == before;
  }

  lemma IsDirectoryMeans(member: Member)
    ensures IsDirectory(member) <==> member.name != "" && member.name[|member.name| - 1] == '/'
  {
  }

  lemma EndsWithSlash(name: string)
    ensures (name != "" && name[|name| - 1] == '/') <==> exists d :: name == d + "/"
  {
    if name != "" && name[|name| - 1] == '/' { assert name == name[..|name| - 1] + "/"; }
  }

  /** Every file of the archive is in the dictionary under its name, and nothing else. */
  ghost predicate HoldsFiles(contents: Entries, files: Members) {
    && (forall n :: n in contents <==> exists i :: 0 <= i < |files| && files[i].name == n)
    && forall i | 0 <= i < |files| :: files[i].name in contents && contents[files[i].name] == files[i].data
  }

  lemma DistinctFilesAreHeld(files: Members)
    requires Distinct(NamesOf(files))
    ensures HoldsFiles(Contents(files), files)
  {
    ContentsKeys(files);
    forall i | 0 <= i < |files|
      ensures files[i].name in Contents(files) && Contents(files)[files[i].name] == files[i].data
    {
      ContentsAt(files, i);
    }
    forall n ensures n in Contents(files) <==> exists i :: 0 <= i < |files| && files[i].name == n {
      if n in Contents(files) {
        var i :| 0 <= i < |NamesOf(files)| && NamesOf(files)[i] == n;
        assert files[i].name == n;
      }
      if i :| 0 <= i < |files| && files[i].name == n { assert NamesOf(files)[i] == n; }
    }
  }

  /** The files' names ascend strictly by code point. */
  ghost predicate NamesAscend(files: Members) {
    forall i, j | 0 <= i < j < |files| :: Precedes(files[i].name, files[j].name)
  }

  /** Each has the time 1980-01-01 00:00:00 and the mode 0o100644. */
  predicate PlainMetadata(files: Members) {
    forall i | 0 <= i < |files| :: files[i].time == Time(1980, 1, 1, 0, 0, 0) && files[i].mode == 0x81A4
  }

  /** The normalised reader takes an archive if and only if its files' names ascend strictly by code point
      and each has the time 1980-01-01 00:00:00 and the mode 0o100644; it then holds just these files. */
  lemma NormalizedReaderTakes(archive: Members)
    ensures var files := Files(archive);
            && (ReadNormalized(archive).Some? <==> NamesAscend(files) && PlainMetadata(files))
            && (ReadNormalized(archive).Some? ==> HoldsFiles(ReadNormalized(archive).value, files))
  {
    hide Precedes, Less, HoldsFiles, Files, Contents, Sorted, Distinct, NamesOf, NamesAscend, Ascending;
    var files := Files(archive);
    SortedAreAscending(NamesOf(files));
    AscendingMembers(files);
    if Distinct(NamesOf(files)) { DistinctFilesAreHeld(files); }
  }

  lemma AscendingMembers(files: Members)
    ensures Ascending(NamesOf(files)) <==> NamesAscend(files)
  {
    hide Precedes;
    forall i, j | 0 <= i < j < |files|
      ensures Precedes(NamesOf(files)[i], NamesOf(files)[j]) <==> Precedes(files[i].name, files[j].name)
    {
    }
  }

  /** No two files have one name. */
  ghost predicate NamesDiffer(files: Members) {
    forall i, j | 0 <= i < j < |files| :: files[i].name != files[j].name
  }

  lemma DistinctFileNames(files: Members)
    ensures Distinct(NamesOf(files)) <==> NamesDiffer(files)
  {
    forall i, j | 0 <= i < j < |files|
      ensures NamesOf(files)[i] != NamesOf(files)[j] <==> files[i].name != files[j].name
    {
    }
  }

  /** The other reader refuses only two files of one name. */
  lemma ReaderTakes(archive: Members)
    ensures var files := Files(archive);
            && (ReadArchive(archive).Some? <==> NamesDiffer(files))
            && (ReadArchive(archive).Some? ==> HoldsFiles(ReadArchive(archive).value, files))
  {
    hide HoldsFiles, Files, Contents, Distinct, NamesOf, NamesDiffer;
    var files := Files(archive);
    DistinctFileNames(files);
    if Distinct(NamesOf(files)) {
      DistinctFilesAreHeld(files);
      ContentsSize(files);
    } else {
      RepeatsAreLost(files);
    }
  }

  /** With a repeated name the dictionary is smaller than the archive. */
  lemma {:induction false} RepeatsAreLost(archive: Members)
    ensures |Contents(archive)| <= |archive|
    ensures !Distinct(NamesOf(archive)) ==> |Contents(archive)| < |archive|
  {
    if archive != [] {
      var before, last := archive[..|archive| - 1], archive[|archive| - 1];
      RepeatsAreLost(before);
      ContentsKeys(before);
      OneMoreName(before, last);
      assert archive == before + [last];
      assert Contents(archive).Keys == Contents(before).Keys + {last.name};
      if last.name in Contents(before) { assert Contents(archive).Keys == Contents(before).Keys; }
      if last.name !in NamesOf(before) && Distinct(NamesOf(before)) { assert Distinct(NamesOf(archive)); }
    }
  }
}
