/** The verifier of the bounded-GPU AAR, and its agreement with the packager. */
module AarVerifier {
  import opened Names
  import opened Archive
  import opened ReleaseFormats
  import opened AarPackager
  import Splice
  import opened Wrappers

  const LITERT_CLASSES := {
    "com/google/ai/edge/litert/CompiledModel.class",
    "com/google/ai/edge/litert/Environment.class",
    "org/tensorflow/lite/Interpreter.class"}

  const DIAGNOSTIC_SHIM := "libOCLQ.so"
  const ARMV7_ACCELERATOR := "jni/" + "armeabi-v7a" + "/" + "libLiteRtClGlAccelerator.so"
  const X86_64_ACCELERATOR := "jni/" + "x86_64" + "/" + "libLiteRtClGlAccelerator.so"
  const X86_ACCELERATOR := "jni/" + "x86" + "/" + "libLiteRtClGlAccelerator.so"

  /** archive_entries followed by verify_normalized. */
  function ReadStrict(codec: Codec, data: Bytes): Option<Entries> {
    match codec.unzip(data)
    case None => None
    case Some(members) =>
      var files := Files(members);
      if ReadArchive(members).Some? && Sorted(NamesOf(files)) && FixedMetadata(files) then ReadArchive(members) else None
  }

  predicate Contains(data: Bytes, marker: Bytes) {
    Splice.Find(data, marker, 0).Some?
  }

  predicate EndsWith(s: string, suffix: string) {
    |suffix| <= |s| && s[|s| - |suffix|..] == suffix
  }

  predicate Redirected(accelerator: Bytes) {
    Splice.Count(accelerator, Ascii("libBssOcl.so"), 0) == 1 && !Contains(accelerator, Ascii("libOpenCL.so"))
  }

  predicate ShimMarked(shim: Bytes, contract: RuntimeContract) {
    && Contains(shim, Ascii(contract.artifactVersion)) && Contains(shim, Ascii(contract.profileId))
    && Contains(shim, Ascii("nativeGetCapabilitySchemaVersion"))
    && Contains(shim, Ascii("nativeGetEventWaitCount"))
  }

  predicate JniMarked(jni: Bytes) {
    Contains(jni, Ascii("Failed to set Booming SS bounded GPU kernelBatchSize."))
  }

  predicate ClassesComplete(codec: Codec, jar: Bytes) {
    var classes := ReadStrict(codec, jar);
    && classes.Some?
    && {CAPABILITY_CLASS, CAPABILITY_INNER_CLASS} + LITERT_CLASSES <= classes.value.Keys
  }

  /** The checks on the entries. */
  predicate AcceptableEntries(codec: Codec, entries: Entries, contract: RuntimeContract, contractBytes: Bytes) {
    && CONTRACT_ENTRY in entries && entries[CONTRACT_ENTRY] == contractBytes
    && NativeNames(entries) == ExpectedNative(contract)
    && ARMV7_ACCELERATOR !in entries && X86_64_ACCELERATOR !in entries && X86_ACCELERATOR !in entries
    && (forall n | n in entries :: !EndsWith(n, DIAGNOSTIC_SHIM))
    && CLASSES in entries && ClassesComplete(codec, entries[CLASSES])
    && ARM64_ACCELERATOR in entries && Redirected(entries[ARM64_ACCELERATOR])
    && ARM64_SHIM in entries && ShimMarked(entries[ARM64_SHIM], contract)
    && ARM64_JNI in entries && JniMarked(entries[ARM64_JNI])
  }

  function GetIn(value: Json, outer: string, inner: string): Option<Json> {
    match Get(value, outer)
    case Some(v) => Get(v, inner)
    case None => None
  }

  /** The checks of the manifest against the contract, the AAR and its entries. */
  predicate AcceptableManifest(
    codec: Codec, manifest: Json, entries: Entries, aar: Bytes, contract: RuntimeContract, contractBytes: Bytes)
  {
    && Get(manifest, "coordinate") == Some(contract.coordinate)
    && Get(manifest, "contractSha256") == Some(Text(codec.sha(contractBytes)))
    && GetIn(manifest, "aar", "sha256") == Some(Text(codec.sha(aar)))
    && Get(manifest, "capability") == Some(contract.capability)
    && ARM64_JNI in entries
    && GetIn(manifest, "sourceBuild", "outputSha256") == Some(Text(codec.sha(entries[ARM64_JNI])))
    && var components := Get(manifest, "nativeComponents");
       && components.Some?
       && forall n | n in ExpectedNative(contract) ::
            n in entries && GetIn(components.value, n, "sha256") == Some(Text(codec.sha(entries[n])))
  }

  /** main, without the page-alignment check that needs readelf. */
  predicate Verified(codec: Codec, aar: Bytes, manifest: Json, contractBytes: Bytes) {
    var contract, entries := codec.runtime(contractBytes), ReadStrict(codec, aar);
    && contract.Some? && entries.Some?
    && AcceptableEntries(codec, entries.value, contract.value, contractBytes)
    && AcceptableManifest(codec, manifest, entries.value, aar, contract.value, contractBytes)
  }

  // ---------------------------------------------------------------- what the agreement needs

  /** The native matrix has the rebuilt arm64 libraries, and accelerators for no other ABI. */
  predicate BoundedMatrix(contract: RuntimeContract) {
    var expected := ExpectedNative(contract);
    && ARM64_JNI in expected && ARM64_ACCELERATOR in expected && ARM64_SHIM in expected
    && ARMV7_ACCELERATOR !in expected && X86_64_ACCELERATOR !in expected && X86_ACCELERATOR !in expected
  }

  /** The sizes of the two names after "jni/". */
  lemma ExpectedLengths(contract: RuntimeContract, n: string)
    requires n in ExpectedNative(contract)
    ensures exists abi, i | abi in contract.nativeMatrix && 0 <= i < |contract.nativeMatrix[abi]| ::
              |n| == 5 + |abi| + |contract.nativeMatrix[abi][i]|
  {
    var abi, i :| abi in contract.nativeMatrix && 0 <= i < |contract.nativeMatrix[abi]|
                  && n == "jni/" + abi + "/" + contract.nativeMatrix[abi][i];
  }

  /** The matrix of the released contract is one. */
  lemma FrozenMatrixIsBounded(contract: RuntimeContract)
    requires contract.nativeMatrix == map[
      "arm64-v8a" := ["libLiteRt.so", "liblitert_jni.so", "libLiteRtClGlAccelerator.so", "libBssOcl.so"],
      "armeabi-v7a" := ["libLiteRt.so", "liblitert_jni.so"],
      "x86_64" := ["libLiteRt.so", "liblitert_jni.so"],
      "x86" := ["libLiteRt.so", "liblitert_jni.so"]]
    ensures BoundedMatrix(contract)
  {
    var matrix := contract.nativeMatrix;
    assert "arm64-v8a" in matrix && |matrix["arm64-v8a"]| == 4;
    assert "jni/" + "arm64-v8a" + "/" == ARM64 + "/";
    assert "jni/" + "arm64-v8a" + "/" + matrix["arm64-v8a"][1] == ARM64_JNI;
    assert "jni/" + "arm64-v8a" + "/" + matrix["arm64-v8a"][2] == ARM64_ACCELERATOR;
    assert "jni/" + "arm64-v8a" + "/" + matrix["arm64-v8a"][3] == ARM64_SHIM;
    forall n | n in ExpectedNative(contract) ensures |n| != 43 && |n| != 38 && |n| != 35 {
      ExpectedLengths(contract, n);
    }
    assert |ARMV7_ACCELERATOR| == 43 && |X86_64_ACCELERATOR| == 38 && |X86_ACCELERATOR| == 35;
  }

  predicate NormalNames(entries: Entries) {
    forall n | n in entries :: Normal(n)
  }

  /** Writing, which normalises names, neither renames a native library nor makes one of another entry. */
  predicate KeepsItsPlace(name: string) {
    var safe := ValidateEntryName(name);
    safe.Some? ==> if Native(name) then safe.value == name else !Native(safe.value)
  }

  /** Written, it is not the diagnostic shim. */
  predicate NotDiagnostic(name: string) {
    var safe := ValidateEntryName(name);
    safe.Some? ==> !EndsWith(safe.value, DIAGNOSTIC_SHIM)
  }

  /** The names as they are written. */
  function NormalForms(names: set<string>): set<string> {
    set n | n in names && ValidateEntryName(n).Some? :: Normalize(n)
  }

  /** The inputs carry the markers and classes the verifier looks for, and no entry that is kept turns, once
      written, into a native library, another native library or the diagnostic shim. */
  predicate CarriesMarkers(codec: Codec, inputs: Inputs, contract: RuntimeContract) {
    var implementation, api := Load(codec, inputs.implementation), Load(codec, inputs.api);
    && Redirected(inputs.arm64Accelerator) && ShimMarked(inputs.arm64Shim, contract) && JniMarked(inputs.arm64Jni)
    && implementation.Some? && api.Some?
    && (forall n | n in implementation.value.Keys + api.value.Keys && n !in contract.removedOfficialComponents ::
          KeepsItsPlace(n) && NotDiagnostic(n))
    && var ours, theirs := ClassesOf(codec, implementation.value), ApiClasses(codec, api.value);
       ours.Some? && theirs.Some? && LITERT_CLASSES <= NormalForms(ours.value.Keys + theirs.value.Keys)
  }

  /** The loader patch makes exactly the accelerators this verifier accepts. */
  lemma PatchedAcceleratorsAreRedirected(data: Bytes)
    requires Splice.PatchBoundedLoader(data).Some?
    ensures Redirected(Splice.PatchBoundedLoader(data).value.image)
  {
    var image := Splice.PatchBoundedLoader(data).value.image;
    Splice.LibraryNames();
    Splice.BoundedPatchIsExact(data);
    Splice.BoundedNamesAreApart();
    Splice.CountIsExact(image, Splice.REPLACEMENT_LIBRARY, 0);
    Splice.FoundIfAny(image, Splice.ORIGINAL_LIBRARY, 0);
  }

  // ---------------------------------------------------------------- reading back

  lemma WrittenReadsStrictly(codec: Codec, entries: Entries)
    requires Sound(codec) && WriteArchive(codec, entries).Some? && forall k | k in entries :: NulFree(k)
    ensures Archivable(entries)
    ensures ReadStrict(codec, WriteArchive(codec, entries).value) == Some(Normalized(entries))
  {
    hide ValidateEntryName, WriteArchive, Contents, Sorted, FixedMetadata, Distinct, NamesOf, Files;
    WrittenLoads(codec, entries);
  }

  // ---------------------------------------------------------------- the fixed names

  predicate Plain(name: string) {
    Normal(name) && NulFree(name) && !EndsWith(name, DIAGNOSTIC_SHIM)
  }

  /** A file name that stays plain below any directory. */
  predicate PlainFile(name: string) {
    && name != "" && name != "." && name != ".." && '/' !in name && '\\' !in name && NulFree(name)
    && |name| >= |DIAGNOSTIC_SHIM| && !EndsWith(name, DIAGNOSTIC_SHIM)
  }

  lemma PlainBelow(directory: string, name: string)
    requires Normal(directory) && NulFree(directory) && PlainFile(name)
    ensures Plain(directory + "/" + name)
  {
    hide ValidateEntryName;
    SimpleNameIsNormal(name);
    NormalBelow(directory, name);
    var path, n := directory + "/" + name, |DIAGNOSTIC_SHIM|;
    assert path[|path| - n..] == name[|name| - n..];
  }

  /** The diagnostic name has a Q four characters before its end. */
  lemma IsPlainFile(name: string)
    requires |name| >= 10 && '/' !in name && '\\' !in name && '\0' !in name && name[|name| - 4] != 'Q'
    ensures PlainFile(name)
  {
    assert |DIAGNOSTIC_SHIM| == 10 && DIAGNOSTIC_SHIM[6] == 'Q';
    assert name[|name| - 10..][6] == name[|name| - 4];
  }

  lemma PlainLibraries()
    ensures PlainFile("liblitert_jni.so") && PlainFile("libLiteRtClGlAccelerator.so")
    ensures PlainFile("libBssOcl.so") && PlainFile("libLiteRt.so")
  {
    hide PlainFile;
    IsPlainFile("liblitert_jni.so");
    IsPlainFile("libLiteRtClGlAccelerator.so");
    IsPlainFile("libBssOcl.so");
    IsPlainFile("libLiteRt.so");
  }

  lemma NativeDirectories()
    ensures Normal(ARM64) && Normal(X86) && NulFree(ARM64) && NulFree(X86)
  {
    hide Normal;
    SimpleNameIsNormal("jni");
    SimpleNameIsNormal("arm64-v8a");
    SimpleNameIsNormal("x86");
    NormalBelow("jni", "arm64-v8a");
    NormalBelow("jni", "x86");
  }

  lemma FixedNativeNames()
    ensures Plain(ARM64_JNI) && Plain(ARM64_ACCELERATOR) && Plain(ARM64_SHIM) && Plain(X86_RUNTIME) && Plain(X86_JNI)
  {
    hide Normal, NulFree, PlainFile, Plain;
    NativeDirectories();
    PlainLibraries();
    PlainBelow(ARM64, "liblitert_jni.so");
    PlainBelow(ARM64, "libLiteRtClGlAccelerator.so");
    PlainBelow(ARM64, "libBssOcl.so");
    PlainBelow(X86, "libLiteRt.so");
    PlainBelow(X86, "liblitert_jni.so");
  }

  lemma ContractDirectory(directory: string)
    requires directory == "META-INF" + "/" + "bss-litert"
    ensures Normal(directory) && NulFree(directory)
  {
    hide Normal;
    SimpleNameIsNormal("META-INF");
    SimpleNameIsNormal("bss-litert");
    NormalBelow("META-INF", "bss-litert");
  }

  lemma ContractFileIsPlain()
    ensures PlainFile("bounded-gpu-runtime-contract.json")
  {
    hide PlainFile;
    IsPlainFile("bounded-gpu-runtime-contract.json");
  }

  lemma ClassesArePlain()
    ensures Plain(CLASSES)
  {
    hide PlainFile, Plain;
    IsPlainFile(CLASSES);
    PlainFileIsPlain(CLASSES);
  }

  lemma ContractNameIsPlain()
    ensures Plain(CONTRACT_ENTRY)
  {
    hide Normal, PlainFile, NulFree, Plain;
    var directory := "META-INF" + "/" + "bss-litert";
    ContractDirectory(directory);
    ContractFileIsPlain();
    PlainBelow(directory, "bounded-gpu-runtime-contract.json");
  }

  lemma PlainFileIsPlain(name: string)
    requires PlainFile(name)
    ensures Plain(name)
  {
    SimpleNameIsNormal(name);
  }

  lemma PackageIsNormal()
    ensures Normal(CAPABILITY_PACKAGE) && NulFree(CAPABILITY_PACKAGE)
  {
    hide Normal;
    SimpleNameIsNormal("io");
    SimpleNameIsNormal("github");
    SimpleNameIsNormal("wluhwluh");
    SimpleNameIsNormal("bss");
    SimpleNameIsNormal("litert");
    var github := "io" + "/" + "github";
    NormalBelow("io", "github");
    NormalBelow(github, "wluhwluh");
    NormalBelow(github + "/" + "wluhwluh", "bss");
    NormalBelow(github + "/" + "wluhwluh" + "/" + "bss", "litert");
  }

  lemma CapabilityNames()
    ensures Normal(CAPABILITY_CLASS) && Normal(CAPABILITY_INNER_CLASS)
    ensures NulFree(CAPABILITY_CLASS) && NulFree(CAPABILITY_INNER_CLASS)
  {
    hide Normal;
    PackageIsNormal();
    SimpleNameIsNormal("BssLiteRtRuntime.class");
    SimpleNameIsNormal("BssLiteRtRuntime$Capability.class");
    NormalBelow(CAPABILITY_PACKAGE, "BssLiteRtRuntime.class");
    NormalBelow(CAPABILITY_PACKAGE, "BssLiteRtRuntime$Capability.class");
  }

  lemma FixedLengths()
    ensures |ARM64_JNI| == 30 && |ARM64_ACCELERATOR| == 41 && |ARM64_SHIM| == 26
    ensures |X86_RUNTIME| == 20 && |X86_JNI| == 24 && |CLASSES| == 11 && |CONTRACT_ENTRY| == 53
  {
  }

  // ---------------------------------------------------------------- the packager's steps

  /** The intermediate results of a successful packaging. */
  datatype Making = Making(
    implementation: Entries, api: Entries, ours: Entries, theirs: Entries, x86: Entries,
    merged: Entries, jar: Bytes, entries: Entries)

  ghost predicate Makes(codec: Codec, inputs: Inputs, contract: RuntimeContract, m: Making) {
    && Load(codec, inputs.implementation) == Some(m.implementation) && Load(codec, inputs.api) == Some(m.api)
    && ClassesOf(codec, m.implementation) == Some(m.ours) && ApiClasses(codec, m.api) == Some(m.theirs)
    && Merged(codec, m.implementation, m.api) == Some(m.merged)
    && JarWithCapability(codec, m.merged, inputs.capabilityClasses) == Some(m.jar)
    && X86_RUNTIME in m.x86 && X86_JNI in m.x86
    && m.entries == Assembled(m.merged, m.jar, inputs, m.x86, contract)
    && NativeNames(m.entries) == ExpectedNative(contract) && CLASSES in m.entries
  }

  lemma MadeFrom(codec: Codec, inputs: Inputs, contract: RuntimeContract) returns (m: Making)
    requires PackagedEntries(codec, inputs, contract).Some?
    ensures Makes(codec, inputs, contract, m) && PackagedEntries(codec, inputs, contract) == Some(m.entries)
  {
    hide Load, MergedJar, JarWithCapability, Assembled, ExpectedNative, Native, Compatible;
    var implementation, api := Load(codec, inputs.implementation).value, Load(codec, inputs.api).value;
    var x86 := Load(codec, inputs.x86Supplement).value;
    var merged := Merged(codec, implementation, api).value;
    MergedHasClasses(codec, implementation, api);
    var jar := JarWithCapability(codec, merged, inputs.capabilityClasses).value;
    NativePair(x86);
    m := Making(implementation, api, ClassesOf(codec, implementation).value, ApiClasses(codec, api).value, x86, merged, jar,
                Assembled(merged, jar, inputs, x86, contract));
  }

  lemma MergedHasClasses(codec: Codec, implementation: Entries, api: Entries)
    requires Merged(codec, implementation, api).Some?
    ensures ClassesOf(codec, implementation).Some? && ApiClasses(codec, api).Some?
  {
  }

  predicate FixedEntry(name: string) {
    name == CLASSES || name == ARM64_JNI || name == ARM64_ACCELERATOR || name == ARM64_SHIM
    || name == X86_RUNTIME || name == X86_JNI
  }

  lemma AssembledFacts(merged: Entries, jar: Bytes, inputs: Inputs, x86: Entries, contract: RuntimeContract)
    requires X86_RUNTIME in x86 && X86_JNI in x86
    ensures var entries := Assembled(merged, jar, inputs, x86, contract);
            && (forall n :: n in entries <==>
                  n == CONTRACT_ENTRY || ((n in merged || FixedEntry(n)) && n !in contract.removedOfficialComponents))
            && entries[CONTRACT_ENTRY] == inputs.contract
            && (CLASSES in entries ==> entries[CLASSES] == jar)
            && (ARM64_JNI in entries ==> entries[ARM64_JNI] == inputs.arm64Jni)
            && (ARM64_ACCELERATOR in entries ==> entries[ARM64_ACCELERATOR] == inputs.arm64Accelerator)
            && (ARM64_SHIM in entries ==> entries[ARM64_SHIM] == inputs.arm64Shim)
            && (X86_RUNTIME in entries ==> entries[X86_RUNTIME] == x86[X86_RUNTIME])
            && (X86_JNI in entries ==> entries[X86_JNI] == x86[X86_JNI])
            && (forall n | n in entries && n != CONTRACT_ENTRY && !FixedEntry(n) :: entries[n] == merged[n])
  {
    FixedLengths();
  }

  // ---------------------------------------------------------------- what writing does to the names

  /** The native libraries read back are those that were packaged exactly when every entry keeps its place. */
  lemma NativesStay(entries: Entries)
    requires Archivable(entries)
    ensures NativeNames(Normalized(entries)) == NativeNames(entries) <==> forall n | n in entries :: KeepsItsPlace(n)
  {
    hide ValidateEntryName, Normalized, Native;
    if forall n | n in entries :: KeepsItsPlace(n) {
      forall n ensures n in NativeNames(Normalized(entries)) <==> n in NativeNames(entries) {
        if n in Normalized(entries) { var k := NormalizedFrom(entries, n); }
        if n in entries { NormalizedAt(entries, n); }
      }
    } else {
      var n :| n in entries && !KeepsItsPlace(n);
      Misplaced(entries, n);
    }
  }

  lemma Misplaced(entries: Entries, n: string)
    requires Archivable(entries) && n in entries && !KeepsItsPlace(n)
    ensures NativeNames(Normalized(entries)) != NativeNames(entries)
  {
    hide ValidateEntryName, Normalized, Native;
    if Native(n) {
      assert n in NativeNames(entries);
      if n in Normalized(entries) {
        NormalizedNames(entries, n);
        assert false;
      }
    } else {
      NormalizedAt(entries, n);
      var m := Normalize(n);
      assert m in NativeNames(Normalized(entries));
      if m in entries {
        NormalizedNames(entries, m);
        assert false;
      }
    }
  }

  lemma NoDiagnosticWritten(entries: Entries)
    requires Archivable(entries)
    ensures (forall n | n in Normalized(entries) :: !EndsWith(n, DIAGNOSTIC_SHIM))
            <==> forall n | n in entries :: NotDiagnostic(n)
  {
    hide ValidateEntryName, Normalized, EndsWith;
    forall n | n in entries ensures Normalize(n) in Normalized(entries) { NormalizedAt(entries, n); }
    forall n | n in Normalized(entries) ensures exists k :: k in entries && Normalize(k) == n {
      var k := NormalizedFrom(entries, n);
    }
  }

  /** A normal name reads back with its own data. */
  lemma NormalAt(entries: Entries, n: string)
    requires Archivable(entries) && n in entries && Normal(n)
    ensures n in Normalized(entries) && Normalized(entries)[n] == entries[n]
  {
    hide ValidateEntryName, Normalized;
    NormalizedAt(entries, n);
  }

  lemma NormalizedKeys(entries: Entries)
    requires Archivable(entries)
    ensures Normalized(entries).Keys == NormalForms(entries.Keys)
  {
    hide ValidateEntryName, Normalized;
    forall n ensures n in Normalized(entries) <==> n in NormalForms(entries.Keys) {
      if n in Normalized(entries) { var k := NormalizedFrom(entries, n); }
      if n in NormalForms(entries.Keys) {
        var k :| k in entries && ValidateEntryName(k).Some? && Normalize(k) == n;
        NormalizedAt(entries, k);
      }
    }
  }

  // ---------------------------------------------------------------- agreement

  /** The names of the assembled entries: those kept from the official AARs, and fixed plain ones. */
  lemma EntryNames(codec: Codec, inputs: Inputs, contract: RuntimeContract, m: Making)
    requires Sound(codec) && Makes(codec, inputs, contract, m)
    ensures forall k | k in m.entries :: NulFree(k)
    ensures forall k | k in m.entries ::
              (k in m.implementation.Keys + m.api.Keys && k !in contract.removedOfficialComponents) || Plain(k)
    ensures forall k | k in m.implementation.Keys + m.api.Keys && k !in contract.removedOfficialComponents ::
              k in m.entries
  {
    hide Load, Merged, Normal, NulFree, Assembled, ExpectedNative, NativeNames, ClassesOf, ApiClasses, JarWithCapability,
         FixedEntry, EndsWith, Sound;
    AssembledFacts(m.merged, m.jar, inputs, m.x86, contract);
    FixedEntriesArePlain();
    LoadedNamesAreNulFree(codec, inputs.implementation);
    LoadedNamesAreNulFree(codec, inputs.api);
    MergedNames(codec, m.implementation, m.api);
  }

  lemma FixedEntriesArePlain()
    ensures Plain(CONTRACT_ENTRY) && FixedEntry(CLASSES) && forall n | FixedEntry(n) :: Plain(n)
  {
    hide Plain;
    FixedNativeNames();
    ContractNameIsPlain();
    ClassesArePlain();
  }

  lemma MergedNames(codec: Codec, implementation: Entries, api: Entries)
    requires Merged(codec, implementation, api).Some?
    ensures forall n :: n in Merged(codec, implementation, api).value <==> n in implementation || n in api || n == CLASSES
  {
    hide MergedJar, Compatible;
  }

  lemma PlainStays(name: string)
    requires Plain(name)
    ensures KeepsItsPlace(name) && NotDiagnostic(name)
  {
    hide ValidateEntryName, EndsWith;
  }

  /** So the kept entries of the official AARs decide. */
  lemma OfficialNamesDecide(codec: Codec, inputs: Inputs, contract: RuntimeContract, m: Making)
    requires Sound(codec) && Makes(codec, inputs, contract, m)
    ensures (forall n | n in m.entries :: KeepsItsPlace(n) && NotDiagnostic(n)) <==>
            forall n | n in m.implementation.Keys + m.api.Keys && n !in contract.removedOfficialComponents ::
              KeepsItsPlace(n) && NotDiagnostic(n)
  {
    hide Makes, Plain, KeepsItsPlace, NotDiagnostic, NulFree, Sound;
    EntryNames(codec, inputs, contract, m);
    forall n | Plain(n) ensures KeepsItsPlace(n) && NotDiagnostic(n) { PlainStays(n); }
  }

  lemma MergedClasses(codec: Codec, m: Making)
    requires Sound(codec) && Merged(codec, m.implementation, m.api) == Some(m.merged)
    requires ClassesOf(codec, m.implementation) == Some(m.ours) && ApiClasses(codec, m.api) == Some(m.theirs)
    ensures Archivable(m.ours + m.theirs) && ClassesOf(codec, m.merged) == Some(Normalized(m.ours + m.theirs))
  {
    hide ClassesOf, ApiClasses, Merged, Normalized, Archivable;
    MergedJarReads(codec, m.implementation, m.api, m.ours, m.theirs);
  }

  /** Loaded classes and the compiled ones have names that are stored as they are. */
  lemma ExtendedNames(codec: Codec, jar: Bytes, compiled: Entries, classes: Entries)
    requires Sound(codec) && Load(codec, jar) == Some(classes) && NormalNames(classes)
    requires compiled.Keys == {CAPABILITY_CLASS, CAPABILITY_INNER_CLASS}
    ensures NormalNames(classes + compiled) && forall k | k in classes + compiled :: NulFree(k)
  {
    hide Normal, NulFree, Load, Sound;
    CapabilityNames();
    LoadedNamesAreNulFree(codec, jar);
    forall k | k in classes + compiled ensures Normal(k) && NulFree(k) {
      if k !in classes { assert k in compiled.Keys; }
    }
  }

  lemma ExtendedJarReads(codec: Codec, merged: Entries, compiled: Entries, classes: Entries)
    requires Sound(codec) && ClassesOf(codec, merged) == Some(classes) && NormalNames(classes)
    requires JarWithCapability(codec, merged, compiled).Some?
    ensures ReadStrict(codec, JarWithCapability(codec, merged, compiled).value) == Some(classes + compiled)
  {
    hide Normal, NulFree, ReadStrict, WriteArchive, Load, Sound, Normalized, Archivable;
    ExtendedNames(codec, merged[CLASSES], compiled, classes);
    WrittenReadsStrictly(codec, classes + compiled);
    NormalNamesStay(classes + compiled);
  }

  /** What the verifier reads from the extended jar. */
  lemma JarReads(codec: Codec, inputs: Inputs, contract: RuntimeContract, m: Making)
    requires Sound(codec) && Makes(codec, inputs, contract, m)
    ensures Archivable(m.ours + m.theirs)
    ensures ReadStrict(codec, m.jar) == Some(Normalized(m.ours + m.theirs) + inputs.capabilityClasses)
  {
    hide Load, Normal, NulFree, ReadStrict, Assembled, Native, ExpectedNative, Merged, ClassesOf, ApiClasses,
         JarWithCapability, Normalized, Archivable;
    MergedClasses(codec, m);
    var classes := Normalized(m.ours + m.theirs);
    forall n | n in classes ensures Normal(n) { NormalizedNames(m.ours + m.theirs, n); }
    ExtendedJarReads(codec, m.merged, inputs.capabilityClasses, classes);
  }

  /** The extended jar is complete exactly when the official jars bring the LiteRT classes. */
  lemma CompleteJar(codec: Codec, jar: Bytes, classes: Entries, compiled: Entries)
    requires ReadStrict(codec, jar) == Some(classes + compiled)
    requires compiled.Keys == {CAPABILITY_CLASS, CAPABILITY_INNER_CLASS}
    ensures ClassesComplete(codec, jar) <==> LITERT_CLASSES <= classes.Keys
  {
    hide ReadStrict;
    assert (classes + compiled).Keys == classes.Keys + compiled.Keys;
    assert |CAPABILITY_CLASS| == 52 && |CAPABILITY_INNER_CLASS| == 63;
    assert forall c | c in LITERT_CLASSES :: |c| < 50;
    assert LITERT_CLASSES !! compiled.Keys;
    assert {CAPABILITY_CLASS, CAPABILITY_INNER_CLASS} == compiled.Keys;
  }

  lemma JarIsComplete(codec: Codec, inputs: Inputs, contract: RuntimeContract, m: Making)
    requires Sound(codec) && Makes(codec, inputs, contract, m)
    ensures ClassesComplete(codec, m.jar) <==> LITERT_CLASSES <= NormalForms(m.ours.Keys + m.theirs.Keys)
  {
    hide Load, Normal, Assembled, Native, ExpectedNative, ClassesOf, ApiClasses, Merged, ClassesComplete, ReadStrict,
         Normalized, Archivable, NormalForms, ValidateEntryName, JarWithCapability;
    JarReads(codec, inputs, contract, m);
    CompiledKeys(codec, m.merged, inputs.capabilityClasses);
    CompleteJar(codec, m.jar, Normalized(m.ours + m.theirs), inputs.capabilityClasses);
    NormalizedKeys(m.ours + m.theirs);
    assert (m.ours + m.theirs).Keys == m.ours.Keys + m.theirs.Keys;
  }

  lemma AcceleratorsAreNative()
    ensures Native(ARMV7_ACCELERATOR) && Native(X86_64_ACCELERATOR) && Native(X86_ACCELERATOR)
    ensures Native(ARM64_JNI) && Native(ARM64_ACCELERATOR) && Native(ARM64_SHIM)
  {
    assert ARMV7_ACCELERATOR[..4] == "jni/" && X86_64_ACCELERATOR[..4] == "jni/" && X86_ACCELERATOR[..4] == "jni/";
    assert ARM64_JNI[..4] == "jni/" && ARM64_ACCELERATOR[..4] == "jni/" && ARM64_SHIM[..4] == "jni/";
  }

  /** A matrix is bounded exactly when the entries that match it are. */
  lemma NativeEntriesPresent(entries: Entries, contract: RuntimeContract)
    requires NativeNames(entries) == ExpectedNative(contract)
    ensures BoundedMatrix(contract) <==>
            && ARM64_JNI in entries && ARM64_ACCELERATOR in entries && ARM64_SHIM in entries
            && ARMV7_ACCELERATOR !in entries && X86_64_ACCELERATOR !in entries && X86_ACCELERATOR !in entries
  {
    hide ExpectedNative, Native;
    AcceleratorsAreNative();
    var natives := NativeNames(entries);
    assert forall n :: n in natives <==> n in entries && Native(n);
  }

  /** What the verifier reads in the AAR, when every entry keeps its place. */
  lemma ReadEntries(codec: Codec, inputs: Inputs, contract: RuntimeContract, m: Making, read: Entries)
    requires Sound(codec) && Makes(codec, inputs, contract, m) && Archivable(m.entries) && read == Normalized(m.entries)
    ensures CONTRACT_ENTRY in read && read[CONTRACT_ENTRY] == inputs.contract
    ensures CLASSES in read && read[CLASSES] == m.jar
    ensures ARM64_JNI in m.entries ==> ARM64_JNI in read && read[ARM64_JNI] == inputs.arm64Jni
    ensures ARM64_ACCELERATOR in m.entries ==>
              ARM64_ACCELERATOR in read && read[ARM64_ACCELERATOR] == inputs.arm64Accelerator
    ensures ARM64_SHIM in m.entries ==> ARM64_SHIM in read && read[ARM64_SHIM] == inputs.arm64Shim
  {
    hide Load, Normal, Assembled, Native, ExpectedNative, ClassesOf, ApiClasses, Merged, JarWithCapability, Normalized,
         Archivable, NulFree, EndsWith;
    AssembledFacts(m.merged, m.jar, inputs, m.x86, contract);
    FixedNativeNames();
    ContractNameIsPlain();
    ClassesArePlain();
    NormalAt(m.entries, CONTRACT_ENTRY);
    NormalAt(m.entries, CLASSES);
    if ARM64_JNI in m.entries { NormalAt(m.entries, ARM64_JNI); }
    if ARM64_ACCELERATOR in m.entries { NormalAt(m.entries, ARM64_ACCELERATOR); }
    if ARM64_SHIM in m.entries { NormalAt(m.entries, ARM64_SHIM); }
  }

  /** A library the verifier may look at is where the packager put it. */
  lemma NativesAgree(codec: Codec, inputs: Inputs, contract: RuntimeContract, m: Making, read: Entries)
    requires Makes(codec, inputs, contract, m) && NativeNames(read) == ExpectedNative(contract)
    ensures forall n | Native(n) :: n in read <==> n in m.entries
  {
    hide Load, Assembled, ExpectedNative, ClassesOf, ApiClasses, Merged, JarWithCapability, Native;
    forall n | Native(n) ensures n in read <==> n in m.entries {
      assert n in NativeNames(read) <==> n in NativeNames(m.entries);
    }
  }

  lemma EntriesAgree(codec: Codec, inputs: Inputs, contract: RuntimeContract, m: Making, read: Entries)
    requires Sound(codec) && Makes(codec, inputs, contract, m) && Archivable(m.entries) && read == Normalized(m.entries)
    ensures AcceptableEntries(codec, read, contract, inputs.contract) <==>
            BoundedMatrix(contract) && CarriesMarkers(codec, inputs, contract)
  {
    hide Load, Normal, Assembled, Native, EndsWith, ExpectedNative, ClassesOf, ApiClasses, Merged, BoundedMatrix,
         Redirected, ShimMarked, JniMarked, ClassesComplete, Normalized, Archivable, NormalForms, KeepsItsPlace,
         NotDiagnostic, NativeNames, JarWithCapability, Sound;
    ReadEntries(codec, inputs, contract, m, read);
    JarIsComplete(codec, inputs, contract, m);
    OfficialNamesDecide(codec, inputs, contract, m);
    NativesStay(m.entries);
    NoDiagnosticWritten(m.entries);
    if NativeNames(read) == ExpectedNative(contract) {
      NativesAgree(codec, inputs, contract, m, read);
      AcceleratorsAreNative();
      NativeEntriesPresent(read, contract);
    }
  }

  lemma CompiledKeys(codec: Codec, merged: Entries, compiled: Entries)
    requires JarWithCapability(codec, merged, compiled).Some?
    ensures compiled.Keys == {CAPABILITY_CLASS, CAPABILITY_INNER_CLASS}
  {
    hide ClassesOf, WriteArchive;
  }

  lemma ManifestFields(codec: Codec, inputs: Inputs, contract: RuntimeContract, entries: Entries, aar: Bytes)
    requires CLASSES in entries
    ensures var manifest := Manifest(codec, inputs, contract, entries, aar);
            && Get(manifest, "coordinate") == Some(contract.coordinate)
            && Get(manifest, "contractSha256") == Some(Text(codec.sha(inputs.contract)))
            && GetIn(manifest, "aar", "sha256") == Some(Text(codec.sha(aar)))
            && Get(manifest, "capability") == Some(contract.capability)
            && GetIn(manifest, "sourceBuild", "outputSha256") == Some(Text(codec.sha(inputs.arm64Jni)))
            && Get(manifest, "nativeComponents")
               == Some(Object(map n | n in entries && Native(n) :: ComponentJson(codec, entries[n])))
  {
    hide Native, ComponentJson;
  }

  /** A native library of the matrix reads back unchanged, when every entry keeps its place. */
  lemma NativeReads(codec: Codec, inputs: Inputs, contract: RuntimeContract, m: Making, read: Entries, n: string)
    requires Makes(codec, inputs, contract, m) && Archivable(m.entries) && read == Normalized(m.entries)
    requires n in ExpectedNative(contract) && KeepsItsPlace(n)
    ensures Native(n) && n in m.entries && n in read && read[n] == m.entries[n]
  {
    hide Load, Assembled, ExpectedNative, ClassesOf, ApiClasses, Merged, JarWithCapability, Native, Normalized,
         ValidateEntryName;
    assert n in NativeNames(m.entries);
    NormalizedAt(m.entries, n);
  }

  lemma ManifestAgrees(codec: Codec, inputs: Inputs, contract: RuntimeContract, m: Making, aar: Bytes, read: Entries)
    requires Makes(codec, inputs, contract, m) && Archivable(m.entries) && read == Normalized(m.entries)
    requires ARM64_JNI in read && read[ARM64_JNI] == inputs.arm64Jni && forall n | n in m.entries :: KeepsItsPlace(n)
    ensures CLASSES in m.entries
    ensures var manifest := Manifest(codec, inputs, contract, m.entries, aar);
            AcceptableManifest(codec, manifest, read, aar, contract, inputs.contract)
  {
    hide Load, Assembled, Native, ExpectedNative, ClassesOf, ApiClasses, Merged, JarWithCapability, Manifest, KeepsItsPlace,
         Normalized, Archivable;
    ManifestFields(codec, inputs, contract, m.entries, aar);
    forall n | n in ExpectedNative(contract)
      ensures Native(n) && n in m.entries && n in read && read[n] == m.entries[n]
    {
      assert n in NativeNames(m.entries);
      NativeReads(codec, inputs, contract, m, read, n);
    }
  }

  /** Packager and verifier agree: whatever the packager emits, the verifier accepts, if and only if the
      matrix is bounded and the inputs carry the markers and classes under names that stay where they are. */
  lemma PackagesVerify(codec: Codec, inputs: Inputs, package: Package)
    requires Sound(codec) && Packaged(codec, inputs) == Some(package)
    ensures var contract := codec.runtime(inputs.contract).value;
            Verified(codec, package.aar, package.manifest, inputs.contract)
            <==> BoundedMatrix(contract) && CarriesMarkers(codec, inputs, contract)
  {
    hide PackagedEntries, WriteArchive, BoundedMatrix, CarriesMarkers, AcceptableEntries, AcceptableManifest,
         Manifest, ReadStrict, Assembled, Merged, Normalized, Archivable, KeepsItsPlace, NulFree, Makes, Sound;
    var contract := codec.runtime(inputs.contract).value;
    var m := MadeFrom(codec, inputs, contract);
    EntryNames(codec, inputs, contract, m);
    WrittenReadsStrictly(codec, m.entries);
    EntriesAgree(codec, inputs, contract, m, Normalized(m.entries));
    if BoundedMatrix(contract) && CarriesMarkers(codec, inputs, contract) {
      AcceptedManifest(codec, inputs, contract, m, package.aar);
    }
  }

  lemma AcceptedManifest(codec: Codec, inputs: Inputs, contract: RuntimeContract, m: Making, aar: Bytes)
    requires Sound(codec) && Makes(codec, inputs, contract, m) && Archivable(m.entries)
    requires BoundedMatrix(contract) && CarriesMarkers(codec, inputs, contract)
    ensures CLASSES in m.entries
    ensures AcceptableManifest(codec, Manifest(codec, inputs, contract, m.entries, aar), Normalized(m.entries), aar,
                               contract, inputs.contract)
  {
    hide Load, Assembled, Native, ExpectedNative, ClassesOf, ApiClasses, Merged, JarWithCapability, Manifest, KeepsItsPlace,
         NotDiagnostic, Normalized, Archivable, AcceptableManifest, Sound, NormalForms;
    OfficialNamesDecide(codec, inputs, contract, m);
    NativeEntriesPresent(m.entries, contract);
    ReadEntries(codec, inputs, contract, m, Normalized(m.entries));
    ManifestAgrees(codec, inputs, contract, m, aar, Normalized(m.entries));
  }

  /** An entry ./jni/x of the API AAR is no native library until it is written. */
  lemma DotSlashIsMisplaced(codec: Codec, inputs: Inputs, contract: RuntimeContract)
    requires Load(codec, inputs.api).Some? && "./jni/x" in Load(codec, inputs.api).value
    requires "./jni/x" !in contract.removedOfficialComponents
    ensures !CarriesMarkers(codec, inputs, contract)
  {
    hide ValidateEntryName, Load;
    DotSlash();
    assert !KeepsItsPlace("./jni/x");
  }

  // ---------------------------------------------------------------- a package that is made and refused

  /** Every library of the matrix lies in a directory of its own below jni/. */
  lemma NoBareNative(contract: RuntimeContract)
    ensures "jni/x" !in ExpectedNative(contract)
  {
    forall n | n in ExpectedNative(contract) ensures n != "jni/x" {
      var abi, i :| abi in contract.nativeMatrix && 0 <= i < |contract.nativeMatrix[abi]|
                    && n == "jni/" + abi + "/" + contract.nativeMatrix[abi][i];
      assert n[4 + |abi|] == '/';
      if |abi| == 0 { assert n[4] == '/' && "jni/x"[4] == 'x'; } else { assert |n| > 5; }
    }
  }

  /** The API AAR with one more entry merges into the same entries and that one. */
  lemma MergedWithOneMore(codec: Codec, implementation: Entries, api: Entries, name: string, data: Bytes)
    requires Merged(codec, implementation, api).Some? && name !in implementation && name !in api && name != CLASSES
    ensures ApiClasses(codec, api[name := data]) == ApiClasses(codec, api)
    ensures Merged(codec, implementation, api[name := data])
         == Some(Merged(codec, implementation, api).value[name := data])
  {
    hide Load, WriteArchive, Native;
    assert MergedJar(codec, implementation, api[name := data]) == MergedJar(codec, implementation, api);
    var jar := MergedJar(codec, implementation, api).value;
    assert (implementation + api[name := data])[CLASSES := jar] == (implementation + api)[CLASSES := jar][name := data];
  }

  /** And is assembled into the same entries and that one. */
  lemma AssembledWithOneMore(
    merged: Entries, jar: Bytes, inputs: Inputs, x86: Entries, contract: RuntimeContract, name: string, data: Bytes,
    api: Bytes)
    requires X86_RUNTIME in x86 && X86_JNI in x86
    requires !FixedEntry(name) && name != CONTRACT_ENTRY && name !in contract.removedOfficialComponents
    ensures Assembled(merged[name := data], jar, inputs.(api := api), x86, contract)
         == Assembled(merged, jar, inputs, x86, contract)[name := data]
  {
    FixedLengths();
  }

  lemma DotSlashIsNoFixedEntry()
    ensures !FixedEntry("./jni/x") && "./jni/x" != CONTRACT_ENTRY && NulFree("./jni/x")
  {
    FixedLengths();
  }

  /** With ./jni/x more in the API AAR the packager still makes its entries, and they can be written. */
  lemma OneMoreEntryIsPackaged(codec: Codec, inputs: Inputs, contract: RuntimeContract, more: Bytes, data: Bytes, m: Making)
    requires Sound(codec) && Makes(codec, inputs, contract, m) && PackagedEntries(codec, inputs, contract) == Some(m.entries)
    requires Archivable(m.entries) && NativeNames(Normalized(m.entries)) == ExpectedNative(contract)
    requires "./jni/x" !in m.implementation && "./jni/x" !in m.api && "./jni/x" !in contract.removedOfficialComponents
    requires Load(codec, more) == Some(m.api["./jni/x" := data])
    ensures PackagedEntries(codec, inputs.(api := more), contract) == Some(m.entries["./jni/x" := data])
    ensures Archivable(m.entries["./jni/x" := data])
  {
    hide Load, WriteArchive, ValidateEntryName, Normalized, Archivable, Assembled, Merged, ApiClasses, Native, ExpectedNative,
         NulFree, FixedEntry, Sound;
    DotSlash();
    DotSlashIsNoFixedEntry();
    var x86 := Load(codec, inputs.x86Supplement).value;
    MergedWithOneMore(codec, m.implementation, m.api, "./jni/x", data);
    SameJar(codec, m.merged, inputs.capabilityClasses, "./jni/x", data);
    AssembledWithOneMore(m.merged, m.jar, inputs, x86, contract, "./jni/x", data, more);
    DotSlashIsFresh(codec, inputs, contract, m);
    FreshName(m.entries, "./jni/x", data);
    NativesWithOneMore(m.entries, "./jni/x", data);
  }

  lemma NativeNameOf(entries: Entries, name: string)
    requires Native(name)
    ensures name in NativeNames(entries) <==> name in entries
  {
  }

  lemma NativesWithOneMore(entries: Entries, name: string, data: Bytes)
    requires !Native(name)
    ensures NativeNames(entries[name := data]) == NativeNames(entries)
  {
    hide Native;
  }

  lemma SameJar(codec: Codec, merged: Entries, compiled: Entries, name: string, data: Bytes)
    requires name != CLASSES
    ensures JarWithCapability(codec, merged[name := data], compiled) == JarWithCapability(codec, merged, compiled)
  {
    hide Load, WriteArchive;
  }

  /** Its normal form is not among the packaged names yet. */
  lemma DotSlashIsFresh(codec: Codec, inputs: Inputs, contract: RuntimeContract, m: Making)
    requires Sound(codec) && Makes(codec, inputs, contract, m) && Archivable(m.entries)
    requires NativeNames(Normalized(m.entries)) == ExpectedNative(contract)
    requires "./jni/x" !in m.implementation && "./jni/x" !in m.api
    ensures "./jni/x" !in m.entries && "jni/x" !in Normalized(m.entries)
  {
    hide Load, WriteArchive, ValidateEntryName, Normalized, Archivable, Assembled, Merged, ApiClasses, ExpectedNative,
         NulFree, FixedEntry, Sound, Native, JarWithCapability;
    DotSlash();
    NoBareNative(contract);
    EntryNames(codec, inputs, contract, m);
    NativeNameOf(Normalized(m.entries), "jni/x");
  }

  /** Beside every accepted package there is one that the packager makes and the verifier refuses: its API
      AAR has one entry more, ./jni/x. */
  lemma RefusedPackage(codec: Codec, inputs: Inputs, package: Package, data: Bytes) returns (more: Inputs, other: Package)
    requires Sound(codec) && Packaged(codec, inputs) == Some(package)
    requires Verified(codec, package.aar, package.manifest, inputs.contract)
    requires "./jni/x" !in Load(codec, inputs.implementation).value && "./jni/x" !in Load(codec, inputs.api).value
    requires "./jni/x" !in codec.runtime(inputs.contract).value.removedOfficialComponents
    ensures more == inputs.(api := more.api)
    ensures Load(codec, more.api) == Some(Load(codec, inputs.api).value["./jni/x" := data])
    ensures Packaged(codec, more) == Some(other) && !Verified(codec, other.aar, other.manifest, more.contract)
  {
    hide PackagedEntries, WriteArchive, AcceptableManifest, Manifest, ReadStrict, Normalized, Archivable, NulFree, Makes,
         Sound, Load, Redirected, ShimMarked, JniMarked, ClassesComplete, ExpectedNative, Verified, CarriesMarkers;
    var contract := codec.runtime(inputs.contract).value;
    var m := MadeFrom(codec, inputs, contract);
    EntryNames(codec, inputs, contract, m);
    WrittenReadsStrictly(codec, m.entries);
    NativesAccepted(codec, package, inputs.contract);
    MadeLoads(codec, inputs, contract, m);
    DotSlashIsNoFixedEntry();
    var api := OneMoreMember(codec, inputs.api, "./jni/x", data);
    more := inputs.(api := api);
    OneMoreEntryIsPackaged(codec, inputs, contract, api, data, m);
    other := PackageMade(codec, more, m.entries["./jni/x" := data]);
    DotSlashIsMisplaced(codec, more, contract);
    PackagesVerify(codec, more, other);
  }

  lemma NativesAccepted(codec: Codec, package: Package, contractBytes: Bytes)
    requires Verified(codec, package.aar, package.manifest, contractBytes)
    ensures NativeNames(ReadStrict(codec, package.aar).value) == ExpectedNative(codec.runtime(contractBytes).value)
  {
    hide ReadStrict, ExpectedNative, ClassesComplete, AcceptableManifest;
  }

  lemma MadeLoads(codec: Codec, inputs: Inputs, contract: RuntimeContract, m: Making)
    requires Makes(codec, inputs, contract, m)
    ensures Load(codec, inputs.implementation) == Some(m.implementation) && Load(codec, inputs.api) == Some(m.api)
  {
  }

  lemma PackageMade(codec: Codec, inputs: Inputs, entries: Entries) returns (package: Package)
    requires codec.runtime(inputs.contract).Some? && Archivable(entries)
    requires PackagedEntries(codec, inputs, codec.runtime(inputs.contract).value) == Some(entries)
    ensures Packaged(codec, inputs) == Some(package)
  {
    hide PackagedEntries, Archivable, Normalized, Written, Manifest;
    package := Packaged(codec, inputs).value;
  }
}
