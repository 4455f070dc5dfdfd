/** In-place patches of binary images: counting and finding patterns as Python's bytes do, and what
    replacing one region does to the occurrences of any pattern. */
module Splice {
  import Archive
  import opened Wrappers

  type Byte = Archive.Byte
  type Bytes = Archive.Bytes

  predicate At(s: Bytes, p: Bytes, i: int) {
    0 <= i && i + |p| <= |s| && s[i..i + |p|] == p
  }

  /** data.find: the first occurrence at or after a position. */
  function Find(s: Bytes, p: Bytes, from: nat): (r: Option<nat>)
    requires from <= |s|
    ensures r.Some? ==> from <= r.value && At(s, p, r.value)
    ensures r.Some? ==> forall i | from <= i < r.value :: !At(s, p, i)
    ensures r.None? ==> forall i | from <= i :: !At(s, p, i)
    decreases |s| - from
  {
    if At(s, p, from) then Some(from)
    else if from == |s| then None
    else Find(s, p, from + 1)
  }

  /** data.count: occurrences that do not overlap, taken from the left. */
  function Count(s: Bytes, p: Bytes, from: nat): nat
    requires from <= |s| && p != []
    decreases |s| - from
  {
    match Find(s, p, from)
    case None => 0
    case Some(i) => 1 + Count(s, p, i + |p|)
  }

  /** All occurrences, overlapping ones too. */
  ghost function Occurrences(s: Bytes, p: Bytes, from: nat): set<nat>
    requires p != []
  {
    set i | from <= i < |s| && At(s, p, i)
  }

  // ---------------------------------------------------------------- overlaps

  /** A pattern laid over a region at a displacement agrees with it wherever both have bytes. */
  predicate Meets(p: Bytes, r: Bytes, d: int) {
    forall k | 0 <= k < |p| && 0 <= d + k < |r| :: p[k] == r[d + k]
  }

  /** No occurrence of p can touch a region that holds r. */
  ghost predicate Apart(p: Bytes, r: Bytes) {
    forall d | -|p| < d < |r| :: !Meets(p, r, d)
  }

  /** An occurrence of p that touches a region holding r starts where the region starts. */
  ghost predicate OnlyAtStart(p: Bytes, r: Bytes) {
    forall d | -|p| < d < |r| && d != 0 :: !Meets(p, r, d)
  }

  lemma TouchingMeets(s: Bytes, p: Bytes, i: int, r: Bytes, o: nat)
    requires At(s, p, i) && At(s, r, o)
    ensures Meets(p, r, i - o)
  {
    forall k | 0 <= k < |p| && 0 <= i - o + k < |r| ensures p[k] == r[i - o + k] {
      assert s[i..i + |p|][k] == s[o..o + |r|][i - o + k];
    }
  }

  lemma NoOverlap(s: Bytes, p: Bytes, i: nat, j: nat)
    requires OnlyAtStart(p, p) && At(s, p, i) && i < j < i + |p|
    ensures !At(s, p, j)
  {
    if At(s, p, j) { TouchingMeets(s, p, j, p, i); }
  }

  lemma FoundIfAny(s: Bytes, p: Bytes, from: nat)
    requires p != [] && from <= |s|
    ensures Find(s, p, from).Some? <==> Occurrences(s, p, from) != {}
    ensures Find(s, p, from).Some? ==> Find(s, p, from).value in Occurrences(s, p, from)
  {
    var first := Find(s, p, from);
    if first.Some? { assert first.value in Occurrences(s, p, from); }
  }

  /** The count is the true number of occurrences when the pattern cannot overlap itself. */
  lemma {:induction false} CountIsExact(s: Bytes, p: Bytes, from: nat)
    requires from <= |s| && p != [] && OnlyAtStart(p, p)
    ensures Count(s, p, from) == |Occurrences(s, p, from)|
    decreases |s| - from
  {
    hide OnlyAtStart, Find;
    FoundIfAny(s, p, from);
    var first := Find(s, p, from);
    if first.Some? {
      CountIsExact(s, p, first.value + |p|);
      FirstAndRest(s, p, from, first.value);
    }
  }

  lemma FirstAndRest(s: Bytes, p: Bytes, from: nat, i: nat)
    requires p != [] && OnlyAtStart(p, p) && At(s, p, i) && from <= i && forall j | from <= j < i :: !At(s, p, j)
    ensures |Occurrences(s, p, from)| == 1 + |Occurrences(s, p, i + |p|)|
  {
    hide OnlyAtStart;
    forall j | i < j < i + |p| ensures !At(s, p, j) { NoOverlap(s, p, i, j); }
    assert Occurrences(s, p, from) == Occurrences(s, p, i + |p|) + {i};
  }

  // ---------------------------------------------------------------- replacing a region

  function Spliced(s: Bytes, o: nat, r: Bytes): Bytes
    requires o + |r| <= |s|
  {
    s[..o] + r + s[o + |r|..]
  }

  /** Splicing keeps the length and all bytes outside the region, and splicing the old bytes back
      restores the image. */
  lemma SpliceFacts(s: Bytes, o: nat, r: Bytes, was: Bytes)
    requires o + |r| <= |s| && |was| == |r| && At(s, was, o)
    ensures var s' := Spliced(s, o, r);
            && |s'| == |s| && At(s', r, o)
            && (forall i | 0 <= i < |s| && !(o <= i < o + |r|) :: s'[i] == s[i])
            && Spliced(s', o, was) == s
  {
    var s' := Spliced(s, o, r);
    assert s'[o..o + |r|] == r;
    assert s == s[..o] + was + s[o + |r|..];
    assert s'[..o] == s[..o] && s'[o + |r|..] == s[o + |r|..];
  }

  /** Away from the region nothing appears or disappears. */
  lemma SameOutside(s: Bytes, o: nat, r: Bytes, p: Bytes, i: nat)
    requires o + |r| <= |s| && (i + |p| <= o || o + |r| <= i)
    ensures At(Spliced(s, o, r), p, i) <==> At(s, p, i)
  {
    var s' := Spliced(s, o, r);
    if i + |p| <= |s| { assert s'[i..i + |p|] == s[i..i + |p|]; }
  }

  /** A pattern that can touch neither the old nor the new bytes keeps its occurrences; one that can
      touch them only at their start keeps the others. */
  lemma OccurrencesOutside(s: Bytes, o: nat, r: Bytes, was: Bytes, p: Bytes)
    requires p != [] && o + |r| <= |s| && |was| == |r| > 0 && At(s, was, o)
    requires OnlyAtStart(p, was) && OnlyAtStart(p, r)
    ensures Occurrences(Spliced(s, o, r), p, 0) - {o} == Occurrences(s, p, 0) - {o}
  {
    var s' := Spliced(s, o, r);
    SpliceFacts(s, o, r, was);
    forall i: nat | i != o ensures At(s', p, i) <==> At(s, p, i) {
      if i + |p| <= o || o + |r| <= i {
        SameOutside(s, o, r, p, i);
      } else {
        if At(s, p, i) { TouchingMeets(s, p, i, was, o); }
        if At(s', p, i) { TouchingMeets(s', p, i, r, o); }
      }
    }
  }

  /** What one replacement does to the occurrences of the old and of the new name. */
  lemma ReplacementFacts(s: Bytes, o: nat, was: Bytes, r: Bytes, name: Bytes)
    requires name != [] && name <= r && |was| == |r| && At(s, was, o)
    requires OnlyAtStart(was, was) && Apart(was, r)
    requires OnlyAtStart(name, r) && Apart(name, was)
    ensures var s' := Spliced(s, o, r);
            && Occurrences(s', was, 0) == Occurrences(s, was, 0) - {o}
            && Occurrences(s', name, 0) == Occurrences(s, name, 0) + {o}
            && o in Occurrences(s, was, 0) && o !in Occurrences(s, name, 0)
  {
    hide Meets;
    var s' := Spliced(s, o, r);
    SpliceFacts(s, o, r, was);
    OccurrencesOutside(s, o, r, was, was);
    OccurrencesOutside(s, o, r, was, name);
    NeverTouches(s', was, o, r);
    NeverTouches(s, name, o, was);
    assert s'[o..o + |name|] == s'[o..o + |r|][..|name|] == r[..|name|] == name;
    assert Occurrences(s', was, 0) - {o} == Occurrences(s', was, 0);
    assert Occurrences(s, name, 0) - {o} == Occurrences(s, name, 0);
    assert Occurrences(s', name, 0) - {o} + {o} == Occurrences(s', name, 0);
  }

  lemma NeverTouches(s: Bytes, p: Bytes, o: nat, r: Bytes)
    requires Apart(p, r) && At(s, r, o) && p != [] && r != []
    ensures !At(s, p, o)
  {
    if At(s, p, o) { TouchingMeets(s, p, o, r, o); }
  }

  /** Two displaced patterns disagree at once when one's first two bytes do not recur in the other. */
  predicate StartsDiffer(p: Bytes, r: Bytes) {
    && |p| >= 2 && |r| >= 2
    && (forall d | 0 < d < |r| :: p[0] != r[d] || (d + 1 < |r| && p[1] != r[d + 1]))
    && (forall d | 0 < d < |p| :: p[d] != r[0] || (d + 1 < |p| && p[d + 1] != r[1]))
  }

  lemma DifferentStarts(p: Bytes, r: Bytes)
    requires StartsDiffer(p, r)
    ensures OnlyAtStart(p, r)
    ensures (exists k :: 0 <= k < |p| && k < |r| && p[k] != r[k]) ==> Apart(p, r)
  {
    forall d | -|p| < d < |r| && d != 0 ensures !Meets(p, r, d) {
      if d > 0 {
        if p[0] == r[d] { assert p[1] != r[d + 1]; } else { assert p[0] != r[d + 0]; }
      } else {
        var k := -d;
        if p[k] == r[0] { assert p[k + 1] != r[d + (k + 1)]; } else { assert p[k] != r[d + k]; }
      }
    }
    if k :| 0 <= k < |p| && k < |r| && p[k] != r[k] { assert p[k] != r[0 + k]; }
  }

  // ---------------------------------------------------------------- the loader names

  const ORIGINAL_LIBRARY: Bytes := [0x6c, 0x69, 0x62, 0x4f, 0x70, 0x65, 0x6e, 0x43, 0x4c, 0x2e, 0x73, 0x6f]
  const REPLACEMENT_LIBRARY: Bytes := [0x6c, 0x69, 0x62, 0x42, 0x73, 0x73, 0x4f, 0x63, 0x6c, 0x2e, 0x73, 0x6f]
  const EXPERIMENT_LIBRARY: Bytes := [0x6c, 0x69, 0x62, 0x4f, 0x43, 0x4c, 0x51, 0x2e, 0x73, 0x6f]

  /** They are the ASCII names that the other scripts look for. */
  lemma LibraryNames()
    ensures ORIGINAL_LIBRARY == Archive.Ascii("libOpenCL.so")
    ensures REPLACEMENT_LIBRARY == Archive.Ascii("libBssOcl.so")
    ensures EXPERIMENT_LIBRARY == Archive.Ascii("libOCLQ.so")
  {
    assert ORIGINAL_LIBRARY == Archive.Ascii("libOpenCL.so") by {}
    assert REPLACEMENT_LIBRARY == Archive.Ascii("libBssOcl.so") by {}
    assert EXPERIMENT_LIBRARY == Archive.Ascii("libOCLQ.so") by {}
  }

  datatype Patch = Patch(offset: nat, image: Bytes)

  /** patch_bounded_gpu_accelerator.py, after the check of the pinned input hash. */
  function PatchBoundedLoader(data: Bytes): Option<Patch> {
    if |REPLACEMENT_LIBRARY| != |ORIGINAL_LIBRARY| || Count(data, ORIGINAL_LIBRARY, 0) != 1 then None
    else
      match Find(data, ORIGINAL_LIBRARY, 0)
      case None => None
      case Some(offset) =>
        var patched := Spliced(data, offset, REPLACEMENT_LIBRARY);
        if |patched| != |data| || Count(patched, REPLACEMENT_LIBRARY, 0) != 1 then None
        else Some(Patch(offset, patched))
  }

  function Padded(name: Bytes, length: nat): Bytes
    requires |name| <= length
  {
    name + seq(length - |name|, _ => 0)
  }

  /** experiments/opencl-queue-window/patch_accelerator.py */
  function PatchExperimentLoader(data: Bytes): Option<Patch> {
    if |EXPERIMENT_LIBRARY| > |ORIGINAL_LIBRARY| || Count(data, ORIGINAL_LIBRARY, 0) != 1 then None
    else
      match Find(data, ORIGINAL_LIBRARY, 0)
      case None => None
      case Some(offset) =>
        var patched := Spliced(data, offset, Padded(EXPERIMENT_LIBRARY, |ORIGINAL_LIBRARY|));
        if Find(patched, ORIGINAL_LIBRARY, 0).Some? || Count(patched, EXPERIMENT_LIBRARY, 0) != 1 then None
        else Some(Patch(offset, patched))
  }

  lemma BoundedNamesAreApart()
    ensures OnlyAtStart(ORIGINAL_LIBRARY, ORIGINAL_LIBRARY)
    ensures OnlyAtStart(REPLACEMENT_LIBRARY, REPLACEMENT_LIBRARY)
    ensures Apart(ORIGINAL_LIBRARY, REPLACEMENT_LIBRARY) && Apart(REPLACEMENT_LIBRARY, ORIGINAL_LIBRARY)
  {
    DifferentStarts(ORIGINAL_LIBRARY, ORIGINAL_LIBRARY);
    DifferentStarts(REPLACEMENT_LIBRARY, REPLACEMENT_LIBRARY);
    assert ORIGINAL_LIBRARY[3] != REPLACEMENT_LIBRARY[3];
    DifferentStarts(ORIGINAL_LIBRARY, REPLACEMENT_LIBRARY);
    DifferentStarts(REPLACEMENT_LIBRARY, ORIGINAL_LIBRARY);
  }

  lemma ExperimentNamesAreApart()
    ensures var padded := Padded(EXPERIMENT_LIBRARY, |ORIGINAL_LIBRARY|);
            && |padded| == |ORIGINAL_LIBRARY| && EXPERIMENT_LIBRARY <= padded
            && OnlyAtStart(ORIGINAL_LIBRARY, ORIGINAL_LIBRARY) && Apart(ORIGINAL_LIBRARY, padded)
            && OnlyAtStart(EXPERIMENT_LIBRARY, padded) && Apart(EXPERIMENT_LIBRARY, ORIGINAL_LIBRARY)
            && OnlyAtStart(EXPERIMENT_LIBRARY, EXPERIMENT_LIBRARY)
  {
    var padded := Padded(EXPERIMENT_LIBRARY, |ORIGINAL_LIBRARY|);
    assert padded == [0x6c, 0x69, 0x62, 0x4f, 0x43, 0x4c, 0x51, 0x2e, 0x73, 0x6f, 0, 0];
    DifferentStarts(ORIGINAL_LIBRARY, ORIGINAL_LIBRARY);
    assert ORIGINAL_LIBRARY[4] != padded[4] && EXPERIMENT_LIBRARY[4] != ORIGINAL_LIBRARY[4];
    DifferentStarts(ORIGINAL_LIBRARY, padded);
    DifferentStarts(EXPERIMENT_LIBRARY, padded);
    DifferentStarts(EXPERIMENT_LIBRARY, ORIGINAL_LIBRARY);
    DifferentStarts(EXPERIMENT_LIBRARY, EXPERIMENT_LIBRARY);
  }

  /** What a loader patch promises: same size, the old name gone everywhere, the new name exactly once,
      only the twelve bytes of the region touched, and the old bytes put back give the input. */
  ghost predicate Redirects(data: Bytes, patch: Patch, name: Bytes)
    requires name != []
  {
    && |patch.image| == |data| && patch.offset + |ORIGINAL_LIBRARY| <= |data|
    && Occurrences(data, ORIGINAL_LIBRARY, 0) == {patch.offset}
    && Occurrences(patch.image, ORIGINAL_LIBRARY, 0) == {}
    && Occurrences(patch.image, name, 0) == {patch.offset}
    && (forall i | 0 <= i < |data| && !(patch.offset <= i < patch.offset + |ORIGINAL_LIBRARY|) ::
          patch.image[i] == data[i])
    && Spliced(patch.image, patch.offset, ORIGINAL_LIBRARY) == data
  }

  lemma OneOccurrence(s: Bytes, p: Bytes)
    requires p != [] && OnlyAtStart(p, p)
    ensures Count(s, p, 0) == 1 <==>
            Find(s, p, 0).Some? && Occurrences(s, p, 0) == {Find(s, p, 0).value}
    ensures |Occurrences(s, p, 0)| == 1 <==> Count(s, p, 0) == 1
  {
    CountIsExact(s, p, 0);
    FoundIfAny(s, p, 0);
    if |Occurrences(s, p, 0)| == 1 {
      var o := Find(s, p, 0).value;
      assert |Occurrences(s, p, 0) - {o}| == 0;
    }
  }

  lemma ReplaceOnce(data: Bytes, o: nat, r: Bytes, name: Bytes)
    requires name != [] && name <= r && |r| == |ORIGINAL_LIBRARY|
    requires OnlyAtStart(ORIGINAL_LIBRARY, ORIGINAL_LIBRARY) && Apart(ORIGINAL_LIBRARY, r)
    requires OnlyAtStart(name, r) && Apart(name, ORIGINAL_LIBRARY) && OnlyAtStart(name, name)
    requires Occurrences(data, ORIGINAL_LIBRARY, 0) == {o}
    ensures o + |r| <= |data|
    ensures Count(Spliced(data, o, r), name, 0) == 1 <==> Occurrences(data, name, 0) == {}
    ensures Occurrences(data, name, 0) == {} ==> Redirects(data, Patch(o, Spliced(data, o, r)), name)
    ensures Occurrences(Spliced(data, o, r), ORIGINAL_LIBRARY, 0) == {}
  {
    assert o in Occurrences(data, ORIGINAL_LIBRARY, 0);
    SpliceFacts(data, o, r, ORIGINAL_LIBRARY);
    ReplacementFacts(data, o, ORIGINAL_LIBRARY, r, name);
    CountIsExact(Spliced(data, o, r), name, 0);
    assert |Occurrences(data, name, 0) + {o}| == |Occurrences(data, name, 0)| + 1;
  }

  /** The bounded-GPU patch succeeds exactly on the images with one old name and no new one, and then
      does what it promises. */
  lemma BoundedPatchIsExact(data: Bytes)
    ensures PatchBoundedLoader(data).Some? <==>
            |Occurrences(data, ORIGINAL_LIBRARY, 0)| == 1 && Occurrences(data, REPLACEMENT_LIBRARY, 0) == {}
    ensures PatchBoundedLoader(data).Some? ==> Redirects(data, PatchBoundedLoader(data).value, REPLACEMENT_LIBRARY)
  {
    BoundedNamesAreApart();
    OneOccurrence(data, ORIGINAL_LIBRARY);
    if Count(data, ORIGINAL_LIBRARY, 0) == 1 {
      ReplaceOnce(data, Find(data, ORIGINAL_LIBRARY, 0).value, REPLACEMENT_LIBRARY, REPLACEMENT_LIBRARY);
    }
  }

  /** So does the experiment's patch, whose shorter name is padded with NULs. */
  lemma ExperimentPatchIsExact(data: Bytes)
    ensures PatchExperimentLoader(data).Some? <==>
            |Occurrences(data, ORIGINAL_LIBRARY, 0)| == 1 && Occurrences(data, EXPERIMENT_LIBRARY, 0) == {}
    ensures PatchExperimentLoader(data).Some? ==>
              Redirects(data, PatchExperimentLoader(data).value, EXPERIMENT_LIBRARY)
  {
    ExperimentNamesAreApart();
    OneOccurrence(data, ORIGINAL_LIBRARY);
    if Count(data, ORIGINAL_LIBRARY, 0) == 1 {
      var o, padded := Find(data, ORIGINAL_LIBRARY, 0).value, Padded(EXPERIMENT_LIBRARY, |ORIGINAL_LIBRARY|);
      ReplaceOnce(data, o, padded, EXPERIMENT_LIBRARY);
      FoundIfAny(Spliced(data, o, padded), ORIGINAL_LIBRARY, 0);
    }
  }

  // ---------------------------------------------------------------- the option setter

  /** mov x8, x0; mov w0, #1; cbz x8, return */
  const PROLOGUE: Bytes := [0xe8, 0x03, 0x00, 0xaa, 0x20, 0x00, 0x80, 0x52, 0x88, 0x00, 0x00, 0xb4]
  /** mov w0, wzr */
  const CLEAR_RESULT: Bytes := [0xe0, 0x03, 0x1f, 0x2a]
  const RETURN: Bytes := [0xc0, 0x03, 0x5f, 0xd6]

  /** strb w0, [x8, #0x98] becomes strb w0, [x8, #0x110] */
  const OLD_ENGAGE: Bytes := [0x00, 0x61, 0x02, 0x39]
  const NEW_ENGAGE: Bytes := [0x00, 0x41, 0x04, 0x39]
  /** str w1, [x8, #0x94] becomes str w1, [x8, #0x10c] */
  const OLD_STORE: Bytes := [0x01, 0x95, 0x00, 0xb9]
  const NEW_STORE: Bytes := [0x01, 0x0d, 0x01, 0xb9]

  const OLD_SETTER: Bytes := PROLOGUE + OLD_ENGAGE + CLEAR_RESULT + OLD_STORE + RETURN
  const NEW_SETTER: Bytes := PROLOGUE + NEW_ENGAGE + CLEAR_RESULT + NEW_STORE + RETURN

  /** patch_runtime_kernel_batch.py, after the check of the pinned input hash. */
  function PatchSetter(data: Bytes): Option<Patch> {
    if Count(data, OLD_SETTER, 0) != 1 then None
    else
      match Find(data, OLD_SETTER, 0)
      case None => None
      case Some(offset) =>
        var patched := data[..offset] + NEW_SETTER + data[offset + |OLD_SETTER|..];
        if |patched| != |data| then None else Some(Patch(offset, patched))
  }

  /** sum(old != new for old, new in zip(...)) */
  function ChangedBytes(a: Bytes, b: Bytes): nat {
    if a == [] || b == [] then 0
    else (if a[0] != b[0] then 1 else 0) + ChangedBytes(a[1..], b[1..])
  }

  lemma {:induction false} ChangedConcat(a: Bytes, b: Bytes, x: Bytes, y: Bytes)
    requires |a| == |b|
    ensures ChangedBytes(a + x, b + y) == ChangedBytes(a, b) + ChangedBytes(x, y)
  {
    if a == [] {
      assert a + x == x && b + y == y;
    } else {
      ChangedConcat(a[1..], b[1..], x, y);
      assert (a + x)[1..] == a[1..] + x && (b + y)[1..] == b[1..] + y;
    }
  }

  lemma {:induction false} NothingChanged(a: Bytes)
    ensures ChangedBytes(a, a) == 0
  {
    if a != [] { NothingChanged(a[1..]); }
  }

  lemma ChangedInstruction(a: Bytes, b: Bytes)
    requires |a| == |b| == 4
    ensures ChangedBytes(a, b) == (if a[0] != b[0] then 1 else 0) + (if a[1] != b[1] then 1 else 0)
                                  + (if a[2] != b[2] then 1 else 0) + (if a[3] != b[3] then 1 else 0)
  {
    assert a == [a[0]] + [a[1]] + [a[2]] + [a[3]] && b == [b[0]] + [b[1]] + [b[2]] + [b[3]];
    ChangedConcat([a[0]] + [a[1]] + [a[2]], [b[0]] + [b[1]] + [b[2]], [a[3]], [b[3]]);
    ChangedConcat([a[0]] + [a[1]], [b[0]] + [b[1]], [a[2]], [b[2]]);
    ChangedConcat([a[0]], [b[0]], [a[1]], [b[1]]);
  }

  lemma SettersDifferInFourBytes()
    ensures |OLD_SETTER| == |NEW_SETTER| == 28 && ChangedBytes(OLD_SETTER, NEW_SETTER) == 4
  {
    ChangedConcat(PROLOGUE + OLD_ENGAGE + CLEAR_RESULT + OLD_STORE, PROLOGUE + NEW_ENGAGE + CLEAR_RESULT + NEW_STORE,
                  RETURN, RETURN);
    ChangedConcat(PROLOGUE + OLD_ENGAGE + CLEAR_RESULT, PROLOGUE + NEW_ENGAGE + CLEAR_RESULT, OLD_STORE, NEW_STORE);
    ChangedConcat(PROLOGUE + OLD_ENGAGE, PROLOGUE + NEW_ENGAGE, CLEAR_RESULT, CLEAR_RESULT);
    ChangedConcat(PROLOGUE, PROLOGUE, OLD_ENGAGE, NEW_ENGAGE);
    NothingChanged(PROLOGUE);
    NothingChanged(CLEAR_RESULT);
    NothingChanged(RETURN);
    ChangedInstruction(OLD_ENGAGE, NEW_ENGAGE);
    ChangedInstruction(OLD_STORE, NEW_STORE);
  }

  lemma SettersAreApart()
    ensures OnlyAtStart(OLD_SETTER, OLD_SETTER) && Apart(OLD_SETTER, NEW_SETTER)
  {
    assert OLD_SETTER == [0xe8, 0x03, 0x00, 0xaa, 0x20, 0x00, 0x80, 0x52, 0x88, 0x00, 0x00, 0xb4, 0x00, 0x61, 0x02, 0x39,
                          0xe0, 0x03, 0x1f, 0x2a, 0x01, 0x95, 0x00, 0xb9, 0xc0, 0x03, 0x5f, 0xd6];
    assert NEW_SETTER == [0xe8, 0x03, 0x00, 0xaa, 0x20, 0x00, 0x80, 0x52, 0x88, 0x00, 0x00, 0xb4, 0x00, 0x41, 0x04, 0x39,
                          0xe0, 0x03, 0x1f, 0x2a, 0x01, 0x0d, 0x01, 0xb9, 0xc0, 0x03, 0x5f, 0xd6];
    assert forall d | 0 < d < 28 :: OLD_SETTER[d] != 0xe8;
    assert forall d | 0 < d < 28 :: NEW_SETTER[d] != 0xe8;
    DifferentStarts(OLD_SETTER, OLD_SETTER);
    assert OLD_SETTER[13] != NEW_SETTER[13];
    DifferentStarts(OLD_SETTER, NEW_SETTER);
  }

  /** The setter patch succeeds exactly on the images with one old setter. It then changes exactly four
      bytes of the image, leaves no old setter, and is undone by putting the old setter back. */
  lemma SetterPatchIsExact(data: Bytes)
    ensures PatchSetter(data).Some? <==> |Occurrences(data, OLD_SETTER, 0)| == 1
    ensures PatchSetter(data).Some? ==>
              var Patch(o, image) := PatchSetter(data).value;
              && |image| == |data| && At(data, OLD_SETTER, o) && At(image, NEW_SETTER, o)
              && ChangedBytes(data, image) == 4
              && Occurrences(image, OLD_SETTER, 0) == {}
              && Spliced(image, o, OLD_SETTER) == data
              && PatchSetter(image) == None
  {
    SettersDifferInFourBytes();
    SettersAreApart();
    OneOccurrence(data, OLD_SETTER);
    if Count(data, OLD_SETTER, 0) == 1 {
      ReplacedSetter(data, Find(data, OLD_SETTER, 0).value, OLD_SETTER, NEW_SETTER);
    }
  }

  lemma ReplacedSetter(data: Bytes, o: nat, was: Bytes, r: Bytes)
    requires was != [] && |was| == |r| && OnlyAtStart(was, was) && Apart(was, r)
    requires Occurrences(data, was, 0) == {o} && At(data, was, o)
    ensures var image := Spliced(data, o, r);
            && |image| == |data| && At(image, r, o) && ChangedBytes(data, image) == ChangedBytes(was, r)
            && Occurrences(image, was, 0) == {} && Spliced(image, o, was) == data
            && Count(image, was, 0) == 0
  {
    hide Meets, Count, Find, ChangedBytes;
    var image := Spliced(data, o, r);
    SpliceFacts(data, o, r, was);
    OccurrencesOutside(data, o, r, was, was);
    NeverTouches(image, was, o, r);
    assert Occurrences(image, was, 0) - {o} == Occurrences(image, was, 0);
    CountIsExact(image, was, 0);
    SplicedChanges(data, o, was, r);
  }

  lemma SplicedChanges(data: Bytes, o: nat, was: Bytes, r: Bytes)
    requires |was| == |r| && At(data, was, o)
    ensures ChangedBytes(data, Spliced(data, o, r)) == ChangedBytes(was, r)
  {
    var head, tail := data[..o], data[o + |r|..];
    assert data == head + was + tail;
    ChangedConcat(head + was, head + r, tail, tail);
    ChangedConcat(head, head, was, r);
    NothingChanged(head);
    NothingChanged(tail);
  }
}
