/** Archive entry names: Python's string order, pure POSIX paths, and the check every name passes. */
module Names {
  import opened Wrappers

  // ---------------------------------------------------------------- string order

  /** The order sorted() uses: by code point, a proper prefix first. */
  predicate Less(a: string, b: string) {
    b != "" && (a == "" || a[0] < b[0] || (a[0] == b[0] && Less(a[1..], b[1..])))
  }

  lemma {:induction false} LessIsTransitive(a: string, b: string, c: string)
    requires Less(a, b) && Less(b, c)
    ensures Less(a, c)
  {
    if a != "" && a[0] == b[0] == c[0] { LessIsTransitive(a[1..], b[1..], c[1..]); }
  }

  lemma {:induction false} LessIsTotal(a: string, b: string)
    ensures Less(a, b) || a == b || Less(b, a)
    ensures !(Less(a, b) && Less(b, a)) && !Less(a, a)
  {
    if a != "" && b != "" {
      LessIsTotal(a[1..], b[1..]);
      if a[0] == b[0] && a[1..] == b[1..] { assert a == [a[0]] + a[1..] == b; }
    }
    if a != "" { LessIsTotal(a[1..], a[1..]); }
  }

  /** Where two strings first differ the earlier one has the lower code point, or ends. */
  ghost predicate Precedes(a: string, b: string) {
    exists k :: 0 <= k <= |a| && k < |b| && a[..k] == b[..k] && (k == |a| || a[k] < b[k])
  }

  lemma SameStart(a: string, b: string, k: nat)
    requires 0 < k <= |a| && k <= |b| && a[..k] == b[..k]
    ensures a[0] == b[0]
  {
    assert a[0] == a[..k][0] == b[..k][0] == b[0];
  }

  /** The order is the one by code points. */
  lemma {:induction false} LessIsCodePointOrder(a: string, b: string)
    ensures Less(a, b) <==> Precedes(a, b)
  {
    if a != "" && b != "" && a[0] == b[0] {
      LessIsCodePointOrder(a[1..], b[1..]);
      if Precedes(a[1..], b[1..]) {
        var k :| 0 <= k <= |a[1..]| && k < |b[1..]| && a[1..][..k] == b[1..][..k]
                 && (k == |a[1..]| || a[1..][k] < b[1..][k]);
        assert a[..k + 1] == [a[0]] + a[1..][..k] && b[..k + 1] == [b[0]] + b[1..][..k];
      }
      if Precedes(a, b) {
        var k :| 0 <= k <= |a| && k < |b| && a[..k] == b[..k] && (k == |a| || a[k] < b[k]);
        assert k > 0 && a[1..][..k - 1] == a[..k][1..] && b[1..][..k - 1] == b[..k][1..];
      }
    } else if b != "" {
      if a == "" || a[0] < b[0] { assert a[..0] == b[..0]; }
      if Precedes(a, b) {
        var k :| 0 <= k <= |a| && k < |b| && a[..k] == b[..k] && (k == |a| || a[k] < b[k]);
        if k > 0 { SameStart(a, b, k); }
      }
    }
  }

  /** Each name before the later ones. */
  ghost predicate Ascending(names: seq<string>) {
    forall i, j | 0 <= i < j < |names| :: Precedes(names[i], names[j])
  }

  lemma AscendingByLess(names: seq<string>)
    ensures Ascending(names) <==> forall i, j | 0 <= i < j < |names| :: Less(names[i], names[j])
  {
    hide Precedes, Less;
    forall i, j | 0 <= i < j < |names| ensures Less(names[i], names[j]) <==> Precedes(names[i], names[j]) {
      LessIsCodePointOrder(names[i], names[j]);
    }
  }

  /** The keys in ascending order. */
  function SortedKeys(keys: set<string>): (names: seq<string>)
    ensures forall i, j | 0 <= i < j < |names| :: Less(names[i], names[j])
    ensures forall k :: k in names <==> k in keys
  {
    if keys == {} then []
    else
      LeastExists(keys);
      LeastIsUnique(keys);
      var least :| least in keys && Least(keys, least);
      [least] + SortedKeys(keys - {least})
  }

  predicate Least(keys: set<string>, least: string) {
    least in keys && forall k | k in keys && k != least :: Less(least, k)
  }

  lemma {:induction false} LeastExists(keys: set<string>)
    requires keys != {}
    ensures exists least :: Least(keys, least)
  {
    var x :| x in keys;
    if keys == {x} {
      assert Least(keys, x);
    } else {
      LeastExists(keys - {x});
      var y :| Least(keys - {x}, y);
      LessIsTotal(x, y);
      var least := if Less(x, y) then x else y;
      forall k | k in keys && k != least ensures Less(least, k) {
        if least == x && k != y { LessIsTransitive(x, y, k); }
      }
      assert Least(keys, least);
    }
  }

  lemma LeastIsUnique(keys: set<string>)
    ensures forall a, b | Least(keys, a) && Least(keys, b) :: a == b
  {
    forall a, b | Least(keys, a) && Least(keys, b) ensures a == b { LessIsTotal(a, b); }
  }

  lemma HasFirst(names: seq<string>)
    requires names != []
    ensures exists k :: k in names
  {
    assert names[0] in names;
  }

  /** A strictly ascending listing of the keys is the only one. */
  lemma {:induction false} SortedIsUnique(names: seq<string>, keys: set<string>)
    requires forall i, j | 0 <= i < j < |names| :: Less(names[i], names[j])
    requires forall k :: k in names <==> k in keys
    ensures names == SortedKeys(keys)
  {
    if keys == {} {
      if names != [] { HasFirst(names); }
    } else {
      var least := SortedKeys(keys)[0];
      assert least in keys && names != [];
      assert names[0] in SortedKeys(keys);
      LessIsTotal(names[0], least);
      assert names[0] == least;
      forall k ensures k in names[1..] <==> k in keys - {least} {
        if k in names[1..] { LessIsTotal(least, least); }
      }
      SortedIsUnique(names[1..], keys - {least});
      LeastExists(keys);
      LeastIsUnique(keys);
      assert SortedKeys(keys)[1..] == SortedKeys(keys - {least});
    }
  }

  // ---------------------------------------------------------------- pure POSIX paths

  function Split(s: string): (parts: seq<string>)
    ensures |parts| >= 1
  {
    if s == "" then [""]
    else if s[0] == '/' then [""] + Split(s[1..])
    else
      var rest := Split(s[1..]);
      [[s[0]] + rest[0]] + rest[1..]
  }

  function Join(parts: seq<string>): string {
    if parts == [] then ""
    else if |parts| == 1 then parts[0]
    else parts[0] + "/" + Join(parts[1..])
  }

  /** The components a path keeps: neither empty nor ".". */
  predicate Kept(part: string) {
    part != "" && part != "."
  }

  function Significant(parts: seq<string>): seq<string> {
    if parts == [] then []
    else (if Kept(parts[0]) then [parts[0]] else []) + Significant(parts[1..])
  }

  function Components(name: string): seq<string> {
    Significant(Split(name))
  }

  /** Exactly two leading slashes are kept; one, or three and more, make the ordinary root. */
  function Root(name: string): string {
    if name == "" || name[0] != '/' then ""
    else if |name| >= 2 && name[1] == '/' && !(|name| >= 3 && name[2] == '/') then "//"
    else "/"
  }

  /** PurePosixPath(name).as_posix() */
  function AsPosix(name: string): string {
    var path := Root(name) + Join(Components(name));
    if path == "" then "." else path
  }

  /** PurePosixPath(name).parts */
  function Parts(name: string): seq<string> {
    (if Root(name) == "" then [] else [Root(name)]) + Components(name)
  }

  function ValidateEntryName(name: string): Option<string> {
    var normalized := AsPosix(name);
    if normalized == "" || normalized[0] == '/' || normalized == "."
       || ".." in Parts(normalized) || '\\' in name
    then None else Some(normalized)
  }

  // ---------------------------------------------------------------- splitting and rejoining

  predicate NoSlash(parts: seq<string>) {
    forall p | p in parts :: '/' !in p
  }

  lemma {:induction false} JoinUndoesSplit(s: string)
    ensures Join(Split(s)) == s && NoSlash(Split(s))
  {
    if s != "" {
      JoinUndoesSplit(s[1..]);
      var rest := Split(s[1..]);
      if s[0] == '/' {
        assert (["" ] + rest)[1..] == rest;
      } else {
        var parts := [[s[0]] + rest[0]] + rest[1..];
        assert parts[1..] == rest[1..];
        assert rest == [rest[0]] + rest[1..];
        if |parts| > 1 { assert Join(parts) == [s[0]] + Join(rest); }
      }
    }
  }

  lemma {:induction false} SplitFirst(part: string, rest: string)
    requires '/' !in part
    ensures Split(part) == [part]
    ensures Split(part + "/" + rest) == [part] + Split(rest)
  {
    if part == "" {
      assert (part + "/" + rest)[1..] == rest;
    } else {
      SplitFirst(part[1..], rest);
      assert (part + "/" + rest)[1..] == part[1..] + "/" + rest;
      assert part == [part[0]] + part[1..];
    }
  }

  lemma {:induction false} SplitUndoesJoin(parts: seq<string>)
    requires parts != [] && NoSlash(parts)
    ensures Split(Join(parts)) == parts
  {
    if |parts| == 1 {
      SplitFirst(parts[0], "");
    } else {
      assert parts == [parts[0]] + parts[1..] && parts[0] in parts;
      assert forall p | p in parts[1..] :: p in parts;
      SplitUndoesJoin(parts[1..]);
      SplitFirst(parts[0], Join(parts[1..]));
    }
  }

  lemma {:induction false} SignificantFacts(parts: seq<string>)
    ensures forall p :: p in Significant(parts) <==> p in parts && Kept(p)
  {
    if parts != [] { SignificantFacts(parts[1..]); }
  }

  lemma {:induction false} AllSignificant(parts: seq<string>)
    requires forall p | p in parts :: Kept(p)
    ensures Significant(parts) == parts
  {
    if parts != [] {
      AllSignificant(parts[1..]);
      assert Kept(parts[0]);
    }
  }

  /** Kept components make a relative path that has just these components. */
  lemma RejoinedPath(parts: seq<string>)
    requires parts != [] && NoSlash(parts) && forall p | p in parts :: Kept(p)
    ensures Root(Join(parts)) == "" && Components(Join(parts)) == parts && Split(Join(parts)) == parts
    ensures Join(parts) != "" && Join(parts) != "."
  {
    SplitUndoesJoin(parts);
    AllSignificant(parts);
    assert parts[0] in parts && Kept(parts[0]);
    assert Join(parts)[0] == parts[0][0];
    assert parts[0][0] in parts[0];
    if Join(parts) == "." { SplitFirst(".", ""); }
  }

  // ---------------------------------------------------------------- what validation means

  /** A name is safe when it is relative, has a component, never climbs, and has no backslash. */
  predicate Safe(name: string) {
    Root(name) == "" && Components(name) != [] && ".." !in Components(name) && '\\' !in name
  }

  lemma RootedIsRejected(name: string)
    requires Root(name) != ""
    ensures ValidateEntryName(name) == None
  {
    var path := Root(name) + Join(Components(name));
    assert path[0] == '/' && AsPosix(name) == path;
  }

  lemma RelativePath(name: string, parts: seq<string>)
    requires Root(name) == "" && parts == Components(name)
    ensures if parts == [] then AsPosix(name) == "."
            else AsPosix(name) == Join(parts) && Root(Join(parts)) == "" && Join(parts) != "." && Parts(Join(parts)) == parts
  {
    if parts != [] {
      JoinUndoesSplit(name);
      SignificantFacts(Split(name));
      RejoinedPath(parts);
      assert "" + Join(parts) == Join(parts);
    }
  }

  /** Exactly the safe names are accepted, as their components joined by single slashes. */
  lemma AcceptsExactlySafeNames(name: string)
    ensures ValidateEntryName(name) == if Safe(name) then Some(Join(Components(name))) else None
  {
    if Root(name) != "" {
      RootedIsRejected(name);
    } else {
      RelativePath(name, Components(name));
    }
  }

  lemma SignificantStep(part: string, rest: seq<string>)
    ensures Significant([part] + rest) == (if part == "" || part == "." then [] else [part]) + Significant(rest)
  {
    assert ([part] + rest)[1..] == rest;
  }

  /** What is kept of a path's parts: all but the empty ones and ".", in their order. */
  lemma {:induction false} KeptParts(before: seq<string>, part: string, after: seq<string>)
    ensures Significant(before + [part] + after)
         == Significant(before) + (if part == "" || part == "." then [] else [part]) + Significant(after)
  {
    hide *;
    if before == [] {
      NoParts();
      assert before + [part] + after == [part] + after;
      SignificantStep(part, after);
    } else {
      var first, rest := before[0], before[1..];
      KeptParts(rest, part, after);
      SignificantStep(first, rest + [part] + after);
      SignificantStep(first, rest);
      assert before == [first] + rest && before + [part] + after == [first] + (rest + [part] + after);
    }
  }

  lemma NoParts()
    ensures Significant([]) == []
  {
  }

  /** The check in terms of the name's parts between slashes: a name is refused when it is absolute, has a
      backslash, has a part "..", wherever it would lead, or has no part but empty ones and ".". */
  lemma ValidatesExactly(name: string)
    ensures ValidateEntryName(name).Some? <==>
            && !("/" <= name) && '\\' !in name && ".." !in Split(name)
            && exists p :: p in Split(name) && p != "" && p != "."
  {
    AcceptsExactlySafeNames(name);
    SignificantFacts(Split(name));
    assert Root(name) == "" <==> !("/" <= name);
    if Components(name) != [] { assert Components(name)[0] in Components(name); }
  }

  /** Validating a result again changes nothing; its components split and rejoin to it, and none is
      empty, ".", "..", or contains a slash or a backslash. */
  lemma NormalizationIsIdempotent(name: string)
    requires ValidateEntryName(name).Some?
    ensures var safe := ValidateEntryName(name).value;
            && ValidateEntryName(safe) == Some(safe)
            && Split(safe) == Components(name) == Components(safe) && Join(Split(safe)) == safe
            && forall p | p in Split(safe) :: p != "" && p != "." && p != ".." && '/' !in p && '\\' !in p
  {
    AcceptsExactlySafeNames(name);
    var parts := Components(name);
    JoinUndoesSplit(name);
    SignificantFacts(Split(name));
    RejoinedPath(parts);
    NoNewCharacters(name, '\\');
    JoinedCharacters(parts, '\\');
    AcceptsExactlySafeNames(Join(parts));
  }

  /** Splitting invents no characters. */
  lemma {:induction false} NoNewCharacters(s: string, c: char)
    requires c !in s
    ensures forall p | p in Split(s) :: c !in p
  {
    if s != "" {
      NoNewCharacters(s[1..], c);
      assert s[0] != c && c !in s[1..];
    }
  }

  lemma {:induction false} JoinedCharacters(parts: seq<string>, c: char)
    requires c != '/' && forall p | p in parts :: c !in p
    ensures c !in Join(parts)
  {
    if parts != [] { JoinedCharacters(parts[1..], c); }
  }

  // ---------------------------------------------------------------- resolving below a root

  /** The directory reached from one by following components, as a file system does. */
  function Walk(directory: seq<string>, parts: seq<string>): seq<string> {
    if parts == [] then directory
    else
      var before := Walk(directory, parts[..|parts| - 1]);
      var part := parts[|parts| - 1];
      if !Kept(part) then before
      else if part == ".." then (if before == [] then [] else before[..|before| - 1])
      else before + [part]
  }

  lemma {:induction false} WalkDown(root: seq<string>, parts: seq<string>)
    requires forall p | p in parts :: Kept(p) && p != ".."
    ensures Walk(root, parts) == root + parts
  {
    if parts != [] {
      var before, part := parts[..|parts| - 1], parts[|parts| - 1];
      WalkDown(root, before);
      assert part in parts;
      assert parts == before + [part];
      assert root + parts == (root + before) + [part];
    }
  }

  /** Resolved under any root, an accepted name never leaves it on the way and ends strictly below. */
  lemma StaysBelow(name: string, root: seq<string>, i: nat)
    requires ValidateEntryName(name).Some? && i <= |Split(ValidateEntryName(name).value)|
    ensures Walk(root, Split(ValidateEntryName(name).value)[..i]) == root + Split(ValidateEntryName(name).value)[..i]
    ensures |Split(ValidateEntryName(name).value)| > 0
  {
    hide ValidateEntryName, Walk, Split;
    NormalizationIsIdempotent(name);
    var parts := Split(ValidateEntryName(name).value);
    assert forall p | p in parts[..i] :: p in parts;
    WalkDown(root, parts[..i]);
  }

  // ---------------------------------------------------------------- names that validation leaves alone

  /** The name is already what validation would return. */
  predicate Normal(name: string) {
    ValidateEntryName(name) == Some(name)
  }

  /** A normal name is not a directory's name. */
  lemma NormalIsNoDirectory(name: string)
    requires Normal(name)
    ensures name != "" && name[|name| - 1] != '/'
  {
    NormalizationIsIdempotent(name);
    LastOfJoin(Split(name));
  }

  lemma {:induction false} LastOfJoin(parts: seq<string>)
    requires parts != [] && NoSlash(parts) && forall p | p in parts :: Kept(p)
    ensures Join(parts) != "" && Join(parts)[|Join(parts)| - 1] != '/'
  {
    assert parts[|parts| - 1] in parts;
    if |parts| == 1 {
      assert parts[0][|parts[0]| - 1] in parts[0];
    } else {
      LastOfJoin(parts[1..]);
    }
  }
}
