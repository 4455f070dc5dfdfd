/** SHA256SUMS: the file that lists every release asset, as it is written and as it is checked. */
module Checksums {
  import opened Names
  import opened Archive
  import opened Wrappers

  const CHECKSUM_FILE := "SHA256SUMS"

  /** The digest of each asset. */
  type Digests = map<string, string>

  // ---------------------------------------------------------------- ASCII text

  predicate IsAscii(text: string) {
    forall c | c in text :: c as int < 128
  }

  function Encode(text: string): Option<Bytes> {
    if IsAscii(text) then Some(Ascii(text)) else None
  }

  function Decode(data: Bytes): Option<string> {
    if forall b | b in data :: b < 128
    then Some(seq(|data|, i requires 0 <= i < |data| => (data[i] % 128) as char)) else None
  }

  lemma DecodeUndoesEncode(text: string)
    requires IsAscii(text)
    ensures Decode(Encode(text).value) == Some(text)
  {
    var data := Encode(text).value;
    forall i | 0 <= i < |text| ensures data[i] == text[i] as int && data[i] < 128 { assert text[i] in text; }
    assert Decode(data).value == text;
  }

  // ---------------------------------------------------------------- writing

  function Line(digest: string, name: string): string {
    digest + "  " + name
  }

  function Lines(names: seq<string>, digests: Digests): string
    requires forall n | n in names :: n in digests
  {
    if names == [] then ""
    else
      var last := names[|names| - 1];
      Lines(names[..|names| - 1], digests) + Line(digests[last], last) + "\n"
  }

  function Assets(sha: Bytes -> string, files: Entries): Digests {
    map n | n in files && n != CHECKSUM_FILE :: sha(files[n])
  }

  /** write_checksums: it fails when a name is not ASCII. */
  function WriteChecksums(sha: Bytes -> string, files: Entries): Option<Bytes> {
    var digests := Assets(sha, files);
    Encode(Lines(SortedKeys(digests.Keys), digests))
  }

  // ---------------------------------------------------------------- reading

  /** The characters at which splitlines() ends a line of ASCII text. */
  predicate IsBreak(c: char) {
    '\n' <= c <= '\r' || '\U{1C}' <= c <= '\U{1E}'
  }

  predicate OneLine(text: string) {
    forall c | c in text :: !IsBreak(c)
  }

  function LineEnd(text: string): (i: nat)
    ensures i <= |text| && (i < |text| ==> IsBreak(text[i])) && OneLine(text[..i])
  {
    if text == "" || IsBreak(text[0]) then 0
    else
      var i := 1 + LineEnd(text[1..]);
      assert text[..i] == [text[0]] + text[1..][..i - 1];
      i
  }

  /** A carriage return takes a following newline with it. */
  function BreakLength(text: string, i: nat): (n: nat)
    requires i < |text|
    ensures 0 < n && i + n <= |text|
  {
    if text[i] == '\r' && i + 1 < |text| && text[i + 1] == '\n' then 2 else 1
  }

  function SplitLines(text: string): seq<string> {
    if text == "" then []
    else
      var i := LineEnd(text);
      if i == |text| then [text] else [text[..i]] + SplitLines(text[i + BreakLength(text, i)..])
  }

  /** The position of the first double space, or the length. */
  function DoubleSpace(line: string): (i: nat)
    ensures i <= |line| && (i < |line| ==> i + 2 <= |line|)
  {
    if |line| < 2 then |line|
    else if line[0] == ' ' && line[1] == ' ' then 0
    else
      var i := 1 + DoubleSpace(line[1..]);
      i
  }

  function ParseLine(line: string): Option<(string, string)> {
    var i := DoubleSpace(line);
    if i == |line| then None else Some((line[..i], line[i + 2..]))
  }

  /** The dictionary the lines describe, where a later line of the same name wins. */
  function Parsed(lines: seq<string>): Option<Digests> {
    if lines == [] then Some(map[])
    else
      match (Parsed(lines[..|lines| - 1]), ParseLine(lines[|lines| - 1]))
      case (Some(m), Some((digest, name))) => Some(m[name := digest])
      case _ => None
  }

  /** verify_checksums on the decoded text. */
  predicate Covers(text: string, expected: Digests) {
    Parsed(SplitLines(text)) == Some(expected)
  }

  /** verify_checksums: the loop over the lines. */
  method VerifyChecksums(text: string, expected: Digests) returns (ok: bool)
    ensures ok <==> Covers(text, expected)
  {
    var lines := SplitLines(text);
    var actual: Digests := map[];
    for i := 0 to |lines|
      invariant Parsed(lines[..i]) == Some(actual)
    {
      assert lines[..i + 1][..i] == lines[..i];
      var parsed := ParseLine(lines[i]);
      if parsed == None {
        StaysUnparsed(lines, i + 1);
        return false;
      }
      actual := actual[parsed.value.1 := parsed.value.0];
    }
    assert lines[..|lines|] == lines;
    return actual == expected;
  }

  lemma {:induction false} StaysUnparsed(lines: seq<string>, i: nat)
    requires i <= |lines| && Parsed(lines[..i]) == None
    ensures Parsed(lines) == None
    decreases |lines|
  {
    if i < |lines| {
      assert lines[..|lines| - 1][..i] == lines[..i];
      StaysUnparsed(lines[..|lines| - 1], i);
    } else {
      assert lines[..i] == lines;
    }
  }

  // ---------------------------------------------------------------- round trip

  /** A digest has neither spaces nor line breaks. */
  predicate IsDigest(digest: string) {
    forall c | c in digest :: '0' <= c <= '9' || 'a' <= c <= 'f'
  }

  lemma {:induction false} FirstBreak(line: string, rest: string)
    requires OneLine(line) && rest != "" && IsBreak(rest[0])
    ensures LineEnd(line + rest) == |line|
  {
    if line == "" {
      assert line + rest == rest;
    } else {
      assert (line + rest)[1..] == line[1..] + rest;
      assert line[0] in line && forall c | c in line[1..] :: c in line;
      FirstBreak(line[1..], rest);
    }
  }

  /** A text that starts with a line and the break after it. */
  lemma SplitStep(text: string, i: nat)
    requires i < |text| && OneLine(text[..i]) && IsBreak(text[i])
    ensures SplitLines(text) == [text[..i]] + SplitLines(text[i + BreakLength(text, i)..])
    ensures LineEnd(text) == i
  {
    hide IsBreak, LineEnd, OneLine;
    FirstBreak(text[..i], text[i..]);
    assert text == text[..i] + text[i..];
  }

  lemma {:induction false} EndsInBreak(text: string)
    requires text != "" && IsBreak(text[|text| - 1])
    ensures LineEnd(text) < |text|
  {
    if !IsBreak(text[0]) { EndsInBreak(text[1..]); }
  }

  lemma {:induction false} SplitConcat(a: string, b: string)
    requires a == "" || a[|a| - 1] == '\n'
    ensures SplitLines(a + b) == SplitLines(a) + SplitLines(b)
  {
    hide SplitLines, LineEnd;
    if a == "" {
      assert a + b == b;
      NoLines();
    } else {
      var i := LineEnd(a);
      EndsInBreak(a);
      SplitStep(a, i);
      var n := BreakLength(a, i);
      assert (a + b)[..i] == a[..i] && (a + b)[i + n..] == a[i + n..] + b;
      SplitStep(a + b, i);
      SplitConcat(a[i + n..], b);
      assert [a[..i]] + (SplitLines(a[i + n..]) + SplitLines(b)) == ([a[..i]] + SplitLines(a[i + n..])) + SplitLines(b);
    }
  }

  lemma NoLines()
    ensures SplitLines("") == []
  {
  }

  lemma SplitOne(line: string)
    requires OneLine(line)
    ensures SplitLines(line + "\n") == [line]
  {
    FirstBreak(line, "\n");
    var text := line + "\n";
    assert text[..|line|] == line && text[|line| + 1..] == "";
    assert SplitLines("") == [];
  }

  lemma {:induction false} FirstDoubleSpace(digest: string, name: string)
    requires IsDigest(digest)
    ensures DoubleSpace(Line(digest, name)) == |digest|
  {
    if digest != "" {
      assert Line(digest, name)[1..] == Line(digest[1..], name);
      assert digest[0] in digest && forall c | c in digest[1..] :: c in digest;
      FirstDoubleSpace(digest[1..], name);
    }
  }

  lemma ParsesBack(digest: string, name: string)
    requires IsDigest(digest)
    ensures ParseLine(Line(digest, name)) == Some((digest, name))
  {
    FirstDoubleSpace(digest, name);
    var line := Line(digest, name);
    assert line[..|digest|] == digest && line[|digest| + 2..] == name;
  }

  lemma WrittenLine(digest: string, name: string)
    requires IsDigest(digest) && OneLine(name)
    ensures SplitLines(Line(digest, name) + "\n") == [Line(digest, name)]
    ensures ParseLine(Line(digest, name)) == Some((digest, name))
  {
    assert OneLine(Line(digest, name));
    SplitOne(Line(digest, name));
    ParsesBack(digest, name);
  }

  lemma NothingParsed()
    ensures Parsed(SplitLines("")) == Some(map[])
  {
  }

  lemma ParsedOneMore(lines: seq<string>, line: string)
    requires Parsed(lines).Some? && ParseLine(line).Some?
    ensures Parsed(lines + [line]) == Some(Parsed(lines).value[ParseLine(line).value.1 := ParseLine(line).value.0])
  {
    assert (lines + [line])[..|lines|] == lines;
  }

  function Listed(names: seq<string>, digests: Digests): Digests
    requires forall n | n in names :: n in digests
  {
    map n | n in names :: digests[n]
  }

  lemma OneMoreLine(before: seq<string>, last: string, digests: Digests)
    requires forall n | n in before + [last] :: n in digests
    ensures (forall n | n in before :: n in digests) && last in digests
    ensures Lines(before + [last], digests) == Lines(before, digests) + (Line(digests[last], last) + "\n")
    ensures Listed(before + [last], digests) == Listed(before, digests)[last := digests[last]]
  {
    hide Line;
    assert (before + [last])[..|before|] == before && last in before + [last];
    forall n | n in before ensures n in digests { assert n in before + [last]; }
  }

  lemma {:induction false} LinesParseBack(names: seq<string>, digests: Digests)
    requires forall n | n in names :: n in digests && OneLine(n)
    requires forall n | n in digests :: IsDigest(digests[n])
    ensures Parsed(SplitLines(Lines(names, digests))) == Some(Listed(names, digests))
    ensures Lines(names, digests) == "" || Lines(names, digests)[|Lines(names, digests)| - 1] == '\n'
  {
    hide SplitLines, Parsed, ParseLine, OneLine, IsDigest, Line;
    NothingParsed();
    if names != [] {
      hide Lines, Listed;
      var before, last := names[..|names| - 1], names[|names| - 1];
      assert names == before + [last] && last in names;
      OneMoreLine(before, last, digests);
      LinesParseBack(before, digests);
      var line := Line(digests[last], last);
      WrittenLine(digests[last], last);
      SplitConcat(Lines(before, digests), line + "\n");
      ParsedOneMore(SplitLines(Lines(before, digests)), line);
    }
  }

  lemma {:induction false} SplitLinesAreLines(text: string)
    ensures forall l | l in SplitLines(text) :: OneLine(l)
  {
    if text != "" {
      var i := LineEnd(text);
      if i < |text| {
        SplitLinesAreLines(text[i + BreakLength(text, i)..]);
      } else {
        assert text[..i] == text;
      }
    }
  }

  lemma {:induction false} ParsedNamesAreLines(lines: seq<string>)
    requires forall l | l in lines :: OneLine(l)
    ensures Parsed(lines).Some? ==> forall n | n in Parsed(lines).value :: OneLine(n)
  {
    if lines != [] {
      var last := lines[|lines| - 1];
      assert last in lines && forall l | l in lines[..|lines| - 1] :: l in lines;
      ParsedNamesAreLines(lines[..|lines| - 1]);
      var i := DoubleSpace(last);
      if i < |last| { assert forall c | c in last[i + 2..] :: c in last; }
    }
  }

  /** Print, then parse: what was written is read back exactly, if and only if no asset's name holds a
      line break. Double spaces in names do no harm. */
  lemma RoundTrip(digests: Digests)
    requires forall n | n in digests :: IsDigest(digests[n])
    ensures Covers(Lines(SortedKeys(digests.Keys), digests), digests) <==> forall n | n in digests :: OneLine(n)
  {
    hide SortedKeys, SplitLines, Parsed, Lines, IsDigest, OneLine;
    var names := SortedKeys(digests.Keys);
    var text := Lines(names, digests);
    if forall n | n in digests :: OneLine(n) {
      LinesParseBack(names, digests);
      assert Listed(names, digests) == digests;
    } else {
      SplitLinesAreLines(text);
      ParsedNamesAreLines(SplitLines(text));
    }
  }

  // ---------------------------------------------------------------- directories

  ghost predicate Hashes(sha: Bytes -> string) {
    forall data :: IsDigest(sha(data))
  }

  ghost predicate Injective(sha: Bytes -> string) {
    forall a, b :: sha(a) == sha(b) ==> a == b
  }

  /** verify_checksums on a release directory. */
  predicate ChecksumsHold(sha: Bytes -> string, dist: Entries) {
    CHECKSUM_FILE in dist
    && var text := Decode(dist[CHECKSUM_FILE]);
       text.Some? && Covers(text.value, Assets(sha, dist))
  }

  /** A directory passes with its own checksum file exactly when its names are single lines. */
  lemma WrittenChecksumsHold(sha: Bytes -> string, files: Entries)
    requires Hashes(sha) && WriteChecksums(sha, files).Some?
    ensures ChecksumsHold(sha, files[CHECKSUM_FILE := WriteChecksums(sha, files).value])
            <==> forall n | n in files && n != CHECKSUM_FILE :: OneLine(n)
  {
    var digests := Assets(sha, files);
    var sums := WriteChecksums(sha, files).value;
    assert Assets(sha, files[CHECKSUM_FILE := sums]) == digests;
    DecodeUndoesEncode(Lines(SortedKeys(digests.Keys), digests));
    RoundTrip(digests);
  }

  /** And with a collision-free hash no other set of assets passes with that file. */
  lemma ChecksumsIdentifyAssets(sha: Bytes -> string, files: Entries, other: Entries)
    requires Hashes(sha) && Injective(sha) && WriteChecksums(sha, files).Some?
    requires forall n | n in files :: OneLine(n)
    requires CHECKSUM_FILE !in files && CHECKSUM_FILE !in other
    ensures ChecksumsHold(sha, other[CHECKSUM_FILE := WriteChecksums(sha, files).value]) <==> other == files
  {
    hide Parsed, SplitLines, Lines, SortedKeys, Decode, IsDigest, OneLine, Injective;
    var digests := Assets(sha, files);
    var sums := WriteChecksums(sha, files).value;
    var text := Lines(SortedKeys(digests.Keys), digests);
    DecodeUndoesEncode(text);
    RoundTrip(digests);
    var claimed := Assets(sha, other[CHECKSUM_FILE := sums]);
    assert claimed == Assets(sha, other);
    AssetsDetermine(sha, files, other);
  }

  lemma AssetsDetermine(sha: Bytes -> string, files: Entries, other: Entries)
    requires Injective(sha) && CHECKSUM_FILE !in files && CHECKSUM_FILE !in other
    ensures Assets(sha, other) == Assets(sha, files) <==> other == files
  {
    var claimed, digests := Assets(sha, other), Assets(sha, files);
    if claimed == digests {
      assert claimed.Keys == other.Keys && digests.Keys == files.Keys;
      forall n | n in files ensures other[n] == files[n] { assert claimed[n] == digests[n]; }
      assert other == files;
    }
  }

  // ---------------------------------------------------------------- when it can be written

  lemma AsciiParts(a: string, b: string)
    ensures IsAscii(a + b) <==> IsAscii(a) && IsAscii(b)
  {
    forall c | c in a || c in b ensures c in a + b {}
  }

  lemma {:induction false} AsciiLines(names: seq<string>, digests: Digests)
    requires (forall n | n in names :: n in digests) && forall n | n in digests :: IsDigest(digests[n])
    ensures IsAscii(Lines(names, digests)) <==> forall n | n in names :: IsAscii(n)
  {
    if names != [] {
      hide IsAscii;
      var before, last := names[..|names| - 1], names[|names| - 1];
      assert names == before + [last] && last in names;
      AsciiLines(before, digests);
      AsciiParts(Lines(before, digests) + Line(digests[last], last), "\n");
      AsciiParts(Lines(before, digests), Line(digests[last], last));
      AsciiParts(digests[last] + "  ", last);
      AsciiParts(digests[last], "  ");
      AsciiPunctuation(digests[last]);
    }
  }

  lemma AsciiPunctuation(digest: string)
    requires IsDigest(digest)
    ensures IsAscii(digest) && IsAscii("  ") && IsAscii("\n")
  {
  }

  /** The file can be written exactly when every name is ASCII. */
  lemma WrittenExactlyForAsciiNames(sha: Bytes -> string, files: Entries)
    requires Hashes(sha)
    ensures WriteChecksums(sha, files).Some? <==> forall n | n in files && n != CHECKSUM_FILE :: IsAscii(n)
  {
    hide SortedKeys, IsAscii, IsDigest;
    var digests := Assets(sha, files);
    AsciiLines(SortedKeys(digests.Keys), digests);
    assert forall n :: n in SortedKeys(digests.Keys) <==> n in files && n != CHECKSUM_FILE;
  }

  // ---------------------------------------------------------------- what reading and writing do

  /** Where a line is split: at its first double space, and a line without one is refused. */
  lemma ParsesAtFirstDoubleSpace(line: string)
    ensures ParseLine(line).None? <==> forall i | 0 <= i < |line| - 1 :: line[i] != ' ' || line[i + 1] != ' '
    ensures ParseLine(line).Some? ==>
              var (digest, name) := ParseLine(line).value;
              line == digest + "  " + name && forall i | 0 <= i < |digest| :: line[i] != ' ' || line[i + 1] != ' '
  {
    hide DoubleSpace;
    FirstDoubleSpaceOf(line);
    var i := DoubleSpace(line);
    if i < |line| { AroundSpaces(line, i); }
  }

  lemma AroundSpaces(line: string, i: nat)
    requires i + 2 <= |line| && line[i] == ' ' && line[i + 1] == ' '
    ensures line == line[..i] + "  " + line[i + 2..]
  {
    assert line[i..i + 2] == "  ";
    assert line == line[..i] + line[i..i + 2] + line[i + 2..];
  }

  lemma {:induction false} FirstDoubleSpaceOf(line: string)
    ensures var d := DoubleSpace(line);
            && (d < |line| ==> line[d] == ' ' && line[d + 1] == ' ')
            && forall i | 0 <= i < d && i + 1 < |line| :: line[i] != ' ' || line[i + 1] != ' '
  {
    if |line| >= 2 && !(line[0] == ' ' && line[1] == ' ') {
      FirstDoubleSpaceOf(line[1..]);
      var d := DoubleSpace(line);
      forall i | 0 <= i < d && i + 1 < |line| ensures line[i] != ' ' || line[i + 1] != ' ' {
        if i > 0 { assert line[1..][i - 1] == line[i] && line[1..][i] == line[i + 1]; }
      }
    }
  }

  /** Where a text is split: after "\n", "\r\n", "\r", a vertical tab, a form feed or one of the separators
      1C to 1E, and nowhere else. */
  lemma SplitsAtBreaks(line: string, end: string, rest: string)
    requires forall c | c in line :: c !in "\n\r\U{0B}\U{0C}\U{1C}\U{1D}\U{1E}"
    requires end == "\r\n" || (|end| == 1 && end[0] in "\n\r\U{0B}\U{0C}\U{1C}\U{1D}\U{1E}")
    requires end == "\r" && rest != "" ==> rest[0] != '\n'
    ensures SplitLines("") == [] && (line != "" ==> SplitLines(line) == [line])
    ensures SplitLines(line + end + rest) == [line] + SplitLines(rest)
  {
    BreaksAreThese();
    var text := line + end + rest;
    Sliced(line, end, rest);
    assert OneLine(line);
    SplitStep(text, |line|);
    NoBreak(line);
  }

  lemma Sliced(a: string, b: string, c: string)
    ensures (a + b + c)[..|a|] == a && (a + b + c)[|a| + |b|..] == c
    ensures forall i | 0 <= i < |b| :: (a + b + c)[|a| + i] == b[i]
    ensures c != "" ==> (a + b + c)[|a| + |b|] == c[0]
  {
  }

  lemma BreaksAreThese()
    ensures forall c: char :: IsBreak(c) <==> c in "\n\r\U{0B}\U{0C}\U{1C}\U{1D}\U{1E}"
  {
    var breaks := "\n\r\U{0B}\U{0C}\U{1C}\U{1D}\U{1E}";
    assert breaks[0] == '\n' && breaks[1] == '\r' && breaks[2] == '\U{0B}' && breaks[3] == '\U{0C}';
    assert breaks[4] == '\U{1C}' && breaks[5] == '\U{1D}' && breaks[6] == '\U{1E}';
    forall c: char ensures IsBreak(c) <==> c in breaks {}
  }

  lemma {:induction false} NoBreak(line: string)
    requires OneLine(line)
    ensures LineEnd(line) == |line|
  {
    if line != "" {
      assert line[0] in line && forall c | c in line[1..] :: c in line;
      NoBreak(line[1..]);
    }
  }

  /** The written file has one line for each asset, in the order of their names' code points: the digest, two
      spaces and the name. */
  lemma WrittenLinesAscend(digests: Digests) returns (names: seq<string>)
    requires forall n | n in digests :: IsDigest(digests[n]) && OneLine(n)
    ensures Ascending(names) && forall n :: n in names <==> n in digests
    ensures var lines := SplitLines(Lines(SortedKeys(digests.Keys), digests));
            |lines| == |names| && forall i | 0 <= i < |names| ::
              names[i] in digests && lines[i] == digests[names[i]] + "  " + names[i]
  {
    hide SplitLines, Lines, Precedes, Less, OneLine, IsDigest;
    names := SortedKeys(digests.Keys);
    AscendingByLess(names);
    SplitWritten(names, digests);
  }

  lemma {:induction false} SplitWritten(names: seq<string>, digests: Digests)
    requires forall n | n in names :: n in digests && OneLine(n)
    requires forall n | n in digests :: IsDigest(digests[n])
    ensures var lines := SplitLines(Lines(names, digests));
            |lines| == |names| && forall i | 0 <= i < |names| ::
              names[i] in digests && lines[i] == digests[names[i]] + "  " + names[i]
  {
    hide *;
    if names == [] {
      NothingWritten(digests);
    } else {
      var before, last := names[..|names| - 1], names[|names| - 1];
      assert names == before + [last] && last in names;
      SplitMore(before, last, digests);
      SplitWritten(before, digests);
    }
  }

  lemma NothingWritten(digests: Digests)
    ensures SplitLines(Lines([], digests)) == []
  {
  }

  lemma SplitMore(before: seq<string>, last: string, digests: Digests)
    requires forall n | n in before + [last] :: n in digests && OneLine(n)
    requires forall n | n in digests :: IsDigest(digests[n])
    ensures forall n | n in before :: n in digests
    ensures SplitLines(Lines(before + [last], digests))
         == SplitLines(Lines(before, digests)) + [digests[last] + "  " + last]
  {
    hide SplitLines, OneLine, IsDigest, Parsed, ParseLine, Lines;
    assert last in before + [last] && forall n | n in before :: n in before + [last];
    OneMoreLine(before, last, digests);
    LinesParseBack(before, digests);
    WrittenLine(digests[last], last);
    SplitConcat(Lines(before, digests), Line(digests[last], last) + "\n");
  }
}
