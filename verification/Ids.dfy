/** Artifact identifiers: names, prefixes, and the textual form used as a catalog key. */
module Ids {
  import opened Prelude
  import opened Strings

  const UNSUPPORTED_CHARS: string := "@:.-/"

  /** An identifier; `version` holds the printed semantic version. */
  datatype Id = Id(name: string, package: Option<string>, version: Option<string>, arch: Option<string>, digest: string)

  // Names

  function Replace(s: string, c: char): (r: string)
    ensures |r| == |s| && forall i :: 0 <= i < |s| ==> r[i] == if s[i] == c then '_' else s[i]
  {
    if s == [] then [] else [if s[0] == c then '_' else s[0]] + Replace(s[1..], c)
  }

  function ReplaceAll(s: string, cs: string): string
    decreases |cs|
  {
    if cs == [] then s else ReplaceAll(Replace(s, cs[0]), cs[1..])
  }

  function TrimStart(s: string): string {
    if s != [] && s[0] == '_' then TrimStart(s[1..]) else s
  }

  function ParseName(value: string): string {
    TrimStart(ReplaceAll(StripPrefix(StripPrefix(value, "http://"), "https://"), UNSUPPORTED_CHARS))
  }

  /** What a name looks like after parsing. */
  predicate IsName(s: string) {
    (forall c :: c in s ==> c !in UNSUPPORTED_CHARS) && (s != [] ==> s[0] != '_')
  }

  lemma {:induction false} ReplaceAllClears(s: string, cs: string, kept: string)
    requires '_' !in cs && '_' !in kept && forall c :: c in s ==> c !in kept
    ensures forall c :: c in ReplaceAll(s, cs) ==> c !in cs && c !in kept
    decreases |cs|
  {
    if cs == [] {
    } else {
      var r := Replace(s, cs[0]);
      forall c | c in r
        ensures c != cs[0] && c !in kept
      {
        var i :| 0 <= i < |r| && r[i] == c;
        assert s[i] in s;
      }
      ReplaceAllClears(r, cs[1..], kept + [cs[0]]);
      assert cs == [cs[0]] + cs[1..];
    }
  }

  lemma {:induction false} ReplaceAllIdle(s: string, cs: string)
    requires forall c :: c in s ==> c !in cs
    ensures ReplaceAll(s, cs) == s
    decreases |cs|
  {
    if cs == [] {
    } else {
      assert Replace(s, cs[0]) == s by {
        forall i | 0 <= i < |s|
          ensures s[i] != cs[0]
        {
          assert s[i] in s;
        }
      }
      ReplaceAllIdle(s, cs[1..]);
    }
  }

  lemma {:induction false} TrimStartTrims(s: string)
    ensures |TrimStart(s)| <= |s| && s[|s| - |TrimStart(s)|..] == TrimStart(s)
    ensures TrimStart(s) != [] ==> TrimStart(s)[0] != '_'
  {
    if s != [] && s[0] == '_' {
      TrimStartTrims(s[1..]);
    }
  }

  lemma {:induction false} ReplaceAllLength(s: string, cs: string)
    ensures |ReplaceAll(s, cs)| == |s|
    decreases |cs|
  {
    if cs == [] {
    } else {
      ReplaceAllLength(Replace(s, cs[0]), cs[1..]);
    }
  }

  /** Parsing yields a name that is no longer than its input. */
  lemma ParsedIsName(value: string)
    ensures IsName(ParseName(value)) && |ParseName(value)| <= |value|
  {
    var stripped := StripPrefix(StripPrefix(value, "http://"), "https://");
    var cleared := ReplaceAll(stripped, UNSUPPORTED_CHARS);
    ReplaceAllClears(stripped, UNSUPPORTED_CHARS, "");
    ReplaceAllLength(stripped, UNSUPPORTED_CHARS);
    TrimStartTrims(cleared);
    forall c | c in ParseName(value)
      ensures c !in UNSUPPORTED_CHARS
    {
      assert c in cleared[|cleared| - |ParseName(value)|..];
      assert c in cleared;
    }
  }

  /** A character of a name. */
  function Clean(c: char): char {
    if c == '@' || c == ':' || c == '.' || c == '-' || c == '/' then '_' else c
  }

  lemma {:induction false} ReplaceAllAt(s: string, cs: string, i: nat)
    requires i < |s| && '_' !in cs
    ensures |ReplaceAll(s, cs)| == |s| && ReplaceAll(s, cs)[i] == if s[i] in cs then '_' else s[i]
    decreases |cs|
  {
    if cs == [] {
    } else {
      var r := Replace(s, cs[0]);
      ReplaceAllAt(r, cs[1..], i);
      assert cs == [cs[0]] + cs[1..];
    }
  }

  lemma {:induction false} TrimStartCut(s: string)
    ensures var k := |s| - |TrimStart(s)|;
            0 <= k && TrimStart(s) == s[k..] && forall i :: 0 <= i < k ==> s[i] == '_'
  {
    if s != [] && s[0] == '_' {
      TrimStartCut(s[1..]);
    }
  }

  /** The value without the scheme of a URL. */
  function Stripped(value: string): string {
    StripPrefix(StripPrefix(value, "http://"), "https://")
  }

  lemma StrippedSchemes(rest: string)
    ensures Stripped("https://" + rest) == rest
    ensures !("https://" <= rest) ==> Stripped("http://" + rest) == rest
    ensures !("http://" <= rest) && !("https://" <= rest) ==> Stripped(rest) == rest
  {
    var https, http := "https://" + rest, "http://" + rest;
    assert https[4] == 's' && !("http://" <= https) by {
      assert "http://"[4] == ':';
    }
    assert https[8..] == rest && http[7..] == rest;
  }

  /** A parsed name is the value without its scheme, cleaned character by character, without leading underscores. */
  lemma ParseNameShape(value: string) returns (k: nat)
    ensures var s := CleanAll(Stripped(value));
            k <= |s| && ParseName(value) == s[k..] && (forall i :: 0 <= i < k ==> s[i] == '_') && (k < |s| ==> s[k] != '_')
  {
    var s := CleanAll(Stripped(value));
    ClearedIsClean(Stripped(value));
    assert ReplaceAll(Stripped(value), UNSUPPORTED_CHARS) == s;
    TrimStartCut(s);
    TrimStartTrims(s);
    k := |s| - |TrimStart(s)|;
  }

  function CleanAll(s: string): (r: string)
    ensures |r| == |s| && forall i :: 0 <= i < |s| ==> r[i] == Clean(s[i])
  {
    if s == [] then [] else [Clean(s[0])] + CleanAll(s[1..])
  }

  lemma ClearedIsClean(s: string)
    ensures |ReplaceAll(s, UNSUPPORTED_CHARS)| == |s|
    ensures forall i :: 0 <= i < |s| ==> ReplaceAll(s, UNSUPPORTED_CHARS)[i] == Clean(s[i])
  {
    ReplaceAllLength(s, UNSUPPORTED_CHARS);
    UnsupportedListed();
    forall i | 0 <= i < |s|
      ensures ReplaceAll(s, UNSUPPORTED_CHARS)[i] == Clean(s[i])
    {
      ReplaceAllAt(s, UNSUPPORTED_CHARS, i);
    }
  }

  lemma UnsupportedListed()
    ensures forall c :: c in UNSUPPORTED_CHARS <==> c == '@' || c == ':' || c == '.' || c == '-' || c == '/'
  {
    assert UNSUPPORTED_CHARS == ['@', ':', '.', '-', '/'];
    assert UNSUPPORTED_CHARS[0] == '@' && UNSUPPORTED_CHARS[1] == ':' && UNSUPPORTED_CHARS[2] == '.';
    assert UNSUPPORTED_CHARS[3] == '-' && UNSUPPORTED_CHARS[4] == '/';
  }

  lemma NoScheme(s: string, scheme: string, colon: nat)
    requires IsName(s) && colon < |scheme| && scheme[colon] == ':'
    ensures !(scheme <= s)
  {
    assert colon < |s| ==> s[colon] in s;
  }

  /** Parsing leaves exactly the well-formed names alone. */
  lemma NameIsFixpoint(s: string)
    ensures ParseName(s) == s <==> IsName(s)
  {
    ParsedIsName(s);
    if IsName(s) {
      NoScheme(s, "http://", 4);
      NoScheme(s, "https://", 5);
      ReplaceAllIdle(s, UNSUPPORTED_CHARS);
    }
  }

  lemma ParseNameIdempotent(s: string)
    ensures ParseName(ParseName(s)) == ParseName(s)
  {
    ParsedIsName(s);
    NameIsFixpoint(ParseName(s));
  }

  // Printing and parsing

  /** Everything but the digest. */
  function Prefix(id: Id): string {
    (match id.package case Some(p) => p + "+" case None => "")
    + Stem(id)
  }

  function Stem(id: Id): string {
    id.name
    + (match id.version case Some(v) => "-" + v case None => "")
    + (match id.arch case Some(a) => "." + a case None => "")
  }

  function Print(id: Id): string {
    Prefix(id) + "-" + id.digest
  }

  datatype Parsed =
    | Parsed(id: Id)
    | NotAnId
    | BadVersion
    | Panics  // `unwrap` on a split that found no separator

  /** The parser; `isVersion` recognises semantic versions. */
  function Parse(s: string, isVersion: string -> bool): Parsed {
    if '+' in s then
      var (l, r) := SplitOnce(s, '+');
      ParseRest(Some(ParseName(l)), r, isVersion)
    else ParseRest(None, s, isVersion)
  }

  function ParseRest(package: Option<string>, s: string, isVersion: string -> bool): Parsed {
    FromSegments(package, Split(s, '-'), isVersion)
  }

  function FromSegments(package: Option<string>, segments: seq<string>, isVersion: string -> bool): Parsed {
    if |segments| == 2 then
      var (name, arch) := if '.' in segments[0] then
        (SplitOnce(segments[0], '.').0, Some(SplitOnce(segments[0], '.').1))
      else (segments[0], None);
      Parsed(Id(ParseName(name), package, None, arch, segments[1]))
    else if |segments| == 3 then
      if '.' in segments[1] && '.' !in segments[0] then Panics
      else
        var (version, arch) := if '.' in segments[1] then
          (SplitOnce(segments[0], '.').0, Some(SplitOnce(segments[0], '.').1))
        else (segments[0], None);
        if !isVersion(version) then BadVersion
        else Parsed(Id(ParseName(segments[0]), package, Some(version), arch, segments[1]))
    else NotAnId
  }

  /** The names inside an identifier have been through `ParseName`. */
  predicate NamesParsed(id: Id) {
    IsName(id.name) && (id.package.Some? ==> IsName(id.package.value))
  }

  /** No field holds a separator where the parser would take it for one. */
  predicate Separable(id: Id) {
    && (match id.package
        case Some(p) => '+' !in p
        case None => '+' !in id.name && '+' !in id.digest && (id.arch.Some? ==> '+' !in id.arch.value))
    && '-' !in id.digest
    && (id.arch.Some? ==> '-' !in id.arch.value)
  }

  lemma PlusInStem(id: Id)
    requires id.version.None?
    ensures '+' in Stem(id) + "-" + id.digest <==>
              '+' in id.name || '+' in id.digest || (id.arch.Some? && '+' in id.arch.value)
  {
  }

  /** What the parser makes of the part behind the package. */
  lemma ParsesRest(id: Id, isVersion: string -> bool)
    requires id.version.None? && IsName(id.name)
    ensures var r := ParseRest(id.package, Stem(id) + "-" + id.digest, isVersion);
            if '-' !in id.digest && (id.arch.Some? ==> '-' !in id.arch.value) then r == Parsed(id)
            else r.Parsed? ==> r.id.version.Some?
  {
    SplitAt(Stem(id), '-', id.digest);
    assert Stem(id) + "-" + id.digest == Stem(id) + ['-'] + id.digest;
    assert '-' in Stem(id) <==> id.arch.Some? && '-' in id.arch.value;
    if '-' in id.digest {
      SplitMore(id.digest, '-');
    } else if '-' in Stem(id) {
      SplitMore(Stem(id), '-');
    } else {
      SplitWhole(Stem(id), '-');
      SplitWhole(id.digest, '-');
      SplitStem(id);
    }
  }

  lemma SplitStem(id: Id)
    requires id.version.None? && IsName(id.name)
    ensures '.' in Stem(id) <==> id.arch.Some?
    ensures SplitOnce(Stem(id), '.') == (id.name, if id.arch.Some? then id.arch.value else "")
    ensures ParseName(id.name) == id.name
  {
    NameIsFixpoint(id.name);
    if id.arch.Some? {
      assert Stem(id) == id.name + ['.'] + id.arch.value;
      SplitOnceAt(id.name, '.', id.arch.value);
    } else {
      assert Stem(id) == id.name;
    }
  }

  /** For identifiers without a version, parsing inverts printing exactly on the separable ones. */
  lemma PlainRoundTrip(id: Id, isVersion: string -> bool)
    requires id.version.None? && NamesParsed(id)
    ensures Parse(Print(id), isVersion) == Parsed(id) <==> Separable(id)
  {
    var rest := Stem(id) + "-" + id.digest;
    ParsesRest(id, isVersion);
    match id.package
    case None =>
      assert Print(id) == rest;
      PlusInStem(id);
      if '+' in rest {
        PackageFound(rest, isVersion);
      }
    case Some(p) =>
      assert Print(id) == p + ['+'] + rest;
      if '+' in p {
        PackageFound(p + ['+'] + rest, isVersion);
        ShorterPackage(p, rest);
      } else {
        PackageSplits(p, rest);
      }
  }

  /** Everything before the first plus becomes the package. */
  lemma PackageFound(s: string, isVersion: string -> bool)
    requires '+' in s
    ensures var r := Parse(s, isVersion); r.Parsed? ==> r.id.package == Some(ParseName(SplitOnce(s, '+').0))
  {
  }

  lemma ShorterPackage(p: string, rest: string)
    requires '+' in p
    ensures |ParseName(SplitOnce(p + ['+'] + rest, '+').0)| < |p|
  {
    SplitOnceFirst(p, '+', rest);
    ParsedIsName(SplitOnce(p, '+').0);
  }

  /** Distinct identifiers of the well-behaved kind have distinct texts. */
  lemma PrintInjective(a: Id, b: Id)
    requires a.version.None? && NamesParsed(a) && Separable(a)
    requires b.version.None? && NamesParsed(b) && Separable(b)
    requires Print(a) == Print(b)
    ensures a == b
  {
    PlainRoundTrip(a, v => true);
    PlainRoundTrip(b, v => true);
  }

  /** Two dashes make the parser look for a version in the name: it panics on the dot behind it, or gives up. */
  lemma VersionedRestFails(package: Option<string>, name: string, tail: string, digest: string, isVersion: string -> bool)
    requires '-' !in name && '.' !in name && '.' in tail
    ensures !ParseRest(package, name + ['-'] + (tail + ['-'] + digest), isVersion).Parsed?
  {
    SplitAt(name, '-', tail + ['-'] + digest);
    SplitAt(tail, '-', digest);
    SplitWhole(name, '-');
    if '-' in tail {
      SplitMore(tail, '-');
    } else {
      SplitWhole(tail, '-');
    }
  }

  /** What is printed behind the version up to the digest. */
  function Tail(id: Id): string
    requires id.version.Some?
  {
    id.version.value + (match id.arch case Some(a) => "." + a case None => "")
  }

  lemma VersionedRest(id: Id)
    requires id.version.Some?
    ensures Stem(id) + "-" + id.digest == id.name + ['-'] + (Tail(id) + ['-'] + id.digest)
    ensures '.' in id.version.value ==> '.' in Tail(id)
  {
  }

  /** No printed identifier with a version parses back to itself, whatever its other fields hold. */
  lemma VersionedDiffers(id: Id, isVersion: string -> bool)
    requires id.version.Some? && '.' in id.version.value && NamesParsed(id)
    ensures Parse(Print(id), isVersion) != Parsed(id)
  {
    var rest := Stem(id) + "-" + id.digest;
    VersionedRest(id);
    VersionedRestFails(id.package, id.name, Tail(id), id.digest, isVersion);
    match id.package
    case None =>
      assert Print(id) == rest;
      if '+' in rest {
        PackageFound(rest, isVersion);
      }
    case Some(p) =>
      assert Print(id) == p + ['+'] + rest;
      if '+' in p {
        PackageFound(p + ['+'] + rest, isVersion);
        ShorterPackage(p, rest);
      } else {
        PackageSplits(p, rest);
      }
  }

  /** Parsing inverts printing exactly on the separable identifiers without a version. */
  lemma RoundTrip(id: Id, isVersion: string -> bool)
    requires NamesParsed(id) && (id.version.Some? ==> '.' in id.version.value)
    ensures Parse(Print(id), isVersion) == Parsed(id) <==> id.version.None? && Separable(id)
  {
    if id.version.None? {
      PlainRoundTrip(id, isVersion);
    } else {
      VersionedDiffers(id, isVersion);
    }
  }

  /** Printing a released version in a separable identifier makes the parser panic. */
  lemma VersionedPanics(id: Id, isVersion: string -> bool)
    requires id.version.Some? && '.' in id.version.value && NamesParsed(id) && Separable(id)
    requires '-' !in id.version.value && '+' !in id.version.value
    ensures Parse(Print(id), isVersion) == Panics
  {
    VersionedRest(id);
    assert '-' !in Tail(id);
    VersionedRestPanics(id.package, id.name, Tail(id), id.digest, isVersion);
    VersionedPrint(id, Tail(id), id.name + ['-'] + (Tail(id) + ['-'] + id.digest));
  }

  lemma VersionedPrint(id: Id, tail: string, rest: string)
    requires NamesParsed(id) && Separable(id)
    requires rest == id.name + ['-'] + (tail + ['-'] + id.digest) == Stem(id) + "-" + id.digest
    requires id.package.None? ==> '+' !in tail
    ensures forall isVersion :: Parse(Print(id), isVersion) == ParseRest(id.package, rest, isVersion)
  {
    match id.package
    case None =>
      assert Print(id) == rest;
    case Some(p) =>
      assert Print(id) == p + ['+'] + rest;
      PackageSplits(p, rest);
  }

  /** A printed package is split off and kept as it is. */
  lemma PackageSplits(p: string, rest: string)
    requires IsName(p) && '+' !in p
    ensures '+' in p + ['+'] + rest && SplitOnce(p + ['+'] + rest, '+') == (p, rest) && ParseName(p) == p
  {
    NameIsFixpoint(p);
    SplitOnceAt(p, '+', rest);
  }

  lemma VersionedRestPanics(package: Option<string>, name: string, tail: string, digest: string, isVersion: string -> bool)
    requires '-' !in name && '-' !in tail && '-' !in digest && '.' !in name && '.' in tail
    ensures ParseRest(package, name + ['-'] + (tail + ['-'] + digest), isVersion) == Panics
  {
    SplitAt(name, '-', tail + ['-'] + digest);
    SplitAt(tail, '-', digest);
    SplitWhole(name, '-');
    SplitWhole(tail, '-');
    SplitWhole(digest, '-');
  }

  // What the parser returns

  lemma {:induction false} ReplaceAllKeepsOut(s: string, cs: string, x: char)
    requires x !in s && x != '_'
    ensures x !in ReplaceAll(s, cs)
    decreases |cs|
  {
    if cs == [] {
    } else {
      var r := Replace(s, cs[0]);
      forall i | 0 <= i < |r|
        ensures r[i] != x
      {
        assert s[i] in s;
      }
      ReplaceAllKeepsOut(r, cs[1..], x);
    }
  }

  lemma ParseNameKeepsOut(value: string, x: char)
    requires x !in value && x != '_'
    ensures x !in ParseName(value)
  {
    var stripped := StripPrefix(StripPrefix(value, "http://"), "https://");
    var cleared := ReplaceAll(stripped, UNSUPPORTED_CHARS);
    ReplaceAllKeepsOut(stripped, UNSUPPORTED_CHARS, x);
    TrimStartTrims(cleared);
    assert forall y :: y in cleared[|cleared| - |ParseName(value)|..] ==> y in cleared;
  }

  lemma RestNames(package: Option<string>, segments: seq<string>, isVersion: string -> bool)
    ensures var r := FromSegments(package, segments, isVersion); r.Parsed? ==> r.id.package == package && IsName(r.id.name)
  {
    forall value
      ensures IsName(ParseName(value))
    {
      ParsedIsName(value);
    }
  }

  /** The names in a parsed identifier are parsed. */
  lemma ParsedNames(s: string, isVersion: string -> bool)
    ensures var r := Parse(s, isVersion); r.Parsed? ==> NamesParsed(r.id)
  {
    if '+' in s {
      var (l, r) := SplitOnce(s, '+');
      ParsedIsName(l);
      RestNames(Some(ParseName(l)), Split(r, '-'), isVersion);
    } else {
      RestNames(None, Split(s, '-'), isVersion);
    }
  }

  /** No part holds the character. */
  ghost predicate Free(parts: seq<string>, x: char) {
    forall i :: 0 <= i < |parts| ==> x !in parts[i]
  }

  ghost predicate FieldsFree(id: Id, x: char) {
    && x !in id.name && x !in id.digest && (id.arch.Some? ==> x !in id.arch.value)
    && (id.version.Some? ==> x !in id.version.value)
  }

  /** What is in no segment is in no field. */
  lemma SegmentsFree(package: Option<string>, segments: seq<string>, isVersion: string -> bool, x: char)
    requires Free(segments, x) && x != '_'
    ensures var r := FromSegments(package, segments, isVersion); r.Parsed? ==> FieldsFree(r.id, x)
  {
    if |segments| > 0 {
      PartsFree(segments[0], '.', x);
      ParseNameKeepsOut(segments[0], x);
      ParseNameKeepsOut(SplitOnce(segments[0], '.').0, x);
    }
  }

  lemma PartsFree(s: string, c: char, x: char)
    requires x !in s
    ensures x !in SplitOnce(s, c).0 && x !in SplitOnce(s, c).1
  {
    var r := SplitOnce(s, c);
    assert c in s ==> forall y :: y in r.0 || y in r.1 ==> y in r.0 + [c] + r.1;
  }

  /** A parsed identifier without a version has no separator in the wrong place. */
  lemma ParsedIsSeparable(s: string, isVersion: string -> bool)
    ensures var r := Parse(s, isVersion); r.Parsed? && r.id.version.None? ==> Separable(r.id)
  {
    if '+' in s {
      var (l, r) := SplitOnce(s, '+');
      ParseNameKeepsOut(l, '+');
      RestNames(Some(ParseName(l)), Split(r, '-'), isVersion);
      SplitParts(r, '-', '+');
      SegmentsFree(Some(ParseName(l)), Split(r, '-'), isVersion, '-');
    } else {
      RestNames(None, Split(s, '-'), isVersion);
      SplitParts(s, '-', '+');
      SegmentsFree(None, Split(s, '-'), isVersion, '-');
      SegmentsFree(None, Split(s, '-'), isVersion, '+');
    }
  }

  /** Text without a plus gives an identifier whose text has none. */
  lemma RestWithoutPlus(s: string, isVersion: string -> bool)
    requires '+' !in s
    ensures var r := ParseRest(None, s, isVersion); r.Parsed? ==> r.id.package.None? && '+' !in Print(r.id)
  {
    SplitParts(s, '-', '+');
    RestNames(None, Split(s, '-'), isVersion);
    SegmentsFree(None, Split(s, '-'), isVersion, '+');
    var r := ParseRest(None, s, isVersion);
    if r.Parsed? {
      PrintWithoutPlus(r.id);
    }
  }

  lemma PrintWithoutPlus(id: Id)
    requires id.package.None? && FieldsFree(id, '+')
    ensures '+' !in Print(id)
  {
  }

  lemma PackagedVersionFails(p: string, name: string, tail: string, digest: string, isVersion: string -> bool)
    requires IsName(p) && IsName(name) && '.' in tail
    ensures !Parse(p + ['+'] + (name + ['-'] + (tail + ['-'] + digest)), isVersion).Parsed?
  {
    if '+' in p {
      LongPackageFails(p, name, tail, digest, isVersion);
    } else {
      PackageSplits(p, name + ['-'] + (tail + ['-'] + digest));
      VersionedRestFails(Some(p), name, tail, digest, isVersion);
    }
  }

  /** A printed identifier with a version is not read at all if it has a package or no plus. */
  lemma VersionedFails(id: Id, isVersion: string -> bool)
    requires id.version.Some? && '.' in id.version.value && NamesParsed(id)
    requires id.package.Some? || '+' !in Print(id)
    ensures !Parse(Print(id), isVersion).Parsed?
  {
    VersionedPrints(id);
    if id.package.Some? {
      PackagedVersionFails(id.package.value, id.name, Tail(id), id.digest, isVersion);
    } else {
      VersionedRestFails(None, id.name, Tail(id), id.digest, isVersion);
    }
  }

  lemma VersionedPrints(id: Id)
    requires id.version.Some?
    ensures var rest := id.name + ['-'] + (Tail(id) + ['-'] + id.digest);
            Print(id) == if id.package.Some? then id.package.value + ['+'] + rest else rest
    ensures '.' in id.version.value ==> '.' in Tail(id)
  {
    VersionedRest(id);
  }

  /** Part of a package with a plus goes over to the name, which does not help. */
  lemma LongPackageFails(p: string, name: string, tail: string, digest: string, isVersion: string -> bool)
    requires '+' in p && IsName(p) && IsName(name) && '.' in tail
    ensures !Parse(p + ['+'] + (name + ['-'] + (tail + ['-'] + digest)), isVersion).Parsed?
  {
    var (l, r) := SplitOnce(p, '+');
    var name' := r + ['+'] + name;
    var text := p + ['+'] + (name + ['-'] + (tail + ['-'] + digest));
    var rest := name' + ['-'] + (tail + ['-'] + digest);
    assert p == l + ['+'] + r;
    assert text == l + ['+'] + rest;
    SplitOnceAt(l, '+', rest);
    assert forall x :: x in r ==> x in p;
    assert '-' !in name' && '.' !in name';
    VersionedRestFails(Some(ParseName(l)), name', tail, digest, isVersion);
  }

  /** If some text is read as an identifier with a version, then its own text is not read at all. */
  lemma VersionedNeverReads(s: string, id: Id, isVersion: string -> bool)
    requires Parse(s, isVersion) == Parsed(id) && id.version.Some? && '.' in id.version.value
    ensures !Parse(Print(id), isVersion).Parsed?
  {
    ParsedNames(s, isVersion);
    if '+' in s {
      var (l, r) := SplitOnce(s, '+');
      RestNames(Some(ParseName(l)), Split(r, '-'), isVersion);
    } else {
      RestWithoutPlus(s, isVersion);
    }
    VersionedFails(id, isVersion);
  }

  /** Three segments: the first one is taken for the version as well as for the name, the second one for the digest. */
  lemma ThreeSegments(x: string, y: string, z: string, isVersion: string -> bool)
    requires '-' !in x && '-' !in y && '-' !in z && '+' !in x && '+' !in y && '+' !in z && '.' !in y
    ensures Parse(x + ['-'] + (y + ['-'] + z), isVersion) ==
              if isVersion(x) then Parsed(Id(ParseName(x), None, Some(x), None, y)) else BadVersion
  {
    SplitAt(x, '-', y + ['-'] + z);
    SplitAt(y, '-', z);
    SplitWhole(x, '-');
    SplitWhole(y, '-');
    SplitWhole(z, '-');
    assert Split(x + ['-'] + (y + ['-'] + z), '-') == [x, y, z];
  }

  /** Text with neither one nor two dashes behind the package is refused. */
  lemma OtherSegments(package: Option<string>, s: string, isVersion: string -> bool)
    requires |Split(s, '-')| != 2 && |Split(s, '-')| != 3
    ensures ParseRest(package, s, isVersion) == NotAnId
  {
  }
}
