/** Media types of artifact layers and their textual form. */
module MediaTypes {
  import opened Prelude
  import opened Strings

  datatype Compression = Zstd | Gzip | Bzip2 | Lz | Xz | Plain

  datatype MediaType =
    | Manifest
    | File(compression: Compression)
    | Tar(compression: Compression)
    | Oci(compression: Compression)
    | Image(compression: Compression)
    | Zip(compression: Compression)
    | Custom(name: string, compression: Compression)

  datatype ParseError = InvalidMediaType(value: string) | Schema(value: string)

  const NAMESPACE: string := "vnd.edo.artifact"
  const SCHEMA: string := ".v1."

  /** The text ends in the suffix behind a dot or a plus. */
  predicate Marked(s: string, suffix: string) {
    EndsWith(s, "." + suffix) || EndsWith(s, "+" + suffix)
  }

  /** The accepted suffixes with their compression, in the order in which they are tried. */
  const SUFFIXES: seq<(string, Compression)> :=
    [("zst", Zstd), ("gz", Gzip), ("gzip2", Gzip), ("gzip", Gzip), ("bz2", Bzip2), ("bzip2", Bzip2), ("bzip", Bzip2),
     ("lz4", Lz), ("lzma", Lz), ("xz", Xz)]

  function DetectFrom(s: string, suffixes: seq<(string, Compression)>): (string, Compression) {
    if suffixes == [] then (s, Plain)
    else if Marked(s, suffixes[0].0) then (s[..|s| - |suffixes[0].0| - 1], suffixes[0].1)
    else DetectFrom(s, suffixes[1..])
  }

  /** Splits off the compression suffix. */
  function Detect(s: string): (string, Compression) {
    DetectFrom(s, SUFFIXES)
  }

  function Suffix(c: Compression): string {
    match c
    case Zstd => ".zst"
    case Gzip => ".gz"
    case Bzip2 => ".bz2"
    case Lz => ".lz4"
    case Xz => ".xz"
    case Plain => ""
  }

  function Kind(m: MediaType): string {
    match m
    case Manifest => "manifest"
    case File(_) => "file"
    case Tar(_) => "tar"
    case Zip(_) => "zip"
    case Oci(_) => "oci"
    case Image(_) => "image"
    case Custom(name, _) => name
  }

  function Print(m: MediaType): string {
    NAMESPACE + SCHEMA + Kind(m) + if m.Manifest? then "" else Suffix(m.compression)
  }

  function FromKind(kind: string, c: Compression): MediaType {
    if kind == "manifest" then Manifest
    else if kind == "file" then File(c)
    else if kind == "tar" then Tar(c)
    else if kind == "zip" then Zip(c)
    else if kind == "oci" then Oci(c)
    else if kind == "image" then Image(c)
    else Custom(kind, c)
  }

  function Parse(s: string): Result<MediaType, ParseError> {
    var (base, c) := Detect(s);
    if !(NAMESPACE <= base) then Err(InvalidMediaType(s))
    else
      var rest := base[|NAMESPACE|..];
      if !(SCHEMA <= rest) then Err(Schema(s))
      else Ok(FromKind(rest[|SCHEMA|..], c))
  }

  predicate Reserved(name: string) {
    name in {"manifest", "file", "tar", "zip", "oci", "image"}
  }

  /** The text carries a compression suffix. */
  predicate LooksCompressed(s: string) {
    exists i :: 0 <= i < |SUFFIXES| && Marked(s, SUFFIXES[i].0)
  }

  /** The values that parsing can produce. */
  predicate Canonical(m: MediaType) {
    m.Custom? ==> !Reserved(m.name) && (m.compression.Plain? ==> !LooksCompressed("." + m.name))
  }

  // Suffix detection

  predicate SepFree(t: string) {
    '.' !in t && '+' !in t
  }

  lemma SuffixesListed()
    ensures |SUFFIXES| == 10
    ensures SUFFIXES[0].0 == "zst" && SUFFIXES[1].0 == "gz" && SUFFIXES[2].0 == "gzip2" && SUFFIXES[3].0 == "gzip"
    ensures SUFFIXES[4].0 == "bz2" && SUFFIXES[5].0 == "bzip2" && SUFFIXES[6].0 == "bzip"
    ensures SUFFIXES[7].0 == "lz4" && SUFFIXES[8].0 == "lzma" && SUFFIXES[9].0 == "xz"
  {
  }

  lemma SuffixesDistinct()
    ensures forall i, j :: 0 <= i < j < |SUFFIXES| ==> SUFFIXES[i].0 != SUFFIXES[j].0
  {
    SuffixesListed();
  }

  lemma SuffixesFine()
    ensures forall i :: 0 <= i < |SUFFIXES| ==> SepFree(SUFFIXES[i].0) && !SUFFIXES[i].1.Plain? && !Reserved(SUFFIXES[i].0)
    ensures forall i, j :: 0 <= i < j < |SUFFIXES| ==> SUFFIXES[i].0 != SUFFIXES[j].0
  {
    SuffixesListed();
    SuffixesDistinct();
  }

  /** A text is marked by at most one suffix. */
  lemma MarkUnique(s: string, a: string, b: string)
    requires SepFree(a) && SepFree(b) && Marked(s, a) && Marked(s, b)
    ensures a == b
  {
    if |a| < |b| {
      MarkInside(s, a, b);
    } else if |b| < |a| {
      MarkInside(s, b, a);
    } else {
      assert a == s[|s| - |a|..] == b;
    }
  }

  lemma MarkInside(s: string, a: string, b: string)
    requires Marked(s, a) && Marked(s, b) && |a| < |b|
    ensures !SepFree(b)
  {
    var k := |s| - |a| - 1;
    assert s[k] == '.' || s[k] == '+' by {
      assert s[k..][0] == s[k];
    }
    assert s[|s| - |b|..] == b;
    assert b[|b| - |a| - 1] == s[k];
  }

  lemma {:induction false} DetectFromMarked(s: string, suffixes: seq<(string, Compression)>, i: nat)
    requires i < |suffixes| && Marked(s, suffixes[i].0)
    requires forall j :: 0 <= j < |suffixes| ==> SepFree(suffixes[j].0)
    requires forall j, k :: 0 <= j < k < |suffixes| ==> suffixes[j].0 != suffixes[k].0
    ensures DetectFrom(s, suffixes) == (s[..|s| - |suffixes[i].0| - 1], suffixes[i].1)
  {
    if Marked(s, suffixes[0].0) {
      MarkUnique(s, suffixes[0].0, suffixes[i].0);
    } else {
      DetectFromMarked(s, suffixes[1..], i - 1);
    }
  }

  lemma {:induction false} DetectFromUnmarked(s: string, suffixes: seq<(string, Compression)>)
    requires forall i :: 0 <= i < |suffixes| ==> !Marked(s, suffixes[i].0)
    ensures DetectFrom(s, suffixes) == (s, Plain)
  {
    if suffixes == [] {
    } else {
      DetectFromUnmarked(s, suffixes[1..]);
    }
  }

  /** Detection leaves a text alone exactly when it carries no suffix. */
  lemma DetectCases(s: string)
    ensures !LooksCompressed(s) ==> Detect(s) == (s, Plain)
    ensures LooksCompressed(s) ==> !Detect(s).1.Plain?
  {
    SuffixesFine();
    if LooksCompressed(s) {
      var i :| 0 <= i < |SUFFIXES| && Marked(s, SUFFIXES[i].0);
      DetectFromMarked(s, SUFFIXES, i);
    } else {
      DetectFromUnmarked(s, SUFFIXES);
    }
  }

  function SuffixIndex(c: Compression): nat {
    match c case Zstd => 0 case Gzip => 1 case Bzip2 => 4 case Lz => 7 case _ => 9
  }

  /** Detection takes a printed compression off again. */
  lemma DetectPrinted(base: string, c: Compression)
    requires !c.Plain?
    ensures Detect(base + Suffix(c)) == (base, c)
  {
    SuffixesFine();
    var s, i := base + Suffix(c), SuffixIndex(c);
    assert SUFFIXES[i].1 == c && Suffix(c) == "." + SUFFIXES[i].0;
    assert s[|s| - |Suffix(c)|..] == Suffix(c);
    DetectFromMarked(s, SUFFIXES, i);
  }

  /** Whether a printed type looks compressed depends on its last component only. */
  lemma MarkedBehindSchema(name: string, t: string)
    requires SepFree(t)
    ensures Marked(NAMESPACE + SCHEMA + name, t) <==> Marked("." + name, t)
  {
    var s, d := NAMESPACE + SCHEMA + name, "." + name;
    assert s[|s| - |d|..] == d;
    MarkedBehindDot(s, d, t);
  }

  lemma MarkedBehindDot(s: string, d: string, t: string)
    requires SepFree(t) && d != [] && d[0] == '.' && |d| <= |s| && s[|s| - |d|..] == d
    ensures Marked(s, t) <==> Marked(d, t)
  {
    var k := |s| - |d|;
    assert s[k] == d[0];
    if |t| + 1 <= |d| {
      assert s[|s| - |t| - 1..] == d[|d| - |t| - 1..];
    } else if Marked(s, t) {
      MarkReachesBack(s, k, t);
    }
  }

  lemma MarkReachesBack(s: string, k: nat, t: string)
    requires Marked(s, t) && k < |s| && s[k] == '.' && |s| - |t| <= k
    ensures !SepFree(t)
  {
    assert s[|s| - |t|..] == t;
    assert t[k - (|s| - |t|)] == s[k];
  }

  lemma CompressedBehindSchema(name: string)
    ensures LooksCompressed(NAMESPACE + SCHEMA + name) <==> LooksCompressed("." + name)
  {
    SuffixesFine();
    forall i | 0 <= i < |SUFFIXES|
      ensures Marked(NAMESPACE + SCHEMA + name, SUFFIXES[i].0) <==> Marked("." + name, SUFFIXES[i].0)
    {
      MarkedBehindSchema(name, SUFFIXES[i].0);
    }
  }

  lemma ReservedNotCompressed(name: string)
    requires Reserved(name)
    ensures !LooksCompressed("." + name)
  {
    SuffixesFine();
    assert SepFree(name);
    assert Marked("." + name, name) by {
      assert ("." + name)[0..] == "." + name;
    }
    forall i | 0 <= i < |SUFFIXES| && Marked("." + name, SUFFIXES[i].0)
      ensures false
    {
      MarkUnique("." + name, name, SUFFIXES[i].0);
    }
  }

  // Round trips

  lemma ParseOf(s: string, name: string, c: Compression)
    requires Detect(s) == (NAMESPACE + SCHEMA + name, c)
    ensures Parse(s) == Ok(FromKind(name, c))
  {
    var base := NAMESPACE + SCHEMA + name;
    assert base[|NAMESPACE|..] == SCHEMA + name;
    assert base[|NAMESPACE|..][|SCHEMA|..] == name;
  }

  lemma PrintedParses(name: string, c: Compression)
    requires c.Plain? ==> !LooksCompressed("." + name)
    ensures Parse(NAMESPACE + SCHEMA + name + Suffix(c)) == Ok(FromKind(name, c))
  {
    var base := NAMESPACE + SCHEMA + name;
    if c.Plain? {
      assert base + Suffix(c) == base;
      CompressedBehindSchema(name);
      DetectCases(base);
    } else {
      DetectPrinted(base, c);
    }
    ParseOf(base + Suffix(c), name, c);
  }

  /** A name that ends in a suffix loses it to the compression. */
  lemma PrintedLooksCompressed(name: string)
    requires LooksCompressed("." + name)
    ensures var r := Parse(NAMESPACE + SCHEMA + name); r.Ok? && !r.value.Manifest? ==> !r.value.compression.Plain?
  {
    var s := NAMESPACE + SCHEMA + name;
    CompressedBehindSchema(name);
    DetectCases(s);
    if Parse(s).Ok? {
      var kind, c := ParsedShape(s);
      FromKindCompressed(kind, c);
    }
  }

  lemma FromKindCompressed(kind: string, c: Compression)
    ensures var m := FromKind(kind, c); m.Manifest? || m.compression == c
  {
  }

  /** Printing and parsing back is the identity exactly on the canonical values. */
  lemma RoundTrip(m: MediaType)
    ensures Parse(Print(m)) == Ok(m) <==> Canonical(m)
  {
    var name, c := Kind(m), if m.Manifest? then Plain else m.compression;
    assert Print(m) == NAMESPACE + SCHEMA + name + Suffix(c);
    if c.Plain? && LooksCompressed("." + name) {
      assert Print(m) == NAMESPACE + SCHEMA + name;
      PrintedLooksCompressed(name);
      if Reserved(name) {
        ReservedNotCompressed(name);
      }
    } else {
      PrintedParses(name, c);
    }
  }

  /** Everything the parser returns is canonical. */
  lemma ParsedIsCanonical(s: string)
    requires Parse(s).Ok?
    ensures Canonical(Parse(s).value)
  {
    var name, c := ParsedShape(s);
    DetectCases(s);
    CompressedBehindSchema(name);
    FromKindCanonical(name, c);
  }

  lemma ParsedShape(s: string) returns (name: string, c: Compression)
    requires Parse(s).Ok?
    ensures Detect(s) == (NAMESPACE + SCHEMA + name, c) && Parse(s) == Ok(FromKind(name, c))
  {
    var base := Detect(s).0;
    name, c := base[|NAMESPACE|..][|SCHEMA|..], Detect(s).1;
    assert base == NAMESPACE + SCHEMA + name;
  }

  lemma FromKindCanonical(name: string, c: Compression)
    requires c.Plain? ==> !LooksCompressed("." + name)
    ensures Canonical(FromKind(name, c))
  {
  }

  /** Normalising once is enough: parsing a printed parse result changes nothing, for every accepted text. */
  lemma ParsePrintParse(s: string)
    requires Parse(s).Ok?
    ensures Parse(Print(Parse(s).value)) == Parse(s)
  {
    ParsedIsCanonical(s);
    RoundTrip(Parse(s).value);
  }

  /** The canonical values are exactly the image of the parser. */
  lemma CanonicalIsImage(m: MediaType)
    ensures Canonical(m) <==> exists s :: Parse(s) == Ok(m)
  {
    RoundTrip(m);
    if Canonical(m) {
      assert Parse(Print(m)) == Ok(m);
    }
    forall s | Parse(s) == Ok(m)
      ensures Canonical(m)
    {
      ParsedIsCanonical(s);
    }
  }

  // The vocabulary

  lemma DetectSuffix(base: string, separator: string, i: nat)
    requires i < |SUFFIXES| && (separator == "." || separator == "+")
    ensures Detect(base + separator + SUFFIXES[i].0) == (base, SUFFIXES[i].1)
  {
    SuffixesFine();
    var t := SUFFIXES[i].0;
    var s := base + separator + t;
    Associates(base, separator, t);
    Parts(base, separator + t);
    assert |s| - |t| - 1 == |base|;
    DetectFromMarked(s, SUFFIXES, i);
  }

  /** All accepted suffixes with their compressions; either separator may stand before them. */
  lemma SuffixTable(base: string, separator: string)
    requires separator == "." || separator == "+"
    ensures Detect(base + separator + "zst") == (base, Zstd)
    ensures Detect(base + separator + "gz") == Detect(base + separator + "gzip") == Detect(base + separator + "gzip2") == (base, Gzip)
    ensures Detect(base + separator + "bz2") == Detect(base + separator + "bzip2") == Detect(base + separator + "bzip") == (base, Bzip2)
    ensures Detect(base + separator + "lz4") == Detect(base + separator + "lzma") == (base, Lz)
    ensures Detect(base + separator + "xz") == (base, Xz)
  {
    forall i | 0 <= i < |SUFFIXES|
      ensures Detect(base + separator + SUFFIXES[i].0) == (base, SUFFIXES[i].1)
    {
      DetectSuffix(base, separator, i);
    }
    SuffixesListed();
  }

  /** How the types are spelled. */
  lemma Spelling(c: Compression, name: string)
    ensures Print(Manifest) == "vnd.edo.artifact.v1.manifest"
    ensures Print(File(c)) == "vnd.edo.artifact.v1.file" + Suffix(c) && Print(Tar(c)) == "vnd.edo.artifact.v1.tar" + Suffix(c)
    ensures Print(Zip(c)) == "vnd.edo.artifact.v1.zip" + Suffix(c) && Print(Oci(c)) == "vnd.edo.artifact.v1.oci" + Suffix(c)
    ensures Print(Image(c)) == "vnd.edo.artifact.v1.image" + Suffix(c)
    ensures Print(Custom(name, c)) == "vnd.edo.artifact.v1." + name + Suffix(c)
  {
    assert NAMESPACE + SCHEMA == "vnd.edo.artifact.v1.";
  }

  /** What is accepted, and what is wrong with the rest. */
  lemma ParseAccepts(s: string)
    ensures Parse(s).Ok? <==> "vnd.edo.artifact.v1." <= Detect(s).0
    ensures Parse(s) == Err(InvalidMediaType(s)) <==> !("vnd.edo.artifact" <= Detect(s).0)
    ensures Parse(s) == Err(Schema(s)) <==> "vnd.edo.artifact" <= Detect(s).0 && !("vnd.edo.artifact.v1." <= Detect(s).0)
  {
    var base := Detect(s).0;
    assert NAMESPACE + SCHEMA == "vnd.edo.artifact.v1.";
    PrefixInTwo(base, NAMESPACE, SCHEMA);
  }

  lemma PrefixInTwo(s: string, a: string, b: string)
    ensures a + b <= s <==> a <= s && b <= s[|a|..]
  {
    if a + b <= s {
      Parts(a, b);
      assert s[..|a + b|] == a + b;
      assert s[..|a|] == (a + b)[..|a|] && s[|a|..][..|b|] == (a + b)[|a|..];
    }
    if a <= s && b <= s[|a|..] {
      assert s == a + s[|a|..] && s[|a|..] == b + s[|a|..][|b|..];
    }
  }
}
