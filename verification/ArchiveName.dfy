/**
 Archive file names: the right-to-left parser of the two naming styles, and the printer it
 inverts.  Whether a text is a semantic version is left to a function, of which only the
 grammar facts in `SemverFacts` are used.
 */
module ArchiveName {
  import opened Common

  datatype Name = Name(providerType: string, version: string, os: string, arch: string)

  // ---------------------------------------------------------------- text

  predicate IsLower(c: char) { 'a' <= c <= 'z' }
  predicate IsDigit(c: char) { '0' <= c <= '9' }
  predicate IsAlnum(c: char) { IsLower(c) || 'A' <= c <= 'Z' || IsDigit(c) }

  predicate AllLower(s: string) { forall i :: 0 <= i < |s| ==> IsLower(s[i]) }
  predicate AllLowerOrDigit(s: string) { forall i :: 0 <= i < |s| ==> IsLower(s[i]) || IsDigit(s[i]) }

  function StripPrefix(s: string, prefix: string): Option<string> {
    if prefix <= s then Some(s[|prefix|..]) else None
  }

  function StripSuffix(s: string, suffix: string): Option<string> {
    if |suffix| <= |s| && s[|s| - |suffix|..] == suffix then Some(s[..|s| - |suffix|]) else None
  }

  /** Position of the last occurrence, or -1. */
  function LastIndex(s: string, c: char): (i: int)
    ensures -1 <= i < |s|
    ensures i >= 0 ==> s[i] == c
    ensures forall j :: i < j < |s| ==> s[j] != c
  {
    if s == "" then -1 else if s[|s| - 1] == c then |s| - 1 else LastIndex(s[..|s| - 1], c)
  }

  datatype Fields = Fields(version: string, os: string, arch: string)

  /** Three fields split off from the right; the first one keeps any further separators. */
  function RightSplit(s: string, c: char): Option<Fields> {
    var i := LastIndex(s, c);
    if i < 0 then None else
    var j := LastIndex(s[..i], c);
    if j < 0 then None else Some(Fields(s[..j], s[j + 1..i], s[i + 1..]))
  }

  function Joined(f: Fields, c: char): string {
    f.version + [c] + f.os + [c] + f.arch
  }

  // ---------------------------------------------------------------- the parser

  function Prefix(routeType: string): string {
    "terraform-provider-" + routeType
  }

  predicate ValidPlatform(os: string, arch: string) {
    AllLower(os) && AllLowerOrDigit(arch)
  }

  function StripV(version: string): string {
    if version != "" && version[0] == 'v' then version[1..] else version
  }

  function FromParts(semver: string -> bool, routeType: string, f: Fields): Option<Name> {
    if !ValidPlatform(f.os, f.arch) then None
    else if !semver(StripV(f.version)) then None
    else Some(Name(routeType, StripV(f.version), f.os, f.arch))
  }

  /** What lies between the provider type and the file extension. */
  function ParseBody(semver: string -> bool, routeType: string, body: string): Option<Name> {
    var underscored := StripPrefix(body, "_");
    if underscored.Some? then
      ParseFields(semver, routeType, underscored.value, '_')
    else
      var dashed := StripPrefix(body, "-");
      if dashed.None? then None else
      var fields := StripSuffix(dashed.value, "-bin");
      if fields.None? then None else ParseFields(semver, routeType, fields.value, '-')
  }

  function ParseFields(semver: string -> bool, routeType: string, text: string, c: char): Option<Name> {
    var f := RightSplit(text, c);
    if f.None? then None else FromParts(semver, routeType, f.value)
  }

  function ParseTail(semver: string -> bool, routeType: string, tail: string): Option<Name> {
    var body := StripSuffix(tail, ".zip");
    if body.None? then None else ParseBody(semver, routeType, body.value)
  }

  function Parse(semver: string -> bool, routeType: string, archive: string): Option<Name> {
    var tail := StripPrefix(archive, Prefix(routeType));
    if tail.None? then None else ParseTail(semver, routeType, tail.value)
  }

  // ---------------------------------------------------------------- the printer

  datatype Style = Underscored | Dashed

  function Separator(style: Style): char {
    if style.Underscored? then '_' else '-'
  }

  function Ending(style: Style): string {
    if style.Underscored? then "" else "-bin"
  }

  function Written(n: Name, v: bool): Fields {
    Fields((if v then "v" else "") + n.version, n.os, n.arch)
  }

  function Body(style: Style, v: bool, n: Name): string {
    [Separator(style)] + (Joined(Written(n, v), Separator(style)) + Ending(style))
  }

  /** What follows the provider type. */
  function Tail(style: Style, v: bool, n: Name): string {
    Body(style, v, n) + ".zip"
  }

  function Print(style: Style, v: bool, n: Name): string {
    Prefix(n.providerType) + Tail(style, v, n)
  }

  // ---------------------------------------------------------------- semantic versions

  predicate VersionChar(c: char) {
    IsAlnum(c) || c == '.' || c == '-' || c == '+'
  }

  predicate DottedCore(v: string) {
    exists p :: 0 <= p < |v| && v[p] == '.' && '-' !in v[..p]
  }

  /** A semantic version starts with a digit, has a dot before any hyphen, and is made of
      letters, digits, dots, hyphens and plus signs. */
  ghost predicate SemverFacts(semver: string -> bool) {
    forall v :: semver(v) ==>
      && v != "" && IsDigit(v[0]) && DottedCore(v)
      && (forall i :: 0 <= i < |v| ==> VersionChar(v[i]))
  }

  predicate ValidName(semver: string -> bool, n: Name) {
    semver(n.version) && ValidPlatform(n.os, n.arch)
  }

  // ---------------------------------------------------------------- splitting

  lemma LastIndexIs(s: string, c: char, i: int)
    requires 0 <= i < |s| && s[i] == c && forall j :: i < j < |s| ==> s[j] != c
    ensures LastIndex(s, c) == i
  {
  }

  lemma SplitJoined(f: Fields, c: char)
    requires c !in f.os && c !in f.arch
    ensures RightSplit(Joined(f, c), c) == Some(f)
  {
    var s := Joined(f, c);
    var i := |f.version| + 1 + |f.os|;
    var j := |f.version|;
    assert s[i + 1..] == f.arch;
    LastIndexIs(s, c, i);
    assert s[..i] == f.version + [c] + f.os;
    assert s[j + 1..i] == f.os;
    LastIndexIs(s[..i], c, j);
    assert s[..j] == f.version;
  }

  lemma SplitIsJoined(s: string, c: char)
    requires RightSplit(s, c).Some?
    ensures s == Joined(RightSplit(s, c).value, c)
    ensures c !in RightSplit(s, c).value.os && c !in RightSplit(s, c).value.arch
  {
    var i := LastIndex(s, c);
    var j := LastIndex(s[..i], c);
    assert s == s[..j] + [s[j]] + s[j + 1..i] + [s[i]] + s[i + 1..];
    assert forall x :: j < x < i ==> s[..i][x] == s[x];
  }

  // ---------------------------------------------------------------- both directions

  lemma StripAdded(s: string, prefix: string, suffix: string)
    ensures StripPrefix(prefix + s, prefix) == Some(s)
    ensures StripSuffix(s + suffix, suffix) == Some(s)
  {
    assert (prefix + s)[|prefix|..] == s;
    assert (s + suffix)[..|s|] == s && (s + suffix)[|s|..] == suffix;
  }

  lemma AddStripped(s: string, affix: string)
    ensures StripPrefix(s, affix).Some? ==> s == affix + StripPrefix(s, affix).value
    ensures StripSuffix(s, affix).Some? ==> s == StripSuffix(s, affix).value + affix
  {
  }

  lemma FieldsParse(semver: string -> bool, c: char, v: bool, n: Name)
    requires SemverFacts(semver) && ValidName(semver, n) && (c == '_' || c == '-')
    ensures ParseFields(semver, n.providerType, Joined(Written(n, v), c), c) == Some(n)
  {
    hide Joined, RightSplit, DottedCore;
    var f := Written(n, v);
    SplitJoined(f, c);
    if v { assert f.version[1..] == n.version; } else { assert f.version == n.version; }
  }

  lemma BodyParses(semver: string -> bool, style: Style, v: bool, n: Name)
    requires SemverFacts(semver) && ValidName(semver, n)
    ensures ParseBody(semver, n.providerType, Body(style, v, n)) == Some(n)
  {
    hide ParseFields, Joined, SemverFacts, ValidName;
    var c := Separator(style);
    FieldsParse(semver, c, v, n);
    var joined := Joined(Written(n, v), c);
    StripAdded(joined + Ending(style), [c], "-bin");
    StripAdded(joined, "", "-bin");
    if style.Underscored? { assert joined + "" == joined; } else { assert Body(style, v, n)[0] == '-'; }
  }

  /** Printing a name in either style, with or without the `v`, and parsing it gives it back. */
  lemma PrintThenParse(semver: string -> bool, style: Style, v: bool, n: Name)
    requires SemverFacts(semver) && ValidName(semver, n)
    ensures Parse(semver, n.providerType, Print(style, v, n)) == Some(n)
  {
    hide Prefix, ParseBody, Body, SemverFacts, ValidName;
    BodyParses(semver, style, v, n);
    StripAdded(Tail(style, v, n), Prefix(n.providerType), "");
    StripAdded(Body(style, v, n), "", ".zip");
  }

  lemma ParsedFields(semver: string -> bool, routeType: string, text: string, c: char) returns (v: bool)
    requires ParseFields(semver, routeType, text, c).Some?
    ensures var n := ParseFields(semver, routeType, text, c).value;
            n.providerType == routeType && ValidName(semver, n) && text == Joined(Written(n, v), c)
  {
    hide RightSplit, Joined;
    SplitIsJoined(text, c);
    var version := RightSplit(text, c).value.version;
    v := version != "" && version[0] == 'v';
    assert version == (if v then "v" else "") + StripV(version);
  }

  lemma ParsedBody(semver: string -> bool, routeType: string, body: string) returns (style: Style, v: bool)
    requires ParseBody(semver, routeType, body).Some?
    ensures var n := ParseBody(semver, routeType, body).value;
            n.providerType == routeType && ValidName(semver, n) && body == Body(style, v, n)
  {
    hide ParseFields, Joined, Written, ValidName;
    AddStripped(body, "_");
    AddStripped(body, "-");
    if StripPrefix(body, "_").Some? {
      var fields := StripPrefix(body, "_").value;
      style := Underscored;
      v := ParsedFields(semver, routeType, fields, '_');
      assert fields + "" == fields;
    } else {
      var dashed := StripPrefix(body, "-").value;
      AddStripped(dashed, "-bin");
      style := Dashed;
      v := ParsedFields(semver, routeType, StripSuffix(dashed, "-bin").value, '-');
    }
  }

  /** Every accepted file name is a printed one, under the type it was parsed with. */
  lemma ParseThenPrint(semver: string -> bool, routeType: string, archive: string) returns (style: Style, v: bool)
    requires Parse(semver, routeType, archive).Some?
    ensures var n := Parse(semver, routeType, archive).value;
            n.providerType == routeType && ValidName(semver, n) && archive == Print(style, v, n)
  {
    hide Prefix, ParseBody, Body, ValidName;
    AddStripped(archive, Prefix(routeType));
    var tail := StripPrefix(archive, Prefix(routeType)).value;
    AddStripped(tail, ".zip");
    style, v := ParsedBody(semver, routeType, StripSuffix(tail, ".zip").value);
  }

  // ---------------------------------------------------------------- one type per file name

  predicate DotFree(s: string) {
    '.' !in s
  }

  /** A tail in either style is its separator and three fields; the last field carries the
      rest of the name. */
  function Three(c: char, a: string, b: string, e: string): string {
    [c] + a + [c] + b + [c] + e
  }

  lemma TailIsThree(style: Style, v: bool, n: Name)
    ensures var f := Written(n, v);
            Tail(style, v, n) == Three(Separator(style), f.version, f.os, f.arch + (Ending(style) + ".zip"))
  {
  }

  lemma ThreeShape(c: char, a: string, b: string, e: string)
    requires c !in a && c !in b && c !in e
    ensures var t := Three(c, a, b, e);
            var i, j := |a| + 1, |a| + |b| + 2;
            && |t| == j + 1 + |e| && t[0] == c && t[i] == c && t[j] == c
            && (forall x :: 0 <= x < |t| && t[x] == c ==> x == 0 || x == i || x == j)
            && (forall x :: 0 <= x < |e| ==> t[j + 1 + x] == e[x])
  {
    var t := Three(c, a, b, e);
    var i, j := |a| + 1, |a| + |b| + 2;
    assert forall x :: 0 < x < i ==> t[x] == a[x - 1];
    assert forall x :: i < x < j ==> t[x] == b[x - i - 1];
  }

  lemma NoUnderscores(semver: string -> bool, v: bool, n: Name)
    requires SemverFacts(semver) && ValidName(semver, n)
    ensures var f := Written(n, v);
            && '_' !in f.version && '_' !in f.os && '_' !in f.arch && '-' !in f.os && '-' !in f.arch
            && '_' !in f.arch + "-bin.zip" && '_' !in f.arch + ".zip" && '-' !in f.arch + ".zip"
  {
    hide DottedCore;
  }

  lemma UnderscoredInUnderscored(c: char, a: string, b: string, e: string,
                                 x: string, a': string, b': string, e': string)
    requires c !in a && c !in b && c !in e && c !in a' && c !in b' && c !in e' && x != ""
    ensures Three(c, a, b, e) != x + Three(c, a', b', e')
  {
    var t' := Three(c, a', b', e');
    ThreeShape(c, a, b, e);
    ThreeShape(c, a', b', e');
    var w := x + t';
    assert w[|x|] == c && w[|x| + |a'| + 1] == c && w[|x| + |a'| + |b'| + 2] == c;
  }

  lemma DashedInUnderscored(a: string, b: string, e: string, x: string, t: string)
    requires '_' !in a && '_' !in b && '_' !in e && '-' !in e
    requires t != "" && t[0] == '-' && '_' !in t
    ensures Three('_', a, b, e) != x + t
  {
    var j := |a| + |b| + 2;
    ThreeShape('_', a, b, e);
    var w := x + t;
    assert w[|x|] == '-';
    assert forall y :: |x| <= y < |w| ==> w[y] == t[y - |x|] && w[y] != '_';
    assert forall y :: j < y < |Three('_', a, b, e)| ==> Three('_', a, b, e)[y] == e[y - j - 1];
  }

  /** An underscored tail never ends in `-bin.zip`. */
  lemma UnderscoredInDashed(u: string, x: string, a: string, b: string, arch: string)
    requires '_' !in a && '_' !in b && '_' !in arch && '-' !in arch
    ensures u + "-bin.zip" != x + Three('_', a, b, arch + ".zip")
  {
    var w, y := u + "-bin.zip", x + Three('_', a, b, arch + ".zip");
    assert w[|w| - 8] == '-' && forall i :: |w| - 8 <= i < |w| ==> w[i] != '_';
    assert y[|y| - 5 - |arch|] == '_';
    assert forall i :: 0 <= i < |arch| ==> y[|y| - 4 - |arch| + i] == arch[i];
    assert |arch| >= 4 ==> y[|y| - 8] == arch[|arch| - 4];
  }

  lemma SameVersionPart(a: Fields, b: Fields, e: string)
    requires '-' !in a.os && '-' !in a.arch && '-' !in b.os && '-' !in b.arch
    requires Joined(a, '-') + e == Joined(b, '-') + e
    ensures a == b
  {
    var ja, jb := Joined(a, '-'), Joined(b, '-');
    assert (ja + e)[..|ja|] == ja && (jb + e)[..|jb|] == jb;
    hide Joined;
    SplitJoined(a, '-');
    SplitJoined(b, '-');
  }

  /** The dot of a version comes before its first hyphen, so a type that swallows a hyphen and
      the start of a version has a dot. */
  lemma SwallowedDot(version: string, v: bool, x: string, rest: string)
    requires DottedCore(version) && x != ""
    requires ['-'] + ((if v then "v" else "") + version) == x + ['-'] + rest
    ensures !DotFree(x)
  {
    var p :| 0 <= p < |version| && version[p] == '.' && '-' !in version[..p];
    var shift := if v then 2 else 1;
    var w := ['-'] + ((if v then "v" else "") + version);
    assert forall i :: 0 <= i < |version| ==> w[i + shift] == version[i];
    assert w[|x|] == '-';
    assert forall i :: shift <= i < p + shift ==> w[i] == version[..p][i - shift];
    assert w[p + shift] == x[p + shift];
  }

  lemma DashedTail(v: bool, n: Name)
    ensures Tail(Dashed, v, n) == Joined(Fields(['-'] + Written(n, v).version, n.os, n.arch), '-') + "-bin.zip"
  {
    var j := Joined(Written(n, v), '-');
    assert "-bin" + ".zip" == "-bin.zip";
    assert Tail(Dashed, v, n) == ['-'] + j + "-bin.zip";
  }

  lemma ShiftedFields(x: string, version: string, os: string, arch: string, e: string)
    ensures x + (Joined(Fields(['-'] + version, os, arch), '-') + e) ==
            Joined(Fields(x + ['-'] + version, os, arch), '-') + e
  {
  }

  /** A dashed tail inside another: the longer version swallows what comes before. */
  lemma DashedInDashed(semver: string -> bool, v1: bool, n1: Name, x: string, v2: bool, n2: Name)
    requires SemverFacts(semver) && ValidName(semver, n1) && ValidName(semver, n2)
    requires Tail(Dashed, v1, n1) == x + Tail(Dashed, v2, n2)
    ensures ['-'] + Written(n1, v1).version == x + ['-'] + Written(n2, v2).version
    ensures n1.os == n2.os && n1.arch == n2.arch
  {
    hide Tail, Joined;
    var f1, f2 := Written(n1, v1), Written(n2, v2);
    DashedTail(v1, n1);
    DashedTail(v2, n2);
    ShiftedFields(x, f2.version, f2.os, f2.arch, "-bin.zip");
    NoUnderscores(semver, v1, n1);
    NoUnderscores(semver, v2, n2);
    SameVersionPart(Fields(['-'] + f1.version, f1.os, f1.arch),
                    Fields(x + ['-'] + f2.version, f2.os, f2.arch), "-bin.zip");
  }

  /** Only dashed tails can lie one inside the other. */
  lemma NestedTails(semver: string -> bool, s1: Style, v1: bool, n1: Name, x: string, s2: Style, v2: bool, n2: Name)
    requires SemverFacts(semver) && ValidName(semver, n1) && ValidName(semver, n2)
    requires x != "" && Tail(s1, v1, n1) == x + Tail(s2, v2, n2)
    ensures s1.Dashed? && s2.Dashed?
  {
    hide Tail, Three, SemverFacts, ValidName;
    var f1, f2 := Written(n1, v1), Written(n2, v2);
    TailIsThree(s1, v1, n1);
    TailIsThree(s2, v2, n2);
    NoUnderscores(semver, v1, n1);
    NoUnderscores(semver, v2, n2);
    assert "" + ".zip" == ".zip" && "-bin" + ".zip" == "-bin.zip";
    if s1.Underscored? && s2.Underscored? {
      UnderscoredInUnderscored('_', f1.version, f1.os, f1.arch + ".zip", x, f2.version, f2.os, f2.arch + ".zip");
    } else if s1.Underscored? {
      ThreeDashed(f2.version, f2.os, f2.arch + "-bin.zip");
      DashedInUnderscored(f1.version, f1.os, f1.arch + ".zip", x, Tail(s2, v2, n2));
    } else if s2.Underscored? {
      ThreeEnds(f1.version, f1.os, f1.arch);
      UnderscoredInDashed(['-'] + f1.version + ['-'] + f1.os + ['-'] + f1.arch, x, f2.version, f2.os, f2.arch);
    }
  }

  lemma ThreeDashed(a: string, b: string, e: string)
    requires '_' !in a && '_' !in b && '_' !in e
    ensures var t := Three('-', a, b, e); t != "" && t[0] == '-' && '_' !in t
  {
  }

  lemma ThreeEnds(a: string, b: string, arch: string)
    ensures Three('-', a, b, arch + "-bin.zip") == ['-'] + a + ['-'] + b + ['-'] + arch + "-bin.zip"
  {
  }

  lemma SamePrefix(a: string, b: string, t1: string, t2: string)
    requires Prefix(a) + t1 == Prefix(b) + t2 && |a| <= |b|
    ensures a == b[..|a|] && t1 == b[|a|..] + t2
  {
    var p := "terraform-provider-";
    assert Prefix(a) + t1 == p + (a + t1) && Prefix(b) + t2 == p + (b + t2);
    assert (p + (a + t1))[|p|..] == a + t1 && (p + (b + t2))[|p|..] == b + t2;
    assert (a + t1)[..|a|] == a && (a + t1)[|a|..] == t1;
    assert (b + t2)[..|a|] == b[..|a|] && (b + t2)[|a|..] == b[|a|..] + t2;
  }

  /** The dashed archive of a version as written, with or without its `v`. */
  function DashedArchive(providerType: string, version: string, os: string, arch: string): string {
    Prefix(providerType) + (Joined(Fields(['-'] + version, os, arch), '-') + "-bin.zip")
  }

  /** The archive is the dashed one of the version written `p-u` of type `a`, and so that of the
      version written `u` of type `a-p`. */
  predicate Collision(semver: string -> bool, a: string, b: string, archive: string,
                      p: string, u: string, os: string, arch: string) {
    && b == a + "-" + p && archive == DashedArchive(a, p + "-" + u, os, arch)
    && semver(StripV(p + "-" + u)) && semver(StripV(u)) && ValidPlatform(os, arch)
  }

  /** The collisions are exactly these: for types of different length, an archive name parses
      under both if and only if the longer type is the shorter one, a hyphen and the start of
      a version that goes on, after another hyphen, as a version of its own, and the name is
      the dashed archive of that version. */
  lemma CollideExactly(semver: string -> bool, a: string, b: string, archive: string)
    requires SemverFacts(semver) && |a| < |b|
    ensures Parse(semver, a, archive).Some? && Parse(semver, b, archive).Some? <==>
            exists p, u, os, arch :: Collision(semver, a, b, archive, p, u, os, arch)
  {
    hide Parse, Collision, SemverFacts;
    if Parse(semver, a, archive).Some? && Parse(semver, b, archive).Some? {
      var p, u, os, arch := BothParse(semver, a, b, archive);
    }
    forall p, u, os, arch | Collision(semver, a, b, archive, p, u, os, arch)
      ensures Parse(semver, a, archive).Some? && Parse(semver, b, archive).Some?
    {
      CollisionParses(semver, a, b, archive, p, u, os, arch);
    }
  }

  lemma BothParse(semver: string -> bool, a: string, b: string, archive: string)
    returns (p: string, u: string, os: string, arch: string)
    requires SemverFacts(semver) && |a| < |b|
    requires Parse(semver, a, archive).Some? && Parse(semver, b, archive).Some?
    ensures Collision(semver, a, b, archive, p, u, os, arch)
  {
    hide Parse, Tail, SemverFacts, Joined, Prefix, ValidPlatform;
    var s1, v1 := ParseThenPrint(semver, a, archive);
    var s2, v2 := ParseThenPrint(semver, b, archive);
    var n1, n2 := Parse(semver, a, archive).value, Parse(semver, b, archive).value;
    var x := b[|a|..];
    SamePrefix(a, b, Tail(s1, v1, n1), Tail(s2, v2, n2));
    NestedTails(semver, s1, v1, n1, x, s2, v2, n2);
    DashedInDashed(semver, v1, n1, x, v2, n2);
    u, os, arch := Written(n2, v2).version, n2.os, n2.arch;
    p := x[1..];
    var w := Written(n1, v1).version;
    assert (['-'] + w)[0] == '-' && (x + ['-'] + u)[0] == x[0];
    assert x == ['-'] + p;
    assert (['-'] + w)[1..] == w && (x + ['-'] + u)[1..] == p + "-" + u;
    assert b == b[..|a|] + x;
    DashedTail(v1, n1);
    WrittenStripped(semver, n1, v1);
    WrittenStripped(semver, n2, v2);
  }

  lemma WrittenStripped(semver: string -> bool, n: Name, v: bool)
    requires SemverFacts(semver) && ValidName(semver, n)
    ensures StripV(Written(n, v).version) == n.version
  {
    hide DottedCore;
    if v { assert Written(n, v).version[1..] == n.version; } else { assert Written(n, v).version == n.version; }
  }

  lemma CollisionParses(semver: string -> bool, a: string, b: string, archive: string,
                        p: string, u: string, os: string, arch: string)
    requires SemverFacts(semver) && Collision(semver, a, b, archive, p, u, os, arch)
    ensures Parse(semver, a, archive) == Some(Name(a, StripV(p + "-" + u), os, arch))
    ensures Parse(semver, b, archive) == Some(Name(b, StripV(u), os, arch))
  {
    hide Joined, Prefix, SemverFacts, Parse;
    DashedArchiveParses(semver, a, p + "-" + u, os, arch);
    DashedArchiveParses(semver, b, u, os, arch);
    var x := ['-'] + p;
    ShiftedFields(x, u, os, arch, "-bin.zip");
    assert x + ['-'] + u == ['-'] + (p + "-" + u);
    LongerPrefix(a, p);
    var tail := Joined(Fields(['-'] + u, os, arch), '-') + "-bin.zip";
    assert Prefix(a) + (x + tail) == (Prefix(a) + x) + tail;
  }

  lemma DashedArchiveParses(semver: string -> bool, providerType: string, version: string, os: string, arch: string)
    requires SemverFacts(semver) && semver(StripV(version)) && ValidPlatform(os, arch)
    ensures Parse(semver, providerType, DashedArchive(providerType, version, os, arch)) ==
            Some(Name(providerType, StripV(version), os, arch))
  {
    hide Joined, Prefix, SemverFacts, Parse, Tail;
    var n := Name(providerType, StripV(version), os, arch);
    var v := version != "" && version[0] == 'v';
    assert version == Written(n, v).version;
    DashedTail(v, n);
    PrintThenParse(semver, Dashed, v, n);
  }

  lemma LongerPrefix(providerType: string, p: string)
    ensures Prefix(providerType + "-" + p) == Prefix(providerType) + (['-'] + p)
  {
  }

  /** The part of the longer type that the shorter one's version supplies has that version's
      first dot. */
  lemma CollisionHasDot(semver: string -> bool, a: string, b: string, archive: string)
    requires SemverFacts(semver) && |a| < |b|
    requires Parse(semver, a, archive).Some? && Parse(semver, b, archive).Some?
    ensures !DotFree(b)
  {
    hide Parse, DottedCore, StripV, DashedArchive, ValidPlatform;
    var p, u, os, arch := BothParse(semver, a, b, archive);
    SwallowedVersion(StripV(p + "-" + u), p, u);
    assert b == a + (['-'] + p);
  }

  lemma SwallowedVersion(version: string, p: string, u: string)
    requires version == StripV(p + "-" + u) && DottedCore(version)
    ensures !DotFree(['-'] + p)
  {
    hide DottedCore;
    var w := p + "-" + u;
    var v := w[0] == 'v';
    assert w == (if v then "v" else "") + version;
    assert ['-'] + w == (['-'] + p) + ['-'] + u;
    SwallowedDot(version, v, ['-'] + p, u);
  }

  /** One file name is parsed under at most one dot-free provider type. */
  lemma OneTypePerArchive(semver: string -> bool, a: string, b: string, archive: string)
    requires SemverFacts(semver) && DotFree(a) && DotFree(b)
    requires Parse(semver, a, archive).Some? && Parse(semver, b, archive).Some?
    ensures a == b
  {
    hide Parse, Tail, SemverFacts, ValidName;
    if |a| < |b| {
      CollisionHasDot(semver, a, b, archive);
    } else if |b| < |a| {
      CollisionHasDot(semver, b, a, archive);
    } else {
      SameLengthSameType(semver, a, b, archive);
    }
  }

  lemma SameLengthSameType(semver: string -> bool, a: string, b: string, archive: string)
    requires |a| == |b| && Parse(semver, a, archive).Some? && Parse(semver, b, archive).Some?
    ensures a == b
  {
    hide Parse, Tail;
    var s1, v1 := ParseThenPrint(semver, a, archive);
    var s2, v2 := ParseThenPrint(semver, b, archive);
    SamePrefix(a, b, Tail(s1, v1, Parse(semver, a, archive).value), Tail(s2, v2, Parse(semver, b, archive).value));
  }

  /** A name that parses under two types: the dashed archive for version 1.0.0-2.0.0 of one is
      that for version 2.0.0 of the other. */
  lemma CollisionExample(semver: string -> bool)
    requires SemverFacts(semver) && semver("2.0.0") && semver("1.0.0-2.0.0")
    ensures var archive := DashedArchive("tls", "1.0.0-2.0.0", "linux", "amd64");
            && Parse(semver, "tls", archive) == Some(Name("tls", "1.0.0-2.0.0", "linux", "amd64"))
            && Parse(semver, "tls-1.0.0", archive) == Some(Name("tls-1.0.0", "2.0.0", "linux", "amd64"))
  {
    hide Parse, SemverFacts, DashedArchive;
    var archive := DashedArchive("tls", "1.0.0-2.0.0", "linux", "amd64");
    assert "1.0.0" + "-" + "2.0.0" == "1.0.0-2.0.0" && "tls" + "-" + "1.0.0" == "tls-1.0.0";
    assert "1.0.0-2.0.0"[0] == '1' && "2.0.0"[0] == '2';
    CollisionParses(semver, "tls", "tls-1.0.0", archive, "1.0.0", "2.0.0", "linux", "amd64");
  }
}
