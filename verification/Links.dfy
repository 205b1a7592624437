/**
 Link integrity: the archive links of a version document lead back to the platform they
 were printed for, through the metadata lookup and the storage checks.
 */
module Links {
  import opened Common
  import A = ArchiveName
  import opened Metadata
  import T = TempNames

  // ---------------------------------------------------------------- the storage side

  predicate StorageComponent(s: string) {
    && s != "" && s != "." && s != ".." && |s| <= 100
    && forall i :: 0 <= i < |s| ==> A.IsAlnum(s[i]) || s[i] == '-' || s[i] == '_'
  }

  predicate StorageHostname(s: string) {
    s != "" && forall i :: 0 <= i < |Split(s, '.')| ==> StorageComponent(Split(s, '.')[i])
  }

  predicate ValidateKey(syn: Syntax, k: T.ArchiveKey) {
    && StorageHostname(k.hostname) && StorageComponent(k.namespace) && StorageComponent(k.providerType)
    && '/' !in k.filename && '\\' !in k.filename
    && A.Parse(syn.semver, k.providerType, k.filename).Some?
  }

  function Lower(c: char): char {
    if 'A' <= c <= 'Z' then (c as int + 32) as char else c
  }

  function ExpectedChecksum(p: Package): Option<string> {
    if ValidChecksum(p.shasum) then Some(seq(64, i requires 0 <= i < 64 => Lower(p.shasum.value[i]))) else None
  }

  /** The first platform with this file name. */
  function FindByFilename(platforms: seq<Package>, filename: string): Option<Package> {
    if platforms == [] then None
    else if platforms[0].filename == filename then Some(platforms[0])
    else FindByFilename(platforms[1..], filename)
  }

  // ---------------------------------------------------------------- the HTTP side

  function ResponseKey(p: Package): string {
    p.os + "_" + p.arch
  }

  function ArchiveUrl(p: Package): string {
    "download/" + p.filename
  }

  /** The archive route: the segment after `download/`. */
  function Routed(url: string): Option<string> {
    var s := A.StripPrefix(url, "download/");
    if s.Some? && '/' !in s.value then s else None
  }

  /** What a request for an archive file finds: the version key it asks the metadata for, and
      the platform it then picks from that version's document. */
  function RequestedVersion(syn: Syntax, provider: ProviderKey, filename: string): Option<VersionKey> {
    var n := A.Parse(syn.semver, provider.providerType, filename);
    if n.None? || !ValidateVersion(n.value.version) then None
    else Some(VersionKey(provider, NormalizeVersion(n.value.version)))
  }

  // ---------------------------------------------------------------- agreement of the two validators

  lemma ComponentsAgree(s: string)
    requires ValidComponent(s)
    ensures StorageComponent(s) <==> '.' !in s
  {
  }

  /** The two sides accept the same hostnames, up to the length limit of one of them. */
  lemma HostnamesAgree(s: string)
    ensures ValidHostname(s) <==> StorageHostname(s) && |s| <= 253
  {
    hide ValidComponent, StorageComponent;
    var parts := Split(s, '.');
    forall i | 0 <= i < |parts| ensures ValidComponent(parts[i]) <==> StorageComponent(parts[i]) {
      DotFreeAgree(parts[i]);
    }
  }

  lemma DotFreeAgree(s: string)
    requires '.' !in s
    ensures ValidComponent(s) <==> StorageComponent(s)
  {
  }

  predicate FileChar(c: char) {
    ComponentChar(c) || c == '+'
  }

  predicate FileText(s: string) {
    forall i :: 0 <= i < |s| ==> FileChar(s[i])
  }

  lemma PrintedIsFileText(semver: string -> bool, style: A.Style, v: bool, n: A.Name)
    requires A.SemverFacts(semver) && A.ValidName(semver, n) && ValidComponent(n.providerType)
    ensures FileText(A.Print(style, v, n))
  {
    FieldsAreFileText(semver, v, n);
    LiteralsAreFileText();
    hide FileText, A.SemverFacts, A.ValidName, A.Written;
    var c := A.Separator(style);
    var f := A.Written(n, v);
    BothFileText(f.version, [c]);
    BothFileText(f.version + [c], f.os);
    BothFileText(f.version + [c] + f.os, [c]);
    BothFileText(f.version + [c] + f.os + [c], f.arch);
    BothFileText(A.Joined(f, c), A.Ending(style));
    BothFileText([c], A.Joined(f, c) + A.Ending(style));
    BothFileText(A.Body(style, v, n), ".zip");
    BothFileText("terraform-provider-", n.providerType);
    BothFileText(A.Prefix(n.providerType), A.Tail(style, v, n));
  }

  lemma FieldsAreFileText(semver: string -> bool, v: bool, n: A.Name)
    requires A.SemverFacts(semver) && A.ValidName(semver, n) && ValidComponent(n.providerType)
    ensures var f := A.Written(n, v);
            FileText(f.version) && FileText(f.os) && FileText(f.arch) && FileText(n.providerType)
  {
    hide A.DottedCore;
  }

  lemma LiteralsAreFileText()
    ensures FileText("_") && FileText("-") && FileText("") && FileText("-bin") && FileText(".zip")
    ensures FileText("terraform-provider-")
  {
  }

  lemma BothFileText(a: string, b: string)
    requires FileText(a) && FileText(b)
    ensures FileText(a + b)
  {
  }

  /** An accepted archive name is a plain file name. */
  lemma ArchiveNameIsPlain(syn: Syntax, providerType: string, filename: string)
    requires A.SemverFacts(syn.semver) && ValidComponent(providerType)
    requires A.Parse(syn.semver, providerType, filename).Some?
    ensures '/' !in filename && '\\' !in filename
  {
    hide A.Parse, A.Print, A.SemverFacts, A.ValidName;
    var style, v := A.ParseThenPrint(syn.semver, providerType, filename);
    PrintedIsFileText(syn.semver, style, v, A.Parse(syn.semver, providerType, filename).value);
  }

  /** For a provider that the metadata side accepts, the storage side accepts the same archive
      exactly when namespace and type have no dots. */
  lemma StorageAcceptsExactly(syn: Syntax, k: T.ArchiveKey)
    requires A.SemverFacts(syn.semver)
    requires ValidProviderKey(ProviderKey(k.hostname, k.namespace, k.providerType))
    requires A.Parse(syn.semver, k.providerType, k.filename).Some?
    ensures ValidateKey(syn, k) <==> '.' !in k.namespace && '.' !in k.providerType
  {
    hide A.Parse, A.SemverFacts, ValidComponent, ValidHostname, StorageComponent, StorageHostname;
    HostnamesAgree(k.hostname);
    ComponentsAgree(k.namespace);
    ComponentsAgree(k.providerType);
    ArchiveNameIsPlain(syn, k.providerType, k.filename);
  }

  /** Keys the storage side accepts have distinct archive paths. */
  lemma AcceptedKeysHaveOwnPaths(syn: Syntax, root: string, a: T.ArchiveKey, b: T.ArchiveKey)
    requires ValidateKey(syn, a) && ValidateKey(syn, b) && T.ArchivePath(root, a) == T.ArchivePath(root, b)
    ensures a == b
  {
    hide A.Parse;
    HostnameIsPlain(a.hostname);
    HostnameIsPlain(b.hostname);
    T.ArchivePathInjective(root, a, b);
  }

  lemma {:induction false} SplitKeepsChars(s: string, c: char, x: char)
    requires x in s && x != c
    ensures exists i :: 0 <= i < |Split(s, c)| && x in Split(s, c)[i]
  {
    var rest := Split(s[1..], c);
    if s[0] == x {
      assert x in Split(s, c)[0];
    } else {
      assert x in s[1..];
      SplitKeepsChars(s[1..], c, x);
      var i :| 0 <= i < |rest| && x in rest[i];
      if s[0] == c {
        assert Split(s, c)[i + 1] == rest[i];
      } else {
        assert i > 0 ==> Split(s, c)[i] == rest[i];
        assert i == 0 ==> x in Split(s, c)[0];
      }
    }
  }

  lemma HostnameIsPlain(s: string)
    requires StorageHostname(s)
    ensures T.SlashFree(s)
  {
    assert forall i :: 0 <= i < |Split(s, '.')| ==> StorageComponent(Split(s, '.')[i]) && '/' !in Split(s, '.')[i];
    if '/' in s { SplitKeepsChars(s, '.', '/'); }
  }

  // ---------------------------------------------------------------- main results

  predicate DistinctPlatforms(platforms: seq<Package>) {
    forall i, j :: 0 <= i < j < |platforms| ==> Platform(platforms[i]) != Platform(platforms[j])
  }

  /** Two validated platforms have the same file name only if they are the same platform. */
  lemma SameFileSamePlatform(syn: Syntax, key: VersionKey, p: Package, q: Package)
    requires ValidatePackage(syn, key, Platform(p), p) && ValidatePackage(syn, key, Platform(q), q)
    requires p.filename == q.filename
    ensures Platform(p) == Platform(q)
  {
  }

  lemma {:induction false} FindsItself(syn: Syntax, key: VersionKey, platforms: seq<Package>, i: nat)
    requires ValidatePackages(syn, key, platforms) && DistinctPlatforms(platforms) && i < |platforms|
    ensures FindByFilename(platforms, platforms[i].filename) == Some(platforms[i])
  {
    hide ValidatePackage;
    if i > 0 {
      if platforms[0].filename == platforms[i].filename { SameFileSamePlatform(syn, key, platforms[0], platforms[i]); }
      FindsItself(syn, key, platforms[1..], i - 1);
    }
  }

  /** Looking up a listed file name finds a listed package of that name. */
  lemma {:induction false} FindsOne(platforms: seq<Package>, i: nat)
    requires i < |platforms|
    ensures var found := FindByFilename(platforms, platforms[i].filename);
            found.Some? && found.value in platforms && found.value.filename == platforms[i].filename
  {
    if i > 0 { FindsOne(platforms[1..], i - 1); }
  }

  /** Every archive link printed in a version document of a dot-free provider routes to its
      file, asks for the same version, finds that same platform there (that very package, when
      the document names no platform twice), and passes the storage key and checksum checks. */
  lemma LinkIntegrity(syn: Syntax, key: VersionKey, m: VersionMetadata, i: nat)
    requires A.SemverFacts(syn.semver) && ValidProviderKey(key.provider)
    requires '.' !in key.provider.namespace && '.' !in key.provider.providerType
    requires ValidVersion(key.version) && ValidateVersionMetadata(syn, key, m)
    requires i < |m.platforms|
    ensures var p := m.platforms[i];
            var k := T.ArchiveKey(key.provider.hostname, key.provider.namespace, key.provider.providerType, p.filename);
            var found := FindByFilename(m.platforms, p.filename);
            && Routed(ArchiveUrl(p)) == Some(p.filename)
            && RequestedVersion(syn, key.provider, p.filename) == Some(key)
            && found.Some? && found.value in m.platforms
            && found.value.filename == p.filename && Platform(found.value) == Platform(p)
            && (DistinctPlatforms(m.platforms) ==> found.value == p)
            && ValidateKey(syn, k)
            && ExpectedChecksum(found.value).Some?
            && SameDigits(ExpectedChecksum(found.value).value, found.value.shasum.value)
  {
    var p := m.platforms[i];
    var k := T.ArchiveKey(key.provider.hostname, key.provider.namespace, key.provider.providerType, p.filename);
    FindsOne(m.platforms, i);
    var found := FindByFilename(m.platforms, p.filename).value;
    assert ValidatePackage(syn, key, Platform(p), p) && ValidatePackage(syn, key, Platform(found), found);
    SameFileSamePlatform(syn, key, found, p);
    ChecksumExactly(found);
    assert ExpectedChecksum(found).Some?;
    hide A.Parse, FindByFilename, ValidateKey, ValidProviderKey, ExpectedChecksum, SameDigits;
    VersionAsked(syn, key, p);
    if DistinctPlatforms(m.platforms) { FindsItself(syn, key, m.platforms, i); }
    StorageAcceptsExactly(syn, k);
    ComponentOfKey(key.provider);
    ArchiveNameIsPlain(syn, key.provider.providerType, p.filename);
    A.StripAdded(p.filename, "download/", "");
  }

  lemma ComponentOfKey(k: ProviderKey)
    requires ValidProviderKey(k)
    ensures ValidComponent(k.providerType)
  {
  }

  /** The value of a hexadecimal digit in either case. */
  function DigitValue(c: char): int {
    if '0' <= c <= '9' then c as int - '0' as int
    else if 'a' <= c <= 'f' then c as int - 'a' as int + 10
    else if 'A' <= c <= 'F' then c as int - 'A' as int + 10
    else -1
  }

  /** A checksum in lower case with the digits of another. */
  predicate SameDigits(lower: string, sum: string) {
    && |lower| == |sum| == 64
    && forall i :: 0 <= i < 64 ==>
         0 <= DigitValue(lower[i]) == DigitValue(sum[i]) < 16 && !('A' <= lower[i] <= 'F')
  }

  /** A checksum is expected if and only if the package names one of 64 hexadecimal digits, and
      then it is that one in lower case. */
  lemma ChecksumExactly(p: Package)
    ensures ExpectedChecksum(p).Some? <==>
            p.shasum.Some? && |p.shasum.value| == 64 && forall i :: 0 <= i < 64 ==> DigitValue(p.shasum.value[i]) >= 0
    ensures ExpectedChecksum(p).Some? ==> SameDigits(ExpectedChecksum(p).value, p.shasum.value)
  {
  }

  lemma VersionAsked(syn: Syntax, key: VersionKey, p: Package)
    requires A.SemverFacts(syn.semver) && ValidVersion(key.version) && ValidatePackage(syn, key, Platform(p), p)
    ensures RequestedVersion(syn, key.provider, p.filename) == Some(key)
  {
    hide A.Parse;
    ParsedVersion(syn, key.provider.providerType, p.filename);
  }

  lemma ParsedVersion(syn: Syntax, providerType: string, filename: string)
    requires A.SemverFacts(syn.semver) && A.Parse(syn.semver, providerType, filename).Some?
    ensures NormalizeVersion(A.Parse(syn.semver, providerType, filename).value.version) ==
            A.Parse(syn.semver, providerType, filename).value.version
    ensures A.ValidPlatform(A.Parse(syn.semver, providerType, filename).value.os,
                            A.Parse(syn.semver, providerType, filename).value.arch)
  {
    hide A.Parse;
    var style, v := A.ParseThenPrint(syn.semver, providerType, filename);
  }

  /** No two platforms collapse to one key of the response, and a key split at its last
      underscore gives back the platform. */
  lemma ResponseKeysDistinct(syn: Syntax, key: VersionKey, p: Package, q: Package)
    requires A.SemverFacts(syn.semver)
    requires ValidatePackage(syn, key, Platform(p), p) && ValidatePackage(syn, key, Platform(q), q)
    ensures ResponseKey(p) == ResponseKey(q) <==> Platform(p) == Platform(q)
    ensures var last := A.LastIndex(ResponseKey(p), '_');
            last >= 0 && ResponseKey(p)[..last] == p.os && ResponseKey(p)[last + 1..] == p.arch
  {
    hide A.Parse;
    ParsedVersion(syn, key.provider.providerType, p.filename);
    ParsedVersion(syn, key.provider.providerType, q.filename);
    A.LastIndexIs(ResponseKey(p), '_', |p.os|);
    A.LastIndexIs(ResponseKey(q), '_', |q.os|);
    assert ResponseKey(p)[..|p.os|] == p.os && ResponseKey(p)[|p.os| + 1..] == p.arch;
    assert ResponseKey(q)[..|q.os|] == q.os && ResponseKey(q)[|q.os| + 1..] == q.arch;
  }
}
