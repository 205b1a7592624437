/**
 Provider metadata: the records exchanged with registries and persisted on disk, and the
 validators applied to them.  URL parsing and semantic versions are left to functions.
 */
module Metadata {
  import opened Common
  import A = ArchiveName

  datatype ProviderKey = ProviderKey(hostname: string, namespace: string, providerType: string)

  datatype VersionKey = VersionKey(provider: ProviderKey, version: string)

  datatype RegistryPlatform = RegistryPlatform(os: string, arch: string)

  datatype RegistryVersion = RegistryVersion(version: string, platforms: seq<RegistryPlatform>)

  datatype Package = Package(os: string, arch: string, filename: string, shasum: Option<string>, downloadUrl: string)

  datatype VersionMetadata = VersionMetadata(
    hostname: string, namespace: string, providerType: string, version: string, platforms: seq<Package>)

  datatype MetadataError =
    | NotFound | InvalidAddress | RegistryNotAllowed | RefreshBackoff | Registry | Io

  /** The parts of the input language that are decided elsewhere: semantic versions, and
      URLs that parse with scheme https and a host. */
  datatype Syntax = Syntax(semver: string -> bool, httpsUrl: string -> bool)

  // ---------------------------------------------------------------- components

  predicate ComponentChar(c: char) {
    A.IsAlnum(c) || c == '-' || c == '_' || c == '.'
  }

  predicate ValidComponent(s: string) {
    && s != "" && |s| <= 100
    && (forall i :: 0 <= i < |s| ==> ComponentChar(s[i]))
    && s != "." && s != ".."
  }

  predicate ValidVersion(s: string) {
    && s != "" && |s| <= 100
    && (forall i :: 0 <= i < |s| ==> A.VersionChar(s[i]))
    && s != "." && s != ".."
  }

  function NormalizeVersion(s: string): string {
    A.StripV(s)
  }

  predicate ValidateVersion(s: string) {
    ValidVersion(NormalizeVersion(s))
  }

  predicate ValidPlatformComponent(s: string) {
    && s != "" && |s| <= 32
    && forall i :: 0 <= i < |s| ==> A.IsLower(s[i]) || A.IsDigit(s[i]) || s[i] == '_' || s[i] == '-'
  }

  /** The pieces between separators; always at least one. */
  function Split(s: string, c: char): (parts: seq<string>)
    ensures parts != []
    ensures forall i :: 0 <= i < |parts| ==> c !in parts[i]
  {
    if s == "" then [""]
    else
      var rest := Split(s[1..], c);
      if s[0] == c then [""] + rest else [[s[0]] + rest[0]] + rest[1..]
  }

  predicate ValidHostname(s: string) {
    && s != "" && |s| <= 253
    && forall i :: 0 <= i < |Split(s, '.')| ==> ValidComponent(Split(s, '.')[i])
  }

  predicate ValidProviderKey(k: ProviderKey) {
    ValidHostname(k.hostname) && ValidComponent(k.namespace) && ValidComponent(k.providerType)
  }

  // ---------------------------------------------------------------- validators

  predicate IsHex(c: char) {
    A.IsDigit(c) || 'a' <= c <= 'f' || 'A' <= c <= 'F'
  }

  predicate ValidChecksum(shasum: Option<string>) {
    shasum.Some? && |shasum.value| == 64 && forall i :: 0 <= i < 64 ==> IsHex(shasum.value[i])
  }

  predicate ValidatePackage(syn: Syntax, key: VersionKey, requested: RegistryPlatform, p: Package) {
    && p.os == requested.os && p.arch == requested.arch
    && A.Parse(syn.semver, key.provider.providerType, p.filename) ==
       Some(A.Name(key.provider.providerType, key.version, requested.os, requested.arch))
    && ValidChecksum(p.shasum)
    && syn.httpsUrl(p.downloadUrl)
  }

  predicate ValidateRegistryVersion(v: RegistryVersion) {
    && ValidateVersion(v.version)
    && |v.platforms| <= 128
    && forall i :: 0 <= i < |v.platforms| ==>
         ValidPlatformComponent(v.platforms[i].os) && ValidPlatformComponent(v.platforms[i].arch)
  }

  predicate ValidateRegistryVersions(versions: seq<RegistryVersion>) {
    |versions| <= 4096 && forall i :: 0 <= i < |versions| ==> ValidateRegistryVersion(versions[i])
  }

  function Platform(p: Package): RegistryPlatform {
    RegistryPlatform(p.os, p.arch)
  }

  predicate ValidatePackages(syn: Syntax, key: VersionKey, platforms: seq<Package>) {
    forall i :: 0 <= i < |platforms| ==> ValidatePackage(syn, key, Platform(platforms[i]), platforms[i])
  }

  /** What a persisted version document must satisfy to be reloaded. */
  predicate ValidateVersionMetadata(syn: Syntax, key: VersionKey, m: VersionMetadata) {
    && m.hostname == key.provider.hostname && m.namespace == key.provider.namespace
    && m.providerType == key.provider.providerType
    && ValidateVersion(m.version) && NormalizeVersion(m.version) == key.version
    && |m.platforms| <= 128
    && ValidatePackages(syn, key, m.platforms)
  }

  /** The document a refresh writes for a key. */
  function Document(key: VersionKey, platforms: seq<Package>): VersionMetadata {
    VersionMetadata(key.provider.hostname, key.provider.namespace, key.provider.providerType, key.version, platforms)
  }

  // ---------------------------------------------------------------- what the validators admit

  /** A package is accepted for a request if and only if it is for that platform, its file is
      named, in one of the two styles, after the very version and platform asked for, its
      checksum is 64 hexadecimal digits, and its link is an https one. */
  lemma PackageAcceptedExactly(syn: Syntax, key: VersionKey, requested: RegistryPlatform, p: Package)
    requires A.SemverFacts(syn.semver)
    ensures ValidatePackage(syn, key, requested, p) <==>
            var name := A.Name(key.provider.providerType, key.version, requested.os, requested.arch);
            && p.os == requested.os && p.arch == requested.arch
            && syn.semver(key.version) && A.AllLower(p.os) && A.AllLowerOrDigit(p.arch)
            && (exists style, v :: p.filename == A.Print(style, v, name))
            && p.shasum.Some? && |p.shasum.value| == 64
            && (forall i :: 0 <= i < 64 ==>
                  var c := p.shasum.value[i]; '0' <= c <= '9' || 'a' <= c <= 'f' || 'A' <= c <= 'F')
            && syn.httpsUrl(p.downloadUrl)
  {
    hide A.Parse, A.Print, A.AllLower, A.AllLowerOrDigit;
    var name := A.Name(key.provider.providerType, key.version, requested.os, requested.arch);
    if A.Parse(syn.semver, key.provider.providerType, p.filename).Some? {
      var style, v := A.ParseThenPrint(syn.semver, key.provider.providerType, p.filename);
    }
    if A.ValidName(syn.semver, name) {
      forall style, v | p.filename == A.Print(style, v, name)
        ensures A.Parse(syn.semver, key.provider.providerType, p.filename) == Some(name)
      {
        A.PrintThenParse(syn.semver, style, v, name);
      }
    }
  }

  /** The version in an accepted archive name is a valid version key if and only if it has at
      most 100 characters. */
  lemma ArchiveVersionsValid(syn: Syntax, providerType: string, filename: string)
    requires A.SemverFacts(syn.semver) && A.Parse(syn.semver, providerType, filename).Some?
    ensures var version := A.Parse(syn.semver, providerType, filename).value.version;
            && NormalizeVersion(version) == version
            && (ValidVersion(version) <==> |version| <= 100)
  {
    hide A.Parse, A.DottedCore;
    var style, v := A.ParseThenPrint(syn.semver, providerType, filename);
    var version := A.Parse(syn.semver, providerType, filename).value.version;
    assert A.IsDigit(version[0]) && !A.IsDigit("."[0]) && !A.IsDigit(".."[0]);
  }

  /** What a version may be spelled as: up to 100 letters, digits, dots, dashes and pluses, but
      not a step along a path; in front of it one `v` is passed over. */
  lemma VersionAcceptedExactly(s: string)
    ensures ValidateVersion(s) <==> exists body ::
              && (if LeadingV(s) then s == "v" + body else s == body)
              && 0 < |body| <= 100 && body != "." && body != ".."
              && forall i :: 0 <= i < |body| ==>
                   var c := body[i];
                   '0' <= c <= '9' || 'a' <= c <= 'z' || 'A' <= c <= 'Z' || c == '.' || c == '-' || c == '+'
  {
    var body := NormalizeVersion(s);
    assert if LeadingV(s) then s == "v" + body else s == body;
    forall other | if LeadingV(s) then s == "v" + other else s == other ensures other == body {
      if LeadingV(s) { assert s[1..] == other; }
    }
  }

  /** A name in an address is refused if and only if it is empty, over 100 characters, a step
      along a path, or has a character other than letters, digits, dashes, underscores, dots. */
  lemma ComponentRefusedExactly(s: string)
    ensures !ValidComponent(s) <==>
            || s == "" || |s| > 100 || s == "." || s == ".."
            || exists c :: c in s && !('0' <= c <= '9' || 'a' <= c <= 'z' || 'A' <= c <= 'Z' ||
                                       c == '-' || c == '_' || c == '.')
  {
    assert forall i :: 0 <= i < |s| ==> s[i] in s;
  }

  /** An index is refused if and only if it has more than 4096 versions, one that is no version,
      one with more than 128 platforms, or one with a platform that is no platform. */
  lemma IndexRefusedExactly(versions: seq<RegistryVersion>)
    ensures !ValidateRegistryVersions(versions) <==>
            || |versions| > 4096
            || exists v :: v in versions && (
                 || !ValidateVersion(v.version) || |v.platforms| > 128
                 || exists p :: p in v.platforms && !(ValidPlatformComponent(p.os) && ValidPlatformComponent(p.arch)))
  {
    hide ValidateVersion, ValidPlatformComponent;
    if i :| 0 <= i < |versions| && !ValidateRegistryVersion(versions[i]) {
      assert versions[i] in versions;
      var platforms := versions[i].platforms;
      assert forall j :: 0 <= j < |platforms| ==> platforms[j] in platforms;
    }
  }

  /** An index may list any platform an archive can be named after, up to 32 characters and not
      empty; but also others, for which no package is ever accepted. */
  lemma ListedPlatforms(syn: Syntax, key: VersionKey, requested: RegistryPlatform, p: Package)
    requires A.SemverFacts(syn.semver)
    ensures A.ValidPlatform(requested.os, requested.arch) ==>
              && (ValidPlatformComponent(requested.os) <==> 0 < |requested.os| <= 32)
              && (ValidPlatformComponent(requested.arch) <==> 0 < |requested.arch| <= 32)
    ensures !A.ValidPlatform(requested.os, requested.arch) ==> !ValidatePackage(syn, key, requested, p)
    ensures ValidPlatformComponent("linux-musl") && !A.ValidPlatform("linux-musl", "amd64")
  {
    hide A.Parse, A.Print;
    PackageAcceptedExactly(syn, key, requested, p);
    assert "linux-musl"[5] == '-';
  }

  // ---------------------------------------------------------------- reload after restart

  predicate LeadingV(version: string) {
    version != "" && version[0] == 'v'
  }

  /** A document written for a validated key passes the reload validator exactly when the
      version key does not itself start with `v`. */
  lemma WrittenDocumentReloads(syn: Syntax, key: VersionKey, platforms: seq<Package>)
    requires ValidVersion(key.version) && |platforms| <= 128 && ValidatePackages(syn, key, platforms)
    ensures ValidateVersionMetadata(syn, key, Document(key, platforms)) <==> !LeadingV(key.version)
  {
    hide ValidatePackages;
    var v := key.version;
    if LeadingV(v) { assert |NormalizeVersion(v)| < |v|; }
  }

  /** What is reloaded for a key: exactly the documents of that very provider and version, spelled
      with or without a `v` in front, with at most 128 platforms, each of them valid. */
  lemma ReloadedExactly(syn: Syntax, key: VersionKey, m: VersionMetadata)
    ensures ValidateVersionMetadata(syn, key, m) <==>
            && (m == Document(key, m.platforms).(version := "v" + key.version)
                || (m == Document(key, m.platforms) && !LeadingV(key.version)))
            && m.hostname == key.provider.hostname && m.namespace == key.provider.namespace
            && m.providerType == key.provider.providerType
            && ValidVersion(key.version) && |m.platforms| <= 128
            && forall i :: 0 <= i < |m.platforms| ==>
                 ValidatePackage(syn, key, RegistryPlatform(m.platforms[i].os, m.platforms[i].arch), m.platforms[i])
  {
    hide ValidatePackage, ValidVersion;
    var v := "v" + key.version;
    assert v[1..] == key.version;
    if LeadingV(m.version) { assert m.version == "v" + m.version[1..]; }
  }

  /** Normalising what a client asked for strips one `v` only, so a doubled `v` yields a key
      whose document is written but never reloaded. */
  lemma DoubledVNotReloaded(syn: Syntax, provider: ProviderKey)
    ensures ValidateVersion("vv1.0.0") && NormalizeVersion("vv1.0.0") == "v1.0.0"
    ensures var key := VersionKey(provider, NormalizeVersion("vv1.0.0"));
            !ValidateVersionMetadata(syn, key, Document(key, []))
  {
    assert "vv1.0.0"[1..] == "v1.0.0";
    assert |NormalizeVersion("v1.0.0")| < |"v1.0.0"|;
  }

  /** The HTTP layer strips every leading `v`. */
  function TrimV(s: string): (r: string)
    ensures !LeadingV(r)
  {
    if LeadingV(s) then TrimV(s[1..]) else s
  }

  function IndexFile(): string {
    "index.json"
  }

  function VersionFile(version: string): string {
    version + ".json"
  }

  /** Two documents of one provider share a file exactly when they are the same document, or
      the version is spelled like the index. */
  lemma DocumentFilesDistinct(a: string, b: string)
    ensures VersionFile(a) == VersionFile(b) <==> a == b
    ensures VersionFile(a) == IndexFile() <==> a == "index"
  {
    assert VersionFile(a)[..|a|] == a && VersionFile(b)[..|b|] == b;
    assert IndexFile() == "index" + ".json";
    assert IndexFile()[..5] == "index";
  }

  /** The two routes of the HTTP layer that ask for a version: by its document, or by an archive
      file. */
  datatype Route = VersionRoute(text: string) | ArchiveRoute(filename: string)

  /** The version a route asks for: trimmed of every `v` and not the index, or parsed from the
      file name. */
  function RoutedVersion(syn: Syntax, provider: ProviderKey, route: Route): Option<string> {
    match route
    case VersionRoute(text) => if TrimV(text) == "index" then None else Some(TrimV(text))
    case ArchiveRoute(filename) =>
      var n := A.Parse(syn.semver, provider.providerType, filename);
      if n.None? then None else Some(n.value.version)
  }

  /** A document route asks for the version it names, after any number of `v`; an archive route
      asks for the version of the archive, in whatever style it is named. */
  lemma {:induction false} RoutesAskFor(syn: Syntax, provider: ProviderKey, vs: string, version: string,
                                        style: A.Style, v: bool, n: A.Name)
    requires (forall i :: 0 <= i < |vs| ==> vs[i] == 'v') && !LeadingV(version) && version != "index"
    requires A.SemverFacts(syn.semver) && A.ValidName(syn.semver, n) && n.providerType == provider.providerType
    ensures RoutedVersion(syn, provider, VersionRoute(vs + version)) == Some(version)
    ensures RoutedVersion(syn, provider, ArchiveRoute(A.Print(style, v, n))) == Some(n.version)
    decreases |vs|
  {
    hide A.Parse, A.Print;
    A.PrintThenParse(syn.semver, style, v, n);
    if vs == "" {
      assert vs + version == version;
    } else {
      assert (vs + version)[1..] == vs[1..] + version;
      RoutesAskFor(syn, provider, vs[1..], version, style, v, n);
    }
  }

  /** Every version key the HTTP layer can produce has no leading `v` and is not the index, so a
      document written for it always reloads and has a file of its own. */
  lemma HttpKeysReload(syn: Syntax, provider: ProviderKey, route: Route, platforms: seq<Package>)
    requires A.SemverFacts(syn.semver) && RoutedVersion(syn, provider, route).Some?
    requires ValidateVersion(RoutedVersion(syn, provider, route).value) && |platforms| <= 128
    requires var key := VersionKey(provider, NormalizeVersion(RoutedVersion(syn, provider, route).value));
             ValidatePackages(syn, key, platforms)
    ensures var key := VersionKey(provider, NormalizeVersion(RoutedVersion(syn, provider, route).value));
            && ValidateVersionMetadata(syn, key, Document(key, platforms))
            && VersionFile(key.version) != IndexFile()
  {
    hide A.Parse, ValidatePackages, A.DottedCore;
    var version := RoutedVersion(syn, provider, route).value;
    if route.ArchiveRoute? {
      var style, v := A.ParseThenPrint(syn.semver, provider.providerType, route.filename);
      assert A.IsDigit(version[0]) && !A.IsDigit("index"[0]);
    }
    assert NormalizeVersion(version) == version;
    WrittenDocumentReloads(syn, VersionKey(provider, version), platforms);
    DocumentFilesDistinct(version, version);
  }
}
