/**
 File names and paths: archive paths are distinct for distinct keys, temporary names are
 distinct for distinct writers, and the startup cleanup tells temporary files from
 published ones.
 */
module TempNames {
  import opened Common
  import A = ArchiveName
  import M = Metadata

  // ---------------------------------------------------------------- paths

  /** Components joined below a root. */
  function Path(root: string, parts: seq<string>): string
    decreases |parts|
  {
    if parts == [] then root else Path(root, parts[..|parts| - 1]) + "/" + parts[|parts| - 1]
  }

  predicate SlashFree(s: string) {
    '/' !in s
  }

  lemma {:induction false} PathInjective(root: string, a: seq<string>, b: seq<string>)
    requires |a| == |b| && (forall i :: 0 <= i < |a| ==> SlashFree(a[i]) && SlashFree(b[i]))
    requires Path(root, a) == Path(root, b)
    ensures a == b
    decreases |a|
  {
    if a != [] {
      var n := |a| - 1;
      var pa, pb := Path(root, a[..n]), Path(root, b[..n]);
      LastPart(pa, a[n]);
      LastPart(pb, b[n]);
      PathInjective(root, a[..n], b[..n]);
      assert a == a[..n] + [a[n]] && b == b[..n] + [b[n]];
    }
  }

  lemma LastPart(dir: string, name: string)
    requires SlashFree(name)
    ensures var p := dir + "/" + name;
            A.LastIndex(p, '/') == |dir| && p[..|dir|] == dir && p[|dir| + 1..] == name
  {
    A.LastIndexIs(dir + "/" + name, '/', |dir|);
  }

  datatype ArchiveKey = ArchiveKey(hostname: string, namespace: string, providerType: string, filename: string)

  function ArchivePath(root: string, k: ArchiveKey): string {
    Path(root, ["providers", k.hostname, k.namespace, k.providerType, k.filename])
  }

  predicate Plain(k: ArchiveKey) {
    SlashFree(k.hostname) && SlashFree(k.namespace) && SlashFree(k.providerType) && SlashFree(k.filename)
  }

  /** Distinct keys made of plain components have distinct archive paths. */
  lemma ArchivePathInjective(root: string, a: ArchiveKey, b: ArchiveKey)
    requires Plain(a) && Plain(b) && ArchivePath(root, a) == ArchivePath(root, b)
    ensures a == b
  {
    hide Path;
    var pa := ["providers", a.hostname, a.namespace, a.providerType, a.filename];
    var pb := ["providers", b.hostname, b.namespace, b.providerType, b.filename];
    PathInjective(root, pa, pb);
    assert pa[1] == pb[1] && pa[2] == pb[2] && pa[3] == pb[3] && pa[4] == pb[4];
  }

  // ---------------------------------------------------------------- numbers in names

  function Decimal(n: nat): (s: string)
    ensures s != "" && forall i :: 0 <= i < |s| ==> A.IsDigit(s[i])
  {
    if n < 10 then [DigitChar(n)] else Decimal(n / 10) + [DigitChar(n % 10)]
  }

  function DigitChar(n: nat): (c: char)
    requires n < 10
    ensures A.IsDigit(c)
  {
    (n + 48) as char
  }

  lemma {:induction false} DecimalInjective(m: nat, n: nat)
    requires Decimal(m) == Decimal(n)
    ensures m == n
    decreases m + n
  {
    var s, t := Decimal(m), Decimal(n);
    assert s[|s| - 1] == DigitChar(m % 10) && t[|t| - 1] == DigitChar(n % 10);
    assert m % 10 == n % 10;
    if m >= 10 && n >= 10 {
      assert s[..|s| - 1] == Decimal(m / 10) && t[..|t| - 1] == Decimal(n / 10);
      DecimalInjective(m / 10, n / 10);
    }
  }

  // ---------------------------------------------------------------- temporary names

  /** The stem is the archive's file name, or `metadata`. */
  function TempName(stem: string, pid: nat, number: nat): string {
    "." + (A.Joined(A.Fields(stem, Decimal(pid), Decimal(number)), '-') + ".tmp")
  }

  /** What the startup cleanup removes. */
  predicate IsTempName(name: string) {
    "." <= name && A.StripSuffix(name, ".tmp").Some?
  }

  lemma DecimalHasNoHyphen(n: nat)
    ensures '-' !in Decimal(n)
  {
    hide Decimal;
    var s := Decimal(n);
    assert forall i :: 0 <= i < |s| ==> A.IsDigit(s[i]);
  }

  /** No two writers of one process share a temporary name, in whatever directory. */
  lemma TempNameInjective(a: string, p: nat, m: nat, b: string, q: nat, n: nat)
    requires TempName(a, p, m) == TempName(b, q, n)
    ensures a == b && p == q && m == n
  {
    hide A.Joined, Decimal;
    var fa, fb := A.Fields(a, Decimal(p), Decimal(m)), A.Fields(b, Decimal(q), Decimal(n));
    DecimalHasNoHyphen(p);
    DecimalHasNoHyphen(m);
    DecimalHasNoHyphen(q);
    DecimalHasNoHyphen(n);
    var ja, jb := A.Joined(fa, '-'), A.Joined(fb, '-');
    assert TempName(a, p, m)[1..] == ja + ".tmp" && TempName(b, q, n)[1..] == jb + ".tmp";
    A.StripAdded(ja, "", ".tmp");
    A.StripAdded(jb, "", ".tmp");
    A.SplitJoined(fa, '-');
    A.SplitJoined(fb, '-');
    DecimalInjective(p, q);
    DecimalInjective(m, n);
  }

  const DOCUMENT_STEM := "metadata"

  /** The two sorts of writers never share a temporary name, whatever numbers their own
      sequences give them. */
  lemma SortsNeverClash(semver: string -> bool, routeType: string, archive: string,
                        p: nat, m: nat, q: nat, n: nat)
    requires A.Parse(semver, routeType, archive).Some?
    ensures TempName(archive, p, m) != TempName(DOCUMENT_STEM, q, n)
  {
    assert archive[0] == 't' && DOCUMENT_STEM[0] == 'm';
    if TempName(archive, p, m) == TempName(DOCUMENT_STEM, q, n) {
      TempNameInjective(archive, p, m, DOCUMENT_STEM, q, n);
      assert false;
    }
  }

  /** How the names are spelled out. */
  lemma NamesSpelled(root: string, k: ArchiveKey, stem: string, pid: nat, number: nat)
    ensures ArchivePath(root, k) ==
            root + "/" + "providers" + "/" + k.hostname + "/" + k.namespace + "/" + k.providerType + "/" + k.filename
    ensures TempName(stem, pid, number) == "." + stem + "-" + Decimal(pid) + "-" + Decimal(number) + ".tmp"
  {
    assert Path(root, []) == root;
    PathGrows(root, [], "providers");
    PathGrows(root, ["providers"], k.hostname);
    PathGrows(root, ["providers", k.hostname], k.namespace);
    PathGrows(root, ["providers", k.hostname, k.namespace], k.providerType);
    PathGrows(root, ["providers", k.hostname, k.namespace, k.providerType], k.filename);
    hide Path;
    assert [] + ["providers"] == ["providers"] && ["providers"] + [k.hostname] == ["providers", k.hostname];
    assert ["providers", k.hostname] + [k.namespace] == ["providers", k.hostname, k.namespace];
    assert ["providers", k.hostname, k.namespace] + [k.providerType] ==
           ["providers", k.hostname, k.namespace, k.providerType];
    assert ["providers", k.hostname, k.namespace, k.providerType] + [k.filename] ==
           ["providers", k.hostname, k.namespace, k.providerType, k.filename];
  }

  lemma PathGrows(root: string, parts: seq<string>, part: string)
    ensures Path(root, parts + [part]) == Path(root, parts) + "/" + part
  {
    assert (parts + [part])[..|parts|] == parts;
  }

  /** What the cleanup removes: names that start with a dot and end in `.tmp`, which may be the
      same dot. */
  lemma RemovedExactly(name: string)
    ensures IsTempName(name) <==> name == ".tmp" || exists middle :: name == "." + middle + ".tmp"
  {
    if IsTempName(name) && |name| > 4 {
      var n := |name| - 4;
      assert name == "." + name[1..n] + ".tmp";
    }
    forall middle | name == "." + middle + ".tmp" ensures IsTempName(name) {
      A.StripAdded("." + middle, "", ".tmp");
    }
  }

  /** Temporary names are recognised, and nothing published is. */
  lemma CleanupTellsApart(semver: string -> bool, routeType: string, archive: string, version: string,
                          stem: string, pid: nat, number: nat)
    requires A.Parse(semver, routeType, archive).Some?
    ensures IsTempName(TempName(stem, pid, number))
    ensures !IsTempName(archive)
    ensures !IsTempName(M.VersionFile(version)) && !IsTempName(M.IndexFile())
  {
    var joined := A.Joined(A.Fields(stem, Decimal(pid), Decimal(number)), '-');
    A.StripAdded("." + joined, "", ".tmp");
    assert TempName(stem, pid, number) == "." + joined + ".tmp";
    assert archive[0] == 't';
    var v := M.VersionFile(version);
    assert v[|v| - 1] == 'n';
    assert M.IndexFile()[9] == 'n';
    assert ".tmp"[3] == 'p';
  }

  // ---------------------------------------------------------------- the directory walk

  datatype Node = File | Other | Directory(entries: seq<Entry>)
  datatype Entry = Entry(name: string, node: Node)

  predicate Stale(e: Entry) {
    e.node.File? && IsTempName(e.name)
  }

  /** A directory tree without its temporary files. */
  function Clean(entries: seq<Entry>): (r: seq<Entry>)
    decreases entries
  {
    if entries == [] then []
    else
      var e := entries[0];
      var rest := Clean(entries[1..]);
      if Stale(e) then rest
      else if e.node.Directory? then [Entry(e.name, Directory(Clean(e.node.entries)))] + rest
      else [e] + rest
  }

  function CountStale(entries: seq<Entry>): nat
    decreases entries
  {
    if entries == [] then 0
    else
      var e := entries[0];
      (if Stale(e) then 1 else if e.node.Directory? then CountStale(e.node.entries) else 0) + CountStale(entries[1..])
  }

  /** There is a file at this path. */
  predicate HasFile(entries: seq<Entry>, path: seq<string>)
    decreases |path|
  {
    path != [] && exists i :: 0 <= i < |entries| && FileAt(entries[i], path)
  }

  predicate FileAt(e: Entry, path: seq<string>)
    requires path != []
    decreases |path|, 0
  {
    e.name == path[0] &&
    if |path| == 1 then e.node.File? else e.node.Directory? && HasFile(e.node.entries, path[1..])
  }

  datatype Walked = Failed(left: seq<Entry>) | Cleaned(left: seq<Entry>, removed: nat)

  /** Everything there is to look at. */
  function Size(entries: seq<Entry>): nat
    decreases entries
  {
    if entries == [] then 0
    else 1 + (if entries[0].node.Directory? then Size(entries[0].node.entries) else 0) + Size(entries[1..])
  }

  /** The walk as written, which ends when a file operation fails: here after `steps` entries, and
      with as many left over if it does not come to that.  It succeeds if and only if none fails,
      and then has removed exactly the temporary files, and counted them; a walk that fails has
      removed nothing else. */
  method Walk(entries: seq<Entry>, removed: nat, steps: nat) returns (r: Walked, more: nat)
    ensures r.Cleaned? <==> Size(entries) <= steps
    ensures r.Cleaned? ==> r.left == Clean(entries) && r.removed == removed + CountStale(entries)
    ensures r.Cleaned? ==> more == steps - Size(entries)
    ensures forall path :: path != [] && HasFile(entries, path) && !IsTempName(path[|path| - 1]) ==>
              HasFile(r.left, path)
    decreases entries
  {
    more := steps;
    if entries == [] { return Cleaned([], removed), more; }
    if more == 0 { return Failed(entries), 0; }
    more := more - 1;
    var e := entries[0];
    var head: seq<Entry> := [e];
    var count := removed;
    if e.node.Directory? {
      var inner;
      inner, more := Walk(e.node.entries, count, more);
      head := [Entry(e.name, Directory(inner.left))];
      if inner.Failed? {
        HeadKept(entries, head, entries[1..]);
        return Failed(head + entries[1..]), more;
      }
      count := inner.removed;
    } else if Stale(e) {
      head := [];
      count := count + 1;
    }
    var tail;
    tail, more := Walk(entries[1..], count, more);
    HeadKept(entries, head, tail.left);
    r := if tail.Failed? then Failed(head + tail.left) else Cleaned(head + tail.left, tail.removed);
  }

  ghost predicate Keeps(before: seq<Entry>, after: seq<Entry>) {
    forall path :: path != [] && HasFile(before, path) && !IsTempName(path[|path| - 1]) ==> HasFile(after, path)
  }

  lemma HeadKept(entries: seq<Entry>, head: seq<Entry>, tail: seq<Entry>)
    requires entries != []
    requires var e := entries[0];
             if e.node.Directory? then
               && |head| == 1 && head[0].name == e.name && head[0].node.Directory?
               && Keeps(e.node.entries, head[0].node.entries)
             else head == if Stale(e) then [] else [e]
    requires Keeps(entries[1..], tail)
    ensures Keeps(entries, head + tail)
  {
    hide IsTempName;
    var all := head + tail;
    forall path | path != [] && HasFile(entries, path) && !IsTempName(path[|path| - 1]) ensures HasFile(all, path) {
      var i :| 0 <= i < |entries| && FileAt(entries[i], path);
      if i == 0 {
        assert |path| > 1 ==> path[1..][|path| - 2] == path[|path| - 1];
        assert head != [];
        assert FileAt(head[0], path);
        assert all[0] == head[0];
      } else {
        assert entries[1..][i - 1] == entries[i];
        assert HasFile(entries[1..], path);
        var j :| 0 <= j < |tail| && FileAt(tail[j], path);
        assert all[|head| + j] == tail[j];
      }
    }
  }

  /** A successful cleanup leaves exactly the files that are not temporary. */
  lemma {:induction false} CleanExactly(entries: seq<Entry>, path: seq<string>)
    requires path != []
    ensures HasFile(Clean(entries), path) <==> HasFile(entries, path) && !IsTempName(path[|path| - 1])
    decreases entries
  {
    hide IsTempName;
    if entries != [] {
      var e := entries[0];
      var rest := Clean(entries[1..]);
      CleanExactly(entries[1..], path);
      HasFileSplit([e], entries[1..], path);
      assert entries == [e] + entries[1..];
      SingleFile(e, path);
      if e.node.Directory? {
        var c := Entry(e.name, Directory(Clean(e.node.entries)));
        HasFileSplit([c], rest, path);
        SingleFile(c, path);
        if |path| > 1 {
          CleanExactly(e.node.entries, path[1..]);
          assert path[1..][|path| - 2] == path[|path| - 1];
        }
      } else if !Stale(e) {
        HasFileSplit([e], rest, path);
      }
    }
  }

  lemma HasFileSplit(a: seq<Entry>, b: seq<Entry>, path: seq<string>)
    requires path != []
    ensures HasFile(a + b, path) <==> HasFile(a, path) || HasFile(b, path)
  {
    var all := a + b;
    if HasFile(a, path) {
      var i :| 0 <= i < |a| && FileAt(a[i], path);
      assert all[i] == a[i];
    }
    if HasFile(b, path) {
      var i :| 0 <= i < |b| && FileAt(b[i], path);
      assert all[|a| + i] == b[i];
    }
    if HasFile(all, path) {
      var i :| 0 <= i < |all| && FileAt(all[i], path);
      assert all[i] == if i < |a| then a[i] else b[i - |a|];
    }
  }

  lemma SingleFile(e: Entry, path: seq<string>)
    requires path != []
    ensures HasFile([e], path) <==> FileAt(e, path)
  {
    assert [e][0] == e;
  }
}
