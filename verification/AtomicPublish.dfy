/**
 Publishing a file by writing a temporary one, syncing it and renaming it, under crashes at
 every point.  Both writers of the program work this way: the archive download, which
 accepts its bytes by size and checksum, and the metadata writer, which accepts exactly the
 serialised document.

 The entries of files, the entries of directories and file contents become durable
 separately; syncing a directory makes its own entries durable and nothing above it.  A crash
 keeps, for each entry, either what was last made durable or what was last in memory; it
 keeps an entry only with the directories on the way to it, and the bytes only of files that
 were synced.
 */
module AtomicPublish {
  import opened Common

  /** Path components, and checksums. */
  type Part(==, !new)
  type Digest(==, !new)
  type Bytes = seq<Byte>

  /** A directory by its path from the root of the file system, which is always there. */
  type Dir = seq<Part>

  /** A published file. */
  datatype Name = Name(dir: Dir, file: Part)

  /** The two writers of the program. */
  datatype Sort = Document | Download

  /** Temporary names carry the sort of writer, the process and a number from that sort's own
      sequence; see `TempNames.TempNameInjective` and `TempNames.SortsNeverClash`. */
  datatype Loc = Dest(name: Name) | Temp(dir: Dir, sort: Sort, pid: nat, number: nat)

  function DirOf(l: Loc): Dir {
    match l
    case Dest(name) => name.dir
    case Temp(dir, _, _, _) => dir
  }

  datatype Goal = Exactly(bytes: Bytes) | Verified(digest: Digest)

  function SortOf(goal: Goal): Sort {
    if goal.Exactly? then Document else Download
  }

  /** Syncing a directory does something only on Unix. */
  datatype Env = Env(hash: Bytes -> Digest, maxBytes: nat, unix: bool)

  predicate Accepts(env: Env, goal: Goal, bytes: Bytes) {
    match goal
    case Exactly(b) => bytes == b
    case Verified(d) => |bytes| <= env.maxBytes && env.hash(bytes) == d
  }

  datatype Inode = Inode(bytes: Bytes, synced: bool)

  datatype Writer =
    | Fresh(name: Name, goal: Goal)
    | Writing(name: Name, goal: Goal, number: nat, ino: nat)
    | Accepted(name: Name, goal: Goal, number: nat, ino: nat)
    | Synced(name: Name, goal: Goal, number: nat, ino: nat)
    | Renamed(name: Name)
    | Finished(ok: bool)

  /** The entries of files in memory and on disk, the files they name, and the directories
      whose entry in the one above is in memory and on disk. */
  datatype Disk = Disk(
    live: map<Loc, nat>, durable: map<Loc, nat>, inodes: map<nat, Inode>, dirs: set<Dir>, durableDirs: set<Dir>)

  /** The directory and those above it. */
  ghost function Way(dir: Dir): set<Dir> {
    set k | 0 < k <= |dir| :: dir[..k]
  }

  /** Every step of the way to the directory is among `dirs`. */
  ghost predicate Made(dirs: set<Dir>, dir: Dir) {
    Way(dir) <= dirs
  }

  /** The running process; `owner` only records which writer was given a number. */
  datatype Process = Process(
    pid: nat, documents: nat, downloads: nat, serving: bool, writers: map<nat, Writer>, owner: map<(Sort, nat), nat>)

  /** The next number of a sequence. */
  function NextNumber(p: Process, sort: Sort): nat {
    if sort.Document? then p.documents else p.downloads
  }

  function NextTemp(p: Process, dir: Dir, sort: Sort): Loc {
    Temp(dir, sort, p.pid, NextNumber(p, sort))
  }

  function TempOf(pid: nat, k: Writer): Loc
    requires HasTemp(k)
  {
    Temp(k.name.dir, SortOf(k.goal), pid, k.number)
  }

  /** What was there at first, and what writers were asked to publish. */
  datatype Record = Record(initial: map<Name, Bytes>, asked: set<(Name, Goal)>)

  datatype State = State(disk: Disk, proc: Process, record: Record)

  datatype Action =
    | MakeDirs(dir: Dir)
    | Begin(w: nat, name: Name, goal: Goal)
    | Open(w: nat, ino: nat)
    | Write(w: nat, chunk: Bytes)
    | Accept(w: nat)
    | Sync(w: nat)
    | Rename(w: nat)
    | SyncDir(w: nat)
    | Fail(w: nat, removes: bool)
    | Flush(locs: set<Loc>, dirs: set<Dir>)
    | Crash(entries: map<Loc, nat>, inodes: map<nat, Inode>, dirs: set<Dir>, pid: nat)
    | StartServing(ok: bool, removed: set<Loc>)

  predicate HasTemp(k: Writer) {
    k.Writing? || k.Accepted? || k.Synced?
  }

  /** Exclusive creation fails on an existing name. */
  predicate Collides(s: State, dir: Dir, sort: Sort) {
    NextTemp(s.proc, dir, sort) in s.disk.live
  }

  ghost predicate OnFile(s: State, w: nat) {
    w in s.proc.writers && HasTemp(s.proc.writers[w]) && s.proc.writers[w].ino in s.disk.inodes
  }

  /** Directories are made at start-up and by every writer before it opens its file, and are
      never removed; a writer finds its directory or does not get to open the file. */
  ghost predicate Enabled(env: Env, s: State, a: Action) {
    match a
    case MakeDirs(_) => true
    case Begin(w, _, _) => s.proc.serving && w !in s.proc.writers
    case Open(w, ino) =>
      && w in s.proc.writers && s.proc.writers[w].Fresh? && Made(s.disk.dirs, s.proc.writers[w].name.dir)
      && (Collides(s, s.proc.writers[w].name.dir, SortOf(s.proc.writers[w].goal)) || ino !in s.disk.inodes)
    case Write(w, _) => OnFile(s, w) && s.proc.writers[w].Writing?
    case Accept(w) =>
      OnFile(s, w) && s.proc.writers[w].Writing? &&
      Accepts(env, s.proc.writers[w].goal, s.disk.inodes[s.proc.writers[w].ino].bytes)
    case Sync(w) => OnFile(s, w) && s.proc.writers[w].Accepted?
    case Rename(w) => OnFile(s, w) && s.proc.writers[w].Synced?
    case SyncDir(w) => w in s.proc.writers && s.proc.writers[w].Renamed?
    case Fail(w, _) => w in s.proc.writers && !s.proc.writers[w].Finished?
    case Flush(_, _) => true
    case Crash(entries, inodes, dirs, _) => CrashImage(s.disk, entries, inodes, dirs)
    case StartServing(ok, removed) =>
      && !s.proc.serving
      && (forall l :: l in removed ==> l.Temp?)
      && (ok ==> forall l :: l in s.disk.live && l.Temp? ==> l in removed)
  }

  /** What a crash may leave: of the directories, all with a durable entry in one that is left;
      of the files, all with an entry in memory and on disk in a directory that is left. */
  ghost predicate CrashImage(d: Disk, entries: map<Loc, nat>, inodes: map<nat, Inode>, dirs: set<Dir>) {
    && dirs <= d.dirs && (forall x :: x in dirs ==> Made(dirs, x))
    && (forall x :: x in d.durableDirs && x != [] && Made(dirs, Above(x)) ==> x in dirs)
    && (forall l :: l in entries ==>
          && Made(dirs, DirOf(l))
          && ((l in d.live && entries[l] == d.live[l]) || (l in d.durable && entries[l] == d.durable[l])))
    && (forall l :: l in d.live && l in d.durable && Made(dirs, DirOf(l)) ==> l in entries)
    && (forall i :: i in d.inodes ==> i in inodes && (d.inodes[i].synced ==> inodes[i] == d.inodes[i]))
  }

  function Above(dir: Dir): Dir
    requires dir != []
  {
    dir[..|dir| - 1]
  }

  /** The entries of files in the directory, and of directories in it. */
  ghost function FilesIn(d: Disk, dir: Dir): set<Loc> {
    set l | l in d.live.Keys + d.durable.Keys && DirOf(l) == dir
  }

  ghost function DirsIn(d: Disk, dir: Dir): set<Dir> {
    set x | x in d.dirs && x != [] && Above(x) == dir
  }

  /** The entries of `locs` and `dirs` reach the disk as they are now. */
  ghost function Persisted(d: Disk, locs: set<Loc>, dirs: set<Dir>): Disk {
    d.(durable := Flushed(d, locs), durableDirs := d.durableDirs + dirs * d.dirs)
  }

  ghost function Flushed(d: Disk, locs: set<Loc>): map<Loc, nat> {
    map l | l in d.live.Keys + d.durable.Keys && (if l in locs then l in d.live else l in d.durable)
      :: if l in locs then d.live[l] else d.durable[l]
  }

  ghost function DiskAfter(env: Env, s: State, a: Action): Disk
    requires Enabled(env, s, a)
  {
    var d := s.disk;
    match a
    case MakeDirs(dir) => d.(dirs := d.dirs + Way(dir))
    case Begin(_, _, _) => d
    case Open(w, ino) =>
      var dir, sort := s.proc.writers[w].name.dir, SortOf(s.proc.writers[w].goal);
      var t := NextTemp(s.proc, dir, sort);
      if !Collides(s, dir, sort) then d.(live := d.live[t := ino], inodes := d.inodes[ino := Inode([], false)])
      else if sort.Download? then
        d.(live := d.live - {t})  // the download's cleanup guard is armed before it creates the file
      else d
    case Write(w, chunk) =>
      var i := s.proc.writers[w].ino;
      d.(inodes := d.inodes[i := Inode(d.inodes[i].bytes + chunk, false)])
    case Accept(_) => d
    case Sync(w) =>
      var i := s.proc.writers[w].ino;
      d.(inodes := d.inodes[i := d.inodes[i].(synced := true)])
    case Rename(w) =>
      var k := s.proc.writers[w];
      d.(live := (d.live - {TempOf(s.proc.pid, k)})[Dest(k.name) := k.ino])
    case SyncDir(w) =>
      var dir := s.proc.writers[w].name.dir;
      if env.unix then Persisted(d, FilesIn(d, dir), DirsIn(d, dir)) else d
    case Fail(w, removes) =>
      var k := s.proc.writers[w];
      if removes && HasTemp(k) then d.(live := d.live - {TempOf(s.proc.pid, k)}) else d
    case Flush(locs, dirs) => Persisted(d, locs, dirs)
    case Crash(entries, inodes, dirs, _) =>
      Disk(entries, entries, map i | i in inodes :: inodes[i].(synced := true), dirs, dirs)
    case StartServing(_, removed) => d.(live := d.live - removed)
  }

  ghost function WriterAfter(s: State, a: Action): Writer
    requires a.Begin? || a.Open? || a.Accept? || a.Sync? || a.Rename? || a.SyncDir? || a.Fail?
    requires !a.Begin? ==> a.w in s.proc.writers
    requires a.Open? ==> s.proc.writers[a.w].Fresh?
    requires a.Accept? || a.Sync? ==> HasTemp(s.proc.writers[a.w])
    requires a.Rename? ==> s.proc.writers[a.w].Synced?
  {
    if a.Begin? then Fresh(a.name, a.goal)
    else if a.Fail? then Finished(false)
    else if a.SyncDir? then Finished(true)
    else
      var k := s.proc.writers[a.w];
      if a.Open? then
        if Collides(s, k.name.dir, SortOf(k.goal)) then Finished(false)
        else Writing(k.name, k.goal, NextNumber(s.proc, SortOf(k.goal)), a.ino)
      else if a.Accept? then Accepted(k.name, k.goal, k.number, k.ino)
      else if a.Sync? then Synced(k.name, k.goal, k.number, k.ino)
      else Renamed(k.name)
  }

  ghost function ProcessAfter(env: Env, s: State, a: Action): Process
    requires Enabled(env, s, a)
  {
    var p := s.proc;
    match a
    case MakeDirs(_) => p
    case Write(_, _) => p
    case Flush(_, _) => p
    case Crash(_, _, _, pid) => Process(pid, 0, 0, false, map[], map[])
    case StartServing(_, _) => p.(serving := true)
    case Open(w, _) =>
      var sort := SortOf(p.writers[w].goal);
      p.(writers := p.writers[w := WriterAfter(s, a)],
         documents := if sort.Document? then p.documents + 1 else p.documents,
         downloads := if sort.Download? then p.downloads + 1 else p.downloads,
         owner := if Collides(s, p.writers[w].name.dir, sort) then p.owner
                  else p.owner[(sort, NextNumber(p, sort)) := w])
    case _ => p.(writers := p.writers[a.w := WriterAfter(s, a)])
  }

  ghost function RecordAfter(s: State, a: Action): Record {
    if a.Begin? then s.record.(asked := s.record.asked + {(a.name, a.goal)}) else s.record
  }

  ghost function Apply(env: Env, s: State, a: Action): State
    requires Enabled(env, s, a)
  {
    State(DiskAfter(env, s, a), ProcessAfter(env, s, a), RecordAfter(s, a))
  }

  ghost predicate ValidRun(env: Env, s: State, acts: seq<Action>)
    decreases |acts|
  {
    acts == [] || (Enabled(env, s, acts[0]) && ValidRun(env, Apply(env, s, acts[0]), acts[1..]))
  }

  ghost function Run(env: Env, s: State, acts: seq<Action>): State
    requires ValidRun(env, s, acts)
    decreases |acts|
  {
    if acts == [] then s else Run(env, Apply(env, s, acts[0]), acts[1..])
  }

  // ---------------------------------------------------------------- invariant

  /** Content a published name may have: what was there at first, or what a writer was asked
      to publish there and accepted. */
  ghost predicate Legit(env: Env, r: Record, name: Name, bytes: Bytes) {
    || (name in r.initial && bytes == r.initial[name])
    || (exists goal :: (name, goal) in r.asked && Accepts(env, goal, bytes))
  }

  ghost predicate Complete(env: Env, d: Disk, r: Record, name: Name, ino: nat) {
    ino in d.inodes && d.inodes[ino].synced && Legit(env, r, name, d.inodes[ino].bytes)
  }

  ghost predicate AllComplete(env: Env, d: Disk, r: Record) {
    && (forall l :: l in d.live && l.Dest? ==> Complete(env, d, r, l.name, d.live[l]))
    && (forall l :: l in d.durable && l.Dest? ==> Complete(env, d, r, l.name, d.durable[l]))
  }

  ghost predicate EntriesExist(d: Disk) {
    && (forall l :: l in d.live ==> d.live[l] in d.inodes)
    && (forall l :: l in d.durable ==> d.durable[l] in d.inodes)
  }

  /** Every entry is in a directory that is there, and so is every directory's. */
  ghost predicate Housed(d: Disk) {
    && (forall x :: x in d.dirs ==> Made(d.dirs, x)) && d.durableDirs <= d.dirs
    && (forall l :: l in d.live || l in d.durable ==> Made(d.dirs, DirOf(l)))
  }

  /** The file of a writer under way has its temporary name and no other. */
  ghost predicate OwnFile(d: Disk, pid: nat, k: Writer)
    requires HasTemp(k)
  {
    && TempOf(pid, k) in d.live && d.live[TempOf(pid, k)] == k.ino
    && k.ino in d.inodes
    && (forall l :: l in d.live && d.live[l] == k.ino ==> l == TempOf(pid, k))
    && (forall l :: l in d.durable && d.durable[l] == k.ino ==> l == TempOf(pid, k))
  }

  ghost predicate Sound(env: Env, s: State, k: Writer) {
    && (k.Fresh? || HasTemp(k) ==> (k.name, k.goal) in s.record.asked)
    && (HasTemp(k) ==> OwnFile(s.disk, s.proc.pid, k))
    && (k.Accepted? || k.Synced? ==> Accepts(env, k.goal, s.disk.inodes[k.ino].bytes))
    && (k.Synced? ==> s.disk.inodes[k.ino].synced)
    && (k.Renamed? ==> Dest(k.name) in s.disk.live)
    && (HasTemp(k) ==> Made(s.disk.dirs, k.name.dir))
  }

  ghost predicate AllSound(env: Env, s: State) {
    forall w :: w in s.proc.writers ==> Sound(env, s, s.proc.writers[w])
  }

  /** Numbers are handed out once, and writers run only while serving. */
  ghost predicate NumbersUnique(p: Process) {
    && (forall w :: w in p.writers && HasTemp(p.writers[w]) ==>
          var taken := (SortOf(p.writers[w].goal), p.writers[w].number);
          taken in p.owner && p.owner[taken] == w)
    && (forall n :: n in p.owner ==> n.1 < NextNumber(p, n.0))
    && (!p.serving ==> p.writers == map[])
  }

  ghost predicate Inv(env: Env, s: State) {
    && EntriesExist(s.disk) && Housed(s.disk)
    && AllComplete(env, s.disk, s.record) && AllSound(env, s) && NumbersUnique(s.proc)
  }

  lemma LegitStays(env: Env, s: State, a: Action, name: Name, bytes: Bytes)
    requires Legit(env, s.record, name, bytes)
    ensures Legit(env, RecordAfter(s, a), name, bytes)
  {
    hide Accepts;
    if !(name in s.record.initial && bytes == s.record.initial[name]) {
      var goal :| (name, goal) in s.record.asked && Accepts(env, goal, bytes);
      assert (name, goal) in RecordAfter(s, a).asked;
    }
  }

  lemma NumbersKept(env: Env, s: State, a: Action)
    requires NumbersUnique(s.proc) && Enabled(env, s, a)
    ensures NumbersUnique(ProcessAfter(env, s, a))
  {
    hide Accepts, CrashImage;
  }

  lemma EntriesKept(env: Env, s: State, a: Action)
    requires EntriesExist(s.disk) && Enabled(env, s, a)
    ensures EntriesExist(DiskAfter(env, s, a))
  {
    hide Accepts;
  }

  lemma HousedKept(env: Env, s: State, a: Action)
    requires Housed(s.disk) && AllSound(env, s) && Enabled(env, s, a)
    ensures Housed(DiskAfter(env, s, a))
  {
    hide Accepts;
    if a.MakeDirs? { WayIsMade(a.dir); }
  }

  lemma WayIsMade(dir: Dir)
    ensures forall x :: x in Way(dir) ==> Made(Way(dir), x)
  {
    forall x, k | x in Way(dir) && 0 < k <= |x| ensures x[..k] in Way(dir) {
      assert x[..k] == dir[..k];
    }
  }

  /** A published file is never written again, so it stays complete. */
  lemma CompleteStays(env: Env, s: State, a: Action, name: Name, ino: nat)
    requires AllSound(env, s) && Enabled(env, s, a) && Complete(env, s.disk, s.record, name, ino)
    requires (Dest(name) in s.disk.live && s.disk.live[Dest(name)] == ino) ||
             (Dest(name) in s.disk.durable && s.disk.durable[Dest(name)] == ino)
    ensures Complete(env, DiskAfter(env, s, a), RecordAfter(s, a), name, ino)
  {
    hide Accepts, Flushed, Legit;
    LegitStays(env, s, a, name, s.disk.inodes[ino].bytes);
    if a.Write? || a.Sync? { assert Sound(env, s, s.proc.writers[a.w]); }
  }

  lemma RenamedIsComplete(env: Env, s: State, a: Action)
    requires AllSound(env, s) && a.Rename? && Enabled(env, s, a)
    ensures Complete(env, DiskAfter(env, s, a), RecordAfter(s, a), s.proc.writers[a.w].name, s.proc.writers[a.w].ino)
  {
    assert Sound(env, s, s.proc.writers[a.w]);
  }

  lemma LiveComplete(env: Env, s: State, a: Action, l: Loc)
    requires AllSound(env, s) && AllComplete(env, s.disk, s.record) && Enabled(env, s, a)
    requires l in DiskAfter(env, s, a).live && l.Dest?
    ensures Complete(env, DiskAfter(env, s, a), RecordAfter(s, a), l.name, DiskAfter(env, s, a).live[l])
  {
    hide Accepts, Complete, Sound, RecordAfter;
    var d := DiskAfter(env, s, a);
    if l in s.disk.live && s.disk.live[l] == d.live[l] {
      CompleteStays(env, s, a, l.name, s.disk.live[l]);
    } else if a.Crash? {
      CompleteStays(env, s, a, l.name, s.disk.durable[l]);
    } else {
      RenamedIsComplete(env, s, a);
    }
  }

  lemma DurableComplete(env: Env, s: State, a: Action, l: Loc)
    requires AllSound(env, s) && AllComplete(env, s.disk, s.record) && Enabled(env, s, a)
    requires l in DiskAfter(env, s, a).durable && l.Dest?
    ensures Complete(env, DiskAfter(env, s, a), RecordAfter(s, a), l.name, DiskAfter(env, s, a).durable[l])
  {
    hide Accepts, Complete, Sound, RecordAfter;
    var d := DiskAfter(env, s, a);
    if l in s.disk.durable && s.disk.durable[l] == d.durable[l] {
      CompleteStays(env, s, a, l.name, s.disk.durable[l]);
    } else {
      CompleteStays(env, s, a, l.name, s.disk.live[l]);
    }
  }

  /** Distinct writers own distinct files. */
  lemma FilesDistinct(env: Env, s: State, v: nat, w: nat)
    requires AllSound(env, s) && NumbersUnique(s.proc) && v in s.proc.writers && w in s.proc.writers
    requires HasTemp(s.proc.writers[v]) && HasTemp(s.proc.writers[w]) && s.proc.writers[v].ino == s.proc.writers[w].ino
    ensures v == w
  {
    hide Accepts;
    assert Sound(env, s, s.proc.writers[v]) && Sound(env, s, s.proc.writers[w]);
  }

  /** Whatever one writer does leaves the file of another alone. */
  lemma OthersUndisturbed(env: Env, s: State, a: Action, w: nat)
    requires Inv(env, s) && Enabled(env, s, a) && !a.Crash? && w in s.proc.writers && HasTemp(s.proc.writers[w])
    requires !a.MakeDirs? && !a.Begin? && !a.Flush? && !a.StartServing? ==> a.w != w
    ensures var k := s.proc.writers[w];
            && OwnFile(DiskAfter(env, s, a), s.proc.pid, k)
            && DiskAfter(env, s, a).inodes[k.ino] == s.disk.inodes[k.ino]
            && Made(DiskAfter(env, s, a).dirs, k.name.dir)
  {
    hide Accepts, AllComplete;
    var k := s.proc.writers[w];
    assert Sound(env, s, k);
    if a.Write? || a.Sync? || a.Rename? || a.Fail? {
      if HasTemp(s.proc.writers[a.w]) {
        assert Sound(env, s, s.proc.writers[a.w]);
        if s.proc.writers[a.w].ino == k.ino { FilesDistinct(env, s, a.w, w); }
      }
    }
  }

  /** No step but a crash takes a published name away. */
  lemma PublishedStays(env: Env, s: State, a: Action, name: Name)
    requires Enabled(env, s, a) && !a.Crash? && Dest(name) in s.disk.live
    ensures Dest(name) in DiskAfter(env, s, a).live
  {
    hide Accepts;
  }

  /** A writer's own step keeps its file in order. */
  lemma OwnStepSound(env: Env, s: State, a: Action)
    requires Inv(env, s) && Enabled(env, s, a) && !a.MakeDirs? && !a.Flush? && !a.Crash? && !a.StartServing?
    ensures Sound(env, Apply(env, s, a), Apply(env, s, a).proc.writers[a.w])
  {
    hide Accepts, AllComplete, NumbersUnique;
    if a.w in s.proc.writers { assert Sound(env, s, s.proc.writers[a.w]); }
  }

  lemma SoundKept(env: Env, s: State, a: Action, w: nat)
    requires Inv(env, s) && Enabled(env, s, a) && w in Apply(env, s, a).proc.writers
    ensures Sound(env, Apply(env, s, a), Apply(env, s, a).proc.writers[w])
  {
    hide Accepts, AllComplete, OwnFile, DiskAfter, NumbersUnique;
    if !a.MakeDirs? && !a.Flush? && !a.Crash? && !a.StartServing? && a.w == w {
      OwnStepSound(env, s, a);
    } else {
      assert Sound(env, s, s.proc.writers[w]);
      if HasTemp(s.proc.writers[w]) { OthersUndisturbed(env, s, a, w); }
      if s.proc.writers[w].Renamed? { PublishedStays(env, s, a, s.proc.writers[w].name); }
    }
  }

  lemma InvKept(env: Env, s: State, a: Action)
    requires Inv(env, s) && Enabled(env, s, a)
    ensures Inv(env, Apply(env, s, a))
  {
    hide Sound, Complete, DiskAfter, ProcessAfter, RecordAfter, Enabled, EntriesExist, Housed, NumbersUnique;
    EntriesKept(env, s, a);
    HousedKept(env, s, a);
    NumbersKept(env, s, a);
    var t := Apply(env, s, a);
    forall l | l in t.disk.live && l.Dest? ensures Complete(env, t.disk, t.record, l.name, t.disk.live[l]) {
      LiveComplete(env, s, a, l);
    }
    forall l | l in t.disk.durable && l.Dest? ensures Complete(env, t.disk, t.record, l.name, t.disk.durable[l]) {
      DurableComplete(env, s, a, l);
    }
    forall w | w in t.proc.writers ensures Sound(env, t, t.proc.writers[w]) { SoundKept(env, s, a, w); }
  }

  lemma {:induction false} InvAlways(env: Env, s: State, acts: seq<Action>)
    requires Inv(env, s) && ValidRun(env, s, acts)
    ensures Inv(env, Run(env, s, acts))
    decreases |acts|
  {
    hide Inv, Enabled, Apply;
    if acts != [] {
      InvKept(env, s, acts[0]);
      InvAlways(env, Apply(env, s, acts[0]), acts[1..]);
    }
  }

  // ---------------------------------------------------------------- main results

  /** A stopped process on a disk whose published files are complete. */
  ghost predicate Initial(s: State) {
    && EntriesExist(s.disk) && s.proc.writers == map[] && s.proc.owner == map[]
    && (forall l :: l in s.disk.live && l.Dest? ==>
          s.disk.inodes[s.disk.live[l]].synced && l.name in s.record.initial &&
          s.disk.inodes[s.disk.live[l]].bytes == s.record.initial[l.name])
    && Housed(s.disk) && s.disk.durable == s.disk.live && s.disk.durableDirs == s.disk.dirs
  }

  lemma InitialInv(env: Env, s: State)
    requires Initial(s)
    ensures Inv(env, s)
  {
    hide Accepts;
    forall l | l in s.disk.live && l.Dest? ensures Complete(env, s.disk, s.record, l.name, s.disk.live[l]) {
      assert Legit(env, s.record, l.name, s.disk.inodes[s.disk.live[l]].bytes);
    }
  }

  /** After any number of writers, failures, crashes and restarts, every published name holds
      its first content or content that a writer was asked to publish there and accepted in
      full: exactly its document, or bytes of the allowed size with the expected checksum. */
  lemma PublishedIsComplete(env: Env, s: State, acts: seq<Action>, name: Name)
    requires Initial(s) && ValidRun(env, s, acts)
    ensures var n := Run(env, s, acts);
            Dest(name) in n.disk.live ==>
              n.disk.live[Dest(name)] in n.disk.inodes &&
              Legit(env, n.record, name, n.disk.inodes[n.disk.live[Dest(name)]].bytes)
  {
    hide Legit, Enabled, Sound, ValidRun, Run;
    InitialInv(env, s);
    InvAlways(env, s, acts);
  }

  /** The durable way to a directory is left by every crash. */
  lemma {:induction false} DurableWayLeft(d: Disk, crash: Action, dir: Dir)
    requires crash.Crash? && CrashImage(d, crash.entries, crash.inodes, crash.dirs) && Made(d.durableDirs, dir)
    ensures Made(crash.dirs, dir)
    decreases |dir|
  {
    if dir != [] {
      WayIsMade(dir);
      assert dir[..|dir|] == dir && dir in Way(dir) && Above(dir)[..|dir| - 1] == Above(dir);
      assert Made(d.durableDirs, Above(dir)) by {
        forall k | 0 < k <= |Above(dir)| ensures Above(dir)[..k] in d.durableDirs {
          assert Above(dir)[..k] == dir[..k];
        }
      }
      DurableWayLeft(d, crash, Above(dir));
    }
  }

  /** The crash that loses all it can. */
  ghost function Worst(d: Disk, pid: nat): Action {
    Crash(map l | l in d.live && l in d.durable && Made(d.durableDirs, DirOf(l)) :: d.durable[l],
          d.inodes, (set x | x in d.dirs && Made(d.durableDirs, x)), pid)
  }

  lemma LeftByWorst(d: Disk, pid: nat, dir: Dir)
    requires Housed(d)
    ensures Made(Worst(d, pid).dirs, dir) <==> Made(d.durableDirs, dir)
  {
    WayIsMade(dir);
    forall x | x in Way(dir) ensures x in Worst(d, pid).dirs ==> x in d.durableDirs {
      assert x[..|x|] == x && x in Way(x);
    }
  }

  lemma WorstIsPossible(d: Disk, pid: nat)
    requires Housed(d)
    ensures CrashImage(d, Worst(d, pid).entries, d.inodes, Worst(d, pid).dirs)
  {
    hide Made;
    forall dir ensures Made(Worst(d, pid).dirs, dir) <==> Made(d.durableDirs, dir) { LeftByWorst(d, pid, dir); }
    forall x | x in d.durableDirs && x != [] && Made(d.durableDirs, Above(x)) ensures Made(d.durableDirs, x) {
      WayGrows(d.durableDirs, x);
    }
  }

  lemma WayGrows(dirs: set<Dir>, dir: Dir)
    requires dir in dirs && dir != [] && Made(dirs, Above(dir))
    ensures Made(dirs, dir)
  {
    forall k | 0 < k <= |dir| ensures dir[..k] in dirs {
      assert dir[..|dir|] == dir;
      assert k < |dir| ==> dir[..k] == Above(dir)[..k] && dir[..k] in Way(Above(dir));
    }
  }

  /** At every crash point a published name keeps its old file or its new one, byte for byte. */
  lemma CrashKeepsOldOrNew(env: Env, s: State, acts: seq<Action>, crash: Action, name: Name)
    requires Initial(s) && ValidRun(env, s, acts) && crash.Crash? && Enabled(env, Run(env, s, acts), crash)
    ensures var n, c := Run(env, s, acts), Apply(env, Run(env, s, acts), crash);
            var d := Dest(name);
            d in c.disk.live ==>
              && ((d in n.disk.live && c.disk.live[d] == n.disk.live[d]) ||
                  (d in n.disk.durable && c.disk.live[d] == n.disk.durable[d]))
              && c.disk.live[d] in n.disk.inodes && c.disk.live[d] in c.disk.inodes
              && c.disk.inodes[c.disk.live[d]].bytes == n.disk.inodes[c.disk.live[d]].bytes
  {
    hide Accepts, Legit, Sound, ValidRun, Run, Made;
    InitialInv(env, s);
    InvAlways(env, s, acts);
  }

  /** The entry is in memory and on disk, and so is every directory on the way to it. */
  ghost predicate Anchored(d: Disk, name: Name) {
    Dest(name) in d.live && Dest(name) in d.durable && Made(d.durableDirs, name.dir)
  }

  /** No crash can take a name away if and only if it is anchored. */
  lemma CrashSparesExactly(env: Env, s: State, acts: seq<Action>, name: Name)
    requires Initial(s) && ValidRun(env, s, acts)
    ensures var n := Run(env, s, acts);
            Anchored(n.disk, name) <==>
            forall a: Action :: a.Crash? && Enabled(env, n, a) ==> Dest(name) in Apply(env, n, a).disk.live
  {
    hide Accepts, ValidRun, Run, EntriesExist, AllComplete, AllSound, NumbersUnique;
    InitialInv(env, s);
    InvAlways(env, s, acts);
    var n := Run(env, s, acts);
    if Anchored(n.disk, name) { SparedIfAnchored(env, n, name); }
    LostIfNot(env, n, name);
  }

  lemma SparedIfAnchored(env: Env, n: State, name: Name)
    requires Anchored(n.disk, name)
    ensures forall a: Action :: a.Crash? && Enabled(env, n, a) ==> Dest(name) in Apply(env, n, a).disk.live
  {
    hide Made;
    forall a: Action | a.Crash? && Enabled(env, n, a) ensures Dest(name) in Apply(env, n, a).disk.live {
      DurableWayLeft(n.disk, a, name.dir);
    }
  }

  lemma LostIfNot(env: Env, n: State, name: Name)
    requires Housed(n.disk)
    ensures var a := Worst(n.disk, n.proc.pid);
            Enabled(env, n, a) && (Dest(name) in Apply(env, n, a).disk.live <==> Anchored(n.disk, name))
  {
    hide Made, CrashImage, Housed;
    WorstIsPossible(n.disk, n.proc.pid);
  }

  // ---------------------------------------------------------------- what success is worth

  /** The content that a step renames onto the name. */
  ghost function RenamedNow(env: Env, s: State, a: Action, name: Name): set<Bytes>
    requires Enabled(env, s, a)
  {
    if a.Rename? && s.proc.writers[a.w].name == name then {s.disk.inodes[s.proc.writers[a.w].ino].bytes} else {}
  }

  /** The contents renamed onto the name in a run. */
  ghost function Renamings(env: Env, s: State, acts: seq<Action>, name: Name): set<Bytes>
    requires ValidRun(env, s, acts)
    decreases |acts|
  {
    if acts == [] then {}
    else RenamedNow(env, s, acts[0], name) + Renamings(env, Apply(env, s, acts[0]), acts[1..], name)
  }

  /** The name is there, with one of these contents. */
  ghost predicate Shows(entries: map<Loc, nat>, inodes: map<nat, Inode>, name: Name, contents: set<Bytes>) {
    Dest(name) in entries && entries[Dest(name)] in inodes && inodes[entries[Dest(name)]].bytes in contents
  }

  /** The name is anchored, with one of these contents in memory and on disk. */
  ghost predicate Holds(d: Disk, name: Name, contents: set<Bytes>) {
    && Shows(d.live, d.inodes, name, contents) && Shows(d.durable, d.inodes, name, contents)
    && Made(d.durableDirs, name.dir)
  }

  /** After any further run, with any number of crashes, failures and restarts, the name is
      there with that content or one renamed onto it later. */
  ghost predicate Kept(env: Env, s: State, name: Name, published: Bytes) {
    forall acts :: ValidRun(env, s, acts) ==>
                     var d := Run(env, s, acts).disk;
                     Shows(d.live, d.inodes, name, {published} + Renamings(env, s, acts, name))
  }

  lemma BytesStay(env: Env, s: State, a: Action, name: Name, ino: nat)
    requires Inv(env, s) && Enabled(env, s, a)
    requires (Dest(name) in s.disk.live && s.disk.live[Dest(name)] == ino) ||
             (Dest(name) in s.disk.durable && s.disk.durable[Dest(name)] == ino)
    ensures ino in s.disk.inodes && ino in DiskAfter(env, s, a).inodes
    ensures DiskAfter(env, s, a).inodes[ino].bytes == s.disk.inodes[ino].bytes
  {
    hide Accepts, Flushed, Legit, NumbersUnique, Housed, Made;
    assert Complete(env, s.disk, s.record, name, ino);
    if a.Write? || a.Sync? { assert Sound(env, s, s.proc.writers[a.w]); }
  }

  lemma WayStaysDurable(env: Env, s: State, a: Action, dir: Dir)
    requires Enabled(env, s, a) && Made(s.disk.durableDirs, dir)
    ensures Made(DiskAfter(env, s, a).durableDirs, dir)
  {
    hide Accepts, Flushed, Way, CrashImage;
    if a.Crash? { DurableWayLeft(s.disk, a, dir); }
  }

  lemma HoldsKept(env: Env, s: State, a: Action, name: Name, contents: set<Bytes>)
    requires Inv(env, s) && Enabled(env, s, a) && Holds(s.disk, name, contents)
    ensures Holds(DiskAfter(env, s, a), name, contents + RenamedNow(env, s, a, name))
  {
    hide Accepts, Legit, Inv, Made;
    BytesStay(env, s, a, name, s.disk.live[Dest(name)]);
    BytesStay(env, s, a, name, s.disk.durable[Dest(name)]);
    WayStaysDurable(env, s, a, name.dir);
    if a.Crash? { DurableWayLeft(s.disk, a, name.dir); }
  }

  lemma {:induction false} HoldsAlways(env: Env, s: State, acts: seq<Action>, name: Name, contents: set<Bytes>)
    requires Inv(env, s) && ValidRun(env, s, acts) && Holds(s.disk, name, contents)
    ensures Holds(Run(env, s, acts).disk, name, contents + Renamings(env, s, acts, name))
    decreases |acts|
  {
    hide Inv, Enabled, DiskAfter, ProcessAfter, RecordAfter, RenamedNow, Holds;
    if acts == [] {
      assert contents + Renamings(env, s, acts, name) == contents;
    } else {
      var more := contents + RenamedNow(env, s, acts[0], name);
      InvKept(env, s, acts[0]);
      HoldsKept(env, s, acts[0], name, contents);
      HoldsAlways(env, Apply(env, s, acts[0]), acts[1..], name, more);
      assert more + Renamings(env, Apply(env, s, acts[0]), acts[1..], name) ==
             contents + Renamings(env, s, acts, name);
    }
  }

  /** Content is kept whatever follows if and only if it is on disk now, with the way to it. */
  lemma KeptExactly(env: Env, s: State, name: Name, published: Bytes)
    requires Inv(env, s) && Shows(s.disk.live, s.disk.inodes, name, {published})
    ensures Kept(env, s, name, published) <==> Holds(s.disk, name, {published})
  {
    hide Inv, ValidRun, Run, Renamings, Holds, Apply;
    if Holds(s.disk, name, {published}) {
      forall acts | ValidRun(env, s, acts)
        ensures Shows(Run(env, s, acts).disk.live, Run(env, s, acts).disk.inodes, name,
                      {published} + Renamings(env, s, acts, name))
      {
        HoldsAlways(env, s, acts, name, {published});
        HoldsShows(Run(env, s, acts).disk, name, {published} + Renamings(env, s, acts, name));
      }
    } else {
      var a := Worst(s.disk, s.proc.pid);
      LostIfNotHeld(env, s, name, published);
      OneStep(env, s, a, name);
      assert ValidRun(env, s, [a]);
    }
  }

  lemma HoldsShows(d: Disk, name: Name, contents: set<Bytes>)
    requires Holds(d, name, contents)
    ensures Shows(d.live, d.inodes, name, contents)
  {
  }

  lemma OneStep(env: Env, s: State, a: Action, name: Name)
    requires Enabled(env, s, a)
    ensures ValidRun(env, s, [a]) && Run(env, s, [a]) == Apply(env, s, a)
    ensures Renamings(env, s, [a], name) == RenamedNow(env, s, a, name)
  {
    hide Enabled, DiskAfter, ProcessAfter, RecordAfter, RenamedNow;
    assert [a][1..] == [];
    var n := Apply(env, s, a);
    assert ValidRun(env, n, []) && Run(env, n, []) == n && Renamings(env, n, [], name) == {};
  }

  lemma LostIfNotHeld(env: Env, s: State, name: Name, published: Bytes)
    requires Inv(env, s) && Shows(s.disk.live, s.disk.inodes, name, {published})
    requires !Holds(s.disk, name, {published})
    ensures var a := Worst(s.disk, s.proc.pid);
            && Enabled(env, s, a) && RenamedNow(env, s, a, name) == {}
            && var d := Apply(env, s, a).disk; !Shows(d.live, d.inodes, name, {published})
  {
    hide Made, CrashImage, EntriesExist, Legit, AllSound, NumbersUnique;
    WorstIsPossible(s.disk, s.proc.pid);
  }

  /** What a writer has published, at the moment it is to sync the directory. */
  ghost function Published(env: Env, s: State, w: nat): Bytes
    requires Inv(env, s) && Enabled(env, s, SyncDir(w))
  {
    assert Sound(env, s, s.proc.writers[w]);
    s.disk.inodes[s.disk.live[Dest(s.proc.writers[w].name)]].bytes
  }

  /** A writer's success is kept if and only if the entries of all the directories on the way
      were durable before it synced its own; and, off Unix, the file's own entry too, since
      nothing is synced there. */
  lemma SuccessKeptExactly(env: Env, s: State, w: nat)
    requires Inv(env, s) && Enabled(env, s, SyncDir(w))
    ensures var name, done := s.proc.writers[w].name, Apply(env, s, SyncDir(w));
            Kept(env, done, name, Published(env, s, w)) <==>
            && Made(s.disk.durableDirs, name.dir)
            && (env.unix || Shows(s.disk.durable, s.disk.inodes, name, {Published(env, s, w)}))
  {
    hide Kept, Inv, Holds, Apply;
    InvKept(env, s, SyncDir(w));
    AfterSync(env, s, w);
    KeptExactly(env, Apply(env, s, SyncDir(w)), s.proc.writers[w].name, Published(env, s, w));
  }

  /** Syncing a directory makes its own entries durable and none on the way to it. */
  lemma AfterSync(env: Env, s: State, w: nat)
    requires Inv(env, s) && Enabled(env, s, SyncDir(w))
    ensures var name, d := s.proc.writers[w].name, Apply(env, s, SyncDir(w)).disk;
            && Shows(d.live, d.inodes, name, {Published(env, s, w)})
            && (Holds(d, name, {Published(env, s, w)}) <==>
                && Made(s.disk.durableDirs, name.dir)
                && (env.unix || Shows(s.disk.durable, s.disk.inodes, name, {Published(env, s, w)})))
  {
    hide AllComplete, NumbersUnique, Legit;
    var name := s.proc.writers[w].name;
    assert Sound(env, s, s.proc.writers[w]);
    assert Dest(name) in FilesIn(s.disk, name.dir);
    forall x | x in Way(name.dir) ensures x !in DirsIn(s.disk, name.dir) { assert |x| <= |name.dir|; }
  }

  // ---------------------------------------------------------------- who makes the way durable

  /** The last thing that happened was that the process was started on a disk as it was. */
  predicate JustStarted(acts: seq<Action>) {
    acts == [] || acts[|acts| - 1].Crash?
  }

  lemma {:induction false} StartedOnDurable(env: Env, s: State, boot: seq<Action>)
    requires s.disk.durableDirs == s.disk.dirs && s.proc.writers == map[] && JustStarted(boot) && ValidRun(env, s, boot)
    ensures Run(env, s, boot).disk.durableDirs == Run(env, s, boot).disk.dirs && Run(env, s, boot).proc.writers == map[]
  {
    if boot != [] { EndsInCrash(env, s, boot); }
  }

  lemma {:induction false} EndsInCrash(env: Env, s: State, boot: seq<Action>)
    requires boot != [] && boot[|boot| - 1].Crash? && ValidRun(env, s, boot)
    ensures Run(env, s, boot).disk.durableDirs == Run(env, s, boot).disk.dirs && Run(env, s, boot).proc.writers == map[]
    decreases |boot|
  {
    hide Enabled;
    var n := Apply(env, s, boot[0]);
    if |boot| == 1 {
      assert boot[1..] == [] && Run(env, n, []) == n;
    } else {
      EndsInCrash(env, n, boot[1..]);
    }
  }

  /** A step of the process itself that publishes nothing above the directory. */
  predicate Beside(a: Action, dir: Dir) {
    !a.Crash? && !a.Flush? && (a.Begin? ==> !(a.name.dir < dir))
  }

  /** No writer publishes above the directory. */
  ghost predicate AllBeside(p: Process, dir: Dir) {
    forall w :: w in p.writers && !p.writers[w].Finished? ==> !(p.writers[w].name.dir < dir)
  }

  lemma StepLeavesWay(env: Env, s: State, a: Action, dir: Dir)
    requires AllBeside(s.proc, dir) && Enabled(env, s, a) && Beside(a, dir)
    ensures AllBeside(ProcessAfter(env, s, a), dir)
    ensures Made(DiskAfter(env, s, a).durableDirs, dir) <==> Made(s.disk.durableDirs, dir)
  {
    hide Accepts, Flushed, FilesIn, CrashImage;
    if a.SyncDir? {
      var own := s.proc.writers[a.w].name.dir;
      forall x | x in Way(dir) ensures x !in DirsIn(s.disk, own) {
        assert Above(x) == dir[..|x| - 1];
      }
    }
  }

  lemma {:induction false} RunLeavesWay(env: Env, s: State, acts: seq<Action>, dir: Dir)
    requires AllBeside(s.proc, dir) && ValidRun(env, s, acts) && forall a :: a in acts ==> Beside(a, dir)
    ensures Made(Run(env, s, acts).disk.durableDirs, dir) <==> Made(s.disk.durableDirs, dir)
    decreases |acts|
  {
    hide Enabled, DiskAfter, ProcessAfter, RecordAfter, Made, AllBeside, Beside;
    if acts != [] {
      assert acts[0] in acts && forall a :: a in acts[1..] ==> a in acts;
      StepLeavesWay(env, s, acts[0], dir);
      RunLeavesWay(env, Apply(env, s, acts[0]), acts[1..], dir);
    }
  }

  /** On Unix, unless the system happens to flush the way by itself: what a process publishes
      is kept if and only if its directory was already there when the process started.  The
      program publishes everything at one depth, hence nothing above a directory it uses. */
  lemma KeptIfDirectoryFound(env: Env, s: State, boot: seq<Action>, acts: seq<Action>, w: nat)
    requires env.unix && Initial(s) && ValidRun(env, s, boot) && JustStarted(boot)
    requires ValidRun(env, Run(env, s, boot), acts) && Enabled(env, Run(env, Run(env, s, boot), acts), SyncDir(w))
    requires var dir := Run(env, Run(env, s, boot), acts).proc.writers[w].name.dir;
             forall a :: a in acts ==> Beside(a, dir)
    ensures var start := Run(env, s, boot);
            var n := Run(env, start, acts);
            && Inv(env, n)
            && (Kept(env, Apply(env, n, SyncDir(w)), n.proc.writers[w].name, Published(env, n, w)) <==>
                Made(start.disk.dirs, n.proc.writers[w].name.dir))
  {
    hide Inv, ValidRun, Run, Kept, Made, Apply, Published, Beside, JustStarted;
    InitialInv(env, s);
    InvAlways(env, s, boot);
    var start := Run(env, s, boot);
    InvAlways(env, start, acts);
    var n := Run(env, start, acts);
    StartedOnDurable(env, s, boot);
    RunLeavesWay(env, start, acts, n.proc.writers[w].name.dir);
    SuccessKeptExactly(env, n, w);
  }

  /** Whatever the system flushes and however often the process is restarted later: a directory
      found at a start is enough. */
  lemma FoundDirectoryKeeps(env: Env, s: State, boot: seq<Action>, acts: seq<Action>, w: nat)
    requires env.unix && Initial(s) && ValidRun(env, s, boot) && JustStarted(boot)
    requires ValidRun(env, Run(env, s, boot), acts) && Enabled(env, Run(env, Run(env, s, boot), acts), SyncDir(w))
    requires var n := Run(env, Run(env, s, boot), acts); Made(Run(env, s, boot).disk.dirs, n.proc.writers[w].name.dir)
    ensures var n := Run(env, Run(env, s, boot), acts);
            Inv(env, n) && Kept(env, Apply(env, n, SyncDir(w)), n.proc.writers[w].name, Published(env, n, w))
  {
    hide Inv, ValidRun, Run, Kept, Made, Apply, Published, JustStarted;
    InitialInv(env, s);
    InvAlways(env, s, boot);
    var start := Run(env, s, boot);
    InvAlways(env, start, acts);
    var n := Run(env, start, acts);
    StartedOnDurable(env, s, boot);
    WayAlwaysDurable(env, start, acts, n.proc.writers[w].name.dir);
    SuccessKeptExactly(env, n, w);
  }

  lemma {:induction false} WayAlwaysDurable(env: Env, s: State, acts: seq<Action>, dir: Dir)
    requires ValidRun(env, s, acts) && Made(s.disk.durableDirs, dir)
    ensures Made(Run(env, s, acts).disk.durableDirs, dir)
    decreases |acts|
  {
    hide Enabled, DiskAfter, ProcessAfter, RecordAfter, Made;
    if acts != [] {
      WayStaysDurable(env, s, acts[0], dir);
      WayAlwaysDurable(env, Apply(env, s, acts[0]), acts[1..], dir);
    }
  }

  /** A run from the start up to the first success of the first writer. */
  ghost function FirstPublication(s: State, name: Name, goal: Goal, bytes: Bytes, ino: nat): seq<Action> {
    [StartServing(true, set l | l in s.disk.live && l.Temp?), MakeDirs(name.dir), Begin(0, name, goal), Open(0, ino),
     Write(0, bytes), Accept(0), Sync(0), Rename(0), SyncDir(0)]
  }

  /** Running on: the run so far with one more action, and the next state. */
  lemma {:induction false} Extend(env: Env, s: State, acts: seq<Action>, a: Action)
    returns (more: seq<Action>, n: State)
    requires ValidRun(env, s, acts) && Enabled(env, Run(env, s, acts), a)
    ensures more == acts + [a] && ValidRun(env, s, more) && n == Run(env, s, more) == Apply(env, Run(env, s, acts), a)
    decreases |acts|
  {
    hide Enabled, DiskAfter, ProcessAfter, RecordAfter;
    more := acts + [a];
    n := Apply(env, Run(env, s, acts), a);
    if acts == [] {
      assert more == [a] && [a][1..] == [] && ValidRun(env, n, []) && Run(env, n, []) == n;
    } else {
      assert more[1..] == acts[1..] + [a];
      var _, _ := Extend(env, Apply(env, s, acts[0]), acts[1..], a);
    }
  }

  /** The failing run, from the start: whatever the first process publishes first in a directory
      that was not there, a crash right after its success may take away. */
  lemma FirstPublicationLost(env: Env, s: State, name: Name, goal: Goal, bytes: Bytes, ino: nat)
    requires Initial(s) && !s.proc.serving && ino !in s.disk.inodes
    requires Accepts(env, goal, bytes) && !Made(s.disk.dirs, name.dir)
    ensures var acts := FirstPublication(s, name, goal, bytes, ino);
            && ValidRun(env, s, acts)
            && var n := Run(env, s, acts);
               var crash := Worst(n.disk, n.proc.pid);
               && n.proc.writers == map[0 := Finished(true)] && Shows(n.disk.live, n.disk.inodes, name, {bytes})
               && Enabled(env, n, crash) && Dest(name) !in Apply(env, n, crash).disk.live
  {
    hide ValidRun, Run, Apply, Inv, Enabled, Worst;
    var acts := FirstPublication(s, name, goal, bytes, ino);
    FirstPublicationRuns(env, s, name, goal, bytes, ino);
    InitialInv(env, s);
    InvAlways(env, s, acts);
    RunLeavesWay(env, s, acts, name.dir);
    assert Housed(Run(env, s, acts).disk) by { InvHouses(env, Run(env, s, acts)); }
    LostIfNot(env, Run(env, s, acts), name);
  }

  lemma InvHouses(env: Env, s: State)
    requires Inv(env, s)
    ensures Housed(s.disk)
  {
  }

  /** The only writer, and the file it writes. */
  ghost predicate Alone(n: State, k: Writer, ino: nat, inode: Inode) {
    n.proc.writers == map[0 := k] && ino in n.disk.inodes && n.disk.inodes[ino] == inode
  }

  /** The first steps: clean up, make the directory, open the file. */
  lemma FirstOpens(env: Env, s: State, name: Name, goal: Goal, ino: nat)
    requires Initial(s) && !s.proc.serving && ino !in s.disk.inodes
    ensures var acts := FirstPublication(s, name, goal, [], ino)[..4];
            var k := Writing(name, goal, NextNumber(s.proc, SortOf(goal)), ino);
            ValidRun(env, s, acts) && Alone(Run(env, s, acts), k, ino, Inode([], false))
  {
    hide ValidRun, Run, Accepts, Housed, EntriesExist, Persisted, CrashImage;
    var f := FirstPublication(s, name, goal, [], ino);
    NoRun(env, s);
    var acts, n := Extend(env, s, [], f[0]);
    acts, n := Extend(env, s, acts, f[1]);
    acts, n := Extend(env, s, acts, f[2]);
    assert n.proc.writers == map[0 := Fresh(name, goal)] && n.disk.inodes == s.disk.inodes;
    acts, n := Extend(env, s, acts, f[3]);
    assert acts == f[..4];
  }

  /** The steps of a lone writer, one after the other. */
  lemma WritesAlone(env: Env, n: State, k: Writer, ino: nat, bytes: Bytes)
    requires Alone(n, k, ino, Inode([], false)) && k.Writing? && k.ino == ino
    ensures Enabled(env, n, Write(0, bytes)) && Alone(Apply(env, n, Write(0, bytes)), k, ino, Inode(bytes, false))
  {
    assert [] + bytes == bytes;
  }

  lemma AcceptsAlone(env: Env, n: State, k: Writer, ino: nat, bytes: Bytes)
    requires Alone(n, k, ino, Inode(bytes, false)) && k.Writing? && k.ino == ino && Accepts(env, k.goal, bytes)
    ensures Enabled(env, n, Accept(0))
    ensures Alone(Apply(env, n, Accept(0)), Accepted(k.name, k.goal, k.number, ino), ino, Inode(bytes, false))
  {
  }

  lemma SyncsAlone(env: Env, n: State, k: Writer, ino: nat, bytes: Bytes)
    requires Alone(n, k, ino, Inode(bytes, false)) && k.Accepted? && k.ino == ino
    ensures Enabled(env, n, Sync(0))
    ensures Alone(Apply(env, n, Sync(0)), Synced(k.name, k.goal, k.number, ino), ino, Inode(bytes, true))
  {
  }

  lemma RenamesAlone(env: Env, n: State, k: Writer, ino: nat, bytes: Bytes)
    requires Alone(n, k, ino, Inode(bytes, true)) && k.Synced? && k.ino == ino
    ensures Enabled(env, n, Rename(0))
    ensures var m := Apply(env, n, Rename(0));
            m.proc.writers == map[0 := Renamed(k.name)] && Shows(m.disk.live, m.disk.inodes, k.name, {bytes})
  {
  }

  lemma FinishesAlone(env: Env, n: State, name: Name, bytes: Bytes)
    requires n.proc.writers == map[0 := Renamed(name)] && Shows(n.disk.live, n.disk.inodes, name, {bytes})
    ensures Enabled(env, n, SyncDir(0))
    ensures var m := Apply(env, n, SyncDir(0));
            m.proc.writers == map[0 := Finished(true)] && Shows(m.disk.live, m.disk.inodes, name, {bytes})
  {
  }

  lemma FirstPublicationRuns(env: Env, s: State, name: Name, goal: Goal, bytes: Bytes, ino: nat)
    requires Initial(s) && !s.proc.serving && ino !in s.disk.inodes && Accepts(env, goal, bytes)
    ensures var acts := FirstPublication(s, name, goal, bytes, ino);
            && ValidRun(env, s, acts)
            && var n := Run(env, s, acts);
               n.proc.writers == map[0 := Finished(true)] && Shows(n.disk.live, n.disk.inodes, name, {bytes})
  {
    hide ValidRun, Run, Accepts, Initial, Alone, Shows, Enabled, Apply;
    var f := FirstPublication(s, name, goal, bytes, ino);
    var k := Writing(name, goal, NextNumber(s.proc, SortOf(goal)), ino);
    FirstOpens(env, s, name, goal, ino);
    var acts := FirstPublication(s, name, goal, [], ino)[..4];
    var n := Run(env, s, acts);
    WritesAlone(env, n, k, ino, bytes);
    acts, n := Extend(env, s, acts, f[4]);
    AcceptsAlone(env, n, k, ino, bytes);
    acts, n := Extend(env, s, acts, f[5]);
    SyncsAlone(env, n, Accepted(name, goal, k.number, ino), ino, bytes);
    acts, n := Extend(env, s, acts, f[6]);
    RenamesAlone(env, n, Synced(name, goal, k.number, ino), ino, bytes);
    acts, n := Extend(env, s, acts, f[7]);
    FinishesAlone(env, n, name, bytes);
    acts, n := Extend(env, s, acts, f[8]);
    assert acts == f;
  }

  lemma NoRun(env: Env, s: State)
    ensures ValidRun(env, s, []) && Run(env, s, []) == s
  {
  }

  // ---------------------------------------------------------------- temporary names

  ghost predicate TempsPast(s: State) {
    forall l :: l in s.disk.live && l.Temp? && l.pid == s.proc.pid ==> l.number < NextNumber(s.proc, l.sort)
  }

  lemma {:induction false} TempsStayPast(env: Env, s: State, acts: seq<Action>)
    requires TempsPast(s) && ValidRun(env, s, acts) && forall a :: a in acts ==> !a.Crash?
    ensures TempsPast(Run(env, s, acts))
    decreases |acts|
  {
    hide Accepts, Flushed;
    if acts != [] {
      assert acts[0] in acts && forall a :: a in acts[1..] ==> a in acts;
      TempsStayPast(env, Apply(env, s, acts[0]), acts[1..]);
    }
  }

  /** After a successful startup cleanup no temporary name is ever found taken, whatever
      process ids and sequence numbers earlier runs used. */
  lemma NoTempCollision(env: Env, s: State, removed: set<Loc>, acts: seq<Action>, dir: Dir, sort: Sort)
    requires Enabled(env, s, StartServing(true, removed))
    requires ValidRun(env, Apply(env, s, StartServing(true, removed)), acts) && forall a :: a in acts ==> !a.Crash?
    ensures !Collides(Run(env, Apply(env, s, StartServing(true, removed)), acts), dir, sort)
  {
    var t := Apply(env, s, StartServing(true, removed));
    TempsStayPast(env, t, acts);
  }
}
