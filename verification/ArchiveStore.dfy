/**
 The archive store: verified-checksum memo, double-checked fetching under the key lock, and
 publication, run by any number of tasks at once.

 Whatever has the same identity has the same bytes: this is the assumption the program
 states for its memo, and here the bytes of a file are a function of its identity.  Locks
 are plain mutexes per key, which is what the lock table implements
 (`LockTable.RefinesPlainMutex`).  Crashes and temporary files are the subject of
 `AtomicPublish`; here a download publishes in one step once its bytes are verified.
 */
module ArchiveStore {
  import opened Common

  type Key(==, !new)
  type Identity(==, !new)
  type Digest(==, !new)
  type Bytes = seq<Byte>

  const MAX_VERIFIED_ENTRIES := 16384

  datatype Env = Env(content: Identity -> Bytes, hash: Bytes -> Digest, maxBytes: nat, bundled: bool)

  datatype Loc = Bundled(key: Key) | Dest(key: Key)

  /** What is at a path: a regular file, a link with the regular file it leads to, if any, or
      something else.  A change of a link's target is a change of the link here. */
  datatype File = Regular(id: Identity) | Link(target: Option<Identity>) | Other

  type Files = map<Loc, File>

  /** The file that opening the path yields: links are followed. */
  function Opened(files: Files, loc: Loc): Option<Identity> {
    if loc !in files then None
    else match files[loc]
      case Regular(id) => Some(id)
      case Link(target) => target
      case Other => None
  }

  predicate Fits(env: Env, id: Identity) {
    |env.content(id)| <= env.maxBytes
  }

  predicate HasDigest(env: Env, id: Identity, expected: Digest) {
    env.hash(env.content(id)) == expected
  }

  /** A look at the path itself, which does not follow links, finds a file to check. */
  predicate Usable(env: Env, files: Files, loc: Loc) {
    loc in files && files[loc].Regular? && Fits(env, files[loc].id)
  }

  /** Opening the path, which does follow links, yields a file to hash. */
  predicate Readable(env: Env, files: Files, loc: Loc) {
    Opened(files, loc).Some? && Fits(env, Opened(files, loc).value)
  }

  /** The unmemoised question: is there a regular file of allowed size with this checksum? */
  predicate Matches(env: Env, files: Files, loc: Loc, expected: Digest) {
    Usable(env, files, loc) && HasDigest(env, files[loc].id, expected)
  }

  /** The path leads to a regular file of allowed size with this checksum. */
  predicate Resolves(env: Env, files: Files, loc: Loc, expected: Digest) {
    Readable(env, files, loc) && HasDigest(env, Opened(files, loc).value, expected)
  }

  /** The path is a link to such a file. */
  predicate Disguised(env: Env, files: Files, loc: Loc, expected: Digest) {
    loc in files && files[loc].Link? && Resolves(env, files, loc, expected)
  }

  // ---------------------------------------------------------------- the loops

  function Concat(chunks: seq<Bytes>): Bytes {
    if chunks == [] then [] else Concat(chunks[..|chunks| - 1]) + chunks[|chunks| - 1]
  }

  lemma {:induction false} ConcatPrefix(chunks: seq<Bytes>, i: nat)
    requires i <= |chunks|
    ensures |Concat(chunks[..i])| <= |Concat(chunks)|
  {
    if i < |chunks| {
      ConcatPrefix(chunks[..|chunks| - 1], i);
      assert chunks[..|chunks| - 1][..i] == chunks[..i];
    } else {
      assert chunks[..i] == chunks;
    }
  }

  /** Reading a file buffer by buffer: the digest of the whole, unless it is too large. */
  method HashFile(env: Env, buffers: seq<Bytes>) returns (digest: Option<Digest>)
    ensures digest == if |Concat(buffers)| <= env.maxBytes then Some(env.hash(Concat(buffers))) else None
  {
    var total := 0;
    var hashed: Bytes := [];
    for i := 0 to |buffers|
      invariant hashed == Concat(buffers[..i]) && total == |hashed| <= env.maxBytes
    {
      assert buffers[..i + 1][..i] == buffers[..i];
      total := total + |buffers[i]|;
      ConcatPrefix(buffers, i + 1);
      if total > env.maxBytes { return None; }
      hashed := hashed + buffers[i];
    }
    assert buffers[..|buffers|] == buffers;
    return Some(env.hash(hashed));
  }

  datatype Received = TooLarge | Broken | Mismatch | Verified(written: Bytes)

  /** Receiving a download chunk by chunk; a missing chunk is a broken stream.  What is
      verified is exactly what was written, and passes the checks of a later cache hit. */
  method ReceiveArchive(env: Env, chunks: seq<Option<Bytes>>, expected: Digest) returns (r: Received)
    ensures r.Verified? <==>
            && (forall i :: 0 <= i < |chunks| ==> chunks[i].Some?)
            && |Concat(Sent(chunks))| <= env.maxBytes && env.hash(Concat(Sent(chunks))) == expected
    ensures r.Verified? ==> r.written == Concat(Sent(chunks))
    ensures r.Mismatch? <==>
            && (forall i :: 0 <= i < |chunks| ==> chunks[i].Some?)
            && |Concat(Sent(chunks))| <= env.maxBytes && env.hash(Concat(Sent(chunks))) != expected
    ensures r.TooLarge? ==> |Concat(Sent(chunks))| > env.maxBytes
    ensures r.Broken? ==> exists i :: 0 <= i < |chunks| && chunks[i].None?
  {
    var total := 0;
    var written: Bytes := [];
    for i := 0 to |chunks|
      invariant forall j :: 0 <= j < i ==> chunks[j].Some?
      invariant written == Concat(Sent(chunks)[..i]) && total == |written| <= env.maxBytes
    {
      if chunks[i].None? { return Broken; }
      assert Sent(chunks)[..i + 1][..i] == Sent(chunks)[..i];
      total := total + |chunks[i].value|;
      ConcatPrefix(Sent(chunks), i + 1);
      if total > env.maxBytes { return TooLarge; }
      written := written + chunks[i].value;
    }
    assert Sent(chunks)[..|chunks|] == Sent(chunks);
    if env.hash(written) != expected { return Mismatch; }
    return Verified(written);
  }

  function Sent(chunks: seq<Option<Bytes>>): seq<Bytes> {
    seq(|chunks|, i requires 0 <= i < |chunks| => if chunks[i].Some? then chunks[i].value else [])
  }

  // ---------------------------------------------------------------- the memo

  datatype Verdict = Verdict(id: Identity, digest: Digest)

  type Memo = map<Loc, Verdict>

  function Recorded(m: Memo, loc: Loc, v: Verdict): Memo {
    (if |m| >= MAX_VERIFIED_ENTRIES && loc !in m then map[] else m)[loc := v]
  }

  lemma InsertedSize(m: Memo, loc: Loc, v: Verdict)
    ensures |m[loc := v]| <= |m| + if loc in m then 0 else 1
  {
    var r := m[loc := v];
    assert r.Keys == m.Keys + {loc};
    assert |r| == |r.Keys| && |m| == |m.Keys|;
  }

  lemma RecordedBounded(m: Memo, loc: Loc, v: Verdict)
    requires |m| <= MAX_VERIFIED_ENTRIES
    ensures |Recorded(m, loc, v)| <= MAX_VERIFIED_ENTRIES
  {
    InsertedSize(m, loc, v);
    InsertedSize(map[], loc, v);
  }

  /** Each remembered identity really has the remembered checksum. */
  ghost predicate MemoSound(env: Env, m: Memo) {
    forall loc :: loc in m ==> env.hash(env.content(m[loc].id)) == m[loc].digest
  }

  // ---------------------------------------------------------------- tasks

  /** The four checks of one call: both places without the lock, then both under it. */
  datatype Check = FastBundled | FastDest | LockedBundled | LockedDest

  function Place(c: Check, key: Key): Loc {
    if c.FastBundled? || c.LockedBundled? then Bundled(key) else Dest(key)
  }

  predicate UnderLock(c: Check) {
    c.LockedBundled? || c.LockedDest?
  }

  /** `Look`: the file was seen with this identity.  `Note`: it was hashed, or was unfit.
      `Published`: renamed, not yet looked at again.  `Record`: looked at, not yet noted. */
  datatype Pc =
    | Stat(check: Check)
    | Look(check: Check, id: Identity)
    | Hash(check: Check)
    | Note(check: Check, hashed: Option<Verdict>)
    | Waiting
    | Fetch
    | Published
    | Record(id: Identity)
    | Ok(loc: Loc)
    | Err

  datatype Task = Task(key: Key, expected: Digest, started: nat, pc: Pc)

  predicate Locked(pc: Pc) {
    match pc
    case Stat(c) => UnderLock(c)
    case Look(c, _) => UnderLock(c)
    case Hash(c) => UnderLock(c)
    case Note(c, _) => UnderLock(c)
    case Fetch => true
    case Published => true
    case Record(_) => true
    case _ => false
  }

  /** `history` lists the files at every instant so far; `renames` counts publications. */
  datatype State = State(
    files: Files, memo: Memo, locks: map<Key, nat>, tasks: map<nat, Task>,
    history: seq<Files>, renames: map<Key, nat>)

  datatype Action =
    | Spawn(t: nat, key: Key, expected: Digest)
    | Step(t: nat)
    | Rename(t: nat, id: Identity)
    | Fail(t: nat)
    | Outside(loc: Loc, file: Option<File>)

  ghost predicate Enabled(env: Env, s: State, a: Action) {
    match a
    case Spawn(t, _, _) => t !in s.tasks
    case Step(t) =>
      t in s.tasks && !s.tasks[t].pc.Ok? && !s.tasks[t].pc.Err? && !s.tasks[t].pc.Fetch? &&
      (s.tasks[t].pc.Waiting? ==> s.tasks[t].key !in s.locks)
    case Rename(t, id) =>
      t in s.tasks && s.tasks[t].pc.Fetch? &&
      |env.content(id)| <= env.maxBytes && env.hash(env.content(id)) == s.tasks[t].expected
    case Fail(t) => t in s.tasks && !s.tasks[t].pc.Ok? && !s.tasks[t].pc.Err?
    case Outside(_, _) => true
  }

  function FirstCheck(env: Env, locked: bool): Check {
    if locked then (if env.bundled then LockedBundled else LockedDest)
    else (if env.bundled then FastBundled else FastDest)
  }

  /** Where a call goes on when a check answers no. */
  function Missed(c: Check): Pc {
    match c
    case FastBundled => Stat(FastDest)
    case FastDest => Waiting
    case LockedBundled => Stat(LockedDest)
    case LockedDest => Fetch
  }

  predicate Hit(s: State, k: Task, id: Identity)
    requires k.pc.Look?
  {
    var loc := Place(k.pc.check, k.key);
    loc in s.memo && s.memo[loc] == Verdict(id, k.expected)
  }

  function Hashed(env: Env, s: State, loc: Loc): Option<Verdict> {
    if Readable(env, s.files, loc) then
      var id := Opened(s.files, loc).value;
      Some(Verdict(id, env.hash(env.content(id))))
    else None
  }

  predicate NoteMatches(k: Task)
    requires k.pc.Note?
  {
    k.pc.hashed.Some? && k.pc.hashed.value.digest == k.expected
  }

  function StepPc(env: Env, s: State, k: Task): Pc {
    match k.pc
    case Stat(c) =>
      if Usable(env, s.files, Place(c, k.key)) then Look(c, s.files[Place(c, k.key)].id) else Missed(c)
    case Look(c, id) => if Hit(s, k, id) then Pc.Ok(Place(c, k.key)) else Hash(c)
    case Hash(c) => Note(c, Hashed(env, s, Place(c, k.key)))
    case Note(c, _) => if NoteMatches(k) then Pc.Ok(Place(c, k.key)) else Missed(c)
    case Waiting => Stat(FirstCheck(env, true))
    case Published =>
      if Dest(k.key) in s.files && s.files[Dest(k.key)].Regular? then Record(s.files[Dest(k.key)].id)
      else Pc.Ok(Dest(k.key))
    case Record(_) => Pc.Ok(Dest(k.key))
    case _ => k.pc
  }

  function StepMemo(s: State, k: Task): Memo {
    match k.pc
    case Note(c, hashed) =>
      if NoteMatches(k) then Recorded(s.memo, Place(c, k.key), Verdict(hashed.value.id, k.expected))
      else s.memo - {Place(c, k.key)}
    case Record(id) => Recorded(s.memo, Dest(k.key), Verdict(id, k.expected))
    case _ => s.memo
  }

  ghost function PcAfter(env: Env, s: State, a: Action): Pc
    requires Enabled(env, s, a) && !a.Outside?
  {
    match a
    case Spawn(_, _, _) => Stat(FirstCheck(env, false))
    case Step(t) => StepPc(env, s, s.tasks[t])
    case Rename(_, _) => Published
    case Fail(_) => Pc.Err
  }

  ghost function TasksAfter(env: Env, s: State, a: Action): map<nat, Task>
    requires Enabled(env, s, a)
  {
    if a.Outside? then s.tasks
    else if a.Spawn? then s.tasks[a.t := Task(a.key, a.expected, |s.history|, PcAfter(env, s, a))]
    else s.tasks[a.t := s.tasks[a.t].(pc := PcAfter(env, s, a))]
  }

  ghost function LocksAfter(env: Env, s: State, a: Action): map<Key, nat>
    requires Enabled(env, s, a)
  {
    if a.Outside? || a.Spawn? then s.locks
    else
      var k := s.tasks[a.t];
      if k.pc.Waiting? && a.Step? then s.locks[k.key := a.t]
      else if Locked(k.pc) && !Locked(PcAfter(env, s, a)) then s.locks - {k.key}
      else s.locks
  }

  ghost function FilesAfter(env: Env, s: State, a: Action): Files
    requires Enabled(env, s, a)
  {
    match a
    case Rename(t, id) => s.files[Dest(s.tasks[t].key) := Regular(id)]
    case Outside(loc, file) => if file.Some? then s.files[loc := file.value] else s.files - {loc}
    case _ => s.files
  }

  ghost function MemoAfter(env: Env, s: State, a: Action): Memo
    requires Enabled(env, s, a)
  {
    if a.Step? then StepMemo(s, s.tasks[a.t]) else s.memo
  }

  function Renames(s: State, key: Key): nat {
    if key in s.renames then s.renames[key] else 0
  }

  ghost function RenamesAfter(env: Env, s: State, a: Action): map<Key, nat>
    requires Enabled(env, s, a)
  {
    if a.Rename? then s.renames[s.tasks[a.t].key := Renames(s, s.tasks[a.t].key) + 1] else s.renames
  }

  ghost function Apply(env: Env, s: State, a: Action): State
    requires Enabled(env, s, a)
  {
    State(FilesAfter(env, s, a), MemoAfter(env, s, a), LocksAfter(env, s, a), TasksAfter(env, s, a),
          s.history + [FilesAfter(env, s, a)], RenamesAfter(env, s, a))
  }

  ghost predicate ValidRun(env: Env, s: State, acts: seq<Action>)
    decreases |acts|
  {
    acts == [] || (Enabled(env, s, acts[0]) && ValidRun(env, Apply(env, s, acts[0]), acts[1..]))
  }

  ghost function Run(env: Env, s: State, acts: seq<Action>): State
    requires ValidRun(env, s, acts)
    decreases |acts|
  {
    if acts == [] then s else Run(env, Apply(env, s, acts[0]), acts[1..])
  }

  function Init(files: Files): State {
    State(files, map[], map[], map[], [files], map[])
  }

  // ---------------------------------------------------------------- evidence

  /** At some instant of the call the file was usable and had this identity. */
  ghost predicate SeenAs(env: Env, h: seq<Files>, started: nat, loc: Loc, id: Identity) {
    exists i :: started <= i < |h| && Usable(env, h[i], loc) && h[i][loc].id == id
  }

  /** At some instant of the call opening the path yielded this file. */
  ghost predicate ReadAs(env: Env, h: seq<Files>, started: nat, loc: Loc, id: Identity) {
    exists i :: started <= i < |h| && Readable(env, h[i], loc) && Opened(h[i], loc) == Some(id)
  }

  /** At some instant of the call the path led to a file with the expected checksum, or did
      not. */
  ghost predicate ResolvedOnce(env: Env, h: seq<Files>, k: Task, loc: Loc) {
    exists i :: k.started <= i < |h| && Resolves(env, h[i], loc, k.expected)
  }

  ghost predicate UnresolvedOnce(env: Env, h: seq<Files>, k: Task, loc: Loc) {
    exists i :: k.started <= i < |h| && !Resolves(env, h[i], loc, k.expected)
  }

  /** At some instant of the call the path itself was a matching file, or was not. */
  ghost predicate MatchedOnce(env: Env, h: seq<Files>, k: Task, loc: Loc) {
    exists i :: k.started <= i < |h| && Matches(env, h[i], loc, k.expected)
  }

  ghost predicate MissedOnce(env: Env, h: seq<Files>, k: Task, loc: Loc) {
    exists i :: k.started <= i < |h| && !Matches(env, h[i], loc, k.expected)
  }

  ghost predicate Justified(env: Env, h: seq<Files>, k: Task) {
    && k.started < |h|
    && match k.pc
       case Look(c, id) => SeenAs(env, h, k.started, Place(c, k.key), id)
       case Note(c, hashed) =>
         if hashed.Some? then
           hashed.value.digest == env.hash(env.content(hashed.value.id)) &&
           ReadAs(env, h, k.started, Place(c, k.key), hashed.value.id)
         else UnresolvedOnce(env, h, k, Place(c, k.key))
       case Waiting => MissedOnce(env, h, k, Dest(k.key))
       case Fetch => MissedOnce(env, h, k, Dest(k.key))
       case Published => MatchedOnce(env, h, k, Dest(k.key))
       case Record(_) => MatchedOnce(env, h, k, Dest(k.key))
       case Ok(loc) => ResolvedOnce(env, h, k, loc)
       case _ => true
  }

  lemma SeenMatches(env: Env, h: seq<Files>, k: Task, loc: Loc, id: Identity)
    requires SeenAs(env, h, k.started, loc, id)
    ensures HasDigest(env, id, k.expected) ==> MatchedOnce(env, h, k, loc)
    ensures !HasDigest(env, id, k.expected) ==> MissedOnce(env, h, k, loc)
  {
    var i :| k.started <= i < |h| && Usable(env, h[i], loc) && h[i][loc].id == id;
    assert Matches(env, h[i], loc, k.expected) <==> HasDigest(env, id, k.expected);
  }

  lemma ReadResolves(env: Env, h: seq<Files>, k: Task, loc: Loc, id: Identity)
    requires ReadAs(env, h, k.started, loc, id)
    ensures HasDigest(env, id, k.expected) ==> ResolvedOnce(env, h, k, loc)
    ensures !HasDigest(env, id, k.expected) ==> UnresolvedOnce(env, h, k, loc)
  {
    var i :| k.started <= i < |h| && Readable(env, h[i], loc) && Opened(h[i], loc) == Some(id);
    assert Resolves(env, h[i], loc, k.expected) <==> HasDigest(env, id, k.expected);
  }

  /** A matching file is one the path leads to. */
  lemma MatchedResolves(env: Env, h: seq<Files>, k: Task, loc: Loc)
    ensures MatchedOnce(env, h, k, loc) ==> ResolvedOnce(env, h, k, loc)
    ensures UnresolvedOnce(env, h, k, loc) ==> MissedOnce(env, h, k, loc)
  {
    assert forall i :: 0 <= i < |h| && Matches(env, h[i], loc, k.expected) ==> Resolves(env, h[i], loc, k.expected);
  }

  /** Evidence gathered stays evidence as time goes on. */
  lemma JustifiedLater(env: Env, h: seq<Files>, f: Files, k: Task)
    requires Justified(env, h, k)
    ensures Justified(env, h + [f], k)
  {
    hide MissedOnce, MatchedOnce, ResolvedOnce, UnresolvedOnce, SeenAs, ReadAs;
    match k.pc {
      case Look(c, id) => SeenLater(env, h, f, k.started, Place(c, k.key), id);
      case Note(c, hashed) =>
        if hashed.Some? { ReadLater(env, h, f, k.started, Place(c, k.key), hashed.value.id); }
        OnceLater(env, h, f, k, Place(c, k.key));
      case Ok(loc) => OnceLater(env, h, f, k, loc);
      case _ => OnceLater(env, h, f, k, Dest(k.key));
    }
  }

  lemma OnceLater(env: Env, h: seq<Files>, f: Files, k: Task, loc: Loc)
    ensures MatchedOnce(env, h, k, loc) ==> MatchedOnce(env, h + [f], k, loc)
    ensures MissedOnce(env, h, k, loc) ==> MissedOnce(env, h + [f], k, loc)
    ensures ResolvedOnce(env, h, k, loc) ==> ResolvedOnce(env, h + [f], k, loc)
    ensures UnresolvedOnce(env, h, k, loc) ==> UnresolvedOnce(env, h + [f], k, loc)
  {
    hide Matches, Resolves;
    var g := h + [f];
    assert forall i :: 0 <= i < |h| ==> g[i] == h[i];
  }

  lemma SeenLater(env: Env, h: seq<Files>, f: Files, started: nat, loc: Loc, id: Identity)
    requires SeenAs(env, h, started, loc, id)
    ensures SeenAs(env, h + [f], started, loc, id)
  {
    var i :| started <= i < |h| && Usable(env, h[i], loc) && h[i][loc].id == id;
    assert (h + [f])[i] == h[i];
  }

  lemma ReadLater(env: Env, h: seq<Files>, f: Files, started: nat, loc: Loc, id: Identity)
    requires ReadAs(env, h, started, loc, id)
    ensures ReadAs(env, h + [f], started, loc, id)
  {
    var i :| started <= i < |h| && Readable(env, h[i], loc) && Opened(h[i], loc) == Some(id);
    assert (h + [f])[i] == h[i];
  }

  // ---------------------------------------------------------------- invariant

  /** A lock is held by a task exactly while that task is in the locked part of its call. */
  ghost predicate LocksExact(s: State) {
    && (forall t :: t in s.tasks && Locked(s.tasks[t].pc) ==>
          s.tasks[t].key in s.locks && s.locks[s.tasks[t].key] == t)
    && (forall k :: k in s.locks ==>
          s.locks[k] in s.tasks && s.tasks[s.locks[k]].key == k && Locked(s.tasks[s.locks[k]].pc))
  }

  /** A regular file found where a publisher has just published has the published checksum. */
  ghost predicate PublishedStands(env: Env, s: State) {
    forall t :: t in s.tasks && s.tasks[t].pc.Published? ==> Undisturbed(env, s.files, s.tasks[t])
  }

  predicate Undisturbed(env: Env, files: Files, k: Task) {
    Dest(k.key) in files && files[Dest(k.key)].Regular? ==> HasDigest(env, files[Dest(k.key)].id, k.expected)
  }

  ghost predicate RecordsSound(env: Env, s: State) {
    forall t :: t in s.tasks && s.tasks[t].pc.Record? ==> HasDigest(env, s.tasks[t].pc.id, s.tasks[t].expected)
  }

  ghost predicate AllJustified(env: Env, s: State) {
    forall t :: t in s.tasks ==> Justified(env, s.history, s.tasks[t])
  }

  ghost predicate Inv(env: Env, s: State) {
    && MemoSound(env, s.memo) && |s.memo| <= MAX_VERIFIED_ENTRIES
    && LocksExact(s) && PublishedStands(env, s) && RecordsSound(env, s) && AllJustified(env, s)
  }

  /** Between a publication and the publisher's second look at it, an outside writer leaves
      nothing at the destination, something that is not a regular file, or a file with the
      published checksum. */
  ghost predicate Quiet(env: Env, s: State, a: Action) {
    a.Outside? && a.loc.Dest? && a.file.Some? && a.file.value.Regular? ==>
      forall t :: t in s.tasks && s.tasks[t].key == a.loc.key && s.tasks[t].pc.Published? ==>
        HasDigest(env, a.file.value.id, s.tasks[t].expected)
  }

  ghost predicate QuietRun(env: Env, s: State, acts: seq<Action>)
    requires ValidRun(env, s, acts)
    decreases |acts|
  {
    acts == [] || (Quiet(env, s, acts[0]) && QuietRun(env, Apply(env, s, acts[0]), acts[1..]))
  }

  lemma InitInv(env: Env, files: Files)
    ensures Inv(env, Init(files))
  {
  }

  lemma LocksKept(env: Env, s: State, a: Action)
    requires LocksExact(s) && Enabled(env, s, a)
    ensures LocksExact(Apply(env, s, a))
  {
    hide Usable, Hit, NoteMatches, Hashed, FilesAfter, MemoAfter, RenamesAfter;
  }

  /** A right verdict can be remembered. */
  lemma RecordedSound(env: Env, m: Memo, loc: Loc, v: Verdict)
    requires MemoSound(env, m) && |m| <= MAX_VERIFIED_ENTRIES && HasDigest(env, v.id, v.digest)
    ensures MemoSound(env, Recorded(m, loc, v)) && |Recorded(m, loc, v)| <= MAX_VERIFIED_ENTRIES
  {
    RecordedBounded(m, loc, v);
  }

  /** Any verdict can be forgotten. */
  lemma ForgottenSound(env: Env, m: Memo, loc: Loc)
    requires MemoSound(env, m) && |m| <= MAX_VERIFIED_ENTRIES
    ensures MemoSound(env, m - {loc}) && |m - {loc}| <= MAX_VERIFIED_ENTRIES
  {
    Smaller(m, loc);
  }

  lemma MemoKept(env: Env, s: State, a: Action)
    requires Inv(env, s) && Enabled(env, s, a)
    ensures MemoSound(env, MemoAfter(env, s, a)) && |MemoAfter(env, s, a)| <= MAX_VERIFIED_ENTRIES
  {
    hide Usable, Readable, LocksExact, PublishedStands, PcAfter, MemoSound, Recorded;
    hide SeenAs, ReadAs, MissedOnce, MatchedOnce, ResolvedOnce, UnresolvedOnce;
    if a.Step? {
      var k := s.tasks[a.t];
      assert Justified(env, s.history, k);
      match k.pc {
        case Note(c, hashed) =>
          if NoteMatches(k) {
            RecordedSound(env, s.memo, Place(c, k.key), Verdict(hashed.value.id, k.expected));
          } else {
            ForgottenSound(env, s.memo, Place(c, k.key));
          }
        case Record(id) => RecordedSound(env, s.memo, Dest(k.key), Verdict(id, k.expected));
        case _ =>
      }
    }
  }

  lemma Smaller(m: Memo, loc: Loc)
    ensures |m - {loc}| <= |m|
  {
    var r := m - {loc};
    assert r.Keys <= m.Keys && m.Keys == r.Keys + (m.Keys - r.Keys);
    assert |r| == |r.Keys| && |m| == |m.Keys|;
  }

  lemma PublishedKept(env: Env, s: State, a: Action)
    requires LocksExact(s) && PublishedStands(env, s) && Enabled(env, s, a) && Quiet(env, s, a)
    ensures PublishedStands(env, Apply(env, s, a))
  {
    hide Hit, NoteMatches, Hashed, MemoAfter, LocksAfter, RenamesAfter;
    var n := Apply(env, s, a);
    forall t | t in n.tasks && n.tasks[t].pc.Published?
      ensures Undisturbed(env, n.files, n.tasks[t])
    {
      if t in s.tasks && s.tasks[t].pc.Published? { assert s.locks[s.tasks[t].key] == t; }
    }
  }

  lemma RecordsKept(env: Env, s: State, a: Action)
    requires PublishedStands(env, s) && RecordsSound(env, s) && Enabled(env, s, a)
    ensures RecordsSound(env, Apply(env, s, a))
  {
    hide Hit, NoteMatches, Hashed, MemoAfter, LocksAfter, RenamesAfter, FilesAfter;
  }

  /** The step of a task brings its own evidence. */
  lemma StepJustified(env: Env, s: State, t: nat)
    requires Inv(env, s) && Enabled(env, s, Step(t))
    ensures Justified(env, s.history + [s.files], s.tasks[t].(pc := StepPc(env, s, s.tasks[t])))
  {
    hide Usable, Readable, LocksExact, PublishedStands, RecordsSound;
    hide MissedOnce, MatchedOnce, ResolvedOnce, UnresolvedOnce, SeenAs, ReadAs;
    var k := s.tasks[t];
    var h := s.history + [s.files];
    assert Justified(env, s.history, k);
    JustifiedLater(env, s.history, s.files, k);
    var n := k.(pc := StepPc(env, s, k));
    match k.pc {
      case Stat(c) => LastInstant(env, s.history, s.files, n, Place(c, k.key));
      case Look(c, id) =>
        if Hit(s, k, id) {
          SeenMatches(env, h, k, Place(c, k.key), id);
          MatchedResolves(env, h, k, Place(c, k.key));
          SameEvidence(env, h, k, n);
        }
      case Hash(c) => LastInstant(env, s.history, s.files, n, Place(c, k.key));
      case Note(c, hashed) =>
        if hashed.Some? { ReadResolves(env, h, k, Place(c, k.key), hashed.value.id); }
        MatchedResolves(env, h, k, Place(c, k.key));
        SameEvidence(env, h, k, n);
      case Published => MatchedResolves(env, h, k, Dest(k.key)); SameEvidence(env, h, k, n);
      case Record(_) => MatchedResolves(env, h, k, Dest(k.key)); SameEvidence(env, h, k, n);
      case _ =>
    }
  }

  lemma SameEvidence(env: Env, h: seq<Files>, k: Task, n: Task)
    requires n == k.(pc := n.pc)
    ensures forall loc :: MatchedOnce(env, h, k, loc) <==> MatchedOnce(env, h, n, loc)
    ensures forall loc :: MissedOnce(env, h, k, loc) <==> MissedOnce(env, h, n, loc)
    ensures forall loc :: ResolvedOnce(env, h, k, loc) <==> ResolvedOnce(env, h, n, loc)
    ensures forall loc :: UnresolvedOnce(env, h, k, loc) <==> UnresolvedOnce(env, h, n, loc)
  {
  }

  lemma LastInstant(env: Env, h: seq<Files>, f: Files, k: Task, loc: Loc)
    requires k.started <= |h|
    ensures Usable(env, f, loc) ==> SeenAs(env, h + [f], k.started, loc, f[loc].id)
    ensures !Usable(env, f, loc) ==> MissedOnce(env, h + [f], k, loc)
    ensures Readable(env, f, loc) ==> ReadAs(env, h + [f], k.started, loc, Opened(f, loc).value)
    ensures !Readable(env, f, loc) ==> UnresolvedOnce(env, h + [f], k, loc)
    ensures Matches(env, f, loc, k.expected) ==> MatchedOnce(env, h + [f], k, loc)
  {
    var i := |h|;
    assert (h + [f])[i] == f;
  }

  lemma JustifiedKept(env: Env, s: State, a: Action, t: nat)
    requires Inv(env, s) && Enabled(env, s, a) && t in TasksAfter(env, s, a)
    ensures Justified(env, Apply(env, s, a).history, TasksAfter(env, s, a)[t])
  {
    hide Usable, Readable, LocksExact, PublishedStands, RecordsSound, MemoSound, StepPc, FilesAfter;
    hide MissedOnce, MatchedOnce, ResolvedOnce, UnresolvedOnce, SeenAs, ReadAs;
    var f := FilesAfter(env, s, a);
    if !a.Outside? && a.t == t {
      match a {
        case Step(_) => StepKeepsFiles(env, s, a); StepJustified(env, s, t);
        case Rename(_, id) => RenameJustified(env, s, a);
        case Fail(_) => assert Justified(env, s.history, s.tasks[t]);
        case Spawn(_, _, _) =>
      }
    } else {
      assert Justified(env, s.history, s.tasks[t]);
      JustifiedLater(env, s.history, f, s.tasks[t]);
    }
  }

  lemma StepKeepsFiles(env: Env, s: State, a: Action)
    requires Enabled(env, s, a) && a.Step?
    ensures FilesAfter(env, s, a) == s.files
  {
  }

  lemma RenameJustified(env: Env, s: State, a: Action)
    requires AllJustified(env, s) && Enabled(env, s, a) && a.Rename?
    ensures Justified(env, s.history + [FilesAfter(env, s, a)], s.tasks[a.t].(pc := Published))
  {
    hide SeenAs, ReadAs, MissedOnce, MatchedOnce, ResolvedOnce, UnresolvedOnce;
    var k := s.tasks[a.t];
    assert Justified(env, s.history, k);
    LastInstant(env, s.history, FilesAfter(env, s, a), k.(pc := Published), Dest(k.key));
  }

  lemma InvKept(env: Env, s: State, a: Action)
    requires Inv(env, s) && Enabled(env, s, a) && Quiet(env, s, a)
    ensures Inv(env, Apply(env, s, a))
  {
    hide Enabled, Justified, TasksAfter, LocksAfter, FilesAfter, MemoAfter, RenamesAfter;
    LocksKept(env, s, a);
    MemoKept(env, s, a);
    PublishedKept(env, s, a);
    RecordsKept(env, s, a);
    forall t | t in TasksAfter(env, s, a)
      ensures Justified(env, Apply(env, s, a).history, TasksAfter(env, s, a)[t])
    {
      JustifiedKept(env, s, a, t);
    }
  }

  lemma {:induction false} InvAlways(env: Env, s: State, acts: seq<Action>)
    requires Inv(env, s) && ValidRun(env, s, acts) && QuietRun(env, s, acts)
    ensures Inv(env, Run(env, s, acts))
    decreases |acts|
  {
    hide Inv, Enabled, Apply, Quiet;
    if acts != [] {
      InvKept(env, s, acts[0]);
      InvAlways(env, Apply(env, s, acts[0]), acts[1..]);
    }
  }

  // ---------------------------------------------------------------- the memo refines re-hashing

  /** In every run, including fast-path checks that race with downloads and outside writers
      that keep clear of a publication, the memo is sound and bounded. */
  lemma MemoAlwaysSound(env: Env, files: Files, acts: seq<Action>)
    requires ValidRun(env, Init(files), acts) && QuietRun(env, Init(files), acts)
    ensures MemoSound(env, Run(env, Init(files), acts).memo)
    ensures |Run(env, Init(files), acts).memo| <= 16384
  {
    hide LocksExact, PublishedStands, RecordsSound, AllJustified, ValidRun, QuietRun, Run, MemoSound;
    InitInv(env, files);
    InvAlways(env, Init(files), acts);
  }

  /** A check pc answers: yes by finishing the call, no by moving on. */
  predicate AnswersNo(before: Pc, after: Pc) {
    (before.Stat? || before.Note?) && after == Missed(before.check)
  }

  /** What a step of a check answers is what hashing would have answered at some instant of
      the call: a yes means that the path led to a matching file, a no that it was not a
      matching file itself, and a no after hashing that it did not lead to one either. */
  ghost predicate Refines(env: Env, s: State, t: nat)
    requires Enabled(env, s, Step(t))
  {
    var k := s.tasks[t];
    var n := k.(pc := StepPc(env, s, k));
    var h := s.history + [s.files];
    && (n.pc.Ok? ==> ResolvedOnce(env, h, n, n.pc.loc))
    && (AnswersNo(k.pc, n.pc) ==> MissedOnce(env, h, n, Place(k.pc.check, k.key)))
    && (AnswersNo(k.pc, n.pc) && k.pc.Note? ==> UnresolvedOnce(env, h, n, Place(k.pc.check, k.key)))
  }

  lemma StepRefines(env: Env, s: State, t: nat)
    requires Inv(env, s) && Enabled(env, s, Step(t))
    ensures Refines(env, s, t)
  {
    hide Usable, Readable, MemoSound, LocksExact, PublishedStands, RecordsSound, StepPc;
    hide MissedOnce, MatchedOnce, ResolvedOnce, UnresolvedOnce, SeenAs, ReadAs;
    StepJustified(env, s, t);
    if AnswersNo(s.tasks[t].pc, StepPc(env, s, s.tasks[t])) { NoIsJustified(env, s, t); }
  }

  /** The memoised check refines hashing the file every time, in every reachable state. */
  lemma CheckRefinesHashing(env: Env, files: Files, acts: seq<Action>, t: nat)
    requires ValidRun(env, Init(files), acts) && QuietRun(env, Init(files), acts)
    requires Enabled(env, Run(env, Init(files), acts), Step(t))
    ensures Refines(env, Run(env, Init(files), acts), t)
  {
    hide Inv, ValidRun, QuietRun, Run, Enabled, Refines;
    InitInv(env, files);
    InvAlways(env, Init(files), acts);
    StepRefines(env, Run(env, Init(files), acts), t);
  }

  /** Every Ok result is justified by an instant in the call when the path it names led to a
      regular file of allowed size with the expected checksum. */
  lemma OkIsJustified(env: Env, files: Files, acts: seq<Action>, t: nat)
    requires ValidRun(env, Init(files), acts) && QuietRun(env, Init(files), acts)
    requires var s := Run(env, Init(files), acts); t in s.tasks && s.tasks[t].pc.Ok?
    ensures var s := Run(env, Init(files), acts);
            exists i :: s.tasks[t].started <= i < |s.history| &&
                        Resolves(env, s.history[i], s.tasks[t].pc.loc, s.tasks[t].expected)
  {
    hide Resolves, MemoSound, LocksExact, PublishedStands, RecordsSound, ValidRun, QuietRun, Run;
    InitInv(env, files);
    InvAlways(env, Init(files), acts);
    var s := Run(env, Init(files), acts);
    assert Justified(env, s.history, s.tasks[t]);
  }

  lemma NoIsJustified(env: Env, s: State, t: nat)
    requires AllJustified(env, s) && Enabled(env, s, Step(t))
    requires AnswersNo(s.tasks[t].pc, StepPc(env, s, s.tasks[t]))
    ensures var k := s.tasks[t];
            var n := k.(pc := StepPc(env, s, k));
            && MissedOnce(env, s.history + [s.files], n, Place(k.pc.check, k.key))
            && (k.pc.Note? ==> UnresolvedOnce(env, s.history + [s.files], n, Place(k.pc.check, k.key)))
  {
    hide Usable, Readable, MissedOnce, MatchedOnce, ResolvedOnce, UnresolvedOnce, SeenAs, ReadAs;
    var k := s.tasks[t];
    var n := k.(pc := StepPc(env, s, k));
    assert Justified(env, s.history, k);
    JustifiedLater(env, s.history, s.files, k);
    var h := s.history + [s.files];
    match k.pc {
      case Stat(c) => LastInstant(env, s.history, s.files, n, Place(c, k.key));
      case Note(c, hashed) =>
        if hashed.Some? { ReadResolves(env, h, k, Place(c, k.key), hashed.value.id); }
        MatchedResolves(env, h, k, Place(c, k.key));
        SameEvidence(env, h, k, n);
    }
  }

  // ---------------------------------------------------------------- the window after a publication

  /** The publisher's second look and what it records. */
  lemma LookThenRecord(env: Env, s: State, t: nat, id: Identity)
    requires t in s.tasks && s.tasks[t].pc.Published?
    requires Dest(s.tasks[t].key) in s.files && s.files[Dest(s.tasks[t].key)] == Regular(id)
    ensures ValidRun(env, s, [Step(t), Step(t)])
    ensures QuietRun(env, s, [Step(t), Step(t)])
    ensures Run(env, s, [Step(t), Step(t)]).memo ==
            Recorded(s.memo, Dest(s.tasks[t].key), Verdict(id, s.tasks[t].expected))
  {
    hide Recorded;
    var s1 := Apply(env, s, Step(t));
    assert s1.tasks[t].pc == Record(id) && s1.memo == s.memo;
    TwoSteps(env, s, Step(t), Step(t));
  }

  lemma TwoSteps(env: Env, s: State, a: Action, b: Action)
    requires !a.Outside? && !b.Outside? && Enabled(env, s, a) && Enabled(env, Apply(env, s, a), b)
    ensures ValidRun(env, s, [a, b]) && Run(env, s, [a, b]) == Apply(env, Apply(env, s, a), b)
    ensures QuietRun(env, s, [a, b]) && UndisguisedRun(env, s, [a, b])
  {
    hide Enabled, Apply;
    Prepend(env, Apply(env, s, a), b, []);
    Prepend(env, s, a, [b]);
    assert [a] + [b] == [a, b] && [b] + [] == [b];
  }

  /** A step of a task can go before any run. */
  lemma Prepend(env: Env, s: State, a: Action, acts: seq<Action>)
    requires Enabled(env, s, a) && !a.Outside? && ValidRun(env, Apply(env, s, a), acts)
    ensures ValidRun(env, s, [a] + acts) && Run(env, s, [a] + acts) == Run(env, Apply(env, s, a), acts)
    ensures QuietRun(env, Apply(env, s, a), acts) ==> QuietRun(env, s, [a] + acts)
    ensures UndisguisedRun(env, Apply(env, s, a), acts) ==> UndisguisedRun(env, s, [a] + acts)
  {
    hide Enabled, Apply;
    assert ([a] + acts)[1..] == acts;
  }

  /** The condition on outside writers is exact.  In every state reached so far within it, a
      write keeps it if and only if nothing that follows within it can make the memo
      unsound: the publisher takes whatever regular file it finds on its second look for what
      it published. */
  lemma QuietExactly(env: Env, files: Files, acts: seq<Action>, loc: Loc, file: Option<File>)
    requires ValidRun(env, Init(files), acts) && QuietRun(env, Init(files), acts)
    ensures var s := Run(env, Init(files), acts);
            var n := Apply(env, s, Outside(loc, file));
            Quiet(env, s, Outside(loc, file)) <==>
            forall more :: ValidRun(env, n, more) && QuietRun(env, n, more) ==> MemoSound(env, Run(env, n, more).memo)
  {
    hide Inv, ValidRun, QuietRun, Run, Apply, MemoSound, Quiet;
    InitInv(env, files);
    InvAlways(env, Init(files), acts);
    var s := Run(env, Init(files), acts);
    var a := Outside(loc, file);
    if Quiet(env, s, a) {
      InvKept(env, s, a);
      forall more | ValidRun(env, Apply(env, s, a), more) && QuietRun(env, Apply(env, s, a), more)
        ensures MemoSound(env, Run(env, Apply(env, s, a), more).memo)
      {
        InvAlways(env, Apply(env, s, a), more);
        InvHasMemo(env, Run(env, Apply(env, s, a), more));
      }
    } else {
      var t := WindowPoisonsMemo(env, s, loc, file);
    }
  }

  lemma InvHasMemo(env: Env, s: State)
    requires Inv(env, s)
    ensures MemoSound(env, s.memo)
  {
  }

  /** A write that breaks the condition, followed by the publisher's second look and its note,
      leaves a wrong verdict in the memo. */
  lemma WindowPoisonsMemo(env: Env, s: State, loc: Loc, file: Option<File>) returns (t: nat)
    requires !Quiet(env, s, Outside(loc, file))
    ensures var n := Apply(env, s, Outside(loc, file));
            && ValidRun(env, n, [Step(t), Step(t)]) && QuietRun(env, n, [Step(t), Step(t)])
            && !MemoSound(env, Run(env, n, [Step(t), Step(t)]).memo)
  {
    t :| t in s.tasks && s.tasks[t].key == loc.key && s.tasks[t].pc.Published? &&
         !HasDigest(env, file.value.id, s.tasks[t].expected);
    var n := Apply(env, s, Outside(loc, file));
    assert n.tasks[t] == s.tasks[t];
    LookThenRecord(env, n, t, file.value.id);
    assert loc in Recorded(n.memo, loc, Verdict(file.value.id, s.tasks[t].expected));
  }

  // ---------------------------------------------------------------- links

  /** A call that has seen a regular file and not yet hashed it. */
  predicate InLinkWindow(k: Task, loc: Loc) {
    (k.pc.Look? || k.pc.Hash?) && Place(k.pc.check, k.key) == loc
  }

  /** Between a call's look at the path and its hashing, which follows links, an outside
      writer does not put there a link to a file with the expected checksum, unless the path
      was such a file itself earlier in the call. */
  ghost predicate Undisguised(env: Env, s: State, a: Action) {
    a.Outside? ==>
      forall t :: t in s.tasks && InLinkWindow(s.tasks[t], a.loc) &&
                  Disguised(env, FilesAfter(env, s, a), a.loc, s.tasks[t].expected) ==>
        MatchedOnce(env, s.history, s.tasks[t], a.loc)
  }

  ghost predicate UndisguisedRun(env: Env, s: State, acts: seq<Action>)
    requires ValidRun(env, s, acts)
    decreases |acts|
  {
    acts == [] || (Undisguised(env, s, acts[0]) && UndisguisedRun(env, Apply(env, s, acts[0]), acts[1..]))
  }

  /** The answer of a call rests on the path having been a matching file itself. */
  ghost predicate Plain(env: Env, files: Files, h: seq<Files>, k: Task) {
    match k.pc
    case Look(c, _) => Disguised(env, files, Place(c, k.key), k.expected) ==> MatchedOnce(env, h, k, Place(c, k.key))
    case Hash(c) => Disguised(env, files, Place(c, k.key), k.expected) ==> MatchedOnce(env, h, k, Place(c, k.key))
    case Note(c, _) => NoteMatches(k) ==> MatchedOnce(env, h, k, Place(c, k.key))
    case Ok(loc) => MatchedOnce(env, h, k, loc)
    case _ => true
  }

  ghost predicate AllPlain(env: Env, s: State) {
    forall t :: t in s.tasks ==> Plain(env, s.files, s.history, s.tasks[t])
  }

  lemma StepPlain(env: Env, s: State, t: nat)
    requires Inv(env, s) && AllPlain(env, s) && Enabled(env, s, Step(t))
    ensures Plain(env, s.files, s.history + [s.files], s.tasks[t].(pc := StepPc(env, s, s.tasks[t])))
  {
    hide LocksExact, PublishedStands, RecordsSound;
    hide MissedOnce, MatchedOnce, ResolvedOnce, UnresolvedOnce, SeenAs, ReadAs;
    var k := s.tasks[t];
    var n := k.(pc := StepPc(env, s, k));
    var h := s.history + [s.files];
    assert Plain(env, s.files, s.history, k) && Justified(env, s.history, k);
    SameEvidence(env, h, k, n);
    match k.pc {
      case Look(c, id) =>
        OnceLater(env, s.history, s.files, k, Place(c, k.key));
        SeenLater(env, s.history, s.files, k.started, Place(c, k.key), id);
        SeenMatches(env, h, k, Place(c, k.key), id);
      case Hash(c) =>
        OnceLater(env, s.history, s.files, k, Place(c, k.key));
        LastInstant(env, s.history, s.files, k, Place(c, k.key));
      case Note(c, _) => OnceLater(env, s.history, s.files, k, Place(c, k.key));
      case Published => OnceLater(env, s.history, s.files, k, Dest(k.key));
      case Record(_) => OnceLater(env, s.history, s.files, k, Dest(k.key));
      case _ =>
    }
  }

  /** A step of another task, or of the outside, leaves the answer plain. */
  lemma OtherPlain(env: Env, s: State, a: Action, t: nat)
    requires AllPlain(env, s) && Enabled(env, s, a) && Undisguised(env, s, a)
    requires t in s.tasks && (a.Outside? || a.t != t)
    ensures Plain(env, FilesAfter(env, s, a), s.history + [FilesAfter(env, s, a)], s.tasks[t])
  {
    hide MatchedOnce, HasDigest, Fits;
    var k := s.tasks[t];
    var f := FilesAfter(env, s, a);
    assert Plain(env, s.files, s.history, k);
    match k.pc {
      case Look(c, _) => OnceLater(env, s.history, f, k, Place(c, k.key));
      case Hash(c) => OnceLater(env, s.history, f, k, Place(c, k.key));
      case Note(c, _) => OnceLater(env, s.history, f, k, Place(c, k.key));
      case Ok(loc) => OnceLater(env, s.history, f, k, loc);
      case _ =>
    }
  }

  lemma PlainKept(env: Env, s: State, a: Action)
    requires Inv(env, s) && AllPlain(env, s) && Enabled(env, s, a) && Undisguised(env, s, a)
    ensures AllPlain(env, Apply(env, s, a))
  {
    hide Inv, StepPc, FilesAfter, Undisguised;
    forall t | t in TasksAfter(env, s, a)
      ensures Plain(env, FilesAfter(env, s, a), Apply(env, s, a).history, TasksAfter(env, s, a)[t])
    {
      if a.Step? && a.t == t {
        StepKeepsFiles(env, s, a);
        StepPlain(env, s, t);
      } else if a.Outside? || a.t != t {
        OtherPlain(env, s, a, t);
      }
    }
  }

  lemma {:induction false} PlainAlways(env: Env, s: State, acts: seq<Action>)
    requires Inv(env, s) && AllPlain(env, s)
    requires ValidRun(env, s, acts) && QuietRun(env, s, acts) && UndisguisedRun(env, s, acts)
    ensures AllPlain(env, Run(env, s, acts))
    decreases |acts|
  {
    hide Inv, Enabled, Apply, Quiet, Undisguised, AllPlain;
    if acts != [] {
      InvKept(env, s, acts[0]);
      PlainKept(env, s, acts[0]);
      PlainAlways(env, Apply(env, s, acts[0]), acts[1..]);
    }
  }

  /** Every Ok result so far rests on an instant of its call when the path it names was itself
      a regular file of allowed size with the expected checksum. */
  ghost predicate OksPlain(env: Env, s: State) {
    forall t :: t in s.tasks && s.tasks[t].pc.Ok? ==> MatchedOnce(env, s.history, s.tasks[t], s.tasks[t].pc.loc)
  }

  lemma OkIsPlain(env: Env, files: Files, acts: seq<Action>)
    requires ValidRun(env, Init(files), acts)
    requires QuietRun(env, Init(files), acts) && UndisguisedRun(env, Init(files), acts)
    ensures OksPlain(env, Run(env, Init(files), acts))
  {
    hide Inv, ValidRun, QuietRun, UndisguisedRun, Run, MatchedOnce;
    InitInv(env, files);
    PlainAlways(env, Init(files), acts);
    var s := Run(env, Init(files), acts);
    assert forall t :: t in s.tasks ==> Plain(env, s.files, s.history, s.tasks[t]);
  }

  /** The condition on links is exact.  In every state reached so far within both conditions,
      a write that keeps the first keeps the second if and only if, whatever follows within
      both, every Ok result rests on the path itself having been a matching file. */
  lemma UndisguisedExactly(env: Env, files: Files, acts: seq<Action>, loc: Loc, file: Option<File>)
    requires ValidRun(env, Init(files), acts)
    requires QuietRun(env, Init(files), acts) && UndisguisedRun(env, Init(files), acts)
    requires Quiet(env, Run(env, Init(files), acts), Outside(loc, file))
    ensures var s := Run(env, Init(files), acts);
            var n := Apply(env, s, Outside(loc, file));
            Undisguised(env, s, Outside(loc, file)) <==>
            forall more :: ValidRun(env, n, more) && QuietRun(env, n, more) && UndisguisedRun(env, n, more) ==>
              OksPlain(env, Run(env, n, more))
  {
    hide Inv, ValidRun, QuietRun, UndisguisedRun, Run, Apply, Quiet, Undisguised, OksPlain, Plain;
    InitInv(env, files);
    InvAlways(env, Init(files), acts);
    PlainAlways(env, Init(files), acts);
    var s := Run(env, Init(files), acts);
    var a := Outside(loc, file);
    InvKept(env, s, a);
    if Undisguised(env, s, a) {
      PlainKept(env, s, a);
      forall more | && ValidRun(env, Apply(env, s, a), more) && QuietRun(env, Apply(env, s, a), more)
                    && UndisguisedRun(env, Apply(env, s, a), more)
        ensures OksPlain(env, Run(env, Apply(env, s, a), more))
      {
        PlainAlways(env, Apply(env, s, a), more);
        PlainMeansOks(env, Run(env, Apply(env, s, a), more));
      }
    } else {
      var more := LinkAnswersYes(env, s, loc, file);
    }
  }

  lemma PlainMeansOks(env: Env, s: State)
    requires AllPlain(env, s)
    ensures OksPlain(env, s)
  {
    hide MatchedOnce;
    assert forall t :: t in s.tasks ==> Plain(env, s.files, s.history, s.tasks[t]);
  }

  /** A write that breaks the condition, followed by the rest of that call's check, ends in an
      Ok although the path never was a matching file. */
  lemma LinkAnswersYes(env: Env, s: State, loc: Loc, file: Option<File>) returns (more: seq<Action>)
    requires Inv(env, s) && !Undisguised(env, s, Outside(loc, file))
    ensures var n := Apply(env, s, Outside(loc, file));
            && ValidRun(env, n, more) && QuietRun(env, n, more) && UndisguisedRun(env, n, more)
            && !OksPlain(env, Run(env, n, more))
  {
    var a := Outside(loc, file);
    var t :| t in s.tasks && InLinkWindow(s.tasks[t], loc) &&
             Disguised(env, FilesAfter(env, s, a), loc, s.tasks[t].expected) &&
             !MatchedOnce(env, s.history, s.tasks[t], loc);
    var n := Apply(env, s, a);
    assert n.tasks[t] == s.tasks[t];
    NeverMatched(env, s.history, n.files, s.tasks[t], loc);
    if s.tasks[t].pc.Look? {
      MissesMemo(env, s, t, loc);
      var n1 := Apply(env, n, Step(t));
      assert n1.tasks[t] == s.tasks[t].(pc := Hash(s.tasks[t].pc.check));
      NeverMatched(env, n.history, n.files, s.tasks[t], loc);
      SameEvidence(env, n1.history, s.tasks[t], n1.tasks[t]);
      var rest := HashToYes(env, n1, t, loc);
      more := [Step(t)] + rest;
      Prepend(env, n, Step(t), rest);
    } else {
      more := HashToYes(env, n, t, loc);
    }
  }

  /** A new instant at which the path is a link is no matching one. */
  lemma NeverMatched(env: Env, h: seq<Files>, f: Files, k: Task, loc: Loc)
    requires !MatchedOnce(env, h, k, loc) && loc in f && f[loc].Link?
    ensures !MatchedOnce(env, h + [f], k, loc)
  {
    var g := h + [f];
    assert forall i :: 0 <= i < |h| ==> g[i] == h[i];
  }

  /** A file remembered as matching and seen during the call has matched. */
  lemma MissesMemo(env: Env, s: State, t: nat, loc: Loc)
    requires Inv(env, s) && t in s.tasks && s.tasks[t].pc.Look? && Place(s.tasks[t].pc.check, s.tasks[t].key) == loc
    requires !MatchedOnce(env, s.history, s.tasks[t], loc)
    ensures !Hit(s, s.tasks[t], s.tasks[t].pc.id)
  {
    hide MatchedOnce, SeenAs;
    assert Justified(env, s.history, s.tasks[t]);
    SeenMatches(env, s.history, s.tasks[t], loc, s.tasks[t].pc.id);
  }

  lemma HashToYes(env: Env, s: State, t: nat, loc: Loc) returns (more: seq<Action>)
    requires t in s.tasks && s.tasks[t].pc.Hash? && Place(s.tasks[t].pc.check, s.tasks[t].key) == loc
    requires Disguised(env, s.files, loc, s.tasks[t].expected) && !MatchedOnce(env, s.history, s.tasks[t], loc)
    ensures ValidRun(env, s, more) && QuietRun(env, s, more) && UndisguisedRun(env, s, more)
    ensures !OksPlain(env, Run(env, s, more))
  {
    more := [Step(t), Step(t)];
    var s1 := Apply(env, s, Step(t));
    var s2 := Apply(env, s1, Step(t));
    assert s2.tasks[t] == s.tasks[t].(pc := Pc.Ok(loc)) && s2.history == s.history + [s.files] + [s.files];
    TwoSteps(env, s, Step(t), Step(t));
    NeverMatched(env, s.history, s.files, s.tasks[t], loc);
    NeverMatched(env, s.history + [s.files], s.files, s.tasks[t], loc);
    SameEvidence(env, s2.history, s.tasks[t], s2.tasks[t]);
  }

  // ---------------------------------------------------------------- both failures, from the start

  lemma {:induction false} Extend(env: Env, s: State, acts: seq<Action>, a: Action)
    requires ValidRun(env, s, acts) && Enabled(env, Run(env, s, acts), a)
    ensures ValidRun(env, s, acts + [a]) && Run(env, s, acts + [a]) == Apply(env, Run(env, s, acts), a)
    decreases |acts|
  {
    hide Enabled, Apply;
    if acts == [] {
      assert ([] + [a])[1..] == [];
    } else {
      assert (acts + [a])[1..] == acts[1..] + [a];
      Extend(env, Apply(env, s, acts[0]), acts[1..], a);
    }
  }

  /** Running on: the next state, and the run so far with one more action. */
  lemma Next(env: Env, s: State, acts: seq<Action>, n: State, a: Action) returns (more: seq<Action>, n': State)
    requires ValidRun(env, s, acts) && Run(env, s, acts) == n && Enabled(env, n, a)
    ensures more == acts + [a] && n' == Apply(env, n, a)
    ensures ValidRun(env, s, more) && Run(env, s, more) == n'
  {
    more, n' := acts + [a], Apply(env, n, a);
    Extend(env, s, acts, a);
  }

  /** The same for a step of the only call. */
  lemma NextStep(env: Env, s: State, acts: seq<Action>, n: State, k: Task) returns (more: seq<Action>, n': State)
    requires ValidRun(env, s, acts) && Run(env, s, acts) == n && n.tasks == map[0 := k] && Enabled(env, n, Step(0))
    ensures more == acts + [Step(0)] && ValidRun(env, s, more) && Run(env, s, more) == n'
    ensures n'.tasks == map[0 := k.(pc := StepPc(env, n, k))] && n'.memo == StepMemo(n, k)
    ensures n'.files == n.files && n'.history == n.history + [n.files]
    ensures !Locked(k.pc) && !k.pc.Waiting? ==> n'.locks == n.locks
  {
    hide ValidRun, Run;
    more, n' := Next(env, s, acts, n, Step(0));
  }

  lemma NextOther(env: Env, s: State, acts: seq<Action>, n: State, a: Action) returns (more: seq<Action>, n': State)
    requires ValidRun(env, s, acts) && Run(env, s, acts) == n && Enabled(env, n, a) && (a.Spawn? || a.Outside?)
    ensures more == acts + [a] && ValidRun(env, s, more) && Run(env, s, more) == n'
    ensures n'.tasks == TasksAfter(env, n, a) && n'.memo == n.memo && n'.locks == n.locks
    ensures n'.files == FilesAfter(env, n, a) && n'.history == n.history + [n'.files]
  {
    hide ValidRun, Run;
    more, n' := Next(env, s, acts, n, a);
  }

  /** One call on a path that holds a wrong file, and a writer that swaps in a link to a right
      one after the call's first look. */
  function LinkSwap(key: Key, expected: Digest, loc: Loc, right: Identity): seq<Action> {
    [Spawn(0, key, expected), Step(0), Outside(loc, Some(Link(Some(right)))), Step(0), Step(0), Step(0)]
  }

  lemma LinkSwappedIn(env: Env, key: Key, expected: Digest, wrong: Identity, right: Identity)
    returns (acts: seq<Action>, n: State)
    requires Fits(env, wrong)
    ensures var c := FirstCheck(env, false);
            var loc := Place(c, key);
            var before, after := map[loc := Regular(wrong)], map[loc := Link(Some(right))];
            && acts == LinkSwap(key, expected, loc, right)[..3]
            && ValidRun(env, Init(before), acts) && n == Run(env, Init(before), acts)
            && n.tasks == map[0 := Task(key, expected, 1, Look(c, wrong))] && n.memo == map[]
            && n.files == after && n.history == [before, before, before, after]
  {
    var c := FirstCheck(env, false);
    var loc := Place(c, key);
    var before := map[loc := Regular(wrong)];
    var s := Init(before);
    acts, n := [], s;
    assert ValidRun(env, s, []) && Run(env, s, []) == s;
    hide ValidRun, Run, Apply;
    acts, n := NextOther(env, s, acts, n, Spawn(0, key, expected));
    assert n.tasks == map[0 := Task(key, expected, 1, Stat(c))] && n.files == before && n.memo == map[];
    acts, n := NextStep(env, s, acts, n, n.tasks[0]);
    acts, n := NextOther(env, s, acts, n, Outside(loc, Some(Link(Some(right)))));
  }

  /** From the start: the call answers Ok although its path was, at every instant, a wrong file
      or a link. */
  lemma LinkSwapFromStart(env: Env, key: Key, expected: Digest, wrong: Identity, right: Identity)
    requires Fits(env, wrong) && !HasDigest(env, wrong, expected)
    requires Fits(env, right) && HasDigest(env, right, expected)
    ensures var loc := Place(FirstCheck(env, false), key);
            var s := Init(map[loc := Regular(wrong)]);
            var acts := LinkSwap(key, expected, loc, right);
            && ValidRun(env, s, acts)
            && var n := Run(env, s, acts);
               && 0 in n.tasks && n.tasks[0].pc == Pc.Ok(loc)
               && forall i :: 0 <= i < |n.history| ==> !Matches(env, n.history[i], loc, expected)
  {
    hide ValidRun, Run, Apply;
    var c := FirstCheck(env, false);
    var loc := Place(c, key);
    var s := Init(map[loc := Regular(wrong)]);
    var acts, n := LinkSwappedIn(env, key, expected, wrong, right);
    acts, n := NextStep(env, s, acts, n, n.tasks[0]);
    assert n.tasks[0].pc == Hash(c);
    acts, n := NextStep(env, s, acts, n, n.tasks[0]);
    assert n.tasks[0].pc == Note(c, Some(Verdict(right, expected)));
    acts, n := NextStep(env, s, acts, n, n.tasks[0]);
    assert acts == LinkSwap(key, expected, loc, right);
  }

  /** What one call does, from an empty store to the rename of `published`: the checks that
      find nothing, the lock, the checks again, and the download. */
  function ToPublication(env: Env, key: Key, expected: Digest, published: Identity): seq<Action> {
    [Spawn(0, key, expected)] +
    (if env.bundled then [Step(0), Step(0), Step(0), Step(0), Step(0)] else [Step(0), Step(0), Step(0)]) +
    [Rename(0, published)]
  }

  /** Nothing found without the lock: the call waits for it. */
  lemma WaitingFromStart(env: Env, key: Key, expected: Digest) returns (acts: seq<Action>, n: State)
    ensures ValidRun(env, Init(map[]), acts) && n == Run(env, Init(map[]), acts)
    ensures acts == [Spawn(0, key, expected)] + (if env.bundled then [Step(0), Step(0)] else [Step(0)])
    ensures n.tasks == map[0 := Task(key, expected, 1, Waiting)]
    ensures n.files == map[] && n.memo == map[] && n.locks == map[]
  {
    var s := Init(map[]);
    acts, n := [], s;
    assert ValidRun(env, s, []) && Run(env, s, []) == s;
    hide ValidRun, Run, Apply;
    acts, n := NextOther(env, s, acts, n, Spawn(0, key, expected));
    assert n.tasks == map[0 := Task(key, expected, 1, Stat(FirstCheck(env, false)))] && n.files == map[];
    if env.bundled { acts, n := NextStep(env, s, acts, n, n.tasks[0]); }
    acts, n := NextStep(env, s, acts, n, n.tasks[0]);
  }

  /** Nothing found under the lock either: the call downloads. */
  lemma FetchFromStart(env: Env, key: Key, expected: Digest) returns (acts: seq<Action>, n: State)
    ensures ValidRun(env, Init(map[]), acts) && n == Run(env, Init(map[]), acts)
    ensures acts == [Spawn(0, key, expected)] +
                    (if env.bundled then [Step(0), Step(0), Step(0), Step(0), Step(0)] else [Step(0), Step(0), Step(0)])
    ensures n.tasks == map[0 := Task(key, expected, 1, Fetch)] && n.memo == map[] && n.files == map[]
  {
    hide ValidRun, Run, Apply;
    var s := Init(map[]);
    acts, n := WaitingFromStart(env, key, expected);
    acts, n := NextStep(env, s, acts, n, n.tasks[0]);
    if env.bundled { acts, n := NextStep(env, s, acts, n, n.tasks[0]); }
    acts, n := NextStep(env, s, acts, n, n.tasks[0]);
  }

  lemma PublicationFromStart(env: Env, key: Key, expected: Digest, published: Identity)
    requires Fits(env, published) && HasDigest(env, published, expected)
    ensures var acts := ToPublication(env, key, expected, published);
            && ValidRun(env, Init(map[]), acts)
            && var n := Run(env, Init(map[]), acts);
               && n.tasks == map[0 := Task(key, expected, 1, Published)] && n.memo == map[]
               && n.files == map[Dest(key) := Regular(published)]
  {
    hide ValidRun, Run;
    var acts, n := FetchFromStart(env, key, expected);
    acts, n := Next(env, Init(map[]), acts, n, Rename(0, published));
    assert acts == ToPublication(env, key, expected, published);
  }

  /** The call's own download, and a writer that swaps in a wrong file before the second look. */
  function Poisoning(env: Env, key: Key, expected: Digest, published: Identity, wrong: Identity): seq<Action> {
    ToPublication(env, key, expected, published) + [Outside(Dest(key), Some(Regular(wrong))), Step(0), Step(0)]
  }

  lemma PoisonedFromStart(env: Env, key: Key, expected: Digest, published: Identity, wrong: Identity)
    requires Fits(env, published) && HasDigest(env, published, expected)
    ensures var acts := Poisoning(env, key, expected, published, wrong);
            && ValidRun(env, Init(map[]), acts)
            && var n := Run(env, Init(map[]), acts);
               && n.memo == map[Dest(key) := Verdict(wrong, expected)] && n.tasks.Keys == {0}
               && n.files == map[Dest(key) := Regular(wrong)]
  {
    hide ValidRun, Run, Apply;
    PublicationFromStart(env, key, expected, published);
    var s := Init(map[]);
    var k := Task(key, expected, 1, Published);
    var first := ToPublication(env, key, expected, published);
    var a := Outside(Dest(key), Some(Regular(wrong)));
    var acts, n := NextOther(env, s, first, Run(env, s, first), a);
    assert n.tasks == map[0 := k] && n.memo == map[] && n.files == map[Dest(key) := Regular(wrong)];
    acts, n := NextStep(env, s, acts, n, n.tasks[0]);
    assert n.tasks == map[0 := k.(pc := Record(wrong))] && n.memo == map[];
    acts, n := NextStep(env, s, acts, n, n.tasks[0]);
    assert n.memo == map[Dest(key) := Verdict(wrong, expected)];
    assert acts == Poisoning(env, key, expected, published, wrong);
  }

  /** A call for an archive that is in the destination and in the memo. */
  function MemoCall(env: Env, t: nat, key: Key, expected: Digest): seq<Action> {
    [Spawn(t, key, expected)] + (if env.bundled then [Step(t)] else []) + [Step(t), Step(t)]
  }

  /** A step of a call in a store that nothing else changes. */
  lemma MemoStep(env: Env, s: State, acts: seq<Action>, n: State, t: nat) returns (more: seq<Action>, n': State)
    requires ValidRun(env, s, acts) && Run(env, s, acts) == n && t in n.tasks
    requires n.tasks[t].pc.Stat? || n.tasks[t].pc.Look?
    ensures more == acts + [Step(t)] && ValidRun(env, s, more) && Run(env, s, more) == n'
    ensures n'.files == n.files && n'.memo == n.memo && n'.history == n.history + [n.files]
    ensures t in n'.tasks && n'.tasks[t] == n.tasks[t].(pc := StepPc(env, n, n.tasks[t]))
  {
    hide ValidRun, Run;
    more, n' := Next(env, s, acts, n, Step(t));
  }

  /** A wrong verdict in the memo is served: every later call answers Ok while the file stays,
      although the path leads to the wrong file at every instant of the call. */
  lemma PoisonIsServed(env: Env, s: State, t: nat, key: Key, expected: Digest, wrong: Identity)
    requires t !in s.tasks && Bundled(key) !in s.files && Dest(key) in s.files && s.files[Dest(key)] == Regular(wrong)
    requires Dest(key) in s.memo && s.memo[Dest(key)] == Verdict(wrong, expected)
    requires Fits(env, wrong) && !HasDigest(env, wrong, expected)
    ensures var acts := MemoCall(env, t, key, expected);
            && ValidRun(env, s, acts)
            && var n := Run(env, s, acts);
               && t in n.tasks && n.tasks[t].pc == Pc.Ok(Dest(key))
               && !ResolvedOnce(env, n.history, n.tasks[t], Dest(key))
  {
    assert ValidRun(env, s, []) && Run(env, s, []) == s;
    hide ValidRun, Run, Apply;
    var acts, n := NextOther(env, s, [], s, Spawn(t, key, expected));
    if env.bundled { acts, n := MemoStep(env, s, acts, n, t); }
    assert n.tasks[t] == Task(key, expected, |s.history|, Stat(FastDest));
    acts, n := MemoStep(env, s, acts, n, t);
    acts, n := MemoStep(env, s, acts, n, t);
    assert acts == MemoCall(env, t, key, expected);
    assert forall i :: |s.history| <= i < |n.history| ==> n.history[i] == s.files;
  }

  lemma {:induction false} RunOn(env: Env, s: State, acts: seq<Action>, more: seq<Action>)
    requires ValidRun(env, s, acts) && ValidRun(env, Run(env, s, acts), more)
    ensures ValidRun(env, s, acts + more) && Run(env, s, acts + more) == Run(env, Run(env, s, acts), more)
    decreases |acts|
  {
    hide Enabled, Apply;
    if acts == [] {
      assert [] + more == more;
    } else {
      assert (acts + more)[1..] == acts[1..] + more;
      RunOn(env, Apply(env, s, acts[0]), acts[1..], more);
    }
  }

  /** From the start: after the call's own download, a writer that swaps in a wrong file before
      the second look makes the store remember the wrong file as right, and if it is not too
      large the next call is answered Ok with it, although its path never led to a right one. */
  lemma PoisonFromStart(env: Env, key: Key, expected: Digest, published: Identity, wrong: Identity)
    requires Fits(env, published) && HasDigest(env, published, expected) && !HasDigest(env, wrong, expected)
    ensures var first := Poisoning(env, key, expected, published, wrong);
            var acts := first + MemoCall(env, 1, key, expected);
            && ValidRun(env, Init(map[]), first)
            && Run(env, Init(map[]), first).memo == map[Dest(key) := Verdict(wrong, expected)]
            && !MemoSound(env, Run(env, Init(map[]), first).memo)
            && (Fits(env, wrong) ==>
                  && ValidRun(env, Init(map[]), acts)
                  && var n := Run(env, Init(map[]), acts);
                     && 1 in n.tasks && n.tasks[1].pc == Pc.Ok(Dest(key))
                     && !ResolvedOnce(env, n.history, n.tasks[1], Dest(key)))
  {
    hide ValidRun, Run, ResolvedOnce;
    var first := Poisoning(env, key, expected, published, wrong);
    PoisonedFromStart(env, key, expected, published, wrong);
    var n := Run(env, Init(map[]), first);
    assert Dest(key) in n.memo;
    if Fits(env, wrong) {
      PoisonIsServed(env, n, 1, key, expected, wrong);
      RunOn(env, Init(map[]), first, MemoCall(env, 1, key, expected));
    }
  }

  // ---------------------------------------------------------------- each archive is published once

  /** The calls for `key` all expect `expected`, and nobody outside writes its destination. */
  predicate OneVersion(a: Action, key: Key, expected: Digest) {
    (a.Spawn? && a.key == key ==> a.expected == expected) && (a.Outside? ==> a.loc != Dest(key))
  }

  /** A task about to download, or about to find that it must. */
  predicate GoingToFetch(k: Task) {
    k.pc.Fetch? || (k.pc.Note? && k.pc.check.LockedDest? && !NoteMatches(k))
  }

  ghost predicate Once(env: Env, s: State, key: Key, expected: Digest) {
    && LocksExact(s)
    && (forall t :: t in s.tasks && s.tasks[t].key == key ==> s.tasks[t].expected == expected)
    && Renames(s, key) <= 1
    && (Renames(s, key) == 1 ==> Matches(env, s.files, Dest(key), expected))
    && (forall t :: t in s.tasks && s.tasks[t].key == key && GoingToFetch(s.tasks[t]) ==> Renames(s, key) == 0)
  }

  lemma OnceKept(env: Env, s: State, a: Action, key: Key, expected: Digest)
    requires Once(env, s, key, expected) && Enabled(env, s, a) && OneVersion(a, key, expected)
    ensures Once(env, Apply(env, s, a), key, expected)
  {
    hide MemoAfter, Hit;
    LocksKept(env, s, a);
    hide LocksAfter;
    var n := Apply(env, s, a);
    forall t | t in n.tasks && n.tasks[t].key == key && GoingToFetch(n.tasks[t])
      ensures Renames(n, key) == 0
    {
      if t in s.tasks && a.Rename? { assert Locked(s.tasks[t].pc); }
    }
  }

  lemma {:induction false} OnceAlways(env: Env, s: State, acts: seq<Action>, key: Key, expected: Digest)
    requires Once(env, s, key, expected) && ValidRun(env, s, acts)
    requires forall a :: a in acts ==> OneVersion(a, key, expected)
    ensures Once(env, Run(env, s, acts), key, expected)
    decreases |acts|
  {
    hide Enabled, Apply, Once, OneVersion;
    if acts != [] {
      assert acts[0] in acts && forall a :: a in acts[1..] ==> a in acts;
      OnceKept(env, s, acts[0], key, expected);
      OnceAlways(env, Apply(env, s, acts[0]), acts[1..], key, expected);
    }
  }

  /** For any number of concurrent calls on one key that expect one checksum, without outside
      writers, the destination is published at most once, whatever the interleaving, and
      from then on it holds a matching file. */
  lemma PublishedAtMostOnce(env: Env, files: Files, acts: seq<Action>, key: Key, expected: Digest)
    requires ValidRun(env, Init(files), acts) && forall a :: a in acts ==> OneVersion(a, key, expected)
    ensures var n := Run(env, Init(files), acts);
            Renames(n, key) <= 1 && (Renames(n, key) == 1 ==> Matches(env, n.files, Dest(key), expected))
  {
    hide ValidRun, Run, OneVersion, Matches;
    OnceAlways(env, Init(files), acts, key, expected);
  }
}
