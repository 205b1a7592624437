/**
 What becomes of the calls of the archive store, over whole runs: how they can fail, how long
 they take, and that a file that is there is served.
 */
module ArchiveCalls {
  import opened Common
  import opened ArchiveStore

  /** The actions that a call takes itself. */
  predicate OwnAction(a: Action, t: nat) {
    (a.Step? || a.Rename? || a.Fail?) && a.t == t
  }

  function OwnActions(acts: seq<Action>, t: nat): nat {
    if acts == [] then 0 else (if OwnAction(acts[0], t) then 1 else 0) + OwnActions(acts[1..], t)
  }

  lemma {:induction false} HistoryGrows(env: Env, s: State, acts: seq<Action>)
    requires ValidRun(env, s, acts)
    ensures s.history <= Run(env, s, acts).history
    decreases |acts|
  {
    hide Enabled, FilesAfter, TasksAfter, MemoAfter, LocksAfter, RenamesAfter;
    if acts != [] { HistoryGrows(env, Apply(env, s, acts[0]), acts[1..]); }
  }

  /** A call once begun is there for ever, with its key and checksum, and only its own actions
      move it. */
  lemma TaskStays(env: Env, s: State, a: Action, t: nat)
    requires Enabled(env, s, a) && t in s.tasks
    ensures var n := Apply(env, s, a);
            && t in n.tasks && n.tasks[t].key == s.tasks[t].key && n.tasks[t].expected == s.tasks[t].expected
            && (!OwnAction(a, t) ==> n.tasks[t] == s.tasks[t])
  {
    hide FilesAfter, MemoAfter, LocksAfter, RenamesAfter, PcAfter;
  }

  // ---------------------------------------------------------------- failing

  lemma ErrStep(env: Env, s: State, a: Action, t: nat)
    requires Enabled(env, s, a) && t in Apply(env, s, a).tasks && Apply(env, s, a).tasks[t].pc.Err?
    ensures a == Fail(t) || (t in s.tasks && s.tasks[t].pc.Err?)
  {
    hide FilesAfter, MemoAfter, LocksAfter, RenamesAfter, Usable, Hit, NoteMatches, Hashed;
  }

  lemma {:induction false} ErrComesFromFail(env: Env, s: State, acts: seq<Action>, t: nat)
    requires ValidRun(env, s, acts) && t in Run(env, s, acts).tasks && Run(env, s, acts).tasks[t].pc.Err?
    ensures Fail(t) in acts || (t in s.tasks && s.tasks[t].pc.Err?)
    decreases |acts|
  {
    hide Enabled, Apply;
    if acts != [] {
      var n := Apply(env, s, acts[0]);
      ErrComesFromFail(env, n, acts[1..], t);
      if Fail(t) in acts[1..] {
        assert Fail(t) in acts;
      } else {
        ErrStep(env, s, acts[0], t);
      }
    }
  }

  /** A call ends in an error only if one of its operations failed: no answer of a check, and
      nothing that others do, ends it so. */
  lemma ErrOnlyByFail(env: Env, files: Files, acts: seq<Action>, t: nat)
    requires ValidRun(env, Init(files), acts)
    requires t in Run(env, Init(files), acts).tasks && Run(env, Init(files), acts).tasks[t].pc.Err?
    ensures Fail(t) in acts
  {
    ErrComesFromFail(env, Init(files), acts, t);
  }

  // ---------------------------------------------------------------- ending

  /** Own actions left to a call at most. */
  function Left(pc: Pc): nat {
    match pc
    case Stat(c) => 4 + After(c)
    case Look(c, _) => 3 + After(c)
    case Hash(c) => 2 + After(c)
    case Note(c, _) => 1 + After(c)
    case Waiting => 12
    case Fetch => 3
    case Published => 2
    case Record(_) => 1
    case Ok(_) => 0
    case Err => 0
  }

  /** What is left once a check has answered no. */
  function After(c: Check): nat {
    match c
    case FastBundled => 16
    case FastDest => 12
    case LockedBundled => 7
    case LockedDest => 3
  }

  lemma OwnActionUses(env: Env, s: State, a: Action, t: nat)
    requires Enabled(env, s, a) && t in s.tasks && OwnAction(a, t)
    ensures Left(Apply(env, s, a).tasks[t].pc) < Left(s.tasks[t].pc)
  {
    hide FilesAfter, MemoAfter, LocksAfter, RenamesAfter, Usable, Hit, NoteMatches, Hashed;
  }

  lemma {:induction false} ActionsUseUp(env: Env, s: State, acts: seq<Action>, t: nat)
    requires ValidRun(env, s, acts) && t in Run(env, s, acts).tasks
    ensures t in s.tasks ==> OwnActions(acts, t) + Left(Run(env, s, acts).tasks[t].pc) <= Left(s.tasks[t].pc)
    ensures t !in s.tasks ==> OwnActions(acts, t) + Left(Run(env, s, acts).tasks[t].pc) <= 20
    decreases |acts|
  {
    hide Apply, Left;
    if acts != [] {
      var a, n := acts[0], Apply(env, s, acts[0]);
      ActionsUseUp(env, n, acts[1..], t);
      if t in s.tasks {
        TaskStays(env, s, a, t);
        if OwnAction(a, t) { OwnActionUses(env, s, a, t); }
      } else {
        assert !OwnAction(a, t);
        if t in n.tasks { Spawned(env, s, a, t); }
      }
    }
  }

  lemma Spawned(env: Env, s: State, a: Action, t: nat)
    requires Enabled(env, s, a) && t !in s.tasks && t in Apply(env, s, a).tasks
    ensures Left(Apply(env, s, a).tasks[t].pc) <= 20
    ensures a.Spawn? && a.t == t && Apply(env, s, a).tasks[t].key == a.key
    ensures Apply(env, s, a).tasks[t].expected == a.expected && !Apply(env, s, a).tasks[t].pc.Err?
  {
  }

  /** Every call is over after at most twenty actions of its own. */
  lemma EveryCallEnds(env: Env, files: Files, acts: seq<Action>, t: nat)
    requires ValidRun(env, Init(files), acts) && t in Run(env, Init(files), acts).tasks
    ensures OwnActions(acts, t) <= 20
    ensures OwnActions(acts, t) == 20 ==>
              Run(env, Init(files), acts).tasks[t].pc.Ok? || Run(env, Init(files), acts).tasks[t].pc.Err?
  {
    hide Run, ValidRun;
    ActionsUseUp(env, Init(files), acts, t);
  }

  /** An answer names one of the two places of the call's own archive. */
  ghost predicate OwnPlaces(env: Env, s: State) {
    forall t :: t in s.tasks ==> OwnPlace(env, s.tasks[t])
  }

  predicate OwnPlace(env: Env, k: Task) {
    match k.pc
    case Ok(loc) => loc == Dest(k.key) || (env.bundled && loc == Bundled(k.key))
    case Stat(c) => env.bundled || c.FastDest? || c.LockedDest?
    case Look(c, _) => env.bundled || c.FastDest? || c.LockedDest?
    case Hash(c) => env.bundled || c.FastDest? || c.LockedDest?
    case Note(c, _) => env.bundled || c.FastDest? || c.LockedDest?
    case _ => true
  }

  lemma OwnPlacesKept(env: Env, s: State, a: Action)
    requires OwnPlaces(env, s) && Enabled(env, s, a)
    ensures OwnPlaces(env, Apply(env, s, a))
  {
    hide FilesAfter, MemoAfter, LocksAfter, RenamesAfter, Usable, Hit, NoteMatches, Hashed;
  }

  lemma {:induction false} OwnPlacesAlways(env: Env, s: State, acts: seq<Action>)
    requires OwnPlaces(env, s) && ValidRun(env, s, acts)
    ensures OwnPlaces(env, Run(env, s, acts))
    decreases |acts|
  {
    hide Enabled, Apply, OwnPlaces;
    if acts != [] {
      OwnPlacesKept(env, s, acts[0]);
      OwnPlacesAlways(env, Apply(env, s, acts[0]), acts[1..]);
    }
  }

  // ---------------------------------------------------------------- what is there is served

  /** From an instant on, the path is this file. */
  ghost predicate Standing(h: seq<Files>, from: int, loc: Loc, file: File) {
    forall i :: 0 <= from <= i < |h| ==> loc in h[i] && h[i][loc] == file
  }

  /** A call on its way to answer with the file at `loc`, which has identity `id`. */
  predicate OnTheWay(k: Task, loc: Loc, id: Identity) {
    match k.pc
    case Stat(c) => Place(c, k.key) == loc
    case Look(c, seen) => Place(c, k.key) == loc && seen == id
    case Hash(c) => Place(c, k.key) == loc
    case Note(c, hashed) => Place(c, k.key) == loc && hashed == Some(Verdict(id, k.expected))
    case Ok(l) => l == loc
    case _ => false
  }

  /** Steps to that answer at most. */
  function Near(pc: Pc): nat {
    match pc
    case Stat(_) => 4
    case Look(_, _) => 3
    case Hash(_) => 2
    case Note(_, _) => 1
    case _ => 0
  }

  lemma StaysOnTheWay(env: Env, s: State, a: Action, t: nat, loc: Loc, id: Identity)
    requires Enabled(env, s, a) && t in s.tasks && OnTheWay(s.tasks[t], loc, id) && a != Fail(t)
    requires loc in s.files && s.files[loc] == Regular(id) && Matches(env, s.files, loc, s.tasks[t].expected)
    ensures var n := Apply(env, s, a);
            && t in n.tasks && OnTheWay(n.tasks[t], loc, id) && n.tasks[t].expected == s.tasks[t].expected
            && Near(n.tasks[t].pc) + (if a == Step(t) then 1 else 0) <= Near(s.tasks[t].pc)
  {
    TaskStays(env, s, a, t);
    hide FilesAfter, MemoAfter, LocksAfter, RenamesAfter, Hit;
  }

  lemma {:induction false} ReachesAnswer(env: Env, s: State, acts: seq<Action>, t: nat, loc: Loc, id: Identity)
    requires t in s.tasks && OnTheWay(s.tasks[t], loc, id) && s.history != []
    requires Fits(env, id) && HasDigest(env, id, s.tasks[t].expected)
    requires ValidRun(env, s, acts) && Fail(t) !in acts && s.files == s.history[|s.history| - 1]
    requires Standing(Run(env, s, acts).history, |s.history| - 1, loc, Regular(id))
    ensures var n := Run(env, s, acts);
            && t in n.tasks && OnTheWay(n.tasks[t], loc, id)
            && OwnActions(acts, t) + Near(n.tasks[t].pc) <= Near(s.tasks[t].pc)
    decreases |acts|
  {
    HistoryGrows(env, s, acts);
    var h := Run(env, s, acts).history;
    assert h[|s.history| - 1] == s.files;
    if acts != [] {
      var a, n := acts[0], Apply(env, s, acts[0]);
      assert acts[0] in acts && forall x :: x in acts[1..] ==> x in acts;
      StaysOnTheWay(env, s, a, t, loc, id);
      assert OwnAction(a, t) ==> a == Step(t);
      hide Apply, Enabled, OnTheWay, HasDigest, Fits, Near;
      ReachesAnswer(env, n, acts[1..], t, loc, id);
    }
  }

  /** A check of a path that is a matching file answers yes, with the memo or without, with the
      lock or without, whatever others do: while the path stays that file and no operation of
      the call fails, the call can always go on, and after four of its steps has answered Ok
      with that path. */
  lemma FoundIsServed(env: Env, s: State, acts: seq<Action>, t: nat)
    requires t in s.tasks && s.tasks[t].pc.Stat? && s.history != [] && s.files == s.history[|s.history| - 1]
    requires var k := s.tasks[t]; Matches(env, s.files, Place(k.pc.check, k.key), k.expected)
    requires ValidRun(env, s, acts) && Fail(t) !in acts
    requires var loc := Place(s.tasks[t].pc.check, s.tasks[t].key);
             Standing(Run(env, s, acts).history, |s.history| - 1, loc, s.files[loc])
    ensures var n := Run(env, s, acts);
            && t in n.tasks
            && (n.tasks[t].pc == Pc.Ok(Place(s.tasks[t].pc.check, s.tasks[t].key)) || Enabled(env, n, Step(t)))
            && (OwnActions(acts, t) >= 4 ==> n.tasks[t].pc == Pc.Ok(Place(s.tasks[t].pc.check, s.tasks[t].key)))
  {
    var loc := Place(s.tasks[t].pc.check, s.tasks[t].key);
    hide Run, ValidRun, Standing;
    ReachesAnswer(env, s, acts, t, loc, s.files[loc].id);
  }

  /** Every reachable state has its files as the last instant of its history. */
  lemma {:induction false} LastIsNow(env: Env, s: State, acts: seq<Action>)
    requires s.history != [] && s.files == s.history[|s.history| - 1] && ValidRun(env, s, acts)
    ensures var n := Run(env, s, acts); n.history != [] && n.files == n.history[|n.history| - 1]
    decreases |acts|
  {
    hide Enabled, TasksAfter, MemoAfter, LocksAfter, RenamesAfter, FilesAfter;
    if acts != [] { LastIsNow(env, Apply(env, s, acts[0]), acts[1..]); }
  }

  /** So it is in every run from the start. */
  lemma FoundIsServedFromStart(env: Env, files: Files, acts: seq<Action>, more: seq<Action>, t: nat)
    requires ValidRun(env, Init(files), acts)
    requires var s := Run(env, Init(files), acts);
             && t in s.tasks && s.tasks[t].pc.Stat? && ValidRun(env, s, more) && Fail(t) !in more
             && var loc := Place(s.tasks[t].pc.check, s.tasks[t].key);
                && Matches(env, s.files, loc, s.tasks[t].expected)
                && Standing(Run(env, s, more).history, |s.history| - 1, loc, s.files[loc])
    requires OwnActions(more, t) >= 4
    ensures var s := Run(env, Init(files), acts);
            var n := Run(env, s, more);
            t in n.tasks && n.tasks[t].pc == Pc.Ok(Place(s.tasks[t].pc.check, s.tasks[t].key))
  {
    hide Run, ValidRun, Standing, Matches;
    LastIsNow(env, Init(files), acts);
    FoundIsServed(env, Run(env, Init(files), acts), more, t);
  }

  // ---------------------------------------------------------------- waiting behind a publisher

  lemma StaysPublished(env: Env, s: State, a: Action, key: Key)
    requires Enabled(env, s, a)
    ensures Renames(s, key) <= Renames(Apply(env, s, a), key)
  {
    hide FilesAfter, MemoAfter, LocksAfter, TasksAfter;
  }

  lemma {:induction false} PublishedForEver(env: Env, s: State, acts: seq<Action>, key: Key)
    requires ValidRun(env, s, acts)
    ensures Renames(s, key) <= Renames(Run(env, s, acts), key)
    decreases |acts|
  {
    hide Enabled, Apply, Renames;
    if acts != [] {
      StaysPublished(env, s, acts[0], key);
      PublishedForEver(env, Apply(env, s, acts[0]), acts[1..], key);
    }
  }

  /** A call waiting behind a publisher, or beginning after it, is answered Ok: once the key has
      been published, with one checksum and no outside writer at its destination, no call for
      it downloads again or fails, short of an operation of its own that fails, and every one
      that has taken twenty actions since has answered Ok with a place of the archive. */
  lemma WaitersAnswerOk(env: Env, files: Files, acts: seq<Action>, more: seq<Action>,
                        key: Key, expected: Digest, t: nat)
    requires ValidRun(env, Init(files), acts) && forall a :: a in acts ==> OneVersion(a, key, expected)
    requires var s := Run(env, Init(files), acts);
             && Renames(s, key) == 1 && ValidRun(env, s, more) && (t in s.tasks ==> !s.tasks[t].pc.Err?)
             && t in Run(env, s, more).tasks && Run(env, s, more).tasks[t].key == key
    requires Fail(t) !in more && forall a :: a in more ==> OneVersion(a, key, expected)
    ensures var k := Run(env, Run(env, Init(files), acts), more).tasks[t];
            && !k.pc.Fetch? && !k.pc.Err?
            && (OwnActions(more, t) >= 20 ==> k.pc.Ok?)
            && (k.pc.Ok? ==> k.pc.loc == Dest(key) || (env.bundled && k.pc.loc == Bundled(key)))
  {
    var s := Run(env, Init(files), acts);
    var n := Run(env, s, more);
    OnceAlways(env, Init(files), acts, key, expected);
    OnceAlways(env, s, more, key, expected);
    PublishedForEver(env, s, more, key);
    OwnPlacesAlways(env, Init(files), acts);
    OwnPlacesAlways(env, s, more);
    ActionsUseUp(env, s, more, t);
    hide Run, ValidRun, LocksExact, Matches, OneVersion;
    assert OwnPlace(env, n.tasks[t]) && Left(n.tasks[t].pc) >= 0;
    if n.tasks[t].pc.Err? { ErrComesFromFail(env, s, more, t); }
    if OwnActions(more, t) >= 20 { LeftIsMost(if t in s.tasks then s.tasks[t].pc else Pc.Err); }
  }

  lemma LeftIsMost(pc: Pc)
    ensures Left(pc) <= 20
  {
  }

  // ---------------------------------------------------------------- what the memo keeps

  /** A note of the memo: the place of a check that has hashed, or of a publication. */
  predicate Notes(k: Task, loc: Loc) {
    (k.pc.Note? && Place(k.pc.check, k.key) == loc) || (k.pc.Record? && Dest(k.key) == loc)
  }

  /** What a call notes is remembered: a matching hash, or a publication, with its identity; a
      mismatch forgets the place. */
  lemma MemoNotes(env: Env, s: State, t: nat, loc: Loc)
    requires Enabled(env, s, Step(t)) && Notes(s.tasks[t], loc)
    ensures var n, k := Apply(env, s, Step(t)), s.tasks[t];
            if k.pc.Record? then loc in n.memo && n.memo[loc] == Verdict(k.pc.id, k.expected)
            else if k.pc.hashed.Some? && k.pc.hashed.value.digest == k.expected then
              loc in n.memo && n.memo[loc] == Verdict(k.pc.hashed.value.id, k.expected)
            else loc !in n.memo
  {
    hide FilesAfter, LocksAfter, TasksAfter, RenamesAfter;
  }

  /** What is remembered of any other place stays as it is, unless a new place finds the memo
      full: then all of it is forgotten. */
  lemma MemoElsewhere(env: Env, s: State, a: Action, loc: Loc)
    requires Enabled(env, s, a) && !(a.Step? && Notes(s.tasks[a.t], loc))
    ensures var n := Apply(env, s, a);
            if loc !in s.memo then loc !in n.memo
            else if loc in n.memo then n.memo[loc] == s.memo[loc]
            else
              && |s.memo| >= 16384 && a.Step? && n.memo.Keys == {NotedPlace(s.tasks[a.t])}
              && Notes(s.tasks[a.t], NotedPlace(s.tasks[a.t])) && NotedPlace(s.tasks[a.t]) !in s.memo
  {
    hide FilesAfter, LocksAfter, TasksAfter, RenamesAfter;
  }

  function NotedPlace(k: Task): Loc {
    if k.pc.Note? then Place(k.pc.check, k.key) else Dest(k.key)
  }
}
