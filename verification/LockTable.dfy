/**
 The per-key lock table: a map from a key to a reference-counted mutex whose last
 handle removes the entry again.  The table is modelled as an interleaved step
 machine over any number of handles; one handle is one managed lock value.

 Dropping a handle takes two steps, as the destructor runs the removal check under
 the table lock and only afterwards gives up its own reference to the mutex.
 */
module LockTable {

  /** The keys of a table: provider, version or archive keys. */
  type Key(==, !new)

  /** `Released`: the guard is gone (or was never obtained) and the handle is about to drop.
      `Checked`: the removal check has run, the handle still owns its reference. */
  datatype Phase = Waiting | Critical | Released | Checked

  datatype Handle = Handle(key: Key, mutex: nat, phase: Phase)

  datatype Holder = Free | HeldBy(h: nat)

  /** One allocated mutex.  `forKey` (the key it was made for) and the name of the holder
      are bookkeeping the program does not store; no step looks at them except to tell
      whether the mutex is free. */
  datatype Mutex = Mutex(forKey: Key, strong: nat, holder: Holder)

  datatype State = State(
    table: map<Key, nat>,       // key -> mutex
    mutexes: map<nat, Mutex>,   // every mutex ever allocated
    handles: map<nat, Handle>   // live handles
  )

  datatype Action =
    | LockFor(h: nat, key: Key, name: nat)
    | Acquire(h: nat)
    | Unlock(h: nat)
    | Cancel(h: nat)
    | DropCheck(h: nat)
    | DropField(h: nat)

  function Init(): State {
    State(map[], map[], map[])
  }

  predicate InPhase(s: State, h: nat, p: Phase) {
    h in s.handles && s.handles[h].phase == p && s.handles[h].mutex in s.mutexes
  }

  function MutexOf(s: State, h: nat): Mutex
    requires h in s.handles && s.handles[h].mutex in s.mutexes
  {
    s.mutexes[s.handles[h].mutex]
  }

  predicate Enabled(s: State, a: Action) {
    match a
    case LockFor(h, key, name) =>
      h !in s.handles && if key in s.table then s.table[key] in s.mutexes else name !in s.mutexes
    case Acquire(h) => InPhase(s, h, Waiting) && MutexOf(s, h).holder == Free
    case Unlock(h) => InPhase(s, h, Critical)
    case Cancel(h) => InPhase(s, h, Waiting)
    case DropCheck(h) => InPhase(s, h, Released)
    case DropField(h) => InPhase(s, h, Checked)
  }

  /** The removal condition of the destructor: two references left, and the table's
      entry is this handle's own mutex. */
  predicate Removes(s: State, h: nat)
    requires h in s.handles && s.handles[h].mutex in s.mutexes
  {
    var hd := s.handles[h];
    MutexOf(s, h).strong == 2 && hd.key in s.table && s.table[hd.key] == hd.mutex
  }

  function SetPhase(s: State, h: nat, p: Phase): State
    requires h in s.handles
  {
    s.(handles := s.handles[h := s.handles[h].(phase := p)])
  }

  function SetHolder(s: State, m: nat, holder: Holder): State
    requires m in s.mutexes
  {
    s.(mutexes := s.mutexes[m := s.mutexes[m].(holder := holder)])
  }

  /** Gives up one reference to `m`. */
  function Release(s: State, m: nat): State
    requires m in s.mutexes
  {
    var x := s.mutexes[m];
    s.(mutexes := s.mutexes[m := x.(strong := if x.strong == 0 then 0 else x.strong - 1)])
  }

  function Apply(s: State, a: Action): State
    requires Enabled(s, a)
  {
    match a
    case LockFor(h, key, name) =>
      if key in s.table then
        var m := s.table[key];
        var x := s.mutexes[m];
        s.(handles := s.handles[h := Handle(key, m, Waiting)],
           mutexes := s.mutexes[m := x.(strong := x.strong + 1)])
      else
        State(s.table[key := name], s.mutexes[name := Mutex(key, 2, Free)],
              s.handles[h := Handle(key, name, Waiting)])
    case Acquire(h) => SetHolder(SetPhase(s, h, Critical), s.handles[h].mutex, HeldBy(h))
    case Unlock(h) => SetHolder(SetPhase(s, h, Released), s.handles[h].mutex, Free)
    case Cancel(h) => SetPhase(s, h, Released)
    case DropCheck(h) =>
      var t := SetPhase(s, h, Checked);
      if Removes(s, h) then
        Release(t.(table := s.table - {s.handles[h].key}), s.handles[h].mutex)
      else
        t
    case DropField(h) =>
      Release(s.(handles := s.handles - {h}), s.handles[h].mutex)
  }

  // ---------------------------------------------------------------- runs

  predicate ValidRun(s: State, acts: seq<Action>)
    decreases |acts|
  {
    acts == [] || (Enabled(s, acts[0]) && ValidRun(Apply(s, acts[0]), acts[1..]))
  }

  function Run(s: State, acts: seq<Action>): State
    requires ValidRun(s, acts)
    decreases |acts|
  {
    if acts == [] then s else Run(Apply(s, acts[0]), acts[1..])
  }

  // ---------------------------------------------------------------- invariant

  function Owners(s: State, m: nat): set<nat> {
    set h | h in s.handles && s.handles[h].mutex == m
  }

  predicate InTable(s: State, m: nat)
    requires m in s.mutexes
  {
    var k := s.mutexes[m].forKey;
    k in s.table && s.table[k] == m
  }

  /** A mutex serves one key only. */
  ghost predicate OneKeyPerMutex(s: State) {
    && (forall k :: k in s.table ==> s.table[k] in s.mutexes && s.mutexes[s.table[k]].forKey == k)
    && (forall h :: h in s.handles ==> s.handles[h].mutex in s.mutexes && MutexOf(s, h).forKey == s.handles[h].key)
  }

  predicate CountExact(s: State, m: nat)
    requires m in s.mutexes
  {
    s.mutexes[m].strong == |Owners(s, m)| + if InTable(s, m) then 1 else 0
  }

  /** Reference counts are the number of live references. */
  ghost predicate CountsExact(s: State) {
    forall m :: m in s.mutexes ==> CountExact(s, m)
  }

  /** A handle that has not run its removal check holds the table's own mutex. */
  ghost predicate HoldsTableMutex(s: State) {
    forall h :: h in s.handles && s.handles[h].phase != Checked ==>
                  s.handles[h].key in s.table && s.table[s.handles[h].key] == s.handles[h].mutex
  }

  /** A mutex is held by a handle exactly while that handle is in its critical section. */
  ghost predicate LockedExact(s: State) {
    && (forall h :: InPhase(s, h, Critical) ==> MutexOf(s, h).holder == HeldBy(h))
    && (forall m :: m in s.mutexes && s.mutexes[m].holder.HeldBy? ==>
          InPhase(s, s.mutexes[m].holder.h, Critical) && s.handles[s.mutexes[m].holder.h].mutex == m)
  }

  ghost predicate Inv(s: State) {
    OneKeyPerMutex(s) && CountsExact(s) && HoldsTableMutex(s) && LockedExact(s)
  }

  lemma SoleOwner(s: State, h: nat, g: nat)
    requires OneKeyPerMutex(s) && CountsExact(s) && h in s.handles && Removes(s, h)
    requires g in s.handles && s.handles[g].mutex == s.handles[h].mutex
    ensures g == h
  {
    var m := s.handles[h].mutex;
    assert CountExact(s, m) && InTable(s, m);
    var rest := Owners(s, m) - {h};
    assert h in Owners(s, m) && |rest| == 0;
    assert g !in rest;
  }

  lemma CountReused(s: State, a: Action, m: nat)
    requires OneKeyPerMutex(s) && a.LockFor? && Enabled(s, a) && a.key in s.table
    requires m in s.mutexes && CountExact(s, m)
    ensures CountExact(Apply(s, a), m)
  {
    var t := Apply(s, a);
    assert a.h !in Owners(s, m);
    if m == s.table[a.key] {
      assert Owners(t, m) == Owners(s, m) + {a.h};
    } else {
      assert Owners(t, m) == Owners(s, m);
    }
  }

  lemma CountFresh(s: State, a: Action, m: nat)
    requires OneKeyPerMutex(s) && a.LockFor? && Enabled(s, a) && a.key !in s.table
    requires m in s.mutexes ==> CountExact(s, m)
    requires m in Apply(s, a).mutexes
    ensures CountExact(Apply(s, a), m)
  {
    var t := Apply(s, a);
    if m == a.name {
      assert Owners(t, m) == {a.h};
    } else {
      assert Owners(t, m) == Owners(s, m);
    }
  }

  /** Only a new handle or a dropped one changes who owns a mutex. */
  lemma OwnersKept(s: State, a: Action, m: nat)
    requires !a.LockFor? && Enabled(s, a)
    ensures Owners(Apply(s, a), m) == if a.DropField? then Owners(s, m) - {a.h} else Owners(s, m)
  {
    var o := Owners(Apply(s, a), m);
    forall g ensures g in o <==> g in Owners(s, m) && !(a.DropField? && g == a.h) {
    }
  }

  lemma CountKept(s: State, a: Action, m: nat)
    requires OneKeyPerMutex(s) && !a.LockFor? && Enabled(s, a)
    requires m in s.mutexes && CountExact(s, m)
    ensures CountExact(Apply(s, a), m)
  {
    OwnersKept(s, a, m);
    assert a.DropField? && s.handles[a.h].mutex == m ==> a.h in Owners(s, m);
    hide Owners;
  }

  lemma OneKeyKept(s: State, a: Action)
    requires OneKeyPerMutex(s) && Enabled(s, a)
    ensures OneKeyPerMutex(Apply(s, a))
  {
  }

  lemma HoldsKept(s: State, a: Action)
    requires OneKeyPerMutex(s) && CountsExact(s) && HoldsTableMutex(s) && Enabled(s, a)
    ensures HoldsTableMutex(Apply(s, a))
  {
    var t := Apply(s, a);
    forall g | g in t.handles && t.handles[g].phase != Checked
      ensures t.handles[g].key in t.table && t.table[t.handles[g].key] == t.handles[g].mutex
    {
      if a.DropCheck? && Removes(s, a.h) && s.handles[g].key == s.handles[a.h].key {
        SoleOwner(s, a.h, g);
      }
    }
  }

  lemma LockedKept(s: State, a: Action)
    requires OneKeyPerMutex(s) && LockedExact(s) && Enabled(s, a)
    ensures LockedExact(Apply(s, a))
  {
  }

  lemma InvKept(s: State, a: Action)
    requires Inv(s) && Enabled(s, a)
    ensures Inv(Apply(s, a))
  {
    OneKeyKept(s, a);
    HoldsKept(s, a);
    LockedKept(s, a);
    forall m | m in Apply(s, a).mutexes ensures CountExact(Apply(s, a), m) {
      if !a.LockFor? {
        CountKept(s, a, m);
      } else if a.key in s.table {
        CountReused(s, a, m);
      } else {
        CountFresh(s, a, m);
      }
    }
  }

  lemma {:induction false} InvAlways(s: State, acts: seq<Action>)
    requires Inv(s) && ValidRun(s, acts)
    ensures Inv(Run(s, acts))
    decreases |acts|
  {
    if acts != [] {
      InvKept(s, acts[0]);
      InvAlways(Apply(s, acts[0]), acts[1..]);
    }
  }

  // ---------------------------------------------------------------- main results

  /** In every interleaving at most one handle per key is in its critical section,
      a key whose lock is free can be taken by any of its waiters, and the identity
      comparison of the destructor never decides anything. */
  lemma MutualExclusion(acts: seq<Action>, g: nat, h: nat)
    requires ValidRun(Init(), acts)
    ensures var s := Run(Init(), acts);
            && (InPhase(s, g, Critical) && InPhase(s, h, Critical) && s.handles[g].key == s.handles[h].key ==> g == h)
            && (InPhase(s, h, Waiting) ==>
                  (Enabled(s, Acquire(h)) <==>
                   forall o :: InPhase(s, o, Critical) ==> s.handles[o].key != s.handles[h].key))
            && (InPhase(s, h, Released) ==> (Removes(s, h) <==> MutexOf(s, h).strong == 2))
  {
    InvAlways(Init(), acts);
  }

  /** The specification: a plain mutex per key, with neither a table nor counts. */
  datatype Plain = Plain(key: Key, phase: Phase)
  type PlainState = map<nat, Plain>

  predicate PlainPhase(p: PlainState, h: nat, ph: Phase) {
    h in p && p[h].phase == ph
  }

  ghost predicate PlainEnabled(p: PlainState, a: Action) {
    match a
    case LockFor(h, _, _) => h !in p
    case Acquire(h) => PlainPhase(p, h, Waiting) && forall o :: PlainPhase(p, o, Critical) ==> p[o].key != p[h].key
    case Unlock(h) => PlainPhase(p, h, Critical)
    case Cancel(h) => PlainPhase(p, h, Waiting)
    case DropCheck(h) => PlainPhase(p, h, Released)
    case DropField(h) => PlainPhase(p, h, Checked)
  }

  ghost function PlainApply(p: PlainState, a: Action): PlainState
    requires PlainEnabled(p, a)
  {
    match a
    case LockFor(h, key, _) => p[h := Plain(key, Waiting)]
    case Acquire(h) => p[h := p[h].(phase := Critical)]
    case Unlock(h) => p[h := p[h].(phase := Released)]
    case Cancel(h) => p[h := p[h].(phase := Released)]
    case DropCheck(h) => p[h := p[h].(phase := Checked)]
    case DropField(h) => p - {h}
  }

  ghost predicate PlainValid(p: PlainState, acts: seq<Action>)
    decreases |acts|
  {
    acts == [] || (PlainEnabled(p, acts[0]) && PlainValid(PlainApply(p, acts[0]), acts[1..]))
  }

  ghost function PlainRun(p: PlainState, acts: seq<Action>): PlainState
    requires PlainValid(p, acts)
    decreases |acts|
  {
    if acts == [] then p else PlainRun(PlainApply(p, acts[0]), acts[1..])
  }

  function Abs(s: State): PlainState {
    map h | h in s.handles :: Plain(s.handles[h].key, s.handles[h].phase)
  }

  /** Mutex names are allocated fresh, which is all the allocator promises. */
  predicate FreshNames(s: State, a: Action) {
    a.LockFor? ==> a.name !in s.mutexes
  }

  ghost predicate FreshRun(s: State, acts: seq<Action>)
    decreases |acts|
  {
    acts == [] || (FreshNames(s, acts[0]) &&
                   (Enabled(s, acts[0]) ==> FreshRun(Apply(s, acts[0]), acts[1..])))
  }

  lemma EnabledAgrees(s: State, a: Action)
    requires Inv(s) && FreshNames(s, a)
    ensures Enabled(s, a) <==> PlainEnabled(Abs(s), a)
  {
    assert forall o, ph :: PlainPhase(Abs(s), o, ph) <==> InPhase(s, o, ph);
    if a.Acquire? && InPhase(s, a.h, Waiting) && MutexOf(s, a.h).holder.HeldBy? {
      assert PlainPhase(Abs(s), MutexOf(s, a.h).holder.h, Critical);
    }
  }

  lemma ApplyAgrees(s: State, a: Action)
    requires OneKeyPerMutex(s) && Enabled(s, a) && PlainEnabled(Abs(s), a)
    ensures Abs(Apply(s, a)) == PlainApply(Abs(s), a)
  {
  }

  /** The reference-counted, self-cleaning table has exactly the behaviours of one
      permanent mutex per key: the same runs, leading to the same phases. */
  lemma {:induction false} RefinesPlainMutex(s: State, acts: seq<Action>)
    requires Inv(s) && FreshRun(s, acts)
    ensures ValidRun(s, acts) <==> PlainValid(Abs(s), acts)
    ensures ValidRun(s, acts) ==> Abs(Run(s, acts)) == PlainRun(Abs(s), acts)
    decreases |acts|
  {
    if acts != [] {
      EnabledAgrees(s, acts[0]);
      if Enabled(s, acts[0]) {
        ApplyAgrees(s, acts[0]);
        InvKept(s, acts[0]);
        RefinesPlainMutex(Apply(s, acts[0]), acts[1..]);
      }
    }
  }

  // ---------------------------------------------------------------- footprint

  predicate Unchecked(s: State, h: nat, k: Key) {
    h in s.handles && s.handles[h].phase != Checked && s.handles[h].key == k
  }

  /** The entry of `k` is left without a handle that will still check it for removal. */
  ghost predicate Leaked(s: State, k: Key) {
    k in s.table && forall h :: !Unchecked(s, h, k)
  }

  /** The removal check of `h` runs while another drop of the same mutex is half done. */
  ghost predicate Overlaps(s: State, h: nat) {
    h in s.handles && exists g :: g != h && InPhase(s, g, Checked) && s.handles[g].mutex == s.handles[h].mutex
  }

  ghost predicate LastUnchecked(s: State, h: nat) {
    h in s.handles && forall g :: g != h ==> !Unchecked(s, g, s.handles[h].key)
  }

  lemma LastDropRemoves(s: State, h: nat)
    requires Inv(s) && InPhase(s, h, Released) && LastUnchecked(s, h)
    ensures Removes(s, h) <==> !Overlaps(s, h)
  {
    var m := s.handles[h].mutex;
    assert CountExact(s, m);
    assert h in Owners(s, m);
    if Overlaps(s, h) {
      var g :| g != h && InPhase(s, g, Checked) && s.handles[g].mutex == m;
      if Removes(s, h) { SoleOwner(s, h, g); }
    } else {
      forall o | o in Owners(s, m) ensures o == h {
        assert o != h ==> InPhase(s, o, Checked) || Unchecked(s, o, s.handles[h].key);
      }
      assert Owners(s, m) == {h};
    }
  }

  /** Exactly when a step abandons an entry: the last unchecked handle of the key runs
      its removal check while another drop of the same mutex is half done. */
  lemma LeakExactly(s: State, a: Action, k: Key)
    requires Inv(s) && Enabled(s, a) && !Leaked(s, k)
    ensures Leaked(Apply(s, a), k) <==>
            a.DropCheck? && s.handles[a.h].key == k && LastUnchecked(s, a.h) && Overlaps(s, a.h)
  {
    var t := Apply(s, a);
    if a.LockFor? && a.key == k {
      assert Unchecked(t, a.h, k);
    } else if k in s.table {
      if a.DropCheck? && s.handles[a.h].key == k {
        assert forall g :: g != a.h ==> (Unchecked(t, g, k) <==> Unchecked(s, g, k));
        if LastUnchecked(s, a.h) { LastDropRemoves(s, a.h); }
      } else {
        var h :| Unchecked(s, h, k);
        assert Unchecked(t, h, k);
      }
    }
  }

  ghost predicate OverlapFree(s: State, acts: seq<Action>)
    requires ValidRun(s, acts)
    decreases |acts|
  {
    acts == [] || ((acts[0].DropCheck? ==> !Overlaps(s, acts[0].h)) && OverlapFree(Apply(s, acts[0]), acts[1..]))
  }

  /** Without overlapping drops the table holds exactly the keys in use. */
  lemma {:induction false} NoLeakWithoutOverlap(s: State, acts: seq<Action>, k: Key)
    requires Inv(s) && ValidRun(s, acts) && OverlapFree(s, acts) && !Leaked(s, k)
    ensures k in Run(s, acts).table <==> exists h :: Unchecked(Run(s, acts), h, k)
    decreases |acts|
  {
    if acts != [] {
      LeakExactly(s, acts[0], k);
      InvKept(s, acts[0]);
      NoLeakWithoutOverlap(Apply(s, acts[0]), acts[1..], k);
    }
  }

  lemma RunSteps(s: State, a: Action, acts: seq<Action>)
    requires Enabled(s, a) && ValidRun(Apply(s, a), acts)
    ensures ValidRun(s, [a] + acts) && Run(s, [a] + acts) == Run(Apply(s, a), acts)
  {
    assert ([a] + acts)[1..] == acts;
  }

  lemma {:induction false} RunConcat(s: State, front: seq<Action>, back: seq<Action>)
    requires ValidRun(s, front) && ValidRun(Run(s, front), back)
    ensures ValidRun(s, front + back) && Run(s, front + back) == Run(Run(s, front), back)
    decreases |front|
  {
    hide Enabled, Apply;
    if front == [] {
      assert front + back == back;
    } else {
      RunConcat(Apply(s, front[0]), front[1..], back);
      assert front + back == [front[0]] + (front[1..] + back);
    }
  }

  function TwoReleased(k: Key): State {
    State(map[k := 0], map[0 := Mutex(k, 3, Free)], map[0 := Handle(k, 0, Released), 1 := Handle(k, 0, Released)])
  }

  lemma TwoCancelled(k: Key)
    ensures var acts := [LockFor(0, k, 0), LockFor(1, k, 1)] + [Cancel(0), Cancel(1)];
            ValidRun(Init(), acts) && Run(Init(), acts) == TwoReleased(k)
  {
    var s1 := Apply(Init(), LockFor(0, k, 0));
    var s2 := Apply(s1, LockFor(1, k, 1));
    assert s2 == State(map[k := 0], map[0 := Mutex(k, 3, Free)],
                       map[0 := Handle(k, 0, Waiting), 1 := Handle(k, 0, Waiting)]);
    RunSteps(s1, LockFor(1, k, 1), []);
    RunSteps(Init(), LockFor(0, k, 0), [LockFor(1, k, 1)]);
    var s3 := Apply(s2, Cancel(0));
    assert Apply(s3, Cancel(1)) == TwoReleased(k);
    RunSteps(s3, Cancel(1), []);
    RunSteps(s2, Cancel(0), [Cancel(1)]);
    RunConcat(Init(), [LockFor(0, k, 0), LockFor(1, k, 1)], [Cancel(0), Cancel(1)]);
  }

  lemma BothCheckFirst(k: Key)
    ensures var s := TwoReleased(k);
            var acts := [DropCheck(0), DropCheck(1)] + [DropField(0), DropField(1)];
            ValidRun(s, acts) && Run(s, acts) == State(map[k := 0], map[0 := Mutex(k, 1, Free)], map[])
  {
    var s := TwoReleased(k);
    var s1 := Apply(s, DropCheck(0));
    var s2 := Apply(s1, DropCheck(1));
    assert s2 == s.(handles := map[0 := Handle(k, 0, Checked), 1 := Handle(k, 0, Checked)]);
    RunSteps(s1, DropCheck(1), []);
    RunSteps(s, DropCheck(0), [DropCheck(1)]);
    var s3 := Apply(s2, DropField(0));
    assert Apply(s3, DropField(1)) == State(map[k := 0], map[0 := Mutex(k, 1, Free)], map[]);
    RunSteps(s3, DropField(1), []);
    RunSteps(s2, DropField(0), [DropField(1)]);
    RunConcat(s, [DropCheck(0), DropCheck(1)], [DropField(0), DropField(1)]);
  }

  /** Two overlapping drops really do leave an entry that no handle refers to. */
  lemma OverlapLeaks(k: Key)
    ensures var acts := [LockFor(0, k, 0), LockFor(1, k, 1)] + [Cancel(0), Cancel(1)] +
                        ([DropCheck(0), DropCheck(1)] + [DropField(0), DropField(1)]);
            ValidRun(Init(), acts) && Leaked(Run(Init(), acts), k) && Run(Init(), acts).handles == map[]
  {
    TwoCancelled(k);
    BothCheckFirst(k);
    RunConcat(Init(), [LockFor(0, k, 0), LockFor(1, k, 1)] + [Cancel(0), Cancel(1)],
              [DropCheck(0), DropCheck(1)] + [DropField(0), DropField(1)]);
  }

  lemma AcquireRelease(s: State, h: nat)
    requires InPhase(s, h, Waiting) && MutexOf(s, h).holder == Free
    ensures ValidRun(s, [Acquire(h), Unlock(h)])
    ensures Run(s, [Acquire(h), Unlock(h)]) == SetPhase(s, h, Released)
  {
    var s1 := Apply(s, Acquire(h));
    var s2 := Apply(s1, Unlock(h));
    assert s2.mutexes == s.mutexes && s2.handles == SetPhase(s, h, Released).handles;
    RunSteps(s1, Unlock(h), []);
    RunSteps(s, Acquire(h), [Unlock(h)]);
    assert [Acquire(h)] + [Unlock(h)] == [Acquire(h), Unlock(h)];
  }

  /** An entry without handles: one reference, the table's own, and nobody inside. */
  predicate Idle(s: State, k: Key) {
    && k in s.table && s.table[k] in s.mutexes
    && s.mutexes[s.table[k]].strong == 1 && s.mutexes[s.table[k]].holder == Free
  }

  lemma UnownedIsIdle(s: State, k: Key)
    requires Inv(s) && k in s.table && Owners(s, s.table[k]) == {}
    ensures Idle(s, k)
  {
    var m := s.table[k];
    assert CountExact(s, m);
    assert forall g :: InPhase(s, g, Critical) && s.handles[g].mutex == m ==> g in Owners(s, m);
  }

  /** A lone acquire and release of a key whose entry is idle leaves the two references of the
      entry and its handle. */
  lemma LoneUse(s: State, k: Key, h: nat, name: nat)
    requires Idle(s, k) && h !in s.handles
    ensures var acts := [LockFor(h, k, name), Acquire(h), Unlock(h)];
            ValidRun(s, acts) && Run(s, acts).table == s.table && InPhase(Run(s, acts), h, Released) &&
            Run(s, acts).handles == s.handles[h := Handle(k, s.table[k], Released)] && Removes(Run(s, acts), h)
  {
    var s1 := Apply(s, LockFor(h, k, name));
    hide ValidRun, Run;
    AcquireRelease(s1, h);
    RunSteps(s, LockFor(h, k, name), [Acquire(h), Unlock(h)]);
    assert [LockFor(h, k, name)] + [Acquire(h), Unlock(h)] == [LockFor(h, k, name), Acquire(h), Unlock(h)];
    assert s1.handles[h := Handle(k, s.table[k], Released)] == s.handles[h := Handle(k, s.table[k], Released)];
  }

  /** Dropping the last handle removes the entry. */
  lemma LoneDrop(s: State, h: nat)
    requires InPhase(s, h, Released) && Removes(s, h)
    ensures ValidRun(s, [DropCheck(h), DropField(h)])
    ensures Run(s, [DropCheck(h), DropField(h)]).table == s.table - {s.handles[h].key}
    ensures Run(s, [DropCheck(h), DropField(h)]).handles == s.handles - {h}
  {
    var s1 := Apply(s, DropCheck(h));
    RunSteps(s1, DropField(h), []);
    RunSteps(s, DropCheck(h), [DropField(h)]);
    assert [DropCheck(h)] + [DropField(h)] == [DropCheck(h), DropField(h)];
  }

  /** A leaked entry is reclaimed by the next lone acquire and release of its key,
      which leaves every other key and every handle as it was. */
  lemma LoneUseReclaims(s: State, k: Key, h: nat, name: nat)
    requires Inv(s) && Leaked(s, k) && Owners(s, s.table[k]) == {} && h !in s.handles
    ensures var acts := [LockFor(h, k, name), Acquire(h), Unlock(h), DropCheck(h), DropField(h)];
            ValidRun(s, acts) && Run(s, acts).table == s.table - {k} && Run(s, acts).handles == s.handles
  {
    UnownedIsIdle(s, k);
    LoneUse(s, k, h, name);
    var used := [LockFor(h, k, name), Acquire(h), Unlock(h)];
    assert s.handles[h := Handle(k, s.table[k], Released)] - {h} == s.handles;
    hide Inv, Owners, Leaked, Apply, Enabled, ValidRun, Run;
    LoneDrop(Run(s, used), h);
    RunConcat(s, used, [DropCheck(h), DropField(h)]);
    assert used + [DropCheck(h), DropField(h)] ==
           [LockFor(h, k, name), Acquire(h), Unlock(h), DropCheck(h), DropField(h)];
  }
}
