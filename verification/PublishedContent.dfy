/**
 What a publication shows: the very bytes its writer wrote, however many writers are at work,
 from its rename until the next one onto the same name.
 */
module PublishedContent {
  import opened Common
  import opened AtomicPublish

  /** What writer `w` has written since it opened its file. */
  function Sent(acts: seq<Action>, w: nat): Bytes {
    if acts == [] then []
    else
      var a := acts[|acts| - 1];
      if (a.Open? || a.Begin?) && a.w == w then []
      else if a.Write? && a.w == w then Sent(acts[..|acts| - 1], w) + a.chunk
      else Sent(acts[..|acts| - 1], w)
  }

  lemma {:induction false} RunSplits(env: Env, s: State, acts: seq<Action>, a: Action)
    requires ValidRun(env, s, acts + [a])
    ensures ValidRun(env, s, acts) && Enabled(env, Run(env, s, acts), a)
    ensures Run(env, s, acts + [a]) == Apply(env, Run(env, s, acts), a)
    decreases |acts|
  {
    hide Enabled, Apply;
    if acts == [] {
      assert ([] + [a])[1..] == [];
    } else {
      assert (acts + [a])[1..] == acts[1..] + [a];
      RunSplits(env, Apply(env, s, acts[0]), acts[1..], a);
    }
  }

  ghost predicate FileHolds(s: State, w: nat, bytes: Bytes) {
    OnFile(s, w) ==> s.disk.inodes[s.proc.writers[w].ino].bytes == bytes
  }

  /** An action of writer `w`. */
  predicate By(a: Action, w: nat) {
    !a.MakeDirs? && !a.Flush? && !a.Crash? && !a.StartServing? && a.w == w
  }

  lemma SentGrows(acts: seq<Action>, a: Action, w: nat)
    ensures Sent(acts + [a], w) ==
            if !By(a, w) then Sent(acts, w)
            else if a.Open? || a.Begin? then []
            else if a.Write? then Sent(acts, w) + a.chunk
            else Sent(acts, w)
  {
    assert (acts + [a])[..|acts|] == acts;
  }

  lemma StepHolds(env: Env, s: State, acts: seq<Action>, a: Action, w: nat)
    requires Inv(env, s) && Enabled(env, s, a) && FileHolds(s, w, Sent(acts, w))
    ensures FileHolds(Apply(env, s, a), w, Sent(acts + [a], w))
  {
    SentGrows(acts, a, w);
    hide Sent, Accepts, CrashImage;
    if By(a, w) {
      hide Inv;
    } else if w in s.proc.writers && HasTemp(s.proc.writers[w]) && !a.Crash? {
      assert Sound(env, s, s.proc.writers[w]);
      OthersUndisturbed(env, s, a, w);
      hide Inv, DiskAfter;
    } else {
      hide Inv, DiskAfter;
    }
  }

  /** In every reachable state the file of a writer under way holds what that writer wrote, and
      nothing another wrote. */
  lemma {:induction false} FileIsSent(env: Env, s: State, acts: seq<Action>, w: nat)
    requires Initial(s) && ValidRun(env, s, acts)
    ensures FileHolds(Run(env, s, acts), w, Sent(acts, w))
    decreases |acts|
  {
    hide Enabled, Inv, Apply;
    InitialInv(env, s);
    if acts != [] {
      var m := |acts| - 1;
      assert acts[..m] + [acts[m]] == acts;
      RunSplits(env, s, acts[..m], acts[m]);
      FileIsSent(env, s, acts[..m], w);
      InvAlways(env, s, acts[..m]);
      StepHolds(env, Run(env, s, acts[..m]), acts[..m], acts[m], w);
    }
  }

  /** What is published at a name, if anything. */
  ghost function Content(d: Disk, name: Name): Option<Bytes> {
    if Dest(name) in d.live && d.live[Dest(name)] in d.inodes then Some(d.inodes[d.live[Dest(name)]].bytes) else None
  }

  /** In every reachable state, with any writers at work, a rename puts at its name exactly the
      bytes its writer wrote, which are what it was asked for; it takes the temporary name away
      and leaves every other published name as it was. */
  lemma RenameShowsSent(env: Env, s: State, acts: seq<Action>, w: nat)
    requires Initial(s) && ValidRun(env, s, acts) && Enabled(env, Run(env, s, acts), Rename(w))
    ensures var m := Run(env, s, acts);
            var n := Apply(env, m, Rename(w));
            var k := m.proc.writers[w];
            && Content(n.disk, k.name) == Some(Sent(acts, w))
            && (k.goal.Exactly? ==> Sent(acts, w) == k.goal.bytes)
            && (k.goal.Verified? ==> |Sent(acts, w)| <= env.maxBytes && env.hash(Sent(acts, w)) == k.goal.digest)
            && (k.name, k.goal) in n.record.asked && n.proc.writers[w] == Renamed(k.name)
            && TempOf(m.proc.pid, k) !in n.disk.live
            && forall other :: other != k.name ==> Content(n.disk, other) == Content(m.disk, other)
  {
    InitialInv(env, s);
    InvAlways(env, s, acts);
    FileIsSent(env, s, acts, w);
    hide Run, ValidRun, Sent, Initial;
    var m := Run(env, s, acts);
    assert Sound(env, m, m.proc.writers[w]);
  }

  /** Until the next rename onto it, or a crash, nothing changes what is published at a name. */
  lemma OnlyRenamesChange(env: Env, s: State, acts: seq<Action>, a: Action, name: Name)
    requires Initial(s) && ValidRun(env, s, acts) && Enabled(env, Run(env, s, acts), a)
    requires !a.Crash? && !(a.Rename? && Run(env, s, acts).proc.writers[a.w].name == name)
    ensures var m := Run(env, s, acts);
            Content(Apply(env, m, a).disk, name) == Content(m.disk, name)
  {
    InitialInv(env, s);
    InvAlways(env, s, acts);
    hide Run, ValidRun, Initial;
    var m := Run(env, s, acts);
    if Dest(name) in m.disk.live {
      BytesStay(env, m, a, name, m.disk.live[Dest(name)]);
      PublishedStays(env, m, a, name);
    }
    hide Inv, Accepts, Flushed;
  }

  // ---------------------------------------------------------------- no litter

  /** Every temporary name is that of a writer under way. */
  ghost predicate Tidy(s: State) {
    forall l :: l in s.disk.live && l.Temp? ==> exists w :: Owns(s, w, l)
  }

  ghost predicate Owns(s: State, w: nat, l: Loc) {
    w in s.proc.writers && HasTemp(s.proc.writers[w]) && TempOf(s.proc.pid, s.proc.writers[w]) == l
  }

  /** The writer gives up and its temporary file stays. */
  ghost predicate Litters(s: State, a: Action) {
    a.Fail? && !a.removes && a.w in s.proc.writers && HasTemp(s.proc.writers[a.w])
  }

  /** A step short of a crash leaves the disk tidy if and only if it is not a failure whose
      removal failed too. */
  lemma TidyExactly(env: Env, s: State, a: Action)
    requires Inv(env, s) && Enabled(env, s, a) && Tidy(s) && !a.Crash?
    ensures Tidy(Apply(env, s, a)) <==> !Litters(s, a)
  {
    hide Accepts, AllComplete, Housed;
    var n := Apply(env, s, a);
    if Litters(s, a) {
      var l := TempOf(s.proc.pid, s.proc.writers[a.w]);
      assert Sound(env, s, s.proc.writers[a.w]);
      assert l in n.disk.live;
    } else {
      forall l | l in n.disk.live && l.Temp? ensures exists w :: Owns(n, w, l) {
        var w := OwnedAfter(env, s, a, l);
      }
    }
  }

  lemma OwnedAfter(env: Env, s: State, a: Action, l: Loc) returns (w: nat)
    requires Enabled(env, s, a) && Tidy(s) && !a.Crash? && !Litters(s, a)
    requires l in Apply(env, s, a).disk.live && l.Temp?
    ensures Owns(Apply(env, s, a), w, l)
  {
    hide Accepts;
    if l in s.disk.live { w :| Owns(s, w, l); } else { w := a.w; }
  }

  /** A start whose cleanup succeeds leaves no temporary name at all, and from then on, as long as
      failing writers remove their files, the only temporary names are those of writers under
      way: none, once all have finished. */
  lemma {:induction false} StaysTidy(env: Env, s: State, acts: seq<Action>)
    requires Inv(env, s) && ValidRun(env, s, acts)
    requires Tidy(s) || (acts != [] && acts[0].StartServing? && acts[0].ok)
    requires forall i :: 0 <= i < |acts| ==> !acts[i].Crash? && (acts[i].Fail? ==> acts[i].removes)
    ensures Tidy(Run(env, s, acts))
    ensures var n := Run(env, s, acts);
            (forall w :: w in n.proc.writers ==> !HasTemp(n.proc.writers[w])) ==>
              forall l :: l in n.disk.live ==> l.Dest?
    decreases |acts|
  {
    hide Inv, Enabled, HasTemp;
    if acts != [] {
      var n := Apply(env, s, acts[0]);
      InvKept(env, s, acts[0]);
      if Tidy(s) {
        TidyExactly(env, s, acts[0]);
      } else {
        StartTidies(env, s, acts[0].removed);
      }
      StaysTidy(env, n, acts[1..]);
    }
  }

  lemma StartTidies(env: Env, s: State, removed: set<Loc>)
    requires Enabled(env, s, StartServing(true, removed))
    ensures Tidy(Apply(env, s, StartServing(true, removed)))
  {
    hide CrashImage, Accepts;
  }

  /** A writer that finds its temporary name taken fails: a download takes that name away, and a
      document leaves it; nothing else changes, and the number is used up. */
  lemma CollisionEnds(env: Env, s: State, w: nat, ino: nat)
    requires Inv(env, s) && Enabled(env, s, Open(w, ino))
    requires Collides(s, s.proc.writers[w].name.dir, SortOf(s.proc.writers[w].goal))
    ensures var n := Apply(env, s, Open(w, ino));
            var k := s.proc.writers[w];
            var taken := NextTemp(s.proc, k.name.dir, SortOf(k.goal));
            && n.proc.writers[w] == Finished(false)
            && n.disk == s.disk.(live := n.disk.live)
            && (k.goal.Exactly? ==> n.disk.live == s.disk.live)
            && (k.goal.Verified? ==> taken !in n.disk.live && n.disk.live.Keys + {taken} == s.disk.live.Keys)
            && (forall l :: l in n.disk.live ==> n.disk.live[l] == s.disk.live[l])
            && NextNumber(n.proc, SortOf(k.goal)) == NextNumber(s.proc, SortOf(k.goal)) + 1
  {
    hide Inv, Accepts;
  }
}
