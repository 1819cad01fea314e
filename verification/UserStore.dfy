/** The durable user store as a machine of system calls, reader checks, crashes and reboots. */
module UserStore {
  import opened UserAuth

  datatype UserRecord = UserRecord(uuid: UserId, name: string, added: nat)

  function Ids(rs: seq<UserRecord>): (ids: seq<UserId>)
    ensures |ids| == |rs| && forall i | 0 <= i < |rs| :: ids[i] == rs[i].uuid
  {
    seq(|rs|, i requires 0 <= i < |rs| => rs[i].uuid)
  }

  ghost predicate NoDuplicates(rs: seq<UserRecord>) {
    forall i, j | 0 <= i < j < |rs| :: rs[i].uuid != rs[j].uuid
  }

  function Without(rs: seq<UserRecord>, uuid: UserId): (r: seq<UserRecord>)
    ensures forall x :: x in r <==> x in rs && x.uuid != uuid
    ensures |r| <= |rs|
  {
    if rs == [] then []
    else if rs[0].uuid == uuid then Without(rs[1..], uuid)
    else [rs[0]] + Without(rs[1..], uuid)
  }

  lemma {:induction false} WithoutKeepsDistinct(rs: seq<UserRecord>, uuid: UserId)
    requires NoDuplicates(rs)
    ensures NoDuplicates(Without(rs, uuid))
    decreases |rs|
  {
    if rs != [] {
      WithoutKeepsDistinct(rs[1..], uuid);
      var w := Without(rs[1..], uuid);
      forall j | 0 <= j < |w|
        ensures w[j].uuid != rs[0].uuid
      {
        assert w[j] in rs[1..];
      }
    }
  }

  // ------------------------------------------------------------- the state

  /** What a file holds: nothing, a whole JSON list, or something cut short. */
  datatype Content = Absent | Whole(records: seq<UserRecord>) | Torn

  /** The temporary file: whether its data is all there and has reached the disk. */
  datatype Tmp = NoTmp | Created | Filled(synced: bool)

  /** The calls of one change, in order. */
  datatype Call = CreateTmp | WriteTmp | SyncTmp | RenameTmp | SyncDir | StoreRecords | StoreSnapshot

  datatype Phase = Idle | Busy(candidate: seq<UserRecord>, at: Call)

  /**
   * `history[v]` is the v-th content the file has had; the current one is the last. A power loss may
   * bring back any version from `floor` on. `snapV` is the version the readers' snapshot was made
   * from and `seen` the newest version any reader took, of those a power loss has left: the numbers of
   * lost versions are used again.
   */
  datatype Store = Store(
    history: seq<Content>, floor: nat, tmp: Tmp,
    up: bool, records: seq<UserRecord>, snapshot: seq<UserId>, snapV: nat, phase: Phase, seen: nat)
  {
    function Path(): int {
      |history| - 1
    }
  }

  datatype Step =
    | BeginAdd(record: UserRecord)
    | BeginRemove(uuid: UserId)
    | Advance(ok: bool)          // the next call of the change under way, and whether it succeeded
    | Read                       // a reader takes the snapshot
    | Kill                       // the process dies; files stay as they are
    | PowerLoss(survivor: nat)   // the machine dies; an older version of the file may come back
    | Boot(seed: seq<UserRecord>)

  const FIRST_BOOT: Store :=
    Store([Absent], 0, NoTmp, false, [], [], 0, Idle, 0)

  /** One call of a change: its effect on the disk, the records and the snapshot. */
  function Called(s: Store, c: seq<UserRecord>, at: Call, ok: bool): Store {
    match at
    case CreateTmp => if ok then s.(tmp := Created, phase := Busy(c, WriteTmp)) else s.(phase := Idle)
    case WriteTmp => if ok then s.(tmp := Filled(false), phase := Busy(c, SyncTmp)) else s.(phase := Idle)
    case SyncTmp =>
      if ok && s.tmp.Filled? then s.(tmp := Filled(true), phase := Busy(c, RenameTmp)) else s.(phase := Idle)
    case RenameTmp =>
      if !ok then s.(phase := Idle)
      else
        var content := if s.tmp == Filled(true) then Whole(c) else Torn;
        s.(history := s.history + [content], tmp := NoTmp, phase := Busy(c, SyncDir))
    case SyncDir =>
      // opening or syncing the directory may fail, and nothing is made of it
      if ok && s.history != [] then s.(floor := |s.history| - 1, phase := Busy(c, StoreRecords))
      else s.(phase := Busy(c, StoreRecords))
    case StoreRecords => s.(records := c, phase := Busy(c, StoreSnapshot))
    case StoreSnapshot =>
      if s.history == [] then s
      else s.(snapshot := Ids(s.records), snapV := |s.history| - 1, up := true, phase := Idle)
  }

  function Stopped(s: Store): Store {
    s.(tmp := NoTmp, up := false, records := [], snapshot := [], snapV := 0, phase := Idle)
  }

  /** One step; a step that is not possible leaves the state as it is. */
  function Next(s: Store, x: Step): Store {
    match x
    case BeginAdd(r) =>
      // an existing UUID is refused before anything is written
      if s.up && s.phase.Idle? && r.uuid !in Ids(s.records)
      then s.(phase := Busy(s.records + [r], CreateTmp)) else s
    case BeginRemove(u) =>
      if s.up && s.phase.Idle? && |Without(s.records, u)| != |s.records|
      then s.(phase := Busy(Without(s.records, u), CreateTmp)) else s
    case Advance(ok) => if s.phase.Busy? then Called(s, s.phase.candidate, s.phase.at, ok) else s
    case Read => if s.up && s.snapV > s.seen then s.(seen := s.snapV) else s
    case Kill => Stopped(s)
    case PowerLoss(v) =>
      if s.floor <= v < |s.history|
      then Stopped(s).(history := s.history[..v + 1], floor := v, seen := if s.seen <= v then s.seen else v) else s
    case Boot(seed) =>
      if s.up || s.phase.Busy? || s.history == [] then s
      else
        match s.history[|s.history| - 1]
        case Whole(rs) => s.(up := true, records := rs, snapshot := Ids(rs), snapV := |s.history| - 1)
        case Absent => s.(phase := Busy(seed, CreateTmp))
        case Torn => s
  }

  function Run(s: Store, steps: seq<Step>): Store
    decreases |steps|
  {
    if steps == [] then s else Run(Next(s, steps[0]), steps[1..])
  }

  // -------------------------------------------------------- what always holds

  /** The change under way has replaced the file but not yet reached the readers. */
  predicate PastRename(s: Store) {
    s.phase.Busy? && (s.phase.at.SyncDir? || s.phase.at.StoreRecords? || s.phase.at.StoreSnapshot?)
  }

  ghost predicate DiskSound(s: Store) {
    && s.history != []
    && s.floor < |s.history|
    && (forall v | 0 <= v < |s.history| :: !s.history[v].Torn?)
  }

  ghost predicate TmpInStep(s: Store) {
    s.phase.Busy? ==>
      match s.phase.at
      case SyncTmp => s.tmp == Filled(false)
      case RenameTmp => s.tmp == Filled(true)
      case _ => true
  }

  /** The readers' snapshot against the disk. */
  ghost predicate SnapshotInStep(s: Store)
    requires s.history != []
  {
    && (PastRename(s) ==> s.history[s.Path()] == Whole(s.phase.candidate) && s.Path() > 0)
    && (s.up ==>
          && s.snapV == (if PastRename(s) then s.Path() - 1 else s.Path())
          && s.history[s.snapV].Whole?
          && s.snapshot == Ids(s.history[s.snapV].records)
          && s.records == (if s.phase.Busy? && s.phase.at.StoreSnapshot? then s.phase.candidate
                           else s.history[s.snapV].records))
    && (!s.up && s.phase.Busy? && s.phase.at.StoreSnapshot? ==> s.records == s.phase.candidate)
  }

  ghost predicate Inv(s: Store) {
    DiskSound(s) && TmpInStep(s) && SnapshotInStep(s) && s.seen <= s.Path()
  }

  lemma CallKeepsDisk(s: Store, ok: bool)
    requires DiskSound(s) && TmpInStep(s) && s.phase.Busy?
    ensures DiskSound(Called(s, s.phase.candidate, s.phase.at, ok))
    ensures TmpInStep(Called(s, s.phase.candidate, s.phase.at, ok))
    ensures var t := Called(s, s.phase.candidate, s.phase.at, ok); t.seen == s.seen && t.Path() >= s.Path()
  {
    hide Ids;
    var t := Called(s, s.phase.candidate, s.phase.at, ok);
    if s.phase.at.RenameTmp? && ok {
      assert forall v | 0 <= v < |s.history| :: t.history[v] == s.history[v];
    }
  }

  lemma HasHistory(s: Store)
    requires DiskSound(s)
    ensures s.history != []
  {
  }

  lemma CallKeepsSnapshot(s: Store, ok: bool)
    requires Inv(s) && s.phase.Busy?
    ensures var t := Called(s, s.phase.candidate, s.phase.at, ok);
            t.history != [] && SnapshotInStep(t)
  {
    hide Ids;
    hide DiskSound;
    assert s.history != [] by { HasHistory(s); }
  }

  lemma StepKeepsInv(s: Store, x: Step)
    requires Inv(s)
    ensures Inv(Next(s, x))
  {
    hide Ids;
    hide Called;
    if x.Advance? && s.phase.Busy? {
      CallKeepsDisk(s, x.ok);
      CallKeepsSnapshot(s, x.ok);
    }
  }

  lemma {:induction false} RunKeepsInv(s: Store, steps: seq<Step>)
    requires Inv(s)
    ensures Inv(Run(s, steps))
    decreases |steps|
  {
    if steps != [] {
      StepKeepsInv(s, steps[0]);
      RunKeepsInv(Next(s, steps[0]), steps[1..]);
    }
  }

  /**
   * Never ahead of the disk: at every point of every run the readers' snapshot is the set in the
   * file, or, while one change has replaced the file and not yet returned, the set just before it.
   */
  lemma SnapshotNeverAhead(steps: seq<Step>)
    ensures var s := Run(FIRST_BOOT, steps);
            s.up ==>
              var v := if PastRename(s) then s.Path() - 1 else s.Path();
              0 <= v && s.history[v].Whole? && s.snapshot == Ids(s.history[v].records)
  {
    RunKeepsInv(FIRST_BOOT, steps);
  }

  // ------------------------------------------------------------- durability

  /** The step leaves a replaced file without the directory sync that makes it permanent. */
  predicate SkipsSync(s: Store, x: Step) {
    s.phase.Busy? && s.phase.at.SyncDir? && (x == Advance(false) || x.Kill?)
  }

  /** In this run no directory sync failed, and none was prevented by killing the process. */
  ghost predicate AllSynced(s: Store, steps: seq<Step>)
    decreases |steps|
  {
    steps != [] ==>
      && !SkipsSync(s, steps[0])
      && AllSynced(Next(s, steps[0]), steps[1..])
  }

  /** Everything a reader has seen would survive a power loss. */
  ghost predicate Durable(s: Store) {
    && s.seen <= s.floor
    && (s.up ==> s.snapV <= s.floor)
    && (s.floor == s.Path() || (s.phase.Busy? && s.phase.at.SyncDir?))
  }

  lemma SyncedStepIsDurable(s: Store, x: Step)
    requires Inv(s) && Durable(s)
    requires !SkipsSync(s, x)
    ensures Durable(Next(s, x))
  {
  }

  lemma {:induction false} SyncedRunsAreDurable(s: Store, steps: seq<Step>)
    requires Inv(s) && Durable(s) && AllSynced(s, steps)
    ensures Durable(Run(s, steps))
    decreases |steps|
  {
    if steps != [] {
      StepKeepsInv(s, steps[0]);
      SyncedStepIsDurable(s, steps[0]);
      SyncedRunsAreDurable(Next(s, steps[0]), steps[1..]);
    }
  }

  lemma FirstBootIsSound()
    ensures Inv(FIRST_BOOT) && Durable(FIRST_BOOT)
  {
  }

  /** After any run whose directory syncs succeeded, no power loss brings back less than a reader saw. */
  lemma ReloadNeverOlder(steps: seq<Step>, survivor: nat)
    requires AllSynced(FIRST_BOOT, steps)
    requires var s := Run(FIRST_BOOT, steps); s.floor <= survivor < |s.history|
    ensures Next(Run(FIRST_BOOT, steps), PowerLoss(survivor)).Path() >= Run(FIRST_BOOT, steps).seen
  {
    FirstBootIsSound();
    SyncedRunsAreDurable(FIRST_BOOT, steps);
  }

  lemma SeenIsThere(s: Store)
    requires Inv(s)
    ensures s.seen <= s.Path()
  {
  }

  lemma StepKeepsSeen(s: Store, x: Step)
    requires Inv(s) && !x.PowerLoss?
    ensures s.seen <= Next(s, x).seen <= Next(s, x).Path()
  {
    hide Ids;
  }

  /** However often the process is killed, and whatever syncs fail, the file keeps all that was ever seen. */
  lemma {:induction false} KillsKeepSeen(s: Store, steps: seq<Step>)
    requires Inv(s)
    requires forall i | 0 <= i < |steps| :: !steps[i].PowerLoss?
    ensures s.seen <= Run(s, steps).seen <= Run(s, steps).Path()
    decreases |steps|
  {
    hide Next;
    hide Inv;
    if steps == [] {
      SeenIsThere(s);
    } else {
      StepKeepsInv(s, steps[0]);
      StepKeepsSeen(s, steps[0]);
      KillsKeepSeen(Next(s, steps[0]), steps[1..]);
    }
  }

  /** The step is a directory sync that succeeds while the file has version `v` or a later one. */
  predicate Secures(s: Store, x: Step, v: nat) {
    s.phase.Busy? && s.phase.at.SyncDir? && x == Advance(true) && s.Path() >= v
  }

  /** In this run some directory sync succeeded at or after the rename that made version `v`. */
  predicate Secured(s: Store, steps: seq<Step>, v: nat)
    decreases |steps|
  {
    steps != [] && (Secures(s, steps[0], v) || Secured(Next(s, steps[0]), steps[1..], v))
  }

  lemma StepSecures(s: Store, x: Step, v: nat)
    requires Inv(s) && !x.PowerLoss?
    ensures Next(s, x).floor >= v <==> s.floor >= v || Secures(s, x, v)
  {
    hide Ids;
    hide SnapshotInStep;
  }

  /** What a power loss must leave is what was there at the start or has been secured since. */
  lemma {:induction false} FloorExactly(s: Store, steps: seq<Step>, v: nat)
    requires Inv(s)
    requires forall i | 0 <= i < |steps| :: !steps[i].PowerLoss?
    ensures Run(s, steps).floor >= v <==> s.floor >= v || Secured(s, steps, v)
    decreases |steps|
  {
    hide Next;
    hide Inv;
    hide Secures;
    if steps != [] {
      StepKeepsInv(s, steps[0]);
      StepSecures(s, steps[0], v);
      FloorExactly(Next(s, steps[0]), steps[1..], v);
    }
  }

  /** Some power loss now would bring back a version older than `v`. */
  ghost predicate CanLose(s: Store, v: nat) {
    exists w: nat :: s.floor <= w < |s.history| && Next(s, PowerLoss(w)).Path() < v
  }

  lemma CanLoseFloor(s: Store, v: nat)
    requires Inv(s)
    ensures CanLose(s, v) <==> s.floor < v
  {
    if s.floor < v {
      assert Next(s, PowerLoss(s.floor)).Path() < v;
    }
  }

  /**
   * From any state the store can be in (the first boot, or what a power loss left), at any point of any
   * run before the next power loss: that loss can bring back a version older than `v` exactly when `v`
   * was not on disk at the start and no directory sync has succeeded at or after the rename that made
   * it. In particular for the newest version any reader took and for the one the readers are using.
   */
  lemma PowerLossExactly(s: Store, steps: seq<Step>)
    requires Inv(s)
    requires forall i | 0 <= i < |steps| :: !steps[i].PowerLoss?
    ensures var t := Run(s, steps);
            && (forall v: nat :: CanLose(t, v) <==> s.floor < v && !Secured(s, steps, v))
            && (CanLose(t, t.seen) <==> s.floor < t.seen && !Secured(s, steps, t.seen))
            && (CanLose(t, t.snapV) <==> s.floor < t.snapV && !Secured(s, steps, t.snapV))
  {
    var t := Run(s, steps);
    RunKeepsInv(s, steps);
    forall v: nat
      ensures CanLose(t, v) <==> s.floor < v && !Secured(s, steps, v)
    {
      FloorExactly(s, steps, v);
      CanLoseFloor(t, v);
    }
  }

  /** A whole successful change, with the outcome of its directory sync. */
  function ChangeSteps(first: Step, dirSync: bool): seq<Step> {
    [first] + ([Advance(true), Advance(true), Advance(true), Advance(true)]
               + [Advance(dirSync), Advance(true), Advance(true), Read])
  }

  lemma {:induction false} RunConcat(s: Store, a: seq<Step>, b: seq<Step>)
    ensures Run(s, a + b) == Run(Run(s, a), b)
    decreases |a|
  {
    hide Next;
    if a == [] {
      assert a + b == b;
    } else {
      assert (a + b)[1..] == a[1..] + b;
      RunConcat(Next(s, a[0]), a[1..], b);
    }
  }

  lemma RunFour(s: Store, a: Step, b: Step, c: Step, d: Step)
    ensures Run(s, [a, b, c, d]) == Next(Next(Next(Next(s, a), b), c), d)
  {
    hide Next;
    assert [a, b, c, d][1..] == [b, c, d] && [b, c, d][1..] == [c, d] && [c, d][1..] == [d] && [d][1..] == [];
    var x := Next(Next(s, a), b);
    assert Run(Next(x, c), [d]) == Run(Next(Next(x, c), d), []);
    assert Run(x, [c, d]) == Run(Next(x, c), [d]);
    assert Run(Next(s, a), [b, c, d]) == Run(x, [c, d]);
  }

  lemma FileReplaced(s: Store, c: seq<UserRecord>)
    ensures var yes := Advance(true);
            Next(Next(Next(Next(s.(phase := Busy(c, CreateTmp)), yes), yes), yes), yes) ==
            s.(history := s.history + [Whole(c)], tmp := NoTmp, phase := Busy(c, SyncDir))
  {
    var a := Next(s.(phase := Busy(c, CreateTmp)), Advance(true));
    assert a == s.(tmp := Created, phase := Busy(c, WriteTmp));
    var b := Next(a, Advance(true));
    assert b == s.(tmp := Filled(false), phase := Busy(c, SyncTmp));
    assert Next(b, Advance(true)) == s.(tmp := Filled(true), phase := Busy(c, RenameTmp));
  }

  lemma ReadersSwitched(s: Store, c: seq<UserRecord>)
    requires s.phase == Busy(c, SyncDir) && s.history != []
    ensures var t := Next(Next(Next(Next(s, Advance(false)), Advance(true)), Advance(true)), Read);
            && t.up && t.snapshot == Ids(c) && t.snapV == |s.history| - 1 && t.seen >= t.snapV
            && t.history == s.history && t.floor == s.floor
  {
    hide Ids;
    var a := Next(s, Advance(false));
    assert a == s.(phase := Busy(c, StoreRecords));
    var b := Next(a, Advance(true));
    assert b == s.(records := c, phase := Busy(c, StoreSnapshot));
  }

  lemma LosesLast(t: Store)
    requires t.floor < |t.history| - 1 <= t.seen
    ensures Next(t, PowerLoss(t.floor)).Path() < t.seen
  {
  }

  /**
   * The exception happens: an added user is live, a reader has seen it, its directory sync failed, and
   * a power loss brings back the set without it.
   */
  lemma UnsyncedAddCanVanish(s: Store, r: UserRecord)
    requires Inv(s) && s.up && s.phase.Idle? && r.uuid !in Ids(s.records)
    ensures var t := Run(s, ChangeSteps(BeginAdd(r), false));
            && t.up && t.snapshot == Ids(s.records + [r]) && t.seen >= t.snapV
            && t.floor < |t.history|
            && Next(t, PowerLoss(t.floor)).Path() < t.seen
  {
    var c, yes := s.records + [r], Advance(true);
    var s1 := Next(s, BeginAdd(r));
    assert s1 == s.(phase := Busy(c, CreateTmp));
    var s5 := Next(Next(Next(Next(s1, yes), yes), yes), yes);
    FileReplaced(s, c);
    var t := Next(Next(Next(Next(s5, Advance(false)), yes), yes), Read);
    ReadersSwitched(s5, c);
    hide Next;
    var four, last := [yes, yes, yes, yes], [Advance(false), yes, yes, Read];
    RunFour(s1, yes, yes, yes, yes);
    RunFour(s5, Advance(false), yes, yes, Read);
    RunConcat(s1, four, last);
    var all := ChangeSteps(BeginAdd(r), false);
    assert all[0] == BeginAdd(r) && all[1..] == four + last;
    assert Run(s, all) == t;
    LosesLast(t);
  }

  // ------------------------------------------------------------- duplicates

  ghost predicate Distinct(s: Store) {
    && NoDuplicates(s.records)
    && (forall v | 0 <= v < |s.history| :: s.history[v].Whole? ==> NoDuplicates(s.history[v].records))
    && (s.phase.Busy? ==> NoDuplicates(s.phase.candidate))
  }

  lemma AddKeepsDistinct(rs: seq<UserRecord>, r: UserRecord)
    requires NoDuplicates(rs)
    ensures r.uuid !in Ids(rs) ==> NoDuplicates(rs + [r])
  {
    forall i | 0 <= i < |rs|
      ensures Ids(rs)[i] == rs[i].uuid
    {
    }
  }

  lemma NothingIsDistinct()
    ensures NoDuplicates([])
  {
  }

  lemma StepKeepsDistinct(s: Store, x: Step)
    requires Distinct(s)
    requires x.Boot? ==> NoDuplicates(x.seed)
    ensures Distinct(Next(s, x))
  {
    hide NoDuplicates;
    hide Ids;
    hide Without;
    match x
    case BeginAdd(r) => AddKeepsDistinct(s.records, r);
    case BeginRemove(u) => WithoutKeepsDistinct(s.records, u);
    case Advance(ok) =>
    case _ => NothingIsDistinct();
  }

  /** Adding and removing keep every version free of duplicates, if the seed is. */
  lemma {:induction false} RunKeepsDistinct(s: Store, steps: seq<Step>)
    requires Distinct(s)
    requires forall i | 0 <= i < |steps| :: steps[i].Boot? ==> NoDuplicates(steps[i].seed)
    ensures Distinct(Run(s, steps))
    decreases |steps|
  {
    if steps != [] {
      StepKeepsDistinct(s, steps[0]);
      RunKeepsDistinct(Next(s, steps[0]), steps[1..]);
    }
  }
}
