/** Persist before send, and the snapshot lag: what every run of the node keeps, whatever the peers send. */
module Persistence {
  import opened Types
  import opened Wal
  import opened Replay
  import opened Snapshots
  import opened Durable

  // ---------------------------------------------------------------- applying and snapshots, in every run

  ghost predicate AboutToApply(m: Memory, rd: Ready) {
    && (rd.snapshot.Some? ==> rd.snapshot.value.index > m.applied)
    && Consecutive(rd.committed, ApplyFrom(m, rd) + 1)
    && ApplyFrom(m, rd) + |rd.committed| < TWO64
  }

  /** Where applying stands. No snapshot on disk is ahead of what is applied. */
  ghost predicate ApplyInv(n: Node) {
    && n.mem.snapIndex <= n.mem.applied
    && (forall k :: k in n.disk.snaps ==> k <= n.mem.applied)
    && match n.pc {
         case Idle => true
         case Saving(rd, k) => AboutToApply(n.mem, rd)
         case Saved(rd) => AboutToApply(n.mem, rd)
         case Applying(rd, done) =>
           && done <= |rd.committed| && done <= n.mem.applied && n.mem.applied + |rd.committed| - done < TWO64
           && Consecutive(rd.committed, n.mem.applied - done + 1)
         case _ => n.mem.applied <= Latest(n.disk.snaps.Keys)
       }
  }

  lemma LatestGrows(snaps: map<nat, KV>, i: nat, kv: KV)
    ensures Latest(snaps.Keys) <= Latest(snaps[i := kv].Keys)
    ensures i <= Latest(snaps[i := kv].Keys)
  {
    var keys := snaps[i := kv].Keys;
    assert IsLatest(snaps.Keys, Latest(snaps.Keys)) && IsLatest(keys, Latest(keys));
    assert i in keys && (Latest(snaps.Keys) != 0 ==> Latest(snaps.Keys) in keys);
  }

  lemma LatestSurvivesRemoval(keys: set<nat>, i: nat)
    requires i in keys && |Higher(keys, i)| >= KEEP
    ensures Latest(keys - {i}) == Latest(keys)
  {
    var top := Latest(keys);
    assert IsLatest(keys, top);
    assert Higher(keys, top) == {};
    assert IsLatest(keys - {i}, top);
    LatestUnique(keys - {i}, top);
  }

  lemma ApplyStep(n: Node, a: Action)
    requires ApplyInv(n) && Enabled(n, a)
    ensures ApplyInv(Do(n, a))
  {
    hide LastState, EntriesOf, Append, Above, SaveRecords, CompactFile;
    if a.Check? || a.RemoveOld? || a.Crash? {
      SnapshotApply(n, a);
    } else {
      hide Latest, IsLatest, NeedsSnapshot, Higher;
    }
  }

  lemma SnapshotApply(n: Node, a: Action)
    requires ApplyInv(n) && Enabled(n, a) && (a.Check? || a.RemoveOld? || a.Crash?)
    ensures ApplyInv(Do(n, a))
  {
    hide LastState, EntriesOf, Append;
    match a
    case Check => LatestGrows(n.disk.snaps, n.mem.applied, n.mem.store);
    case RemoveOld(i) =>
      LatestSurvivesRemoval(n.disk.snaps.Keys, i);
      assert Do(n, a).disk.snaps.Keys == n.disk.snaps.Keys - {i};
    case Crash => assert IsLatest(n.disk.snaps.Keys, Latest(n.disk.snaps.Keys));
  }

  lemma {:induction false} ApplyRun(n: Node, acts: seq<Action>)
    requires ApplyInv(n) && Legal(n, acts)
    ensures ApplyInv(Exec(n, acts))
    decreases |acts|
  {
    hide ApplyInv, Enabled, Do;
    if acts != [] {
      ApplyStep(n, acts[0]);
      ApplyRun(Do(n, acts[0]), acts[1..]);
    }
  }

  /** Between Readys the lag is below the interval. */
  ghost predicate LagBound(n: Node) {
    n.pc.Idle? && n.interval >= 1 ==> n.mem.applied - n.mem.snapIndex < n.interval
  }

  lemma LagStep(n: Node, a: Action)
    requires ApplyInv(n) && LagBound(n) && Enabled(n, a) && !a.SnapshotFails? && !a.ReopenFails?
    ensures LagBound(Do(n, a))
  {
    hide LastState, EntriesOf, Append, Above, SaveRecords, CompactFile, LibraryReady;
  }

  /** No snapshot, compaction or reopen fails. */
  ghost predicate NoSnapshotFailure(acts: seq<Action>) {
    forall a :: a in acts ==> !a.SnapshotFails? && !a.ReopenFails?
  }

  lemma {:induction false} LagRun(n: Node, acts: seq<Action>)
    requires ApplyInv(n) && LagBound(n) && Legal(n, acts) && NoSnapshotFailure(acts)
    ensures LagBound(Exec(n, acts))
    decreases |acts|
  {
    hide ApplyInv, LagBound, Enabled, Do;
    if acts != [] {
      assert acts[0] in acts && forall a :: a in acts[1..] ==> a in acts;
      ApplyStep(n, acts[0]);
      LagStep(n, acts[0]);
      LagRun(Do(n, acts[0]), acts[1..]);
    }
  }

  /** The snapshot index never passes the applied index, so the unsigned difference is the true lag in every state of
      every run; as long as no snapshot fails, that lag is below the interval between Readys. */
  lemma SnapshotLag(interval: nat, acts: seq<Action>)
    requires Legal(Init(interval), acts)
    ensures
      var n := Exec(Init(interval), acts);
      && n.mem.snapIndex <= n.mem.applied
      && Sub64(n.mem.applied, n.mem.snapIndex) == n.mem.applied - n.mem.snapIndex
      && (NoSnapshotFailure(acts) && n.pc.Idle? && interval >= 1 ==> n.mem.applied - n.mem.snapIndex < interval)
  {
    ApplyRun(Init(interval), acts);
    IntervalConstant(Init(interval), acts);
    if NoSnapshotFailure(acts) {
      LagRun(Init(interval), acts);
    }
  }

  /** A snapshot is due exactly when the applied index is at least the interval past the snapshot index. */
  lemma SnapshotExactly(interval: nat, acts: seq<Action>)
    requires Legal(Init(interval), acts) && Enabled(Exec(Init(interval), acts), Check)
    ensures
      var n := Exec(Init(interval), acts);
      var n' := Do(n, Check);
      if n.mem.applied >= n.mem.snapIndex + interval
      then n'.disk == n.disk.(snaps := n.disk.snaps[n.mem.applied := n.mem.store]) && !n'.pc.Idle?
      else n'.disk == n.disk && n'.pc.Idle?
  {
    ApplyRun(Init(interval), acts);
    IntervalConstant(Init(interval), acts);
    hide Legal, Exec;
  }

  lemma {:induction false} IntervalConstant(n: Node, acts: seq<Action>)
    requires Legal(n, acts)
    ensures Exec(n, acts).interval == n.interval
    decreases |acts|
  {
    if acts != [] {
      IntervalConstant(Do(n, acts[0]), acts[1..]);
    }
  }

  // ---------------------------------------------------------------- hard states

  /** The hard state a crash now would recover is at least as new as the one behind every message sent. */
  ghost predicate StatesHonoured(n: Node) {
    forall p :: p in n.sent ==> Follows(p.hs, LastState(n.disk.wal))
  }

  /** The same at every point of a run. */
  ghost predicate AlwaysHonoured(n: Node, acts: seq<Action>)
    requires Legal(n, acts)
    decreases |acts|
  {
    StatesHonoured(n) && (acts != [] ==> AlwaysHonoured(Do(n, acts[0]), acts[1..]))
  }

  /** A Save that fails at the record of a new hard state. */
  ghost predicate LosesState(n: Node, a: Action) {
    a.SaveFails? && a.k == 0 && NewState(n.mem.hardState, a.rd.hs)
  }

  /** No such failure is followed by sending the messages of that Ready. */
  ghost predicate NeverForgets(n: Node, acts: seq<Action>)
    requires Legal(n, acts)
    decreases |acts|
  {
    acts != [] ==>
      && !(LosesState(n, acts[0]) && |acts| > 1 && acts[1].Send?)
      && NeverForgets(Do(n, acts[0]), acts[1..])
  }

  /** Promises were made in the order of their hard states. */
  ghost predicate InOrder(sent: seq<Promise>) {
    forall i, j :: 0 <= i < j < |sent| ==> Follows(sent[i].hs, sent[j].hs)
  }

  /** The hard state on disk is the one in memory. */
  ghost predicate SameState(n: Node) {
    LastState(n.disk.wal) == n.mem.hardState
  }

  ghost predicate StateInv(n: Node) {
    SameState(n) && StatesHonoured(n) && InOrder(n.sent)
  }

  /** The hard state of the Ready in hand is already in force. */
  ghost predicate InForce(n: Node) {
    match n.pc
    case Saving(rd, k) => Effective(n.mem.hardState, rd.hs) == n.mem.hardState
    case Saved(rd) => Effective(n.mem.hardState, rd.hs) == n.mem.hardState
    case _ => true
  }

  lemma FollowsTransitive(a: HardState, b: HardState, c: HardState)
    requires Follows(a, b) && Follows(b, c)
    ensures Follows(a, c)
  {
  }

  lemma FollowsAntisymmetric(a: HardState, b: HardState)
    requires Follows(a, b) && Follows(b, a)
    ensures a == b
  {
  }

  /** Whatever is written next, the promises stay honoured if the last hard state on disk only moves forward. */
  lemma StillHonoured(n: Node, n': Node)
    requires StatesHonoured(n) && n'.sent == n.sent && Follows(LastState(n.disk.wal), LastState(n'.disk.wal))
    ensures StatesHonoured(n')
  {
    forall p | p in n'.sent ensures Follows(p.hs, LastState(n'.disk.wal)) {
      FollowsTransitive(p.hs, LastState(n.disk.wal), LastState(n'.disk.wal));
    }
  }

  /** How many entries are among the first k records of a Save. */
  function EntriesWritten(cur: HardState, hs: HardState, k: nat): nat {
    if NewState(cur, hs) && k > 0 then k - 1 else k
  }

  /** Reading back the first k records of a Save: its hard state, if that is new and k > 0, and its first entries. */
  lemma SaveReadsBackAt(rs: seq<Record>, cur: HardState, hs: HardState, es: seq<Entry>, k: nat)
    requires LastState(rs) == cur && k <= |SaveRecords(cur, hs, es)|
    ensures
      var now := rs + SaveRecords(cur, hs, es)[..k];
      && LastState(now) == (if NewState(cur, hs) && k > 0 then hs else cur)
      && EntriesWritten(cur, hs, k) <= |es| && EntriesOf(now) == EntriesOf(rs) + es[..EntriesWritten(cur, hs, k)]
  {
    hide EntriesOf, LastState, EntryRecords, SaveRecords;
    var head: seq<Record> := [StateRecord(hs)];
    PartialSave(rs, cur, hs, es, 0);
    var some := es[..EntriesWritten(cur, hs, k)];
    if k == 0 {
      assert rs + SaveRecords(cur, hs, es)[..0] == rs && EntriesOf(rs) + es[..0] == EntriesOf(rs);
    } else {
      PartialSave(rs, cur, hs, es, EntriesWritten(cur, hs, k));
      ReadBackOne(rs, StateRecord(hs));
      ReadBackEntries(if NewState(cur, hs) then rs + head else rs, some);
      assert rs + [] == rs;
    }
  }

  lemma SendState(n: Node)
    requires StateInv(n) && InForce(n) && Enabled(n, Send)
    ensures StateInv(Do(n, Send)) && InForce(Do(n, Send))
  {
    hide LastState;
    var n' := Do(n, Send);
    var p := n'.sent[|n.sent|];
    assert n'.sent == n.sent + [p] && p.hs == n.mem.hardState;
    forall i | 0 <= i < |n.sent| ensures Follows(n.sent[i].hs, p.hs) {
      assert n.sent[i] in n.sent;
    }
  }

  /** Every action keeps disk and memory on the same hard state, a failed Save included. */
  lemma SameStateStep(n: Node, a: Action)
    requires SameState(n) && Enabled(n, a)
    ensures SameState(Do(n, a))
  {
    match a
    case Begin(rd) => ReadBackOne(n.disk.wal, StateRecord(rd.hs));
    case WriteEntry => ReadBackOne(n.disk.wal, EntryRecord(n.pc.rd.entries[n.pc.written]));
    case SaveFails(rd, k) => SaveReadsBackAt(n.disk.wal, n.mem.hardState, rd.hs, rd.entries, k);
    case ReplaceWal => CompactReadsBack(n.mem.hardState, Above(n.mem.entries, n.mem.applied));
    case _ => hide LastState, EntriesOf, Append, Above, Latest;
  }

  lemma {:induction false} SameStateRun(n: Node, acts: seq<Action>)
    requires SameState(n) && Legal(n, acts)
    ensures SameState(Exec(n, acts))
    decreases |acts|
  {
    hide SameState, Enabled, Do;
    if acts != [] {
      SameStateStep(n, acts[0]);
      SameStateRun(Do(n, acts[0]), acts[1..]);
    }
  }

  lemma WriteState(n: Node, a: Action)
    requires StateInv(n) && Enabled(n, a) && (a.Begin? || a.WriteEntry? || a.SaveFails? || a.ReplaceWal?)
    ensures StateInv(Do(n, a))
    ensures InForce(n) && !LosesState(n, a) ==> InForce(Do(n, a))
  {
    SameStateStep(n, a);
    hide LastState, EntriesOf, Append, Above, CompactFile, SaveRecords;
    StillHonoured(n, Do(n, a));
  }

  lemma StateStep(n: Node, a: Action)
    requires StateInv(n) && InForce(n) && Enabled(n, a)
    ensures StateInv(Do(n, a))
    ensures !LosesState(n, a) ==> InForce(Do(n, a))
  {
    if a.Begin? || a.WriteEntry? || a.SaveFails? || a.ReplaceWal? {
      WriteState(n, a);
    } else if a.Send? {
      SendState(n);
    } else {
      hide LastState, EntriesOf, Append, Above, Latest;
      assert Do(n, a).disk.wal == n.disk.wal && Do(n, a).sent == n.sent;
    }
  }

  /** After a Save that lost its state record, the loop sends or the process dies. */
  lemma AfterLoss(n: Node, a: Action, b: Action)
    requires StateInv(n) && InForce(n) && Enabled(n, a) && LosesState(n, a)
    requires Enabled(Do(n, a), b)
    ensures b.Send? || b.Crash?
    ensures StateInv(Do(n, a))
    ensures b.Crash? ==> StateInv(Do(Do(n, a), b)) && InForce(Do(Do(n, a), b))
    ensures b.Send? ==> !StatesHonoured(Do(Do(n, a), b))
  {
    WriteState(n, a);
    var n1 := Do(n, a);
    var n2 := Do(n1, b);
    hide LastState, EntriesOf, Append, Above, Latest;
    if b.Send? {
      var p := n2.sent[|n1.sent|];
      assert p in n2.sent && p.hs == a.rd.hs;
      if Follows(p.hs, LastState(n2.disk.wal)) {
        FollowsAntisymmetric(p.hs, n.mem.hardState);
      }
    }
  }

  lemma {:induction false} HonouredExactly(n: Node, acts: seq<Action>)
    requires StateInv(n) && InForce(n) && Legal(n, acts)
    ensures AlwaysHonoured(n, acts) <==> NeverForgets(n, acts)
    ensures NeverForgets(n, acts) ==> StateInv(Exec(n, acts))
    decreases |acts|
  {
    if acts != [] {
      var n1 := Do(n, acts[0]);
      StateStep(n, acts[0]);
      if !LosesState(n, acts[0]) {
        hide Enabled, Do, LosesState, InForce;
        HonouredExactly(n1, acts[1..]);
      } else if |acts| > 1 {
        AfterLoss(n, acts[0], acts[1]);
        hide Enabled, Do, InForce;
        var n2 := Do(n1, acts[1]);
        assert acts[1..][0] == acts[1] && acts[1..][1..] == acts[2..];
        assert AlwaysHonoured(n1, acts[1..]) <==> StatesHonoured(n1) && AlwaysHonoured(n2, acts[2..]);
        if acts[1].Crash? {
          HonouredExactly(n2, acts[2..]);
          assert NeverForgets(n1, acts[1..]) <==> NeverForgets(n2, acts[2..]);
          assert Exec(n1, acts[1..]) == Exec(n2, acts[2..]);
        } else {
          assert !AlwaysHonoured(n2, acts[2..]);
        }
      }
    }
  }

  lemma InitState(interval: nat)
    ensures StateInv(Init(interval)) && InForce(Init(interval)) && ApplyInv(Init(interval))
  {
  }

  /** Exactly when the hard states behind the messages survive. For every run, failed Saves included: at every point a
      crash would recover a hard state at least as new as the one behind each message sent, if and only if no Save that
      failed at the record of a new hard state was followed by the sending of its messages. */
  lemma StatesHonouredExactly(interval: nat, acts: seq<Action>)
    requires Legal(Init(interval), acts)
    ensures AlwaysHonoured(Init(interval), acts) <==> NeverForgets(Init(interval), acts)
  {
    InitState(interval);
    HonouredExactly(Init(interval), acts);
  }

  /** No such node ever lets out two different votes for one term, crashes or not. */
  lemma OneVotePerTerm(interval: nat, acts: seq<Action>, p: Promise, q: Promise)
    requires Legal(Init(interval), acts) && NeverForgets(Init(interval), acts)
    requires p in Exec(Init(interval), acts).sent && q in Exec(Init(interval), acts).sent
    requires p.hs.term == q.hs.term && p.hs.vote != 0 && q.hs.vote != 0
    ensures p.hs.vote == q.hs.vote
  {
    InitState(interval);
    HonouredExactly(Init(interval), acts);
    var sent := Exec(Init(interval), acts).sent;
    var i :| 0 <= i < |sent| && sent[i] == p;
    var j :| 0 <= j < |sent| && sent[j] == q;
    assert InOrder(sent);
    if i < j {
      assert Follows(sent[i].hs, sent[j].hs);
    } else if j < i {
      assert Follows(sent[j].hs, sent[i].hs);
    }
  }

  lemma {:induction false} SuccessNeverForgets(n: Node, acts: seq<Action>)
    requires Legal(n, acts) && NoSaveFailure(acts)
    ensures NeverForgets(n, acts)
    decreases |acts|
  {
    hide Enabled, Do;
    if acts != [] {
      assert acts[0] in acts && forall a :: a in acts[1..] ==> a in acts;
      SuccessNeverForgets(Do(n, acts[0]), acts[1..]);
    }
  }

  // ---------------------------------------------------------------- entries

  /** e is on disk: a WAL record, or below a snapshot. Whether a restart also finds it there is another matter. */
  ghost predicate Kept(d: Disk, e: Entry) {
    e in EntriesOf(d.wal) || e.index <= Latest(d.snaps.Keys)
  }

  ghost predicate KeptAll(d: Disk, es: seq<Entry>) {
    forall e :: e in es ==> Kept(d, e)
  }

  ghost predicate SentKept(d: Disk, sent: seq<Promise>) {
    forall p :: p in sent ==> KeptAll(d, p.entries)
  }

  /** What the WAL's entries are, given the mirror in memory, at each point of the loop. */
  ghost function OnFile(n: Node): seq<Entry> {
    if n.mem.closed then Above(n.mem.entries, n.mem.applied)
    else match n.pc {
      case Saving(rd, k) => n.mem.entries + (if k <= |rd.entries| then rd.entries[..k] else [])
      case WalReplaced => Above(n.mem.entries, n.mem.applied)
      case _ => n.mem.entries
    }
  }

  ghost predicate EntryInv(n: Node) {
    && EntriesOf(n.disk.wal) == OnFile(n)
    && (n.mem.closed ==> n.pc.Idle?)
    && (n.pc.Saving? ==> n.pc.written <= |n.pc.rd.entries|)
    && (n.pc.Saved? ==> forall e :: e in n.pc.rd.entries ==> e in n.mem.entries)
    && SentKept(n.disk, n.sent)
  }

  /** A disk that keeps at least as much keeps what was sent. */
  lemma KeptMonotone(d: Disk, d': Disk, sent: seq<Promise>)
    requires SentKept(d, sent)
    requires forall e :: Kept(d, e) ==> Kept(d', e)
    ensures SentKept(d', sent)
  {
    forall p | p in sent ensures KeptAll(d', p.entries) {
      assert KeptAll(d, p.entries);
    }
  }

  lemma {:induction false} AboveMembers(es: seq<Entry>, c: nat, e: Entry)
    requires e in es && e.index > c
    ensures e in Above(es, c)
  {
    if e != es[|es| - 1] {
      AboveMembers(es[..|es| - 1], c, e);
    }
  }

  lemma BeginEntries(n: Node, rd: Ready)
    requires EntryInv(n) && Enabled(n, Begin(rd))
    ensures EntryInv(Do(n, Begin(rd)))
  {
    ReadBackOne(n.disk.wal, StateRecord(rd.hs));
    hide LastState, EntriesOf, Append, Latest, SentKept, LibraryReady;
    assert rd.entries[..0] == [];
    KeptMonotone(n.disk, Do(n, Begin(rd)).disk, n.sent);
  }

  lemma WriteEntries(n: Node)
    requires EntryInv(n) && Enabled(n, WriteEntry)
    ensures EntryInv(Do(n, WriteEntry))
  {
    var rd, k := n.pc.rd, n.pc.written;
    ReadBackOne(n.disk.wal, EntryRecord(rd.entries[k]));
    hide LastState, EntriesOf, Append, Latest, SentKept;
    assert rd.entries[..k + 1] == rd.entries[..k] + [rd.entries[k]];
    KeptMonotone(n.disk, Do(n, WriteEntry).disk, n.sent);
  }

  lemma EndSaveEntries(n: Node)
    requires EntryInv(n) && Enabled(n, EndSave)
    ensures EntryInv(Do(n, EndSave))
  {
    hide LastState, EntriesOf, Append, Latest, SentKept;
    assert n.pc.rd.entries[..n.pc.written] == n.pc.rd.entries;
  }

  lemma SendEntries(n: Node)
    requires EntryInv(n) && Enabled(n, Send)
    ensures EntryInv(Do(n, Send))
  {
    hide LastState, EntriesOf;
    var n' := Do(n, Send);
    var p := n'.sent[|n.sent|];
    assert n'.sent == n.sent + [p];
    assert KeptAll(n.disk, p.entries);
  }

  lemma SnapshotEntries(n: Node, a: Action)
    requires EntryInv(n) && Enabled(n, a) && (a.Check? || a.RemoveOld?)
    ensures EntryInv(Do(n, a))
  {
    hide LastState, EntriesOf;
    var n' := Do(n, a);
    if a.Check? {
      LatestGrows(n.disk.snaps, n.mem.applied, n.mem.store);
    } else {
      LatestSurvivesRemoval(n.disk.snaps.Keys, a.i);
      assert n'.disk.snaps.Keys == n.disk.snaps.Keys - {a.i};
    }
    KeptMonotone(n.disk, n'.disk, n.sent);
  }

  lemma ReplaceWalEntries(n: Node)
    requires ApplyInv(n) && EntryInv(n) && Enabled(n, ReplaceWal)
    ensures EntryInv(Do(n, ReplaceWal))
  {
    var n' := Do(n, ReplaceWal);
    CompactReadsBack(n.mem.hardState, Above(n.mem.entries, n.mem.applied));
    hide LastState, EntriesOf, CompactFile;
    forall e | Kept(n.disk, e) ensures Kept(n'.disk, e) {
      if e in n.mem.entries && e.index > n.mem.applied {
        AboveMembers(n.mem.entries, n.mem.applied, e);
      }
    }
    KeptMonotone(n.disk, n'.disk, n.sent);
  }

  lemma EntryStep(n: Node, a: Action)
    requires ApplyInv(n) && EntryInv(n) && Enabled(n, a) && !a.SaveFails?
    ensures EntryInv(Do(n, a))
  {
    if a.Begin? {
      BeginEntries(n, a.rd);
    } else if a.WriteEntry? {
      WriteEntries(n);
    } else if a.EndSave? {
      EndSaveEntries(n);
    } else if a.Send? {
      SendEntries(n);
    } else if a.Check? || a.RemoveOld? {
      SnapshotEntries(n, a);
    } else if a.ReplaceWal? {
      ReplaceWalEntries(n);
    } else {
      hide LastState, EntriesOf, Append, Above, Latest, SentKept, ApplyInv;
    }
  }

  // ---------------------------------------------------------------- all three together

  ghost predicate Inv(n: Node) {
    ApplyInv(n) && StateInv(n) && InForce(n) && EntryInv(n)
  }

  lemma StepKeeps(n: Node, a: Action)
    requires Inv(n) && Enabled(n, a) && !a.SaveFails?
    ensures Inv(Do(n, a))
  {
    hide ApplyInv, StateInv, InForce, EntryInv, Enabled, Do;
    ApplyStep(n, a);
    StateStep(n, a);
    EntryStep(n, a);
  }

  lemma {:induction false} RunKeeps(n: Node, acts: seq<Action>)
    requires Inv(n) && Legal(n, acts) && NoSaveFailure(acts)
    ensures Inv(Exec(n, acts))
    decreases |acts|
  {
    hide Inv, Enabled, Do;
    if acts != [] {
      assert acts[0] in acts && forall a :: a in acts[1..] ==> a in acts;
      StepKeeps(n, acts[0]);
      RunKeeps(Do(n, acts[0]), acts[1..]);
    }
  }

  lemma InitInv(interval: nat)
    ensures Inv(Init(interval))
  {
    InitState(interval);
  }

  /** At every point of every run in which Saves succeed, whatever peers send and however often the node crashed:
      the hard state on disk is at least as new as the one behind any message already sent, and every entry of an
      already sent Ready is on disk, as a WAL record or below a snapshot. */
  lemma PersistBeforeSend(interval: nat, acts: seq<Action>)
    requires Legal(Init(interval), acts) && NoSaveFailure(acts)
    ensures
      var n := Exec(Init(interval), acts);
      forall p :: p in n.sent ==> Follows(p.hs, LastState(n.disk.wal)) && KeptAll(n.disk, p.entries)
  {
    InitInv(interval);
    RunKeeps(Init(interval), acts);
  }
}
