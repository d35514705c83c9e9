/** What a restart finds again in runs that overwrite entries, install snapshots sent by peers and crash anywhere:
    exactly which sent entries, exactly which peer snapshots, and exactly when the whole log. */
module Restarts {
  import opened Types
  import opened Wal
  import opened Replay
  import opened Snapshots
  import opened Durable
  import opened Persistence
  import opened Recovery
  import opened RaftNode

  // ---------------------------------------------------------------- sent entries

  /** A restart now would have e at its own index, or a snapshot in its place. */
  ghost predicate RecoversEntry(d: Disk, e: Entry) {
    Recover(d).Some? && Holds(Recover(d).value.storage, e)
  }

  /** The condition on the disk: Start comes up, and the newest snapshot covers e or e has a record in place. */
  ghost predicate Findable(d: Disk, e: Entry) {
    var es, s := EntriesOf(d.wal), Latest(d.snaps.Keys);
    Starts(es, s) && (e.index <= s || exists k: nat :: InPlace(es, s, k) && es[k] == e)
  }

  lemma RecoverOnDisk(n: Node)
    requires ApplyInv(n)
    ensures
      var es, s := EntriesOf(n.disk.wal), Latest(n.disk.snaps.Keys);
      && (Recover(n.disk).Some? <==> Starts(es, s))
      && (Starts(es, s) ==> Recover(n.disk).value.storage == MemoryStorage(s, Restored(es, s))
                            && Recover(n.disk).value.applied == s)
  {
    hide EntriesOf, LastState, Starts, Restored;
    assert IsLatest(n.disk.snaps.Keys, Latest(n.disk.snaps.Keys));
    RestartOfAny(EntriesOf(n.disk.wal), Latest(n.disk.snaps.Keys));
  }

  /** Every entry behind a sent message is on disk, but a restart counts records instead of reading their indices.
      For every run whose Saves succeed, a sent entry is recovered if and only if it is findable. */
  lemma SentEntryExactly(interval: nat, acts: seq<Action>, p: Promise, e: Entry)
    requires Legal(Init(interval), acts) && NoSaveFailure(acts)
    requires p in Exec(Init(interval), acts).sent && e in p.entries
    ensures RecoversEntry(Exec(Init(interval), acts).disk, e) <==> Findable(Exec(Init(interval), acts).disk, e)
  {
    var n := Exec(Init(interval), acts);
    InitInv(interval);
    RunKeeps(Init(interval), acts);
    PersistBeforeSend(interval, acts);
    assert KeptAll(n.disk, p.entries) && Kept(n.disk, e);
    hide Exec, Legal, EntriesOf, LastState, Starts, Restored, Latest, Holds;
    RecoverOnDisk(n);
    RestartHolds(EntriesOf(n.disk.wal), Latest(n.disk.snaps.Keys), e);
    RestartOfAny(EntriesOf(n.disk.wal), Latest(n.disk.snaps.Keys));
  }

  /** In runs of contiguous batches without peer snapshots a restart recovers every entry ever sent. */
  lemma PlainSentRecovered(interval: nat, acts: seq<Action>, p: Promise, e: Entry)
    requires Legal(Init(interval), acts) && PlainRun(Init(interval), acts)
    requires p in Exec(Init(interval), acts).sent && e in p.entries
    ensures RecoversEntry(Exec(Init(interval), acts).disk, e)
  {
    InitInv(interval);
    InitLog(interval);
    RunKeepsLog(Init(interval), acts);
    hide Exec, Legal, ApplyInv, StateInv, InForce, LogInv;
    assert Kept(Exec(Init(interval), acts).disk, e);
    KeptIsRecovered(Exec(Init(interval), acts), e);
  }

  lemma HeldInSuffix(h: seq<Entry>, cut: nat, base: nat, e: Entry)
    requires Numbered(h) && cut <= base <= |h| && e in h[cut..]
    ensures Holds(MemoryStorage(base, h[base..]), e)
  {
    var k :| 0 <= k < |h[cut..]| && h[cut..][k] == e;
    assert h[cut + k] == e && e.index == cut + k + 1;
  }

  lemma KeptIsRecovered(n: Node, e: Entry)
    requires Inv(n) && LogInv(n) && Kept(n.disk, e)
    ensures RecoversEntry(n.disk, e)
  {
    RecoveredMemory(n);
    hide Inv, EntriesOf, LastState, Latest, Recover, MemoryRight, BatchRight, SnapsRight, StateAt, Numbered, Holds;
    var base := Latest(n.disk.snaps.Keys);
    if e in EntriesOf(n.disk.wal) {
      HeldInSuffix(n.history, n.cut, base, e);
    } else {
      CoveredIsHeld(MemoryStorage(base, n.history[base..]), e);
    }
  }

  lemma CoveredIsHeld(ms: MemoryStorage, e: Entry)
    requires e.index <= ms.offset
    ensures Holds(ms, e)
  {
  }

  // One entry, a peer's snapshot at 3, then entries 4 and 5 of which 4 is committed.

  const FINE := Faults(9, true, AllWell, None)
  const E1 := Entry(1, 1, Blank)
  const E4 := Entry(4, 1, Blank)
  const E5 := Entry(5, 1, Blank)
  const READY_A := Ready(EMPTY_STATE, [E1], None, [])
  const READY_B := Ready(EMPTY_STATE, [], Some(Snapshot(3, map[])), [])
  const READY_C := Ready(HardState(1, 0, 4), [E4, E5], None, [E4])

  const NODE_A := Node(Disk([EntryRecord(E1)], map[]),
                       Memory(EMPTY_STATE, [E1], MemoryStorage(0, [E1]), map[], 0, 0, false),
                       Idle, 1, [E1], 0, [Promise(EMPTY_STATE, [E1])], 0)
  const NODE_B := NODE_A.(mem := NODE_A.mem.(storage := MemoryStorage(3, []), applied := 3, snapIndex := 3),
                          sent := NODE_A.sent + [Promise(EMPTY_STATE, [])])
  const NODE_C := Node(Disk([EntryRecord(E1), StateRecord(READY_C.hs), EntryRecord(E4), EntryRecord(E5)], map[]),
                       Memory(READY_C.hs, [E1, E4, E5], MemoryStorage(3, [E4, E5]), map[], 3, 3, false),
                       Applying(READY_C, 0), 1, [E1, E4, E5], 0, NODE_B.sent + [Promise(READY_C.hs, [E4, E5])], 0)

  lemma DropA()
    ensures Fits(Init(1).mem, READY_A) && AfterReady(Init(1), READY_A, FINE) == NODE_A
    ensures FirstAction(Init(1).mem, READY_A, FINE) == Begin(READY_A)
  {
    var none: seq<Entry> := [];
    assert none[..0] + [E1] == [E1];
    assert AfterSave(Init(1), READY_A).disk.wal == [EntryRecord(E1)];
  }

  lemma DropB()
    ensures Fits(NODE_A.mem, READY_B) && AfterReady(NODE_A, READY_B, FINE) == NODE_B
    ensures FirstAction(NODE_A.mem, READY_B, FINE) == Begin(READY_B)
  {
    assert AfterSave(NODE_A, READY_B).disk.wal == NODE_A.disk.wal;
  }

  lemma DropC()
    ensures Fits(NODE_B.mem, READY_C) && AfterSend(NODE_B, READY_C, FINE) == NODE_C
    ensures FirstAction(NODE_B.mem, READY_C, FINE) == Begin(READY_C)
  {
    var none: seq<Entry> := [];
    assert none[..0] + [E4, E5] == [E4, E5];
    assert AfterSave(NODE_B, READY_C).disk.wal == NODE_C.disk.wal;
    assert AfterSave(NODE_B, READY_C).mem.entries == NODE_C.mem.entries;
  }

  /** The records of NODE_C with a snapshot at 4 count as covered: 1, 4, 5 are three records from index 1. */
  lemma DropRecovered(d: Disk)
    requires d.wal == NODE_C.disk.wal && d.snaps.Keys == {4}
    ensures Recover(d).Some? && Recover(d).value.storage == MemoryStorage(4, []) && EntriesOf(d.wal) == [E1, E4, E5]
  {
    var s: seq<Record> := [EntryRecord(E1), StateRecord(READY_C.hs)];
    ReadBackOne([], s[0]);
    ReadBackOne([s[0]], s[1]);
    ReadBackEntries(s, [E4, E5]);
    assert [] + [s[0]] == [s[0]] && [s[0]] + [s[1]] == s;
    assert d.wal == s + EntryRecords([E4, E5]);
    LatestUnique(d.snaps.Keys, 4);
  }

  const NODE_D := NODE_C.(disk := NODE_C.disk.(snaps := map[4 := map[]]), mem := NODE_C.mem.(applied := 4),
                          acked := 4, pc := SnapWritten)

  lemma DropEnd()
    ensures Runs(NODE_C, [ApplyNext] + [Check], NODE_D)
  {
    var last := Do(NODE_C, ApplyNext);
    OneAction(NODE_C, ApplyNext);
    OneAction(last, Check);
    assert Do(last, Check) == NODE_D;
    hide Runs;
    Compose(NODE_C, [ApplyNext], last, [Check], NODE_D);
  }

  lemma BothSuccessful(a: seq<Action>, b: seq<Action>)
    requires NoSaveFailure(a) && NoSaveFailure(b)
    ensures NoSaveFailure(a + b)
  {
  }

  /** An entry sent and then dropped, every Save having succeeded. With one old record in front, the records after a
      peer's snapshot are counted from the wrong index: a crash between the next local snapshot and the compaction
      leaves entry 5 in the WAL, and the restart takes it to be covered. */
  lemma SentEntryDropped() returns (acts: seq<Action>)
    ensures Runs(Init(1), acts, NODE_D) && NoSaveFailure(acts)
    ensures (exists p :: p in NODE_D.sent && E5 in p.entries) && E5 in EntriesOf(NODE_D.disk.wal)
    ensures Recover(NODE_D.disk).Some? && Recover(NODE_D.disk).value.storage == MemoryStorage(4, [])
  {
    DropA();
    DropB();
    DropC();
    DropEnd();
    DropRecovered(NODE_D.disk);
    assert NODE_D.sent[2] in NODE_D.sent && E5 in NODE_D.sent[2].entries;
    assert NoSaveFailure([ApplyNext] + [Check]);
    hide *;
    var a := ReadyPath(Init(1), READY_A, FINE);
    var b := ReadyPath(NODE_A, READY_B, FINE);
    var c := SendPath(NODE_B, READY_C, FINE);
    Successful(READY_A, a);
    Successful(READY_B, b);
    Successful(READY_C, c);
    a, b, c := [Begin(READY_A)] + a, [Begin(READY_B)] + b, [Begin(READY_C)] + c;
    Compose(Init(1), a, NODE_A, b, NODE_B);
    Compose(Init(1), a + b, NODE_B, c, NODE_C);
    Compose(Init(1), a + b + c, NODE_C, [ApplyNext] + [Check], NODE_D);
    acts := a + b + c + ([ApplyNext] + [Check]);
    BothSuccessful(a, b);
    BothSuccessful(a + b, c);
    BothSuccessful(a + b + c, [ApplyNext] + [Check]);
  }

  // ---------------------------------------------------------------- peer snapshots

  /** Somewhere in the run a local snapshot is written at index i or above. */
  ghost predicate SavesAtLeast(n: Node, acts: seq<Action>, i: nat)
    requires Legal(n, acts)
    decreases |acts|
  {
    acts != [] &&
    ((acts[0].Check? && NeedsSnapshot(n) && n.mem.applied >= i) || SavesAtLeast(Do(n, acts[0]), acts[1..], i))
  }

  lemma LatestStep(n: Node, a: Action, i: nat)
    requires ApplyInv(n) && Enabled(n, a)
    ensures
      Latest(Do(n, a).disk.snaps.Keys) >= i <==>
      Latest(n.disk.snaps.Keys) >= i || (a.Check? && NeedsSnapshot(n) && n.mem.applied >= i)
  {
    hide LastState, EntriesOf, Append, Above, CompactFile, SaveRecords, LibraryReady;
    if a.Check? && NeedsSnapshot(n) {
      LatestGrows(n.disk.snaps, n.mem.applied, n.mem.store);
      var keys := n.disk.snaps[n.mem.applied := n.mem.store].Keys;
      assert IsLatest(keys, Latest(keys)) && IsLatest(n.disk.snaps.Keys, Latest(n.disk.snaps.Keys));
    } else if a.RemoveOld? {
      LatestSurvivesRemoval(n.disk.snaps.Keys, a.i);
      assert Do(n, a).disk.snaps.Keys == n.disk.snaps.Keys - {a.i};
    }
  }

  lemma {:induction false} LatestReaches(n: Node, acts: seq<Action>, i: nat)
    requires ApplyInv(n) && Legal(n, acts)
    ensures Latest(Exec(n, acts).disk.snaps.Keys) >= i <==> Latest(n.disk.snaps.Keys) >= i || SavesAtLeast(n, acts, i)
    decreases |acts|
  {
    hide ApplyInv, Enabled, Do, NeedsSnapshot;
    if acts != [] {
      LatestStep(n, acts[0], i);
      ApplyStep(n, acts[0]);
      LatestReaches(Do(n, acts[0]), acts[1..], i);
    }
  }

  lemma InstallIsAhead(n: Node, s: Snapshot)
    requires ApplyInv(n) && n.pc.Saved? && n.pc.rd.snapshot == Some(s)
    ensures Latest(Do(n, Send).disk.snaps.Keys) < s.index
  {
    assert IsLatest(n.disk.snaps.Keys, Latest(n.disk.snaps.Keys));
  }

  /** Exactly when a snapshot sent by a peer is durable. In every run whatever, failed Saves included, and for every
      snapshot installed in it: a restart at a later point comes up at or past the snapshot's index if and only if a
      local snapshot at or above that index has been written since, and the WAL then lets Start come up at all. */
  lemma PeerSnapshotDurableExactly(interval: nat, before: seq<Action>, s: Snapshot, after: seq<Action>)
    requires Legal(Init(interval), before)
    requires
      var n := Exec(Init(interval), before);
      n.pc.Saved? && n.pc.rd.snapshot == Some(s) && Legal(Do(n, Send), after)
    ensures
      var n := Do(Exec(Init(interval), before), Send);
      var n' := Exec(n, after);
      && (Latest(n'.disk.snaps.Keys) >= s.index <==> SavesAtLeast(n, after, s.index))
      && (Recover(n'.disk).Some? && Recover(n'.disk).value.applied >= s.index <==>
            SavesAtLeast(n, after, s.index) && Starts(EntriesOf(n'.disk.wal), Latest(n'.disk.snaps.Keys)))
  {
    var n0 := Exec(Init(interval), before);
    InitState(interval);
    ApplyRun(Init(interval), before);
    InstallIsAhead(n0, s);
    ApplyStep(n0, Send);
    hide ApplyInv, Do, Legal, Exec, Starts, Recover, EntriesOf, Latest;
    ApplyRun(Do(n0, Send), after);
    LatestReaches(Do(n0, Send), after, s.index);
    RecoverOnDisk(Exec(Do(n0, Send), after));
  }

  // ---------------------------------------------------------------- the log and the records it came from

  /** The log past index s. */
  function Past(ms: MemoryStorage, s: nat): seq<Entry>
    requires ms.offset <= s
  {
    if s <= LastIndex(ms) then ms.ents[s - ms.offset..] else []
  }

  /** One more entry: it replaces everything from its own index on. */
  function PutLog(ms: MemoryStorage, e: Entry): MemoryStorage
    requires ms.offset < e.index <= LastIndex(ms) + 1
  {
    ms.(ents := ms.ents[..e.index - ms.offset - 1] + [e])
  }

  /** Any run of records above s that reaches from s + 1 to the end of the file is the log past s. */
  ghost predicate Ties(es: seq<Entry>, log: MemoryStorage, lo: nat)
    requires log.offset <= lo
  {
    forall s: nat, t: nat {:trigger Above(es, s)[t..]} ::
      lo <= s < LastIndex(log) && t < |Above(es, s)| && Consecutive(Above(es, s)[t..], s + 1) ==>
      Above(es, s)[t..] == Past(log, s)
  }

  lemma AboveOne(es: seq<Entry>, e: Entry, s: nat)
    ensures Above(es + [e], s) == Above(es, s) + (if e.index > s then [e] else [])
  {
    assert (es + [e])[..|es|] == es;
  }

  /** A run that ends in e: e alone, or a run before it and e next. */
  lemma RunEnds(a: seq<Entry>, e: Entry, t: nat, first: nat)
    requires t <= |a| && Consecutive((a + [e])[t..], first)
    ensures e.index == first + |a| - t
    ensures (a + [e])[t..] == a[t..] + [e] && Consecutive(a[t..], first)
  {
    var r := (a + [e])[t..];
    assert r == a[t..] + [e];
    assert r[|a| - t] == e;
    forall k | 0 <= k < |a[t..]| ensures a[t..][k].index == first + k {
      assert r[k] == a[t..][k];
    }
  }

  lemma {:induction false} TiesPut(es: seq<Entry>, log: MemoryStorage, lo: nat, e: Entry)
    requires log.offset <= lo && Ties(es, log, lo) && log.offset < e.index <= LastIndex(log) + 1
    ensures Ties(es + [e], PutLog(log, e), lo)
  {
    var log' := PutLog(log, e);
    forall s: nat, t: nat | lo <= s < LastIndex(log') && t < |Above(es + [e], s)|
                         && Consecutive(Above(es + [e], s)[t..], s + 1)
      ensures Above(es + [e], s)[t..] == Past(log', s)
    {
      var a := Above(es, s);
      AboveOne(es, e, s);
      RunEnds(a, e, t, s + 1);
      hide Above;
      if t < |a| {
        assert a[t..] == Past(log, s);
        assert log'.ents == log.ents + [e];
      }
    }
  }

  /** A run that reaches the end of the file reaches the end of the log. */
  lemma RunReaches(es: seq<Entry>, log: MemoryStorage, lo: nat, s: nat, t: nat)
    requires log.offset <= lo <= s < LastIndex(log) && Ties(es, log, lo)
    requires t < |Above(es, s)| && Consecutive(Above(es, s)[t..], s + 1)
    ensures |Above(es, s)| - t == LastIndex(log) - s
  {
    hide Above;
    assert Above(es, s)[t..] == Past(log, s);
  }

  lemma GapEndsRuns(es: seq<Entry>, log: MemoryStorage, lo: nat, e: Entry, s: nat, t: nat)
    requires log.offset <= lo <= s < LastIndex(log) && Ties(es, log, lo) && e.index > LastIndex(log) + 1
    requires t < |Above(es + [e], s)|
    ensures !Consecutive(Above(es + [e], s)[t..], s + 1)
  {
    AboveOne(es, e, s);
    hide Above;
    if Consecutive(Above(es + [e], s)[t..], s + 1) {
      RunEnds(Above(es, s), e, t, s + 1);
      if t < |Above(es, s)| {
        RunReaches(es, log, lo, s, t);
      }
    }
  }

  /** A record beyond the log's end ends no such run. */
  lemma {:induction false} TiesGap(es: seq<Entry>, log: MemoryStorage, lo: nat, e: Entry)
    requires log.offset <= lo && Ties(es, log, lo) && e.index > LastIndex(log) + 1
    ensures Ties(es + [e], log, lo)
  {
    forall s: nat, t: nat {:trigger Above(es + [e], s)[t..]} | lo <= s < LastIndex(log) && t < |Above(es + [e], s)|
      ensures !Consecutive(Above(es + [e], s)[t..], s + 1)
    {
      GapEndsRuns(es, log, lo, e, s, t);
    }
    hide Above, Consecutive;
  }

  lemma {:induction false} AboveTwice(es: seq<Entry>, c: nat, s: nat)
    requires c <= s
    ensures Above(Above(es, c), s) == Above(es, s)
  {
    if es != [] {
      var init, e := es[..|es| - 1], es[|es| - 1];
      AboveTwice(init, c, s);
      hide Above;
      assert es == init + [e];
      AboveOne(init, e, c);
      AboveOne(init, e, s);
      if e.index > c {
        AboveOne(Above(init, c), e, s);
      } else {
        assert Above(es, c) == Above(init, c) && Above(es, s) == Above(init, s);
      }
    }
  }

  /** Compaction at or below lo changes nothing above it. */
  lemma {:induction false} TiesCompact(es: seq<Entry>, log: MemoryStorage, lo: nat, c: nat)
    requires log.offset <= lo && Ties(es, log, lo) && c <= lo
    ensures Ties(Above(es, c), log, lo)
  {
    forall s: nat, t: nat | lo <= s < LastIndex(log) && t < |Above(Above(es, c), s)|
                         && Consecutive(Above(Above(es, c), s)[t..], s + 1)
      ensures Above(Above(es, c), s)[t..] == Past(log, s)
    {
      AboveTwice(es, c, s);
      hide Above;
      assert Above(es, s)[t..] == Past(log, s);
    }
  }

  lemma {:induction false} TiesRestart(es: seq<Entry>, log: MemoryStorage, lo: nat)
    requires log.offset <= lo && Ties(es, log, lo)
    ensures Ties(es, MemoryStorage(lo, Past(log, lo)), lo)
  {
    hide Above;
    var log' := MemoryStorage(lo, Past(log, lo));
    forall s: nat, t: nat | lo <= s < LastIndex(log') && t < |Above(es, s)| && Consecutive(Above(es, s)[t..], s + 1)
      ensures Above(es, s)[t..] == Past(log', s)
    {
      assert Above(es, s)[t..] == Past(log, s) == Past(log', s);
    }
  }

  lemma TiesHigher(es: seq<Entry>, log: MemoryStorage, lo: nat, lo': nat)
    requires log.offset <= lo <= lo' && Ties(es, log, lo)
    ensures Ties(es, log, lo')
  {
    hide Above, Past;
  }

  ghost predicate WellNumbered(ms: MemoryStorage) {
    Consecutive(ms.ents, ms.offset + 1)
  }

  /** The stream gives the log back past s, where the log ends at `last`: no record is left over if the log ends there,
      and otherwise every record from the one restored first on is in place. */
  ghost predicate Readable(es: seq<Entry>, s: nat, last: nat) {
    if last <= s then es == [] || es[0].index + |es| - 1 <= s + Skip(es, s)
    else
      && Reaches(es, s) && es[0].index + |es| - 1 > s + Skip(es, s)
      && forall k: nat :: s + 1 - es[0].index + Skip(es, s) <= k < |es| ==> InPlace(es, s, k)
  }

  lemma {:induction false} AboveOfSuffixRun(es: seq<Entry>, p: nat, s: nat)
    requires p <= |es| && Consecutive(es[p..], s + 1)
    ensures |Above(es[..p], s)| <= |Above(es, s)| && Above(es, s)[|Above(es[..p], s)|..] == es[p..]
  {
    assert es == es[..p] + es[p..];
    AboveOfAppend(es[..p], es[p..], s);
    AboveOfRun(es[p..], s + 1, s);
    assert es[p..][0..] == es[p..];
  }

  /** One Append of the stream gives the log past s exactly when the stream is readable. */
  lemma RestartExactly(es: seq<Entry>, log: MemoryStorage, s: nat)
    requires log.offset <= s && WellNumbered(log) && Ties(es, log, s)
    ensures
      Append(MemoryStorage(s, []), es) == Some(MemoryStorage(s, Past(log, s))) <==> Readable(es, s, LastIndex(log))
  {
    RestartOfAny(es, s);
    hide Append;
    if LastIndex(log) > s {
      if Readable(es, s, LastIndex(log)) {
        ReadableGives(es, log, s);
      }
      if Starts(es, s) && Restored(es, s) == Past(log, s) {
        GivesReadable(es, log, s);
      }
    }
  }

  lemma GivesReadable(es: seq<Entry>, log: MemoryStorage, s: nat)
    requires log.offset <= s < LastIndex(log) && WellNumbered(log) && Restored(es, s) == Past(log, s)
    ensures Readable(es, s, LastIndex(log))
  {
    var q := s + 1 - es[0].index + Skip(es, s);
    forall k: nat | q <= k < |es| ensures InPlace(es, s, k) {
      assert es[k] == Restored(es, s)[k - q];
      assert es[k] == log.ents[s - log.offset + k - q];
    }
  }

  lemma ReadableGives(es: seq<Entry>, log: MemoryStorage, s: nat)
    requires log.offset <= s < LastIndex(log) && Ties(es, log, s) && Readable(es, s, LastIndex(log))
    ensures Starts(es, s) && Restored(es, s) == Past(log, s)
  {
    var q := s + 1 - es[0].index + Skip(es, s);
    forall k | 0 <= k < |es[q..]| ensures es[q..][k].index == s + 1 + k {
      assert InPlace(es, s, q + k);
    }
    assert InPlace(es, s, q);
    AboveOfSuffixRun(es, q, s);
    hide Above;
    assert Above(es, s)[|Above(es[..q], s)|..] == Past(log, s);
  }

  // ---------------------------------------------------------------- the machine

  /** The log as far as its records are written. */
  ghost function LogNow(n: Node): MemoryStorage {
    if n.pc.Saving? && n.pc.written <= |n.pc.rd.entries|
       && Append(n.mem.storage, n.pc.rd.entries[..n.pc.written]).Some?
    then Append(n.mem.storage, n.pc.rd.entries[..n.pc.written]).value
    else n.mem.storage
  }

  /** The newest snapshot on disk covers every peer snapshot in use, and the WAL gives the log back past it. */
  ghost predicate SoundDisk(n: Node) {
    var s := Latest(n.disk.snaps.Keys);
    n.mem.storage.offset <= s && Readable(EntriesOf(n.disk.wal), s, LastIndex(LogNow(n)))
  }

  /** A restart now would come up with exactly the node's log past the newest snapshot. */
  ghost predicate RecoversLog(n: Node) {
    var s := Latest(n.disk.snaps.Keys);
    && n.mem.storage.offset <= s && LogNow(n).offset <= s
    && Recover(n.disk).Some? && Recover(n.disk).value.storage == MemoryStorage(s, Past(LogNow(n), s))
  }

  /** Saves succeed, and every crash so far came where the disk was sound. */
  ghost predicate CarefulRun(n: Node, acts: seq<Action>)
    requires Legal(n, acts)
    decreases |acts|
  {
    acts != [] ==>
      && !acts[0].SaveFails?
      && (acts[0].Crash? ==> SoundDisk(n))
      && CarefulRun(Do(n, acts[0]), acts[1..])
  }

  ghost function Floor(n: Node): nat {
    Max(n.mem.storage.offset, Latest(n.disk.snaps.Keys))
  }

  ghost predicate TieInv(n: Node) {
    && n.mem.storage.offset <= n.mem.applied && LogNow(n).offset == n.mem.storage.offset
    && WellNumbered(LogNow(n))
    && Ties(EntriesOf(n.disk.wal), LogNow(n), Floor(n))
    && (n.pc.Saving? ==>
          var es := n.pc.rd.entries;
          n.pc.written <= |es| && (es != [] ==> Consecutive(es, es[0].index) && es[0].index > n.mem.applied))
  }

  /** Appending a batch entry by entry. */
  lemma AppendGrows(ms: MemoryStorage, es: seq<Entry>, k: nat)
    requires k < |es| && Consecutive(es, es[0].index) && es[0].index > ms.offset
    ensures
      var a, b := Append(ms, es[..k]), Append(ms, es[..k + 1]);
      if es[0].index <= LastIndex(ms) + 1 then
        && a.Some? && es[k].index <= LastIndex(a.value) + 1 && a.value.offset == ms.offset
        && b == Some(PutLog(a.value, es[k]))
      else
        b.None? && a == if k == 0 then Some(ms) else None
  {
    assert es[k].index == es[0].index + k;
    assert es[..k + 1] == es[..k] + [es[k]];
    if k == 0 {
      assert es[..1] == [es[0]];
      assert es[0].index <= LastIndex(ms) + 1 ==> Append(ms, es[..1]) == Some(PutLog(ms, es[0]));
    }
    if k > 0 && es[0].index <= LastIndex(ms) + 1 {
      var at := es[0].index - ms.offset - 1;
      var a := Append(ms, es[..k]).value;
      assert a.ents == ms.ents[..at] + es[..k];
      assert a.ents[..es[k].index - ms.offset - 1] == a.ents;
      assert Append(ms, es[..k + 1]).value.ents == ms.ents[..at] + es[..k + 1] == a.ents + [es[k]];
    }
  }

  lemma WriteTies(n: Node)
    requires EntryInv(n) && TieInv(n) && Enabled(n, WriteEntry)
    ensures TieInv(Do(n, WriteEntry))
  {
    var n' := Do(n, WriteEntry);
    var rd, k, ms := n.pc.rd, n.pc.written, n.mem.storage;
    var e, log := rd.entries[k], LogNow(n);
    ReadBackOne(n.disk.wal, EntryRecord(e));
    AppendGrows(ms, rd.entries, k);
    hide LastState, EntriesOf, Append, Latest, Ties, EntryInv;
    assert e.index == rd.entries[0].index + k;
    if rd.entries[0].index <= LastIndex(ms) + 1 {
      TiesPut(EntriesOf(n.disk.wal), log, Floor(n), e);
      assert LogNow(n') == PutLog(log, e);
    } else {
      assert LogNow(n') == log == ms;
      TiesGap(EntriesOf(n.disk.wal), log, Floor(n), e);
    }
  }

  lemma BeginTies(n: Node, rd: Ready)
    requires TieInv(n) && Enabled(n, Begin(rd))
    ensures TieInv(Do(n, Begin(rd)))
  {
    var n' := Do(n, Begin(rd));
    ReadBackOne(n.disk.wal, StateRecord(rd.hs));
    assert rd.entries[..0] == [];
    assert LogNow(n') == LogNow(n) == n.mem.storage;
    hide LastState, EntriesOf, Latest, Ties, LogNow, Append;
    assert EntriesOf(n'.disk.wal) == EntriesOf(n.disk.wal) && Floor(n') == Floor(n);
  }

  lemma EndSaveTies(n: Node)
    requires TieInv(n) && Enabled(n, EndSave)
    ensures TieInv(Do(n, EndSave))
  {
    hide LastState, EntriesOf, Latest, Ties, Append;
    assert n.pc.rd.entries[..n.pc.written] == n.pc.rd.entries;
    assert LogNow(Do(n, EndSave)) == LogNow(n);
  }

  lemma SendTies(n: Node)
    requires ApplyInv(n) && TieInv(n) && Enabled(n, Send)
    ensures TieInv(Do(n, Send))
  {
    hide LastState, EntriesOf, Latest, Append, Above;
  }

  lemma SnapshotTies(n: Node, a: Action)
    requires ApplyInv(n) && TieInv(n) && Enabled(n, a) && (a.Check? || a.RemoveOld?)
    ensures TieInv(Do(n, a))
  {
    hide LastState, EntriesOf, Append, Ties;
    var n' := Do(n, a);
    if a.Check? {
      LatestGrows(n.disk.snaps, n.mem.applied, n.mem.store);
    } else {
      LatestSurvivesRemoval(n.disk.snaps.Keys, a.i);
      assert n'.disk.snaps.Keys == n.disk.snaps.Keys - {a.i};
    }
    TiesHigher(EntriesOf(n.disk.wal), LogNow(n), Floor(n), Floor(n'));
  }

  lemma ReplaceTies(n: Node)
    requires ApplyInv(n) && EntryInv(n) && TieInv(n) && Enabled(n, ReplaceWal)
    ensures TieInv(Do(n, ReplaceWal))
  {
    CompactReadsBack(n.mem.hardState, Above(n.mem.entries, n.mem.applied));
    hide LastState, EntriesOf, Append, Ties, CompactFile, Above;
    TiesCompact(EntriesOf(n.disk.wal), LogNow(n), Floor(n), n.mem.applied);
  }

  lemma CrashTies(n: Node)
    requires ApplyInv(n) && TieInv(n) && Enabled(n, Crash) && SoundDisk(n)
    ensures TieInv(Do(n, Crash))
  {
    var s := Latest(n.disk.snaps.Keys);
    hide LastState, EntriesOf, Append, Ties, Latest, Readable;
    RestartExactly(EntriesOf(n.disk.wal), LogNow(n), s);
    TiesRestart(EntriesOf(n.disk.wal), LogNow(n), s);
    assert LogNow(Do(n, Crash)) == MemoryStorage(s, Past(LogNow(n), s));
  }

  lemma TieStep(n: Node, a: Action)
    requires ApplyInv(n) && EntryInv(n) && TieInv(n) && Enabled(n, a) && !a.SaveFails? && (a.Crash? ==> SoundDisk(n))
    ensures TieInv(Do(n, a))
  {
    match a
    case Begin(rd) => BeginTies(n, rd);
    case WriteEntry => WriteTies(n);
    case EndSave => EndSaveTies(n);
    case Send => SendTies(n);
    case Check => SnapshotTies(n, a);
    case RemoveOld(i) => SnapshotTies(n, a);
    case ReplaceWal => ReplaceTies(n);
    case Crash => CrashTies(n);
    case _ => hide LastState, EntriesOf, Append, Ties, Latest, EntryInv, Above;
  }

  // ---------------------------------------------------------------- the applied state

  /** es are the log's entries right after index i. */
  ghost predicate NextIn(ms: MemoryStorage, i: nat, es: seq<Entry>) {
    forall j :: 0 <= j < |es| ==> AtIndex(ms, i + j, es[j])
  }

  /** e is the entry after index i. */
  predicate AtIndex(ms: MemoryStorage, i: nat, e: Entry) {
    ms.offset <= i < LastIndex(ms) && e == ms.ents[i - ms.offset]
  }

  /** Committed entries come from the log; after a peer's snapshot the disk has nothing to compare with yet. */
  ghost predicate CommitsFrom(n: Node) {
    match n.pc
    case Saving(rd, k) =>
      var log := Append(n.mem.storage, rd.entries);
      rd.snapshot.None? ==> log.Some? && NextIn(log.value, n.mem.applied, rd.committed)
    case Saved(rd) => rd.snapshot.None? ==> NextIn(n.mem.storage, n.mem.applied, rd.committed)
    case Applying(rd, done) =>
      && done <= |rd.committed|
      && (n.mem.storage.offset <= Latest(n.disk.snaps.Keys) ==>
            NextIn(n.mem.storage, n.mem.applied, rd.committed[done..]))
    case _ => true
  }

  function BaseState(snaps: map<nat, KV>, s: nat): KV {
    if s in snaps && s != 0 then snaps[s] else map[]
  }

  /** The store is the newest snapshot's state with the log applied to it. */
  ghost predicate Builds(kv: KV, log: MemoryStorage, s: nat, applied: nat, store: KV)
    requires log.offset <= s
  {
    s <= applied && applied - s <= |Past(log, s)| && store == ApplyAll(kv, Past(log, s)[..applied - s])
  }

  ghost predicate BuildInv(n: Node) {
    && CommitsFrom(n)
    && var s := Latest(n.disk.snaps.Keys);
       LogNow(n).offset <= s ==> Builds(BaseState(n.disk.snaps, s), LogNow(n), s, n.mem.applied, n.mem.store)
  }

  lemma BuildsPut(kv: KV, log: MemoryStorage, s: nat, applied: nat, store: KV, e: Entry)
    requires log.offset <= s && Builds(kv, log, s, applied, store) && applied < e.index <= LastIndex(log) + 1
    ensures Builds(kv, PutLog(log, e), s, applied, store)
  {
    hide ApplyAll;
    assert Past(PutLog(log, e), s)[..applied - s] == Past(log, s)[..applied - s];
  }

  lemma BuildsApply(kv: KV, log: MemoryStorage, s: nat, applied: nat, store: KV, e: Entry)
    requires log.offset <= s && Builds(kv, log, s, applied, store)
    requires applied < LastIndex(log) && e == log.ents[applied - log.offset]
    ensures Builds(kv, log, s, applied + 1, ApplyEntry(store, e))
  {
    hide ApplyEntry;
    var p := Past(log, s);
    assert p[applied - s] == e;
    assert p[..applied + 1 - s][..applied - s] == p[..applied - s];
  }

  lemma BeginBuild(n: Node, rd: Ready)
    requires TieInv(n) && BuildInv(n) && Enabled(n, Begin(rd))
    ensures BuildInv(Do(n, Begin(rd)))
  {
    var n' := Do(n, Begin(rd));
    assert rd.entries[..0] == [];
    assert LogNow(n') == LogNow(n) == n.mem.storage;
    hide LastState, EntriesOf, Latest, Ties, Append, Builds, LogNow, TieInv;
    assert CommitsFrom(n');
  }

  lemma WriteBuild(n: Node)
    requires TieInv(n) && BuildInv(n) && Enabled(n, WriteEntry)
    ensures BuildInv(Do(n, WriteEntry))
  {
    var n' := Do(n, WriteEntry);
    var rd, k, ms := n.pc.rd, n.pc.written, n.mem.storage;
    var s := Latest(n.disk.snaps.Keys);
    AppendGrows(ms, rd.entries, k);
    hide LastState, EntriesOf, Append, Latest, Ties, Builds, NextIn;
    assert rd.entries[k].index == rd.entries[0].index + k;
    if rd.entries[0].index <= LastIndex(ms) + 1 {
      assert LogNow(n') == PutLog(LogNow(n), rd.entries[k]);
      if ms.offset <= s {
        BuildsPut(BaseState(n.disk.snaps, s), LogNow(n), s, n.mem.applied, n.mem.store, rd.entries[k]);
      }
    } else {
      assert LogNow(n') == LogNow(n);
    }
  }

  lemma EndSaveBuild(n: Node)
    requires TieInv(n) && BuildInv(n) && Enabled(n, EndSave)
    ensures BuildInv(Do(n, EndSave))
  {
    hide LastState, EntriesOf, Latest, Ties, Append, Builds, NextIn;
    assert n.pc.rd.entries[..n.pc.written] == n.pc.rd.entries;
    assert LogNow(Do(n, EndSave)) == LogNow(n);
  }

  lemma SendBuild(n: Node)
    requires ApplyInv(n) && TieInv(n) && BuildInv(n) && Enabled(n, Send)
    ensures BuildInv(Do(n, Send))
  {
    hide LastState, EntriesOf, Ties, Append, Builds, NextIn;
    assert n.pc.rd.committed[0..] == n.pc.rd.committed;
    assert IsLatest(n.disk.snaps.Keys, Latest(n.disk.snaps.Keys));
  }

  lemma NextInStep(ms: MemoryStorage, i: nat, es: seq<Entry>)
    requires es != [] && NextIn(ms, i, es)
    ensures NextIn(ms, i + 1, es[1..])
  {
    forall j | 0 <= j < |es[1..]| ensures AtIndex(ms, i + 1 + j, es[1..][j]) {
      var k := j + 1;
      assert es[1..][j] == es[k];
      assert AtIndex(ms, i + k, es[k]);
    }
  }

  lemma ApplyBuild(n: Node)
    requires ApplyInv(n) && TieInv(n) && BuildInv(n) && Enabled(n, ApplyNext)
    ensures BuildInv(Do(n, ApplyNext))
  {
    hide LastState, EntriesOf, Ties, Append, Builds, Latest, ApplyEntry;
    var rd, done, ms := n.pc.rd, n.pc.done, n.mem.storage;
    var e, s := rd.committed[done], Latest(n.disk.snaps.Keys);
    assert e.index == n.mem.applied + 1;
    if ms.offset <= s {
      assert rd.committed[done..][0] == e;
      BuildsApply(BaseState(n.disk.snaps, s), ms, s, n.mem.applied, n.mem.store, e);
      NextInStep(ms, n.mem.applied, rd.committed[done..]);
      assert rd.committed[done..][1..] == rd.committed[done + 1..];
    }
  }

  /** A snapshot just taken stands for the store as it is. */
  lemma BuildsFresh(snaps: map<nat, KV>, log: MemoryStorage, i: nat, store: KV)
    requires log.offset <= i && (i == 0 ==> store == map[])
    ensures Builds(BaseState(snaps[i := store], i), log, i, i, store)
  {
    assert Past(log, i)[..0] == [];
  }

  lemma NothingYet(n: Node)
    requires ApplyInv(n) && TieInv(n) && BuildInv(n) && n.mem.applied == 0
    ensures n.mem.store == map[]
  {
    hide LastState, EntriesOf, Ties, Append, CommitsFrom, LogNow, WellNumbered;
    var s := Latest(n.disk.snaps.Keys);
    assert IsLatest(n.disk.snaps.Keys, s);
    assert Past(LogNow(n), 0)[..0] == [];
  }

  lemma LatestIsApplied(n: Node)
    requires ApplyInv(n)
    ensures Latest(n.disk.snaps[n.mem.applied := n.mem.store].Keys) == n.mem.applied
  {
    var snaps := n.disk.snaps[n.mem.applied := n.mem.store];
    LatestGrows(n.disk.snaps, n.mem.applied, n.mem.store);
    assert IsLatest(snaps.Keys, Latest(snaps.Keys));
  }

  lemma CheckEffect(n: Node)
    requires Enabled(n, Check)
    ensures
      var n' := Do(n, Check);
      && n'.mem == n.mem && LogNow(n) == LogNow(n') == n.mem.storage && CommitsFrom(n')
      && n'.disk.snaps == if NeedsSnapshot(n) then n.disk.snaps[n.mem.applied := n.mem.store] else n.disk.snaps
  {
    hide Append, Latest;
  }

  lemma CheckBuild(n: Node)
    requires ApplyInv(n) && TieInv(n) && BuildInv(n) && Enabled(n, Check)
    ensures BuildInv(Do(n, Check))
  {
    if n.mem.applied == 0 {
      NothingYet(n);
    }
    LatestIsApplied(n);
    CheckEffect(n);
    assert n.mem.storage.offset <= n.mem.applied;
    hide Latest, Builds, BaseState, ApplyInv, TieInv, Do, Enabled, LogNow, CommitsFrom, NeedsSnapshot;
    BuildsFresh(n.disk.snaps, n.mem.storage, n.mem.applied, n.mem.store);
  }

  lemma RemoveBuild(n: Node, i: nat)
    requires TieInv(n) && BuildInv(n) && Enabled(n, RemoveOld(i))
    ensures BuildInv(Do(n, RemoveOld(i)))
  {
    hide LastState, EntriesOf, Ties, Append, Builds;
    LatestSurvivesRemoval(n.disk.snaps.Keys, i);
    assert Do(n, RemoveOld(i)).disk.snaps.Keys == n.disk.snaps.Keys - {i};
    assert IsLatest(n.disk.snaps.Keys, Latest(n.disk.snaps.Keys));
    assert Higher(n.disk.snaps.Keys, Latest(n.disk.snaps.Keys)) == {};
  }

  lemma CrashBuild(n: Node)
    requires ApplyInv(n) && TieInv(n) && BuildInv(n) && Enabled(n, Crash) && SoundDisk(n)
    ensures BuildInv(Do(n, Crash))
  {
    hide LastState, EntriesOf, Ties, Append;
    var n' := Do(n, Crash);
    var s := Latest(n.disk.snaps.Keys);
    assert IsLatest(n.disk.snaps.Keys, s);
    assert n'.mem.store == BaseState(n.disk.snaps, s);
    assert LogNow(n').offset <= s ==> s - s <= |Past(LogNow(n'), s)|;
    assert LogNow(n').offset <= s ==> Past(LogNow(n'), s)[..0] == [];
  }

  lemma BuildStep(n: Node, a: Action)
    requires ApplyInv(n) && TieInv(n) && BuildInv(n) && Enabled(n, a) && !a.SaveFails? && (a.Crash? ==> SoundDisk(n))
    ensures BuildInv(Do(n, a))
  {
    match a
    case Begin(rd) => BeginBuild(n, rd);
    case WriteEntry => WriteBuild(n);
    case EndSave => EndSaveBuild(n);
    case Send => SendBuild(n);
    case ApplyNext => ApplyBuild(n);
    case Check => CheckBuild(n);
    case RemoveOld(i) => RemoveBuild(n, i);
    case Crash => CrashBuild(n);
    case _ => OtherBuild(n, a);
  }

  lemma OtherBuild(n: Node, a: Action)
    requires BuildInv(n) && Enabled(n, a)
    requires a.SnapshotFails? || a.Cleaned? || a.ReplaceWal? || a.Finish? || a.ReopenFails?
    ensures BuildInv(Do(n, a))
  {
    hide LastState, EntriesOf, Append, Latest, Above, CompactFile, Builds, NextIn;
    var n' := Do(n, a);
    assert LogNow(n') == n'.mem.storage == n.mem.storage == LogNow(n);
    assert CommitsFrom(n');
  }

  // ---------------------------------------------------------------- main results

  lemma {:induction false} CarefulKeeps(n: Node, acts: seq<Action>)
    requires Inv(n) && TieInv(n) && BuildInv(n) && Legal(n, acts) && CarefulRun(n, acts)
    ensures Inv(Exec(n, acts)) && TieInv(Exec(n, acts)) && BuildInv(Exec(n, acts))
    decreases |acts|
  {
    if acts != [] {
      StepKeeps(n, acts[0]);
      TieStep(n, acts[0]);
      BuildStep(n, acts[0]);
      hide Inv, TieInv, BuildInv, Enabled, Do, SoundDisk;
      CarefulKeeps(Do(n, acts[0]), acts[1..]);
    }
  }

  lemma InitTies(interval: nat)
    ensures TieInv(Init(interval)) && BuildInv(Init(interval))
  {
    var none: set<nat> := {};
    LatestUnique(none, 0);
  }

  lemma CarefulReach(interval: nat, acts: seq<Action>)
    requires Legal(Init(interval), acts) && CarefulRun(Init(interval), acts)
    ensures
      var n := Exec(Init(interval), acts);
      ApplyInv(n) && TieInv(n) && BuildInv(n)
  {
    InitInv(interval);
    InitTies(interval);
    hide ApplyInv, StateInv, InForce, EntryInv, TieInv, BuildInv, Init, Legal, Exec, CarefulRun;
    CarefulKeeps(Init(interval), acts);
  }

  /** Exactly when a restart recovers the log. In every run whose Saves succeed, overwrites and peer snapshots included,
      and in which every earlier crash found a sound disk: a restart now would come up with exactly the node's log past
      the newest snapshot if and only if the disk is sound now. */
  lemma RecoversLogExactly(interval: nat, acts: seq<Action>)
    requires Legal(Init(interval), acts) && CarefulRun(Init(interval), acts)
    ensures RecoversLog(Exec(Init(interval), acts)) <==> SoundDisk(Exec(Init(interval), acts))
  {
    hide *;
    CarefulReach(interval, acts);
    SoundExactly(Exec(Init(interval), acts));
  }

  lemma SoundExactly(n: Node)
    requires ApplyInv(n) && TieInv(n)
    ensures RecoversLog(n) <==> SoundDisk(n)
  {
    var s := Latest(n.disk.snaps.Keys);
    hide EntriesOf, LastState, Append, Latest, Ties, Readable, WellNumbered;
    assert IsLatest(n.disk.snaps.Keys, s);
    if n.mem.storage.offset <= s {
      assert Floor(n) == s;
      RestartExactly(EntriesOf(n.disk.wal), LogNow(n), s);
    }
  }

  /** And then nothing applied is lost: applying the recovered log to the recovered store gives, at the index the node
      had applied, the store the node had. */
  lemma AppliedStateRecovered(interval: nat, acts: seq<Action>)
    requires Legal(Init(interval), acts) && CarefulRun(Init(interval), acts)
    requires SoundDisk(Exec(Init(interval), acts))
    ensures
      var n := Exec(Init(interval), acts);
      && Recover(n.disk).Some?
      && var m := Recover(n.disk).value;
      && m.applied <= n.mem.applied <= LastIndex(m.storage)
      && ApplyAll(m.store, m.storage.ents[..n.mem.applied - m.applied]) == n.mem.store
  {
    hide *;
    CarefulReach(interval, acts);
    SoundIsRecovered(Exec(Init(interval), acts));
  }

  lemma SoundIsRecovered(n: Node)
    requires ApplyInv(n) && TieInv(n) && BuildInv(n) && SoundDisk(n)
    ensures Recover(n.disk).Some?
    ensures
      var m := Recover(n.disk).value;
      && m.applied <= n.mem.applied <= LastIndex(m.storage)
      && ApplyAll(m.store, m.storage.ents[..n.mem.applied - m.applied]) == n.mem.store
  {
    hide *;
    SoundExactly(n);
    BuiltLog(n);
    RecoverStore(n.disk);
    var s := Latest(n.disk.snaps.Keys);
    BuiltMemory(BaseState(n.disk.snaps, s), LogNow(n), s, n.mem, Recover(n.disk).value);
  }

  lemma BuiltLog(n: Node)
    requires RecoversLog(n) && BuildInv(n)
    ensures
      var s := Latest(n.disk.snaps.Keys);
      && LogNow(n).offset <= s && Recover(n.disk).Some?
      && Recover(n.disk).value.storage == MemoryStorage(s, Past(LogNow(n), s))
      && Builds(BaseState(n.disk.snaps, s), LogNow(n), s, n.mem.applied, n.mem.store)
  {
    hide Recover, Past, LogNow, CommitsFrom, Builds, BaseState, Latest;
  }

  lemma BuiltMemory(kv: KV, log: MemoryStorage, s: nat, was: Memory, m: Memory)
    requires log.offset <= s && Builds(kv, log, s, was.applied, was.store)
    requires m.storage == MemoryStorage(s, Past(log, s)) && m.applied == s && m.store == kv
    ensures m.applied <= was.applied <= LastIndex(m.storage)
    ensures ApplyAll(m.store, m.storage.ents[..was.applied - m.applied]) == was.store
  {
    hide Past, ApplyAll;
  }

  lemma RecoverStore(d: Disk)
    requires Recover(d).Some?
    ensures
      var m, s := Recover(d).value, Latest(d.snaps.Keys);
      m.applied == s && m.store == BaseState(d.snaps, s)
  {
    hide Append, EntriesOf, LastState;
    assert IsLatest(d.snaps.Keys, Latest(d.snaps.Keys));
  }

  // ---------------------------------------------------------------- plain runs

  lemma PlainLogEnds(n: Node)
    requires Inv(n) && LogInv(n)
    ensures LastIndex(LogNow(n)) == |n.history|
  {
    hide EntriesOf, LastState, Latest, StateAt, Ties, DiskRight, StateInv, ApplyInv;
    if n.pc.Saving? {
      var before, some := n.history[..|n.history| - n.pc.written], n.pc.rd.entries[..n.pc.written];
      assert some != [] ==> some[0] == n.pc.rd.entries[0];
      PlainAppend(n.mem.storage, before, some);
    }
  }

  lemma PlainDiskIsSound(n: Node)
    requires Inv(n) && LogInv(n)
    ensures SoundDisk(n)
  {
    RecoveredMemory(n);
    PlainLogEnds(n);
    hide Inv, EntriesOf, LastState, Latest, StateAt, Recover, MemoryRight, BatchRight, SnapsRight, LogNow;
    hide Readable, Numbered;
    SuffixReadable(n.history, n.cut, Latest(n.disk.snaps.Keys));
  }

  lemma SuffixReadable(h: seq<Entry>, cut: nat, s: nat)
    requires Numbered(h) && cut <= s <= |h|
    ensures Readable(h[cut..], s, |h|)
  {
    var es := h[cut..];
    assert forall k :: 0 <= k < |es| ==> es[k] == h[cut + k];
  }

  /** The theorems on careful runs cover the plain ones: a run of contiguous batches without peer snapshots has a
      sound disk at every point. */
  lemma {:induction false} PlainRunIsCareful(n: Node, acts: seq<Action>)
    requires Inv(n) && LogInv(n) && Legal(n, acts) && PlainRun(n, acts)
    ensures CarefulRun(n, acts) && SoundDisk(Exec(n, acts))
    decreases |acts|
  {
    PlainDiskIsSound(n);
    if acts != [] {
      StepKeeps(n, acts[0]);
      StepKeepsLog(n, acts[0]);
      hide Inv, LogInv, Enabled, Do, PlainReady, SoundDisk;
      PlainRunIsCareful(Do(n, acts[0]), acts[1..]);
    }
  }
}
