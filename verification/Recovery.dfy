/** Crash recovery refines applying the whole log. */
module Recovery {
  import opened Types
  import opened Wal
  import opened Replay
  import opened Snapshots
  import opened Durable
  import opened Persistence

  // ---------------------------------------------------------------- the invariant

  /** The key-value state after the first i entries ever written. */
  function StateAt(history: seq<Entry>, i: nat): KV
    requires i <= |history|
  {
    ApplyAll(map[], history[..i])
  }

  ghost predicate SnapsRight(snaps: map<nat, KV>, history: seq<Entry>, acked: nat) {
    forall i :: i in snaps ==> i <= acked && i <= |history| && snaps[i] == StateAt(history, i)
  }

  /** Entries of the current batch that are on disk but not yet in the storage. */
  function Unstored(n: Node): nat {
    if n.pc.Saving? then n.pc.written else 0
  }

  ghost predicate StorageRight(ms: MemoryStorage, history: seq<Entry>) {
    LastIndex(ms) == |history| && ms.ents == history[ms.offset..]
  }

  /** The rest of a Ready's committed entries are the log's next ones, and all within the commit index. */
  ghost predicate CommitsRight(log: seq<Entry>, m: Memory, rd: Ready, done: nat) {
    && done <= |rd.committed| && m.applied + |rd.committed| - done <= |log|
    && (forall j :: done <= j < |rd.committed| ==> rd.committed[j] == log[m.applied + j - done])
    && (done < |rd.committed| ==> m.applied + |rd.committed| - done <= m.hardState.commit)
  }

  ghost predicate BatchRight(n: Node) {
    match n.pc
    case Saving(rd, k) =>
      && k <= |rd.entries| && k <= |n.history| && rd.snapshot.None?
      && n.history[|n.history| - k..] == rd.entries[..k]
      && Consecutive(rd.entries, |n.history| - k + 1)
      && CommitsRight(n.history + rd.entries[k..], n.mem, rd, 0)
    case Saved(rd) => rd.snapshot.None? && CommitsRight(n.history, n.mem, rd, 0)
    case Applying(rd, done) => CommitsRight(n.history, n.mem, rd, done)
    case _ => true
  }

  ghost predicate DiskRight(d: Disk, history: seq<Entry>, cut: nat, acked: nat) {
    && cut <= Latest(d.snaps.Keys)
    && cut <= |history| && EntriesOf(d.wal) == history[cut..]
    && SnapsRight(d.snaps, history, acked)
  }

  ghost predicate MemoryRight(m: Memory, history: seq<Entry>, unstored: nat, acked: nat) {
    && m.applied <= acked <= |history| && acked <= m.hardState.commit
    && m.store == StateAt(history, m.applied)
    && unstored <= |history| && m.storage.offset <= m.applied
    && StorageRight(m.storage, history[..|history| - unstored])
  }

  ghost predicate LogInv(n: Node) {
    && Numbered(n.history)
    && n.cut <= n.mem.applied
    && n.mem.storage.offset <= Latest(n.disk.snaps.Keys)
    && DiskRight(n.disk, n.history, n.cut, n.acked)
    && MemoryRight(n.mem, n.history, Unstored(n), n.acked)
    && BatchRight(n)
  }

  // ---------------------------------------------------------------- recovering

  lemma AppendSuffix(history: seq<Entry>, cut: nat, base: nat)
    requires Numbered(history) && cut <= base <= |history|
    ensures Append(MemoryStorage(base, []), history[cut..]) == Some(MemoryStorage(base, history[base..]))
  {
    var es := history[cut..];
    RestartOfAny(es, base);
    hide Append;
    if base < |history| {
      assert es[base - cut..] == history[base..];
    } else {
      assert history[base..] == [];
    }
  }

  /** What Start rebuilds from the disk of any state satisfying the invariant. */
  lemma RecoveredMemory(n: Node)
    requires Inv(n) && LogInv(n)
    ensures
      var base := Latest(n.disk.snaps.Keys);
      && n.cut <= base <= n.acked <= |n.history|
      && Recover(n.disk) == Some(Memory(n.mem.hardState, n.history[n.cut..], MemoryStorage(base, n.history[base..]),
                                        StateAt(n.history, base), base, base, false))
  {
    hide EntriesOf, LastState, Append, BatchRight, EntryInv, InForce, StorageRight;
    var base := Latest(n.disk.snaps.Keys);
    assert IsLatest(n.disk.snaps.Keys, base);
    AppendSuffix(n.history, n.cut, base);
    if base == 0 {
      assert n.history[..0] == [];
    }
  }

  // ---------------------------------------------------------------- each action keeps the invariant

  lemma StateAtPrefix(h: seq<Entry>, h': seq<Entry>, i: nat)
    requires h <= h' && i <= |h|
    ensures StateAt(h', i) == StateAt(h, i)
  {
    assert h'[..i] == h[..i];
  }

  /** A batch that starts right after the log's last entry extends the storage and nothing else. */
  lemma PlainAppend(ms: MemoryStorage, history: seq<Entry>, es: seq<Entry>)
    requires StorageRight(ms, history)
    requires es != [] ==> es[0].index == |history| + 1
    ensures Append(ms, es) == Some(ms.(ents := ms.ents + es))
    ensures StorageRight(ms.(ents := ms.ents + es), history + es)
  {
    assert ms.ents[..|ms.ents|] == ms.ents && ms.ents + [] == ms.ents;
    assert (history + es)[ms.offset..] == history[ms.offset..] + es;
  }

  lemma BatchBegins(m: Memory, history: seq<Entry>, rd: Ready)
    requires LibraryReady(m, rd) && PlainReady(m, rd)
    requires StorageRight(m.storage, history) && m.storage.offset <= m.applied <= |history|
    ensures CommitsRight(history + rd.entries, m.(hardState := Effective(m.hardState, rd.hs)), rd, 0)
    ensures Consecutive(rd.entries, |history| + 1)
  {
    PlainAppend(m.storage, history, rd.entries);
    var log := Append(m.storage, rd.entries).value;
    hide Append;
    assert log.ents == (history + rd.entries)[log.offset..];
    assert LastIndex(log) == |history + rd.entries|;
    forall j | 0 <= j < |rd.committed| ensures m.applied + j < |history + rd.entries|
                                       ensures rd.committed[j] == (history + rd.entries)[m.applied + j] {
      var e := rd.committed[j];
      assert log.offset <= m.applied + j < LastIndex(log);
    }
    if rd.committed != [] {
      var last := rd.committed[|rd.committed| - 1];
      assert m.applied + (|rd.committed| - 1) < |history + rd.entries|;
    }
  }

  lemma BeginDisk(d: Disk, hs: HardState, h: seq<Entry>, cut: nat, acked: nat)
    requires DiskRight(d, h, cut, acked)
    ensures DiskRight(d.(wal := d.wal + [StateRecord(hs)]), h, cut, acked)
  {
    ReadBackOne(d.wal, StateRecord(hs));
    hide EntriesOf, Latest, StateAt;
  }

  lemma BeginBatch(n: Node, rd: Ready)
    requires LogInv(n) && Enabled(n, Begin(rd)) && PlainReady(n.mem, rd)
    ensures BatchRight(Do(n, Begin(rd)))
  {
    var h := n.history;
    assert h[..|h|] == h;
    BatchBegins(n.mem, h, rd);
    hide DiskRight, StateAt, LibraryReady, StorageRight, Append, CommitsRight, Consecutive;
    assert Do(n, Begin(rd)).mem == n.mem.(hardState := Effective(n.mem.hardState, rd.hs));
    assert h[|h|..] == [] == rd.entries[..0] && rd.entries[0..] == rd.entries;
  }

  lemma BeginLog(n: Node, rd: Ready)
    requires Inv(n) && LogInv(n) && Enabled(n, Begin(rd)) && PlainReady(n.mem, rd)
    ensures LogInv(Do(n, Begin(rd)))
  {
    BeginBatch(n, rd);
    BeginDisk(n.disk, rd.hs, n.history, n.cut, n.acked);
    assert Follows(n.mem.hardState, Effective(n.mem.hardState, rd.hs));
    hide Inv, DiskRight, BatchRight, StateAt, LibraryReady, StorageRight;
  }

  lemma DiskGrows(d: Disk, d': Disk, h: seq<Entry>, e: Entry, cut: nat, acked: nat)
    requires DiskRight(d, h, cut, acked)
    requires d' == d.(wal := d.wal + [EntryRecord(e)])
    ensures DiskRight(d', h + [e], cut, acked)
  {
    ReadBackOne(d.wal, EntryRecord(e));
    hide EntriesOf, Latest;
    assert (h + [e])[cut..] == h[cut..] + [e];
    forall i | i in d.snaps ensures i <= |h| && d.snaps[i] == StateAt(h + [e], i) {
      StateAtPrefix(h, h + [e], i);
    }
  }

  lemma WriteEntryLog(n: Node)
    requires Inv(n) && LogInv(n) && Enabled(n, WriteEntry)
    ensures LogInv(Do(n, WriteEntry))
  {
    hide Inv, EntriesOf, LastState, Append, Latest, DiskRight;
    var rd, k, h := n.pc.rd, n.pc.written, n.history;
    var e := rd.entries[k];
    var n' := Do(n, WriteEntry);
    DiskGrows(n.disk, n'.disk, h, e, n.cut, n.acked);
    assert MemoryRight(n'.mem, h + [e], k + 1, n.acked) by {
      assert (h + [e])[..|h| + 1 - (k + 1)] == h[..|h| - k];
      StateAtPrefix(h, h + [e], n.mem.applied);
    }
    assert BatchRight(n') by {
      assert (h + [e])[|h| - k..] == h[|h| - k..] + [e] == rd.entries[..k + 1];
      assert (h + [e]) + rd.entries[k + 1..] == h + rd.entries[k..];
    }
    assert Numbered(h + [e]);
  }

  lemma EndSaveMemory(m: Memory, h: seq<Entry>, rd: Ready, acked: nat)
    requires MemoryRight(m, h, |rd.entries|, acked) && h[|h| - |rd.entries|..] == rd.entries
    requires Consecutive(rd.entries, |h| - |rd.entries| + 1)
    ensures
      var filled := Append(m.storage, rd.entries);
      && filled.Some? && filled.value.offset == m.storage.offset
      && MemoryRight(m.(entries := m.entries + rd.entries, storage := filled.value), h, 0, acked)
  {
    hide StateAt;
    var before := h[..|h| - |rd.entries|];
    assert h == before + rd.entries && h[..|h|] == h;
    PlainAppend(m.storage, before, rd.entries);
  }

  lemma EndSaveLog(n: Node)
    requires Inv(n) && LogInv(n) && Enabled(n, EndSave)
    ensures LogInv(Do(n, EndSave))
  {
    hide Inv, EntriesOf, LastState, Latest, DiskRight, StateAt, MemoryRight, Append;
    var rd, k, h := n.pc.rd, n.pc.written, n.history;
    assert rd.entries[..k] == rd.entries && rd.entries[k..] == [] && h + [] == h;
    EndSaveMemory(n.mem, h, rd, n.acked);
    assert BatchRight(Do(n, EndSave));
  }

  lemma ApplyMemory(m: Memory, h: seq<Entry>, acked: nat, e: Entry)
    requires MemoryRight(m, h, 0, acked) && m.applied < |h| && e == h[m.applied]
    requires e.index == m.applied + 1 <= m.hardState.commit
    ensures
      var m' := m.(store := ApplyEntry(m.store, e), applied := e.index);
      MemoryRight(m', h, 0, if e.index > acked then e.index else acked)
  {
    hide StorageRight, ApplyEntry;
    assert h[..m.applied + 1][..m.applied] == h[..m.applied];
    assert StateAt(h, m.applied + 1) == ApplyEntry(StateAt(h, m.applied), e);
  }

  lemma CommitsStep(log: seq<Entry>, m: Memory, m': Memory, rd: Ready, done: nat)
    requires CommitsRight(log, m, rd, done) && done < |rd.committed|
    requires m'.applied == m.applied + 1 && m'.hardState == m.hardState
    ensures CommitsRight(log, m', rd, done + 1)
  {
    forall j | done + 1 <= j < |rd.committed| ensures rd.committed[j] == log[m'.applied + j - (done + 1)] {
      assert rd.committed[j] == log[m.applied + j - done];
    }
  }

  lemma AckedGrows(d: Disk, h: seq<Entry>, cut: nat, acked: nat, acked': nat)
    requires DiskRight(d, h, cut, acked) && acked <= acked'
    ensures DiskRight(d, h, cut, acked')
  {
    hide EntriesOf, Latest, StateAt;
  }

  lemma ApplyNextLog(n: Node)
    requires Inv(n) && LogInv(n) && Enabled(n, ApplyNext)
    ensures LogInv(Do(n, ApplyNext))
  {
    hide Inv, DiskRight, MemoryRight;
    var rd, done := n.pc.rd, n.pc.done;
    var e := rd.committed[done];
    assert e == n.history[n.mem.applied];
    assert e.index == n.mem.applied + 1 <= n.mem.hardState.commit;
    var n' := Do(n, ApplyNext);
    ApplyMemory(n.mem, n.history, n.acked, e);
    CommitsStep(n.history, n.mem, n'.mem, rd, done);
    AckedGrows(n.disk, n.history, n.cut, n.acked, n'.acked);
    hide CommitsRight, ApplyEntry;
  }

  lemma CheckLog(n: Node)
    requires Inv(n) && LogInv(n) && Enabled(n, Check)
    ensures LogInv(Do(n, Check))
  {
    hide Inv, EntriesOf, LastState, Append, StateAt, Latest, StorageRight;
    LatestGrows(n.disk.snaps, n.mem.applied, n.mem.store);
    assert DiskRight(Do(n, Check).disk, n.history, n.cut, n.acked);
  }

  lemma RemoveOldLog(n: Node, i: nat)
    requires Inv(n) && LogInv(n) && Enabled(n, RemoveOld(i))
    ensures LogInv(Do(n, RemoveOld(i)))
  {
    hide Inv, EntriesOf, LastState, Append, StateAt, StorageRight;
    LatestSurvivesRemoval(n.disk.snaps.Keys, i);
    assert Do(n, RemoveOld(i)).disk.snaps.Keys == n.disk.snaps.Keys - {i};
  }

  lemma AboveOfSuffix(h: seq<Entry>, cut: nat, i: nat)
    requires Numbered(h) && cut <= i <= |h|
    ensures Above(h[cut..], i) == h[i..]
  {
    AboveOfRun(h[cut..], cut + 1, i);
    hide Above;
    assert h[cut..][i - cut..] == h[i..];
  }

  lemma ReplaceDisk(d: Disk, hs: HardState, h: seq<Entry>, cut: nat, i: nat, acked: nat)
    requires DiskRight(d, h, cut, acked) && Numbered(h)
    requires cut <= i <= |h| && i <= Latest(d.snaps.Keys)
    ensures DiskRight(d.(wal := CompactFile(hs, Above(EntriesOf(d.wal), i))), h, i, acked)
  {
    hide EntriesOf, CompactFile, Latest, SnapsRight, Above, LastState, Numbered;
    AboveOfSuffix(h, cut, i);
    CompactReadsBack(hs, h[i..]);
  }

  lemma ReplaceWalLog(n: Node)
    requires Inv(n) && LogInv(n) && Enabled(n, ReplaceWal)
    ensures LogInv(Do(n, ReplaceWal))
  {
    hide EntriesOf, LastState, Append, Above, SentKept, DiskRight, StateAt, StorageRight, CompactFile, Latest;
    assert n.mem.entries == EntriesOf(n.disk.wal) && n.mem.applied <= Latest(n.disk.snaps.Keys);
    ReplaceDisk(n.disk, n.mem.hardState, n.history, n.cut, n.mem.applied, n.acked);
    hide Inv;
  }

  lemma CrashMemory(m: Memory, h: seq<Entry>, base: uint64, acked: nat)
    requires base <= acked <= |h| && acked <= m.hardState.commit
    requires m.storage == MemoryStorage(base, h[base..]) && m.store == StateAt(h, base) && m.applied == base
    ensures MemoryRight(m, h, 0, acked)
  {
    hide StateAt;
    assert h[..|h|] == h;
  }

  /** The memory a restart comes up with. */
  lemma CrashRebuilds(n: Node)
    requires Inv(n) && LogInv(n)
    ensures
      var r := Recover(n.disk);
      && r.Some? && n.cut <= r.value.applied && MemoryRight(r.value, n.history, 0, n.acked)
      && r.value.storage.offset <= Latest(n.disk.snaps.Keys)
  {
    RecoveredMemory(n);
    assert n.acked <= n.mem.hardState.commit;
    var m := Recover(n.disk).value;
    hide *;
    CrashMemory(m, n.history, m.applied, n.acked);
  }

  lemma CrashLog(n: Node)
    requires Inv(n) && LogInv(n) && Enabled(n, Crash)
    ensures LogInv(Do(n, Crash))
  {
    hide Inv, Recover, DiskRight, MemoryRight, Numbered;
    CrashRebuilds(n);
  }

  lemma OtherLog(n: Node, a: Action)
    requires Inv(n) && LogInv(n) && Enabled(n, a)
    requires a.Send? || a.SnapshotFails? || a.Cleaned? || a.Finish? || a.ReopenFails?
    ensures LogInv(Do(n, a))
  {
    hide Inv, EntriesOf, LastState, Append, Latest, StateAt, Above, StorageRight, SnapsRight;
  }

  lemma StepKeepsLog(n: Node, a: Action)
    requires Inv(n) && LogInv(n) && Enabled(n, a) && !a.SaveFails?
    requires a.Begin? ==> PlainReady(n.mem, a.rd)
    ensures LogInv(Do(n, a))
  {
    hide Inv, LogInv, Enabled, Do, PlainReady;
    match a
    case Begin(rd) => BeginLog(n, rd);
    case WriteEntry => WriteEntryLog(n);
    case EndSave => EndSaveLog(n);
    case ApplyNext => ApplyNextLog(n);
    case Check => CheckLog(n);
    case RemoveOld(i) => RemoveOldLog(n, i);
    case ReplaceWal => ReplaceWalLog(n);
    case Crash => CrashLog(n);
    case _ => OtherLog(n, a);
  }

  lemma {:induction false} RunKeepsLog(n: Node, acts: seq<Action>)
    requires Inv(n) && LogInv(n) && Legal(n, acts) && PlainRun(n, acts)
    ensures Inv(Exec(n, acts)) && LogInv(Exec(n, acts))
    decreases |acts|
  {
    hide Inv, LogInv, Enabled, Do, PlainReady;
    if acts != [] {
      StepKeeps(n, acts[0]);
      StepKeepsLog(n, acts[0]);
      RunKeepsLog(Do(n, acts[0]), acts[1..]);
    }
  }

  lemma InitLog(interval: nat)
    ensures LogInv(Init(interval))
  {
    var none: set<nat> := {};
    LatestUnique(none, 0);
  }

  // ---------------------------------------------------------------- main results

  /** What a crash right now would rebuild: the log's suffix after the snapshot, and at every index from the snapshot
      to the last recovered entry the state of applying everything ever written from entry 1. Nothing applied so far
      lies beyond the recovered commit index or the recovered log. */
  ghost predicate Recovers(n: Node) {
    var r := Recover(n.disk);
    && r.Some?
    && var m := r.value;
    && m.applied == m.storage.offset && LastIndex(m.storage) == |n.history|
    && (forall i :: m.applied <= i <= |n.history| ==>
          ApplyAll(m.store, m.storage.ents[..i - m.applied]) == StateAt(n.history, i))
    && n.acked <= m.hardState.commit && n.acked <= LastIndex(m.storage)
  }

  /** Applying the recovered suffix on top of the snapshot's state is applying the whole prefix. */
  lemma RebuildAt(h: seq<Entry>, base: nat, i: nat)
    requires base <= i <= |h|
    ensures ApplyAll(StateAt(h, base), h[base..][..i - base]) == StateAt(h, i)
  {
    assert h[base..][..i - base] == h[base..i];
    ApplySplit(map[], h[..base], h[base..i]);
    assert h[..base] + h[base..i] == h[..i];
  }

  lemma RecoversNow(n: Node)
    requires Inv(n) && LogInv(n)
    ensures Recovers(n)
  {
    hide Inv, Recover, StateAt, ApplyAll, Latest, DiskRight, StorageRight, BatchRight;
    RecoveredMemory(n);
    var m, h := Recover(n.disk).value, n.history;
    assert n.acked <= m.hardState.commit && LastIndex(m.storage) == |h|;
    forall i | m.applied <= i <= |h|
      ensures ApplyAll(m.store, m.storage.ents[..i - m.applied]) == StateAt(h, i)
    {
      RebuildAt(h, m.applied, i);
    }
  }

  /** Crash recovery refines whole-log apply, at every point of every run of contiguous batches, after any number
      of crashes at any record or file boundary and any number of restarts. */
  lemma RecoveryRefinesWholeLog(interval: nat, acts: seq<Action>)
    requires Legal(Init(interval), acts) && PlainRun(Init(interval), acts)
    ensures Recovers(Exec(Init(interval), acts))
  {
    InitInv(interval);
    InitLog(interval);
    RunKeepsLog(Init(interval), acts);
    RecoversNow(Exec(Init(interval), acts));
  }

  /** So what is recovered is, key by key, the last value written: at every index the recovered log reaches, a key is
      there if and only if some entry up to that index writes it, with the value of the last one to do so. The same
      holds of the node's own store at its applied index. */
  lemma RecoveredValues(interval: nat, acts: seq<Action>, i: nat)
    requires Legal(Init(interval), acts) && PlainRun(Init(interval), acts)
    ensures
      var n := Exec(Init(interval), acts);
      && Recovers(n) && n.mem.applied <= |n.history|
      && HoldsLastWrites(n.mem.store, n.history[..n.mem.applied])
      && var m := Recover(n.disk).value;
         m.applied <= i <= |n.history| ==>
           HoldsLastWrites(ApplyAll(m.store, m.storage.ents[..i - m.applied]), n.history[..i])
  {
    hide *;
    RecoveryRefinesWholeLog(interval, acts);
    InitInv(interval);
    InitLog(interval);
    RunKeepsLog(Init(interval), acts);
    StoreIsState(Exec(Init(interval), acts));
    ValuesNow(Exec(Init(interval), acts), i);
  }

  lemma StoreIsState(n: Node)
    requires LogInv(n)
    ensures n.mem.applied <= |n.history| && n.mem.store == StateAt(n.history, n.mem.applied)
  {
  }

  lemma ValuesNow(n: Node, i: nat)
    requires Recovers(n) && n.mem.applied <= |n.history| && n.mem.store == StateAt(n.history, n.mem.applied)
    ensures HoldsLastWrites(n.mem.store, n.history[..n.mem.applied])
    ensures
      var m := Recover(n.disk).value;
      m.applied <= i <= |n.history| ==>
        HoldsLastWrites(ApplyAll(m.store, m.storage.ents[..i - m.applied]), n.history[..i])
  {
    hide HoldsLastWrites, Recover, ApplyAll;
    WholeLogHolds(n.history[..n.mem.applied]);
    var m := Recover(n.disk).value;
    if m.applied <= i <= |n.history| {
      assert ApplyAll(m.store, m.storage.ents[..i - m.applied]) == StateAt(n.history, i);
      WholeLogHolds(n.history[..i]);
    }
  }

  lemma {:induction false} HistoryGrows(n: Node, acts: seq<Action>)
    requires Legal(n, acts)
    ensures n.history <= Exec(n, acts).history
    decreases |acts|
  {
    hide Enabled;
    if acts != [] {
      HistoryGrows(Do(n, acts[0]), acts[1..]);
    }
  }

  /** A state a client has seen is never taken back: whatever a node had applied at some point of a run, any later
      point, after any crashes, recovers a log of which that state is still the state at that index. */
  lemma AppliedStateSurvives(interval: nat, before: seq<Action>, after: seq<Action>)
    requires Legal(Init(interval), before + after) && PlainRun(Init(interval), before + after)
    ensures Legal(Init(interval), before)
    ensures
      var n, n' := Exec(Init(interval), before), Exec(Init(interval), before + after);
      && Recovers(n')
      && n.mem.applied <= |n'.history|
      && n.mem.store == StateAt(n'.history, n.mem.applied)
  {
    RecoveryRefinesWholeLog(interval, before + after);
    Split(Init(interval), before, after);
    InitInv(interval);
    InitLog(interval);
    RunKeepsLog(Init(interval), before);
    var n, n' := Exec(Init(interval), before), Exec(Init(interval), before + after);
    assert n.mem.applied <= |n.history| && n.mem.store == StateAt(n.history, n.mem.applied);
    HistoryGrows(n, after);
    hide Inv, LogInv, Recovers, Legal, Exec;
    StateAtPrefix(n.history, n'.history, n.mem.applied);
  }

  // ---------------------------------------------------------------- what stays in the WAL

  /** No crash has come between writing a snapshot and compacting. */
  ghost predicate Tight(n: Node) {
    n.mem.snapIndex <= n.cut && (n.pc.WalReplaced? ==> n.cut == n.mem.applied)
  }

  lemma {:induction false} TightRun(n: Node, acts: seq<Action>)
    requires Inv(n) && LogInv(n) && Tight(n) && Legal(n, acts) && PlainRun(n, acts) && Crash !in acts
    ensures Tight(Exec(n, acts))
    decreases |acts|
  {
    if acts != [] {
      StepKeeps(n, acts[0]);
      StepKeepsLog(n, acts[0]);
      TightStep(n, acts[0]);
      hide Inv, LogInv, Enabled, Do, PlainReady;
      TightRun(Do(n, acts[0]), acts[1..]);
    }
  }

  lemma TightStep(n: Node, a: Action)
    requires Inv(n) && LogInv(n) && Tight(n) && Enabled(n, a) && a != Crash && !a.SaveFails?
    requires a.Begin? ==> PlainReady(n.mem, a.rd)
    ensures Tight(Do(n, a))
  {
    hide EntriesOf, LastState, Append, Latest, StateAt, Above, StateInv, EntryInv, DiskRight, MemoryRight;
    hide LibraryReady, CompactFile;
  }

  /** Without crashes, every entry kept in the WAL lies above the snapshot index. */
  lemma WalHoldsOnlyNewEntries(interval: nat, acts: seq<Action>)
    requires Legal(Init(interval), acts) && PlainRun(Init(interval), acts) && Crash !in acts
    ensures
      var n := Exec(Init(interval), acts);
      forall e :: e in EntriesOf(n.disk.wal) ==> e.index > n.mem.snapIndex
  {
    InitInv(interval);
    InitLog(interval);
    RunKeepsLog(Init(interval), acts);
    TightRun(Init(interval), acts);
    hide Inv, MemoryRight, BatchRight, Latest, EntriesOf, SnapsRight;
  }

  // ---------------------------------------------------------------- why peer snapshots are excluded

  /** A snapshot sent by a peer reaches the store but not the disk: a crash after it forgets the state it brought,
      while the recovered commit index still points past the recovered log. */
  lemma PeerSnapshotIsNotDurable()
    ensures
      var rd := Ready(HardState(1, 0, 5), [], Some(Snapshot(5, map["k" := "v"])), []);
      var acts := [Begin(rd), EndSave, Send];
      && Legal(Init(10), acts)
      && var n := Exec(Init(10), acts);
      && n.mem.store == map["k" := "v"] && n.mem.applied == 5
      && Recover(n.disk).Some?
      && var m := Recover(n.disk).value;
      && m.store == map[] && m.applied == 0 && LastIndex(m.storage) == 0 && m.hardState.commit == 5
  {
    var rd := Ready(HardState(1, 0, 5), [], Some(Snapshot(5, map["k" := "v"])), []);
    var n1 := Do(Init(10), Begin(rd));
    var n2 := Do(n1, EndSave);
    var n3 := Do(n2, Send);
    OneAction(Init(10), Begin(rd));
    OneAction(n1, EndSave);
    OneAction(n2, Send);
    assert n3.disk == Disk([StateRecord(rd.hs)], map[]);
    ReadBackOne([], StateRecord(rd.hs));
    assert [] + [StateRecord(rd.hs)] == [StateRecord(rd.hs)];
    var none: set<nat> := {};
    LatestUnique(none, 0);
    assert n3.disk.snaps.Keys == none;
    hide Runs, LastState, EntriesOf;
    Compose(n1, [EndSave], n2, [Send], n3);
    Compose(Init(10), [Begin(rd)], n1, [EndSave] + [Send], n3);
    assert [Begin(rd)] + ([EndSave] + [Send]) == [Begin(rd), EndSave, Send];
    RunsMeans(Init(10), [Begin(rd), EndSave, Send], n3);
  }

  lemma RunsMeans(n: Node, acts: seq<Action>, n': Node)
    requires Runs(n, acts, n')
    ensures Legal(n, acts) && Exec(n, acts) == n'
  {
  }
}
