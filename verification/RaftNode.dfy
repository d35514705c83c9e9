/** The event loop's handling of one Ready, as the code writes it, tied to the state machine of module Durable. */
module RaftNode {
  import opened Types
  import opened Wal
  import opened Replay
  import opened Snapshots
  import opened KvStore
  import opened Durable
  import opened Persistence
  import opened Recovery

  // ---------------------------------------------------------------- the whole effect of one Ready

  /** What goes wrong in a createSnapshot: nothing, writing the file, the compaction, or the reopening after it. */
  datatype SnapshotFault = AllWell | NotWritten | NotCompacted | NotReopened

  /** What goes wrong while one Ready is handled: how many record writes and whether the sync of its Save succeed,
      what becomes of a snapshot, and which removal of an old one fails, if any. */
  datatype Faults = Faults(writes: nat, synced: bool, snapshot: SnapshotFault, removal: Option<nat>)

  /** How many records a Save leaves behind if it fails; None if it succeeds. */
  function SaveFailure(m: Memory, rd: Ready, f: Faults): Option<nat> {
    var size := |SaveRecords(m.hardState, rd.hs, rd.entries)|;
    if m.closed then Some(0) else if f.writes < size then Some(f.writes) else if !f.synced then Some(size) else None
  }

  /** The records that Save leaves in the file. */
  function SavedRecords(m: Memory, rd: Ready, f: Faults): seq<Record> {
    var recs, failed := SaveRecords(m.hardState, rd.hs, rd.entries), SaveFailure(m, rd, f);
    if failed.Some? then recs[..failed.value] else recs
  }

  /** The entries fit the stored log; otherwise appending them panics. */
  ghost predicate Fits(m: Memory, rd: Ready) {
    LibraryReady(m, rd) && Append(m.storage, rd.entries).Some?
  }

  /** After a Save that succeeds. */
  ghost function AfterSave(n: Node, rd: Ready): Node
    requires Fits(n.mem, rd)
  {
    n.(disk := n.disk.(wal := n.disk.wal + SaveRecords(n.mem.hardState, rd.hs, rd.entries)),
       mem := n.mem.(hardState := if NewState(n.mem.hardState, rd.hs) then rd.hs else n.mem.hardState,
                     entries := n.mem.entries + rd.entries,
                     storage := Append(n.mem.storage, rd.entries).value),
       history := n.history + rd.entries,
       pc := Saved(rd))
  }

  ghost function AfterSend(n: Node, rd: Ready, f: Faults): Node
    requires n.pc.Idle? && Fits(n.mem, rd)
  {
    var failed := SaveFailure(n.mem, rd, f);
    Do(if failed.Some? then Do(n, SaveFails(rd, failed.value)) else AfterSave(n, rd), Send)
  }

  function Max(a: nat, b: nat): nat {
    if a >= b then a else b
  }

  /** After applying the first j committed entries. */
  ghost function Applied(n: Node, rd: Ready, j: nat): Node
    requires n.pc == Applying(rd, 0) && j <= |rd.committed|
  {
    var last := if j == 0 then n.mem.applied else rd.committed[j - 1].index;
    n.(mem := n.mem.(store := ApplyAll(n.mem.store, rd.committed[..j]), applied := last),
       acked := HighestOf(n.acked, rd.committed[..j]),
       pc := Applying(rd, j))
  }

  function HighestOf(a: nat, es: seq<Entry>): nat {
    if es == [] then a else Max(HighestOf(a, es[..|es| - 1]), es[|es| - 1].index)
  }

  function Indices(es: seq<Entry>): (r: seq<nat>)
    ensures |r| == |es| && forall k :: 0 <= k < |es| ==> r[k] == es[k].index
  {
    if es == [] then [] else Indices(es[..|es| - 1]) + [es[|es| - 1].index as nat]
  }

  /** Compaction and the new snapshot index, as far as they get. */
  ghost function AfterCompaction(n: Node, fault: SnapshotFault): Node {
    var kept := Above(n.mem.entries, n.mem.applied);
    var replaced := n.(disk := n.disk.(wal := CompactFile(n.mem.hardState, kept)), cut := n.mem.applied, pc := Idle);
    match fault
    case NotReopened => replaced.(mem := n.mem.(closed := true))
    case AllWell => replaced.(mem := n.mem.(entries := kept, snapIndex := n.mem.applied, closed := false))
    case _ => n.(pc := Idle)
  }

  /** A snapshot of the applied state and retention first; a failing removal does not stop it. */
  ghost function AfterSnapshot(n: Node, f: Faults): Node {
    if f.snapshot.NotWritten? then n.(pc := Idle)
    else
      var snaps := SaveView(n.disk.snaps, Snapshot(n.mem.applied, n.mem.store), f.removal);
      AfterCompaction(n.(disk := n.disk.(snaps := snaps)), f.snapshot)
  }

  /** Applying and snapshotting, once the messages are out. */
  ghost function AfterApply(n: Node, rd: Ready, f: Faults): Node
    requires n.pc == Applying(rd, 0)
  {
    var done := Applied(n, rd, |rd.committed|);
    if NeedsSnapshot(done) then AfterSnapshot(done, f) else done.(pc := Idle)
  }

  /** Everything but the snapshot. */
  ghost function UpToApplied(n: Node, rd: Ready, f: Faults): Node
    requires n.pc.Idle? && Fits(n.mem, rd)
  {
    Applied(AfterSend(n, rd, f), rd, |rd.committed|).(pc := Idle)
  }

  ghost function AfterReady(n: Node, rd: Ready, f: Faults): Node
    requires n.pc.Idle? && Fits(n.mem, rd)
  {
    AfterApply(AfterSend(n, rd, f), rd, f)
  }

  // ---------------------------------------------------------------- it is a run of atomic steps

  /** After the state record and the first k entry records. */
  ghost function Written(n: Node, rd: Ready, k: nat): Node
    requires Enabled(n, Begin(rd)) && k <= |rd.entries|
  {
    var b := Do(n, Begin(rd));
    b.(disk := b.disk.(wal := b.disk.wal + EntryRecords(rd.entries[..k])),
       history := b.history + rd.entries[..k],
       pc := Saving(rd, k))
  }

  lemma WrittenNone(n: Node, rd: Ready)
    requires Enabled(n, Begin(rd))
    ensures Written(n, rd, 0) == Do(n, Begin(rd))
  {
    hide Enabled;
    var b := Do(n, Begin(rd));
    assert b.disk.wal + EntryRecords(rd.entries[..0]) == b.disk.wal && b.history + rd.entries[..0] == b.history;
  }

  lemma WrittenMore(n: Node, rd: Ready, k: nat)
    requires Enabled(n, Begin(rd)) && k < |rd.entries|
    ensures Enabled(Written(n, rd, k), WriteEntry)
    ensures Do(Written(n, rd, k), WriteEntry) == Written(n, rd, k + 1)
  {
    var b, e := Do(n, Begin(rd)), rd.entries[k];
    hide LibraryReady, NewState;
    assert rd.entries[..k + 1] == rd.entries[..k] + [e];
    assert EntryRecords(rd.entries[..k + 1]) == EntryRecords(rd.entries[..k]) + [EntryRecord(e)];
    hide EntryRecords;
    assert (b.disk.wal + EntryRecords(rd.entries[..k])) + [EntryRecord(e)] ==
           b.disk.wal + EntryRecords(rd.entries[..k + 1]);
    assert (b.history + rd.entries[..k]) + [e] == b.history + rd.entries[..k + 1];
  }

  lemma WrittenAll(n: Node, rd: Ready)
    requires Enabled(n, Begin(rd)) && Fits(n.mem, rd)
    ensures Enabled(Written(n, rd, |rd.entries|), EndSave)
    ensures Do(Written(n, rd, |rd.entries|), EndSave) == AfterSave(n, rd)
  {
    assert rd.entries[..|rd.entries|] == rd.entries;
    var b := Do(n, Begin(rd));
    hide Append, EntryRecords;
    assert b.disk.wal + EntryRecords(rd.entries) == n.disk.wal + SaveRecords(n.mem.hardState, rd.hs, rd.entries);
  }

  lemma {:induction false} WritePath(n: Node, rd: Ready, k: nat) returns (acts: seq<Action>)
    requires Enabled(n, Begin(rd)) && k <= |rd.entries|
    ensures Runs(n, [Begin(rd)] + acts, Written(n, rd, k))
    ensures Quiet(acts)
  {
    hide Enabled, Do, Runs, Written;
    if k == 0 {
      acts := [];
      OneAction(n, Begin(rd));
      WrittenNone(n, rd);
      assert [Begin(rd)] + [] == [Begin(rd)];
    } else {
      var before := WritePath(n, rd, k - 1);
      var w := Written(n, rd, k - 1);
      WrittenMore(n, rd, k - 1);
      OneAction(w, WriteEntry);
      Compose(n, [Begin(rd)] + before, w, [WriteEntry], Written(n, rd, k));
      acts := before + [WriteEntry];
      assert ([Begin(rd)] + before) + [WriteEntry] == [Begin(rd)] + acts;
    }
  }

  /** Nothing is begun, no Save fails, nothing crashes. */
  ghost predicate Quiet(acts: seq<Action>) {
    forall a :: a in acts ==> !a.SaveFails? && !a.Crash? && !a.Begin?
  }

  lemma BothQuiet(a: seq<Action>, b: seq<Action>)
    requires Quiet(a) && Quiet(b)
    ensures Quiet(a + b)
  {
  }

  lemma AppliedMore(n: Node, rd: Ready, j: nat)
    requires n.pc == Applying(rd, 0) && j < |rd.committed|
    ensures Enabled(Applied(n, rd, j), ApplyNext)
    ensures Do(Applied(n, rd, j), ApplyNext) == Applied(n, rd, j + 1)
  {
    assert rd.committed[..j + 1][..j] == rd.committed[..j];
  }

  lemma {:induction false} ApplyPath(n: Node, rd: Ready, j: nat) returns (acts: seq<Action>)
    requires n.pc == Applying(rd, 0) && j <= |rd.committed|
    ensures Runs(n, acts, Applied(n, rd, j))
    ensures Quiet(acts)
  {
    if j == 0 {
      acts := [];
      assert rd.committed[..0] == [];
    } else {
      hide Enabled, Do, Runs, Applied;
      var before := ApplyPath(n, rd, j - 1);
      var w := Applied(n, rd, j - 1);
      AppliedMore(n, rd, j - 1);
      OneAction(w, ApplyNext);
      Compose(n, before, w, [ApplyNext], Applied(n, rd, j));
      acts := before + [ApplyNext];
    }
  }

  lemma TopAfterRemoval(keys: set<nat>, i: nat)
    requires i in keys && i !in Top(keys, KEEP)
    ensures Top(keys - {i}, KEEP) == Top(keys, KEEP)
  {
    forall k | k in keys && k != i ensures k in Top(keys - {i}, KEEP) <==> k in Top(keys, KEEP) {
      if k < i {
        assert Higher(keys, i) <= Higher(keys - {i}, k) <= Higher(keys, k);
        SubsetSize(Higher(keys, i), Higher(keys - {i}, k));
        SubsetSize(Higher(keys - {i}, k), Higher(keys, k));
      } else {
        assert Higher(keys - {i}, k) == Higher(keys, k);
      }
    }
  }

  /** Removing old files one at a time can end with any set that has the newest three. */
  lemma {:induction false} RemovePath(n: Node, left: set<nat>) returns (acts: seq<Action>)
    requires n.pc.SnapWritten? && Top(n.disk.snaps.Keys, KEEP) <= left
    ensures Runs(n, acts, n.(disk := n.disk.(snaps := Restrict(n.disk.snaps, left)))) && Quiet(acts)
    decreases |n.disk.snaps|
  {
    var snaps := n.disk.snaps;
    if snaps.Keys <= left {
      acts := [];
      assert Restrict(snaps, left) == snaps;
    } else {
      var i :| i in snaps.Keys && i !in left;
      TopAfterRemoval(snaps.Keys, i);
      assert (snaps - {i}).Keys == snaps.Keys - {i} && |snaps.Keys - {i}| < |snaps.Keys|;
      assert Restrict(snaps - {i}, left) == Restrict(snaps, left);
      OneAction(n, RemoveOld(i));
      var n' := Do(n, RemoveOld(i));
      hide Runs, Restrict, Top;
      var after := RemovePath(n', left);
      Compose(n, [RemoveOld(i)], n', after, n.(disk := n.disk.(snaps := Restrict(snaps, left))));
      acts := [RemoveOld(i)] + after;
    }
  }

  /** From a written and cleaned up snapshot on. */
  lemma CompactPath(n: Node, fault: SnapshotFault) returns (acts: seq<Action>)
    requires n.pc.SnapWritten? && !fault.NotWritten?
    ensures Runs(n, acts, AfterCompaction(n, fault)) && Quiet(acts)
  {
    var n1 := Do(n, Cleaned);
    OneAction(n, Cleaned);
    if fault.NotCompacted? {
      OneAction(n1, SnapshotFails);
      hide Runs;
      Compose(n, [Cleaned], n1, [SnapshotFails], AfterCompaction(n, fault));
      acts := [Cleaned] + [SnapshotFails];
    } else {
      var last := if fault.NotReopened? then ReopenFails else Finish;
      var n2 := Do(n1, ReplaceWal);
      var n3 := Do(n2, last);
      OneAction(n1, ReplaceWal);
      OneAction(n2, last);
      hide Runs, CompactFile, Above;
      Compose(n1, [ReplaceWal], n2, [last], n3);
      Compose(n, [Cleaned], n1, [ReplaceWal] + [last], n3);
      acts := [Cleaned] + ([ReplaceWal] + [last]);
      assert n3 == AfterCompaction(n, fault);
    }
  }

  lemma SnapshotPath(n: Node, f: Faults) returns (acts: seq<Action>)
    requires n.pc.Applying? && n.pc.done == |n.pc.rd.committed| && NeedsSnapshot(n)
    ensures Runs(n, acts, AfterSnapshot(n, f)) && Quiet(acts)
  {
    if f.snapshot.NotWritten? {
      OneAction(n, SnapshotFails);
      hide Runs;
      acts := [SnapshotFails];
    } else {
      OneAction(n, Check);
      var n1 := Do(n, Check);
      var left := Survivors(n1.disk.snaps.Keys, KEEP, f.removal);
      assert Top(n1.disk.snaps.Keys, KEEP) <= left;
      hide Runs, AfterCompaction, Top, Restrict, Survivors;
      var removals := RemovePath(n1, left);
      var n2 := n1.(disk := n1.disk.(snaps := Restrict(n1.disk.snaps, left)));
      Compose(n, [Check], n1, removals, n2);
      var compacts := CompactPath(n2, f.snapshot);
      CompactionIgnoresPc(n2, f.snapshot, n.pc);
      Compose(n, [Check] + removals, n2, compacts, AfterSnapshot(n, f));
      acts := [Check] + removals + compacts;
    }
  }

  lemma CompactionIgnoresPc(n: Node, fault: SnapshotFault, pc: Pc)
    ensures AfterCompaction(n.(pc := pc), fault) == AfterCompaction(n, fault)
  {
  }

  lemma TailPath(n: Node, rd: Ready, f: Faults) returns (acts: seq<Action>)
    requires n.pc == Applying(rd, |rd.committed|)
    ensures Runs(n, acts, if NeedsSnapshot(n) then AfterSnapshot(n, f) else n.(pc := Idle))
    ensures Quiet(acts)
  {
    if NeedsSnapshot(n) {
      hide AfterSnapshot, Runs;
      acts := SnapshotPath(n, f);
    } else {
      OneAction(n, Check);
      hide Runs;
      acts := [Check];
    }
  }

  /** The action a Ready's handling starts with. */
  function FirstAction(m: Memory, rd: Ready, f: Faults): Action {
    var failed := SaveFailure(m, rd, f);
    if failed.Some? then SaveFails(rd, failed.value) else Begin(rd)
  }

  lemma SendPath(n: Node, rd: Ready, f: Faults) returns (acts: seq<Action>)
    requires n.pc.Idle? && Fits(n.mem, rd)
    ensures Runs(n, [FirstAction(n.mem, rd, f)] + acts, AfterSend(n, rd, f)) && Quiet(acts)
    ensures Enabled(n, FirstAction(n.mem, rd, f))
  {
    var first := FirstAction(n.mem, rd, f);
    SendEnabled(n, rd, f);
    if first.SaveFails? {
      OneAction(n, first);
      OneAction(Do(n, first), Send);
      hide Enabled, Do, Runs;
      Compose(n, [first], Do(n, first), [Send], AfterSend(n, rd, f));
      acts := [Send];
    } else {
      WrittenAll(n, rd);
      hide Enabled, Do, Runs, Written, AfterSave;
      var writes := WritePath(n, rd, |rd.entries|);
      var w := Written(n, rd, |rd.entries|);
      OneAction(w, EndSave);
      Compose(n, [Begin(rd)] + writes, w, [EndSave], AfterSave(n, rd));
      OneAction(AfterSave(n, rd), Send);
      Compose(n, [Begin(rd)] + writes + [EndSave], AfterSave(n, rd), [Send], AfterSend(n, rd, f));
      acts := writes + [EndSave] + [Send];
      assert [Begin(rd)] + writes + [EndSave] + [Send] == [Begin(rd)] + acts;
    }
  }

  lemma AfterApplyPath(n: Node, rd: Ready, f: Faults) returns (acts: seq<Action>)
    requires n.pc == Applying(rd, 0)
    ensures Runs(n, acts, AfterApply(n, rd, f)) && Quiet(acts)
  {
    AppliedAll(n, rd);
    hide Enabled, Do, Runs, Applied, AfterSnapshot, NeedsSnapshot, Quiet;
    var applies := ApplyPath(n, rd, |rd.committed|);
    var done := Applied(n, rd, |rd.committed|);
    var tail := TailPath(done, rd, f);
    Compose(n, applies, done, tail, AfterApply(n, rd, f));
    BothQuiet(applies, tail);
    acts := applies + tail;
  }

  /** Handling one Ready, whatever fails in it, is a run of the machine that crashes nowhere. */
  lemma ReadyPath(n: Node, rd: Ready, f: Faults) returns (acts: seq<Action>)
    requires n.pc.Idle? && Fits(n.mem, rd)
    ensures Runs(n, [FirstAction(n.mem, rd, f)] + acts, AfterReady(n, rd, f)) && Quiet(acts)
    ensures Enabled(n, FirstAction(n.mem, rd, f))
  {
    SendEnabled(n, rd, f);
    hide Enabled, Do, Runs, AfterSend, Applied, AfterSnapshot, NeedsSnapshot, FirstAction, Quiet, Fits;
    var s := AfterSend(n, rd, f);
    var first := [FirstAction(n.mem, rd, f)];
    var sends := SendPath(n, rd, f);
    var rest := AfterApplyPath(s, rd, f);
    Compose(n, first + sends, s, rest, AfterReady(n, rd, f));
    BothQuiet(sends, rest);
    acts := sends + rest;
    assert first + sends + rest == first + acts;
  }

  lemma SendEnabled(n: Node, rd: Ready, f: Faults)
    requires n.pc.Idle? && Fits(n.mem, rd)
    ensures Enabled(n, FirstAction(n.mem, rd, f))
    ensures Enabled(AfterSave(n, rd), Send) && AfterSend(n, rd, f).pc == Applying(rd, 0)
  {
  }

  lemma AppliedAll(n: Node, rd: Ready)
    requires n.pc == Applying(rd, 0)
    ensures Applied(n, rd, |rd.committed|).pc == Applying(rd, |rd.committed|)
  {
  }

  lemma SnapshotIgnoresPc(n: Node, rd: Ready, f: Faults)
    requires n.pc.Idle? && Fits(n.mem, rd)
    ensures
      var done := Applied(AfterSend(n, rd, f), rd, |rd.committed|);
      AfterSnapshot(done, f) == AfterSnapshot(done.(pc := Idle), f)
  {
  }

  lemma WrittenOnDisk(n: Node, rd: Ready, k: nat)
    requires Enabled(n, Begin(rd)) && 0 < k <= |SaveRecords(n.mem.hardState, rd.hs, rd.entries)|
    ensures
      var m := Written(n, rd, EntriesWritten(n.mem.hardState, rd.hs, k));
      && m.disk == n.disk.(wal := n.disk.wal + SaveRecords(n.mem.hardState, rd.hs, rd.entries)[..k])
      && m.sent == n.sent && m.acked == n.acked
  {
    hide LibraryReady, SaveRecords, EntryRecords;
    PartialSave(n.disk.wal, n.mem.hardState, rd.hs, rd.entries, 0);
    PartialSave(n.disk.wal, n.mem.hardState, rd.hs, rd.entries, EntriesWritten(n.mem.hardState, rd.hs, k));
  }

  /** Entries that do not fit the stored log: the records are written, then the process dies, which is a crash in the
      middle of the Save. */
  lemma PanicPath(n: Node, rd: Ready, k: nat) returns (acts: seq<Action>, m: Node)
    requires n.pc.Idle? && LibraryReady(n.mem, rd) && (n.mem.closed ==> k == 0)
    requires k <= |SaveRecords(n.mem.hardState, rd.hs, rd.entries)|
    ensures Runs(n, acts, m) && NoSaveFailure(acts) && Crash !in acts
    ensures m.disk == n.disk.(wal := n.disk.wal + SaveRecords(n.mem.hardState, rd.hs, rd.entries)[..k])
    ensures m.sent == n.sent && m.acked == n.acked
  {
    if k == 0 {
      acts, m := [], n;
      hide SaveRecords, LibraryReady;
      assert n.disk.wal + SaveRecords(n.mem.hardState, rd.hs, rd.entries)[..0] == n.disk.wal;
    } else {
      assert Enabled(n, Begin(rd)) && EntriesWritten(n.mem.hardState, rd.hs, k) <= |rd.entries|;
      hide *;
      var j := EntriesWritten(n.mem.hardState, rd.hs, k);
      WrittenOnDisk(n, rd, k);
      m := Written(n, rd, j);
      var writes := WritePath(n, rd, j);
      Successful(rd, writes);
      acts := [Begin(rd)] + writes;
    }
  }

  lemma Successful(rd: Ready, quiet: seq<Action>)
    requires Quiet(quiet)
    ensures NoSaveFailure([Begin(rd)] + quiet) && Crash !in [Begin(rd)] + quiet
  {
  }

  // ---------------------------------------------------------------- so the theorems about runs apply

  /** A run from a new disk leads here. */
  ghost predicate Reached(n: Node, acts: seq<Action>) {
    Runs(Init(n.interval), acts, n)
  }

  ghost predicate PlainlyReached(n: Node, acts: seq<Action>) {
    Reached(n, acts) && PlainRun(Init(n.interval), acts)
  }

  ghost predicate PlainlyReachable(n: Node) {
    exists acts :: PlainlyReached(n, acts)
  }

  lemma {:induction false} QuietIsPlain(n: Node, acts: seq<Action>)
    requires Legal(n, acts) && Quiet(acts)
    ensures PlainRun(n, acts)
    decreases |acts|
  {
    hide Enabled, Do;
    if acts != [] {
      assert acts[0] in acts;
      assert forall a :: a in acts[1..] ==> a in acts;
      QuietIsPlain(Do(n, acts[0]), acts[1..]);
    }
  }

  lemma {:induction false} PlainCompose(n: Node, a: seq<Action>, m: Node, b: seq<Action>)
    requires Runs(n, a, m) && PlainRun(n, a) && Legal(m, b) && PlainRun(m, b)
    ensures Legal(n, a + b) && PlainRun(n, a + b) && Exec(n, a + b) == Exec(m, b)
    decreases |a|
  {
    hide Enabled, Do, PlainReady;
    if a == [] {
      assert a + b == b;
    } else {
      assert (a + b)[0] == a[0] && (a + b)[1..] == a[1..] + b;
      PlainCompose(Do(n, a[0]), a[1..], m, b);
    }
  }

  /** One more plain stretch. */
  lemma PlainlyOn(n: Node, acts: seq<Action>, n': Node)
    requires PlainlyReachable(n) && Runs(n, acts, n') && PlainRun(n, acts)
    ensures PlainlyReachable(n') && Recovers(n')
  {
    var before :| PlainlyReached(n, before);
    IntervalConstant(n, acts);
    hide Enabled, Do, PlainReady, Recovers;
    PlainCompose(Init(n.interval), before, n, acts);
    assert PlainlyReached(n', before + acts);
    RecoveryRefinesWholeLog(n.interval, before + acts);
  }

  /** Handling a plain Ready, with or without a failing snapshot, keeps a node among those from which a restart rebuilds
      the state of applying the whole log. */
  lemma ReadyStaysRecoverable(n: Node, rd: Ready, f: Faults)
    requires PlainlyReachable(n) && n.pc.Idle? && Fits(n.mem, rd) && PlainReady(n.mem, rd)
    requires SaveFailure(n.mem, rd, f).None?
    ensures PlainlyReachable(AfterReady(n, rd, f)) && Recovers(AfterReady(n, rd, f))
  {
    var acts := ReadyPath(n, rd, f);
    var all := [Begin(rd)] + acts;
    assert FirstAction(n.mem, rd, f) == Begin(rd);
    hide Enabled, Do, PlainReady, AfterReady, Recovers, PlainlyReachable;
    assert all[0] == Begin(rd) && all[1..] == acts;
    QuietIsPlain(Do(n, Begin(rd)), acts);
    assert PlainRun(n, all);
    PlainlyOn(n, all, AfterReady(n, rd, f));
  }

  /** And so does dying at any point and starting again. */
  lemma RestartStaysRecoverable(n: Node)
    requires PlainlyReachable(n)
    ensures Enabled(n, Crash) && PlainlyReachable(Do(n, Crash)) && Recovers(Do(n, Crash))
  {
    var before :| PlainlyReached(n, before);
    RecoveryRefinesWholeLog(n.interval, before);
    assert Enabled(n, Crash);
    OneAction(n, Crash);
    hide Enabled, Do, PlainReady, Recovers, PlainlyReachable;
    assert [Crash][1..] == [];
    assert PlainRun(n, [Crash]);
    PlainlyOn(n, [Crash], Do(n, Crash));
  }

  /** A new process over the disk that `was` left comes up where a crash of `was` would. */
  lemma StartResumes(n: Node, was: Node)
    requires n.pc.Idle? && n.(mem := was.mem, pc := was.pc) == was && PlainlyReachable(was)
    ensures Recover(n.disk).Some?
    ensures var up := n.(mem := Recover(n.disk).value); PlainlyReachable(up) && Recovers(up)
  {
    RestartStaysRecoverable(was);
    hide PlainlyReachable, Recovers, Recover;
  }

  // ---------------------------------------------------------------- the class

  class RaftNode {
    var wal: WAL
    var snap: Snapshotter
    var store: KVStore
    var storage: MemoryStorage
    var appliedIndex: uint64
    var snapshotIndex: uint64
    var snapshotInterval: nat
    /** The indices notifyProposal was called with, in order. */
    var notified: seq<nat>
    ghost var history: seq<Entry>
    ghost var cut: nat
    ghost var sent: seq<Promise>
    ghost var acked: nat

    /** The directory holds only what Save put there, and no folder bears a snapshot's name. */
    ghost predicate Valid()
      reads this, snap
    {
      Canonical(snap.dir) && NoFolders(snap.dir)
    }

    ghost function Abs(): Node
      requires Valid()
      reads this, wal, snap, store
    {
      Node(Disk(wal.file, View(snap.dir)),
           Memory(wal.hardState, wal.entries, storage, store.data, appliedIndex, snapshotIndex, wal.closed),
           Idle, snapshotInterval, history, cut, sent, acked)
    }

    /** A new process over the directories left by an earlier one, whose observations carry over. */
    constructor (w: WAL, s: Snapshotter, kv: KVStore, interval: nat, ghost was: Node)
      ensures wal == w && snap == s && store == kv && snapshotInterval == interval
      ensures history == was.history && cut == was.cut && sent == was.sent && acked == was.acked
    {
      wal, snap, store, snapshotInterval := w, s, kv, interval;
      storage, appliedIndex, snapshotIndex, notified := MemoryStorage(0, []), 0, 0, [];
      history, cut, sent, acked := was.history, was.cut, was.sent, was.acked;
    }

    /** The process about to start works on the disk, and under the settings, that `was` left. */
    ghost predicate Succeeds(was: Node)
      requires Valid()
      reads this, wal, snap, store
    {
      Abs().(mem := was.mem, pc := was.pc) == was
    }

    /** Load the latest snapshot, read the WAL, fill the storage. `ok` is false where the storage panics. */
    method Start(ghost was: Node) returns (ok: bool)
      requires Valid() && store.data == map[] && !wal.closed
      modifies this, wal, store
      ensures wal == old(wal) && snap == old(snap) && store == old(store) && wal.file == old(wal.file)
      ensures Valid()
      ensures ok <==> Recover(old(Abs()).disk).Some?
      ensures ok ==> Abs() == old(Abs()).(mem := Recover(old(Abs()).disk).value)
      ensures old(Succeeds(was)) && PlainlyReachable(was) ==> ok && PlainlyReachable(Abs()) && Recovers(Abs())
    {
      hide Canonical, NoFolders, View, Recover, PlainlyReachable, Recovers;
      ghost var before := Abs();
      if Succeeds(was) && PlainlyReachable(was) {
        StartResumes(before, was);
      }
      ok := Boot();
    }

    method Boot() returns (ok: bool)
      requires Valid() && store.data == map[] && !wal.closed
      modifies this, wal, store
      ensures wal == old(wal) && snap == old(snap) && store == old(store) && wal.file == old(wal.file)
      ensures Valid()
      ensures ok <==> Recover(old(Abs()).disk).Some?
      ensures ok ==> Abs() == old(Abs()).(mem := Recover(old(Abs()).disk).value)
    {
      hide Canonical, NoFolders, View, Append, IsSnapshotFile, LastState, EntriesOf, Mirrors;
      var loaded := snap.Load();
      var hs, es := wal.ReadAll();
      storage, appliedIndex, snapshotIndex := MemoryStorage(0, []), 0, 0;
      if loaded.Loaded? {
        storage := MemoryStorage(loaded.snapshot.index, []);
        store.Restore(loaded.snapshot.data);
        snapshotIndex := loaded.snapshot.index;
        appliedIndex := loaded.snapshot.index;
      }
      var filled := Append(storage, es);
      if filled.None? {
        return false;
      }
      storage := filled.value;
      ok := true;
    }

    method ApplyEntryToStore(e: Entry)
      modifies store`data
      ensures store.data == ApplyEntry(old(store.data), e)
    {
      match e.payload
      case Put(k, v) => store.Put(k, v);
      case _ =>
    }

    /** Snapshot the store at the applied index, save it, compact the WAL; a failure ends it where it is. */
    method CreateSnapshot(f: Faults) returns (ok: bool)
      requires Valid() && snap as object != wal
      modifies this, wal, snap
      ensures wal == old(wal) && snap == old(snap) && store == old(store) && storage == old(storage)
      ensures Valid() && (ok <==> f.snapshot.AllWell?)
      ensures Abs() == AfterSnapshot(old(Abs()), f)
    {
      hide Canonical, NoFolders, View, FileName, Restrict, Survivors, CompactFile, Above, Mirrors;
      var data := store.Snapshot();
      ok := snap.Save(Snapshot(appliedIndex, data), !f.snapshot.NotWritten?, f.removal);
      if !ok {
        return;
      }
      var bad := match f.snapshot { case NotCompacted => BeforeRename case NotReopened => AtReopen case _ => NoFault };
      ok := wal.Compact(appliedIndex, bad);
      if !bad.BeforeRename? {
        cut := appliedIndex;
      }
      if ok {
        snapshotIndex := appliedIndex;
      }
    }

    /** Apply the committed entries in order, moving the applied index along and notifying each. */
    method ApplyCommitted(committed: seq<Entry>)
      requires store as object != this
      modifies this`appliedIndex, this`acked, this`notified, store`data
      ensures store.data == ApplyAll(old(store.data), committed)
      ensures appliedIndex == if committed == [] then old(appliedIndex) else committed[|committed| - 1].index
      ensures acked == HighestOf(old(acked), committed)
      ensures notified == old(notified) + Indices(committed)
    {
      for j := 0 to |committed|
        invariant store.data == ApplyAll(old(store.data), committed[..j])
        invariant appliedIndex == if j == 0 then old(appliedIndex) else committed[j - 1].index
        invariant acked == HighestOf(old(acked), committed[..j])
        invariant notified == old(notified) + Indices(committed[..j])
      {
        assert committed[..j + 1][..j] == committed[..j];
        ApplyEntryToStore(committed[j]);
        appliedIndex := committed[j].index;
        acked := Max(acked, committed[j].index);
        notified := notified + [committed[j].index];
      }
      assert committed[..|committed|] == committed;
    }

    /** Save, whose failure is only logged, and the storage's append, which panics if the entries do not fit. */
    method BeginSave(rd: Ready, f: Faults) returns (ok: bool)
      requires Valid() && LibraryReady(Abs().mem, rd)
      modifies this`storage, this`history, wal
      ensures Valid() && (ok <==> Fits(old(Abs()).mem, rd))
      ensures
        var n := old(Abs());
        var failed := SaveFailure(n.mem, rd, f);
        && (ok ==> Abs().(pc := Saved(rd)) ==
                   if failed.Some? then Do(n, SaveFails(rd, failed.value)) else AfterSave(n, rd))
        && (!ok ==> Abs().disk == n.disk.(wal := n.disk.wal + SavedRecords(n.mem, rd, f)))
    {
      hide Canonical, NoFolders, View, Mirrors, Append, EntryRecords, EntriesOf, LastState;
      ghost var recs := SaveRecords(wal.hardState, rd.hs, rd.entries);
      ghost var failed := SaveFailure(Abs().mem, rd, f);
      var saved := wal.Save(rd.hs, rd.entries, f.writes, f.synced);
      history := history + (if failed.Some? then EntriesOf(recs[..failed.value]) else rd.entries);
      var filled := Append(storage, rd.entries);
      ok := filled.Some?;
      if ok {
        storage := filled.value;
      }
    }

    /** Messages leave, then a peer's snapshot replaces the store. */
    method SendAndInstall(rd: Ready)
      requires Valid() && store as object != this
      modifies this`sent, this`storage, this`snapshotIndex, this`appliedIndex, store`data
      ensures Valid() && Abs().(pc := Applying(rd, 0)) == Do(old(Abs()).(pc := Saved(rd)), Send)
    {
      hide Canonical, NoFolders, View;
      sent := sent + [Promise(Effective(wal.hardState, rd.hs), rd.entries)];
      if rd.snapshot.Some? {
        var s := rd.snapshot.value;
        storage := if s.index > storage.offset then MemoryStorage(s.index, []) else storage;
        store.Restore(s.data);
        snapshotIndex := s.index;
        appliedIndex := s.index;
      }
    }

    /** Everything up to the applied entries. */
    method SaveSendApply(rd: Ready, f: Faults) returns (ok: bool)
      requires Valid() && LibraryReady(Abs().mem, rd)
      modifies this`storage, this`history, this`sent, this`snapshotIndex, this`appliedIndex, this`acked, this`notified
      modifies wal, store
      ensures Valid() && (ok <==> Fits(old(Abs()).mem, rd))
      ensures ok ==> Abs() == UpToApplied(old(Abs()), rd, f)
      ensures ok ==> notified == old(notified) + Indices(rd.committed)
      ensures !ok ==> Abs().disk == old(Abs()).disk.(wal := old(Abs()).disk.wal + SavedRecords(old(Abs()).mem, rd, f))
    {
      hide LibraryReady, Canonical, NoFolders, View, Do, AfterSave, ApplyAll, HighestOf, Append;
      hide SaveFailure, SaveRecords, SavedRecords, Indices;
      ghost var n := Abs();
      ok := BeginSave(rd, f);
      if !ok {
        return;
      }
      SendAndInstall(rd);
      assert Abs().(pc := Applying(rd, 0)) == AfterSend(n, rd, f);
      ApplyCommitted(rd.committed);
      assert rd.committed[..|rd.committed|] == rd.committed;
    }

    /** The Ready branch of the event loop, whatever fails in it: save, append to the storage, send, install a peer's
        snapshot, apply, and snapshot when the lag has reached the interval. `ok` is false where the storage panics. */
    method HandleReady(rd: Ready, f: Faults) returns (ok: bool)
      requires Valid() && wal as object != snap && LibraryReady(Abs().mem, rd)
      modifies this, wal, snap, store
      ensures wal == old(wal) && snap == old(snap) && store == old(store)
      ensures Valid() && (ok <==> Fits(old(Abs()).mem, rd))
      ensures ok ==> Abs() == AfterReady(old(Abs()), rd, f)
      ensures !ok ==> Abs().disk == old(Abs()).disk.(wal := old(Abs()).disk.wal + SavedRecords(old(Abs()).mem, rd, f))
      ensures
        ok && old(PlainlyReachable(Abs())) && PlainReady(old(Abs()).mem, rd) && SaveFailure(old(Abs()).mem, rd, f).None?
        ==> PlainlyReachable(Abs()) && Recovers(Abs())
    {
      hide Fits, LibraryReady, Canonical, NoFolders, View, Applied, AfterSend, AfterSnapshot;
      hide PlainlyReachable, PlainReady, SaveFailure, SavedRecords, Recovers, Indices;
      ghost var n := Abs();
      ok := SaveSendApply(rd, f);
      if !ok {
        return;
      }
      if Sub64(appliedIndex, snapshotIndex) >= snapshotInterval {
        var ignored := CreateSnapshot(f);
        SnapshotIgnoresPc(n, rd, f);
      }
      assert Abs() == AfterReady(n, rd, f) by {
        SendEnabled(n, rd, f);
      }
      if PlainlyReachable(n) && PlainReady(n.mem, rd) && SaveFailure(n.mem, rd, f).None? {
        ReadyStaysRecoverable(n, rd, f);
      }
    }
  }
}
