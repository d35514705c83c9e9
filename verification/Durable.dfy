/** One node as a state machine over its disk and its memory. Every action is one atomic step of the event loop:
    a record appended, a file written, removed or renamed, or a step in memory. A crash may come between any two. */
module Durable {
  import opened Types
  import opened Wal
  import opened Replay
  import opened Snapshots

  datatype Disk = Disk(wal: seq<Record>, snaps: map<nat, KV>)

  /** `closed` says that the WAL's handle is closed, after a compaction that could not reopen the file. */
  datatype Memory = Memory(hardState: HardState, entries: seq<Entry>, storage: MemoryStorage,
                           store: KV, applied: uint64, snapIndex: uint64, closed: bool)

  /** A batch from the Raft library. `committed` is what to apply; `snapshot` is one sent by a peer. */
  datatype Ready = Ready(hs: HardState, entries: seq<Entry>, snapshot: Option<Snapshot>, committed: seq<Entry>)

  /** What the messages of one Ready rest on: the hard state and the new entries behind them. */
  datatype Promise = Promise(hs: HardState, entries: seq<Entry>)

  /** Where the event loop is. */
  datatype Pc =
    | Idle
    | Saving(rd: Ready, written: nat)
    | Saved(rd: Ready)
    | Applying(rd: Ready, done: nat)
    | SnapWritten
    | SnapCleaned
    | WalReplaced

  /** `history`, `cut`, `sent` and `acked` are observations the code does not keep: every entry record ever written
      in order, the index of the last compaction, what every message sent so far rests on, and the highest index
      ever applied. */
  datatype Node = Node(disk: Disk, mem: Memory, pc: Pc, interval: nat,
                       history: seq<Entry>, cut: nat, sent: seq<Promise>, acked: nat)

  datatype Action =
    | Begin(rd: Ready)
    | WriteEntry
    | EndSave
    | SaveFails(rd: Ready, k: nat)
    | Send
    | ApplyNext
    | Check
    | SnapshotFails
    | RemoveOld(i: nat)
    | Cleaned
    | ReplaceWal
    | Finish
    | ReopenFails
    | Crash

  // ---------------------------------------------------------------- what the Raft library promises

  /** A later hard state: the term never goes back, a vote cast in a term stays, commit never goes back. */
  predicate Follows(a: HardState, b: HardState) {
    && a.term <= b.term
    && (a.term == b.term ==> a.vote == 0 || a.vote == b.vote)
    && a.commit <= b.commit
  }

  /** The hard state a Ready stands for: an empty one means no change. */
  function Effective(cur: HardState, hs: HardState): HardState {
    if hs == EMPTY_STATE then cur else hs
  }

  /** Where the committed entries of a Ready continue from. */
  function ApplyFrom(m: Memory, rd: Ready): uint64 {
    if rd.snapshot.Some? then rd.snapshot.value.index else m.applied
  }

  predicate Consecutive(es: seq<Entry>, first: nat) {
    forall k :: 0 <= k < |es| ==> es[k].index == first + k
  }

  /** The log as the library sees it once the Ready is handled: the new entries continue the stored log,
      or the peer's snapshot if there is one. */
  function LogAfter(m: Memory, rd: Ready): Option<MemoryStorage> {
    Append(if rd.snapshot.Some? then MemoryStorage(rd.snapshot.value.index, []) else m.storage, rd.entries)
  }

  /** Hard states never go back; entries are consecutive, continue the log and rewrite nothing applied; a snapshot is
      ahead of what is applied; committed entries are the log's next ones and lie within the commit index. */
  predicate LibraryReady(m: Memory, rd: Ready) {
    && Follows(m.hardState, Effective(m.hardState, rd.hs))
    && (rd.entries != [] ==> Consecutive(rd.entries, rd.entries[0].index) && rd.entries[0].index > m.applied)
    && (rd.snapshot.Some? ==> rd.snapshot.value.index > m.applied)
    && Consecutive(rd.committed, ApplyFrom(m, rd) + 1)
    && ApplyFrom(m, rd) + |rd.committed| < TWO64
    && (rd.committed != [] ==> ApplyFrom(m, rd) + |rd.committed| <= Effective(m.hardState, rd.hs).commit)
    && LogAfter(m, rd).Some?
    && var log := LogAfter(m, rd).value;
       forall j :: 0 <= j < |rd.committed| ==>
         && log.offset <= ApplyFrom(m, rd) + j < LastIndex(log)
         && rd.committed[j] == log.ents[ApplyFrom(m, rd) + j - log.offset]
  }

  /** A Ready with nothing in it is always allowed, and so is any newer vote, any next entry and committing it. */
  lemma LibraryReadyAllows(m: Memory, e: Entry, term: nat, vote: nat)
    requires term > m.hardState.term && m.storage.offset <= m.applied == LastIndex(m.storage) < TWO64 - 1
    requires e.index == m.applied + 1
    ensures LibraryReady(m, Ready(EMPTY_STATE, [], None, []))
    ensures LibraryReady(m, Ready(HardState(term, vote, m.hardState.commit), [], None, []))
    ensures LibraryReady(m, Ready(HardState(term, vote, m.hardState.commit + e.index), [e], None, [e]))
  {
    var ms := m.storage;
    assert ms.ents[..|ms.ents|] == ms.ents;
  }

  // ---------------------------------------------------------------- the steps

  /** Start, as far as memory goes: load the latest snapshot, read the WAL, append it to a fresh storage.
      None is the storage's panic. */
  ghost function Recover(d: Disk): Option<Memory> {
    var base := Latest(d.snaps.Keys);
    var storage := Append(MemoryStorage(base, []), EntriesOf(d.wal));
    if base >= TWO64 || storage.None? then None
    else Some(Memory(LastState(d.wal), EntriesOf(d.wal), storage.value,
                     if base == 0 then map[] else d.snaps[base], base, base, false))
  }

  function Install(m: Memory, s: Snapshot): Memory {
    m.(storage := if s.index > m.storage.offset then MemoryStorage(s.index, []) else m.storage,
       store := s.data, applied := s.index, snapIndex := s.index)
  }

  predicate NeedsSnapshot(n: Node) {
    Sub64(n.mem.applied, n.mem.snapIndex) >= n.interval
  }

  /** The code appends a Ready's entries to the storage before it installs the Ready's snapshot, so entries that only
      fit after the snapshot make the storage panic: EndSave is not enabled then, and a crash is all that can follow.
      Through a closed handle every Save fails, and nothing is written. */
  ghost predicate Enabled(n: Node, a: Action) {
    match a
    case Begin(rd) => n.pc.Idle? && !n.mem.closed && LibraryReady(n.mem, rd)
    case WriteEntry => n.pc.Saving? && n.pc.written < |n.pc.rd.entries|
    case EndSave => n.pc.Saving? && n.pc.written == |n.pc.rd.entries| && Append(n.mem.storage, n.pc.rd.entries).Some?
    case SaveFails(rd, k) =>
      && n.pc.Idle? && LibraryReady(n.mem, rd) && Append(n.mem.storage, rd.entries).Some?
      && k <= |SaveRecords(n.mem.hardState, rd.hs, rd.entries)| && (n.mem.closed ==> k == 0)
    case Send => n.pc.Saved?
    case ApplyNext => n.pc.Applying? && n.pc.done < |n.pc.rd.committed|
    case Check => n.pc.Applying? && n.pc.done == |n.pc.rd.committed|
    case SnapshotFails => n.pc.SnapCleaned? || (n.pc.Applying? && n.pc.done == |n.pc.rd.committed| && NeedsSnapshot(n))
    case RemoveOld(i) => n.pc.SnapWritten? && i in n.disk.snaps && |Higher(n.disk.snaps.Keys, i)| >= KEEP
    case Cleaned => n.pc.SnapWritten?
    case ReplaceWal => n.pc.SnapCleaned?
    case Finish => n.pc.WalReplaced?
    case ReopenFails => n.pc.WalReplaced?
    case Crash => Recover(n.disk).Some?
  }

  ghost function Do(n: Node, a: Action): Node
    requires Enabled(n, a)
  {
    match a
    case Begin(rd) =>
      if NewState(n.mem.hardState, rd.hs) then
        n.(disk := n.disk.(wal := n.disk.wal + [StateRecord(rd.hs)]), mem := n.mem.(hardState := rd.hs),
           pc := Saving(rd, 0))
      else n.(pc := Saving(rd, 0))
    case WriteEntry =>
      var e := n.pc.rd.entries[n.pc.written];
      n.(disk := n.disk.(wal := n.disk.wal + [EntryRecord(e)]), history := n.history + [e],
         pc := Saving(n.pc.rd, n.pc.written + 1))
    case EndSave =>
      var rd := n.pc.rd;
      n.(mem := n.mem.(entries := n.mem.entries + rd.entries, storage := Append(n.mem.storage, rd.entries).value),
         pc := Saved(rd))
    case SaveFails(rd, k) =>
      var recs := SaveRecords(n.mem.hardState, rd.hs, rd.entries)[..k];
      n.(disk := n.disk.(wal := n.disk.wal + recs),
         mem := n.mem.(hardState := if k > 0 && NewState(n.mem.hardState, rd.hs) then rd.hs else n.mem.hardState,
                       storage := Append(n.mem.storage, rd.entries).value),
         history := n.history + EntriesOf(recs), pc := Saved(rd))
    case Send =>
      var rd := n.pc.rd;
      n.(sent := n.sent + [Promise(Effective(n.mem.hardState, rd.hs), rd.entries)],
         mem := if rd.snapshot.Some? then Install(n.mem, rd.snapshot.value) else n.mem,
         pc := Applying(rd, 0))
    case ApplyNext =>
      var e := n.pc.rd.committed[n.pc.done];
      n.(mem := n.mem.(store := ApplyEntry(n.mem.store, e), applied := e.index),
         acked := if e.index > n.acked then e.index else n.acked,
         pc := Applying(n.pc.rd, n.pc.done + 1))
    case Check =>
      if NeedsSnapshot(n) then
        n.(disk := n.disk.(snaps := n.disk.snaps[n.mem.applied := n.mem.store]), pc := SnapWritten)
      else n.(pc := Idle)
    case SnapshotFails => n.(pc := Idle)
    case RemoveOld(i) => n.(disk := n.disk.(snaps := n.disk.snaps - {i}))
    case Cleaned => n.(pc := SnapCleaned)
    case ReplaceWal =>
      n.(disk := n.disk.(wal := CompactFile(n.mem.hardState, Above(n.mem.entries, n.mem.applied))),
         cut := n.mem.applied, pc := WalReplaced)
    case Finish =>
      n.(mem := n.mem.(entries := Above(n.mem.entries, n.mem.applied), snapIndex := n.mem.applied, closed := false),
         pc := Idle)
    case ReopenFails => n.(mem := n.mem.(closed := true), pc := Idle)
    case Crash => n.(mem := Recover(n.disk).value, pc := Idle)
  }

  // ---------------------------------------------------------------- runs

  ghost function Init(interval: nat): Node {
    var mem := Memory(EMPTY_STATE, [], MemoryStorage(0, []), map[], 0, 0, false);
    Node(Disk([], map[]), mem, Idle, interval, [], 0, [], 0)
  }

  ghost predicate Legal(n: Node, acts: seq<Action>)
    decreases |acts|
  {
    acts == [] || (Enabled(n, acts[0]) && Legal(Do(n, acts[0]), acts[1..]))
  }

  ghost function Exec(n: Node, acts: seq<Action>): Node
    requires Legal(n, acts)
    decreases |acts|
  {
    if acts == [] then n else Exec(Do(n, acts[0]), acts[1..])
  }

  /** Every Save succeeds. */
  ghost predicate NoSaveFailure(acts: seq<Action>) {
    forall a :: a in acts ==> !a.SaveFails?
  }

  /** No Ready carries a peer's snapshot, and each batch of entries starts right after the log's last one. */
  ghost predicate PlainReady(m: Memory, rd: Ready) {
    rd.snapshot.None? && (rd.entries != [] ==> rd.entries[0].index == LastIndex(m.storage) + 1)
  }

  ghost predicate PlainRun(n: Node, acts: seq<Action>)
    requires Legal(n, acts)
    decreases |acts|
  {
    acts != [] ==>
      && !acts[0].SaveFails?
      && (acts[0].Begin? ==> PlainReady(n.mem, acts[0].rd))
      && PlainRun(Do(n, acts[0]), acts[1..])
  }

  /** acts takes n to n'. */
  ghost predicate Runs(n: Node, acts: seq<Action>, n': Node) {
    Legal(n, acts) && Exec(n, acts) == n'
  }

  lemma OneAction(n: Node, a: Action)
    requires Enabled(n, a)
    ensures Runs(n, [a], Do(n, a))
  {
    hide Enabled, Do;
    assert [a][1..] == [];
    assert Legal(Do(n, a), []) && Exec(Do(n, a), []) == Do(n, a);
  }

  lemma {:induction false} Compose(n: Node, a: seq<Action>, m: Node, b: seq<Action>, n': Node)
    requires Runs(n, a, m) && Runs(m, b, n')
    ensures Runs(n, a + b, n')
    decreases |a|
  {
    hide Enabled, Do;
    if a == [] {
      assert a + b == b;
    } else {
      Compose(Do(n, a[0]), a[1..], m, b, n');
      assert (a + b)[1..] == a[1..] + b;
    }
  }

  /** A run cut in two is two runs. */
  lemma {:induction false} Split(n: Node, a: seq<Action>, b: seq<Action>)
    requires Legal(n, a + b)
    ensures Legal(n, a) && Legal(Exec(n, a), b) && Exec(n, a + b) == Exec(Exec(n, a), b)
    ensures PlainRun(n, a + b) ==> PlainRun(n, a)
    decreases |a|
  {
    hide Enabled, Do, PlainReady;
    if a == [] {
      assert a + b == b;
    } else {
      assert (a + b)[0] == a[0] && (a + b)[1..] == a[1..] + b;
      Split(Do(n, a[0]), a[1..], b);
    }
  }
}
