/** A snapshot sent by a peer replaces the store. What the node holds from then on, until it dies or the next one
    comes. */
module Installs {
  import opened Types
  import opened Wal
  import opened Replay
  import opened Snapshots
  import opened Durable
  import opened Persistence
  import opened Restarts

  // ---------------------------------------------------------------- what a run applies

  /** The entry an action applies, if it applies one. */
  ghost function AppliedBy(n: Node, a: Action): seq<Entry>
    requires Enabled(n, a)
  {
    if a.ApplyNext? then [n.pc.rd.committed[n.pc.done]] else []
  }

  /** The entries applied in a run, in order. */
  ghost function AppliedIn(n: Node, acts: seq<Action>): seq<Entry>
    requires Legal(n, acts)
    decreases |acts|
  {
    if acts == [] then [] else AppliedBy(n, acts[0]) + AppliedIn(Do(n, acts[0]), acts[1..])
  }

  /** Nothing crashes, and no peer's snapshot is installed. */
  ghost predicate Undisturbed(n: Node, acts: seq<Action>)
    requires Legal(n, acts)
    decreases |acts|
  {
    acts != [] ==>
      && !acts[0].Crash? && !(acts[0].Send? && n.pc.rd.snapshot.Some?)
      && Undisturbed(Do(n, acts[0]), acts[1..])
  }

  lemma StoreStep(n: Node, a: Action)
    requires ApplyInv(n) && Enabled(n, a) && !a.Crash? && !(a.Send? && n.pc.rd.snapshot.Some?)
    ensures
      var m, m' := n.mem, Do(n, a).mem;
      if a.ApplyNext? then
        var e := n.pc.rd.committed[n.pc.done];
        e.index == m.applied + 1 == m'.applied && m'.store == ApplyAll(m.store, [e])
      else m'.applied == m.applied && m'.store == m.store
  {
    hide Append, Latest, Above, CompactFile, SaveRecords, LibraryReady;
    if a.ApplyNext? {
      var e := n.pc.rd.committed[n.pc.done];
      assert [e][..0] == [] && ApplyAll(n.mem.store, []) == n.mem.store;
    }
  }

  lemma {:induction false} StoreRun(n: Node, acts: seq<Action>)
    requires ApplyInv(n) && Legal(n, acts) && Undisturbed(n, acts)
    ensures
      var es, m := AppliedIn(n, acts), Exec(n, acts).mem;
      && Consecutive(es, n.mem.applied + 1) && m.applied == n.mem.applied + |es|
      && m.store == ApplyAll(n.mem.store, es)
    decreases |acts|
  {
    if acts != [] {
      var n1 := Do(n, acts[0]);
      StoreStep(n, acts[0]);
      ApplyStep(n, acts[0]);
      hide ApplyInv, Enabled, Do, ApplyAll;
      StoreRun(n1, acts[1..]);
      var es := AppliedIn(n1, acts[1..]);
      if acts[0].ApplyNext? {
        ApplySplit(n.mem.store, [n.pc.rd.committed[n.pc.done]], es);
      } else {
        assert AppliedIn(n, acts) == es;
      }
    }
  }

  // ---------------------------------------------------------------- the storage's offset

  ghost predicate OffsetInv(n: Node) {
    n.mem.storage.offset <= n.mem.applied
  }

  lemma OffsetStep(n: Node, a: Action)
    requires ApplyInv(n) && OffsetInv(n) && Enabled(n, a)
    ensures OffsetInv(Do(n, a))
  {
    hide Latest, Above, CompactFile, SaveRecords, LibraryReady;
  }

  lemma {:induction false} OffsetRun(n: Node, acts: seq<Action>)
    requires ApplyInv(n) && OffsetInv(n) && Legal(n, acts)
    ensures OffsetInv(Exec(n, acts))
    decreases |acts|
  {
    hide ApplyInv, OffsetInv, Enabled, Do;
    if acts != [] {
      OffsetStep(n, acts[0]);
      ApplyStep(n, acts[0]);
      OffsetRun(Do(n, acts[0]), acts[1..]);
    }
  }

  // ---------------------------------------------------------------- the log since the install

  /** The committed entries still to be applied are the log's next ones. */
  ghost predicate CommitsNext(n: Node) {
    match n.pc
    case Saving(rd, k) =>
      && (rd.entries != [] ==> Consecutive(rd.entries, rd.entries[0].index) && rd.entries[0].index > n.mem.applied)
      && (rd.snapshot.None? ==>
            var log := Append(n.mem.storage, rd.entries);
            log.Some? && NextIn(log.value, n.mem.applied, rd.committed))
    case Saved(rd) => rd.snapshot.None? ==> NextIn(n.mem.storage, n.mem.applied, rd.committed)
    case Applying(rd, done) =>
      done <= |rd.committed| && NextIn(n.mem.storage, n.mem.applied, rd.committed[done..])
    case _ => true
  }

  /** Since an install at `from`, exactly the entries `es` have been applied, and they head the log. */
  ghost predicate LogSince(n: Node, from: nat, es: seq<Entry>) {
    && n.mem.storage.offset == from && n.mem.applied == from + |es|
    && es <= n.mem.storage.ents
    && CommitsNext(n)
  }

  /** New entries beyond the applied index leave what is applied alone. */
  lemma AppendBeyond(ms: MemoryStorage, es: seq<Entry>, applied: nat)
    requires ms.offset <= applied <= LastIndex(ms) && Append(ms, es).Some?
    requires es != [] ==> es[0].index > applied
    ensures
      var log := Append(ms, es).value;
      && log.offset == ms.offset && applied <= LastIndex(log)
      && log.ents[..applied - ms.offset] == ms.ents[..applied - ms.offset]
  {
  }

  lemma BeginSince(n: Node, rd: Ready, from: nat, es: seq<Entry>)
    requires LogSince(n, from, es) && Enabled(n, Begin(rd))
    ensures LogSince(Do(n, Begin(rd)), from, es)
  {
    hide Append, NewState;
  }

  /** What appending a batch does to the log since the install. */
  lemma AppendSince(m: Memory, rd: Ready, es: seq<Entry>)
    requires m.storage.offset + |es| == m.applied && es <= m.storage.ents && Append(m.storage, rd.entries).Some?
    requires rd.entries != [] ==> rd.entries[0].index > m.applied
    ensures
      var log := Append(m.storage, rd.entries).value;
      log.offset == m.storage.offset && es <= log.ents
  {
    assert es == m.storage.ents[..|es|];
    AppendBeyond(m.storage, rd.entries, m.applied);
    hide Append;
  }

  lemma EndSaveSince(n: Node, from: nat, es: seq<Entry>)
    requires LogSince(n, from, es) && Enabled(n, EndSave)
    ensures LogSince(Do(n, EndSave), from, es)
  {
    hide Append, NextIn;
    AppendSince(n.mem, n.pc.rd, es);
  }

  lemma SaveFailsSince(n: Node, rd: Ready, k: nat, from: nat, es: seq<Entry>)
    requires LogSince(n, from, es) && Enabled(n, SaveFails(rd, k))
    ensures LogSince(Do(n, SaveFails(rd, k)), from, es)
  {
    hide Append, SaveRecords, EntriesOf;
    AppendSince(n.mem, rd, es);
  }

  lemma ApplySince(n: Node, from: nat, es: seq<Entry>)
    requires ApplyInv(n) && LogSince(n, from, es) && Enabled(n, ApplyNext)
    ensures LogSince(Do(n, ApplyNext), from, es + [n.pc.rd.committed[n.pc.done]])
  {
    hide Append, Latest;
    var rd, done, ms := n.pc.rd, n.pc.done, n.mem.storage;
    var e := rd.committed[done];
    assert e.index == n.mem.applied + 1;
    assert rd.committed[done..][0] == e;
    assert AtIndex(ms, n.mem.applied, e);
    NextInStep(ms, n.mem.applied, rd.committed[done..]);
    assert rd.committed[done..][1..] == rd.committed[done + 1..];
  }

  lemma OtherSince(n: Node, a: Action, from: nat, es: seq<Entry>)
    requires LogSince(n, from, es) && Enabled(n, a)
    requires !a.Begin? && !a.EndSave? && !a.SaveFails? && !a.ApplyNext? && !a.Crash?
    requires !(a.Send? && n.pc.rd.snapshot.Some?)
    ensures LogSince(Do(n, a), from, es)
  {
    hide Append, Latest, Above, CompactFile, NextIn;
    if a.Send? {
      assert n.pc.rd.committed[0..] == n.pc.rd.committed;
    }
  }

  lemma SinceStep(n: Node, a: Action, from: nat, es: seq<Entry>)
    requires ApplyInv(n) && LogSince(n, from, es) && Enabled(n, a)
    requires !a.Crash? && !(a.Send? && n.pc.rd.snapshot.Some?)
    ensures LogSince(Do(n, a), from, es + AppliedBy(n, a))
  {
    assert es + [] == es;
    match a
    case Begin(rd) => BeginSince(n, rd, from, es);
    case EndSave => EndSaveSince(n, from, es);
    case SaveFails(rd, k) => SaveFailsSince(n, rd, k, from, es);
    case ApplyNext => ApplySince(n, from, es);
    case _ =>
      hide LogSince, ApplyInv;
      OtherSince(n, a, from, es);
  }

  lemma {:induction false} LogRun(n: Node, acts: seq<Action>, from: nat, es: seq<Entry>)
    requires ApplyInv(n) && LogSince(n, from, es) && Legal(n, acts) && Undisturbed(n, acts)
    ensures LogSince(Exec(n, acts), from, es + AppliedIn(n, acts))
    decreases |acts|
  {
    if acts == [] {
      assert es + [] == es;
    } else {
      SinceStep(n, acts[0], from, es);
      ApplyStep(n, acts[0]);
      hide ApplyInv, LogSince, Enabled, Do, AppliedBy;
      LogRun(Do(n, acts[0]), acts[1..], from, es + AppliedBy(n, acts[0]));
      assert (es + AppliedBy(n, acts[0])) + AppliedIn(Do(n, acts[0]), acts[1..]) == es + AppliedIn(n, acts);
    }
  }

  // ---------------------------------------------------------------- main results

  /** The node is about to install s: its messages are next. */
  ghost predicate Installing(n: Node, s: Snapshot) {
    n.pc.Saved? && n.pc.rd.snapshot == Some(s)
  }

  lemma BeforeInstall(interval: nat, before: seq<Action>)
    requires Legal(Init(interval), before)
    ensures ApplyInv(Exec(Init(interval), before)) && OffsetInv(Exec(Init(interval), before))
  {
    InitState(interval);
    ApplyRun(Init(interval), before);
    OffsetRun(Init(interval), before);
  }

  /** A peer's snapshot replaces the store, whatever the store held before. In every run, failed Saves and snapshots
      included: right after the install the node is at the snapshot and nothing else; and from then on, until it dies or
      installs another, its store is the snapshot's data with the entries applied since, which are numbered from the
      snapshot's index on. A local snapshot written in that time carries exactly that state. */
  lemma InstallReplacesStore(interval: nat, before: seq<Action>, s: Snapshot, after: seq<Action>)
    requires Legal(Init(interval), before) && Installing(Exec(Init(interval), before), s)
    requires Legal(Do(Exec(Init(interval), before), Send), after)
    requires Undisturbed(Do(Exec(Init(interval), before), Send), after)
    ensures
      var n := Do(Exec(Init(interval), before), Send);
      var n', es := Exec(n, after), AppliedIn(n, after);
      && n.mem.store == s.data && n.mem.storage == MemoryStorage(s.index, [])
      && n.mem.applied == n.mem.snapIndex == s.index
      && Consecutive(es, s.index + 1) && n'.mem.applied == s.index + |es|
      && n'.mem.store == ApplyAll(s.data, es)
      && (Enabled(n', Check) && NeedsSnapshot(n') ==>
            var snaps := Do(n', Check).disk.snaps;
            n'.mem.applied in snaps && snaps[n'.mem.applied] == ApplyAll(s.data, es))
  {
    var n0 := Exec(Init(interval), before);
    BeforeInstall(interval, before);
    ApplyStep(n0, Send);
    var n := Do(n0, Send);
    assert n.mem.store == s.data && n.mem.storage == MemoryStorage(s.index, []);
    hide ApplyInv, Legal, Exec, Undisturbed, AppliedIn;
    StoreRun(n, after);
  }

  /** And those entries are the log's: unless the installing Ready itself brought committed entries, which the storage
      drops when it installs the snapshot, they are the first entries of the log past the snapshot. */
  lemma InstalledLog(interval: nat, before: seq<Action>, s: Snapshot, after: seq<Action>)
    requires Legal(Init(interval), before) && Installing(Exec(Init(interval), before), s)
    requires Exec(Init(interval), before).pc.rd.committed == []
    requires Legal(Do(Exec(Init(interval), before), Send), after)
    requires Undisturbed(Do(Exec(Init(interval), before), Send), after)
    ensures
      var n := Do(Exec(Init(interval), before), Send);
      var storage := Exec(n, after).mem.storage;
      storage.offset == s.index && AppliedIn(n, after) <= storage.ents
  {
    var n0 := Exec(Init(interval), before);
    BeforeInstall(interval, before);
    ApplyStep(n0, Send);
    var n := Do(n0, Send);
    assert n0.pc.rd.committed[0..] == [];
    assert LogSince(n, s.index, []);
    hide ApplyInv, Legal, Exec, Undisturbed, AppliedIn;
    LogRun(n, after, s.index, []);
    assert [] + AppliedIn(n, after) == AppliedIn(n, after);
  }
}
