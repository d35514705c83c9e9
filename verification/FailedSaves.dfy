/** The event loop only logs a failed Save and goes on. What that costs, exactly: at the Save itself, and over whole
    runs in which any number of Saves fail. */
module FailedSaves {
  import opened Types
  import opened Wal
  import opened Replay
  import opened Snapshots
  import opened Durable
  import opened Persistence

  // ---------------------------------------------------------------- one failed Save

  /** A vote is remembered by a hard state of the same term and vote, or of a later term. */
  predicate Remembers(hs: HardState, p: HardState) {
    hs.term > p.term || (hs.term == p.term && hs.vote == p.vote)
  }

  /** After any run whatever, let a Save fail with k records written and the loop send all the same. A crash now would
      recover a hard state as new as the promised one unless the write that failed was the record of a new hard state,
      and it would forget the promised vote if and only if that record had a new term or vote. */
  lemma FailedSaveForgets(interval: nat, acts: seq<Action>, rd: Ready, k: nat)
    requires Legal(Init(interval), acts) && Enabled(Exec(Init(interval), acts), SaveFails(rd, k))
    ensures
      var n := Exec(Init(interval), acts);
      var m := Do(Do(n, SaveFails(rd, k)), Send);
      var cur, p := n.mem.hardState, Effective(n.mem.hardState, rd.hs);
      && m.sent == n.sent + [Promise(p, rd.entries)]
      && (Follows(p, LastState(m.disk.wal)) <==> !(NewState(cur, rd.hs) && k == 0))
      && (Remembers(LastState(m.disk.wal), p) <==> k > 0 || (p.term == cur.term && p.vote == cur.vote))
  {
    InitState(interval);
    SameStateRun(Init(interval), acts);
    var n := Exec(Init(interval), acts);
    var cur, p := n.mem.hardState, Effective(n.mem.hardState, rd.hs);
    SaveReadsBackAt(n.disk.wal, cur, rd.hs, rd.entries, k);
    hide LastState, EntriesOf, Append, SaveRecords, Exec, Legal, Latest;
    if NewState(cur, rd.hs) && Follows(p, cur) {
      FollowsAntisymmetric(p, cur);
    }
  }

  /** In a batch of consecutive entries only the written ones are among the first i. */
  lemma SameOnlyAtItsPlace(es: seq<Entry>, j: nat)
    requires j < |es| && Consecutive(es, es[0].index)
    ensures forall i :: 0 <= i <= |es| ==> (es[j] in es[..i] <==> j < i)
  {
    forall i | 0 <= i <= |es| ensures es[j] in es[..i] <==> j < i {
      if j < i {
        assert es[..i][j] == es[j];
      }
      if es[j] in es[..i] {
        var k :| 0 <= k < i && es[..i][k] == es[j];
        assert es[k].index == es[0].index + k;
      }
    }
  }

  lemma BatchOnDisk(n: Node, rd: Ready, k: nat, j: nat)
    requires SameState(n) && Enabled(n, SaveFails(rd, k)) && j < |rd.entries|
    ensures
      Kept(Do(n, SaveFails(rd, k)).disk, rd.entries[j]) <==>
      j < EntriesWritten(n.mem.hardState, rd.hs, k) || Kept(n.disk, rd.entries[j])
  {
    SaveReadsBackAt(n.disk.wal, n.mem.hardState, rd.hs, rd.entries, k);
    hide LastState, EntriesOf, Append, SaveRecords, Latest;
    SameOnlyAtItsPlace(rd.entries, j);
  }

  /** And an entry of that Ready is on disk if and only if its write came before the failure, or it was there before. */
  lemma FailedSaveLoses(interval: nat, acts: seq<Action>, rd: Ready, k: nat, j: nat)
    requires Legal(Init(interval), acts) && Enabled(Exec(Init(interval), acts), SaveFails(rd, k)) && j < |rd.entries|
    ensures
      var n := Exec(Init(interval), acts);
      var m := Do(Do(n, SaveFails(rd, k)), Send);
      Kept(m.disk, rd.entries[j]) <==> j < EntriesWritten(n.mem.hardState, rd.hs, k) || Kept(n.disk, rd.entries[j])
  {
    InitState(interval);
    SameStateRun(Init(interval), acts);
    hide SameState, Exec, Legal, Kept, EntriesWritten;
    BatchOnDisk(Exec(Init(interval), acts), rd, k, j);
  }

  /** A compaction keeps exactly what the mirror holds, and the mirror never got the entries of a failed Save. */
  lemma CompactionKeepsMirrored(n: Node, e: Entry)
    requires ApplyInv(n) && Enabled(n, ReplaceWal)
    ensures Kept(Do(n, ReplaceWal).disk, e) <==> e in n.mem.entries || e.index <= Latest(n.disk.snaps.Keys)
  {
    CompactReadsBack(n.mem.hardState, Above(n.mem.entries, n.mem.applied));
    EverythingAbove(n.mem.entries, n.mem.applied);
    hide LastState, EntriesOf, CompactFile, Above, Latest;
    if e in n.mem.entries && e.index > n.mem.applied {
      AboveMembers(n.mem.entries, n.mem.applied, e);
    }
  }

  // ---------------------------------------------------------------- entries over whole runs

  /** At every point of the run every entry of a sent Ready is on disk. */
  ghost predicate AlwaysKept(n: Node, acts: seq<Action>)
    requires Legal(n, acts)
    decreases |acts|
  {
    SentKept(n.disk, n.sent) && (acts != [] ==> AlwaysKept(Do(n, acts[0]), acts[1..]))
  }

  /** A Save that fails before writing an entry that is not on disk already. */
  ghost predicate LosesEntry(n: Node, a: Action) {
    && a.SaveFails?
    && exists j: nat ::
         EntriesWritten(n.mem.hardState, a.rd.hs, a.k) <= j < |a.rd.entries| && !Kept(n.disk, a.rd.entries[j])
  }

  /** An entry of a sent Ready is neither in the mirror nor below a snapshot: a failed Save wrote it. */
  ghost predicate Unmirrored(n: Node) {
    exists p, e ::
      p in n.sent && e in p.entries && e !in n.mem.entries && e.index > Latest(n.disk.snaps.Keys)
  }

  /** No Save that loses an entry is followed by the sending of its messages, and no compaction comes while an entry of
      a sent Ready is missing from the mirror. */
  ghost predicate NeverLoses(n: Node, acts: seq<Action>)
    requires Legal(n, acts)
    decreases |acts|
  {
    acts != [] ==>
      && !(LosesEntry(n, acts[0]) && |acts| > 1 && acts[1].Send?)
      && !(acts[0].ReplaceWal? && Unmirrored(n))
      && NeverLoses(Do(n, acts[0]), acts[1..])
  }

  /** The Ready in hand, as far as it is saved, is on disk. */
  ghost predicate HandKept(n: Node) {
    match n.pc
    case Saving(rd, k) => k <= |rd.entries| && KeptAll(n.disk, rd.entries[..k])
    case Saved(rd) => KeptAll(n.disk, rd.entries)
    case _ => true
  }

  /** Only a compaction takes anything off the disk. */
  lemma DiskKeeps(n: Node, a: Action, e: Entry)
    requires SameState(n) && Enabled(n, a) && !a.ReplaceWal? && Kept(n.disk, e)
    ensures Kept(Do(n, a).disk, e)
  {
    match a
    case Begin(rd) => ReadBackOne(n.disk.wal, StateRecord(rd.hs));
    case WriteEntry => ReadBackOne(n.disk.wal, EntryRecord(n.pc.rd.entries[n.pc.written]));
    case SaveFails(rd, k) => SaveReadsBackAt(n.disk.wal, n.mem.hardState, rd.hs, rd.entries, k);
    case Check => LatestGrows(n.disk.snaps, n.mem.applied, n.mem.store);
    case RemoveOld(i) =>
      LatestSurvivesRemoval(n.disk.snaps.Keys, i);
      assert Do(n, a).disk.snaps.Keys == n.disk.snaps.Keys - {i};
    case _ => hide LastState, EntriesOf, Append, Above, Latest;
  }

  lemma HandStep(n: Node, a: Action)
    requires SameState(n) && HandKept(n) && Enabled(n, a)
    ensures LosesEntry(n, a) || HandKept(Do(n, a))
  {
    var n' := Do(n, a);
    match a
    case WriteEntry =>
      var rd, k := n.pc.rd, n.pc.written;
      ReadBackOne(n.disk.wal, EntryRecord(rd.entries[k]));
      hide EntriesOf, LastState, Latest;
      forall e | e in rd.entries[..k + 1] ensures Kept(n'.disk, e) {
        if e in rd.entries[..k] {
          DiskKeeps(n, a, e);
        }
      }
    case EndSave => assert n.pc.rd.entries[..n.pc.written] == n.pc.rd.entries;
    case SaveFails(rd, k) =>
      if !LosesEntry(n, a) {
        forall e | e in rd.entries ensures Kept(n'.disk, e) {
          var j: nat :| j < |rd.entries| && rd.entries[j] == e;
          BatchOnDisk(n, rd, k, j);
        }
      }
    case _ =>
      hide LastState, EntriesOf, Append, Above, Latest;
  }

  lemma SentStep(n: Node, a: Action)
    requires ApplyInv(n) && SameState(n) && SentKept(n.disk, n.sent) && HandKept(n) && Enabled(n, a)
    ensures SentKept(Do(n, a).disk, Do(n, a).sent) <==> !(a.ReplaceWal? && Unmirrored(n))
  {
    var n' := Do(n, a);
    if a.ReplaceWal? {
      CompactionDrops(n);
    } else {
      hide LastState, EntriesOf, Append, Above, Latest, Kept, ApplyInv, SameState;
      forall p | p in n'.sent ensures KeptAll(n'.disk, p.entries) {
        if p in n.sent {
          forall e | e in p.entries ensures Kept(n'.disk, e) {
            assert KeptAll(n.disk, p.entries);
            DiskKeeps(n, a, e);
          }
        }
      }
    }
  }

  lemma CompactionDrops(n: Node)
    requires ApplyInv(n) && Enabled(n, ReplaceWal)
    ensures SentKept(Do(n, ReplaceWal).disk, n.sent) <==> !Unmirrored(n)
  {
    var d := Do(n, ReplaceWal).disk;
    forall e ensures Kept(d, e) <==> e in n.mem.entries || e.index <= Latest(n.disk.snaps.Keys) {
      CompactionKeepsMirrored(n, e);
    }
    hide Kept, Latest, ApplyInv, Enabled;
    if !Unmirrored(n) {
      forall p | p in n.sent ensures KeptAll(d, p.entries) {
        forall e | e in p.entries ensures Kept(d, e) {
        }
      }
    }
    if p, e :| p in n.sent && e in p.entries && e !in n.mem.entries && e.index > Latest(n.disk.snaps.Keys) {
      assert !Kept(d, e);
      assert !KeptAll(d, p.entries);
    }
  }

  /** After a Save that lost an entry, the loop sends or the process dies. */
  lemma AfterEntryLoss(n: Node, a: Action, b: Action)
    requires ApplyInv(n) && SameState(n) && SentKept(n.disk, n.sent) && HandKept(n)
    requires Enabled(n, a) && LosesEntry(n, a) && Enabled(Do(n, a), b)
    ensures b.Send? || b.Crash?
    ensures SentKept(Do(n, a).disk, Do(n, a).sent)
    ensures
      var n2 := Do(Do(n, a), b);
      if b.Crash? then SentKept(n2.disk, n2.sent) && HandKept(n2) else !SentKept(n2.disk, n2.sent)
  {
    SentStep(n, a);
    var n1 := Do(n, a);
    var n2 := Do(n1, b);
    var j: nat :|
      EntriesWritten(n.mem.hardState, a.rd.hs, a.k) <= j < |a.rd.entries| && !Kept(n.disk, a.rd.entries[j]);
    BatchOnDisk(n, a.rd, a.k, j);
    hide LastState, EntriesOf, Append, Above, Latest, Kept, SaveRecords;
    if b.Send? {
      assert n2.sent[|n1.sent|] in n2.sent && a.rd.entries[j] in n2.sent[|n1.sent|].entries;
    }
  }

  lemma {:induction false} KeptExactly(n: Node, acts: seq<Action>)
    requires ApplyInv(n) && SameState(n) && SentKept(n.disk, n.sent) && HandKept(n) && Legal(n, acts)
    ensures AlwaysKept(n, acts) <==> NeverLoses(n, acts)
    decreases |acts|
  {
    if acts != [] {
      var n1 := Do(n, acts[0]);
      ApplyStep(n, acts[0]);
      SameStateStep(n, acts[0]);
      HandStep(n, acts[0]);
      SentStep(n, acts[0]);
      if LosesEntry(n, acts[0]) {
        if |acts| > 1 {
          AfterEntryLoss(n, acts[0], acts[1]);
          ApplyStep(n1, acts[1]);
          SameStateStep(n1, acts[1]);
          hide ApplyInv, SameState, SentKept, HandKept, Enabled, Do, Unmirrored;
          var n2 := Do(n1, acts[1]);
          assert acts[1..][0] == acts[1] && acts[1..][1..] == acts[2..];
          assert AlwaysKept(n1, acts[1..]) <==> SentKept(n1.disk, n1.sent) && AlwaysKept(n2, acts[2..]);
          if acts[1].Crash? {
            KeptExactly(n2, acts[2..]);
            assert NeverLoses(n1, acts[1..]) <==> NeverLoses(n2, acts[2..]);
          } else {
            assert !AlwaysKept(n2, acts[2..]);
          }
        }
      } else if SentKept(n1.disk, n1.sent) {
        hide ApplyInv, SameState, SentKept, HandKept, Enabled, Do, LosesEntry, Unmirrored;
        KeptExactly(n1, acts[1..]);
      }
    }
  }

  /** Exactly when what was sent stays on disk. For every run, failed Saves included: at every point every entry of a
      sent Ready is a WAL record or below a snapshot, if and only if no Save that failed before writing an entry was
      followed by the sending of its messages, and no compaction came while a sent entry was missing from the mirror. */
  lemma EntriesKeptExactly(interval: nat, acts: seq<Action>)
    requires Legal(Init(interval), acts)
    ensures AlwaysKept(Init(interval), acts) <==> NeverLoses(Init(interval), acts)
  {
    InitState(interval);
    KeptExactly(Init(interval), acts);
  }

  /** The loop only logs a failed Save. If the state record of a new term is not written, the messages of that Ready
      still leave, and a crash forgets the vote they carried. */
  lemma FailedSaveBreaksPromise()
    ensures
      var rd := Ready(HardState(1, 7, 0), [], None, []);
      var acts := [SaveFails(rd, 0), Send];
      && Legal(Init(2), acts)
      && var n := Exec(Init(2), acts);
      && n.sent == [Promise(HardState(1, 7, 0), [])]
      && LastState(n.disk.wal) == EMPTY_STATE
  {
    var rd := Ready(HardState(1, 7, 0), [], None, []);
    var acts := [SaveFails(rd, 0), Send];
    var n1 := Do(Init(2), acts[0]);
    assert n1.disk.wal == [];
    OneAction(Init(2), acts[0]);
    OneAction(n1, Send);
    Compose(Init(2), [acts[0]], n1, [Send], Do(n1, Send));
    assert [acts[0]] + [Send] == acts;
  }
}
