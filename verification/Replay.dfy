/** What a record stream means once a follower has overwritten part of its log, and how far
    compaction and the restart path respect that meaning. */
module Replay {
  import opened Types
  import opened Wal

  // ---------------------------------------------------------------- truncate-on-overwrite replay

  /** The entries below index i. */
  function Below(log: seq<Entry>, i: nat): seq<Entry> {
    if log == [] then []
    else Below(log[..|log| - 1], i) + (if log[|log| - 1].index < i then [log[|log| - 1]] else [])
  }

  /** A new record replaces everything at or above its own index. */
  function Put(log: seq<Entry>, e: Entry): seq<Entry> {
    Below(log, e.index) + [e]
  }

  /** The log that a stream of records stands for. */
  function TruncatingReplay(es: seq<Entry>): seq<Entry> {
    if es == [] then [] else Put(TruncatingReplay(es[..|es| - 1]), es[|es| - 1])
  }

  /** A stream Raft may produce: no record skips an index. */
  ghost predicate WellFormed(es: seq<Entry>) {
    forall i, j :: 0 <= i && j == i + 1 < |es| ==> es[j].index <= es[i].index + 1
  }

  /** No overwrite at all: each record takes the next index. */
  ghost predicate Contiguous(es: seq<Entry>) {
    forall k {:trigger es[k]} :: 0 <= k < |es| ==> es[k].index == es[0].index + k
  }

  lemma {:induction false} AboveOfAppend(a: seq<Entry>, b: seq<Entry>, c: nat)
    ensures Above(a + b, c) == Above(a, c) + Above(b, c)
  {
    if b == [] {
      assert a + b == a;
    } else {
      AboveOfAppend(a, b[..|b| - 1], c);
      assert (a + b)[..|a + b| - 1] == a + b[..|b| - 1];
    }
  }

  lemma {:induction false} AboveBelowCommute(log: seq<Entry>, i: nat, c: nat)
    ensures Above(Below(log, i), c) == Below(Above(log, c), i)
  {
    if log != [] {
      var init, e := log[..|log| - 1], log[|log| - 1];
      AboveBelowCommute(init, i, c);
      AboveOfAppend(Below(init, i), if e.index < i then [e] else [], c);
      BelowOfAppend(Above(init, c), if e.index > c then [e] else [], i);
    }
  }

  lemma {:induction false} BelowOfAppend(a: seq<Entry>, b: seq<Entry>, i: nat)
    ensures Below(a + b, i) == Below(a, i) + Below(b, i)
  {
    if b == [] {
      assert a + b == a;
    } else {
      BelowOfAppend(a, b[..|b| - 1], i);
      assert (a + b)[..|a + b| - 1] == a + b[..|b| - 1];
    }
  }

  lemma {:induction false} AboveBelowEmpty(log: seq<Entry>, i: nat, c: nat)
    requires i <= c + 1
    ensures Above(Below(log, i), c) == [] && Below(Above(log, c), i) == []
  {
    AboveBelowCommute(log, i, c);
    if log != [] {
      var init, e := log[..|log| - 1], log[|log| - 1];
      AboveBelowEmpty(init, i, c);
      BelowOfAppend(Above(init, c), if e.index > c then [e] else [], i);
    }
  }

  /** Restricting past c commutes with a record above c, and a record at or below c leaves nothing. */
  lemma RestrictPut(log: seq<Entry>, e: Entry, c: nat)
    ensures e.index > c ==> Above(Put(log, e), c) == Put(Above(log, c), e)
    ensures e.index <= c ==> Above(Put(log, e), c) == []
  {
    AboveOfAppend(Below(log, e.index), [e], c);
    assert [e][..0] == [];
    if e.index > c {
      AboveBelowCommute(log, e.index, c);
    } else {
      AboveBelowEmpty(log, e.index, c);
    }
  }

  /** The stream ends above c, or nothing in it is above c. */
  ghost predicate CleanCut(es: seq<Entry>, c: nat) {
    (es != [] && es[|es| - 1].index > c) || (forall e :: e in es ==> e.index <= c)
  }

  lemma {:induction false} NothingAbove(es: seq<Entry>, c: nat)
    requires forall e :: e in es ==> e.index <= c
    ensures Above(es, c) == []
  {
    if es != [] {
      assert forall e :: e in es[..|es| - 1] ==> e in es;
      NothingAbove(es[..|es| - 1], c);
    }
  }

  lemma {:induction false} SomethingAbove(es: seq<Entry>, c: nat, e: Entry)
    requires e in es && e.index > c
    ensures Above(es, c) != []
  {
    if e != es[|es| - 1] {
      SomethingAbove(es[..|es| - 1], c, e);
    }
  }

  lemma {:induction false} EverythingAbove(es: seq<Entry>, c: nat)
    ensures forall e :: e in Above(es, c) ==> e in es && e.index > c
  {
    if es != [] {
      EverythingAbove(es[..|es| - 1], c);
    }
  }

  /** Compacting at c and replaying gives the uncompacted replay restricted past c
      exactly when the cut is clean. */
  lemma {:induction false} ExactCompaction(es: seq<Entry>, c: nat)
    requires WellFormed(es)
    ensures TruncatingReplay(Above(es, c)) == Above(TruncatingReplay(es), c) <==> CleanCut(es, c)
  {
    if es != [] {
      if es[|es| - 1].index <= c {
        EndsBelowCut(es, c);
      } else {
        var init := es[..|es| - 1];
        if CleanCut(init, c) {
          ExactCompaction(init, c);
        } else {
          var x :| x in init && x.index > c;
          assert es[|es| - 1].index <= es[|es| - 2].index + 1;
          CutAtNext(init, c);
        }
        EndsAboveCut(es, c);
      }
    }
  }

  lemma EndsBelowCut(es: seq<Entry>, c: nat)
    requires es != [] && es[|es| - 1].index <= c
    ensures TruncatingReplay(Above(es, c)) == Above(TruncatingReplay(es), c) <==> CleanCut(es, c)
  {
    RestrictPut(TruncatingReplay(es[..|es| - 1]), es[|es| - 1], c);
    if CleanCut(es, c) {
      NothingAbove(es, c);
    } else {
      var x :| x in es && x.index > c;
      SomethingAbove(es, c, x);
    }
  }

  /** A last record above c either extends two logs that already agree, or it is c + 1 and replaces
      whatever was kept on both sides. */
  lemma EndsAboveCut(es: seq<Entry>, c: nat)
    requires es != [] && es[|es| - 1].index > c
    requires
      var init, e := es[..|es| - 1], es[|es| - 1];
      Below(TruncatingReplay(Above(init, c)), e.index) == Below(Above(TruncatingReplay(init), c), e.index)
    ensures TruncatingReplay(Above(es, c)) == Above(TruncatingReplay(es), c)
  {
    var init, e := es[..|es| - 1], es[|es| - 1];
    RestrictPut(TruncatingReplay(init), e, c);
    assert Above(es, c) == Above(init, c) + [e];
    assert (Above(init, c) + [e])[..|Above(init, c)|] == Above(init, c);
  }

  /** The same on disk: what a compacted WAL file stands for, against what the file before stood for. */
  lemma ExactCompactionOfFile(w: Image, c: nat)
    requires Mirrors(w) && WellFormed(w.entries)
    ensures
      TruncatingReplay(EntriesOf(CompactImage(w, c).file)) == Above(TruncatingReplay(EntriesOf(w.file)), c)
      <==> CleanCut(EntriesOf(w.file), c)
  {
    CompactReadsBack(w.hardState, Above(w.entries, c));
    ExactCompaction(w.entries, c);
    hide EntriesOf, LastState, TruncatingReplay, Above, CompactFile, CleanCut;
  }

  /** Whatever was kept or replayed above c, a record at c + 1 replaces all of it. */
  lemma CutAtNext(es: seq<Entry>, c: nat)
    ensures Below(TruncatingReplay(Above(es, c)), c + 1) == []
    ensures Below(Above(TruncatingReplay(es), c), c + 1) == []
  {
    AboveBelowEmpty(TruncatingReplay(es), c + 1, c);
    ReplayKeepsMembers(Above(es, c));
    EverythingAbove(es, c);
    BelowOfHigh(TruncatingReplay(Above(es, c)), c + 1);
  }

  lemma {:induction false} BelowOfHigh(log: seq<Entry>, i: nat)
    requires forall e :: e in log ==> e.index >= i
    ensures Below(log, i) == []
  {
    if log != [] {
      assert log[|log| - 1] in log;
      assert forall e :: e in log[..|log| - 1] ==> e in log;
      BelowOfHigh(log[..|log| - 1], i);
    }
  }

  lemma {:induction false} BelowMembers(log: seq<Entry>, i: nat)
    ensures forall e :: e in Below(log, i) ==> e in log && e.index < i
  {
    if log != [] {
      BelowMembers(log[..|log| - 1], i);
    }
  }

  lemma {:induction false} ReplayKeepsMembers(es: seq<Entry>)
    ensures forall e :: e in TruncatingReplay(es) ==> e in es
  {
    if es != [] {
      ReplayKeepsMembers(es[..|es| - 1]);
      BelowMembers(TruncatingReplay(es[..|es| - 1]), es[|es| - 1].index);
    }
  }

  /** Entries 1 to 3 from one leader, then entry 2 rewritten by the next. */
  const STALE: seq<Entry> := [Entry(1, 1, Blank), Entry(2, 1, Blank), Entry(3, 1, Opaque), Entry(2, 2, Blank)]

  lemma StaleKept()
    ensures Above(STALE, 2) == [STALE[2]]
  {
    var s := STALE;
    NothingAbove(s[..2], 2);
    assert s[..3][..2] == s[..2];
    assert Above(s[..3], 2) == Above(s[..2], 2) + [s[2]];
    assert s[..4] == s && s[..|s| - 1] == s[..3];
  }

  /** Entry 3 is stale once entry 2 has been rewritten. A node that has applied the new entry 2 compacts at 2 and keeps
      the stale entry, which the full stream had already discarded. */
  lemma CompactionResurrects()
    ensures WellFormed(STALE) && !CleanCut(STALE, 2)
    ensures Above(TruncatingReplay(STALE), 2) == []
    ensures TruncatingReplay(Above(STALE, 2)) == [Entry(3, 1, Opaque)]
  {
    var s := STALE;
    assert s[2] in s && s[2].index > 2;
    RestrictPut(TruncatingReplay(s[..3]), s[3], 2);
    assert TruncatingReplay(s) == Put(TruncatingReplay(s[..|s| - 1]), s[3]);
    StaleKept();
    ReplayOfRun([s[2]], 3);
    hide TruncatingReplay, Above, Put;
  }

  // ---------------------------------------------------------------- the restart path

  /** raft.MemoryStorage without its dummy first slot: entry number k has index offset + 1 + k. */
  datatype MemoryStorage = MemoryStorage(offset: nat, ents: seq<Entry>)

  function LastIndex(ms: MemoryStorage): nat {
    ms.offset + |ms.ents|
  }

  /** MemoryStorage.Append, which trusts that entry number k of its argument has index first + k. What it takes to be
      covered is cut off; a remaining first entry with the offset's own index takes the dummy slot. None stands for the
      panic on a gap, and on an index below the offset, whose unsigned difference wraps. */
  function Append(ms: MemoryStorage, es: seq<Entry>): Option<MemoryStorage> {
    if es == [] || es[0].index + |es| - 1 < ms.offset + 1 then Some(ms)
    else
      var tail := if es[0].index < ms.offset + 1 then es[ms.offset + 1 - es[0].index..] else es;
      var at := tail[0].index - ms.offset - 1;
      if at == -1 then Some(ms.(ents := tail[1..]))
      else if 0 <= at <= |ms.ents| then Some(ms.(ents := ms.ents[..at] + tail))
      else None
  }

  /** The stream starts right after s or earlier, and never rewrites below its first record. */
  ghost predicate Covers(es: seq<Entry>, s: nat) {
    && es != [] && 1 <= es[0].index <= s + 1
    && (forall k {:trigger es[k]} :: 0 <= k < |es| ==> es[0].index <= es[k].index)
  }

  lemma {:induction false} BelowOfRun(log: seq<Entry>, first: nat, i: nat)
    requires forall k :: 0 <= k < |log| ==> log[k].index == first + k
    requires first <= i <= first + |log|
    ensures Below(log, i) == log[..i - first]
  {
    if log != [] {
      var n := |log| - 1;
      if i == first + |log| {
        BelowOfAll(log[..n], i);
        assert log == log[..n] + [log[n]];
      } else {
        BelowOfRun(log[..n], first, i);
        assert log[..n][..i - first] == log[..i - first];
      }
    }
  }

  lemma {:induction false} BelowOfAll(log: seq<Entry>, i: nat)
    requires forall k :: 0 <= k < |log| ==> log[k].index < i
    ensures Below(log, i) == log
  {
    if log != [] {
      var init, e := log[..|log| - 1], log[|log| - 1];
      BelowOfAll(init, i);
      assert Below(log, i) == init + [e];
    }
  }

  /** A replayed stream is the run of indices from its first record to its last, no longer than the stream,
      and as long as it only when nothing was overwritten. */
  lemma {:induction false} ReplayIsRun(es: seq<Entry>)
    requires WellFormed(es) && es != [] && Covers(es, es[0].index)
    ensures
      var log := TruncatingReplay(es);
      && |log| == es[|es| - 1].index - es[0].index + 1
      && (forall k :: 0 <= k < |log| ==> log[k].index == es[0].index + k)
  {
    var init, e := es[..|es| - 1], es[|es| - 1];
    if init == [] {
      assert TruncatingReplay(es) == [e];
    } else {
      ReplayIsRun(init);
      assert es[|es| - 1].index <= es[|es| - 2].index + 1;
      BelowOfRun(TruncatingReplay(init), es[0].index, e.index);
    }
  }

  /** A stream reaches index first + |es| - 1 only by taking every step upwards. */
  lemma {:induction false} ReachOfStream(es: seq<Entry>)
    requires WellFormed(es) && es != []
    ensures es[|es| - 1].index <= es[0].index + |es| - 1
    ensures es[|es| - 1].index == es[0].index + |es| - 1 <==> Contiguous(es)
  {
    if |es| > 1 {
      var init := es[..|es| - 1];
      ReachOfStream(init);
      assert es[|es| - 1].index <= es[|es| - 2].index + 1;
      if es[|es| - 1].index == es[0].index + |es| - 1 {
        forall k | 0 <= k < |es| ensures es[k].index == es[0].index + k {
          if k < |init| {
            assert init[k].index == init[0].index + k;
          }
        }
      }
    }
  }

  lemma {:induction false} ReplayOfRun(es: seq<Entry>, first: nat)
    requires forall k :: 0 <= k < |es| ==> es[k].index == first + k
    ensures TruncatingReplay(es) == es
  {
    hide Below;
    if es != [] {
      var init, e := es[..|es| - 1], es[|es| - 1];
      ReplayOfRun(init, first);
      BelowOfRun(init, first, e.index);
      assert init[..|init|] == init;
      assert Put(init, e) == es;
    }
  }

  lemma {:induction false} AboveOfRun(log: seq<Entry>, first: nat, c: nat)
    requires forall k :: 0 <= k < |log| ==> log[k].index == first + k
    requires first <= c + 1
    ensures Above(log, c) == if c + 1 - first <= |log| then log[c + 1 - first..] else []
  {
    if log != [] {
      var n := |log|;
      AboveOfRun(log[..n - 1], first, c);
      if c + 1 - first <= n - 1 {
        assert log[c + 1 - first..] == log[..n - 1][c + 1 - first..] + [log[n - 1]];
      }
    }
  }

  // ---------------------------------------------------------------- one Append of any stream

  /** Some record is counted as number s + 1. */
  predicate Reaches(es: seq<Entry>, s: nat) {
    es != [] && es[0].index <= s + 1 <= es[0].index + |es| - 1
  }

  /** The record counted as number s + 1 is number s: the stream is one record ahead of its indices there. */
  predicate Ahead(es: seq<Entry>, s: nat) {
    Reaches(es, s) && es[s + 1 - es[0].index].index == s
  }

  /** How many records the restart skips beyond those counted as covered. */
  function Skip(es: seq<Entry>, s: nat): nat {
    if Ahead(es, s) then 1 else 0
  }

  /** Record k sits where a single Append on a snapshot at s puts it. */
  predicate InPlace(es: seq<Entry>, s: nat, k: nat) {
    k < |es| && es[k].index + Skip(es, s) == es[0].index + k
  }

  /** Start comes up on this stream and a snapshot at s: the stream counts as covered, or the record counted as
      number s + 1 is number s + 1, or number s, which replaces the storage's dummy slot. */
  predicate Starts(es: seq<Entry>, s: nat) {
    || es == [] || es[0].index + |es| - 1 <= s
    || Ahead(es, s) || (Reaches(es, s) && es[s + 1 - es[0].index].index == s + 1)
  }

  /** What the storage then holds past s. */
  function Restored(es: seq<Entry>, s: nat): seq<Entry> {
    if Reaches(es, s) then es[s + 1 - es[0].index + Skip(es, s)..] else []
  }

  lemma RestartOfAny(es: seq<Entry>, s: nat)
    ensures
      Append(MemoryStorage(s, []), es) ==
      if Starts(es, s) then Some(MemoryStorage(s, Restored(es, s))) else None
  {
    if Reaches(es, s) {
      var none: seq<Entry> := [];
      var p := s + 1 - es[0].index;
      var tail := es[p..];
      assert tail[0] == es[p];
      if Ahead(es, s) {
        assert tail[1..] == es[p + 1..];
      } else {
        assert none[..0] + tail == tail;
      }
    }
  }

  /** Start appends the whole stream in one call on top of a snapshot at s. That restores the log the stream stands for
      exactly when nothing in the stream was overwritten, or the whole stream is counted as already covered by the
      snapshot, or the record counted as number s + 1 is number s and nothing is overwritten from there on. */
  lemma ExactRestart(es: seq<Entry>, s: nat)
    requires WellFormed(es) && Covers(es, s)
    ensures
      Append(MemoryStorage(s, []), es) == Some(MemoryStorage(s, Above(TruncatingReplay(es), s)))
      <==> || Contiguous(es) || es[0].index + |es| - 1 <= s
           || (Ahead(es, s) && Contiguous(es[s + 1 - es[0].index..]))
  {
    var first := es[0].index;
    ReplayIsRun(es);
    ReachOfStream(es);
    AboveOfRun(TruncatingReplay(es), first, s);
    RestartOfAny(es, s);
    hide Append, TruncatingReplay;
    if Reaches(es, s) {
      if Contiguous(es) {
        ReplayOfRun(es, first);
      } else if Ahead(es, s) {
        AheadRestart(es, s);
      } else {
        // The append keeps one slot per record, more than the log has entries.
        assert |Restored(es, s)| > |Above(TruncatingReplay(es), s)|;
      }
    }
  }

  /** With one record too many in front, the rest is restored exactly when it is a run. */
  lemma AheadRestart(es: seq<Entry>, s: nat)
    requires WellFormed(es) && Covers(es, s) && Ahead(es, s)
    ensures
      Restored(es, s) == Above(TruncatingReplay(es), s) <==> Contiguous(es[s + 1 - es[0].index..])
  {
    hide TruncatingReplay, Above, WellFormed, Covers;
    var p := s + 1 - es[0].index;
    var rest := es[p..];
    assert Restored(es, s) == rest[1..];
    if Contiguous(rest) {
      assert es == es[..p] + rest;
      ReplayEndsInRun(es[..p], rest, s);
    } else {
      LogIsShorter(es, s);
    }
  }

  /** Once a record is overwritten, the log past s has fewer entries than there are records. */
  lemma LogIsShorter(es: seq<Entry>, s: nat)
    requires WellFormed(es) && Covers(es, s) && Ahead(es, s) && !Contiguous(es[s + 1 - es[0].index..])
    ensures |Above(TruncatingReplay(es), s)| < |es[s + 1 - es[0].index..]| - 1
  {
    var p := s + 1 - es[0].index;
    var rest := es[p..];
    ReplayIsRun(es);
    AboveOfRun(TruncatingReplay(es), es[0].index, s);
    hide TruncatingReplay, Above;
    SuffixWellFormed(es, p);
    ReachOfStream(rest);
    hide WellFormed, Covers, Contiguous;
    assert es[|es| - 1] == rest[|rest| - 1] && rest[0].index == s;
  }

  lemma SuffixWellFormed(es: seq<Entry>, p: nat)
    requires WellFormed(es) && p <= |es|
    ensures WellFormed(es[p..])
  {
    var rest := es[p..];
    forall i, j | 0 <= i && j == i + 1 < |rest| ensures rest[j].index <= rest[i].index + 1 {
      assert rest[j] == es[p + i + 1] && rest[i] == es[p + i];
    }
  }

  lemma ReplayOne(es: seq<Entry>, e: Entry)
    ensures TruncatingReplay(es + [e]) == Put(TruncatingReplay(es), e)
  {
    assert (es + [e])[..|es|] == es;
  }

  /** A run written last is the end of the log it leaves. */
  lemma {:induction false} ReplayEndsInRun(es: seq<Entry>, run: seq<Entry>, s: nat)
    requires run != [] && forall k :: 0 <= k < |run| ==> run[k].index == s + k
    ensures Above(TruncatingReplay(es + run), s) == run[1..]
  {
    hide TruncatingReplay, Above, Below, Put;
    var n := |run| - 1;
    var front, e := run[..n], run[n];
    assert es + run == (es + front) + [e];
    ReplayOne(es + front, e);
    RestrictPut(TruncatingReplay(es + front), e, s);
    if n > 0 {
      ReplayEndsInRun(es, front, s);
      PutAtEnd(front[1..], e);
      assert front[1..] + [e] == run[1..];
    }
  }

  lemma PutAtEnd(log: seq<Entry>, e: Entry)
    requires forall k :: 0 <= k < |log| ==> log[k].index < e.index
    ensures Put(log, e) == log + [e]
  {
    BelowOfAll(log, e.index);
  }

  /** The storage has e at its own index, or a snapshot in its place. */
  predicate Holds(ms: MemoryStorage, e: Entry) {
    e.index <= ms.offset || (e.index <= LastIndex(ms) && ms.ents[e.index - ms.offset - 1] == e)
  }

  /** A record above s is restored at its own index exactly when it is in place. */
  lemma RestoredHolds(es: seq<Entry>, s: nat, e: Entry)
    requires Starts(es, s) && e in es && e.index > s
    ensures Holds(MemoryStorage(s, Restored(es, s)), e) <==> exists k: nat :: InPlace(es, s, k) && es[k] == e
  {
    var first, ms := es[0].index, MemoryStorage(s, Restored(es, s));
    if Holds(ms, e) {
      var k := e.index + Skip(es, s) - first;
      assert es[k] == ms.ents[e.index - s - 1];
      assert InPlace(es, s, k);
    }
    if k: nat :| InPlace(es, s, k) && es[k] == e {
      assert ms.ents[e.index - s - 1] == es[k];
    }
  }

  /** e is at hand after a restart exactly when the restart succeeds and e is covered by the snapshot
      or has a record in place. */
  lemma RestartHolds(es: seq<Entry>, s: nat, e: Entry)
    requires e in es || e.index <= s
    ensures
      var r := Append(MemoryStorage(s, []), es);
      r.Some? && Holds(r.value, e) <==>
      Starts(es, s) && (e.index <= s || exists k: nat :: InPlace(es, s, k) && es[k] == e)
  {
    RestartOfAny(es, s);
    hide Append, Restored, InPlace, Starts;
    if Starts(es, s) && e.index > s {
      RestoredHolds(es, s, e);
    }
  }

  /** One overwrite before a snapshot at 2 is made good: the records 1, 2, 2', 3' restart as the log past 2. */
  lemma RestartMakesGood()
    ensures
      var es := [Entry(1, 1, Blank), Entry(2, 1, Opaque), Entry(2, 2, Blank), Entry(3, 2, Blank)];
      Ahead(es, 2) && Append(MemoryStorage(2, []), es) == Some(MemoryStorage(2, [es[3]]))
  {
    var es := [Entry(1, 1, Blank), Entry(2, 1, Opaque), Entry(2, 2, Blank), Entry(3, 2, Blank)];
    RestartOfAny(es, 2);
    assert es[3..] == [es[3]];
  }

  /** Four records, one overwrite: the single Append puts the replacement of entry 2 at position 3. */
  lemma RestartMisplaces()
    ensures
      var es := [Entry(1, 1, Blank), Entry(2, 1, Opaque), Entry(2, 2, Blank), Entry(3, 2, Blank)];
      && WellFormed(es) && Covers(es, 0)
      && Append(MemoryStorage(0, []), es) == Some(MemoryStorage(0, es))
      && |TruncatingReplay(es)| == 3
  {
    hide TruncatingReplay;
    var es := [Entry(1, 1, Blank), Entry(2, 1, Opaque), Entry(2, 2, Blank), Entry(3, 2, Blank)];
    assert Covers(es, 1);
    ReplayIsRun(es);
    var empty: seq<Entry> := [];
    assert empty[..0] + es == es;
  }
}
