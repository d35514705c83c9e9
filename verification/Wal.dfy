/** The write-ahead log: a record stream on disk, mirrored in memory. */
module Wal {
  import opened Types

  /** One line of wal.log. `UnknownRecord` is a record of another type or without its payload,
      which reading skips. */
  datatype Record = StateRecord(state: HardState) | EntryRecord(entry: Entry) | UnknownRecord

  /** The file together with the two fields that mirror it. */
  datatype Image = Image(file: seq<Record>, hardState: HardState, entries: seq<Entry>)

  // ---------------------------------------------------------------- reading

  /** The last hard state in a record stream. */
  function LastState(rs: seq<Record>): HardState {
    if rs == [] then EMPTY_STATE
    else if rs[|rs| - 1].StateRecord? then rs[|rs| - 1].state
    else LastState(rs[..|rs| - 1])
  }

  /** The entries of a record stream, in file order. */
  function EntriesOf(rs: seq<Record>): seq<Entry> {
    if rs == [] then []
    else EntriesOf(rs[..|rs| - 1]) + (if rs[|rs| - 1].EntryRecord? then [rs[|rs| - 1].entry] else [])
  }

  function EntryRecords(es: seq<Entry>): (rs: seq<Record>)
    ensures |rs| == |es|
    ensures forall k :: 0 <= k < |es| ==> rs[k] == EntryRecord(es[k])
  {
    seq(|es|, k requires 0 <= k < |es| => EntryRecord(es[k]))
  }

  lemma ReadBackOne(rs: seq<Record>, r: Record)
    ensures LastState(rs + [r]) == if r.StateRecord? then r.state else LastState(rs)
    ensures EntriesOf(rs + [r]) == EntriesOf(rs) + (if r.EntryRecord? then [r.entry] else [])
  {
    assert (rs + [r])[..|rs|] == rs;
  }

  lemma {:induction false} ReadBackEntries(rs: seq<Record>, es: seq<Entry>)
    ensures LastState(rs + EntryRecords(es)) == LastState(rs)
    ensures EntriesOf(rs + EntryRecords(es)) == EntriesOf(rs) + es
  {
    if es == [] {
      assert rs + EntryRecords(es) == rs;
    } else {
      var init, e := es[..|es| - 1], es[|es| - 1];
      ReadBackEntries(rs, init);
      ReadBackOne(rs + EntryRecords(init), EntryRecord(e));
      assert rs + EntryRecords(es) == (rs + EntryRecords(init)) + [EntryRecord(e)];
    }
  }

  // ---------------------------------------------------------------- saving and compacting

  /** Save appends a state record only when the state is non-empty and new. */
  predicate NewState(cur: HardState, hs: HardState) {
    hs != EMPTY_STATE && hs != cur
  }

  function SaveRecords(cur: HardState, hs: HardState, es: seq<Entry>): seq<Record> {
    (if NewState(cur, hs) then [StateRecord(hs)] else []) + EntryRecords(es)
  }

  /** The state record, if any, and the first k entries are the first records of a Save. */
  lemma PartialSave(file: seq<Record>, cur: HardState, hs: HardState, es: seq<Entry>, k: nat)
    requires k <= |es|
    ensures
      var head: seq<Record> := if NewState(cur, hs) then [StateRecord(hs)] else [];
      var recs := SaveRecords(cur, hs, es);
      && |recs| == |head| + |es| && recs[..0] == [] && recs[..|recs|] == recs
      && (file + head) + EntryRecords(es[..k]) == file + recs[..|head| + k]
  {
    var head: seq<Record> := if NewState(cur, hs) then [StateRecord(hs)] else [];
    var recs := SaveRecords(cur, hs, es);
    assert EntryRecords(es)[..k] == EntryRecords(es[..k]);
    hide EntryRecords;
    assert recs == head + EntryRecords(es);
    hide SaveRecords;
    assert recs[..|head| + k] == head + EntryRecords(es)[..k];
    assert (file + head) + EntryRecords(es[..k]) == file + (head + EntryRecords(es[..k]));
  }

  function SaveImage(w: Image, hs: HardState, es: seq<Entry>): Image {
    Image(w.file + SaveRecords(w.hardState, hs, es),
          if NewState(w.hardState, hs) then hs else w.hardState,
          w.entries + es)
  }

  /** The entries above c, in order. */
  function Above(es: seq<Entry>, c: nat): seq<Entry> {
    if es == [] then []
    else Above(es[..|es| - 1], c) + (if es[|es| - 1].index > c then [es[|es| - 1]] else [])
  }

  function CompactFile(hs: HardState, es: seq<Entry>): seq<Record> {
    (if hs != EMPTY_STATE then [StateRecord(hs)] else []) + EntryRecords(es)
  }

  function CompactImage(w: Image, c: nat): Image {
    var kept := Above(w.entries, c);
    Image(CompactFile(w.hardState, kept), w.hardState, kept)
  }

  function ReadImage(w: Image): Image {
    Image(w.file, LastState(w.file), EntriesOf(w.file))
  }

  /** The fields hold exactly what a fresh read of the file would return. */
  predicate Mirrors(w: Image) {
    ReadImage(w) == w
  }

  lemma SaveReadsBack(w: Image, hs: HardState, es: seq<Entry>)
    requires Mirrors(w)
    ensures Mirrors(SaveImage(w, hs, es))
  {
    hide LastState, EntriesOf, EntryRecords;
    if NewState(w.hardState, hs) {
      ReadBackOne(w.file, StateRecord(hs));
      ReadBackEntries(w.file + [StateRecord(hs)], es);
      assert w.file + SaveRecords(w.hardState, hs, es) == (w.file + [StateRecord(hs)]) + EntryRecords(es);
    } else {
      ReadBackEntries(w.file, es);
      assert w.file + SaveRecords(w.hardState, hs, es) == w.file + EntryRecords(es);
    }
  }

  lemma CompactReadsBack(hs: HardState, es: seq<Entry>)
    ensures LastState(CompactFile(hs, es)) == hs
    ensures EntriesOf(CompactFile(hs, es)) == es
  {
    var head: seq<Record> := if hs != EMPTY_STATE then [StateRecord(hs)] else [];
    ReadBackEntries(head, es);
    ReadBackOne([], StateRecord(hs));
    assert [] + [StateRecord(hs)] == [StateRecord(hs)];
    assert EntriesOf(head) == [];
  }

  // ---------------------------------------------------------------- whole sequences of operations

  datatype Op = Save(hs: HardState, es: seq<Entry>) | Compact(c: nat)

  function ApplyOp(w: Image, op: Op): Image {
    match op
    case Save(hs, es) => SaveImage(w, hs, es)
    case Compact(c) => CompactImage(w, c)
  }

  function ApplyOps(w: Image, ops: seq<Op>): Image {
    if ops == [] then w else ApplyOp(ApplyOps(w, ops[..|ops| - 1]), ops[|ops| - 1])
  }

  /** The last non-empty hard state handed to Save, or the one read at the start. */
  function LastSaved(initial: HardState, ops: seq<Op>): HardState {
    if ops == [] then initial
    else
      var op := ops[|ops| - 1];
      if op.Save? && op.hs != EMPTY_STATE then op.hs else LastSaved(initial, ops[..|ops| - 1])
  }

  /** Start from any file whatever, read it, then run any sequence of successful Saves and Compacts:
      the fields equal what a fresh ReadAll would return, and the hard state is the last non-empty one saved. */
  lemma {:induction false} MirrorInvariant(w: Image, ops: seq<Op>)
    ensures Mirrors(ApplyOps(ReadImage(w), ops))
    ensures ApplyOps(ReadImage(w), ops).hardState == LastSaved(LastState(w.file), ops)
  {
    if ops != [] {
      MirrorInvariant(w, ops[..|ops| - 1]);
      var v := ApplyOps(ReadImage(w), ops[..|ops| - 1]);
      match ops[|ops| - 1]
      case Save(hs, es) => SaveReadsBack(v, hs, es);
      case Compact(c) => CompactReadsBack(v.hardState, Above(v.entries, c));
    }
  }

  // ---------------------------------------------------------------- the class

  /** What goes wrong in a Compact: nothing, something before the rename, or the reopen after it. */
  datatype CompactFault = NoFault | BeforeRename | AtReopen

  class WAL {
    var file: seq<Record>
    var hardState: HardState
    var entries: seq<Entry>
    /** The handle is closed: a compaction replaced the file and could not reopen it. */
    var closed: bool

    function Img(): Image
      reads this
    {
      Image(file, hardState, entries)
    }

    constructor (existing: seq<Record>)
      ensures file == existing && hardState == EMPTY_STATE && entries == [] && !closed
    {
      file, hardState, entries, closed := existing, EMPTY_STATE, [], false;
    }

    /** Append entry records one by one; `writes` is the number of writes that succeed before one fails. */
    method WriteEntries(es: seq<Entry>, writes: nat) returns (ok: bool)
      modifies this`file
      ensures ok <==> writes >= |es|
      ensures file == old(file) + EntryRecords(if ok then es else es[..writes])
    {
      for i := 0 to |es|
        invariant i <= writes
        invariant file == old(file) + EntryRecords(es[..i])
      {
        if i == writes {
          return false;
        }
        assert EntryRecords(es[..i + 1]) == EntryRecords(es[..i]) + [EntryRecord(es[i])];
        file := file + [EntryRecord(es[i])];
      }
      assert es[..|es|] == es;
      ok := true;
    }

    /** `writes` is the number of record writes that succeed before one fails, and `synced` whether the sync after them
        does; a failure stops Save, which is also where a crash inside it would leave the file. Nothing can be written
        or synced through a closed handle. */
    method Save(hs: HardState, es: seq<Entry>, writes: nat, synced: bool) returns (ok: bool)
      modifies this`file, this`hardState, this`entries
      ensures ok <==> !closed && writes >= |SaveRecords(old(hardState), hs, es)| && synced
      ensures ok ==> Img() == SaveImage(old(Img()), hs, es)
      ensures ok && Mirrors(old(Img())) ==> Mirrors(Img())
      ensures !ok ==>
        var recs := SaveRecords(old(hardState), hs, es);
        var done := if closed then 0 else if writes < |recs| then writes else |recs|;
        && file == old(file) + recs[..done]
        && hardState == (if NewState(old(hardState), hs) && done > 0 then hs else old(hardState))
        && entries == old(entries)
    {
      hide Mirrors, EntryRecords, SaveRecords;
      ghost var before := Img();
      var left := if closed then 0 else writes;
      PartialSave(file, hardState, hs, es, if left < |es| then left else |es|);
      PartialSave(file, hardState, hs, es, if 0 < left <= |es| then left - 1 else |es|);
      PartialSave(file, hardState, hs, es, |es|);
      ok, left := SaveState(hs, left);
      if !ok {
        assert file == before.file;
        return;
      }
      ok := WriteEntries(es, left);
      if !ok {
        return;
      }
      assert es[..|es|] == es;
      if closed || !synced {
        return false;
      }
      entries := entries + es;
      if Mirrors(before) {
        SaveReadsBack(before, hs, es);
      }
    }

    /** The state record, if the state is new; `left` is how many writes can still succeed. */
    method SaveState(hs: HardState, writes: nat) returns (ok: bool, left: nat)
      modifies this`file, this`hardState
      ensures ok <==> !NewState(old(hardState), hs) || writes > 0
      ensures
        var written := NewState(old(hardState), hs) && ok;
        && file == old(file) + (if written then [StateRecord(hs)] else [])
        && hardState == (if written then hs else old(hardState))
        && left == if written then writes - 1 else writes
    {
      ok, left := true, writes;
      if hs != EMPTY_STATE && hs != hardState {
        if writes == 0 {
          return false, left;
        }
        left := left - 1;
        file := file + [StateRecord(hs)];
        hardState := hs;
      }
    }

    method ReadAll() returns (hs: HardState, es: seq<Entry>)
      modifies this`hardState, this`entries
      ensures hs == LastState(file) && es == EntriesOf(file)
      ensures Img() == ReadImage(old(Img())) && Mirrors(Img())
    {
      hs, es := EMPTY_STATE, [];
      for i := 0 to |file|
        invariant hs == LastState(file[..i]) && es == EntriesOf(file[..i])
      {
        ReadBackOne(file[..i], file[i]);
        assert file[..i + 1] == file[..i] + [file[i]];
        match file[i]
        case StateRecord(h) => hs := h;
        case EntryRecord(e) => es := es + [e];
        case UnknownRecord =>
      }
      assert file[..|file|] == file;
      hardState, entries := hs, es;
    }

    static method FilterAbove(es: seq<Entry>, index: nat) returns (kept: seq<Entry>)
      ensures kept == Above(es, index)
    {
      kept := [];
      for i := 0 to |es|
        invariant kept == Above(es[..i], index)
      {
        assert es[..i + 1][..i] == es[..i];
        if es[i].index > index {
          kept := kept + [es[i]];
        }
      }
      assert es[..|es|] == es;
    }

    /** The contents of wal.log.tmp. */
    static method WriteTemp(hs: HardState, kept: seq<Entry>) returns (tmp: seq<Record>)
      ensures tmp == CompactFile(hs, kept)
    {
      tmp := if hs != EMPTY_STATE then [StateRecord(hs)] else [];
      ghost var head := tmp;
      for i := 0 to |kept|
        invariant tmp == head + EntryRecords(kept[..i])
      {
        tmp := tmp + [EntryRecord(kept[i])];
        assert EntryRecords(kept[..i + 1]) == EntryRecords(kept[..i]) + [EntryRecord(kept[i])];
      }
      assert kept[..|kept|] == kept;
    }

    method Compact(index: nat, fault: CompactFault) returns (ok: bool)
      modifies this
      ensures ok <==> fault.NoFault?
      ensures ok ==> Img() == CompactImage(old(Img()), index) && Mirrors(Img())
      ensures fault.BeforeRename? ==> Img() == old(Img())
      ensures fault.AtReopen? ==> Img() == old(Img()).(file := CompactImage(old(Img()), index).file)
      ensures closed == match fault { case NoFault => false case BeforeRename => old(closed) case AtReopen => true }
    {
      var kept := FilterAbove(entries, index);
      var tmp := WriteTemp(hardState, kept);
      if fault.BeforeRename? {
        return false;
      }
      file := tmp;
      closed := true;
      if fault.AtReopen? {
        return false;
      }
      closed, entries := false, kept;
      CompactReadsBack(hardState, kept);
      ok := true;
    }
  }
}
