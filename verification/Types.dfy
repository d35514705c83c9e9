/** The values every other module speaks about: log entries, the Raft hard state,
    and the effect of a committed entry on the key-value map. */
module Types {

  datatype Option<+T> = None | Some(value: T)

  const TWO64: nat := 0x1_0000_0000_0000_0000

  /** Go's uint64. */
  type uint64 = n: nat | n < TWO64 witness 0

  /** uint64 subtraction, with its wrap-around. */
  function Sub64(a: uint64, b: uint64): uint64 {
    if a >= b then a - b else a + TWO64 - b
  }

  type KV = map<string, string>

  datatype HardState = HardState(term: nat, vote: nat, commit: nat)

  const EMPTY_STATE := HardState(0, 0, 0)

  /** What a committed entry carries. `Opaque` is data that fails to decode or decodes to
      a type other than a normal entry: it is logged or skipped, and changes nothing. */
  datatype Payload = Blank | Put(key: string, val: string) | Opaque | Conf

  datatype Entry = Entry(index: uint64, term: nat, payload: Payload)

  function ApplyEntry(kv: KV, e: Entry): KV {
    if e.payload.Put? then kv[e.payload.key := e.payload.val] else kv
  }

  /** Apply a stretch of log, first entry first. */
  function ApplyAll(kv: KV, es: seq<Entry>): KV {
    if es == [] then kv else ApplyEntry(ApplyAll(kv, es[..|es| - 1]), es[|es| - 1])
  }

  lemma {:induction false} ApplySplit(kv: KV, a: seq<Entry>, b: seq<Entry>)
    ensures ApplyAll(kv, a + b) == ApplyAll(ApplyAll(kv, a), b)
  {
    if b == [] {
      assert a + b == a;
    } else {
      ApplySplit(kv, a, b[..|b| - 1]);
      assert (a + b)[..|a + b| - 1] == a + b[..|b| - 1];
    }
  }

  /** The entry writes key k. */
  predicate Writes(e: Entry, k: string) {
    e.payload.Put? && e.payload.key == k
  }

  /** Entry i is the last of the log to write k. */
  ghost predicate LastWrite(log: seq<Entry>, k: string, i: nat) {
    i < |log| && Writes(log[i], k) && forall j :: i < j < |log| ==> !Writes(log[j], k)
  }

  lemma {:induction false} NeverWritten(kv: KV, log: seq<Entry>, k: string)
    requires forall i :: 0 <= i < |log| ==> !Writes(log[i], k)
    ensures k in ApplyAll(kv, log) <==> k in kv
    ensures k in kv ==> ApplyAll(kv, log)[k] == kv[k]
  {
    if log != [] {
      assert !Writes(log[|log| - 1], k);
      NeverWritten(kv, log[..|log| - 1], k);
    }
  }

  lemma {:induction false} LastWriteWins(kv: KV, log: seq<Entry>, k: string, i: nat)
    requires LastWrite(log, k, i)
    ensures k in ApplyAll(kv, log) && ApplyAll(kv, log)[k] == log[i].payload.val
  {
    var n := |log| - 1;
    if i < n {
      assert !Writes(log[n], k);
      LastWriteWins(kv, log[..n], k, i);
    }
  }

  lemma {:induction false} FindLastWrite(log: seq<Entry>, k: string, j: nat) returns (i: nat)
    requires j < |log| && Writes(log[j], k)
    ensures LastWrite(log, k, i)
    decreases |log| - j
  {
    i := j;
    if l :| j < l < |log| && Writes(log[l], k) {
      i := FindLastWrite(log, k, l);
    }
  }

  /** What a log leaves at each key, found by searching the log: the value of the last entry that writes it, and where
      there is none, what was there before. */
  lemma ApplyAllHolds(kv: KV, log: seq<Entry>, k: string)
    ensures k in ApplyAll(kv, log) <==> k in kv || exists i :: 0 <= i < |log| && Writes(log[i], k)
    ensures forall i: nat :: LastWrite(log, k, i) ==>
      k in ApplyAll(kv, log) && ApplyAll(kv, log)[k] == log[i].payload.val
    ensures k in kv && (forall i :: 0 <= i < |log| ==> !Writes(log[i], k)) ==> ApplyAll(kv, log)[k] == kv[k]
  {
    hide ApplyAll;
    forall i: nat | LastWrite(log, k, i) ensures k in ApplyAll(kv, log) && ApplyAll(kv, log)[k] == log[i].payload.val {
      LastWriteWins(kv, log, k, i);
    }
    if j: nat :| j < |log| && Writes(log[j], k) {
      var i := FindLastWrite(log, k, j);
    } else {
      NeverWritten(kv, log, k);
    }
  }

  /** A state in which every key holds the value last written to it, and no other key is there. */
  ghost predicate HoldsLastWrites(kv: KV, log: seq<Entry>) {
    && (forall k :: k in kv <==> exists i :: 0 <= i < |log| && Writes(log[i], k))
    && (forall k, i: nat :: LastWrite(log, k, i) ==> k in kv && kv[k] == log[i].payload.val)
  }

  lemma WholeLogHolds(log: seq<Entry>)
    ensures HoldsLastWrites(ApplyAll(map[], log), log)
  {
    forall k ensures k in ApplyAll(map[], log) <==> exists i :: 0 <= i < |log| && Writes(log[i], k) {
      ApplyAllHolds(map[], log, k);
    }
    forall k, i: nat | LastWrite(log, k, i)
      ensures k in ApplyAll(map[], log) && ApplyAll(map[], log)[k] == log[i].payload.val
    {
      ApplyAllHolds(map[], log, k);
    }
  }

  /** Entry number k of the log has index k + 1. */
  ghost predicate Numbered(log: seq<Entry>) {
    forall k :: 0 <= k < |log| ==> log[k].index == k + 1
  }
}
