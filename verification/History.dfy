/** The histories that the API handlers record, and what the linearizability check says of them. */
module History {
  import opened Types
  import opened KvStore
  import opened Linearizability

  // ---------------------------------------------------------------- the handlers

  /** How a proposal is answered: acknowledged once its entry is applied, acknowledged before that, or with an error.
      In the last two cases the entry may be applied later. */
  datatype Answer = Acked | AckedEarly | Failed

  /** What happens on the node, one thing after the other: a request is served, or an entry lands, that is, a write
      proposed before, here or on another node, is applied to the store. */
  datatype NodeEvent =
    | Get(key: string)
    | Put(key: string, val: string, answer: Answer)
    | Delete(key: string, answer: Answer)
    | Lands(key: string, val: string)

  datatype Served = Served(data: KV, history: seq<Operation>)

  /** The value an event leaves in the store, and the one it records as written. A DELETE is a put of the empty string
      and is not recorded, nor is a write answered with an error; a request without a key is refused. */
  function LandedValue(ev: NodeEvent): Option<string> {
    if ev.key == "" then None
    else match ev
      case Get(_) => None
      case Put(_, v, answer) => if answer.Acked? then Some(v) else None
      case Delete(_, answer) => if answer.Acked? then Some("") else None
      case Lands(_, v) => Some(v)
  }

  function RecordedValue(ev: NodeEvent): Option<string> {
    if ev.key != "" && ev.Put? && !ev.answer.Failed? then Some(ev.val) else None
  }

  function Serve(s: Served, ev: NodeEvent): Served {
    if ev.Get? && ev.key != "" then
      var v := if ev.key in s.data then s.data[ev.key] else "";
      s.(history := s.history + [Operation(OP_GET, ev.key, v, ev.key in s.data)])
    else
      Served(if LandedValue(ev).Some? then s.data[ev.key := LandedValue(ev).value] else s.data,
             if RecordedValue(ev).Some? then s.history + [Operation(OP_PUT, ev.key, ev.val, true)] else s.history)
  }

  function ServeAll(evs: seq<NodeEvent>): Served {
    if evs == [] then Served(map[], []) else Serve(ServeAll(evs[..|evs| - 1]), evs[|evs| - 1])
  }

  class Api {
    const store: KVStore

    constructor (kv: KVStore)
      ensures store == kv
    {
      store := kv;
    }

    ghost function Abs(): Served
      reads store
    {
      Served(store.data, store.history)
    }

    /** The proposal as the handler sees it: the store may have changed or not, and an error may come back or not. */
    method ProposeAndWait(k: string, v: string, answer: Answer) returns (err: bool)
      modifies store`data
      ensures err <==> answer.Failed?
      ensures store.data == if answer.Acked? then old(store.data)[k := v] else old(store.data)
    {
      if answer.Acked? {
        store.Put(k, v);
      }
      err := answer.Failed?;
    }

    method Handle(ev: NodeEvent)
      modifies store
      ensures Abs() == Serve(old(Abs()), ev)
    {
      if ev.key == "" {
        return;
      }
      match ev
      case Get(k) =>
        var v, found := store.Get(k);
        store.RecordOperation(Operation(OP_GET, k, v, found));
      case Put(k, v, answer) =>
        var err := ProposeAndWait(k, v, answer);
        if err {
          return;
        }
        store.RecordOperation(Operation(OP_PUT, k, v, true));
      case Delete(k, answer) =>
        var err := ProposeAndWait(k, "", answer);
      case Lands(k, v) =>
        store.Put(k, v);
    }
  }

  // ---------------------------------------------------------------- what a client sees

  /** After any events, an acknowledged PUT leaves its value at its key and nothing else changed, it is recorded, and a
      GET right after it records that value as found. */
  lemma AckedPutIsRead(evs: seq<NodeEvent>, k: string, v: string)
    requires k != ""
    ensures
      var put := NodeEvent.Put(k, v, Acked);
      var before, after, read := ServeAll(evs), ServeAll(evs + [put]), ServeAll(evs + [put, Get(k)]);
      && k in after.data && after.data[k] == v
      && (forall x :: x != k ==> (x in after.data <==> x in before.data))
      && (forall x :: x != k && x in before.data ==> after.data[x] == before.data[x])
      && after.history == before.history + [Operation("PUT", k, v, true)]
      && read.data == after.data && read.history == after.history + [Operation("GET", k, v, true)]
  {
    var put := NodeEvent.Put(k, v, Acked);
    assert (evs + [put])[..|evs|] == evs;
    assert (evs + [put, Get(k)])[..|evs| + 1] == evs + [put];
  }

  /** A GET of a key never written finds nothing, an acknowledged DELETE leaves the empty string, an entry that lands
      its own value, and neither of these is recorded. */
  lemma OtherEffects(s: Served, k: string, v: string)
    requires k != ""
    ensures k !in s.data ==> Serve(s, Get(k)) == s.(history := s.history + [Operation("GET", k, "", false)])
    ensures Serve(s, Delete(k, Acked)) == s.(data := s.data[k := ""])
    ensures Serve(s, Lands(k, v)) == s.(data := s.data[k := v])
    ensures Serve(s, NodeEvent.Put(k, v, AckedEarly)) == s.(history := s.history + [Operation("PUT", k, v, true)])
  {
  }

  /** A write answered with an error does nothing at once, and a request without a key nothing at all. */
  lemma NoEffects(s: Served, ev: NodeEvent)
    requires ev.key == "" || ((ev.Put? || ev.Delete?) && ev.answer.Failed?)
    ensures Serve(s, ev) == s
  {
  }

  // ---------------------------------------------------------------- when the check passes

  /** The last value that landed on key k, and the last one recorded for it. */
  function LastLanded(evs: seq<NodeEvent>, k: string): Option<string> {
    if evs == [] then None
    else
      var ev := evs[|evs| - 1];
      if ev.key == k && LandedValue(ev).Some? then LandedValue(ev) else LastLanded(evs[..|evs| - 1], k)
  }

  function LastRecorded(evs: seq<NodeEvent>, k: string): Option<string> {
    if evs == [] then None
    else
      var ev := evs[|evs| - 1];
      if ev.key == k && RecordedValue(ev).Some? then RecordedValue(ev) else LastRecorded(evs[..|evs| - 1], k)
  }

  /** NodeEvent i reads no key whose last landed value differs from its last recorded one. */
  predicate ReadAgrees(evs: seq<NodeEvent>, i: nat)
    requires i < |evs|
  {
    evs[i].Get? && evs[i].key != "" ==> LastLanded(evs[..i], evs[i].key) == LastRecorded(evs[..i], evs[i].key)
  }

  predicate ReadsAgree(evs: seq<NodeEvent>) {
    forall i :: 0 <= i < |evs| ==> ReadAgrees(evs, i)
  }

  /** The map the recorded PUTs alone would give. */
  function Recorded(evs: seq<NodeEvent>): KV {
    if evs == [] then map[]
    else
      var ev := evs[|evs| - 1];
      var m := Recorded(evs[..|evs| - 1]);
      if RecordedValue(ev).Some? then m[ev.key := ev.val] else m
  }

  function Lookup(m: KV, k: string): Option<string> {
    if k in m then Some(m[k]) else None
  }

  /** The store holds what landed last, and the recorded PUTs what was recorded last. */
  lemma {:induction false} LastWritesDecide(evs: seq<NodeEvent>, k: string)
    ensures Lookup(ServeAll(evs).data, k) == LastLanded(evs, k)
    ensures Lookup(Recorded(evs), k) == LastRecorded(evs, k)
  {
    if evs != [] {
      LastWritesDecide(evs[..|evs| - 1], k);
    }
  }

  lemma {:induction false} FoldOfRecorded(h: seq<Operation>, op: Operation)
    requires IsRecognised(op)
    ensures
      var o := ToOp(op, |h|);
      Fold(Recognised(h + [op])) ==
      match Fold(Recognised(h)) {
        case None => None
        case Some(st) => if Step(st, o.input, o.output).accepted then Some(Step(st, o.input, o.output).state) else None
      }
  {
    assert (h + [op])[..|h|] == h;
    var ops := Recognised(h + [op]);
    assert ops[..|ops| - 1] == Recognised(h);
  }

  function GetOperation(data: KV, k: string): Operation {
    Operation(OP_GET, k, if k in data then data[k] else "", k in data)
  }

  /** The model accepts a recorded GET exactly when its own state agrees with the store's on that key. */
  lemma {:induction false} AfterGet(h: seq<Operation>, data: KV, k: string)
    ensures
      Fold(Recognised(h + [GetOperation(data, k)])) ==
      match Fold(Recognised(h)) {
        case None => None
        case Some(st) => if Lookup(st, k) == Lookup(data, k) then Some(st) else None
      }
  {
    FoldOfRecorded(h, GetOperation(data, k));
    hide Fold, Recognised;
  }

  lemma {:induction false} AfterPut(h: seq<Operation>, k: string, v: string)
    ensures
      Fold(Recognised(h + [Operation(OP_PUT, k, v, true)])) ==
      match Fold(Recognised(h)) {
        case None => None
        case Some(st) => Some(st[k := v])
      }
  {
    FoldOfRecorded(h, Operation(OP_PUT, k, v, true));
    hide Fold, Recognised;
  }

  lemma {:induction false} AgreeSoFar(evs: seq<NodeEvent>)
    requires evs != []
    ensures ReadsAgree(evs) <==> ReadsAgree(evs[..|evs| - 1]) && ReadAgrees(evs, |evs| - 1)
  {
    var n := |evs| - 1;
    forall i | 0 <= i < n ensures ReadAgrees(evs[..n], i) <==> ReadAgrees(evs, i) {
      assert evs[..n][..i] == evs[..i];
    }
  }

  /** Checking the recorded history of any serial run of PUTs, GETs and DELETEs on a fresh store, however the proposals
      are answered and whenever their entries land, accepts exactly when every GET reads a key whose last landed value
      is its last recorded one; and then the model ends with the map of the recorded PUTs. */
  lemma {:induction false} HistoryAcceptedExactly(evs: seq<NodeEvent>)
    ensures Fold(Recognised(ServeAll(evs).history)) == if ReadsAgree(evs) then Some(Recorded(evs)) else None
  {
    hide Fold, Recognised, ReadsAgree;
    if evs == [] {
      NothingRecorded();
    } else {
      var before, ev := evs[..|evs| - 1], evs[|evs| - 1];
      HistoryAcceptedExactly(before);
      AgreeSoFar(evs);
      if ev.Get? && ev.key != "" {
        GetAccepted(before, ev);
      } else if RecordedValue(ev).Some? {
        AfterPut(ServeAll(before).history, ev.key, ev.val);
      }
    }
  }

  /** One more GET is accepted exactly when it agrees. */
  lemma GetAccepted(before: seq<NodeEvent>, ev: NodeEvent)
    requires ev.Get? && ev.key != ""
    requires Fold(Recognised(ServeAll(before).history)) == if ReadsAgree(before) then Some(Recorded(before)) else None
    ensures
      Fold(Recognised(Serve(ServeAll(before), ev).history)) ==
      if ReadsAgree(before) && LastLanded(before, ev.key) == LastRecorded(before, ev.key)
      then Some(Recorded(before)) else None
  {
    hide Fold, Recognised, ReadsAgree, LastLanded, LastRecorded, ServeAll, Recorded, Lookup;
    LastWritesDecide(before, ev.key);
    AfterGet(ServeAll(before).history, ServeAll(before).data, ev.key);
  }

  lemma {:induction false} NothingRecorded()
    ensures Fold(Recognised([])) == Some(map[]) && ReadsAgree([])
  {
  }

  /** A GET, a PUT acknowledged when applied, a write that fails, or a request refused for its empty key. */
  predicate Ordinary(ev: NodeEvent) {
    || ev.key == "" || ev.Get? || (ev.Put? && ev.answer.Acked?)
    || ((ev.Put? || ev.Delete?) && ev.answer.Failed?)
  }

  lemma {:induction false} NothingHidden(evs: seq<NodeEvent>)
    requires forall ev :: ev in evs ==> Ordinary(ev)
    ensures ReadsAgree(evs) && ServeAll(evs).data == Recorded(evs)
    ensures forall k :: LastLanded(evs, k) == LastRecorded(evs, k)
  {
    if evs != [] {
      var n := |evs| - 1;
      assert evs[n] in evs && forall ev :: ev in evs[..n] ==> ev in evs;
      NothingHidden(evs[..n]);
      AgreeSoFar(evs);
    }
  }

  /** A run of ordinary requests is found linearizable, and the model ends in the store's own map. */
  lemma SerialRunsAreLinearizable(evs: seq<NodeEvent>)
    requires forall ev :: ev in evs ==> Ordinary(ev)
    ensures
      var s := ServeAll(evs);
      && Fold(Recognised(s.history)) == Some(s.data)
      && exists order :: IsLinearization(EventsOf(Recognised(s.history)), order)
  {
    NothingHidden(evs);
    HistoryAcceptedExactly(evs);
    CheckIsAFold(ServeAll(evs).history);
  }

  lemma Rejected(evs: seq<NodeEvent>, i: nat)
    requires i < |evs| && !ReadAgrees(evs, i)
    ensures !(exists order :: IsLinearization(EventsOf(Recognised(ServeAll(evs).history)), order))
  {
    HistoryAcceptedExactly(evs);
    CheckIsAFold(ServeAll(evs).history);
  }

  /** A PUT, a DELETE and a GET of one key, correctly served one after the other, are reported as a violation. */
  lemma DeleteLooksLikeAViolation()
    ensures
      var evs := [NodeEvent.Put("k", "v", Acked), Delete("k", Acked), Get("k")];
      !(exists order :: IsLinearization(EventsOf(Recognised(ServeAll(evs).history)), order))
  {
    var evs := [NodeEvent.Put("k", "v", Acked), Delete("k", Acked), Get("k")];
    assert evs[..2][..1] == [evs[0]] && [evs[0]][..0] == [];
    assert LastLanded(evs[..2], "k") == Some("") && LastRecorded([evs[0]], "k") == Some("v");
    Rejected(evs, 2);
  }

  /** So is a PUT that times out, is not there yet for one GET and is there for the next. */
  lemma LateLandingLooksLikeAViolation()
    ensures
      var evs := [NodeEvent.Put("k", "v", Failed), Get("k"), Lands("k", "v"), Get("k")];
      !(exists order :: IsLinearization(EventsOf(Recognised(ServeAll(evs).history)), order))
  {
    var evs := [NodeEvent.Put("k", "v", Failed), Get("k"), Lands("k", "v"), Get("k")];
    assert evs[..3][..2][..1] == [evs[0]] && [evs[0]][..0] == [];
    assert LastLanded(evs[..3], "k") == Some("v") && LastRecorded(evs[..3][..2][..1], "k") == None;
    assert LastRecorded(evs[..3][..2], "k") == None;
    Rejected(evs, 3);
  }
}
