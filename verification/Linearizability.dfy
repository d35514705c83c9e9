/** The linearizability check: the key-value model, the conversion of a recorded history into events, and what
    checking those events amounts to. */
module Linearizability {
  import opened Types
  import opened KvStore

  // ---------------------------------------------------------------- the model

  datatype KVInput = KVInput(op: string, key: string, val: string)

  datatype KVOutput = KVOutput(val: string, ok: bool)

  /** Whether the model accepts an operation, and the state after it. */
  datatype Verdict = Verdict(accepted: bool, state: KV)

  function Step(st: KV, inp: KVInput, out: KVOutput): Verdict {
    if inp.op == "get" then
      Verdict(if inp.key in st then out.ok && out.val == st[inp.key] else !out.ok, st)
    else if inp.op == "put" then
      if out.ok then Verdict(true, st[inp.key := inp.val]) else Verdict(false, st)
    else if inp.op == "delete" then
      if out.ok then Verdict(true, st - {inp.key}) else Verdict(false, st)
    else Verdict(false, st)
  }

  /** The code's form: copy the map key by key, then edit the copy. */
  method StepByCopy(st: KV, inp: KVInput, out: KVOutput) returns (v: Verdict)
    ensures v == Step(st, inp, out)
  {
    var copy: KV := map[];
    var rest := st.Keys;
    while rest != {}
      invariant rest <= st.Keys && copy.Keys == st.Keys - rest
      invariant forall k :: k in copy ==> copy[k] == st[k]
      decreases |rest|
    {
      var k :| k in rest;
      copy := copy[k := st[k]];
      rest := rest - {k};
    }
    assert copy == st;
    if inp.op == "get" {
      if inp.key in st {
        if out.ok && out.val == st[inp.key] {
          return Verdict(true, copy);
        }
      } else {
        if !out.ok {
          return Verdict(true, copy);
        }
      }
      return Verdict(false, st);
    } else if inp.op == "put" {
      if out.ok {
        copy := copy[inp.key := inp.val];
        return Verdict(true, copy);
      }
      return Verdict(false, st);
    } else if inp.op == "delete" {
      if out.ok {
        copy := copy - {inp.key};
        return Verdict(true, copy);
      }
      return Verdict(false, st);
    } else {
      return Verdict(false, st);
    }
  }

  /** A deleted key is gone: a read of it is accepted exactly if it reports nothing, and reads of other keys are
      accepted as before. Failed writes and unknown operations are never accepted. */
  lemma DeletedIsGone(st: KV, k: string, x: string, v: string, read: KVOutput)
    ensures
      var d := Step(st, KVInput("delete", k, v), KVOutput("", true));
      && d.accepted
      && (Step(d.state, KVInput("get", k, ""), read).accepted <==> !read.ok)
      && (x != k ==>
            Step(d.state, KVInput("get", x, ""), read).accepted == Step(st, KVInput("get", x, ""), read).accepted)
    ensures !read.ok ==> forall op :: op != "get" ==> !Step(st, KVInput(op, k, v), read).accepted
    ensures forall op :: op != "get" && op != "put" && op != "delete" ==> !Step(st, KVInput(op, k, v), read).accepted
  {
  }

  // ---------------------------------------------------------------- events

  datatype Event = Call(id: nat, input: KVInput) | Return(id: nat, output: KVOutput)

  datatype Op = Op(id: nat, input: KVInput, output: KVOutput)

  predicate IsRecognised(op: Operation) {
    op.kind == OP_GET || op.kind == OP_PUT
  }

  function ToOp(op: Operation, id: nat): Op {
    Op(id, KVInput(if op.kind == OP_GET then "get" else "put", op.key, op.val), KVOutput(op.val, op.success))
  }

  /** The recognised operations of a history, in its order. */
  function Recognised(h: seq<Operation>): seq<Op> {
    if h == [] then []
    else Recognised(h[..|h| - 1]) + (if IsRecognised(h[|h| - 1]) then [ToOp(h[|h| - 1], |h| - 1)] else [])
  }

  /** Only operations recorded as GET or PUT take part. */
  lemma OthersAreSkipped(h: seq<Operation>, op: Operation)
    requires op.kind != "GET" && op.kind != "PUT"
    ensures Recognised(h + [op]) == Recognised(h)
  {
    assert (h + [op])[..|h|] == h;
  }

  /** Each operation as a call immediately followed by its return. */
  function EventsOf(ops: seq<Op>): seq<Event> {
    if ops == [] then []
    else
      var o := ops[|ops| - 1];
      EventsOf(ops[..|ops| - 1]) + [Call(o.id, o.input), Return(o.id, o.output)]
  }

  method ConvertToPorcupineEvents(history: seq<Operation>) returns (events: seq<Event>)
    ensures events == EventsOf(Recognised(history))
  {
    events := [];
    for i := 0 to |history|
      invariant events == EventsOf(Recognised(history[..i]))
    {
      var op := history[i];
      var before := history[..i];
      assert history[..i + 1][..i] == before && history[..i + 1][i] == op;
      var opType: string;
      if op.kind == OP_GET {
        opType := "get";
      } else if op.kind == OP_PUT {
        opType := "put";
      } else {
        assert Recognised(history[..i + 1]) == Recognised(before);
        continue;
      }
      var o := Op(i, KVInput(opType, op.key, op.val), KVOutput(op.val, op.success));
      assert Recognised(history[..i + 1]) == Recognised(before) + [o];
      assert (Recognised(before) + [o])[..|Recognised(before)|] == Recognised(before);
      events := events + [Call(i, KVInput(opType, op.key, op.val)), Return(i, KVOutput(op.val, op.success))];
    }
    assert history[..|history|] == history;
  }

  // ---------------------------------------------------------------- linearizability, for any events

  /** a returned before b was called. */
  ghost predicate Precedes(events: seq<Event>, a: nat, b: nat) {
    exists p, q ::
      0 <= p < q < |events| && events[p].Return? && events[p].id == a && events[q].Call? && events[q].id == b
  }

  /** The model accepts the operations one after the other, from the empty map. */
  function Fold(ops: seq<Op>): Option<KV> {
    if ops == [] then Some(map[])
    else
      match Fold(ops[..|ops| - 1])
      case None => None
      case Some(st) =>
        var v := Step(st, ops[|ops| - 1].input, ops[|ops| - 1].output);
        if v.accepted then Some(v.state) else None
  }

  /** Each operation of the order was called with its input and returned its output. */
  ghost predicate Happened(events: seq<Event>, order: seq<Op>) {
    forall o :: o in order ==> Call(o.id, o.input) in events && Return(o.id, o.output) in events
  }

  ghost predicate Mentions(order: seq<Op>, id: nat) {
    exists o :: o in order && o.id == id
  }

  ghost predicate Complete(events: seq<Event>, order: seq<Op>) {
    forall e :: e in events ==> Mentions(order, e.id)
  }

  /** No operation twice, and none before one that had returned before it was called. */
  ghost predicate RealTime(events: seq<Event>, order: seq<Op>) {
    forall i, j :: 0 <= i < j < |order| ==> order[i].id != order[j].id && !Precedes(events, order[j].id, order[i].id)
  }

  /** An order of all the called operations, each once, that respects real time and that the model accepts. */
  ghost predicate IsLinearization(events: seq<Event>, order: seq<Op>) {
    Happened(events, order) && Complete(events, order) && RealTime(events, order) && Fold(order).Some?
  }

  // ---------------------------------------------------------------- the collapse

  ghost predicate Increasing(ops: seq<Op>) {
    forall i, j :: 0 <= i < j < |ops| ==> ops[i].id < ops[j].id
  }

  lemma {:induction false} RecognisedIncreasing(h: seq<Operation>)
    ensures Increasing(Recognised(h))
    ensures forall o :: o in Recognised(h) ==> o.id < |h|
  {
    if h != [] {
      RecognisedIncreasing(h[..|h| - 1]);
    }
  }

  lemma {:induction false} EventAt(ops: seq<Op>, k: nat)
    requires k < |ops|
    ensures |EventsOf(ops)| == 2 * |ops|
    ensures EventsOf(ops)[2 * k] == Call(ops[k].id, ops[k].input)
    ensures EventsOf(ops)[2 * k + 1] == Return(ops[k].id, ops[k].output)
  {
    var n := |ops| - 1;
    if n > 0 {
      EventAt(ops[..n], if k < n then k else 0);
    }
  }

  /** Every event belongs to the operation at half its position. */
  lemma {:induction false} EventOf(ops: seq<Op>, p: nat)
    requires p < |EventsOf(ops)| && ops != []
    ensures p / 2 < |ops|
    ensures
      var o := ops[p / 2];
      EventsOf(ops)[p] == if p % 2 == 0 then Call(o.id, o.input) else Return(o.id, o.output)
  {
    EventAt(ops, 0);
    EventAt(ops, p / 2);
  }

  /** With calls and returns paired up, real-time order is history order. */
  lemma {:induction false} PrecedesIsOrder(ops: seq<Op>, i: nat, j: nat)
    requires Increasing(ops) && i < |ops| && j < |ops|
    ensures Precedes(EventsOf(ops), ops[i].id, ops[j].id) <==> i < j
  {
    var events := EventsOf(ops);
    if i < j {
      EventAt(ops, i);
      EventAt(ops, j);
      assert events[2 * i + 1].Return? && events[2 * j].Call?;
    }
    if Precedes(events, ops[i].id, ops[j].id) {
      var p, q :|
        && 0 <= p < q < |events| && events[p].Return? && events[p].id == ops[i].id
        && events[q].Call? && events[q].id == ops[j].id;
      EventOf(ops, p);
      EventOf(ops, q);
      assert p / 2 == i && q / 2 == j;
    }
  }

  /** Two increasing lists with the same members are the same list. */
  lemma {:induction false} SameIncreasing(a: seq<Op>, b: seq<Op>)
    requires Increasing(a) && Increasing(b)
    requires forall o :: o in a <==> o in b
    ensures a == b
  {
    if a == [] {
      assert forall i :: 0 <= i < |b| ==> b[i] in a;
    } else {
      assert a[|a| - 1] in b && b != [];
      assert b[|b| - 1] in a;
      var m, n := |a| - 1, |b| - 1;
      var i :| 0 <= i < |b| && b[i] == a[m];
      var j :| 0 <= j < |a| && a[j] == b[n];
      assert i == n && j == m;
      forall o ensures o in a[..m] <==> o in b[..n] {
        if o in a[..m] {
          assert o in b && o.id < a[m].id;
        }
        if o in b[..n] {
          assert o in a && o.id < b[n].id;
        }
      }
      SameIncreasing(a[..m], b[..n]);
      assert a == a[..m] + [a[m]] && b == b[..n] + [b[n]];
    }
  }

  lemma {:induction false} MemberOfEvents(ops: seq<Op>, o: Op)
    requires Increasing(ops) && Call(o.id, o.input) in EventsOf(ops) && Return(o.id, o.output) in EventsOf(ops)
    ensures o in ops
  {
    var events := EventsOf(ops);
    var p :| 0 <= p < |events| && events[p] == Call(o.id, o.input);
    var q :| 0 <= q < |events| && events[q] == Return(o.id, o.output);
    EventOf(ops, p);
    EventOf(ops, q);
    assert p / 2 == q / 2;
    assert o == ops[p / 2];
  }

  lemma {:induction false} HistoryOrderQualifies(ops: seq<Op>)
    requires Increasing(ops) && Fold(ops).Some?
    ensures IsLinearization(EventsOf(ops), ops)
  {
    var events := EventsOf(ops);
    hide Fold;
    forall o | o in ops ensures Call(o.id, o.input) in events && Return(o.id, o.output) in events {
      var k :| 0 <= k < |ops| && ops[k] == o;
      EventAt(ops, k);
      assert events[2 * k] in events && events[2 * k + 1] in events;
    }
    forall e | e in events ensures Mentions(ops, e.id) {
      var p :| 0 <= p < |events| && events[p] == e;
      EventOf(ops, p);
      assert ops[p / 2] in ops;
    }
    forall i, j | 0 <= i < j < |ops| ensures ops[i].id != ops[j].id && !Precedes(events, ops[j].id, ops[i].id) {
      PrecedesIsOrder(ops, j, i);
    }
  }

  lemma {:induction false} OrderIncreases(ops: seq<Op>, order: seq<Op>)
    requires Increasing(ops) && RealTime(EventsOf(ops), order) && forall o :: o in order ==> o in ops
    ensures Increasing(order)
  {
    forall i, j | 0 <= i < j < |order| ensures order[i].id < order[j].id {
      assert order[i] in ops && order[j] in ops;
      var k :| 0 <= k < |ops| && ops[k] == order[i];
      var l :| 0 <= l < |ops| && ops[l] == order[j];
      PrecedesIsOrder(ops, l, k);
    }
  }

  lemma {:induction false} NoneMissing(ops: seq<Op>, order: seq<Op>, k: nat)
    requires Increasing(ops) && Complete(EventsOf(ops), order) && k < |ops| && forall o :: o in order ==> o in ops
    ensures ops[k] in order
  {
    EventAt(ops, k);
    var events := EventsOf(ops);
    assert events[2 * k] in events;
    assert Mentions(order, ops[k].id);
    var x :| x in order && x.id == ops[k].id;
    var l :| 0 <= l < |ops| && ops[l] == x;
    assert k == l;
  }

  lemma {:induction false} OnlyHistoryOrder(ops: seq<Op>, order: seq<Op>)
    requires Increasing(ops) && IsLinearization(EventsOf(ops), order)
    ensures order == ops
  {
    hide Fold, EventsOf;
    forall o | o in order ensures o in ops {
      MemberOfEvents(ops, o);
    }
    OrderIncreases(ops, order);
    forall o | o in ops ensures o in order {
      var k :| 0 <= k < |ops| && ops[k] == o;
      NoneMissing(ops, order, k);
    }
    SameIncreasing(order, ops);
  }

  /** For every history: a linearization of the converted events exists exactly when the model accepts the recognised
      operations in history order, and that order is then the only linearization. */
  lemma {:induction false} CheckIsAFold(h: seq<Operation>)
    ensures
      var ops := Recognised(h);
      && ((exists order :: IsLinearization(EventsOf(ops), order)) <==> Fold(ops).Some?)
      && (forall order :: IsLinearization(EventsOf(ops), order) ==> order == ops)
  {
    var ops := Recognised(h);
    RecognisedIncreasing(h);
    forall order | IsLinearization(EventsOf(ops), order) ensures order == ops {
      OnlyHistoryOrder(ops, order);
    }
    if Fold(ops).Some? {
      HistoryOrderQualifies(ops);
    }
  }
}
