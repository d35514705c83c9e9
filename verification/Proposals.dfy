/** Proposal tracking: any interleaving of proposers, the apply loop and timeouts. A proposer waits on the index after
    the applied one it read, not on the index of its own entry. */
module Proposals {
  import opened Types

  datatype Stage = Proposed | HasIndex | Waiting | Done(acked: bool)

  /** One ProposeAndWait call. `own` is the log index its entry got, which the call never learns; `buffer` is its
      one-slot channel; `sends` and `dropped` count what notifyProposal did to that channel. */
  datatype Waiter = Waiter(own: nat, expected: nat, stage: Stage, buffer: Option<nat>, sends: nat, dropped: nat)

  /** The log of the proposing node: entry number k has index k + 1 and names the call it came from, if any. */
  type Log = seq<Option<nat>>

  /** `unnotified` is an entry that has been applied but whose notification has not run yet. */
  datatype Tracker = Tracker(log: Log, applied: nat, unnotified: Option<nat>, proposals: map<nat, nat>,
                             waiters: map<nat, Waiter>)

  /** `Change` is replication at work: entries of other nodes arrive, or a new leader replaces unapplied ones.
      `Install` is a peer's snapshot, which skips the notifications of what it covers. */
  datatype Action =
    | Propose(w: nat)
    | Change(log: Log)
    | ReadIndex(w: nat)
    | Register(w: nat)
    | Apply
    | Install(log: Log)
    | Notify
    | Receive(w: nat)
    | Timeout(w: nat)

  predicate At(t: Tracker, w: nat, s: Stage) {
    w in t.waiters && t.waiters[w].stage == s
  }

  /** Each call's entry is only ever at the index it was created at. */
  ghost predicate OwnPlaces(log: Log, waiters: map<nat, Waiter>) {
    forall k :: 0 <= k < |log| && log[k].Some? ==> log[k].value in waiters && waiters[log[k].value].own == k + 1
  }

  /** What the Raft library may make of the log: what is applied stays. */
  ghost predicate Allowed(t: Tracker, log: Log) {
    t.applied <= |t.log| && t.log[..t.applied] <= log && OwnPlaces(log, t.waiters)
  }

  ghost predicate Enabled(t: Tracker, a: Action) {
    match a
    case Propose(w) => w !in t.waiters
    case Change(log) => Allowed(t, log)
    case ReadIndex(w) => At(t, w, Proposed)
    case Register(w) => At(t, w, HasIndex)
    case Apply => t.unnotified.None? && t.applied < |t.log|
    case Install(log) => t.unnotified.None? && Allowed(t, log) && |log| > t.applied
    case Notify => t.unnotified.Some?
    case Receive(w) => At(t, w, Waiting) && t.waiters[w].buffer.Some?
    case Timeout(w) => At(t, w, Waiting)
  }

  function Set(t: Tracker, w: nat, x: Waiter): Tracker {
    t.(waiters := t.waiters[w := x])
  }

  /** The select in notifyProposal: a full channel drops the message. */
  function Offer(x: Waiter, i: nat): Waiter {
    if x.buffer.None? then x.(buffer := Some(i), sends := x.sends + 1) else x.(dropped := x.dropped + 1)
  }

  ghost function Do(t: Tracker, a: Action): Tracker
    requires Enabled(t, a)
  {
    match a
    case Propose(w) => Set(t, w, Waiter(|t.log| + 1, 0, Proposed, None, 0, 0)).(log := t.log + [Some(w)])
    case Change(log) => t.(log := log)
    case ReadIndex(w) => Set(t, w, t.waiters[w].(expected := t.applied + 1, stage := HasIndex))
    case Register(w) =>
      // A second proposer that read the same index takes the slot over.
      Set(t, w, t.waiters[w].(stage := Waiting)).(proposals := t.proposals[t.waiters[w].expected := w])
    case Apply => t.(applied := t.applied + 1, unnotified := Some(t.applied + 1))
    case Install(log) => t.(log := log, applied := |log|)
    case Notify =>
      var i := t.unnotified.value;
      var u := t.(unnotified := None, proposals := t.proposals - {i});
      if i in t.proposals && t.proposals[i] in t.waiters
      then Set(u, t.proposals[i], Offer(t.waiters[t.proposals[i]], i)) else u
    case Receive(w) => Set(t, w, t.waiters[w].(stage := Done(true), buffer := None))
    case Timeout(w) =>
      // The slot is cleared by index, whoever holds it by now.
      Set(t, w, t.waiters[w].(stage := Done(false))).(proposals := t.proposals - {t.waiters[w].expected})
  }

  const START := Tracker([], 0, None, map[], map[])

  ghost predicate Legal(t: Tracker, acts: seq<Action>)
    decreases |acts|
  {
    acts == [] || (Enabled(t, acts[0]) && Legal(Do(t, acts[0]), acts[1..]))
  }

  ghost function Exec(t: Tracker, acts: seq<Action>): Tracker
    requires Legal(t, acts)
    decreases |acts|
  {
    if acts == [] then t else Exec(Do(t, acts[0]), acts[1..])
  }

  // ---------------------------------------------------------------- the invariant

  /** A channel in the table waits for its own index and has never been sent to. */
  predicate SlotOk(t: Tracker, i: nat)
    requires i in t.proposals
  {
    var w := t.proposals[i];
    At(t, w, Waiting) && t.waiters[w].expected == i && t.waiters[w].buffer.None? && t.waiters[w].sends == 0
  }

  predicate WaiterOk(t: Tracker, x: Waiter) {
    && x.sends <= 1 && x.dropped == 0
    && (x.buffer.Some? ==> x.sends == 1 && x.buffer.value == x.expected)
    && (x.sends == 1 ==> x.expected <= t.applied && (x.stage == Waiting || x.stage.Done?))
    && (x.stage == Done(true) ==> x.sends == 1)
    && (x.stage == Waiting && x.sends == 1 ==> x.buffer.Some?)
  }

  ghost predicate LogOk(t: Tracker) {
    t.applied <= |t.log| && OwnPlaces(t.log, t.waiters) && (t.unnotified.Some? ==> t.unnotified.value == t.applied)
  }

  ghost predicate TableOk(t: Tracker) {
    && (forall i :: i in t.proposals ==> SlotOk(t, i))
    && (forall w :: w in t.waiters ==> WaiterOk(t, t.waiters[w]))
  }

  ghost predicate Inv(t: Tracker) {
    LogOk(t) && TableOk(t)
  }

  lemma LogStep(t: Tracker, a: Action)
    requires LogOk(t) && Enabled(t, a)
    ensures LogOk(Do(t, a)) && t.applied <= Do(t, a).applied
  {
  }

  lemma NotifyTable(t: Tracker)
    requires LogOk(t) && TableOk(t) && Enabled(t, Notify)
    ensures TableOk(Do(t, Notify))
  {
    hide OwnPlaces;
    var i := t.unnotified.value;
    if i in t.proposals {
      assert SlotOk(t, i);
    }
  }

  lemma CallTable(t: Tracker, a: Action)
    requires TableOk(t) && Enabled(t, a) && (a.Propose? || a.ReadIndex? || a.Register? || a.Receive? || a.Timeout?)
    ensures TableOk(Do(t, a))
  {
    var u := Do(t, a);
    forall w | w in u.waiters ensures WaiterOk(u, u.waiters[w]) {
      assert w != a.w ==> WaiterOk(t, t.waiters[w]);
    }
    forall i | i in u.proposals ensures SlotOk(u, i) {
      assert i in t.proposals && u.proposals[i] == t.proposals[i] ==> SlotOk(t, i);
    }
  }

  lemma TableStep(t: Tracker, a: Action)
    requires LogOk(t) && TableOk(t) && Enabled(t, a)
    ensures TableOk(Do(t, a))
  {
    if a.Notify? {
      NotifyTable(t);
    } else if a.Change? || a.Apply? || a.Install? {
      hide OwnPlaces;
    } else {
      CallTable(t, a);
    }
  }

  lemma {:induction false} RunKeeps(t: Tracker, acts: seq<Action>)
    requires Inv(t) && Legal(t, acts)
    ensures Inv(Exec(t, acts)) && t.applied <= Exec(t, acts).applied
    decreases |acts|
  {
    hide LogOk, TableOk, Enabled, Do;
    if acts != [] {
      LogStep(t, acts[0]);
      TableStep(t, acts[0]);
      RunKeeps(Do(t, acts[0]), acts[1..]);
    }
  }

  // ---------------------------------------------------------------- what a success means

  /** In every interleaving: each channel is sent to at most once, no send finds the slot full, and a call that returned
      success has seen its expected index applied. */
  lemma AckMeansApplied(acts: seq<Action>, w: nat)
    requires Legal(START, acts) && w in Exec(START, acts).waiters
    ensures
      var t := Exec(START, acts);
      var x := t.waiters[w];
      && x.sends <= 1 && x.dropped == 0
      && (x.stage == Done(true) ==> x.expected <= t.applied)
  {
    RunKeeps(START, acts);
  }

  /** What a call has settled stays: the place of its entry, and once read the index it waits for. */
  lemma {:induction false} Settled(t: Tracker, acts: seq<Action>, w: nat)
    requires Legal(t, acts) && w in t.waiters
    ensures
      var u := Exec(t, acts);
      && w in u.waiters && u.waiters[w].own == t.waiters[w].own
      && (t.waiters[w].stage != Proposed ==>
            u.waiters[w].stage != Proposed && u.waiters[w].expected == t.waiters[w].expected)
    decreases |acts|
  {
    if acts != [] {
      hide Allowed;
      Settled(Do(t, acts[0]), acts[1..], w);
    }
  }

  /** The entry of call w itself is applied. */
  ghost predicate OwnApplied(t: Tracker, w: nat)
    requires t.applied <= |t.log|
  {
    Some(w) in t.log[..t.applied]
  }

  predicate HasEntryOf(log: Log, k: nat, w: nat) {
    k < |log| && log[k] == Some(w)
  }

  lemma OwnAppliedAt(t: Tracker, w: nat)
    requires LogOk(t) && w in t.waiters && t.waiters[w].own > 0
    ensures OwnApplied(t, w) <==> t.waiters[w].own <= t.applied && HasEntryOf(t.log, t.waiters[w].own - 1, w)
  {
    var own := t.waiters[w].own;
    if OwnApplied(t, w) {
      var k :| 0 <= k < t.applied && t.log[..t.applied][k] == Some(w);
      assert t.log[k] == Some(w);
    }
    if own <= t.applied && HasEntryOf(t.log, own - 1, w) {
      assert t.log[..t.applied][own - 1] == Some(w);
    }
  }

  /** The states of one call, in the order it passes them: about to propose, about to read the applied index, and the
      notification that sends to it. */
  ghost predicate Acknowledged(a: seq<Action>, w: nat, b: seq<Action>, c: seq<Action>) {
    && Legal(START, a) && Enabled(Exec(START, a), Propose(w))
    && var t1 := Do(Exec(START, a), Propose(w));
    && Legal(t1, b) && Enabled(Exec(t1, b), ReadIndex(w))
    && var t3 := Do(Exec(t1, b), ReadIndex(w));
    && Legal(t3, c) && Enabled(Exec(t3, c), Notify)
    && var t4 := Exec(t3, c);
    && w in t4.waiters && Do(t4, Notify).waiters[w].sends > t4.waiters[w].sends
  }

  ghost function AtPropose(a: seq<Action>, w: nat, b: seq<Action>, c: seq<Action>): Tracker
    requires Acknowledged(a, w, b, c)
  {
    Exec(START, a)
  }

  ghost function AtRead(a: seq<Action>, w: nat, b: seq<Action>, c: seq<Action>): Tracker
    requires Acknowledged(a, w, b, c)
  {
    Exec(Do(Exec(START, a), Propose(w)), b)
  }

  ghost function AtNotify(a: seq<Action>, w: nat, b: seq<Action>, c: seq<Action>): Tracker
    requires Acknowledged(a, w, b, c)
  {
    Exec(Do(AtRead(a, w, b, c), ReadIndex(w)), c)
  }

  lemma CallSettles(a: seq<Action>, w: nat, b: seq<Action>, c: seq<Action>)
    requires Acknowledged(a, w, b, c)
    ensures
      var t := AtNotify(a, w, b, c);
      && Inv(t) && w in t.waiters
      && t.waiters[w].own == |AtPropose(a, w, b, c).log| + 1
      && t.waiters[w].expected == AtRead(a, w, b, c).applied + 1
  {
    var t0 := Exec(START, a);
    var t1 := Do(t0, Propose(w));
    var t2 := Exec(t1, b);
    var t3 := Do(t2, ReadIndex(w));
    RunKeeps(START, a);
    LogStep(t0, Propose(w));
    TableStep(t0, Propose(w));
    RunKeeps(t1, b);
    Settled(t1, b, w);
    LogStep(t2, ReadIndex(w));
    TableStep(t2, ReadIndex(w));
    RunKeeps(t3, c);
    Settled(t3, c, w);
    hide Inv, Legal, Exec;
  }

  lemma SentAtItsIndex(t: Tracker, w: nat)
    requires Inv(t) && Enabled(t, Notify) && w in t.waiters && Do(t, Notify).waiters[w].sends > t.waiters[w].sends
    ensures t.applied == t.waiters[w].expected
  {
  }

  /** Exactly when an acknowledgement is true. When it is sent, the proposer's own entry is applied if and only if the
      whole log as it stood before the proposal had been applied by the time the proposer read the applied index, and
      the entry is still in the place it was given. */
  lemma AckExactlyWhen(a: seq<Action>, w: nat, b: seq<Action>, c: seq<Action>)
    requires Acknowledged(a, w, b, c)
    ensures
      var before, read, now := AtPropose(a, w, b, c), AtRead(a, w, b, c), AtNotify(a, w, b, c);
      && now.applied <= |now.log|
      && (OwnApplied(now, w) <==> |before.log| <= read.applied && HasEntryOf(now.log, |before.log|, w))
  {
    CallSettles(a, w, b, c);
    var now := AtNotify(a, w, b, c);
    SentAtItsIndex(now, w);
    OwnAppliedAt(now, w);
  }

  /** Replication only adds to the log, as on a leader that stays one. */
  ghost predicate OnlyGrows(t: Tracker, acts: seq<Action>)
    requires Legal(t, acts)
    decreases |acts|
  {
    acts != [] ==>
      && (acts[0].Change? || acts[0].Install? ==> t.log <= acts[0].log)
      && OnlyGrows(Do(t, acts[0]), acts[1..])
  }

  lemma {:induction false} LogGrows(t: Tracker, acts: seq<Action>)
    requires Legal(t, acts) && OnlyGrows(t, acts)
    ensures t.log <= Exec(t, acts).log
    decreases |acts|
  {
    if acts != [] {
      hide Allowed;
      LogGrows(Do(t, acts[0]), acts[1..]);
    }
  }

  /** On a leader that stays one, the acknowledgement is true if and only if the proposer found no backlog: everything
      that was in the log before its entry had been applied when it read the index. */
  lemma LeaderAckExactlyWhen(a: seq<Action>, w: nat, b: seq<Action>, c: seq<Action>)
    requires Acknowledged(a, w, b, c)
    requires OnlyGrows(Do(AtPropose(a, w, b, c), Propose(w)), b)
    requires OnlyGrows(Do(AtRead(a, w, b, c), ReadIndex(w)), c)
    ensures
      var now := AtNotify(a, w, b, c);
      && now.applied <= |now.log|
      && (OwnApplied(now, w) <==> |AtPropose(a, w, b, c).log| <= AtRead(a, w, b, c).applied)
  {
    AckExactlyWhen(a, w, b, c);
    var t0 := AtPropose(a, w, b, c);
    LogGrows(Do(t0, Propose(w)), b);
    LogGrows(Do(AtRead(a, w, b, c), ReadIndex(w)), c);
    assert Do(t0, Propose(w)).log[|t0.log|] == Some(w);
  }

  // ---------------------------------------------------------------- what a timeout means

  /** Another call takes over or clears the slot of index i. */
  predicate Disturbs(t: Tracker, a: Action, i: nat) {
    (a.Register? || a.Timeout?) && a.w in t.waiters && t.waiters[a.w].expected == i
  }

  /** No call expecting i registers or times out, and no snapshot skips notifications. */
  ghost predicate Alone(t: Tracker, acts: seq<Action>, i: nat)
    requires Legal(t, acts)
    decreases |acts|
  {
    acts != [] ==> !Disturbs(t, acts[0], i) && !acts[0].Install? && Alone(Do(t, acts[0]), acts[1..], i)
  }

  ghost predicate Holding(t: Tracker, w: nat, i: nat) {
    i in t.proposals && t.proposals[i] == w
  }

  /** Either the channel has been sent to and the index is applied and notified, or it still holds its slot and the
      notification is yet to come. */
  ghost predicate Promised(t: Tracker, w: nat) {
    && w in t.waiters && t.waiters[w].stage != Proposed && t.waiters[w].stage != HasIndex
    && var i := t.waiters[w].expected;
    if t.waiters[w].sends > 0 then i <= t.applied && t.unnotified != Some(i)
    else Holding(t, w, i) && (t.applied < i || t.unnotified == Some(i))
  }

  lemma PromisedStep(t: Tracker, a: Action, w: nat)
    requires Inv(t) && Enabled(t, a) && Promised(t, w)
    requires !Disturbs(t, a, t.waiters[w].expected) && !a.Install?
    ensures Promised(Do(t, a), w) && Do(t, a).waiters[w].expected == t.waiters[w].expected
  {
    hide OwnPlaces;
    if Holding(t, w, t.waiters[w].expected) {
      assert SlotOk(t, t.waiters[w].expected);
    }
  }

  lemma {:induction false} PromisedRun(t: Tracker, acts: seq<Action>, w: nat)
    requires Inv(t) && Legal(t, acts) && Promised(t, w) && Alone(t, acts, t.waiters[w].expected)
    ensures Promised(Exec(t, acts), w) && Exec(t, acts).waiters[w].expected == t.waiters[w].expected
    decreases |acts|
  {
    if acts != [] {
      PromisedStep(t, acts[0], w);
      LogStep(t, acts[0]);
      TableStep(t, acts[0]);
      hide LogOk, TableOk, Enabled, Do, Disturbs;
      PromisedRun(Do(t, acts[0]), acts[1..], w);
    }
  }

  /** When silence means something. If a call registers before its expected index is applied, no other call waits for
      the same index and no snapshot intervenes, then at every later point nothing has been sent to it if and only if
      that index is unapplied or its notification is still pending. So a timeout then says that the entry at the
      expected index, and every later one, was not applied, short of a pending notification. */
  lemma SilenceExactly(acts: seq<Action>, w: nat, more: seq<Action>)
    requires Legal(START, acts) && Enabled(Exec(START, acts), Register(w))
    requires Exec(START, acts).applied < Exec(START, acts).waiters[w].expected
    requires Legal(Do(Exec(START, acts), Register(w)), more)
    requires Alone(Do(Exec(START, acts), Register(w)), more, Exec(START, acts).waiters[w].expected)
    ensures
      var i := Exec(START, acts).waiters[w].expected;
      var t := Exec(Do(Exec(START, acts), Register(w)), more);
      w in t.waiters && (t.waiters[w].sends == 0 <==> t.applied < i || t.unnotified == Some(i))
  {
    var t := Exec(START, acts);
    RunKeeps(START, acts);
    LogStep(t, Register(w));
    TableStep(t, Register(w));
    assert WaiterOk(t, t.waiters[w]);
    assert Promised(Do(t, Register(w)), w);
    hide Inv, Legal, Exec, Alone;
    PromisedRun(Do(t, Register(w)), more, w);
  }

  /** Index i is notified before any call expecting it has registered or timed out. */
  ghost predicate Served(t: Tracker, acts: seq<Action>, i: nat)
    requires Legal(t, acts)
    decreases |acts|
  {
    acts != [] &&
    ((acts[0].Notify? && t.unnotified == Some(i)) ||
     (!Disturbs(t, acts[0], i) && Served(Do(t, acts[0]), acts[1..], i)))
  }

  /** w has registered. */
  predicate Registered(t: Tracker, w: nat) {
    w in t.waiters && t.waiters[w].stage != Proposed && t.waiters[w].stage != HasIndex
  }

  lemma HoldingStep(t: Tracker, a: Action, w: nat)
    requires Inv(t) && Enabled(t, a) && Registered(t, w)
    ensures Registered(Do(t, a), w)
    ensures
      var i, x, u := t.waiters[w].expected, t.waiters[w], Do(t, a);
      var notified := a.Notify? && t.unnotified == Some(i);
      && u.waiters[w].expected == i
      && (Holding(u, w, i) <==> Holding(t, w, i) && !Disturbs(t, a, i) && !notified)
      && u.waiters[w].sends == x.sends + (if notified && Holding(t, w, i) then 1 else 0)
  {
    hide OwnPlaces;
    if Holding(t, w, t.waiters[w].expected) {
      assert SlotOk(t, t.waiters[w].expected);
    }
  }

  lemma {:induction false} SentRun(t: Tracker, acts: seq<Action>, w: nat)
    requires Inv(t) && Legal(t, acts) && Registered(t, w)
    ensures
      var i, u := t.waiters[w].expected, Exec(t, acts);
      && Registered(u, w)
      && (u.waiters[w].sends > t.waiters[w].sends <==> Holding(t, w, i) && Served(t, acts, i))
      && u.waiters[w].sends >= t.waiters[w].sends
    decreases |acts|
  {
    if acts != [] {
      HoldingStep(t, acts[0], w);
      LogStep(t, acts[0]);
      TableStep(t, acts[0]);
      hide LogOk, TableOk, Enabled, Do, Disturbs, Holding, Registered;
      SentRun(Do(t, acts[0]), acts[1..], w);
    }
  }

  /** Exactly when a call hears anything. From the moment it registers, a message is sent to it if and only if its
      expected index is notified after that, and before any call expecting the same index registers or times out. A
      call that registers after the notification, or loses its slot, or is passed by a snapshot, times out. */
  lemma SentExactly(acts: seq<Action>, w: nat, more: seq<Action>)
    requires Legal(START, acts) && Enabled(Exec(START, acts), Register(w))
    requires Legal(Do(Exec(START, acts), Register(w)), more)
    ensures
      var i := Exec(START, acts).waiters[w].expected;
      var t1 := Do(Exec(START, acts), Register(w));
      var t := Exec(t1, more);
      w in t.waiters && (t.waiters[w].sends > 0 <==> Served(t1, more, i))
  {
    var t := Exec(START, acts);
    var t1 := Do(t, Register(w));
    RunKeeps(START, acts);
    LogStep(t, Register(w));
    TableStep(t, Register(w));
    assert SlotOk(t1, t.waiters[w].expected);
    assert Holding(t1, w, t.waiters[w].expected) && Registered(t1, w) && t1.waiters[w].sends == 0;
    hide Legal, Exec, Served, LogOk, TableOk, Holding;
    SentRun(t1, more, w);
  }

  // ---------------------------------------------------------------- what a call returns

  lemma OutcomeStep(t: Tracker, a: Action, w: nat)
    requires Enabled(t, a)
    ensures At(Do(t, a), w, Done(true)) <==> At(t, w, Done(true)) || a == Receive(w)
    ensures At(Do(t, a), w, Done(false)) <==> At(t, w, Done(false)) || a == Timeout(w)
  {
    hide Allowed;
  }

  lemma {:induction false} OutcomeRun(t: Tracker, acts: seq<Action>, w: nat)
    requires Legal(t, acts)
    ensures At(Exec(t, acts), w, Done(true)) <==> At(t, w, Done(true)) || Receive(w) in acts
    ensures At(Exec(t, acts), w, Done(false)) <==> At(t, w, Done(false)) || Timeout(w) in acts
    decreases |acts|
  {
    if acts != [] {
      OutcomeStep(t, acts[0], w);
      hide Enabled, Do, At;
      OutcomeRun(Do(t, acts[0]), acts[1..], w);
      assert acts == [acts[0]] + acts[1..];
    }
  }

  /** In every interleaving a call has returned success if and only if it received, and an error if and only if it timed
      out. */
  lemma OutcomeExactly(acts: seq<Action>, w: nat)
    requires Legal(START, acts)
    ensures At(Exec(START, acts), w, Done(true)) <==> Receive(w) in acts
    ensures At(Exec(START, acts), w, Done(false)) <==> Timeout(w) in acts
  {
    OutcomeRun(START, acts, w);
  }

  /** A call that has been sent to, and whose timeout has not come first, has returned success or does so as soon as it
      receives. */
  lemma SentCallSucceeds(acts: seq<Action>, w: nat)
    requires Legal(START, acts) && w in Exec(START, acts).waiters && Exec(START, acts).waiters[w].sends > 0
    requires Timeout(w) !in acts
    ensures
      var t := Exec(START, acts);
      Receive(w) in acts || (Enabled(t, Receive(w)) && At(Do(t, Receive(w)), w, Done(true)))
  {
    OutcomeExactly(acts, w);
    RunKeeps(START, acts);
    hide Legal, Exec, LogOk;
    assert WaiterOk(Exec(START, acts), Exec(START, acts).waiters[w]);
  }

  // ---------------------------------------------------------------- both ways to be wrong

  lemma {:induction false} Prepend(t: Tracker, acts: seq<Action>, k: nat, last: Tracker)
    requires k < |acts| && Enabled(t, acts[k])
    requires Legal(Do(t, acts[k]), acts[k + 1..]) && Exec(Do(t, acts[k]), acts[k + 1..]) == last
    ensures Legal(t, acts[k..]) && Exec(t, acts[k..]) == last
  {
    hide Enabled, Do;
    assert acts[k..][1..] == acts[k + 1..] && acts[k..][0] == acts[k];
  }

  lemma SixSteps(acts: seq<Action>, t1: Tracker, t2: Tracker, t3: Tracker, t4: Tracker, t5: Tracker, t6: Tracker)
    requires |acts| == 6
    requires Enabled(START, acts[0]) && t1 == Do(START, acts[0]) && Enabled(t1, acts[1]) && t2 == Do(t1, acts[1])
    requires Enabled(t2, acts[2]) && t3 == Do(t2, acts[2]) && Enabled(t3, acts[3]) && t4 == Do(t3, acts[3])
    requires Enabled(t4, acts[4]) && t5 == Do(t4, acts[4]) && Enabled(t5, acts[5]) && t6 == Do(t5, acts[5])
    ensures Legal(START, acts) && Exec(START, acts) == t6
  {
    hide Enabled, Do;
    assert Legal(t6, acts[6..]) && Exec(t6, acts[6..]) == t6;
    Prepend(t5, acts, 5, t6);
    Prepend(t4, acts, 4, t6);
    Prepend(t3, acts, 3, t6);
    Prepend(t2, acts, 2, t6);
    Prepend(t1, acts, 1, t6);
    Prepend(START, acts, 0, t6);
    assert acts[0..] == acts;
  }

  /** With one earlier entry still unapplied, a proposer is told its entry is applied when only the earlier one is. */
  lemma EarlyAcknowledgement()
    ensures
      var acts := [Change([None]), Propose(0), ReadIndex(0), Register(0), Apply, Notify];
      && Legal(START, acts)
      && var t := Exec(START, acts);
      && 0 in t.waiters && t.waiters[0].buffer.Some? && t.waiters[0].own == 2 && t.applied == 1
  {
    var acts := [Change([None]), Propose(0), ReadIndex(0), Register(0), Apply, Notify];
    assert START.log[..0] == [];
    var t1 := Do(START, acts[0]);
    assert t1 == START.(log := [None]);
    var t2 := Do(t1, acts[1]);
    var t3 := Do(t2, acts[2]);
    var t4 := Do(t3, acts[3]);
    var t5 := Do(t4, acts[4]);
    SixSteps(acts, t1, t2, t3, t4, t5, Do(t5, acts[5]));
  }

  /** Applied and notified between reading the index and registering for it: the call times out although its entry
      was applied. */
  lemma MissedNotification()
    ensures
      var acts := [Propose(0), ReadIndex(0), Apply, Notify, Register(0), Timeout(0)];
      && Legal(START, acts)
      && var t := Exec(START, acts);
      && 0 in t.waiters && t.waiters[0].stage == Done(false) && t.waiters[0].own == 1 && t.applied == 1
  {
    var acts := [Propose(0), ReadIndex(0), Apply, Notify, Register(0), Timeout(0)];
    var t1 := Do(START, acts[0]);
    var t2 := Do(t1, acts[1]);
    var t3 := Do(t2, acts[2]);
    var t4 := Do(t3, acts[3]);
    var t5 := Do(t4, acts[4]);
    SixSteps(acts, t1, t2, t3, t4, t5, Do(t5, acts[5]));
  }
}
