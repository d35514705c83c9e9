/** Membership change and elections. Every server is a run of the durable node, so a vote is something a server
    has sent, and what it sent it remembers across crashes. */
module Membership {
  import opened Types
  import opened Snapshots
  import opened Durable
  import opened Persistence

  // ---------------------------------------------------------------- configurations

  datatype Config = Config(voters: set<nat>, learners: set<nat>)

  /** The changes the admin service proposes: AddLearner, Promote (an AddNode) and RemoveNode. */
  datatype Change = AddLearner(id: nat) | AddNode(id: nat) | RemoveNode(id: nat)

  /** How the Raft library applies a single change. */
  function ApplyChange(c: Config, ch: Change): Config {
    match ch
    case AddLearner(id) => Config(c.voters - {id}, c.learners + {id})
    case AddNode(id) => Config(c.voters + {id}, c.learners - {id})
    case RemoveNode(id) => Config(c.voters - {id}, c.learners - {id})
  }

  /** The configuration after the first i committed changes. */
  function ConfigAt(start: Config, changes: seq<Change>, i: nat): Config
    requires i <= |changes|
  {
    if i == 0 then start else ApplyChange(ConfigAt(start, changes, i - 1), changes[i - 1])
  }

  predicate Majority(q: set<nat>, s: set<nat>) {
    q <= s && 2 * |q| > |s|
  }

  lemma DisjointSize(p: set<nat>, q: set<nat>, s: set<nat>)
    requires p <= s && q <= s
    ensures p * q == {} ==> |p| + |q| <= |s|
  {
    if p * q == {} {
      assert |p + q| == |p| + |q|;
    }
    SubsetSize(p + q, s);
  }

  /** Voter sets that differ in at most one member have no disjoint majorities. */
  lemma NeighbouringMajoritiesMeet(a: set<nat>, b: set<nat>, p: set<nat>, q: set<nat>, x: nat)
    requires Majority(p, a) && Majority(q, b)
    requires a <= b + {x} && b <= a + {x}
    ensures p * q != {}
  {
    if x in b {
      assert a <= b;
      SubsetSize(b, a + {x});
      DisjointSize(p, q, b);
    } else {
      assert b <= a;
      SubsetSize(a, b + {x});
      DisjointSize(p, q, a);
    }
  }

  /** One change moves at most one voter. */
  lemma ChangeMovesOneVoter(c: Config, ch: Change)
    ensures var d := ApplyChange(c, ch); d.voters <= c.voters + {ch.id} && c.voters <= d.voters + {ch.id}
  {
  }

  /** Among the first i changes, change j is the last to name x. */
  ghost predicate LastNaming(changes: seq<Change>, i: nat, x: nat, j: nat) {
    j < i <= |changes| && changes[j].id == x && forall l :: j < l < i ==> changes[l].id != x
  }

  /** The last change that names a server decides what it is: a learner after AddLearner, a voter after Promote, neither
      after RemoveNode; a server no change names is what it was at the start. */
  lemma {:induction false} LastChangeDecides(start: Config, changes: seq<Change>, i: nat, x: nat)
    requires i <= |changes| && start.voters * start.learners == {}
    ensures
      var c := ConfigAt(start, changes, i);
      && c.voters * c.learners == {}
      && (forall j: nat :: LastNaming(changes, i, x, j) ==>
            && (x in c.voters <==> changes[j].AddNode?)
            && (x in c.learners <==> changes[j].AddLearner?))
      && ((forall j :: 0 <= j < i ==> changes[j].id != x) ==>
            (x in c.voters <==> x in start.voters) && (x in c.learners <==> x in start.learners))
  {
    if i > 0 {
      LastChangeDecides(start, changes, i - 1, x);
      var c := ConfigAt(start, changes, i - 1);
      if changes[i - 1].id == x {
        assert forall j: nat :: LastNaming(changes, i, x, j) ==> j == i - 1;
      } else {
        assert forall j: nat :: LastNaming(changes, i, x, j) ==> LastNaming(changes, i - 1, x, j);
      }
    }
  }

  // ---------------------------------------------------------------- elections

  /** A server's life so far: its settings and every atomic step it took, crashes included. */
  datatype Server = Server(interval: nat, acts: seq<Action>)

  type Cluster = map<nat, Server>

  /** Every server ran legally and sent nothing after a Save that lost a new hard state; other Saves may fail. */
  ghost predicate Sound(servers: Cluster) {
    forall v :: v in servers ==>
      Legal(Init(servers[v].interval), servers[v].acts) && NeverForgets(Init(servers[v].interval), servers[v].acts)
  }

  /** v has sent its vote for c in this term: some message of v rests on a hard state that says so. */
  ghost predicate Granted(servers: Cluster, v: nat, c: nat, term: nat)
    requires Sound(servers)
  {
    v in servers &&
    exists p :: p in Exec(Init(servers[v].interval), servers[v].acts).sent && p.hs.term == term && p.hs.vote == c
  }

  ghost predicate VotedBy(servers: Cluster, q: set<nat>, c: nat, term: nat)
    requires Sound(servers)
  {
    forall v :: v in q ==> Granted(servers, v, c, term)
  }

  ghost predicate Wins(servers: Cluster, c: nat, term: nat, voters: set<nat>)
    requires Sound(servers)
  {
    exists q :: Majority(q, voters) && VotedBy(servers, q, c, term)
  }

  lemma VoteIsUnique(servers: Cluster, v: nat, c: nat, d: nat, term: nat)
    requires Sound(servers) && c != 0 && d != 0
    requires Granted(servers, v, c, term) && Granted(servers, v, d, term)
    ensures c == d
  {
    var sent := Exec(Init(servers[v].interval), servers[v].acts).sent;
    var p :| p in sent && p.hs.term == term && p.hs.vote == c;
    var r :| r in sent && r.hs.term == term && r.hs.vote == d;
    OneVotePerTerm(servers[v].interval, servers[v].acts, p, r);
  }

  /** Two quorums that both elected share no voter unless they elected the same candidate. */
  lemma SharedVoterDecides(servers: Cluster, p: set<nat>, q: set<nat>, c: nat, d: nat, term: nat)
    requires Sound(servers) && c != 0 && d != 0
    requires VotedBy(servers, p, c, term) && VotedBy(servers, q, d, term)
    requires p * q != {}
    ensures c == d
  {
    var v :| v in p * q;
    VoteIsUnique(servers, v, c, d, term);
  }

  /** later is the same cluster after more steps. */
  ghost predicate Extends(later: Cluster, servers: Cluster) {
    forall v :: v in servers ==>
      v in later && later[v].interval == servers[v].interval && servers[v].acts <= later[v].acts
  }

  lemma {:induction false} SentGrows(n: Node, acts: seq<Action>)
    requires Legal(n, acts)
    ensures n.sent <= Exec(n, acts).sent
    decreases |acts|
  {
    hide Enabled;
    if acts != [] {
      SentGrows(Do(n, acts[0]), acts[1..]);
    }
  }

  /** A vote once sent stays sent. */
  lemma VotesStay(servers: Cluster, later: Cluster, q: set<nat>, c: nat, term: nat)
    requires Sound(servers) && Sound(later) && Extends(later, servers) && VotedBy(servers, q, c, term)
    ensures VotedBy(later, q, c, term)
  {
    hide Legal, Exec, Init;
    forall v | v in q ensures Granted(later, v, c, term) {
      assert Granted(servers, v, c, term);
      var a, b := servers[v].acts, later[v].acts[|servers[v].acts|..];
      var n := Init(servers[v].interval);
      assert a + b == later[v].acts;
      Split(n, a, b);
      SentGrows(Exec(n, a), b);
      var p :| p in Exec(n, a).sent && p.hs.term == term && p.hs.vote == c;
      assert p in Exec(n, later[v].acts).sent;
    }
  }

  /** Election safety across membership change: whatever the runs and crashes, a candidate that has won a term, and
      one that wins it now or later under a configuration at most one committed change away, are the same. */
  lemma ElectionSafety(servers: Cluster, later: Cluster, start: Config, changes: seq<Change>, i: nat, j: nat,
                       c: nat, d: nat, term: nat)
    requires Sound(servers) && Sound(later) && Extends(later, servers) && c != 0 && d != 0
    requires i <= |changes| && j <= |changes| && i <= j + 1 && j <= i + 1
    requires Wins(servers, c, term, ConfigAt(start, changes, i).voters)
    requires Wins(later, d, term, ConfigAt(start, changes, j).voters)
    ensures c == d
  {
    hide Sound, VotedBy, Extends;
    var a, b := ConfigAt(start, changes, i).voters, ConfigAt(start, changes, j).voters;
    var p :| Majority(p, a) && VotedBy(servers, p, c, term);
    var q :| Majority(q, b) && VotedBy(later, q, d, term);
    VotesStay(servers, later, p, c, term);
    NearbyConfigs(start, changes, i, j);
    var x :| a <= b + {x} && b <= a + {x};
    NeighbouringMajoritiesMeet(a, b, p, q, x);
    SharedVoterDecides(later, p, q, c, d, term);
  }

  lemma NearbyConfigs(start: Config, changes: seq<Change>, i: nat, j: nat)
    requires i <= |changes| && j <= |changes| && i <= j + 1 && j <= i + 1
    ensures
      var a, b := ConfigAt(start, changes, i).voters, ConfigAt(start, changes, j).voters;
      exists x :: a <= b + {x} && b <= a + {x}
  {
    var a, b := ConfigAt(start, changes, i).voters, ConfigAt(start, changes, j).voters;
    if i == j {
      assert a <= b + {0} && b <= a + {0};
    } else {
      var k := if i < j then i else j;
      ChangeMovesOneVoter(ConfigAt(start, changes, k), changes[k]);
      assert a <= b + {changes[k].id} && b <= a + {changes[k].id};
    }
  }

  // ---------------------------------------------------------------- joint consensus

  /** A quorum under the joint configuration: a majority of the old voters and one of the new. */
  predicate JointQuorum(q: set<nat>, oldVoters: set<nat>, newVoters: set<nat>) {
    Majority(q * oldVoters, oldVoters) && Majority(q * newVoters, newVoters)
  }

  lemma MajoritiesMeet(s: set<nat>, p: set<nat>, q: set<nat>)
    requires Majority(p, s) && Majority(q, s)
    ensures p * q != {}
  {
    DisjointSize(p, q, s);
  }

  /** A joint quorum meets every old, every new and every joint quorum. */
  lemma JointQuorumMeetsAll(oldVoters: set<nat>, newVoters: set<nat>, q: set<nat>, r: set<nat>)
    requires JointQuorum(q, oldVoters, newVoters)
    requires Majority(r, oldVoters) || Majority(r, newVoters) || JointQuorum(r, oldVoters, newVoters)
    ensures q * r != {}
  {
    if Majority(r, oldVoters) {
      MajoritiesMeet(oldVoters, q * oldVoters, r);
    } else if Majority(r, newVoters) {
      MajoritiesMeet(newVoters, q * newVoters, r);
    } else {
      MajoritiesMeet(oldVoters, q * oldVoters, r * oldVoters);
    }
    assert forall x :: x in (q * oldVoters) * r || x in (q * newVoters) * r ==> x in q * r;
    assert forall x :: x in (q * oldVoters) * (r * oldVoters) ==> x in q * r;
  }

  /** So a candidate elected by a joint quorum is the only one any phase of the switch can elect in that term. */
  lemma JointElectionSafety(servers: Cluster, oldVoters: set<nat>, newVoters: set<nat>, q: set<nat>, r: set<nat>,
                            c: nat, d: nat, term: nat)
    requires Sound(servers) && c != 0 && d != 0
    requires JointQuorum(q, oldVoters, newVoters) && VotedBy(servers, q, c, term)
    requires Majority(r, oldVoters) || Majority(r, newVoters) || JointQuorum(r, oldVoters, newVoters)
    requires VotedBy(servers, r, d, term)
    ensures c == d
  {
    JointQuorumMeetsAll(oldVoters, newVoters, q, r);
    SharedVoterDecides(servers, q, r, c, d, term);
  }

  // ---------------------------------------------------------------- disjoint majorities

  /** Some majority of a and some majority of b have no member in common. */
  ghost predicate CanClash(a: set<nat>, b: set<nat>) {
    exists p, q :: Majority(p, a) && Majority(q, b) && p * q == {}
  }

  /** Both sets have members, and together they have room for a majority of each. */
  predicate RoomForTwo(a: set<nat>, b: set<nat>) {
    a != {} && b != {} && |a| / 2 + |b| / 2 + 2 <= |a + b|
  }

  /** A subset of any size up to that of the whole. */
  lemma {:induction false} SubsetOfSize(s: set<nat>, n: nat) returns (t: set<nat>)
    requires n <= |s|
    ensures t <= s && |t| == n
  {
    if n == |s| {
      t := s;
    } else {
      var x :| x in s;
      t := SubsetOfSize(s - {x}, n);
    }
  }

  /** A subset of b that avoids a subset of a, both as large as asked, whenever there is room. */
  lemma DisjointSubsets(a: set<nat>, b: set<nat>, m: nat, n: nat) returns (p: set<nat>, q: set<nat>)
    requires m <= |a| && n <= |b| && m + n <= |a + b|
    ensures p <= a && q <= b && |p| == m && |q| == n && p * q == {}
  {
    var onlyA := a - b;
    assert a + b == onlyA + b && onlyA * b == {};
    if m <= |onlyA| {
      p := SubsetOfSize(onlyA, m);
      q := SubsetOfSize(b, n);
    } else {
      var both := a * b;
      assert a == onlyA + both && onlyA * both == {};
      var more := SubsetOfSize(both, m - |onlyA|);
      p := onlyA + more;
      assert onlyA * more == {};
      assert b == (b - more) + more && (b - more) * more == {};
      q := SubsetOfSize(b - more, n);
    }
  }

  /** For any two voter sets: disjoint majorities exist if and only if there is room for both. */
  lemma ClashExactly(a: set<nat>, b: set<nat>)
    ensures CanClash(a, b) <==> RoomForTwo(a, b)
  {
    if RoomForTwo(a, b) {
      assert |a| > 0 && |b| > 0;
      var p, q := DisjointSubsets(a, b, |a| / 2 + 1, |b| / 2 + 1);
      assert Majority(p, a) && Majority(q, b) && p * q == {};
    }
    if CanClash(a, b) {
      var p, q :| Majority(p, a) && Majority(q, b) && p * q == {};
      SubsetSize(p, a);
      SubsetSize(q, b);
      DisjointSize(p, q, a + b);
    }
  }

  // ---------------------------------------------------------------- the direct switch

  /** The pods of a StatefulSet of n replicas; pod k carries number k + 1, since 0 stands for no vote. */
  function Pods(n: nat): (pods: set<nat>)
    ensures forall i :: i in pods <==> 1 <= i <= n
  {
    if n == 0 then {} else Pods(n - 1) + {n}
  }

  lemma AddOne(s: set<nat>, x: nat)
    requires x !in s
    ensures |s + {x}| == |s| + 1
  {
  }

  lemma {:induction false} PodsSize(n: nat)
    ensures |Pods(n)| == n
  {
    if n > 0 {
      PodsSize(n - 1);
      AddOne(Pods(n - 1), n);
    }
  }

  /** Some sound cluster elects two different candidates in one term, one under a pods and one under b. */
  ghost predicate TwoLeaders(a: nat, b: nat) {
    exists servers: Cluster, c: nat, d: nat, term: nat ::
      && Sound(servers) && c != 0 && d != 0 && c != d
      && Wins(servers, c, term, Pods(a)) && Wins(servers, d, term, Pods(b))
  }

  /** A server that has just cast one vote, in term 1. */
  function VoteFor(c: nat): Server {
    Server(2, [Begin(Ready(HardState(1, c, 0), [], None, [])), EndSave, Send])
  }

  lemma VoteForGrants(c: nat)
    ensures
      var s := VoteFor(c);
      && Legal(Init(2), s.acts) && NeverForgets(Init(2), s.acts)
      && Promise(HardState(1, c, 0), []) in Exec(Init(2), s.acts).sent
  {
    var rd := Ready(HardState(1, c, 0), [], None, []);
    var n1 := Do(Init(2), Begin(rd));
    var n2 := Do(n1, EndSave);
    var n3 := Do(n2, Send);
    OneAction(Init(2), Begin(rd));
    OneAction(n1, EndSave);
    OneAction(n2, Send);
    assert n3.sent == [Promise(rd.hs, [])];
    Compose(n1, [EndSave], n2, [Send], n3);
    Compose(Init(2), [Begin(rd)], n1, [EndSave] + [Send], n3);
    assert [Begin(rd)] + ([EndSave] + [Send]) == VoteFor(c).acts;
    SuccessNeverForgets(Init(2), VoteFor(c).acts);
  }

  lemma DisjointMajorities(a: nat, b: nat) returns (p: set<nat>, q: set<nat>)
    requires 1 <= a < b && a / 2 + b / 2 + 2 <= b
    ensures Majority(p, Pods(a)) && Majority(q, Pods(b)) && p * q == {}
  {
    hide Pods;
    PodsSize(a);
    PodsSize(b);
    assert Pods(a) + Pods(b) == Pods(b);
    assert 1 in Pods(a) && 1 in Pods(b);
    ClashExactly(Pods(a), Pods(b));
    p, q :| Majority(p, Pods(a)) && Majority(q, Pods(b)) && p * q == {};
  }

  /** Switching from a to b > a replicas without a joint phase can elect two leaders in one term
      exactly when a/2 + b/2 + 2 <= b. */
  lemma DirectSwitchExactly(a: nat, b: nat)
    requires 1 <= a < b
    ensures TwoLeaders(a, b) <==> a / 2 + b / 2 + 2 <= b
  {
    if a / 2 + b / 2 + 2 <= b {
      DirectSwitchBreaks(a, b);
    }
    if TwoLeaders(a, b) {
      DirectSwitchNeedsRoom(a, b);
    }
  }

  lemma RoomForBoth(a: nat, b: nat, p: set<nat>, q: set<nat>)
    requires a < b && Majority(p, Pods(a)) && Majority(q, Pods(b)) && p * q == {}
    ensures a / 2 + b / 2 + 2 <= b
  {
    hide Pods;
    PodsSize(a);
    PodsSize(b);
    assert Pods(a) + Pods(b) == Pods(b);
    ClashExactly(Pods(a), Pods(b));
  }

  lemma DirectSwitchNeedsRoom(a: nat, b: nat)
    requires 1 <= a < b && TwoLeaders(a, b)
    ensures a / 2 + b / 2 + 2 <= b
  {
    hide Pods, Sound, VotedBy, Majority;
    var servers: Cluster, c, d, term :|
      && Sound(servers) && c != 0 && d != 0 && c != d
      && Wins(servers, c, term, Pods(a)) && Wins(servers, d, term, Pods(b));
    var p :| Majority(p, Pods(a)) && VotedBy(servers, p, c, term);
    var q :| Majority(q, Pods(b)) && VotedBy(servers, q, d, term);
    if p * q == {} {
      RoomForBoth(a, b, p, q);
    } else {
      SharedVoterDecides(servers, p, q, c, d, term);
    }
  }

  /** Servers of p voted for pod 1, the others for pod b. */
  function TwoCamps(p: set<nat>, b: nat): Cluster {
    map v | v in Pods(b) :: if v in p then VoteFor(1) else VoteFor(b)
  }

  lemma TwoCampsSound(p: set<nat>, b: nat)
    ensures Sound(TwoCamps(p, b))
  {
    VoteForGrants(1);
    VoteForGrants(b);
    hide Legal, Exec, Init, Pods, NeverForgets;
  }

  lemma CampVotes(servers: Cluster, q: set<nat>, c: nat)
    requires Sound(servers)
    requires forall v :: v in q ==> v in servers && servers[v] == VoteFor(c)
    ensures VotedBy(servers, q, c, 1)
  {
    VoteForGrants(c);
    hide Legal, Exec, Init, Sound;
    var p := Promise(HardState(1, c, 0), []);
    forall v | v in q ensures Granted(servers, v, c, 1) {
      assert p in Exec(Init(servers[v].interval), servers[v].acts).sent && p.hs.term == 1 && p.hs.vote == c;
    }
  }

  lemma DirectSwitchBreaks(a: nat, b: nat)
    requires 1 <= a < b && a / 2 + b / 2 + 2 <= b
    ensures TwoLeaders(a, b)
  {
    hide Pods, VoteFor, Sound, VotedBy;
    var p, q := DisjointMajorities(a, b);
    var servers := TwoCamps(p, b);
    TwoCampsSound(p, b);
    assert p <= Pods(b);
    assert forall v :: v in q && v in p ==> v in p * q;
    CampVotes(servers, p, 1);
    CampVotes(servers, q, b);
    assert Wins(servers, 1, 1, Pods(a)) && Wins(servers, b, 1, Pods(b));
  }
}
