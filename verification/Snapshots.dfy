/** The snapshot directory: index-bearing file names, latest-file selection and retention of the newest three. */
module Snapshots {
  import opened Types
  import opened Decimal

  const KEEP: nat := 3

  // ---------------------------------------------------------------- file names

  const PREFIX: string := "snapshot-"
  const SUFFIX: string := ".json"

  function FileName(i: nat): string {
    PREFIX + Dec(i) + SUFFIX
  }

  predicate HasSuffix(s: string, t: string) {
    |t| <= |s| && s[|s| - |t|..] == t
  }

  function TrimSuffix(s: string, t: string): string {
    if HasSuffix(s, t) then s[..|s| - |t|] else s
  }

  /** The index a directory entry's name stands for, if it is a snapshot's name at all. */
  function IndexOf(name: string): Option<uint64> {
    if PREFIX <= name && HasSuffix(name, SUFFIX) then ParseUint(TrimSuffix(name[|PREFIX|..], SUFFIX)) else None
  }

  /** Naming a snapshot and reading the index back is the identity on all 64-bit indices. */
  lemma IndexOfFileName(i: uint64)
    ensures IndexOf(FileName(i)) == Some(i)
  {
    NameParses(FileName(i), Dec(i));
    ParseOfDec(i);
  }

  // ---------------------------------------------------------------- the largest k elements

  function Higher(s: set<nat>, k: nat): set<nat> {
    set j | j in s && j > k
  }

  /** The n largest elements of s. */
  function Top(s: set<nat>, n: nat): set<nat> {
    set k | k in s && |Higher(s, k)| < n
  }

  lemma SubsetSize<T>(a: set<T>, b: set<T>)
    requires a <= b
    ensures |a| <= |b|
    ensures |a| == |b| ==> a == b
  {
    assert b == a + (b - a);
  }

  lemma {:induction false} Least(s: set<nat>) returns (m: nat)
    requires s != {}
    ensures m in s && forall j :: j in s ==> m <= j
    decreases |s|
  {
    var x :| x in s;
    var rest := s - {x};
    assert s == rest + {x};
    m := x;
    if rest != {} {
      var low := Least(rest);
      m := if low < x then low else x;
    }
  }

  /** Dropping all but the n largest does not change which numbers have n larger ones. */
  lemma {:induction false} TopKeepsRank(s: set<nat>, k: nat, n: nat)
    ensures |Higher(Top(s, n), k)| < n <==> |Higher(s, k)| < n
    decreases |Higher(s, k)|
  {
    var all, kept := Higher(s, k), Higher(Top(s, n), k);
    SubsetSize(kept, all);
    if |all| <= n {
      forall j | j in all ensures j in kept {
        assert Higher(s, j) <= all - {j};
        SubsetSize(Higher(s, j), all - {j});
      }
      assert kept == all;
    } else {
      var m := Least(all);
      assert Higher(s, m) == all - {m};
      TopKeepsRank(s, m, n);
      assert Higher(Top(s, n), m) <= kept;
      SubsetSize(Higher(Top(s, n), m), kept);
    }
  }

  lemma HigherOfAdd(s: set<nat>, i: nat, k: nat)
    ensures Higher(s + {i}, k) == Higher(s, k) + (if i > k then {i} else {})
  {
  }

  /** Keeping the n largest as numbers arrive gives the n largest of all of them. */
  lemma StreamingTop(s: set<nat>, i: nat, n: nat)
    ensures Top(Top(s, n) + {i}, n) == Top(s + {i}, n)
  {
    var t := Top(s, n);
    forall k | k in t + {i} || k in s + {i} ensures k in Top(t + {i}, n) <==> k in Top(s + {i}, n) {
      RankWithArrival(s, i, k, n);
      if k in s && k !in t && k != i {
        SubsetSize(Higher(s, k), Higher(s + {i}, k));
      }
    }
  }

  lemma RankWithArrival(s: set<nat>, i: nat, k: nat, n: nat)
    ensures |Higher(Top(s, n) + {i}, k)| < n <==> |Higher(s + {i}, k)| < n
  {
    var t := Top(s, n);
    HigherOfAdd(s, i, k);
    HigherOfAdd(t, i, k);
    SubsetSize(Higher(t + {i}, k), Higher(s + {i}, k));
    TopKeepsRank(s, k, n);
    if i > k && i !in s {
      if n > 0 {
        RankBelow(s, k, n);
      }
      assert Higher(s + {i}, k) == Higher(s, k) + {i};
      assert Higher(t + {i}, k) == Higher(t, k) + {i};
    } else if i > k && i in s && i !in t {
      // i itself has n larger numbers, so k has them too.
      TopKeepsRank(s, i, n);
      assert Higher(t, i) <= Higher(t + {i}, k);
      SubsetSize(Higher(t, i), Higher(t + {i}, k));
    } else if i > k {
      assert t + {i} == t && s + {i} == s;
    }
  }

  /** The same at one less: what is below n - 1 in rank loses nothing either. */
  lemma RankBelow(s: set<nat>, k: nat, n: nat)
    requires n > 0
    ensures |Higher(Top(s, n), k)| < n - 1 <==> |Higher(s, k)| < n - 1
  {
    var t := Top(s, n);
    SubsetSize(Higher(t, k), Higher(s, k));
    if |Higher(t, k)| < n - 1 {
      TopKeepsRank(s, k, n);
      forall j | j in Higher(s, k) ensures j in t {
        assert Higher(s, j) <= Higher(s, k) - {j};
        SubsetSize(Higher(s, j), Higher(s, k) - {j});
      }
      assert Higher(t, k) == Higher(s, k);
    }
  }

  // ---------------------------------------------------------------- whole sequences of saves

  datatype Snapshot = Snapshot(index: uint64, data: KV)

  function Restrict(m: map<nat, KV>, keys: set<nat>): map<nat, KV> {
    map k | k in m && k in keys :: m[k]
  }

  /** What is left when all but the n largest are removed, largest first, until removal number `failAt` fails. */
  function Survivors(keys: set<nat>, n: nat, failAt: Option<nat>): set<nat> {
    set k | k in keys && (|Higher(keys, k)| < n || (failAt.Some? && |Higher(keys, k)| >= n + failAt.value))
  }

  /** One Save: write the file, then clean up. */
  function SaveView(m: map<nat, KV>, s: Snapshot, failAt: Option<nat>): map<nat, KV> {
    var all := m[s.index := s.data];
    Restrict(all, Survivors(all.Keys, KEEP, failAt))
  }

  function SaveAll(saves: seq<Snapshot>): map<nat, KV> {
    if saves == [] then map[] else SaveView(SaveAll(saves[..|saves| - 1]), saves[|saves| - 1], None)
  }

  /** Every index ever saved, with its last content. */
  function EverSaved(saves: seq<Snapshot>): map<nat, KV> {
    if saves == [] then map[] else EverSaved(saves[..|saves| - 1])[saves[|saves| - 1].index := saves[|saves| - 1].data]
  }

  lemma AllRemoved(keys: set<nat>, n: nat)
    ensures Survivors(keys, n, None) == Top(keys, n)
  {
  }

  /** After any sequence of Saves into an empty directory the files are exactly the three largest
      indices ever saved, each with the content saved last. */
  lemma {:induction false} RetentionIsStreamingTopThree(saves: seq<Snapshot>)
    ensures SaveAll(saves) == Restrict(EverSaved(saves), Top(EverSaved(saves).Keys, KEEP))
  {
    if saves != [] {
      var s := saves[|saves| - 1];
      var before, ever := SaveAll(saves[..|saves| - 1]), EverSaved(saves[..|saves| - 1]);
      RetentionIsStreamingTopThree(saves[..|saves| - 1]);
      assert before.Keys == Top(ever.Keys, KEEP);
      assert before[s.index := s.data].Keys == Top(ever.Keys, KEEP) + {s.index};
      assert ever[s.index := s.data].Keys == ever.Keys + {s.index};
      StreamingTop(ever.Keys, s.index, KEEP);
      AllRemoved(before[s.index := s.data].Keys, KEEP);
    }
  }

  /** There are as many of the n largest as there are elements, up to n. */
  lemma {:induction false} TopSize(s: set<nat>, n: nat)
    ensures |Top(s, n)| == if |s| <= n then |s| else n
    decreases |s|
  {
    if |s| <= n {
      TopOfFew(s, n);
    } else {
      // The least element has all others above it, so it is not among the n largest.
      var m := Least(s);
      assert Higher(s, m) == s - {m};
      TopWithoutLeast(s, m, n);
      TopSize(s - {m}, n);
    }
  }

  lemma TopWithoutLeast(s: set<nat>, m: nat, n: nat)
    requires m in s && n < |s| && (forall j :: j in s ==> m <= j) && Higher(s, m) == s - {m}
    ensures Top(s, n) == Top(s - {m}, n)
  {
    forall k | k in s && k != m ensures Higher(s, k) == Higher(s - {m}, k) {
    }
  }

  /** At most three files stay, and exactly three once three different indices have been saved. */
  lemma ThreeStay(saves: seq<Snapshot>)
    ensures |SaveAll(saves)| == if |EverSaved(saves)| <= 3 then |EverSaved(saves)| else 3
  {
    RetentionIsStreamingTopThree(saves);
    hide SaveAll, EverSaved;
    TopSize(EverSaved(saves).Keys, KEEP);
    assert SaveAll(saves).Keys == Top(EverSaved(saves).Keys, KEEP);
    assert |SaveAll(saves)| == |SaveAll(saves).Keys| && |EverSaved(saves)| == |EverSaved(saves).Keys|;
  }

  /** Prefix and suffix cannot overlap: the dash that ends the one is not in the other. */
  lemma PrefixAndSuffix(name: string)
    requires PREFIX <= name && HasSuffix(name, SUFFIX)
    ensures |name| >= |PREFIX| + |SUFFIX|
  {
    var at := |name| - |SUFFIX|;
    assert name[8] == '-';
    assert forall k :: 0 <= k < |SUFFIX| ==> name[at + k] == SUFFIX[k] != '-';
    assert forall k :: at <= k < |name| ==> name[k] == name[at + (k - at)];
  }

  lemma NameParses(name: string, d: string)
    requires name == PREFIX + d + SUFFIX
    ensures IndexOf(name) == ParseUint(d)
  {
    hide ParseUint;
    assert name == PREFIX + (d + SUFFIX);
    assert name[|name| - |SUFFIX|..] == SUFFIX;
    assert name[|PREFIX|..] == d + SUFFIX;
    assert HasSuffix(d + SUFFIX, SUFFIX);
    assert (d + SUFFIX)[..|d|] == d;
  }

  /** The names that count: the prefix, digits for a number below 2^64, the suffix. */
  lemma IndexOfExactly(name: string, i: uint64)
    ensures
      IndexOf(name) == Some(i) <==>
      exists d :: name == "snapshot-" + d + ".json" && Digits(d) == Some(i as nat)
  {
    hide Digits;
    if IndexOf(name) == Some(i) {
      PrefixAndSuffix(name);
      var d := name[|PREFIX|..|name| - |SUFFIX|];
      assert name == PREFIX + d + SUFFIX;
      NameParses(name, d);
      assert name == "snapshot-" + d + ".json" && Digits(d) == Some(i as nat);
    }
    if d :| name == "snapshot-" + d + ".json" && Digits(d) == Some(i as nat) {
      NameParses(name, d);
    }
  }

  // ---------------------------------------------------------------- choosing the latest

  /** The index Load settles on: the largest positive one, or 0 when there is none. */
  ghost predicate IsLatest(keys: set<nat>, i: nat) {
    && (i == 0 || i in keys)
    && (forall k :: k in keys ==> k <= i)
  }

  ghost function Latest(keys: set<nat>): (i: nat)
    ensures IsLatest(keys, i)
  {
    LatestExists(keys);
    var i :| IsLatest(keys, i);
    i
  }

  lemma {:induction false} LatestExists(keys: set<nat>)
    ensures exists i :: IsLatest(keys, i)
    decreases |keys|
  {
    if keys == {} {
      assert IsLatest(keys, 0);
    } else {
      var x :| x in keys;
      var rest := keys - {x};
      assert keys == rest + {x};
      LatestExists(rest);
      var i :| IsLatest(rest, i);
      assert IsLatest(keys, if i > x then i else x);
    }
  }

  lemma LatestUnique(keys: set<nat>, i: nat)
    requires IsLatest(keys, i)
    ensures i == Latest(keys)
  {
  }

  /** The newest index survives retention. */
  lemma LatestOfTop(keys: set<nat>, n: nat)
    requires n > 0
    ensures Latest(Top(keys, n)) == Latest(keys)
  {
    var i := Latest(keys);
    if i in keys {
      assert Higher(keys, i) == {};
    }
    assert IsLatest(Top(keys, n), i);
    LatestUnique(Top(keys, n), i);
  }

  /** After any sequence of Saves, what Load settles on is the largest index ever saved, with its last content. */
  lemma LatestEverSaved(saves: seq<Snapshot>)
    ensures
      var latest := Latest(EverSaved(saves).Keys);
      && Latest(SaveAll(saves).Keys) == latest
      && (latest > 0 ==> latest in SaveAll(saves) && SaveAll(saves)[latest] == EverSaved(saves)[latest])
  {
    var ever := EverSaved(saves);
    RetentionIsStreamingTopThree(saves);
    assert SaveAll(saves).Keys == Top(ever.Keys, KEEP);
    LatestOfTop(ever.Keys, KEEP);
    hide SaveAll, EverSaved, Top;
  }

  // ---------------------------------------------------------------- the class

  /** A directory entry: a folder, or a file whose bytes decode to a snapshot or do not. */
  datatype File = Folder | Doc(content: Option<Snapshot>)

  datatype LoadResult = NotExist | Corrupt | Loaded(snapshot: Snapshot)

  datatype Listed = Listed(name: string, index: uint64)

  /** The snapshot files of a directory, as both Load and cleanup see them. */
  predicate IsSnapshotFile(dir: map<string, File>, name: string) {
    name in dir && dir[name].Doc? && IndexOf(name).Some?
  }

  /** Only Save has put snapshot files here: each carries its own index in name and content. */
  ghost predicate Canonical(dir: map<string, File>) {
    forall name :: IsSnapshotFile(dir, name) ==>
                     var i := IndexOf(name).value;
                     name == FileName(i) && dir[name].content.Some? && dir[name].content.value.index == i
  }

  ghost function View(dir: map<string, File>): map<nat, KV>
    requires Canonical(dir)
  {
    map i: nat | i < TWO64 && IsSnapshotFile(dir, FileName(i)) && IndexOf(FileName(i)) == Some(i)
      :: dir[FileName(i)].content.value.data
  }

  lemma ViewHas(dir: map<string, File>, name: string)
    requires Canonical(dir) && IsSnapshotFile(dir, name)
    ensures IndexOf(name).value in View(dir).Keys
  {
  }

  lemma ViewOfWrite(dir: map<string, File>, s: Snapshot)
    requires Canonical(dir)
    ensures Canonical(dir[FileName(s.index) := Doc(Some(s))])
    ensures View(dir[FileName(s.index) := Doc(Some(s))]) == View(dir)[s.index := s.data]
  {
    hide FileName, IndexOf;
    var name := FileName(s.index);
    var dir' := dir[name := Doc(Some(s))];
    IndexOfFileName(s.index);
    forall i: nat | i < TWO64 && i != s.index ensures FileName(i) != name {
      IndexOfFileName(i);
    }
    forall n | IsSnapshotFile(dir', n) && n != name ensures IsSnapshotFile(dir, n) {
    }
    assert Canonical(dir');
    assert View(dir').Keys == View(dir).Keys + {s.index};
  }

  lemma ViewOfRemove(dir: map<string, File>, i: uint64)
    requires Canonical(dir)
    ensures Canonical(dir - {FileName(i)})
    ensures View(dir - {FileName(i)}) == View(dir) - {i}
  {
    hide FileName, IndexOf;
    var dir' := dir - {FileName(i)};
    IndexOfFileName(i);
    forall j: nat | j < TWO64 && j != i ensures FileName(j) != FileName(i) {
      IndexOfFileName(j);
    }
    forall n | IsSnapshotFile(dir', n) ensures IsSnapshotFile(dir, n) {
    }
    assert Canonical(dir');
    assert View(dir').Keys == View(dir).Keys - {i};
  }

  // sort.Slice by descending index

  predicate Descending(s: seq<Listed>) {
    forall i, j :: 0 <= i < j < |s| ==> s[i].index >= s[j].index
  }

  function Insert(x: Listed, s: seq<Listed>): seq<Listed> {
    if s == [] || s[0].index <= x.index then [x] + s else [s[0]] + Insert(x, s[1..])
  }

  function SortDescending(s: seq<Listed>): seq<Listed> {
    if s == [] then [] else Insert(s[0], SortDescending(s[1..]))
  }

  lemma {:induction false} InsertPermutes(x: Listed, s: seq<Listed>)
    ensures multiset(Insert(x, s)) == multiset(s) + multiset{x}
  {
    if s != [] && s[0].index > x.index {
      InsertPermutes(x, s[1..]);
      assert s == [s[0]] + s[1..];
    }
  }

  lemma {:induction false} InsertDescends(x: Listed, s: seq<Listed>)
    requires Descending(s)
    ensures Descending(Insert(x, s))
  {
    if s != [] && s[0].index > x.index {
      var tail := Insert(x, s[1..]);
      InsertDescends(x, s[1..]);
      InsertPermutes(x, s[1..]);
      forall y | y in tail ensures y.index <= s[0].index {
        assert y in multiset(tail);
        assert y in multiset(s[1..]) || y == x;
      }
    }
  }

  lemma {:induction false} SortSpec(s: seq<Listed>)
    ensures Descending(SortDescending(s))
    ensures multiset(SortDescending(s)) == multiset(s)
  {
    if s != [] {
      SortSpec(s[1..]);
      InsertPermutes(s[0], SortDescending(s[1..]));
      InsertDescends(s[0], SortDescending(s[1..]));
      assert s == [s[0]] + s[1..];
    }
  }

  /** A permutation of a duplicate-free list is duplicate-free and has the same members. */
  lemma Distinct(s: seq<Listed>, r: seq<Listed>)
    requires multiset(r) == multiset(s)
    requires forall i, j :: 0 <= i < j < |s| ==> s[i] != s[j]
    ensures forall x :: x in r <==> x in s
    ensures forall i, j :: 0 <= i < j < |r| ==> r[i] != r[j]
  {
    forall x ensures x in r <==> x in s {
      assert x in multiset(r) <==> x in r;
      assert x in multiset(s) <==> x in s;
    }
    forall i, j | 0 <= i < j < |r| ensures r[i] != r[j] {
      if r[i] == r[j] {
        TwiceCounted(r, i, j);
        OnceCounted(s, r[i]);
      }
    }
  }

  lemma TwiceCounted(r: seq<Listed>, i: nat, j: nat)
    requires i < j < |r| && r[i] == r[j]
    ensures multiset(r)[r[i]] >= 2
  {
    assert r == r[..i] + [r[i]] + r[i + 1..j] + [r[j]] + r[j + 1..];
  }

  lemma {:induction false} OnceCounted(s: seq<Listed>, x: Listed)
    requires forall i, j :: 0 <= i < j < |s| ==> s[i] != s[j]
    ensures multiset(s)[x] <= 1
  {
    if s != [] {
      OnceCounted(s[1..], x);
      assert s == [s[0]] + s[1..];
      assert x in multiset(s[1..]) <==> x in s[1..];
    }
  }

  /** The indices at positions lo up to hi. */
  function Span(s: seq<Listed>, lo: nat, hi: nat): set<nat>
    requires hi <= |s|
  {
    set j | lo <= j < hi :: s[j].index as nat
  }

  /** In a descending list of distinct numbers, the one at position p has exactly p larger ones. */
  lemma RankIsPosition(s: seq<Listed>, p: nat)
    requires p < |s|
    requires forall i, j :: 0 <= i < j < |s| ==> s[i].index > s[j].index
    ensures |Higher(Span(s, 0, |s|), s[p].index)| == p
  {
    assert Higher(Span(s, 0, |s|), s[p].index) == Span(s, 0, p);
    CountPrefix(s, p);
  }

  lemma {:induction false} CountPrefix(s: seq<Listed>, p: nat)
    requires p <= |s|
    requires forall i, j :: 0 <= i < j < |s| ==> s[i].index > s[j].index
    ensures |Span(s, 0, p)| == p
  {
    if p > 0 {
      CountPrefix(s, p - 1);
      assert Span(s, 0, p) == Span(s, 0, p - 1) + {s[p - 1].index};
      assert s[p - 1].index !in Span(s, 0, p - 1);
      hide Span;
    }
  }

  ghost predicate Lists(dir: map<string, File>, found: seq<Listed>) {
    && (forall x :: x in found <==> IsSnapshotFile(dir, x.name) && IndexOf(x.name) == Some(x.index))
    && (forall i, j :: 0 <= i < j < |found| ==> found[i] != found[j])
  }

  // what holds in any directory, whoever put files there

  /** The names at positions lo up to hi. */
  function Names(s: seq<Listed>, lo: nat, hi: nat): set<string>
    requires hi <= |s|
  {
    set j | lo <= j < hi :: s[j].name
  }

  function SnapshotFiles(dir: map<string, File>): set<string> {
    set n | n in dir && IsSnapshotFile(dir, n)
  }

  /** The snapshot files with index i or above. */
  function AtLeast(dir: map<string, File>, i: nat): set<string> {
    set n | n in dir && IsSnapshotFile(dir, n) && IndexOf(n).value >= i
  }

  lemma {:induction false} CountNames(s: seq<Listed>, p: nat)
    requires p <= |s| && forall i, j :: 0 <= i < j < |s| ==> s[i].name != s[j].name
    ensures |Names(s, 0, p)| == p
  {
    if p > 0 {
      CountNames(s, p - 1);
      assert Names(s, 0, p) == Names(s, 0, p - 1) + {s[p - 1].name};
      assert s[p - 1].name !in Names(s, 0, p - 1);
      hide Names;
    }
  }

  /** Every snapshot file once, larger indices first. */
  ghost predicate Sorted(dir: map<string, File>, r: seq<Listed>) {
    && Descending(r) && Names(r, 0, |r|) == SnapshotFiles(dir)
    && (forall p :: 0 <= p < |r| ==> IsSnapshotFile(dir, r[p].name) && IndexOf(r[p].name) == Some(r[p].index))
    && (forall i, j :: 0 <= i < j < |r| ==> r[i].name != r[j].name)
  }

  lemma DescendingListing(dir: map<string, File>, r: seq<Listed>)
    requires Lists(dir, r) && Descending(r)
    ensures Sorted(dir, r)
  {
    hide FileName, IndexOf, Descending;
    forall p | 0 <= p < |r| ensures IsSnapshotFile(dir, r[p].name) && IndexOf(r[p].name) == Some(r[p].index) {
      assert r[p] in r;
    }
    forall n | n in SnapshotFiles(dir) ensures n in Names(r, 0, |r|) {
      assert Listed(n, IndexOf(n).value) in r;
    }
  }

  lemma SortedListing(dir: map<string, File>, found: seq<Listed>)
    requires Lists(dir, found)
    ensures |SortDescending(found)| == |found| && Sorted(dir, SortDescending(found))
  {
    var r := SortDescending(found);
    SortSpec(found);
    Distinct(found, r);
    hide SortDescending, Descending, Sorted, IsSnapshotFile;
    assert |r| == |multiset(r)| && |found| == |multiset(found)|;
    DescendingListing(dir, r);
  }

  lemma CountSorted(dir: map<string, File>, r: seq<Listed>, p: nat)
    requires Sorted(dir, r) && p <= |r|
    ensures |Names(r, 0, p)| == p && Names(r, 0, |r|) == SnapshotFiles(dir)
  {
    CountNames(r, p);
  }

  /** In any directory, the file at position p of the sorted listing has at most p files of larger index before it, and
      more than p files of at least its own. */
  lemma RankOfListing(dir: map<string, File>, found: seq<Listed>, p: nat)
    requires Lists(dir, found) && p < |found|
    ensures |SortDescending(found)| == |found| == |SnapshotFiles(dir)|
    ensures
      var i := SortDescending(found)[p].index;
      |AtLeast(dir, i + 1)| <= p < |AtLeast(dir, i)|
  {
    hide *;
    SortedListing(dir, found);
    var r := SortDescending(found);
    CountSorted(dir, r, |r|);
    CountSorted(dir, r, p);
    CountSorted(dir, r, p + 1);
    LargerComeBefore(dir, r, p);
    SubsetSize(AtLeast(dir, r[p].index + 1), Names(r, 0, p));
    SubsetSize(Names(r, 0, p + 1), AtLeast(dir, r[p].index));
  }

  lemma LargerComeBefore(dir: map<string, File>, r: seq<Listed>, p: nat)
    requires p < |r| && Sorted(dir, r)
    ensures AtLeast(dir, r[p].index + 1) <= Names(r, 0, p)
    ensures Names(r, 0, p + 1) <= AtLeast(dir, r[p].index)
  {
    hide IndexOf;
    forall n | n in AtLeast(dir, r[p].index + 1) ensures n in Names(r, 0, p) {
      assert n in Names(r, 0, |r|);
      var j :| 0 <= j < |r| && r[j].name == n;
    }
  }

  /** Nothing but snapshot files went, and each that went leaves `keep` files of at least its index. */
  ghost predicate Thinned(before: map<string, File>, after: map<string, File>, keep: nat) {
    && SameOthers(before, after)
    && forall n :: IsSnapshotFile(before, n) && n !in after ==> |AtLeast(after, IndexOf(n).value)| >= keep
  }

  lemma ListingThins(dir: map<string, File>, found: seq<Listed>, keep: nat, upto: nat)
    requires Lists(dir, found) && keep <= upto <= |found|
    ensures |SortDescending(found)| == |found|
    ensures
      var after := dir - Names(SortDescending(found), keep, upto);
      Thinned(dir, after, keep) && (upto == |found| ==> |SnapshotFiles(after)| == keep)
  {
    SortedListing(dir, found);
    var r := SortDescending(found);
    hide FileName, IndexOf, SortDescending, Lists, Sorted, AtLeast, Names;
    var after := dir - Names(r, keep, upto);
    CountSorted(dir, r, keep);
    NamesAreSnapshots(dir, r, keep, upto);
    forall n | IsSnapshotFile(dir, n) && n !in after ensures |AtLeast(after, IndexOf(n).value)| >= keep {
      FirstOnesStay(dir, r, keep, upto, n);
      SubsetSize(Names(r, 0, keep), AtLeast(after, IndexOf(n).value));
    }
    if upto == |found| {
      OnlyFirstStay(dir, r, keep);
    }
  }

  lemma NamesAreSnapshots(dir: map<string, File>, r: seq<Listed>, lo: nat, hi: nat)
    requires Sorted(dir, r) && lo <= hi <= |r|
    ensures forall n :: n in Names(r, lo, hi) ==> IsSnapshotFile(dir, n)
  {
    hide IndexOf;
  }

  lemma FirstOnesStay(dir: map<string, File>, r: seq<Listed>, keep: nat, upto: nat, gone: string)
    requires Sorted(dir, r) && keep <= upto <= |r| && gone in Names(r, keep, upto) && IsSnapshotFile(dir, gone)
    ensures Names(r, 0, keep) <= AtLeast(dir - Names(r, keep, upto), IndexOf(gone).value)
  {
    hide IndexOf;
    var p :| keep <= p < upto && r[p].name == gone;
    forall n | n in Names(r, 0, keep) ensures n in AtLeast(dir - Names(r, keep, upto), r[p].index) {
      var j :| 0 <= j < keep && r[j].name == n;
      assert r[j].index >= r[p].index;
    }
  }

  lemma OnlyFirstStay(dir: map<string, File>, r: seq<Listed>, keep: nat)
    requires Sorted(dir, r) && keep <= |r|
    ensures SnapshotFiles(dir - Names(r, keep, |r|)) == Names(r, 0, keep)
  {
    hide IndexOf;
    var after := dir - Names(r, keep, |r|);
    forall n | n in SnapshotFiles(after) ensures n in Names(r, 0, keep) {
      assert n in SnapshotFiles(dir);
      var j :| 0 <= j < |r| && r[j].name == n;
    }
    forall n | n in Names(r, 0, keep) ensures n in SnapshotFiles(after) {
      var j :| 0 <= j < keep && r[j].name == n;
      assert IsSnapshotFile(dir, r[j].name);
    }
  }

  lemma ListingCounts(dir: map<string, File>, found: seq<Listed>)
    requires Lists(dir, found)
    ensures |SnapshotFiles(dir)| == |found|
  {
    hide *;
    SortedListing(dir, found);
    CountSorted(dir, SortDescending(found), |found|);
  }

  /** Removing canonical files removes their indices. */
  lemma {:induction false} ViewOfRemovals(dir: map<string, File>, s: seq<Listed>, lo: nat, hi: nat)
    requires Canonical(dir) && lo <= hi <= |s|
    requires forall p :: 0 <= p < |s| ==> s[p].name == FileName(s[p].index)
    ensures Canonical(dir - Names(s, lo, hi))
    ensures View(dir - Names(s, lo, hi)) == View(dir) - Span(s, lo, hi)
  {
    hide FileName, View, Canonical;
    if lo == hi {
      assert dir - Names(s, lo, hi) == dir && View(dir) - Span(s, lo, hi) == View(dir);
    } else {
      ViewOfRemovals(dir, s, lo, hi - 1);
      ViewOfRemove(dir - Names(s, lo, hi - 1), s[hi - 1].index);
      assert Names(s, lo, hi) == Names(s, lo, hi - 1) + {s[hi - 1].name};
      assert Span(s, lo, hi) == Span(s, lo, hi - 1) + {s[hi - 1].index};
      assert dir - Names(s, lo, hi) == (dir - Names(s, lo, hi - 1)) - {FileName(s[hi - 1].index)};
    }
  }

  /** In a directory that only Save wrote to, each snapshot is at the position of its rank. */
  lemma CanonicalRank(dir: map<string, File>, found: seq<Listed>)
    requires Canonical(dir) && Lists(dir, found)
    ensures
      var r, keys := SortDescending(found), View(dir).Keys;
      && |r| == |found| == |keys|
      && (forall p :: 0 <= p < |r| ==> r[p].name == FileName(r[p].index) && |Higher(keys, r[p].index)| == p)
      && keys == Span(r, 0, |r|)
  {
    hide FileName, IndexOf;
    var r, keys := SortDescending(found), View(dir).Keys;
    SortSpec(found);
    Distinct(found, r);
    assert |r| == |multiset(r)| && |found| == |multiset(found)|;
    forall p | 0 <= p < |r| ensures r[p].name == FileName(r[p].index) && IsSnapshotFile(dir, r[p].name) {
      assert r[p] in r;
    }
    forall i, j | 0 <= i < j < |r| ensures r[i].index > r[j].index {
      assert r[i] != r[j] && r[i].name == FileName(r[i].index) && r[j].name == FileName(r[j].index);
    }
    assert Span(r, 0, |r|) == keys by {
      forall k | k in keys ensures k in Span(r, 0, |r|) {
        assert Listed(FileName(k), k) in r;
      }
      forall p | 0 <= p < |r| ensures r[p].index in keys {
        ViewHas(dir, r[p].name);
      }
    }
    forall p | 0 <= p < |r| ensures |Higher(keys, r[p].index)| == p {
      RankIsPosition(r, p);
    }
    CountPrefix(r, |r|);
  }

  /** No folder bears a snapshot's name. */
  ghost predicate NoFolders(dir: map<string, File>) {
    forall i: nat :: FileName(i) in dir ==> dir[FileName(i)].Doc?
  }

  /** Nothing but snapshot files was touched. */
  ghost predicate SameOthers(before: map<string, File>, after: map<string, File>) {
    forall n :: (n in after ==> n in before && after[n] == before[n])
             && (n in before && n !in after ==> IndexOf(n).Some?)
  }

  lemma TopOfFew(keys: set<nat>, n: nat)
    requires |keys| <= n
    ensures Top(keys, n) == keys
  {
    forall k | k in keys ensures k in Top(keys, n) {
      assert Higher(keys, k) <= keys - {k};
      SubsetSize(Higher(keys, k), keys - {k});
    }
  }

  /** The position at which removing stops. */
  function Upto(size: nat, keep: nat, failAt: Option<nat>): (p: nat)
    requires keep <= size
    ensures keep <= p <= size && (failAt.None? ==> p == size)
  {
    if failAt.None? || size - keep <= failAt.value then size else keep + failAt.value
  }

  lemma SurvivorsOfSpan(before: map<nat, KV>, r: seq<Listed>, keep: nat, failAt: Option<nat>)
    requires keep <= |r| && before.Keys == Span(r, 0, |r|)
    requires forall p :: 0 <= p < |r| ==> |Higher(before.Keys, r[p].index)| == p
    ensures
      before - Span(r, keep, Upto(|r|, keep, failAt)) == Restrict(before, Survivors(before.Keys, keep, failAt))
  {
    var upto := Upto(|r|, keep, failAt);
    forall k | k in before.Keys ensures k in Survivors(before.Keys, keep, failAt) <==> k !in Span(r, keep, upto) {
      var p :| 0 <= p < |r| && r[p].index == k;
      assert k in Survivors(before.Keys, keep, failAt) <==> !(keep <= p < upto);
      if k in Span(r, keep, upto) {
        var q :| keep <= q < upto && r[q].index == k;
        assert p == q;
      }
    }
  }

  lemma CanonicalRemoval(dir: map<string, File>, found: seq<Listed>, keep: nat, failAt: Option<nat>)
    requires Canonical(dir) && Lists(dir, found) && keep <= |found|
    ensures |SortDescending(found)| == |found|
    ensures
      var after := dir - Names(SortDescending(found), keep, Upto(|found|, keep, failAt));
      Canonical(after) && View(after) == Restrict(View(dir), Survivors(View(dir).Keys, keep, failAt))
  {
    CanonicalRank(dir, found);
    var r := SortDescending(found);
    hide FileName, IndexOf, View, Canonical, SortDescending, Lists, Survivors, Upto;
    ViewOfRemovals(dir, r, keep, Upto(|found|, keep, failAt));
    SurvivorsOfSpan(View(dir), r, keep, failAt);
  }

  lemma FewSurvive(keys: set<nat>, n: nat, failAt: Option<nat>)
    requires |keys| <= n
    ensures Survivors(keys, n, failAt) == keys
  {
    TopOfFew(keys, n);
    assert forall k :: k in keys ==> k in Top(keys, n);
  }

  class Snapshotter {
    var dir: map<string, File>

    constructor (existing: map<string, File>)
      ensures dir == existing
    {
      dir := existing;
    }

    /** The largest positive index wins; a directory without one counts as having no snapshot. */
    method Load() returns (r: LoadResult)
      ensures r.NotExist? <==> forall name :: IsSnapshotFile(dir, name) ==> IndexOf(name).value == 0
      ensures !r.NotExist? ==>
          exists name ::
            && IsSnapshotFile(dir, name)
            && (forall n :: IsSnapshotFile(dir, n) ==> IndexOf(n).value <= IndexOf(name).value)
            && r == (if dir[name].content.Some? then Loaded(dir[name].content.value) else Corrupt)
      ensures Canonical(dir) ==>
                var latest := Latest(View(dir).Keys);
                r == if latest == 0 then NotExist else Loaded(Snapshot(latest, View(dir)[latest]))
    {
      hide FileName, IndexOf;
      var rest := dir.Keys;
      var latestFile := "";
      var latestIndex: uint64 := 0;
      while rest != {}
        invariant rest <= dir.Keys
        invariant forall n :: IsSnapshotFile(dir, n) && n !in rest ==> IndexOf(n).value <= latestIndex
        invariant latestIndex > 0 ==> IsSnapshotFile(dir, latestFile) && IndexOf(latestFile) == Some(latestIndex)
        decreases |rest|
      {
        var name :| name in rest;
        rest := rest - {name};
        if dir[name].Doc? {
          var index := IndexOf(name);
          if index.Some? && index.value > latestIndex {
            latestIndex, latestFile := index.value, name;
          }
        }
      }
      if latestIndex == 0 {
        r := NotExist;
      } else if dir[latestFile].content.None? {
        r := Corrupt;
      } else {
        r := Loaded(dir[latestFile].content.value);
      }
      if Canonical(dir) {
        assert IsLatest(View(dir).Keys, latestIndex) by {
          forall k | k in View(dir).Keys ensures k <= latestIndex {
            assert IsSnapshotFile(dir, FileName(k));
          }
          if latestIndex > 0 {
            ViewHas(dir, latestFile);
          }
        }
        LatestUnique(View(dir).Keys, latestIndex);
      }
    }

    /** The listing that cleanup sorts. */
    method List() returns (found: seq<Listed>)
      ensures Lists(dir, found)
    {
      found := [];
      hide FileName, IndexOf;
      var rest := dir.Keys;
      while rest != {}
        invariant rest <= dir.Keys
        invariant forall x :: x in found <==>
                                IsSnapshotFile(dir, x.name) && x.name !in rest && IndexOf(x.name) == Some(x.index)
        invariant forall i, j :: 0 <= i < j < |found| ==> found[i] != found[j]
        decreases |rest|
      {
        var name :| name in rest;
        rest := rest - {name};
        if dir[name].Doc? {
          var index := IndexOf(name);
          if index.Some? {
            found := found + [Listed(name, index.value)];
          }
        }
      }
    }

    /** Remove the sorted files from position `keep` on; `failAt` says which os.Remove call fails, if any does,
        and that ends the loop. */
    method RemoveFrom(sorted: seq<Listed>, keep: nat, failAt: Option<nat>)
      requires keep <= |sorted|
      modifies this
      ensures dir == old(dir) - Names(sorted, keep, Upto(|sorted|, keep, failAt))
    {
      var i := keep;
      assert dir - Names(sorted, keep, keep) == dir;
      while i < |sorted| && !(failAt.Some? && i - keep == failAt.value)
        invariant keep <= i <= |sorted| && (failAt.Some? ==> i - keep <= failAt.value)
        invariant dir == old(dir) - Names(sorted, keep, i)
      {
        assert Names(sorted, keep, i + 1) == Names(sorted, keep, i) + {sorted[i].name};
        dir := dir - {sorted[i].name};
        i := i + 1;
      }
    }

    /** Remove all but the newest `keep` snapshots, in any directory. A failing os.Remove leaves some older ones
        behind, never fewer than the newest `keep`. */
    method Cleanup(keep: nat, failAt: Option<nat>)
      modifies this
      ensures Thinned(old(dir), dir, keep) && (failAt.None? ==> |SnapshotFiles(dir)| <= keep)
      ensures Canonical(old(dir)) ==>
        && Canonical(dir)
        && View(dir) == Restrict(View(old(dir)), Survivors(View(old(dir)).Keys, keep, failAt))
    {
      hide FileName, IndexOf;
      var found := List();
      if |found| <= keep {
        ListingCounts(dir, found);
        if Canonical(dir) {
          CanonicalRank(dir, found);
          hide View, Canonical, Lists;
          FewSurvive(View(dir).Keys, keep, failAt);
          assert Restrict(View(dir), View(dir).Keys) == View(dir);
        }
      } else {
        var sorted := SortDescending(found);
        ghost var upto := Upto(|found|, keep, failAt);
        ListingThins(dir, found, keep, upto);
        if Canonical(dir) {
          CanonicalRemoval(dir, found, keep, failAt);
        }
        hide View, Canonical, Lists, Thinned, Survivors;
        RemoveFrom(sorted, keep, failAt);
      }
    }

    /** Write the file, then clean up; a failed cleanup is only reported. A folder in the way fails the write, and
        `written` says whether the write succeeds otherwise. */
    method Save(s: Snapshot, written: bool, failAt: Option<nat>) returns (ok: bool)
      modifies this
      ensures ok <==> written && !(FileName(s.index) in old(dir) && old(dir)[FileName(s.index)].Folder?)
      ensures !ok ==> dir == old(dir)
      ensures ok ==>
        && Thinned(old(dir)[FileName(s.index) := Doc(Some(s))], dir, KEEP)
        && (failAt.None? ==> |SnapshotFiles(dir)| <= KEEP)
      ensures NoFolders(old(dir)) ==> NoFolders(dir) && ok == written
      ensures Canonical(old(dir)) ==> Canonical(dir)
      ensures ok && Canonical(old(dir)) ==> View(dir) == SaveView(View(old(dir)), s, failAt)
    {
      hide FileName, IndexOf;
      var name := FileName(s.index);
      if !written || (name in dir && dir[name].Folder?) {
        return false;
      }
      if Canonical(dir) {
        ViewOfWrite(dir, s);
      }
      hide View, Canonical, Survivors, AtLeast, SnapshotFiles;
      dir := dir[name := Doc(Some(s))];
      Cleanup(KEEP, failAt);
      ok := true;
    }
  }
}
