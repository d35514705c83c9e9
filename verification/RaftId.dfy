/** The 64-bit, base-31 hash that turns node names into Raft IDs. The node and the admin service each have a copy of the
    loop, and both compute the same function. */
module RaftId {
  import opened Types
  import opened Decimal

  function Hash(s: string): uint64 {
    if s == [] then 0 else (Hash(s[..|s| - 1]) * 31 + s[|s| - 1] as nat) % TWO64
  }

  method NodeIdToRaftId(nodeId: string) returns (hash: uint64)
    ensures hash == Hash(nodeId)
  {
    hash := 0;
    for i := 0 to |nodeId|
      invariant hash == Hash(nodeId[..i])
    {
      assert nodeId[..i + 1][..i] == nodeId[..i];
      hash := (hash * 31 + nodeId[i] as nat) % TWO64;
    }
    assert nodeId[..|nodeId|] == nodeId;
  }

  /** The admin service's copy. */
  method AdminNodeIdToRaftId(nodeId: string) returns (hash: uint64)
    ensures hash == Hash(nodeId)
  {
    hash := 0;
    var rest := nodeId;
    while rest != []
      invariant |rest| <= |nodeId| && rest == nodeId[|nodeId| - |rest|..]
      invariant hash == Hash(nodeId[..|nodeId| - |rest|])
    {
      var i := |nodeId| - |rest|;
      assert nodeId[..i + 1][..i] == nodeId[..i];
      hash := (hash * 31 + rest[0] as nat) % TWO64;
      rest := rest[1..];
    }
    assert nodeId[..|nodeId|] == nodeId;
  }

  // ---------------------------------------------------------------- without wrap-around

  /** The same fold over unbounded numbers, from a given start. */
  function Raw(h: nat, s: string): nat {
    if s == [] then h else Raw(h, s[..|s| - 1]) * 31 + s[|s| - 1] as nat
  }

  lemma {:induction false} WrapStep(x: nat, c: nat)
    ensures ((x % TWO64) * 31 + c) % TWO64 == (x * 31 + c) % TWO64
  {
    var q, r := x / TWO64, x % TWO64;
    assert x * 31 + c == (r * 31 + c) + (q * 31) * TWO64;
    Multiple(r * 31 + c, q * 31);
  }

  lemma {:induction false} Multiple(a: int, k: int)
    ensures (a + k * TWO64) % TWO64 == a % TWO64
  {
  }

  lemma {:induction false} HashIsRaw(p: string, s: string)
    ensures Hash(p + s) == Raw(Hash(p), s) % TWO64
  {
    if s == [] {
      assert p + s == p;
    } else {
      var n := |s| - 1;
      HashIsRaw(p, s[..n]);
      assert (p + s)[..|p + s| - 1] == p + s[..n];
      WrapStep(Raw(Hash(p), s[..n]), s[n] as nat);
    }
  }

  // ---------------------------------------------------------------- base-31 numbers

  /** Every character lies in the window of 31 code points that starts at w. */
  predicate InWindow(s: string, w: nat) {
    forall i :: 0 <= i < |s| ==> w <= s[i] as nat < w + 31
  }

  function Value(s: string, w: nat): nat
    requires InWindow(s, w)
  {
    if s == [] then 0 else Value(s[..|s| - 1], w) * 31 + (s[|s| - 1] as nat - w)
  }

  function Pow31(n: nat): nat {
    if n == 0 then 1 else 31 * Pow31(n - 1)
  }

  lemma {:induction false} ValueBound(s: string, w: nat)
    requires InWindow(s, w)
    ensures Value(s, w) < Pow31(|s|)
  {
    if s != [] {
      ValueBound(s[..|s| - 1], w);
    }
  }

  /** Up to twelve base-31 digits fit in 64 bits. */
  lemma {:induction false} TwelveDigitsFit(n: nat)
    requires n <= 12
    ensures Pow31(n) < TWO64
  {
    assert Pow31(3) == 29791;
    assert Pow31(6) == 29791 * 29791;
    assert Pow31(9) == 29791 * 29791 * 29791;
    assert Pow31(12) == 29791 * 29791 * 29791 * 29791;
    PowGrows(n, 12);
  }

  lemma {:induction false} PowGrows(m: nat, n: nat)
    requires m <= n
    ensures Pow31(m) <= Pow31(n)
  {
    if m < n {
      PowGrows(m, n - 1);
    }
  }

  lemma {:induction false} ValueInjective(s: string, t: string, w: nat)
    requires InWindow(s, w) && InWindow(t, w) && |s| == |t| && Value(s, w) == Value(t, w)
    ensures s == t
  {
    if s != [] {
      var n := |s| - 1;
      ValueInjective(s[..n], t[..n], w);
      assert s == s[..n] + [s[n]] && t == t[..n] + [t[n]];
    }
  }

  /** Two folds over suffixes of one length differ by the difference of their base-31 values. */
  lemma {:induction false} RawDifference(h: nat, s: string, t: string, w: nat)
    requires InWindow(s, w) && InWindow(t, w) && |s| == |t|
    ensures Raw(h, s) - Raw(h, t) == Value(s, w) - Value(t, w)
  {
    if s != [] {
      RawDifference(h, s[..|s| - 1], t[..|t| - 1], w);
    }
  }

  // ---------------------------------------------------------------- main results

  /** Under any common prefix, distinct suffixes of one length up to twelve, drawn from 31 consecutive code points,
      get distinct IDs. */
  lemma {:induction false} SuffixesNeverCollide(p: string, s: string, t: string, w: nat)
    requires InWindow(s, w) && InWindow(t, w) && |s| == |t| <= 12 && s != t
    ensures Hash(p + s) != Hash(p + t)
  {
    HashIsRaw(p, s);
    HashIsRaw(p, t);
    RawDifference(Hash(p), s, t, w);
    ValueBound(s, w);
    ValueBound(t, w);
    TwelveDigitsFit(|s|);
    hide Raw, Value, Hash, Pow31;
    CloseNumbers(Raw(Hash(p), s), Raw(Hash(p), t));
    if Value(s, w) == Value(t, w) {
      ValueInjective(s, t, w);
    }
  }

  lemma {:induction false} CloseNumbers(x: int, y: int)
    requires x - y < TWO64 && y - x < TWO64
    ensures x % TWO64 == y % TWO64 ==> x == y
  {
  }

  const THIRTEEN: string := "G=075B;45D86@"
  const ZEROS: string := "0000000000000"

  /** Twelve is the limit: at thirteen characters two suffixes collide under every prefix. */
  lemma {:induction false} ThirteenCollide(p: string)
    ensures |THIRTEEN| == |ZEROS| == 13 && THIRTEEN != ZEROS
    ensures InWindow(THIRTEEN, '0' as nat) && InWindow(ZEROS, '0' as nat)
    ensures Hash(p + THIRTEEN) == Hash(p + ZEROS)
  {
    HashIsRaw(p, THIRTEEN);
    HashIsRaw(p, ZEROS);
    RawDifference(Hash(p), THIRTEEN, ZEROS, '0' as nat);
    ZerosAreZero(ZEROS);
    ThirteenIsTwo64();
    Multiple(Raw(Hash(p), ZEROS), 1);
  }

  lemma {:induction false} ZerosAreZero(s: string)
    requires forall i :: 0 <= i < |s| ==> s[i] == '0'
    ensures Value(s, '0' as nat) == 0
  {
    if s != [] {
      ZerosAreZero(s[..|s| - 1]);
    }
  }

  lemma {:induction false} ValueOfMore(s: string, c: char)
    requires InWindow(s, '0' as nat) && '0' <= c <= 'N'
    ensures InWindow(s + [c], '0' as nat)
    ensures Value(s + [c], '0' as nat) == Value(s, '0' as nat) * 31 + (c as nat - '0' as nat)
  {
    assert (s + [c])[..|s|] == s;
  }

  /** THIRTEEN spells 2^64 in base 31. */
  lemma {:induction false} ThirteenIsTwo64()
    ensures Value(THIRTEEN, '0' as nat) == TWO64
  {
    var a := "G=075B";
    assert InWindow([], '0' as nat) && Value([], '0' as nat) == 0;
    ValueOfMore([], 'G');
    ValueOfMore([] + ['G'], '=');
    ValueOfMore([] + ['G'] + ['='], '0');
    ValueOfMore([] + ['G'] + ['='] + ['0'], '7');
    ValueOfMore([] + ['G'] + ['='] + ['0'] + ['7'], '5');
    ValueOfMore([] + ['G'] + ['='] + ['0'] + ['7'] + ['5'], 'B');
    hide Value, InWindow;
    assert [] + ['G'] + ['='] + ['0'] + ['7'] + ['5'] + ['B'] == a;
    ValueOfMore(a, ';');
    ValueOfMore(a + [';'], '4');
    ValueOfMore(a + [';'] + ['4'], '5');
    ValueOfMore(a + [';'] + ['4'] + ['5'], 'D');
    ValueOfMore(a + [';'] + ['4'] + ['5'] + ['D'], '8');
    ValueOfMore(a + [';'] + ['4'] + ['5'] + ['D'] + ['8'], '6');
    ValueOfMore(a + [';'] + ['4'] + ['5'] + ['D'] + ['8'] + ['6'], '@');
    assert a + [';'] + ['4'] + ['5'] + ['D'] + ['8'] + ['6'] + ['@'] == THIRTEEN;
  }

  function PodName(cluster: string, i: nat): string {
    cluster + "-" + Dec(i)
  }

  /** The operator allows at most seven replicas, so ordinals have one digit: whatever the cluster is called,
      its pods have distinct IDs. */
  lemma {:induction false} PodIdsDistinct(cluster: string, i: nat, j: nat)
    requires i < 10 && j < 10 && i != j
    ensures Hash(PodName(cluster, i)) != Hash(PodName(cluster, j))
  {
    DecInjective(i, j);
    SuffixesNeverCollide(cluster + "-", Dec(i), Dec(j), '0' as nat);
  }
}
