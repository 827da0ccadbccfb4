/** The IP pools of the controller: addresses as big-endian bytes, a first-free search from
    the start of the range, and the lease book. */
module Dhcp {
  import opened Common
  import opened Arith

  type Address = seq<U8>

  // ---------------------------------------------------------------------------
  // Addresses as numbers
  // ---------------------------------------------------------------------------

  function Num(ip: Address): nat {
    if |ip| == 0 then 0 else Num(ip[..|ip| - 1]) * 256 + ip[|ip| - 1]
  }

  function Pow256(n: nat): (p: nat)
    ensures p > 0
  {
    if n == 0 then 1 else 256 * Pow256(n - 1)
  }

  predicate AllOnes(ip: Address) {
    forall i :: 0 <= i < |ip| ==> ip[i] == 255
  }

  lemma {:induction false} NumBelow(ip: Address)
    ensures Num(ip) < Pow256(|ip|)
    ensures Num(ip) == Pow256(|ip|) - 1 <==> AllOnes(ip)
  {
    if |ip| > 0 {
      NumBelow(ip[..|ip| - 1]);
      assert AllOnes(ip) <==> AllOnes(ip[..|ip| - 1]) && ip[|ip| - 1] == 255;
    }
  }

  lemma {:induction false} NumInjective(a: Address, b: Address)
    requires |a| == |b| && Num(a) == Num(b)
    ensures a == b
  {
    if |a| > 0 {
      NumInjective(a[..|a| - 1], b[..|b| - 1]);
      assert a == a[..|a| - 1] + [a[|a| - 1]] && b == b[..|b| - 1] + [b[|b| - 1]];
    }
  }

  /** The first byte in which two addresses differ decides their numeric order. */
  lemma {:induction false} FirstDifferenceDecides(a: Address, b: Address, i: nat)
    requires |a| == |b| && i < |a| && a[..i] == b[..i] && a[i] < b[i]
    ensures Num(a) < Num(b)
  {
    var n := |a| - 1;
    var a', b' := a[..n], b[..n];
    if i < n {
      assert a'[..i] == a[..i] && b'[..i] == b[..i];
      FirstDifferenceDecides(a', b', i);
    }
  }

  // ---------------------------------------------------------------------------
  // incrementIP
  // ---------------------------------------------------------------------------

  /** Add one with carry, from the last byte; the all-ones address wraps to zero. */
  function Succ(ip: Address): (r: Address)
    ensures |r| == |ip|
  {
    if |ip| == 0 then []
    else
      var n := |ip| - 1;
      if ip[n] < 255 then ip[..n] + [ip[n] + 1] else Succ(ip[..n]) + [0]
  }

  lemma {:induction false} SuccIsPlusOne(ip: Address)
    ensures Num(Succ(ip)) == (Num(ip) + 1) % Pow256(|ip|)
  {
    NumBelow(ip);
    if |ip| > 0 {
      var n := |ip| - 1;
      var front := ip[..n];
      NumBelow(front);
      SuccIsPlusOne(front);
      assert Succ(ip)[..n] == if ip[n] < 255 then front else Succ(front);
      if ip[n] == 255 && Num(front) + 1 == Pow256(n) {
        assert (Num(front) + 1) % Pow256(n) == 0 by { DivModUnique(Num(front) + 1, Pow256(n), 1, 0); }
        DivModUnique(Num(ip) + 1, Pow256(|ip|), 1, 0);
      } else {
        if ip[n] == 255 { DivModUnique(Num(front) + 1, Pow256(n), 0, Num(front) + 1); }
        DivModUnique(Num(ip) + 1, Pow256(|ip|), 0, Num(ip) + 1);
      }
    } else {
      DivModUnique(1, 1, 1, 0);
    }
  }

  function Zeros(n: nat): (s: Address)
    ensures |s| == n
  {
    seq(n, _ => 0)
  }

  /** The loop of incrementIP from byte i down: add one, and go on only if the byte wrapped. */
  function Carry(ip: Address, i: int): (r: Address)
    requires i < |ip|
    ensures |r| == |ip|
    decreases i
  {
    if i < 0 then ip
    else
      var ip' := ip[i := (ip[i] as int + 1) % 256];
      if ip'[i] != 0 then ip' else Carry(ip', i - 1)
  }

  lemma SuccOfFront(ip: Address, i: nat)
    requires i < |ip|
    ensures Succ(ip[..i + 1]) == if ip[i] < 255 then ip[..i] + [ip[i] + 1] else Succ(ip[..i]) + [0]
  {
    assert ip[..i + 1][..i] == ip[..i];
  }

  lemma ReplaceByte(ip: Address, i: nat, v: U8)
    requires i < |ip|
    ensures ip[i := v] == ip[..i] + [v] + ip[i + 1..]
    ensures ip[i := v][..i] == ip[..i]
    ensures forall front: Address :: front + ip[i := v][i..] == front + [v] + ip[i + 1..]
  {
    assert ip[i := v][i..] == [v] + ip[i + 1..];
  }

  lemma {:induction false} CarryIntoFront(ip: Address, i: int)
    requires -1 <= i < |ip|
    ensures Carry(ip, i) == Succ(ip[..i + 1]) + ip[i + 1..]
    decreases i
  {
    if i < 0 {
      assert ip[..0] == [] && ip[0..] == ip;
    } else {
      var v: U8 := (ip[i] as int + 1) % 256;
      SuccOfFront(ip, i);
      ReplaceByte(ip, i, v);
      if v == 0 { CarryIntoFront(ip[i := 0], i - 1); }
    }
  }

  lemma CarryIsSucc(ip: Address)
    ensures Carry(ip, |ip| - 1) == Succ(ip)
  {
    CarryIntoFront(ip, |ip| - 1);
    assert ip[..|ip|] == ip && ip[|ip|..] == [] && Succ(ip) + [] == Succ(ip);
  }

  method IncrementByte(ip: array<U8>, i: nat)
    requires i < ip.Length
    modifies ip
    ensures ip[..] == old(ip[..])[i := (old(ip[..])[i] as int + 1) % 256]
  {
    ip[i] := (ip[i] as int + 1) % 256;
  }

  /** In place, one more modulo 256^n, where n is the address length. */
  method IncrementIP(ip: array<U8>)
    modifies ip
    ensures ip[..] == Succ(old(ip[..]))
    ensures Num(ip[..]) == (Num(old(ip[..])) + 1) % Pow256(ip.Length)
  {
    ghost var before := ip[..];
    var i := ip.Length - 1;
    CarryIsSucc(before);
    SuccIsPlusOne(before);
    while i >= 0
      invariant -1 <= i < ip.Length
      invariant Carry(ip[..], i) == Succ(before)
    {
      IncrementByte(ip, i);
      if ip[i] != 0 {
        break;
      }
      i := i - 1;
    }
  }

  // ---------------------------------------------------------------------------
  // compareIP and the text form
  // ---------------------------------------------------------------------------

  /** net.IP.To4: the four-byte form of a four-byte or IPv4-mapped address. */
  function To4(ip: Address): Option<Address> {
    if |ip| == 4 then Some(ip)
    else if |ip| == 16 && ip[..12] == Zeros(10) + [255, 255] then Some(ip[12..])
    else None
  }

  /** What net.IP.String distinguishes: the four-byte form where there is one. */
  function Text(ip: Address): Address {
    if To4(ip).Some? then To4(ip).value else ip
  }

  lemma TextInjective(a: Address, b: Address)
    requires |a| == |b|
    ensures Text(a) == Text(b) <==> a == b
  {
    if |a| == 16 {
      assert a == a[..12] + a[12..] && b == b[..12] + b[12..];
    }
  }

  function Sign(x: int): int { if x < 0 then -1 else if x > 0 then 1 else 0 }

  lemma {:induction false} SamePrefixSameOrder(p: Address, a: Address, b: Address)
    requires |a| == |b|
    ensures Sign(Num(p + a) - Num(p + b)) == Sign(Num(a) - Num(b))
  {
    if |a| > 0 {
      var n := |a| - 1;
      assert (p + a)[..|p + a| - 1] == p + a[..n] && (p + b)[..|p + b| - 1] == p + b[..n];
      SamePrefixSameOrder(p, a[..n], b[..n]);
    }
  }

  /** The first difference in the common prefix decides; without one the answer is 0. */
  function PrefixOrder(a: Address, b: Address): int {
    if |a| == 0 || |b| == 0 then 0
    else if a[0] < b[0] then -1
    else if a[0] > b[0] then 1
    else PrefixOrder(a[1..], b[1..])
  }

  /** What compareIP computes, on addresses of any lengths. */
  function Order(a: Address, b: Address): int {
    if To4(a).Some? && To4(b).Some? then PrefixOrder(To4(a).value, To4(b).value) else PrefixOrder(a, b)
  }

  /** On addresses of one length, prefix order is numeric order. */
  lemma {:induction false} PrefixOrderIsNumeric(a: Address, b: Address)
    requires |a| == |b|
    ensures PrefixOrder(a, b) == Sign(Num(a) - Num(b))
  {
    if |a| > 0 {
      assert a == [a[0]] + a[1..] && b == [b[0]] + b[1..];
      if a[0] < b[0] {
        FirstDifferenceDecides(a, b, 0);
      } else if a[0] > b[0] {
        FirstDifferenceDecides(b, a, 0);
      } else {
        PrefixOrderIsNumeric(a[1..], b[1..]);
        SamePrefixSameOrder([a[0]], a[1..], b[1..]);
      }
    }
  }

  lemma LastFourDecide(a: Address, b: Address)
    requires |a| == |b| == 16 && a[..12] == b[..12]
    ensures Sign(Num(a) - Num(b)) == Sign(Num(a[12..]) - Num(b[12..]))
  {
    assert a == a[..12] + a[12..] && b == a[..12] + b[12..];
    SamePrefixSameOrder(a[..12], a[12..], b[12..]);
  }

  /** So is the whole comparison, whichever branch it takes. */
  lemma OrderIsNumeric(a: Address, b: Address)
    requires |a| == |b|
    ensures Order(a, b) == Sign(Num(a) - Num(b))
  {
    if To4(a).Some? && To4(b).Some? {
      var a4, b4 := To4(a).value, To4(b).value;
      PrefixOrderIsNumeric(a4, b4);
      if |a| == 16 { LastFourDecide(a, b); }
    } else {
      PrefixOrderIsNumeric(a, b);
    }
  }

  /** The byte loop both branches of compareIP run. */
  method CompareBytes(a: Address, b: Address) returns (r: int)
    ensures r == PrefixOrder(a, b)
  {
    var i := 0;
    while i < |a| && i < |b|
      invariant 0 <= i <= |a| && i <= |b|
      invariant PrefixOrder(a, b) == PrefixOrder(a[i..], b[i..])
    {
      if a[i] < b[i] {
        return -1;
      }
      if a[i] > b[i] {
        return 1;
      }
      assert a[i..][1..] == a[i + 1..] && b[i..][1..] == b[i + 1..];
      i := i + 1;
    }
    r := 0;
  }

  /** On addresses of equal length, and on IPv4 addresses in either form, the comparison is the
      numeric one; on others it is the order of a common prefix. */
  method CompareIP(a: Address, b: Address) returns (r: int)
    ensures r == Order(a, b)
    ensures |a| == |b| ==> r == Sign(Num(a) - Num(b))
    ensures To4(a).Some? && To4(b).Some? ==> r == Sign(Num(To4(a).value) - Num(To4(b).value))
  {
    if |a| == |b| { OrderIsNumeric(a, b); }
    var a4, b4 := To4(a), To4(b);
    if a4.Some? && b4.Some? {
      PrefixOrderIsNumeric(a4.value, b4.value);
      r := CompareBytes(a4.value, b4.value);
    } else {
      r := CompareBytes(a, b);
    }
  }

  // ---------------------------------------------------------------------------
  // The search
  // ---------------------------------------------------------------------------

  datatype Lease = Lease(ip: Address, expiresAt: int)
  datatype Pool = Pool(rangeStart: Address, rangeEnd: Address, taken: set<Address>, leases: seq<Lease>)

  /** Both ends of the range have the same number of bytes. */
  predicate SameLength(p: Pool) { |p.rangeStart| == |p.rangeEnd| }

  /** ... or both are IPv4 addresses, in one form or the other. */
  predicate Comparable(p: Pool) {
    SameLength(p) || (To4(p.rangeStart).Some? && To4(p.rangeEnd).Some?)
  }

  const MappedPrefix: Address := Zeros(10) + [255, 255]

  /** The pool with its end in the byte form of its start, where both are IPv4. */
  function Leveled(p: Pool): (q: Pool)
    ensures Comparable(p) ==> SameLength(q)
    ensures SameLength(p) ==> q == p
  {
    if SameLength(p) || !Comparable(p) then p
    else if |p.rangeStart| == 4 then p.(rangeEnd := To4(p.rangeEnd).value)
    else p.(rangeEnd := MappedPrefix + p.rangeEnd)
  }

  predicate Free(p: Pool, ip: Address) { Text(ip) !in p.taken }

  ghost predicate InRange(p: Pool, ip: Address) {
    |ip| == |p.rangeStart| && Num(p.rangeStart) <= Num(ip) <= Num(p.rangeEnd)
  }

  /** The numerically smallest free address of the range. */
  ghost predicate LowestFree(p: Pool, ip: Address) {
    && InRange(p, ip) && Free(p, ip)
    && forall x :: InRange(p, x) && Free(p, x) ==> Num(ip) <= Num(x)
  }

  ghost predicate NoneFree(p: Pool) {
    forall x :: InRange(p, x) ==> !Free(p, x)
  }

  /** The k-th address the search looks at. */
  function Candidate(p: Pool, k: nat): (ip: Address)
    ensures |ip| == |p.rangeStart|
  {
    if k == 0 then p.rangeStart else Succ(Candidate(p, k - 1))
  }

  predicate PastEnd(p: Pool, k: nat) { k > 0 && Order(Candidate(p, k), p.rangeEnd) > 0 }

  lemma PastEndIsNumeric(p: Pool, k: nat)
    requires SameLength(p)
    ensures PastEnd(p, k) <==> k > 0 && Num(Candidate(p, k)) > Num(p.rangeEnd)
  {
    OrderIsNumeric(Candidate(p, k), p.rangeEnd);
  }

  predicate Stops(p: Pool, k: nat) { PastEnd(p, k) || Free(p, Candidate(p, k)) }

  ghost predicate FirstStop(p: Pool, k: nat) {
    Stops(p, k) && NoStopBefore(p, k)
  }

  ghost predicate NoStopBefore(p: Pool, k: nat) {
    forall j: nat :: j < k ==> !Stops(p, j)
  }

  /** What the search returns when it stops at its k-th address. */
  function OutcomeAt(p: Pool, k: nat): Option<Address> {
    if PastEnd(p, k) then None else Some(Candidate(p, k))
  }

  lemma {:induction false} CandidateNumber(p: Pool, k: nat)
    ensures Num(Candidate(p, k)) == (Num(p.rangeStart) + k) % Pow256(|p.rangeStart|)
  {
    var n, s := Pow256(|p.rangeStart|), Num(p.rangeStart);
    if k == 0 {
      NumBelow(p.rangeStart);
      DivModUnique(s, n, 0, s);
    } else {
      CandidateNumber(p, k - 1);
      SuccIsPlusOne(Candidate(p, k - 1));
      AddOneMod(s + k - 1, n);
    }
  }

  lemma AddOneMod(x: nat, n: nat)
    requires n > 0
    ensures (x % n + 1) % n == (x + 1) % n
  {
    var q, r := x / n, x % n;
    assert x == q * n + r;
    if r + 1 == n {
      assert x + 1 == (q + 1) * n;
      DivModUnique(x + 1, n, q + 1, 0);
      DivModUnique(r + 1, n, 1, 0);
    } else {
      DivModUnique(x + 1, n, q, r + 1);
      DivModUnique(r + 1, n, 0, r + 1);
    }
  }

  /** The search reaches every address of its length. */
  lemma ReachesEvery(p: Pool, ip: Address) returns (k: nat)
    requires |ip| == |p.rangeStart|
    ensures k > 0 && Candidate(p, k) == ip
  {
    var n := Pow256(|ip|);
    NumBelow(p.rangeStart);
    NumBelow(ip);
    k := n + Num(ip) - Num(p.rangeStart);
    CandidateNumber(p, k);
    DivModUnique(Num(p.rangeStart) + k, n, 1, Num(ip));
    NumInjective(Candidate(p, k), ip);
  }

  /** Every number below 256^n is the number of an n-byte address. */
  lemma {:induction false} AddressOf(n: nat, x: nat) returns (ip: Address)
    requires x < Pow256(n)
    ensures |ip| == n && Num(ip) == x
  {
    if n == 0 {
      ip := [];
    } else {
      var front := AddressOf(n - 1, x / 256);
      ip := front + [x % 256];
      assert ip[..n - 1] == front;
    }
  }

  /** An address at which the search would stop, whatever came before it. */
  predicate StopsAt(p: Pool, ip: Address) {
    |ip| == |p.rangeStart| && (Free(p, ip) || Order(ip, p.rangeEnd) > 0)
  }

  /** The loop ends if and only if some address of the start's length is free or lies past the
      end; otherwise it runs for ever. */
  lemma StopsIff(p: Pool)
    ensures (exists k: nat :: Stops(p, k)) <==> exists ip :: StopsAt(p, ip)
  {
    if ip :| StopsAt(p, ip) {
      var k := ReachesEvery(p, ip);
      assert Stops(p, k);
    }
    if k: nat :| Stops(p, k) {
      assert StopsAt(p, Candidate(p, k));
    }
  }

  /** With ends of one length, that leaves exactly the full range that ends at the all-ones
      address as the one that is never left. */
  lemma EndsIff(p: Pool)
    requires SameLength(p)
    ensures (exists k: nat :: Stops(p, k)) <==>
              !AllOnes(p.rangeEnd) || exists ip :: |ip| == |p.rangeStart| && Free(p, ip)
  {
    StopsIff(p);
    NumBelow(p.rangeEnd);
    if !AllOnes(p.rangeEnd) {
      var beyond := AddressOf(|p.rangeStart|, Num(p.rangeEnd) + 1);
      OrderIsNumeric(beyond, p.rangeEnd);
      assert StopsAt(p, beyond);
    } else if ip :| |ip| == |p.rangeStart| && Free(p, ip) {
      assert StopsAt(p, ip);
    } else {
      forall ip | |ip| == |p.rangeStart| ensures !StopsAt(p, ip) {
        OrderIsNumeric(ip, p.rangeEnd);
        NumBelow(ip);
      }
    }
  }

  /** Two ends that do not parse give a range without bytes: one allocation succeeds, and the
      next call never returns. */
  lemma NilRangeNeverEnds(now: int)
    ensures var p := Pool([], [], {}, []);
            && FirstStop(p, 0) && OutcomeAt(p, 0) == Some([])
            && forall k: nat :: !Stops(Grant(p, [], now), k)
  {
    var p := Grant(Pool([], [], {}, []), [], now);
    EndsIff(p);
    assert forall ip: Address :: |ip| == 0 ==> ip == [];
  }

  /** As long as it has not stopped, the search is inside the range, one address further at
      each step. */
  lemma NotWrappedYet(p: Pool, k: nat)
    requires SameLength(p) && Num(p.rangeStart) <= Num(p.rangeEnd)
    requires Num(p.rangeStart) + k <= Num(p.rangeEnd) + (if AllOnes(p.rangeEnd) then 0 else 1)
    ensures Num(Candidate(p, k)) == Num(p.rangeStart) + k
  {
    NumBelow(p.rangeEnd);
    CandidateNumber(p, k);
    DivModUnique(Num(p.rangeStart) + k, Pow256(|p.rangeStart|), 0, Num(p.rangeStart) + k);
  }

  /** The search ends with the lowest free address of the range, or with nothing when there is
      none. The range is the one between the start and the end in the start's byte form. */
  ghost predicate MeetsSpecification(p: Pool) {
    || (exists k: nat, ip :: FirstStop(p, k) && OutcomeAt(p, k) == Some(ip) && LowestFree(Leveled(p), ip))
    || (exists k: nat :: FirstStop(p, k) && OutcomeAt(p, k) == None && NoneFree(Leveled(p)))
  }

  lemma StopBefore(p: Pool, k: nat, x: Address)
    requires SameLength(p) && Num(p.rangeStart) <= Num(p.rangeEnd)
    requires FirstStop(p, k) && InRange(p, x) && Free(p, x)
    ensures !PastEnd(p, k) && InRange(p, Candidate(p, k)) && Num(Candidate(p, k)) <= Num(x)
  {
    var d := Num(x) - Num(p.rangeStart);
    NotWrappedYet(p, d);
    NumInjective(Candidate(p, d), x);
    assert Stops(p, d);
    assert k <= d;
    NotWrappedYet(p, k);
    PastEndIsNumeric(p, k);
  }

  lemma AllTakenGivesUp(p: Pool, k: nat)
    requires SameLength(p) && Num(p.rangeStart) <= Num(p.rangeEnd) && !AllOnes(p.rangeEnd)
    requires FirstStop(p, k) && NoneFree(p)
    ensures PastEnd(p, k)
  {
    var d := Num(p.rangeEnd) + 1 - Num(p.rangeStart);
    NotWrappedYet(p, d);
    PastEndIsNumeric(p, d);
    assert Stops(p, d);
    NotWrappedYet(p, k);
    PastEndIsNumeric(p, k);
    if !PastEnd(p, k) { assert InRange(p, Candidate(p, k)); }
  }

  lemma FindsLowest(p: Pool, k: nat)
    requires SameLength(p) && Num(p.rangeStart) <= Num(p.rangeEnd)
    requires FirstStop(p, k) && !NoneFree(p)
    ensures !PastEnd(p, k) && LowestFree(p, Candidate(p, k))
  {
    forall x | InRange(p, x) && Free(p, x)
      ensures !PastEnd(p, k) && InRange(p, Candidate(p, k)) && Num(Candidate(p, k)) <= Num(x)
    {
      StopBefore(p, k, x);
    }
    assert Free(p, Candidate(p, k));
  }

  /** On a well-ordered range whose end is not the all-ones address, the search returns the
      lowest free address, and gives up exactly when there is none. */
  lemma SearchIsLowestFree(p: Pool, k: nat)
    requires SameLength(p) && Num(p.rangeStart) <= Num(p.rangeEnd) && !AllOnes(p.rangeEnd)
    requires FirstStop(p, k)
    ensures OutcomeAt(p, k).None? <==> NoneFree(p)
    ensures OutcomeAt(p, k).Some? ==> LowestFree(p, OutcomeAt(p, k).value)
  {
    if NoneFree(p) { AllTakenGivesUp(p, k); } else { FindsLowest(p, k); }
  }

  lemma {:induction false} LeastStop(p: Pool, bound: nat) returns (k: nat)
    requires Stops(p, bound)
    ensures FirstStop(p, k) && k <= bound
  {
    if j: nat :| j < bound && Stops(p, j) {
      k := LeastStop(p, j);
    } else {
      k := bound;
    }
  }

  lemma StopExists(p: Pool) returns (k: nat)
    requires SameLength(p)
    requires !AllOnes(p.rangeEnd) || exists ip :: |ip| == |p.rangeStart| && Free(p, ip)
    ensures FirstStop(p, k)
  {
    EndsIff(p);
    var bound: nat :| Stops(p, bound);
    k := LeastStop(p, bound);
  }

  /** Where the search ends decides whether it meets the specification. */
  lemma MeetsWhereItStops(p: Pool, k: nat)
    requires FirstStop(p, k)
    ensures MeetsSpecification(p) <==>
              if PastEnd(p, k) then NoneFree(Leveled(p)) else LowestFree(Leveled(p), Candidate(p, k))
  {
    forall j: nat | FirstStop(p, j) ensures j == k { OneFirstStop(p, j, k); }
    assert PastEnd(p, k) ==> OutcomeAt(p, k) == None;
    assert !PastEnd(p, k) ==> OutcomeAt(p, k) == Some(Candidate(p, k));
  }

  lemma FullAtTopFails(p: Pool)
    requires SameLength(p) && AllOnes(p.rangeEnd) && NoneFree(p)
    ensures !MeetsSpecification(p)
  {
    if k: nat :| FirstStop(p, k) {
      NeverPastAllOnes(p, k);
      MeetsWhereItStops(p, k);
    }
  }

  lemma OrderedRangeMeetsIff(p: Pool)
    requires SameLength(p) && Num(p.rangeStart) <= Num(p.rangeEnd)
    ensures MeetsSpecification(p) <==> !AllOnes(p.rangeEnd) || !NoneFree(p)
  {
    if AllOnes(p.rangeEnd) && NoneFree(p) {
      FullAtTopFails(p);
    } else {
      var k := StopExists(p);
      MeetsWhereItStops(p, k);
      if NoneFree(p) { AllTakenGivesUp(p, k); } else { FindsLowest(p, k); }
    }
  }

  lemma NeverPastAllOnes(p: Pool, k: nat)
    requires SameLength(p) && AllOnes(p.rangeEnd)
    ensures !PastEnd(p, k)
  {
    NumBelow(p.rangeEnd);
    NumBelow(Candidate(p, k));
    PastEndIsNumeric(p, k);
  }

  /** The addresses a search from an inverted range may return: its start, and, when the start
      is the all-ones address, everything from zero to the end. */
  predicate Leaks(p: Pool, x: Address) {
    && |x| == |p.rangeStart| && Free(p, x)
    && (x == p.rangeStart || (AllOnes(p.rangeStart) && Num(x) <= Num(p.rangeEnd)))
  }

  /** The candidates of an inverted range after its start. */
  lemma InvertedCandidate(p: Pool, k: nat)
    requires SameLength(p) && Num(p.rangeStart) > Num(p.rangeEnd) && k > 0
    requires AllOnes(p.rangeStart) ==> k <= Num(p.rangeEnd) + 2
    requires !AllOnes(p.rangeStart) ==> k == 1
    ensures Num(Candidate(p, k)) == if AllOnes(p.rangeStart) then k - 1 else Num(p.rangeStart) + 1
  {
    var n := Pow256(|p.rangeStart|);
    NumBelow(p.rangeStart);
    CandidateNumber(p, k);
    if AllOnes(p.rangeStart) {
      DivModUnique(Num(p.rangeStart) + k, n, 1, k - 1);
    } else {
      DivModUnique(Num(p.rangeStart) + 1, n, 0, Num(p.rangeStart) + 1);
    }
  }

  /** A search from an inverted range returns something outside the range exactly when there is
      such an address to return. */
  lemma InvertedRangeLeaks(p: Pool, k: nat)
    requires SameLength(p) && Num(p.rangeStart) > Num(p.rangeEnd) && FirstStop(p, k)
    ensures OutcomeAt(p, k).Some? <==> exists x :: Leaks(p, x)
    ensures OutcomeAt(p, k).Some? ==> Leaks(p, OutcomeAt(p, k).value) && !InRange(p, OutcomeAt(p, k).value)
  {
    if k == 0 {
      assert Leaks(p, p.rangeStart);
    } else {
      assert !Stops(p, 0);
      var last := if AllOnes(p.rangeStart) then Num(p.rangeEnd) + 2 else 1;
      InvertedCandidate(p, last);
      PastEndIsNumeric(p, last);
      assert Stops(p, last);
      assert k <= last;
      InvertedCandidate(p, k);
      PastEndIsNumeric(p, k);
      forall x | Leaks(p, x) ensures !PastEnd(p, k) {
        InvertedCandidate(p, Num(x) + 1);
        NumInjective(Candidate(p, Num(x) + 1), x);
        assert Stops(p, Num(x) + 1);
      }
      if !PastEnd(p, k) { assert Leaks(p, Candidate(p, k)); }
    }
  }

  lemma OneFirstStop(p: Pool, j: nat, k: nat)
    requires FirstStop(p, j) && FirstStop(p, k)
    ensures j == k
  {
  }

  lemma InvertedRangeMeetsIff(p: Pool)
    requires SameLength(p) && Num(p.rangeStart) > Num(p.rangeEnd)
    ensures MeetsSpecification(p) <==> forall x :: !Leaks(p, x)
  {
    NumBelow(p.rangeStart);
    NumBelow(p.rangeEnd);
    var k := StopExists(p);
    InvertedRangeLeaks(p, k);
    MeetsWhereItStops(p, k);
  }

  lemma EqualLengthsMeetIff(p: Pool)
    requires SameLength(p)
    ensures MeetsSpecification(p) <==>
              if Num(p.rangeStart) <= Num(p.rangeEnd) then !AllOnes(p.rangeEnd) || !NoneFree(p)
              else
                && !Free(p, p.rangeStart)
                && (AllOnes(p.rangeStart) ==>
                      forall x :: |x| == |p.rangeStart| && Num(x) <= Num(p.rangeEnd) ==> !Free(p, x))
  {
    if Num(p.rangeStart) <= Num(p.rangeEnd) {
      OrderedRangeMeetsIff(p);
    } else {
      InvertedRangeMeetsIff(p);
      if forall x :: !Leaks(p, x) {
        assert !Leaks(p, p.rangeStart);
        forall x | AllOnes(p.rangeStart) && |x| == |p.rangeStart| && Num(x) <= Num(p.rangeEnd)
          ensures !Free(p, x)
        {
          assert !Leaks(p, x);
        }
      }
    }
  }

  // ---------------------------------------------------------------------------
  // Ends in different forms
  // ---------------------------------------------------------------------------

  /** The last address of its kind: all ones, in the four-byte form if the forms differ. */
  predicate AtTop(p: Pool, ip: Address) { AllOnes(if SameLength(p) then ip else Text(ip)) }

  /** What a search that runs over the top looks at before it sees that it is past the end. */
  predicate Overrun(p: Pool, x: Address) {
    && |x| == |p.rangeStart| && Order(x, p.rangeEnd) <= 0
    && (AllOnes(p.rangeStart) || Num(x) > Num(p.rangeStart))
  }

  /** When the specification is met, as a condition on the pool. */
  ghost predicate InGoodShape(p: Pool) {
    var q := Leveled(p);
    if Num(q.rangeStart) <= Num(q.rangeEnd) then !AtTop(p, p.rangeEnd) || !NoneFree(q)
    else
      && !Free(p, p.rangeStart)
      && (AtTop(p, p.rangeStart) ==> forall x :: Overrun(p, x) ==> !Free(p, x))
  }

  lemma {:induction false} SameCandidates(p: Pool, q: Pool, k: nat)
    requires p.rangeStart == q.rangeStart
    ensures Candidate(p, k) == Candidate(q, k)
  {
    if k > 0 { SameCandidates(p, q, k - 1); }
  }

  /** A four-byte start: the end's four-byte form does as well. */
  lemma FourByteStart(p: Pool)
    requires |p.rangeStart| == 4 && |p.rangeEnd| == 16 && To4(p.rangeEnd).Some?
    ensures MeetsSpecification(p) <==> MeetsSpecification(Leveled(p))
    ensures InGoodShape(p) <==> InGoodShape(Leveled(p))
  {
    var q := Leveled(p);
    forall x: Address | |x| == 4 ensures Order(x, p.rangeEnd) == Order(x, q.rangeEnd) {}
    forall k: nat
      ensures PastEnd(p, k) == PastEnd(q, k) && Stops(p, k) == Stops(q, k) && OutcomeAt(p, k) == OutcomeAt(q, k)
    {
      SameCandidates(p, q, k);
    }
    forall k: nat ensures FirstStop(p, k) == FirstStop(q, k) {}
    forall x ensures Overrun(p, x) == Overrun(q, x) && Free(p, x) == Free(q, x) {}
    forall x ensures LowestFree(Leveled(p), x) == LowestFree(Leveled(q), x) {}
  }

  const Ones: Address := [255, 255, 255, 255]
  const Top: Address := MappedPrefix + Ones

  /** Start in the 16-byte form of IPv4, end in the four-byte form. */
  predicate MappedStart(p: Pool) {
    |p.rangeStart| == 16 && To4(p.rangeStart).Some? && |p.rangeEnd| == 4
  }

  lemma MappedForm(c: Address)
    requires |c| == 16
    ensures To4(c).Some? <==> c[..12] == MappedPrefix
    ensures To4(c).Some? ==> c == MappedPrefix + c[12..] && To4(c).value == c[12..]
  {
    assert c == c[..12] + c[12..];
  }

  lemma {:induction false} FirstDifference(a: Address, b: Address) returns (i: nat)
    requires |a| == |b| && a != b
    ensures i < |a| && a[..i] == b[..i] && a[i] != b[i]
  {
    if a[0] != b[0] {
      i := 0;
    } else {
      assert a == [a[0]] + a[1..] && b == [b[0]] + b[1..];
      var j := FirstDifference(a[1..], b[1..]);
      i := j + 1;
      assert a[..i] == [a[0]] + a[1..][..j] && b[..i] == [b[0]] + b[1..][..j];
    }
  }

  /** Among the 16-byte addresses, the IPv4 ones are an interval that ends at `Top`. */
  lemma MappedInterval(start: Address, c: Address)
    requires |start| == |c| == 16 && To4(start).Some? && Num(start) <= Num(c)
    ensures To4(c).Some? <==> Num(c) <= Num(Top)
  {
    MappedForm(start);
    MappedForm(c);
    if c[..12] == MappedPrefix {
      AtMostTop(c[12..]);
    } else {
      var i := FirstDifference(c[..12], MappedPrefix);
      assert c[..i] == c[..12][..i] && start[..i] == MappedPrefix[..i] && Top[..i] == MappedPrefix[..i];
      if c[i] < MappedPrefix[i] {
        FirstDifferenceDecides(c, start, i);
      } else {
        FirstDifferenceDecides(Top, c, i);
      }
    }
  }

  lemma AtMostTop(ip: Address)
    requires |ip| == 4
    ensures Num(MappedPrefix + ip) <= Num(Top)
    ensures Num(MappedPrefix + ip) == Num(Top) <==> AllOnes(ip)
  {
    SamePrefixSameOrder(MappedPrefix, ip, Ones);
    NumBelow(ip);
    NumBelow(Ones);
  }

  /** On IPv4 addresses, the comparison with a four-byte end is numeric ... */
  lemma MappedOrder(c: Address, end: Address)
    requires |c| == 16 && To4(c).Some? && |end| == 4
    ensures Order(c, end) == Sign(Num(c) - Num(MappedPrefix + end))
  {
    MappedForm(c);
    MappedForm(MappedPrefix + end);
    assert (MappedPrefix + end)[12..] == end && (MappedPrefix + end)[..12] == MappedPrefix;
    assert Order(c, end) == PrefixOrder(c[12..], end) == Order(c, MappedPrefix + end);
    OrderIsNumeric(c, MappedPrefix + end);
  }

  /** ... and on the others it compares the first four bytes. */
  lemma UnmappedOrder(c: Address, end: Address)
    requires |c| == 16 && To4(c).None? && |end| == 4
    ensures Order(c, end) == Sign(Num(c[..4]) - Num(end))
  {
    OrderOfFront(c, end);
    PrefixOrderIsNumeric(c[..4], end);
  }

  lemma {:induction false} OrderOfFront(a: Address, b: Address)
    requires |a| >= |b|
    ensures PrefixOrder(a, b) == PrefixOrder(a[..|b|], b)
  {
    if |b| > 0 {
      OrderOfFront(a[1..], b[1..]);
      assert a[1..][..|b| - 1] == a[..|b|][1..];
    }
  }

  lemma {:induction false} FrontIsMonotone(x: Address, y: Address, n: nat)
    requires |x| == |y| && n <= |x| && Num(x) <= Num(y)
    ensures Num(x[..n]) <= Num(y[..n])
  {
    if n == |x| {
      assert x[..n] == x && y[..n] == y;
    } else {
      var m := |x| - 1;
      FrontIsMonotone(x[..m], y[..m], n);
      assert x[..m][..n] == x[..n] && y[..m][..n] == y[..n];
    }
  }

  lemma {:induction false} NothingPastOnes(a: Address, b: Address)
    requires AllOnes(b)
    ensures PrefixOrder(a, b) <= 0
  {
    if |a| > 0 && |b| > 0 { NothingPastOnes(a[1..], b[1..]); }
  }

  lemma UnwrappedCandidate(p: Pool, k: nat)
    requires Num(p.rangeStart) + k < Pow256(|p.rangeStart|)
    ensures Num(Candidate(p, k)) == Num(p.rangeStart) + k
  {
    CandidateNumber(p, k);
    DivModUnique(Num(p.rangeStart) + k, Pow256(|p.rangeStart|), 0, Num(p.rangeStart) + k);
  }

  lemma OrderUpToTop(p: Pool, c: Address)
    requires MappedStart(p) && |c| == 16 && Num(p.rangeStart) <= Num(c) <= Num(Top)
    ensures Order(c, p.rangeEnd) == Sign(Num(c) - Num(Leveled(p).rangeEnd))
  {
    MappedInterval(p.rangeStart, c);
    MappedOrder(c, p.rangeEnd);
  }

  lemma OrderPastTop(p: Pool, c: Address)
    requires MappedStart(p) && |c| == 16 && Num(p.rangeStart) <= Num(Top) < Num(c)
    ensures Order(c, p.rangeEnd) == Sign(Num(c[..4]) - Num(p.rangeEnd))
  {
    MappedInterval(p.rangeStart, c);
    UnmappedOrder(c, p.rangeEnd);
  }

  /** As long as it has not passed `Top`, the search does as with an end of 16 bytes. */
  lemma SameStep(p: Pool, j: nat)
    requires MappedStart(p) && Num(p.rangeStart) + j <= Num(Top)
    ensures Candidate(p, j) == Candidate(Leveled(p), j) && PastEnd(p, j) == PastEnd(Leveled(p), j)
    ensures Stops(p, j) == Stops(Leveled(p), j)
    ensures PastEnd(p, j) <==> j > 0 && Num(p.rangeStart) + j > Num(Leveled(p).rangeEnd)
  {
    SameCandidates(p, Leveled(p), j);
    PastUpToTop(p, j);
    LeveledPastUpToTop(p, j);
  }

  lemma CandidateUpToTop(p: Pool, j: nat)
    requires |p.rangeStart| == 16 && Num(p.rangeStart) + j <= Num(Top)
    ensures Num(Candidate(p, j)) == Num(p.rangeStart) + j
  {
    NumBelow(Top);
    UnwrappedCandidate(p, j);
  }

  lemma PastUpToTop(p: Pool, j: nat)
    requires MappedStart(p) && Num(p.rangeStart) + j <= Num(Top)
    ensures PastEnd(p, j) <==> j > 0 && Num(p.rangeStart) + j > Num(Leveled(p).rangeEnd)
  {
    CandidateUpToTop(p, j);
    OrderUpToTop(p, Candidate(p, j));
  }

  lemma LeveledPastUpToTop(p: Pool, j: nat)
    requires MappedStart(p) && Num(p.rangeStart) + j <= Num(Top)
    ensures PastEnd(Leveled(p), j) <==> j > 0 && Num(p.rangeStart) + j > Num(Leveled(p).rangeEnd)
  {
    CandidateUpToTop(Leveled(p), j);
    PastEndIsNumeric(Leveled(p), j);
  }

  lemma SameFirstStop(p: Pool, k: nat)
    requires MappedStart(p) && FirstStop(Leveled(p), k) && Num(p.rangeStart) + k <= Num(Top)
    ensures FirstStop(p, k) && OutcomeAt(p, k) == OutcomeAt(Leveled(p), k)
  {
    forall j: nat | j <= k ensures Stops(p, j) == Stops(Leveled(p), j) { SameStep(p, j); }
    SameStep(p, k);
  }

  lemma MappedOrdered(p: Pool)
    requires MappedStart(p) && Num(p.rangeStart) <= Num(Leveled(p).rangeEnd)
    requires !AllOnes(p.rangeEnd) || !NoneFree(Leveled(p))
    ensures MeetsSpecification(p)
  {
    var q := Leveled(p);
    assert q.rangeEnd[0] == 0;
    AtMostTop(p.rangeEnd);
    var k := StopExists(q);
    SearchIsLowestFree(q, k);
    var d := Num(q.rangeEnd) + 1 - Num(q.rangeStart);
    NotWrappedYet(q, d);
    PastEndIsNumeric(q, d);
    assert Stops(q, d) && k <= d;
    NotWrappedYet(q, k);
    PastEndIsNumeric(q, k);
    SameFirstStop(p, k);
    MeetsWhereItStops(p, k);
  }

  lemma MappedFull(p: Pool)
    requires MappedStart(p) && AllOnes(p.rangeEnd) && NoneFree(Leveled(p))
    ensures !MeetsSpecification(p)
  {
    forall k: nat ensures !PastEnd(p, k) {
      var c := Candidate(p, k);
      NothingPastOnes(c, p.rangeEnd);
      if To4(c).Some? { NothingPastOnes(To4(c).value, p.rangeEnd); }
    }
  }

  /** An empty range asks for nothing, so only giving up meets the specification. */
  lemma InvertedMeetsIff(p: Pool, k: nat)
    requires Num(Leveled(p).rangeStart) > Num(Leveled(p).rangeEnd) && FirstStop(p, k)
    ensures MeetsSpecification(p) <==> PastEnd(p, k)
  {
    MeetsWhereItStops(p, k);
    assert NoneFree(Leveled(p));
  }

  lemma MappedInverted(p: Pool)
    requires MappedStart(p) && Num(p.rangeStart) > Num(Leveled(p).rangeEnd)
    requires Free(p, p.rangeStart) || Num(p.rangeStart) < Num(Top)
    ensures MeetsSpecification(p) <==> !Free(p, p.rangeStart)
  {
    assert Candidate(p, 0) == p.rangeStart;
    if Free(p, p.rangeStart) {
      InvertedMeetsIff(p, 0);
    } else {
      SameStep(p, 1);
      InvertedMeetsIff(p, 1);
    }
  }

  /** From `Top` on, the search is past the end once the first four bytes are. */
  lemma BeyondTop(p: Pool, k: nat)
    requires MappedStart(p) && p.rangeStart == Top && k > 0 && Num(Top) + k < Pow256(|p.rangeStart|)
    ensures Num(Candidate(p, k)) == Num(Top) + k
    ensures PastEnd(p, k) <==> Num(Candidate(p, k)[..4]) > Num(p.rangeEnd)
  {
    UnwrappedCandidate(p, k);
    FrontDecides(p, k, Candidate(p, k));
  }

  lemma FrontDecides(p: Pool, k: nat, c: Address)
    requires MappedStart(p) && Num(p.rangeStart) <= Num(Top) < Num(c) && k > 0 && c == Candidate(p, k)
    ensures PastEnd(p, k) <==> Num(c[..4]) > Num(p.rangeEnd)
  {
    OrderPastTop(p, c);
  }

  /** An address the search runs into from `Top`, and where. */
  lemma ReachedFromTop(p: Pool, x: Address) returns (d: nat)
    requires MappedStart(p) && p.rangeStart == Top && Overrun(p, x)
    ensures d > 0 && Num(Top) + d < Pow256(|p.rangeStart|) && Candidate(p, d) == x && !PastEnd(p, d)
  {
    assert Top[0] == 0;
    d := Num(x) - Num(Top);
    NumBelow(x);
    BeyondTop(p, d);
    NumInjective(Candidate(p, d), x);
  }

  lemma StopFromTop(p: Pool) returns (k: nat)
    requires MappedStart(p) && p.rangeStart == Top && !AllOnes(p.rangeEnd) && !Free(p, Top)
    ensures FirstStop(p, k) && k > 0 && Num(Top) + k < Pow256(|p.rangeStart|)
  {
    var last: Address := seq(16, _ => 255);
    LastIsPast(last, p.rangeEnd);
    var d := Num(last) - Num(Top);
    BeyondTop(p, d);
    NumInjective(Candidate(p, d), last);
    k := LeastStop(p, d);
    assert Candidate(p, 0) == Top;
  }

  lemma LastIsPast(last: Address, end: Address)
    requires |last| == 16 && AllOnes(last) && |end| == 4 && !AllOnes(end)
    ensures Num(Top) < Num(last) < Pow256(|last|) && Num(last[..4]) > Num(end)
  {
    NumBelow(last);
    NumBelow(Top);
    assert Top[0] == 0;
    OnesAreLast(last[..4], end);
  }

  lemma OnesAreLast(ones: Address, ip: Address)
    requires |ones| == |ip| && AllOnes(ones) && !AllOnes(ip)
    ensures Num(ones) > Num(ip)
  {
    NumBelow(ones);
    NumBelow(ip);
  }

  lemma InvertedFromTop(p: Pool)
    requires MappedStart(p) && p.rangeStart == Top && !AllOnes(p.rangeEnd) && !Free(p, Top)
    ensures MeetsSpecification(p) <==> forall x :: Overrun(p, x) ==> !Free(p, x)
  {
    var k := StopFromTop(p);
    AtMostTop(p.rangeEnd);
    InvertedMeetsIff(p, k);
    BeyondTop(p, k);
    if PastEnd(p, k) {
      forall x | Overrun(p, x) ensures !Free(p, x) {
        var d := ReachedFromTop(p, x);
        BeyondTop(p, d);
        if k <= d { FrontIsMonotone(Candidate(p, k), x, 4); }
        assert d < k;
        assert !Stops(p, d);
      }
    } else {
      assert Overrun(p, Candidate(p, k));
    }
  }

  lemma MappedStartMeetsIff(p: Pool)
    requires MappedStart(p)
    ensures MeetsSpecification(p) <==> InGoodShape(p)
  {
    var q := Leveled(p);
    MappedForm(p.rangeStart);
    AtMostTop(p.rangeStart[12..]);
    AtMostTop(p.rangeEnd);
    if Num(p.rangeStart) <= Num(q.rangeEnd) {
      if AllOnes(p.rangeEnd) && NoneFree(q) { MappedFull(p); } else { MappedOrdered(p); }
    } else if Free(p, p.rangeStart) || Num(p.rangeStart) < Num(Top) {
      MappedInverted(p);
    } else {
      NumInjective(p.rangeStart, Top);
      InvertedFromTop(p);
    }
  }

  /** The search does what it promises on a range exactly when: the range is in order and
      either does not end at the last address or still has a free address; or it is inverted,
      its start is taken, and if the start is the last address so is everything the search
      then looks at before it is past the end. */
  lemma MeetsSpecificationIff(p: Pool)
    requires Comparable(p)
    ensures MeetsSpecification(p) <==> InGoodShape(p)
  {
    if SameLength(p) {
      EqualLengthsGoodShape(p);
    } else if |p.rangeStart| == 4 {
      FourByteStart(p);
      EqualLengthsGoodShape(Leveled(p));
    } else {
      MappedStartMeetsIff(p);
    }
  }

  lemma EqualLengthsGoodShape(p: Pool)
    requires SameLength(p)
    ensures MeetsSpecification(p) <==> InGoodShape(p)
  {
    EqualLengthsMeetIff(p);
    if AllOnes(p.rangeStart) {
      forall x | |x| == |p.rangeStart| ensures Overrun(p, x) <==> Num(x) <= Num(p.rangeEnd) {
        OrderIsNumeric(x, p.rangeEnd);
      }
    }
  }

  /** A full range ending at the all-ones address: what the search finds, if it ends, lies
      below the start. */
  lemma FullRangeLeaks(p: Pool, k: nat)
    requires SameLength(p) && Num(p.rangeStart) <= Num(p.rangeEnd) && AllOnes(p.rangeEnd)
    requires NoneFree(p) && FirstStop(p, k)
    ensures OutcomeAt(p, k).Some? && Num(OutcomeAt(p, k).value) < Num(p.rangeStart)
  {
    NeverPastAllOnes(p, k);
    NumBelow(p.rangeEnd);
    NumBelow(Candidate(p, k));
    assert InRange(p, Candidate(p, k)) <==> Num(p.rangeStart) <= Num(Candidate(p, k));
  }

  lemma AllOnesWraps(top: Address)
    requires |top| > 0 && AllOnes(top)
    ensures Num(Succ(top)) == 0 && Num(top) > 0 && Text(Succ(top)) != Text(top)
  {
    NumBelow(top);
    SuccIsPlusOne(top);
    DivModUnique(Pow256(|top|), Pow256(|top|), 1, 0);
    TextInjective(top, Succ(top));
  }

  lemma SecondCandidate(p: Pool)
    requires Free(p, Candidate(p, 1)) && !Free(p, p.rangeStart) && !PastEnd(p, 1)
    ensures FirstStop(p, 1) && OutcomeAt(p, 1) == Some(Candidate(p, 1))
  {
    assert Candidate(p, 0) == p.rangeStart;
  }

  /** The one-address range at the top, after its one allocation, hands out the zero address. */
  lemma FullRangeWraps(top: Address, now: int)
    requires |top| > 0 && AllOnes(top)
    ensures var p := Pool(top, top, {}, []);
            && FirstStop(p, 0) && OutcomeAt(p, 0) == Some(top)
            && FirstStop(Grant(p, top, now), 1)
            && OutcomeAt(Grant(p, top, now), 1) == Some(Succ(top))
            && Num(Succ(top)) == 0 && !InRange(p, Succ(top))
  {
    var p := Grant(Pool(top, top, {}, []), top, now);
    assert Candidate(p, 1) == Succ(Candidate(p, 0)) == Succ(top);
    AllOnesWraps(top);
    NeverPastAllOnes(p, 1);
    SecondCandidate(p);
  }

  method CopyOf(ip: Address) returns (copy: array<U8>)
    ensures fresh(copy) && copy[..] == ip
  {
    copy := new U8[|ip|](i requires 0 <= i < |ip| => ip[i]);
  }

  /** The next address, and whether it lies past the end of the range. */
  method Advance(p: Pool, current: array<U8>, ghost k: nat) returns (past: bool)
    requires current[..] == Candidate(p, k)
    modifies current
    ensures current[..] == Candidate(p, k + 1) && past == PastEnd(p, k + 1)
  {
    IncrementIP(current);
    var order := CompareIP(current[..], p.rangeEnd);
    past := order > 0;
  }

  lemma SomeStop(p: Pool) returns (bound: nat)
    requires exists ip :: StopsAt(p, ip)
    ensures Stops(p, bound)
  {
    StopsIff(p);
    bound :| Stops(p, bound);
  }

  lemma PassOver(p: Pool, k: nat, bound: nat)
    requires NoStopBefore(p, k) && !PastEnd(p, k) && !Free(p, Candidate(p, k)) && Stops(p, bound)
    ensures k < bound && NoStopBefore(p, k + 1)
  {
  }

  /** The search loop; `k` counts its steps. The precondition is the exact condition under
      which it ends. */
  method Search(p: Pool) returns (outcome: Option<Address>, ghost k: nat)
    requires exists ip :: StopsAt(p, ip)
    ensures FirstStop(p, k) && outcome == OutcomeAt(p, k)
  {
    ghost var bound := SomeStop(p);
    var current := CopyOf(p.rangeStart);
    k := 0;
    while !Free(p, current[..])
      invariant fresh(current) && current[..] == Candidate(p, k)
      invariant k <= bound && !PastEnd(p, k)
      invariant NoStopBefore(p, k)
      decreases bound - k
    {
      PassOver(p, k, bound);
      var past := Advance(p, current, k);
      k := k + 1;
      if past {
        return None, k;
      }
    }
    outcome := Some(current[..]);
  }

  /** On a well-ordered range whose end is not the all-ones address: the numerically smallest
      free address, or nothing exactly when there is none. */
  method FindAddress(p: Pool) returns (outcome: Option<Address>)
    requires SameLength(p) && Num(p.rangeStart) <= Num(p.rangeEnd) && !AllOnes(p.rangeEnd)
    ensures outcome.None? <==> NoneFree(p)
    ensures outcome.Some? ==> LowestFree(p, outcome.value)
  {
    EndsIff(p);
    StopsIff(p);
    ghost var k;
    outcome, k := Search(p);
    SearchIsLowestFree(p, k);
  }

  // ---------------------------------------------------------------------------
  // The lease book
  // ---------------------------------------------------------------------------

  const LEASE_TIME: int := 24 * 3600 * 1_000_000_000

  function Grant(p: Pool, ip: Address, now: int): Pool {
    p.(taken := p.taken + {Text(ip)}, leases := p.leases + [Lease(ip, now + LEASE_TIME)])
  }

  function Without(leases: seq<Lease>, text: Address): seq<Lease> {
    if |leases| == 0 then []
    else
      var last := leases[|leases| - 1];
      Without(leases[..|leases| - 1], text) + if Text(last.ip) != text then [last] else []
  }

  function Drop(p: Pool, ip: Address): Pool {
    p.(taken := p.taken - {Text(ip)}, leases := Without(p.leases, Text(ip)))
  }

  /** Well-ordered, and not ending at the all-ones address. */
  predicate WellRanged(p: Pool) {
    SameLength(p) && Num(p.rangeStart) <= Num(p.rangeEnd) && !AllOnes(p.rangeEnd)
  }

  function LeaseTexts(leases: seq<Lease>): set<Address> {
    set l | l in leases :: Text(l.ip)
  }

  /** No address is leased twice. */
  ghost predicate Distinct(leases: seq<Lease>) {
    forall i, j :: 0 <= i < j < |leases| ==> leases[i].ip != leases[j].ip
  }

  /** The taken set and the lease book agree, one lease per address, and on a well-ranged
      pool every lease lies in the range. */
  ghost predicate BookAgrees(p: Pool) {
    && p.taken == LeaseTexts(p.leases)
    && Distinct(p.leases)
    && (forall l :: l in p.leases ==> |l.ip| == |p.rangeStart|)
    && (WellRanged(p) ==> forall l :: l in p.leases ==> InRange(p, l.ip))
  }

  lemma GrantKeepsBook(p: Pool, k: nat, now: int)
    requires BookAgrees(p) && FirstStop(p, k) && OutcomeAt(p, k).Some?
    ensures BookAgrees(Grant(p, OutcomeAt(p, k).value, now))
  {
    var ip := OutcomeAt(p, k).value;
    var l := Lease(ip, now + LEASE_TIME);
    var p' := Grant(p, ip, now);
    forall x ensures x in LeaseTexts(p'.leases) <==> x in p'.taken {
      if x in p.taken { var m :| m in p.leases && Text(m.ip) == x; assert m in p'.leases; }
      assert l in p'.leases;
    }
    assert forall m :: m in p.leases ==> Text(m.ip) in p.taken;
    if WellRanged(p) { SearchIsLowestFree(p, k); }
  }

  lemma {:induction false} WithoutKeeps(leases: seq<Lease>, text: Address)
    ensures forall l :: l in Without(leases, text) <==> l in leases && Text(l.ip) != text
  {
    if |leases| > 0 {
      var front, last := leases[..|leases| - 1], leases[|leases| - 1];
      assert leases == front + [last];
      WithoutKeeps(front, text);
    }
  }

  lemma {:induction false} WithoutStaysDistinct(leases: seq<Lease>, text: Address)
    requires Distinct(leases)
    ensures Distinct(Without(leases, text))
  {
    if |leases| > 0 {
      var front, last := leases[..|leases| - 1], leases[|leases| - 1];
      WithoutStaysDistinct(front, text);
      WithoutKeeps(front, text);
      var kept := Without(front, text);
      forall i | 0 <= i < |kept| ensures kept[i].ip != last.ip {
        assert kept[i] in front;
      }
    }
  }

  lemma DropKeepsBook(p: Pool, ip: Address)
    requires BookAgrees(p)
    ensures BookAgrees(Drop(p, ip))
  {
    WithoutKeeps(p.leases, Text(ip));
    WithoutStaysDistinct(p.leases, Text(ip));
    var p' := Drop(p, ip);
    forall x ensures x in LeaseTexts(p'.leases) <==> x in p'.taken {
      if x in p'.taken {
        var m :| m in p.leases && Text(m.ip) == x;
        assert m in p'.leases;
      }
    }
  }

  /** The address released to a pool, in the pool's own byte length. */
  lemma HeldAddress(p: Pool, ip: Address) returns (x: Address)
    requires BookAgrees(p) && WellRanged(p) && Text(ip) in p.taken
    ensures InRange(p, x) && Text(x) == Text(ip)
  {
    var l :| l in p.leases && Text(l.ip) == Text(ip);
    x := l.ip;
  }

  /** Release, then allocate: the next address is the smaller of the released one and the
      one that would have been next; if the pool was exhausted it is the released one. */
  lemma ReleaseThenAllocate(p: Pool, ip: Address, k: nat, k': nat)
    requires BookAgrees(p) && WellRanged(p) && Text(ip) in p.taken
    requires FirstStop(p, k) && FirstStop(Drop(p, ip), k')
    ensures var next := OutcomeAt(Drop(p, ip), k');
            && next.Some?
            && (Text(next.value) == Text(ip) || next == OutcomeAt(p, k))
            && exists x :: InRange(p, x) && Text(x) == Text(ip)
                 && Num(next.value) == if OutcomeAt(p, k).Some? && Num(OutcomeAt(p, k).value) < Num(x)
                                       then Num(OutcomeAt(p, k).value) else Num(x)
  {
    var p' := Drop(p, ip);
    var x := HeldAddress(p, ip);
    SearchIsLowestFree(p, k);
    SearchIsLowestFree(p', k');
    assert InRange(p', x) && Free(p', x);
    forall y | InRange(p, y) ensures Free(p', y) <==> Free(p, y) || y == x { TextInjective(x, y); }
    var next := OutcomeAt(p', k').value;
    assert InRange(p, next);
    if OutcomeAt(p, k).Some? {
      var was := OutcomeAt(p, k).value;
      assert InRange(p', was) && Free(p', was);
      if next != x { NumInjective(next, was); }
    }
  }

  // ---------------------------------------------------------------------------
  // Every run of the manager
  // ---------------------------------------------------------------------------

  datatype Op =
    | AddPool(name: string, rangeStart: Address, rangeEnd: Address)
    | Allocate(name: string, now: int)
    | Release(name: string, ip: Address)

  datatype Reply = Done | Assigned(ip: Address) | PoolExists | PoolNotFound | Exhausted | NotAllocated

  type Pools = map<string, Pool>

  ghost predicate AllocatesFrom(m: Pools, name: string, now: int, k: nat, m': Pools, reply: Reply)
    requires name in m
  {
    && FirstStop(m[name], k)
    && match OutcomeAt(m[name], k)
       case None => m' == m && reply == Exhausted
       case Some(ip) => m' == m[name := Grant(m[name], ip, now)] && reply == Assigned(ip)
  }

  ghost predicate Step(m: Pools, op: Op, m': Pools, reply: Reply) {
    match op
    case AddPool(name, first, last) =>
      if name in m then m' == m && reply == PoolExists
      else m' == m[name := Pool(first, last, {}, [])] && reply == Done
    case Allocate(name, now) =>
      if name !in m then m' == m && reply == PoolNotFound
      else exists k: nat :: AllocatesFrom(m, name, now, k, m', reply)
    case Release(name, ip) =>
      if name !in m then m' == m && reply == PoolNotFound
      else if Text(ip) !in m[name].taken then m' == m && reply == NotAllocated
      else m' == m[name := Drop(m[name], ip)] && reply == Done
  }

  ghost predicate IsRun(states: seq<Pools>, ops: seq<Op>, replies: seq<Reply>) {
    && |states| == |ops| + 1 && |replies| == |ops|
    && states[0] == map[]
    && forall i :: 0 <= i < |ops| ==> Step(states[i], ops[i], states[i + 1], replies[i])
  }

  ghost predicate BooksAgree(m: Pools) {
    forall name :: name in m ==> BookAgrees(m[name])
  }

  lemma StepKeepsBooks(m: Pools, op: Op, m': Pools, reply: Reply)
    requires BooksAgree(m) && Step(m, op, m', reply)
    ensures BooksAgree(m')
    ensures forall name :: name != op.name ==>
              (name in m <==> name in m') && (name in m ==> m'[name] == m[name])
  {
    match op
    case AddPool(name, first, last) =>
    case Allocate(name, now) =>
      if name in m {
        var k: nat :| AllocatesFrom(m, name, now, k, m', reply);
        if OutcomeAt(m[name], k).Some? { GrantKeepsBook(m[name], k, now); }
      }
    case Release(name, ip) =>
      if name in m { DropKeepsBook(m[name], ip); }
  }

  /** After every step of every run, each pool's taken set is the set of its leased
      addresses, no address is leased twice, and well-ranged pools lease only in range. */
  lemma {:induction false} EveryRunKeepsBooks(states: seq<Pools>, ops: seq<Op>, replies: seq<Reply>, n: nat)
    requires IsRun(states, ops, replies) && n < |states|
    ensures BooksAgree(states[n])
  {
    if n > 0 {
      EveryRunKeepsBooks(states, ops, replies, n - 1);
      assert Step(states[n - 1], ops[n - 1], states[n - 1 + 1], replies[n - 1]);
      StepKeepsBooks(states[n - 1], ops[n - 1], states[n], replies[n - 1]);
    }
  }

  // ---------------------------------------------------------------------------
  // What the callers are told
  // ---------------------------------------------------------------------------

  /** Who is told `PoolExists`, `PoolNotFound`, `Exhausted` or `NotAllocated` finds nothing
      changed, and each is told exactly when it is so. */
  lemma RefusalsTell(states: seq<Pools>, ops: seq<Op>, replies: seq<Reply>, i: nat)
    requires IsRun(states, ops, replies) && i < |ops|
    ensures var known := ops[i].name in states[i];
            && (replies[i] == PoolExists <==> ops[i].AddPool? && known)
            && (replies[i] == PoolNotFound <==> !ops[i].AddPool? && !known)
            && (replies[i] == NotAllocated <==>
                  ops[i].Release? && known && !Leased(states[i][ops[i].name], ops[i].ip))
            && (replies[i] in {PoolExists, PoolNotFound, Exhausted, NotAllocated} ==> states[i + 1] == states[i])
            && (ops[i].Allocate? && known ==> replies[i].Assigned? || replies[i] == Exhausted)
            && (ops[i].Allocate? && known && WellRanged(states[i][ops[i].name]) ==>
                  (replies[i] == Exhausted <==> NoneFree(states[i][ops[i].name])))
  {
    assert Step(states[i], ops[i], states[i + 1], replies[i]);
    EveryRunKeepsBooks(states, ops, replies, i);
    if ops[i].name in states[i] {
      var p := states[i][ops[i].name];
      if ops[i].Allocate? {
        var k: nat :| AllocatesFrom(states[i], ops[i].name, ops[i].now, k, states[i + 1], replies[i]);
        if WellRanged(p) { SearchIsLowestFree(p, k); }
      }
      if ops[i].Release? { LeasedIffTaken(p, ops[i].ip); }
    }
  }

  /** Some lease of the pool is for this address, in whatever form. */
  ghost predicate Leased(p: Pool, ip: Address) {
    exists l :: l in p.leases && Text(l.ip) == Text(ip)
  }

  lemma LeasedIffTaken(p: Pool, ip: Address)
    requires BookAgrees(p)
    ensures Leased(p, ip) <==> Text(ip) in p.taken
  {
  }

  /** A new pool has the range it was given and nothing leased. */
  lemma AddedPoolIsEmpty(states: seq<Pools>, ops: seq<Op>, replies: seq<Reply>, i: nat)
    requires IsRun(states, ops, replies) && i < |ops| && ops[i].AddPool? && replies[i] == Done
    ensures ops[i].name !in states[i] && ops[i].name in states[i + 1]
    ensures var p := states[i + 1][ops[i].name];
            p.rangeStart == ops[i].rangeStart && p.rangeEnd == ops[i].rangeEnd && p.taken == {} && p.leases == []
  {
    assert Step(states[i], ops[i], states[i + 1], replies[i]);
  }

  /** The address a caller is told is the one lease that was not there before, for a day; it was
      not taken, and on a well-ranged pool it is the lowest that was free. */
  lemma AssignedIsTheNewLease(states: seq<Pools>, ops: seq<Op>, replies: seq<Reply>, i: nat)
    requires IsRun(states, ops, replies) && i < |ops| && replies[i].Assigned?
    ensures ops[i].Allocate? && ops[i].name in states[i] && ops[i].name in states[i + 1]
    ensures var p, p', ip := states[i][ops[i].name], states[i + 1][ops[i].name], replies[i].ip;
            var lease := Lease(ip, ops[i].now + 86_400_000_000_000);
            && p'.leases == p.leases + [lease]
            && (forall l :: l in p'.leases && l !in p.leases <==> l == lease)
            && !Leased(p, ip) && Text(ip) !in p.taken && p'.taken == p.taken + {Text(ip)}
            && (WellRanged(p) ==> LowestFree(p, ip))
  {
    assert Step(states[i], ops[i], states[i + 1], replies[i]);
    EveryRunKeepsBooks(states, ops, replies, i);
    var name := ops[i].name;
    var k: nat :| AllocatesFrom(states[i], name, ops[i].now, k, states[i + 1], replies[i]);
    LeasedIffTaken(states[i][name], replies[i].ip);
    if WellRanged(states[i][name]) { SearchIsLowestFree(states[i][name], k); }
  }

  lemma {:induction false} WithoutAbsent(leases: seq<Lease>, text: Address)
    requires forall l :: l in leases ==> Text(l.ip) != text
    ensures Without(leases, text) == leases
  {
    if |leases| > 0 {
      var front, last := leases[..|leases| - 1], leases[|leases| - 1];
      WithoutAbsent(front, text);
      assert leases == front + [last];
    }
  }

  lemma {:induction false} WithoutParts(a: seq<Lease>, b: seq<Lease>, text: Address)
    ensures Without(a + b, text) == Without(a, text) + Without(b, text)
  {
    if |b| == 0 {
      assert a + b == a;
    } else {
      var front, last := b[..|b| - 1], b[|b| - 1];
      WithoutParts(a, front, text);
      assert (a + b)[..|a + b| - 1] == a + front && (a + b)[|a + b| - 1] == last;
    }
  }

  lemma WithoutTheLast(a: seq<Lease>, l: Lease, text: Address)
    requires Text(l.ip) == text
    ensures Without(a + [l], text) == Without(a, text)
  {
    assert (a + [l])[..|a|] == a;
  }

  lemma WithoutMiddle(a: seq<Lease>, l: Lease, b: seq<Lease>, text: Address)
    requires Text(l.ip) == text && forall x :: x in a || x in b ==> Text(x.ip) != text
    ensures Without(a + [l] + b, text) == a + b
  {
    WithoutParts(a + [l], b, text);
    WithoutTheLast(a, l, text);
    WithoutAbsent(a, text);
    WithoutAbsent(b, text);
  }

  lemma WithoutOne(leases: seq<Lease>, text: Address, m: nat)
    requires m < |leases| && Text(leases[m].ip) == text
    requires forall j :: 0 <= j < |leases| && j != m ==> Text(leases[j].ip) != text
    ensures Without(leases, text) == leases[..m] + leases[m + 1..]
  {
    var a, l, b := leases[..m], leases[m], leases[m + 1..];
    forall x | x in a || x in b ensures Text(x.ip) != text {
      var j :| 0 <= j < |leases| && j != m && leases[j] == x;
    }
    assert leases == a + [l] + b;
    WithoutMiddle(a, l, b, text);
  }

  /** A release that succeeds takes out the one lease of that address, leaves the others in
      their order, and frees exactly that address. */
  lemma ReleasedIsTheOneLease(states: seq<Pools>, ops: seq<Op>, replies: seq<Reply>, i: nat) returns (m: nat)
    requires IsRun(states, ops, replies) && i < |ops| && ops[i].Release? && replies[i] == Done
    ensures ops[i].name in states[i] && ops[i].name in states[i + 1]
    ensures var p, p' := states[i][ops[i].name], states[i + 1][ops[i].name];
            && m < |p.leases| && Text(p.leases[m].ip) == Text(ops[i].ip)
            && p'.leases == p.leases[..m] + p.leases[m + 1..]
            && p'.taken == p.taken - {Text(ops[i].ip)} && !Leased(p', ops[i].ip)
            && p'.rangeStart == p.rangeStart && p'.rangeEnd == p.rangeEnd
  {
    assert Step(states[i], ops[i], states[i + 1], replies[i]);
    EveryRunKeepsBooks(states, ops, replies, i);
    EveryRunKeepsBooks(states, ops, replies, i + 1);
    var p, text := states[i][ops[i].name], Text(ops[i].ip);
    LeasedIffTaken(p, ops[i].ip);
    LeasedIffTaken(states[i + 1][ops[i].name], ops[i].ip);
    var l :| l in p.leases && Text(l.ip) == text;
    m :| 0 <= m < |p.leases| && p.leases[m] == l;
    forall j | 0 <= j < |p.leases| && j != m ensures Text(p.leases[j].ip) != text {
      assert p.leases[j] in p.leases;
      TextInjective(p.leases[j].ip, l.ip);
    }
    WithoutOne(p.leases, text, m);
  }

  /** Nothing from step n up to step m releases this address to this pool. */
  ghost predicate NotReleased(ops: seq<Op>, n: nat, m: nat, name: string, ip: Address)
    requires m <= |ops|
  {
    forall k :: n <= k < m && ops[k].Release? && ops[k].name == name ==> Text(ops[k].ip) != Text(ip)
  }

  lemma StepKeepsTaken(m: Pools, op: Op, m': Pools, reply: Reply, name: string, ip: Address)
    requires Step(m, op, m', reply) && name in m && Text(ip) in m[name].taken
    requires op.Release? && op.name == name ==> Text(op.ip) != Text(ip)
    ensures name in m' && Text(ip) in m'[name].taken
  {
    if op.Allocate? && op.name in m {
      var k: nat :| AllocatesFrom(m, op.name, op.now, k, m', reply);
    }
  }

  lemma {:induction false} StaysTaken(
    states: seq<Pools>, ops: seq<Op>, replies: seq<Reply>, n: nat, m: nat, name: string, ip: Address)
    requires IsRun(states, ops, replies) && n <= m <= |ops| && NotReleased(ops, n, m, name, ip)
    requires name in states[n] && Text(ip) in states[n][name].taken
    ensures name in states[m] && Text(ip) in states[m][name].taken
    decreases m
  {
    if n < m {
      StaysTaken(states, ops, replies, n, m - 1, name, ip);
      assert Step(states[m - 1], ops[m - 1], states[m - 1 + 1], replies[m - 1]);
      StepKeepsTaken(states[m - 1], ops[m - 1], states[m], replies[m - 1], name, ip);
    }
  }

  /** Two callers of one pool are never told the same address, unless it was released in
      between. */
  lemma AssignedOnce(states: seq<Pools>, ops: seq<Op>, replies: seq<Reply>, i: nat, j: nat)
    requires IsRun(states, ops, replies) && i < j < |ops| && ops[i].name == ops[j].name
    requires replies[i].Assigned? && replies[j].Assigned?
    requires NotReleased(ops, i + 1, j, ops[i].name, replies[i].ip)
    ensures Text(replies[i].ip) != Text(replies[j].ip)
  {
    AssignedIsTheNewLease(states, ops, replies, i);
    AssignedIsTheNewLease(states, ops, replies, j);
    StaysTaken(states, ops, replies, i + 1, j, ops[i].name, replies[i].ip);
  }

  class DHCPManager {
    var pools: Pools

    constructor ()
      ensures pools == map[]
    {
      pools := map[];
    }

    method AddPool(name: string, rangeStart: Address, rangeEnd: Address) returns (reply: Reply)
      modifies this
      ensures Step(old(pools), Op.AddPool(name, rangeStart, rangeEnd), pools, reply)
    {
      if name in pools {
        return PoolExists;
      }
      pools := pools[name := Pool(rangeStart, rangeEnd, {}, [])];
      reply := Done;
    }

    /** The precondition is the exact condition under which the search loop ends. */
    method AllocateIP(name: string, now: int) returns (reply: Reply)
      requires name in pools ==> exists ip :: StopsAt(pools[name], ip)
      modifies this
      ensures Step(old(pools), Allocate(name, now), pools, reply)
    {
      if name !in pools {
        return PoolNotFound;
      }
      var outcome, k := Search(pools[name]);
      if outcome.None? {
        reply := Exhausted;
      } else {
        pools := pools[name := Grant(pools[name], outcome.value, now)];
        reply := Assigned(outcome.value);
      }
      assert AllocatesFrom(old(pools), name, now, k, pools, reply);
    }

    method ReleaseIP(name: string, ip: Address) returns (reply: Reply)
      modifies this
      ensures Step(old(pools), Release(name, ip), pools, reply)
    {
      if name !in pools {
        return PoolNotFound;
      }
      var p := pools[name];
      var text := Text(ip);
      if text !in p.taken {
        return NotAllocated;
      }
      var kept: seq<Lease> := [];
      for i := 0 to |p.leases|
        invariant kept == Without(p.leases[..i], text)
      {
        assert p.leases[..i + 1][..i] == p.leases[..i];
        if Text(p.leases[i].ip) != text {
          kept := kept + [p.leases[i]];
        }
      }
      assert p.leases[..|p.leases|] == p.leases;
      pools := pools[name := p.(taken := p.taken - {text}, leases := kept)];
      reply := Done;
    }

    method ListLeases(name: string) returns (leases: seq<Lease>)
      requires BooksAgree(pools)
      ensures name !in pools ==> leases == []
      ensures name in pools ==> LeaseTexts(leases) == pools[name].taken && leases == pools[name].leases
    {
      leases := if name in pools then pools[name].leases else [];
    }
  }
}
