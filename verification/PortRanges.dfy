/**
 Compiling port ranges to value/mask pairs in 16-bit arithmetic.
 */
module PortRanges {
  import opened Uint16
  import opened PolicyRules

  /** The i leading bits set. */
  method PosToMask(pos: nat) returns (ret: uint16)
    requires pos <= 16
    ensures ret == Modulus - Pow2(16 - pos)
  {
    ret := 0xffff;
    Pow2Values();
    var i := 16;
    while i > pos
      invariant pos <= i <= 16
      invariant ret == Modulus - Pow2(16 - i)
    {
      if 16 - i < 15 { Pow2Monotone(16 - i, 15); }
      assert Shl(ret, 1) == 2 * Shl(ret, 0);
      ret := ShiftLeft(ret, 1);
      i := i - 1;
    }
  }

  predicate PortMatches(r: RulePort, p: uint16) {
    r.dstPort == 0 || MatchPort(r.dstPortMask, r.dstPort, p)
  }

  predicate SomeMatches(rs: seq<RulePort>, p: uint16) {
    exists i :: 0 <= i < |rs| && PortMatches(rs[i], p)
  }

  /** No port is matched by two entries of the list. */
  ghost predicate PairwiseDisjoint(rs: seq<RulePort>) {
    forall i, j, p: uint16 :: 0 <= i < j < |rs| && PortMatches(rs[i], p) ==> !PortMatches(rs[j], p)
  }

  predicate DestinationOnly(r: RulePort, protocol: Protocol) {
    r.srcPort == 0 && r.srcPortMask == 0 && r.srcPortName == "" && r.dstPortName == "" && r.protocol == protocol
  }

  /** Appending the block [b, b+size) to a list that covers [lo, b). */
  lemma AppendBlock(rs: seq<RulePort>, r: RulePort, lo: int, b: int, size: int)
    requires forall p: uint16 :: SomeMatches(rs, p) <==> lo <= p < b
    requires forall p: uint16 :: PortMatches(r, p) <==> b <= p < b + size
    requires PairwiseDisjoint(rs) && lo <= b && size >= 0
    ensures forall p: uint16 :: SomeMatches(rs + [r], p) <==> lo <= p < b + size
    ensures PairwiseDisjoint(rs + [r])
  {
    var rs' := rs + [r];
    forall p: uint16
      ensures SomeMatches(rs', p) <==> lo <= p < b + size
    {
      if SomeMatches(rs, p) {
        var i :| 0 <= i < |rs| && PortMatches(rs[i], p);
        assert rs'[i] == rs[i];
      }
      assert rs'[|rs|] == r;
    }
    forall i, j, p: uint16 | 0 <= i < j < |rs'| && PortMatches(rs'[i], p)
      ensures !PortMatches(rs'[j], p)
    {
      assert rs[i] == rs'[i];
      assert SomeMatches(rs, p);
    }
  }

  /** The aligned block emitted for position i matches exactly its 2^(16-i) ports. */
  lemma BlockMatches(r: RulePort, odd: nat, pos: nat, i: nat)
    requires 1 <= pos <= i <= 16 && r.dstPort == Shl(odd, 16 - pos) != 0
    requires Pow2(16 - i) <= 0x8000 && r.dstPortMask == Modulus - Pow2(16 - i)
    ensures forall p: uint16 :: PortMatches(r, p) <==> r.dstPort <= p < r.dstPort + Pow2(16 - i)
  {
    ShlTwice(odd, i - pos, 16 - i);
    forall p: uint16
      ensures PortMatches(r, p) <==> r.dstPort <= p < r.dstPort + Pow2(16 - i)
    {
      MaskedBlock(Shl(odd, i - pos), 16 - i, p);
    }
  }

  /** The size test of calPortRangeMask does not suffer from the wrap. */
  lemma BlockFits(begin: uint16, odd: nat, pos: nat, i: nat)
    requires 1 <= pos <= i <= 16 && begin == Shl(odd, 16 - pos)
    ensures Pow2(16 - i) <= 0x8000 && ShiftLeft(1, 16 - i) == Pow2(16 - i)
    ensures begin + Pow2(16 - i) <= Modulus
    ensures Minus(Plus(begin, ShiftLeft(1, 16 - i)), 1) == begin + Pow2(16 - i) - 1
  {
    Pow2Below(16 - i);
    ShlTwice(odd, i - pos, 16 - i);
    AlignedFits(Shl(odd, i - pos), 16 - i);
    NoWrap(begin, Pow2(16 - i));
  }

  lemma NoWrap(begin: uint16, size: uint16)
    requires size >= 1 && begin + size <= Modulus
    ensures Minus(Plus(begin, size), 1) == begin + size - 1
  {
  }

  /** Blocks strictly grow up to a peak and strictly shrink from there on; a larger block has a smaller mask. */
  ghost predicate RisesThenFalls(rs: seq<RulePort>, peak: nat) {
    && peak <= |rs|
    && (forall i, j :: 0 <= i < j < peak ==> rs[i].dstPortMask > rs[j].dstPortMask)
    && (forall i, j :: peak <= i < j < |rs| ==> rs[i].dstPortMask < rs[j].dstPortMask)
  }

  /**
   Why the list stays short: while blocks grow, all of them are smaller than the
   alignment of the next port; once a block is smaller than the alignment allows,
   what remains is shorter than that block.
   */
  datatype Phase = Growing(k: nat, q: nat) | Shrinking(k: nat, q: nat, peak: nat)
  {
    ghost predicate Bounds(rs: seq<RulePort>, next: nat, end: uint16) {
      && next == Shl(q, k)
      && (Growing? ==>
            && |rs| <= k <= 16 && RisesThenFalls(rs, |rs|)
            && forall i :: 0 <= i < |rs| ==> rs[i].dstPortMask > Modulus - Pow2(k))
      && (Shrinking? ==>
            && |rs| + k <= 30 && end + 1 < next + Pow2(k)
            && RisesThenFalls(rs, peak) && peak < |rs| && rs[|rs| - 1].dstPortMask == Modulus - Pow2(k))
    }
  }

  /** A block of full alignment: the next port is aligned further. */
  lemma NextGrowing(odd: nat, k: nat)
    requires odd % 2 == 1
    ensures Shl(odd, k) + Pow2(k) == Shl((odd + 1) / 2, k + 1)
  {
    ShlAdds(odd, 1, k);
    ShlTwice((odd + 1) / 2, 1, k);
    assert Shl((odd + 1) / 2, 1) == 2 * Shl((odd + 1) / 2, 0);
  }

  /** A smaller block: the next port is aligned to that block. */
  lemma NextShrinking(odd: nat, t: nat, k: nat)
    requires k <= t
    ensures Shl(odd, t) + Pow2(k) == Shl(Shl(odd, t - k) + 1, k)
  {
    ShlTwice(odd, t - k, k);
    ShlAdds(Shl(odd, t - k), 1, k);
  }

  lemma Pow2Order(j: nat, k: nat)
    ensures j < k <==> Pow2(j) < Pow2(k)
  {
    if j < k { Pow2Monotone(j, k); }
    if k < j { Pow2Monotone(k, j); }
  }

  lemma Rises(phase: Phase, rs: seq<RulePort>, r: RulePort, next: nat, end: uint16, odd: nat, k: nat)
    requires phase.Growing? && phase.Bounds(rs, next, end) && odd % 2 == 1 && next == Shl(odd, k) && k <= 15
    requires r.dstPortMask == Modulus - Pow2(k)
    ensures Growing(k + 1, (odd + 1) / 2).Bounds(rs + [r], next + Pow2(k), end)
  {
    HighestPower(odd, k, phase.q, phase.k);
    NextGrowing(odd, k);
    Pow2Order(k, phase.k);
    Pow2Order(k, k + 1);
  }

  lemma Turns(phase: Phase, rs: seq<RulePort>, r: RulePort, next: nat, end: uint16, odd: nat, t: nat, k: nat)
    requires phase.Growing? && phase.Bounds(rs, next, end) && odd % 2 == 1 && next == Shl(odd, t) && k < t <= 15
    requires r.dstPortMask == Modulus - Pow2(k) && end + 1 < next + 2 * Pow2(k)
    ensures Shrinking(k, Shl(odd, t - k) + 1, |rs|).Bounds(rs + [r], next + Pow2(k), end)
  {
    HighestPower(odd, t, phase.q, phase.k);
    NextShrinking(odd, t, k);
  }

  lemma Falls(phase: Phase, rs: seq<RulePort>, r: RulePort, next: nat, end: uint16, odd: nat, t: nat, k: nat)
    requires phase.Shrinking? && phase.Bounds(rs, next, end) && odd % 2 == 1 && next == Shl(odd, t) && k <= t <= 15
    requires r.dstPortMask == Modulus - Pow2(k) && next + Pow2(k) <= end + 1 && (k < t ==> end + 1 < next + 2 * Pow2(k))
    ensures k < t && Shrinking(k, Shl(odd, t - k) + 1, phase.peak).Bounds(rs + [r], next + Pow2(k), end)
  {
    HighestPower(odd, t, phase.q, phase.k);
    Pow2Order(k, phase.k);
    NextShrinking(odd, t, k);
    FallsOn(rs, phase.peak, r);
  }

  lemma FallsOn(rs: seq<RulePort>, peak: nat, r: RulePort)
    requires RisesThenFalls(rs, peak) && peak < |rs| && rs[|rs| - 1].dstPortMask < r.dstPortMask
    ensures RisesThenFalls(rs + [r], peak)
  {
    var rs' := rs + [r];
    forall i, j | peak <= i < j < |rs'|
      ensures rs'[i].dstPortMask < rs'[j].dstPortMask
    {
      if j == |rs| && i < |rs| - 1 { assert rs[i].dstPortMask < rs[|rs| - 1].dstPortMask; }
    }
  }

  /** A new block: larger than all before it, or the first one past the peak, or smaller than the one before it. */
  lemma NextPhase(phase: Phase, rs: seq<RulePort>, r: RulePort, next: nat, end: uint16, odd: nat, t: nat, k: nat)
    returns (phase': Phase)
    requires phase.Bounds(rs, next, end) && odd % 2 == 1 && next == Shl(odd, t) && k <= t <= 15
    requires r.dstPortMask == Modulus - Pow2(k) && next + Pow2(k) <= end + 1 && (k < t ==> end + 1 < next + 2 * Pow2(k))
    ensures phase'.Bounds(rs + [r], next + Pow2(k), end)
  {
    if phase.Shrinking? {
      Falls(phase, rs, r, next, end, odd, t, k);
      phase' := Shrinking(k, Shl(odd, t - k) + 1, phase.peak);
    } else if k < t {
      Turns(phase, rs, r, next, end, odd, t, k);
      phase' := Shrinking(k, Shl(odd, t - k) + 1, |rs|);
    } else {
      Rises(phase, rs, r, next, end, odd, k);
      phase' := Growing(k + 1, (odd + 1) / 2);
    }
  }

  /** Finds the rightmost 1 of begin. */
  method OddPart(begin: uint16) returns (temp: uint16, pos: nat)
    requires begin != 0
    ensures 1 <= pos <= 16 && temp % 2 == 1 && begin == Shl(temp, 16 - pos)
  {
    temp, pos := begin, 16;
    while temp % 2 != 1
      invariant 1 <= pos <= 16 && temp != 0 && begin == Shl(temp, 16 - pos)
      decreases temp
    {
      ShlTwice(temp / 2, 1, 16 - pos);
      assert Shl(temp / 2, 1) == temp;
      if pos == 1 {
        Pow2Values();
        ShlApart(1, temp, 15);
      }
      temp := temp / 2;
      pos := pos - 1;
    }
  }

  /** One turn of calPortRangeMask's outer loop: the largest aligned block that fits. */
  method FirstBlock(begin: uint16, end: uint16, protocol: Protocol)
    returns (r: RulePort, size: uint16, ghost odd: nat, ghost t: nat, ghost k: nat)
    requires 1 <= begin <= end
    ensures k <= t <= 15 && odd % 2 == 1 && begin == Shl(odd, t)
    ensures size == Pow2(k) && begin + size <= end + 1 && (k < t ==> end + 1 < begin + 2 * size)
    ensures r.dstPortMask == Modulus - size && DestinationOnly(r, protocol)
    ensures forall p: uint16 :: PortMatches(r, p) <==> begin <= p < begin + size
  {
    var temp, start := OddPart(begin);
    var shift := start;
    BlockFits(begin, temp, start, shift);
    while !(end >= Minus(Plus(begin, ShiftLeft(1, 16 - shift)), 1))
      invariant start <= shift <= 16
      invariant Pow2(16 - shift) <= 0x8000 && ShiftLeft(1, 16 - shift) == Pow2(16 - shift)
      invariant Minus(Plus(begin, ShiftLeft(1, 16 - shift)), 1) == begin + Pow2(16 - shift) - 1
      invariant shift > start ==> end + 1 < begin + 2 * Pow2(16 - shift)
      decreases 16 - shift
    {
      shift := shift + 1;
      BlockFits(begin, temp, start, shift);
    }
    var mask := PosToMask(shift);
    r := RulePort(0, begin, 0, mask, "", "", protocol);
    BlockMatches(r, temp, start, shift);
    size := ShiftLeft(1, 16 - shift);
    odd, t, k := temp, 16 - start, 16 - shift;
  }

  /** What the list covers once all ports below next are done. */
  ghost predicate Covers(rs: seq<RulePort>, first: uint16, next: nat, protocol: Protocol) {
    && (forall p: uint16 :: SomeMatches(rs, p) <==> first <= p < next)
    && PairwiseDisjoint(rs) && first <= next
    && forall i :: 0 <= i < |rs| ==> DestinationOnly(rs[i], protocol)
  }

  /** The body of the outer loop. */
  method AppendFirst(rs: seq<RulePort>, first: uint16, begin: uint16, end: uint16, protocol: Protocol,
                     ghost phase: Phase)
    returns (rs': seq<RulePort>, size: uint16, ghost phase': Phase)
    requires 1 <= first <= begin <= end && Covers(rs, first, begin, protocol) && phase.Bounds(rs, begin, end)
    ensures size > 0 && begin + size <= end + 1
    ensures Covers(rs', first, begin + size, protocol) && phase'.Bounds(rs', begin + size, end)
  {
    var r, s, odd, t, k := FirstBlock(begin, end, protocol);
    AppendBlock(rs, r, first, begin, s);
    phase' := NextPhase(phase, rs, r, begin, end, odd, t, k);
    rs', size := rs + [r], s;
  }

  /**
   The outer loop. `next` is begin without the wrap: begin runs to end + 1, which
   is 0 in 16 bits when end is 65535.
   */
  method CoverRange(first: uint16, end: uint16, protocol: Protocol)
    returns (rs: seq<RulePort>, ghost next: nat, ghost phase: Phase)
    ensures Covers(rs, first, next, protocol) && phase.Bounds(rs, next, end)
    ensures next == if 1 <= first <= end then end + 1 else first
  {
    rs := [];
    var begin := first;
    next, phase := first, Growing(0, first);
    while begin <= end && begin != 0
      invariant next == begin || (begin == 0 && next == Modulus == end + 1 && first >= 1)
      invariant next == first || (1 <= first < next <= end + 1)
      invariant Covers(rs, first, next, protocol) && phase.Bounds(rs, next, end)
      decreases Modulus - next
    {
      var size;
      rs, size, phase := AppendFirst(rs, first, begin, end, protocol, phase);
      next := next + size;
      begin := Plus(begin, size);
    }
  }

  lemma Short(phase: Phase, rs: seq<RulePort>, next: nat, end: uint16)
    requires phase.Bounds(rs, next, end)
    ensures |rs| <= 30 && exists peak :: RisesThenFalls(rs, peak)
  {
    assert RisesThenFalls(rs, if phase.Growing? then |rs| else phase.peak);
  }

  /** calPortRangeMask. */
  method CalPortRangeMask(first: uint16, end: uint16, protocol: Protocol) returns (rs: seq<RulePort>)
    ensures first == 0 && end == 0 ==> rs == [AllPorts.(protocol := protocol)]
    ensures first == 0 && end > 0 ==> rs == []
    ensures first >= 1 ==> forall p: uint16 :: SomeMatches(rs, p) <==> first <= p <= end
    ensures PairwiseDisjoint(rs) && |rs| <= 30 && exists peak :: RisesThenFalls(rs, peak)
    ensures forall i :: 0 <= i < |rs| ==> DestinationOnly(rs[i], protocol)
  {
    if first == 0 && end == 0 {
      rs := [AllPorts.(protocol := protocol)];
      assert RisesThenFalls(rs, 1);
      return;
    }
    ghost var next, phase;
    rs, next, phase := CoverRange(first, end, protocol);
    Short(phase, rs, next, end);
    NothingCovered(rs, first, next, protocol);
  }

  lemma NothingCovered(rs: seq<RulePort>, first: uint16, next: nat, protocol: Protocol)
    requires Covers(rs, first, next, protocol)
    ensures next == first ==> rs == []
  {
    if rs != [] { assert PortMatches(rs[0], rs[0].dstPort) && SomeMatches(rs, rs[0].dstPort); }
  }
}
