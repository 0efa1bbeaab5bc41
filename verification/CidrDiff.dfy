/**
 Subtracting CIDRs: ParseIPBlock turns an IP block with exceptions into the
 CIDRs that cover the block without the exceptions.
 */
module CidrDiff {
  import opened Strings

  /** Addresses are bit strings, most significant bit first, after To4: an IPv4-mapped address has 32 bits. */
  type Address = seq<bool>

  /** A network is an address and a prefix length; a mapped one is an IPv4 network in its 16-byte form. */
  datatype IPNet = IPNet(ip: Address, prefix: nat, mapped: bool)

  predicate IsNet(n: IPNet) { n.prefix <= |n.ip| && (|n.ip| == 32 || (|n.ip| == 128 && !n.mapped)) }

  /** Mask.Size(): the 16-byte form has 96 more leading ones. */
  function MaskSize(n: IPNet): nat { if n.mapped then n.prefix + 96 else n.prefix }

  /** IPNet.Contains; addresses of another family are never contained. */
  predicate Contains(n: IPNet, a: Address)
    requires IsNet(n)
  {
    |a| == |n.ip| && a[..n.prefix] == n.ip[..n.prefix]
  }

  /** IP.Mask. */
  function Masked(ip: Address, prefix: nat): Address
    requires prefix <= |ip|
  {
    ip[..prefix] + seq(|ip| - prefix, _ => false)
  }

  /** As net.ParseCIDR returns it: the host bits are zero. */
  predicate IsCanonical(n: IPNet) { IsNet(n) && n.ip == Masked(n.ip, n.prefix) }

  predicate AllCanonical(ns: seq<IPNet>) { forall i :: 0 <= i < |ns| ==> IsCanonical(ns[i]) }

  predicate Covered(ns: seq<IPNet>, a: Address)
    requires AllCanonical(ns)
  {
    exists i :: 0 <= i < |ns| && Contains(ns[i], a)
  }

  /** No address lies in two of the networks. */
  ghost predicate Disjoint(ns: seq<IPNet>)
    requires AllCanonical(ns)
  {
    forall i, j, a :: 0 <= i < j < |ns| && Contains(ns[i], a) ==> !Contains(ns[j], a)
  }

  /** bitIndex counts from the least significant bit. */
  function FlipSingleBit(ip: Address, bitIndex: nat): Address
    requires bitIndex < |ip|
  {
    ip[|ip| - 1 - bitIndex := !ip[|ip| - 1 - bitIndex]]
  }

  function BitOr(a: Address, b: Address): Address
    requires |a| == |b|
  {
    seq(|a|, i requires 0 <= i < |a| => a[i] || b[i])
  }

  /** The block of addresses that leave the excepted network at bit i - 1. */
  function Sibling(allow: IPNet, except: IPNet, i: nat): IPNet
    requires IsNet(allow) && IsNet(except) && |allow.ip| == |except.ip| && 1 <= i <= |except.ip|
  {
    var flipped := FlipSingleBit(Masked(except.ip, except.prefix), |except.ip| - i);
    IPNet(Masked(BitOr(Masked(allow.ip, allow.prefix), flipped), i), i, false)
  }

  /** The index arithmetic of flipSingleBit, in bytes: whether its write stays inside the address. */
  predicate FlipInRange(except: IPNet, bits: nat, i: nat) {
    var bytes := if except.mapped then 16 else |except.ip| / 8;
    var bitIndex := (bits - i) % 256;
    (bytes - bitIndex / 8 - 1) % 256 < bytes
  }

  lemma FlipInRangeIff(except: IPNet, i: nat)
    requires IsNet(except) && 1 <= i <= MaskSize(except)
    ensures FlipInRange(except, |except.ip|, i) <==> i <= |except.ip|
  {
    if |except.ip| == 32 && i > 32 { assert (32 - i) % 256 == 288 - i; }
  }

  lemma SiblingContains(allow: IPNet, except: IPNet, i: nat, a: Address)
    requires IsCanonical(allow) && IsCanonical(except) && |allow.ip| == |except.ip|
    requires Contains(allow, except.ip) && allow.prefix < i <= except.prefix
    ensures IsCanonical(Sibling(allow, except, i))
    ensures Contains(Sibling(allow, except, i), a)
       <==> |a| == |except.ip| && a[..i - 1] == except.ip[..i - 1] && a[i - 1] != except.ip[i - 1]
  {
    var flipped := FlipSingleBit(except.ip, |except.ip| - i);
    var ored := BitOr(allow.ip, flipped);
    forall k | 0 <= k < |ored|
      ensures ored[k] == flipped[k]
    {
      if k < allow.prefix { assert allow.ip[..allow.prefix][k] == except.ip[..allow.prefix][k]; }
    }
    assert ored == flipped;
    var s := Sibling(allow, except, i);
    assert s.ip[..i] == flipped[..i];
    assert flipped[..i] == except.ip[..i - 1] + [!except.ip[i - 1]];
    if |a| == |except.ip| { assert a[..i] == a[..i - 1] + [a[i - 1]]; }
  }

  /**
   Where diffFromCIDR panics: make with a negative capacity if the exception is
   larger, and flipSingleBit's index if a 16-byte exception meets 32-bit counting.
   */
  predicate DiffPanics(allow: IPNet, except: IPNet) {
    MaskSize(except) < MaskSize(allow) || (except.mapped && MaskSize(allow) < MaskSize(except))
  }

  /** What diffFromCIDR has collected before bit i, on networks of the usual form. */
  ghost predicate Collected(allow: IPNet, except: IPNet, i: nat, ns: seq<IPNet>)
    requires IsCanonical(allow) && IsCanonical(except)
    requires allow.prefix <= i <= except.prefix && |allow.ip| == |except.ip|
  {
    && AllCanonical(ns) && Disjoint(ns) && (forall k :: 0 <= k < |ns| ==> ns[k].prefix <= i && !ns[k].mapped)
    && forall a :: Covered(ns, a) <==> Contains(allow, a) && a[..i] != except.ip[..i]
  }

  lemma CollectedAll(allow: IPNet, except: IPNet, ns: seq<IPNet>)
    requires IsCanonical(allow) && IsCanonical(except) && Contains(allow, except.ip) && allow.prefix <= except.prefix
    requires Collected(allow, except, except.prefix, ns)
    ensures forall a :: Covered(ns, a) <==> Contains(allow, a) && !Contains(except, a)
  {
  }

  lemma SameNet(allow: IPNet, except: IPNet)
    requires IsNet(allow) && IsNet(except) && Contains(allow, except.ip) && MaskSize(allow) == MaskSize(except)
    ensures forall a :: Contains(allow, a) <==> Contains(except, a)
  {
  }

  /** diffFromCIDR; None is a panic. */
  method DiffFromCIDR(allow: IPNet, except: IPNet) returns (r: Option<seq<IPNet>>)
    requires IsCanonical(allow) && IsCanonical(except) && Contains(allow, except.ip)
    ensures r.None? <==> DiffPanics(allow, except)
    ensures r.Some? ==> AllCanonical(r.value) && Disjoint(r.value)
    ensures r.Some? ==> forall i :: 0 <= i < |r.value| ==> SmallPiece(r.value[i], allow, except)
    ensures r.Some? ==> forall a :: Covered(r.value, a) <==> Contains(allow, a) && !Contains(except, a)
  {
    if MaskSize(except) < MaskSize(allow) {
      return None;
    }
    // To4 is non-nil for both forms of an IPv4 network
    var bits := |allow.ip|;
    var remaining: seq<IPNet> := [];
    var i := MaskSize(allow);
    while i < MaskSize(except)
      invariant MaskSize(allow) <= i <= MaskSize(except) && (i > MaskSize(allow) ==> i <= bits)
      invariant i == MaskSize(allow) ==> remaining == []
      invariant !allow.mapped && !except.mapped ==> Collected(allow, except, i, remaining)
    {
      i := i + 1;
      FlipInRangeIff(except, i);
      if !FlipInRange(except, bits, i) {
        return None;
      }
      if !allow.mapped && !except.mapped { SiblingAdds(allow, except, i, remaining); }
      remaining := remaining + [Sibling(allow, except, i)];
    }
    if allow.mapped || except.mapped {
      SameNet(allow, except);
    } else {
      CollectedAll(allow, except, remaining);
    }
    r := Some(remaining);
  }

  /** A piece of a block: only networks of the usual form fall into pieces. */
  predicate SmallPiece(n: IPNet, b: IPNet, e: IPNet) { n.prefix <= e.prefix && !n.mapped && !b.mapped && !e.mapped }

  lemma SiblingAdds(allow: IPNet, except: IPNet, i: nat, ns: seq<IPNet>)
    requires IsCanonical(allow) && IsCanonical(except)
    requires Contains(allow, except.ip) && allow.prefix < i <= except.prefix
    requires Collected(allow, except, i - 1, ns)
    ensures Collected(allow, except, i, ns + [Sibling(allow, except, i)])
  {
    var s := Sibling(allow, except, i);
    SiblingContains(allow, except, i, except.ip);
    forall a
      ensures Contains(s, a) ==> !Covered(ns, a)
      ensures Covered(ns, a) || Contains(s, a) <==> Contains(allow, a) && a[..i] != except.ip[..i]
    {
      SiblingContains(allow, except, i, a);
      if |a| == |except.ip| {
        assert a[..i] == a[..i - 1] + [a[i - 1]] && except.ip[..i] == except.ip[..i - 1] + [except.ip[i - 1]];
        if a[..i - 1] == except.ip[..i - 1] { PrefixOf(a, except.ip, allow.prefix, i - 1); }
      }
    }
    AppendNet(ns, s);
  }

  lemma PrefixOf(a: Address, b: Address, short: nat, long: nat)
    requires short <= long <= |a| && |a| == |b| && a[..long] == b[..long]
    ensures a[..short] == b[..short]
  {
  }

  lemma AppendNet(ns: seq<IPNet>, s: IPNet)
    requires AllCanonical(ns) && IsCanonical(s) && Disjoint(ns)
    requires forall a :: Contains(s, a) ==> !Covered(ns, a)
    ensures AllCanonical(ns + [s]) && Disjoint(ns + [s])
    ensures forall a :: Covered(ns + [s], a) <==> Covered(ns, a) || Contains(s, a)
  {
    var ns' := ns + [s];
    assert forall k :: 0 <= k < |ns| ==> ns'[k] == ns[k];
    assert ns'[|ns|] == s;
    forall a
      ensures Covered(ns', a) <==> Covered(ns, a) || Contains(s, a)
    {
      if Covered(ns, a) {
        var k :| 0 <= k < |ns| && Contains(ns[k], a);
        assert Contains(ns'[k], a);
      }
    }
  }

  /** The two tests of DiffFromCIDRs' inner loop. */
  predicate Touches(b: IPNet, e: IPNet)
    requires IsNet(b) && IsNet(e)
  {
    Contains(b, e.ip) || Contains(e, b.ip)
  }

  lemma OwnAddress(n: IPNet)
    requires IsNet(n)
    ensures Contains(n, n.ip)
  {
  }

  lemma ConcatNets(xs: seq<IPNet>, ys: seq<IPNet>)
    requires AllCanonical(xs) && AllCanonical(ys)
    ensures AllCanonical(xs + ys)
    ensures forall a :: Covered(xs + ys, a) <==> Covered(xs, a) || Covered(ys, a)
    ensures Disjoint(xs) && Disjoint(ys) && (forall a :: Covered(xs, a) ==> !Covered(ys, a)) ==> Disjoint(xs + ys)
  {
    var zs := xs + ys;
    assert forall k :: 0 <= k < |xs| ==> zs[k] == xs[k];
    assert forall k :: 0 <= k < |ys| ==> zs[|xs| + k] == ys[k];
    assert forall k :: |xs| <= k < |zs| ==> zs[k] == ys[k - |xs|];
    forall a
      ensures Covered(xs, a) ==> Covered(zs, a)
      ensures Covered(ys, a) ==> Covered(zs, a)
    {
      if Covered(xs, a) {
        var k :| 0 <= k < |xs| && Contains(xs[k], a);
        assert Contains(zs[k], a);
      }
      if Covered(ys, a) {
        var k :| 0 <= k < |ys| && Contains(ys[k], a);
        assert Contains(zs[|xs| + k], a);
      }
    }
    if Disjoint(xs) && Disjoint(ys) && (forall a :: Covered(xs, a) ==> !Covered(ys, a)) {
      forall i, j, a | 0 <= i < j < |zs| && Contains(zs[i], a)
        ensures !Contains(zs[j], a)
      {
        if i < |xs| <= j { assert Contains(xs[i], a) && Covered(xs, a); }
        else if |xs| <= i { assert Contains(ys[i - |xs|], a); }
      }
    }
  }

  function RemoveAt(ns: seq<IPNet>, i: nat): seq<IPNet>
    requires i < |ns|
  {
    ns[..i] + ns[i + 1..]
  }

  lemma RemoveNet(ns: seq<IPNet>, i: nat)
    requires i < |ns| && AllCanonical(ns)
    ensures AllCanonical(RemoveAt(ns, i))
    ensures forall a :: Covered(ns, a) <==> Covered(RemoveAt(ns, i), a) || Contains(ns[i], a)
    ensures Disjoint(ns) ==>
      Disjoint(RemoveAt(ns, i)) && forall a :: Contains(ns[i], a) ==> !Covered(RemoveAt(ns, i), a)
  {
    var rest := RemoveAt(ns, i);
    assert forall k :: 0 <= k < |rest| ==> rest[k] == ns[if k < i then k else k + 1];
    forall a
      ensures Covered(ns, a) <==> Covered(rest, a) || Contains(ns[i], a)
    {
      if Covered(ns, a) {
        var k :| 0 <= k < |ns| && Contains(ns[k], a);
        if k < i { assert Contains(rest[k], a); } else if k > i { assert Contains(rest[k - 1], a); }
      }
    }
  }

  /** How many networks the inner loop still has to deal with. */
  function TouchCount(ns: seq<IPNet>, e: IPNet): nat
    requires AllCanonical(ns) && IsNet(e)
  {
    if ns == [] then 0 else TouchCount(ns[..|ns| - 1], e) + (if Touches(ns[|ns| - 1], e) then 1 else 0)
  }

  lemma {:induction false} TouchCountConcat(xs: seq<IPNet>, ys: seq<IPNet>, e: IPNet)
    requires AllCanonical(xs) && AllCanonical(ys) && IsNet(e)
    ensures AllCanonical(xs + ys) && TouchCount(xs + ys, e) == TouchCount(xs, e) + TouchCount(ys, e)
    decreases |ys|
  {
    ConcatNets(xs, ys);
    if ys == [] {
      assert xs + ys == xs;
    } else {
      TouchCountConcat(xs, ys[..|ys| - 1], e);
      assert (xs + ys)[..|xs + ys| - 1] == xs + ys[..|ys| - 1];
    }
  }

  lemma TouchCountRemove(ns: seq<IPNet>, i: nat, e: IPNet)
    requires i < |ns| && AllCanonical(ns) && IsNet(e) && Touches(ns[i], e)
    ensures AllCanonical(RemoveAt(ns, i)) && TouchCount(RemoveAt(ns, i), e) == TouchCount(ns, e) - 1
  {
    var front, back := ns[..i], ns[i + 1..];
    assert ns == front + ([ns[i]] + back);
    TouchCountConcat([ns[i]], back, e);
    TouchCountConcat(front, [ns[i]] + back, e);
    TouchCountConcat(front, back, e);
    assert [ns[i]][..0] == [];
    assert TouchCount([ns[i]], e) == TouchCount([ns[i]][..0], e) + 1;
  }

  lemma {:induction false} NothingTouches(ns: seq<IPNet>, e: IPNet)
    requires AllCanonical(ns) && IsNet(e) && forall a :: Covered(ns, a) ==> !Contains(e, a)
    ensures TouchCount(ns, e) == 0
  {
    if ns != [] {
      var front, last := ns[..|ns| - 1], ns[|ns| - 1];
      forall a | Covered(front, a)
        ensures !Contains(e, a)
      {
        var k :| 0 <= k < |front| && Contains(front[k], a);
        assert Contains(ns[k], a);
      }
      NothingTouches(front, e);
      OwnAddress(last);
      OwnAddress(e);
      assert Contains(ns[|ns| - 1], last.ip);
      assert Covered(ns, last.ip);
    }
  }

  /** The inner loop hands the block to diffFromCIDR, which panics on it. */
  predicate Panics(b: IPNet, e: IPNet)
    requires IsNet(b) && IsNet(e)
  {
    Contains(b, e.ip) && DiffPanics(b, e)
  }

  /** One turn of the inner loop replaces a touching block by what is left of it. */
  lemma ReplaceTouching(ns: seq<IPNet>, i: nat, left: seq<IPNet>, e: IPNet)
    requires AllCanonical(ns) && Disjoint(ns) && i < |ns| && IsCanonical(e) && Touches(ns[i], e)
    requires AllCanonical(left) && Disjoint(left)
    requires forall a :: Covered(left, a) <==> Contains(ns[i], a) && !Contains(e, a)
    ensures var ns' := RemoveAt(ns, i) + left;
      && AllCanonical(ns') && Disjoint(ns') && TouchCount(ns', e) < TouchCount(ns, e)
      && forall a :: Covered(ns', a) || (Covered(ns, a) && Contains(e, a)) <==> Covered(ns, a)
  {
    RemoveNet(ns, i);
    TouchCountRemove(ns, i, e);
    ConcatNets(RemoveAt(ns, i), left);
    TouchCountConcat(RemoveAt(ns, i), left, e);
    NothingTouches(left, e);
  }

  predicate NewPiece(b: IPNet, e: IPNet) {
    IsNet(b) && IsNet(e) && b.prefix <= e.prefix && !b.mapped && !e.mapped && !Contains(b, e.ip)
  }

  /** What the inner loop has achieved: nothing lost but excepted addresses, every block old or small. */
  ghost predicate Subtracting(blocks: seq<IPNet>, e: IPNet, now: seq<IPNet>)
    requires AllCanonical(blocks) && IsCanonical(e)
  {
    && AllCanonical(now) && Disjoint(now)
    && (forall a :: Covered(now, a) ==> Covered(blocks, a))
    && (forall a :: Covered(blocks, a) && !Contains(e, a) ==> Covered(now, a))
    && (forall b :: b in now ==> b in blocks || (NewPiece(b, e) && exists c :: c in blocks && !c.mapped))
  }

  lemma SubtractTurn(blocks: seq<IPNet>, e: IPNet, now: seq<IPNet>, i: nat, left: seq<IPNet>)
    requires AllCanonical(blocks) && IsCanonical(e) && Subtracting(blocks, e, now) && i < |now| && Touches(now[i], e)
    requires AllCanonical(left) && Disjoint(left) && forall b :: b in left ==> SmallPiece(b, now[i], e)
    requires forall a :: Covered(left, a) <==> Contains(now[i], a) && !Contains(e, a)
    ensures Subtracting(blocks, e, RemoveAt(now, i) + left)
    ensures TouchCount(RemoveAt(now, i) + left, e) < TouchCount(now, e)
  {
    ReplaceTouching(now, i, left, e);
    NotInLeft(left, e);
    forall b | b in RemoveAt(now, i) + left
      ensures b in blocks || (NewPiece(b, e) && exists c :: c in blocks && !c.mapped)
    {
      assert b in now || b in left;
      assert now[i] in now;
    }
  }

  /** What is left of a touching block: the body of the inner loop before the list is rebuilt. */
  method Shrink(b: IPNet, e: IPNet) returns (left: Option<seq<IPNet>>)
    requires IsCanonical(b) && IsCanonical(e) && Touches(b, e)
    ensures left.None? <==> Panics(b, e)
    ensures left.Some? ==>
      AllCanonical(left.value) && Disjoint(left.value) && forall n :: n in left.value ==> SmallPiece(n, b, e)
    ensures left.Some? ==> forall a :: Covered(left.value, a) <==> Contains(b, a) && !Contains(e, a)
  {
    if Contains(b, e.ip) {
      left := DiffFromCIDR(b, e);
    } else {
      SwallowedWhole(b, e);
      left := Some([]);
    }
  }

  /** The scan of the inner loop up to the first block that touches the exception. */
  method FirstTouching(ns: seq<IPNet>, e: IPNet) returns (i: nat)
    requires AllCanonical(ns) && IsNet(e)
    ensures i <= |ns| && (i < |ns| ==> Touches(ns[i], e))
    ensures i == |ns| ==> forall a :: Covered(ns, a) ==> !Contains(e, a)
  {
    i := 0;
    while i < |ns| && !Contains(ns[i], e.ip) && !Contains(e, ns[i].ip)
      invariant 0 <= i <= |ns|
      invariant forall k :: 0 <= k < i ==> !Touches(ns[k], e)
    {
      i := i + 1;
    }
    if i == |ns| { UntouchedIsApart(ns, e); }
  }

  /** The inner loop: start over after every change until no block touches the exception. */
  method Subtract(blocks: seq<IPNet>, e: IPNet) returns (r: Option<seq<IPNet>>)
    requires AllCanonical(blocks) && Disjoint(blocks) && IsCanonical(e)
    ensures r.None? <==> exists b :: b in blocks && IsNet(b) && Panics(b, e)
    ensures r.Some? ==> Subtracting(blocks, e, r.value) && forall a :: Covered(r.value, a) ==> !Contains(e, a)
    ensures r.Some? && (forall i :: 0 <= i < |blocks| ==> !Touches(blocks[i], e)) ==> r.value == blocks
  {
    var now := blocks;
    var i: nat := FirstTouching(now, e);
    while i < |now|
      invariant i <= |now| && Subtracting(blocks, e, now)
      invariant i < |now| ==> Touches(now[i], e)
      invariant i == |now| ==> forall a :: Covered(now, a) ==> !Contains(e, a)
      invariant (forall k :: 0 <= k < |blocks| ==> !Touches(blocks[k], e)) ==> now == blocks
      invariant forall b :: b in blocks && IsNet(b) && Panics(b, e) ==> b in now
      decreases TouchCount(now, e)
    {
      var left := Shrink(now[i], e);
      if left.None? {
        assert now[i] in now;
        return None;
      }
      SubtractTurn(blocks, e, now, i, left.value);
      OthersStay(now, i, left.value);
      now := RemoveAt(now, i) + left.value;
      i := FirstTouching(now, e);
    }
    NotInLeft(now, e);
    r := Some(now);
  }

  lemma OthersStay(ns: seq<IPNet>, i: nat, left: seq<IPNet>)
    requires i < |ns|
    ensures forall b :: b in ns && b != ns[i] ==> b in RemoveAt(ns, i) + left
  {
  }

  lemma NotInLeft(left: seq<IPNet>, e: IPNet)
    requires AllCanonical(left) && IsNet(e) && forall a :: Covered(left, a) ==> !Contains(e, a)
    ensures forall b :: b in left ==> !Contains(b, e.ip)
  {
    OwnAddress(e);
    forall b | b in left
      ensures !Contains(b, e.ip)
    {
      var k :| 0 <= k < |left| && left[k] == b;
      assert !Covered(left, e.ip);
    }
  }

  lemma SwallowedWhole(b: IPNet, e: IPNet)
    requires IsNet(b) && IsNet(e) && Contains(e, b.ip) && !Contains(b, e.ip)
    ensures forall a :: Contains(b, a) ==> Contains(e, a)
  {
  }

  lemma UntouchedIsApart(ns: seq<IPNet>, e: IPNet)
    requires AllCanonical(ns) && IsNet(e) && forall k :: 0 <= k < |ns| ==> !Touches(ns[k], e)
    ensures forall a :: Covered(ns, a) ==> !Contains(e, a)
  {
  }

  predicate Ascending(ns: seq<IPNet>) { forall i, j :: 0 <= i < j < |ns| ==> MaskSize(ns[i]) <= MaskSize(ns[j]) }

  function Insert(n: IPNet, ns: seq<IPNet>): (r: seq<IPNet>)
    ensures multiset(r) == multiset(ns) + multiset{n}
  {
    if ns == [] then [n]
    else
      assert ns == [ns[0]] + ns[1..];
      if MaskSize(n) <= MaskSize(ns[0]) then [n] + ns else [ns[0]] + Insert(n, ns[1..])
  }

  lemma {:induction false} InsertAscending(n: IPNet, ns: seq<IPNet>)
    requires Ascending(ns)
    ensures Ascending(Insert(n, ns))
  {
    if ns != [] && MaskSize(n) > MaskSize(ns[0]) {
      InsertAscending(n, ns[1..]);
      var rest := Insert(n, ns[1..]);
      forall j | 0 <= j < |rest|
        ensures MaskSize(ns[0]) <= MaskSize(rest[j])
      {
        assert rest[j] in multiset(rest);
        assert rest[j] == n || rest[j] in ns[1..];
      }
    }
  }

  /** The sort of mergeCIDRs by mask bytes: larger networks first, but all 4-byte masks before 16-byte ones of IPv4. */
  function SortByMask(ns: seq<IPNet>): (r: seq<IPNet>)
    ensures multiset(r) == multiset(ns)
  {
    if ns == [] then []
    else
      assert ns == [ns[0]] + ns[1..];
      Insert(ns[0], SortByMask(ns[1..]))
  }

  lemma {:induction false} SortAscending(ns: seq<IPNet>)
    ensures Ascending(SortByMask(ns))
  {
    if ns != [] {
      SortAscending(ns[1..]);
      InsertAscending(ns[0], SortByMask(ns[1..]));
    }
  }

  predicate Has(n: IPNet, a: Address) { IsNet(n) && Contains(n, a) }

  predicate PlainCovers(ns: seq<IPNet>, a: Address) { exists n :: n in ns && !n.mapped && Has(n, a) }

  /** The network starts inside a plain one although it is mapped. */
  predicate IsHidden(ns: seq<IPNet>, n: IPNet) { n.mapped && PlainCovers(ns, n.ip) }

  /** The addresses that mergeCIDRs keeps covered: those of a hidden network are lost. */
  predicate Effective(ns: seq<IPNet>, a: Address) { exists n :: n in ns && Has(n, a) && !IsHidden(ns, n) }

  ghost predicate SameExceptions(ns: seq<IPNet>, ns': seq<IPNet>)
    requires AllCanonical(ns) && AllCanonical(ns')
  {
    && (forall n :: n in ns' ==> n in ns)
    && (forall a :: PlainCovers(ns', a) <==> PlainCovers(ns, a))
    && (forall a :: Effective(ns', a) <==> Effective(ns, a))
  }

  lemma SameElements(ns: seq<IPNet>, ns': seq<IPNet>)
    requires AllCanonical(ns) && multiset(ns) == multiset(ns')
    ensures AllCanonical(ns') && SameExceptions(ns, ns')
  {
    assert forall n :: n in ns <==> n in multiset(ns);
    assert forall n :: n in ns' <==> n in multiset(ns');
    forall i | 0 <= i < |ns'|
      ensures IsCanonical(ns'[i])
    {
      assert ns'[i] in ns;
    }
    forall a
      ensures PlainCovers(ns', a) <==> PlainCovers(ns, a)
    {
      if PlainCovers(ns, a) { PlainIn(ns, ns', a); }
      if PlainCovers(ns', a) { PlainIn(ns', ns, a); }
    }
    forall a
      ensures Effective(ns', a) <==> Effective(ns, a)
    {
      if Effective(ns, a) { EffectiveIn(ns, ns', a); }
      if Effective(ns', a) { EffectiveIn(ns', ns, a); }
    }
  }

  lemma PlainIn(ns: seq<IPNet>, ns': seq<IPNet>, a: Address)
    requires (forall n :: n in ns ==> n in ns') && PlainCovers(ns, a)
    ensures PlainCovers(ns', a)
  {
  }

  lemma EffectiveIn(ns: seq<IPNet>, ns': seq<IPNet>, a: Address)
    requires (forall n :: n in ns ==> n in ns') && Effective(ns, a)
    requires forall b :: PlainCovers(ns', b) ==> PlainCovers(ns, b)
    ensures Effective(ns', a)
  {
    var n :| n in ns && Has(n, a) && !IsHidden(ns, n);
    assert n in ns' && !IsHidden(ns', n);
  }

  /** No network starts inside an earlier one. */
  predicate ApartFrom(ns: seq<IPNet>, n: nat)
    requires AllCanonical(ns)
  {
    forall p, q :: 0 <= p < n && p < q < |ns| ==> !Contains(ns[p], ns[q].ip)
  }

  lemma Inside(n: IPNet, m: IPNet, a: Address)
    requires IsNet(n) && IsNet(m) && n.prefix <= m.prefix && Contains(n, m.ip) && Contains(m, a)
    ensures Contains(n, a)
  {
  }

  lemma RemovedElements(ns: seq<IPNet>, j: nat)
    requires j < |ns|
    ensures forall n :: n in RemoveAt(ns, j) ==> n in ns
    ensures forall n :: n in ns && n != ns[j] ==> n in RemoveAt(ns, j)
  {
    OthersStay(ns, j, []);
    assert RemoveAt(ns, j) + [] == RemoveAt(ns, j);
  }

  /** A plain network that is dropped lies inside a plain one. */
  lemma DropKeepsPlain(ns: seq<IPNet>, i: nat, j: nat, a: Address)
    requires AllCanonical(ns) && Ascending(ns) && i < j < |ns| && Contains(ns[i], ns[j].ip)
    ensures PlainCovers(RemoveAt(ns, j), a) <==> PlainCovers(ns, a)
  {
    RemovedElements(ns, j);
    var rest := RemoveAt(ns, j);
    assert rest[i] == ns[i];
    if PlainCovers(ns, a) {
      var n :| n in ns && !n.mapped && Has(n, a);
      if n == ns[j] {
        InsideAscending(ns, i, j, a);
        assert ns[i] in rest;
      }
    }
  }

  lemma InsideAscending(ns: seq<IPNet>, i: nat, j: nat, a: Address)
    requires AllCanonical(ns) && Ascending(ns) && i < j < |ns| && Contains(ns[i], ns[j].ip) && Contains(ns[j], a)
    requires !ns[i].mapped ==> !ns[j].mapped
    ensures Has(ns[i], a) && ns[i].mapped == ns[j].mapped
  {
    assert MaskSize(ns[i]) <= MaskSize(ns[j]);
    Inside(ns[i], ns[j], a);
  }

  /** The dropping network is effective itself. */
  lemma DropperEffective(ns: seq<IPNet>, i: nat)
    requires AllCanonical(ns) && Ascending(ns) && ApartFrom(ns, i) && i < |ns|
    ensures !IsHidden(ns, ns[i])
  {
    forall n | n in ns && !n.mapped && ns[i].mapped
      ensures !Has(n, ns[i].ip)
    {
      var k :| 0 <= k < |ns| && ns[k] == n;
      assert k > i ==> MaskSize(ns[i]) <= MaskSize(ns[k]);
    }
  }

  lemma DropKeepsEffective(ns: seq<IPNet>, i: nat, j: nat, a: Address)
    requires AllCanonical(ns) && Ascending(ns) && ApartFrom(ns, i) && i < j < |ns| && Contains(ns[i], ns[j].ip)
    requires forall b :: PlainCovers(RemoveAt(ns, j), b) <==> PlainCovers(ns, b)
    ensures Effective(RemoveAt(ns, j), a) <==> Effective(ns, a)
  {
    RemovedElements(ns, j);
    var rest := RemoveAt(ns, j);
    assert rest[i] == ns[i];
    if Effective(rest, a) { EffectiveIn(rest, ns, a); }
    if Effective(ns, a) {
      var n :| n in ns && Has(n, a) && !IsHidden(ns, n);
      if n == ns[j] {
        DroppedIsInside(ns, i, j, a);
        assert ns[i] in rest && !IsHidden(rest, ns[i]);
      } else {
        assert n in rest && !IsHidden(rest, n);
      }
    }
  }

  /** An effective network that is dropped lies inside the one that drops it. */
  lemma DroppedIsInside(ns: seq<IPNet>, i: nat, j: nat, a: Address)
    requires AllCanonical(ns) && Ascending(ns) && ApartFrom(ns, i) && i < j < |ns| && Contains(ns[i], ns[j].ip)
    requires Contains(ns[j], a) && !IsHidden(ns, ns[j])
    ensures Has(ns[i], a) && !IsHidden(ns, ns[i])
  {
    DropperEffective(ns, i);
    assert ns[i] in ns && Has(ns[i], ns[j].ip);
    InsideAscending(ns, i, j, a);
  }

  lemma DropKeepsOrder(ns: seq<IPNet>, i: nat, j: nat)
    requires AllCanonical(ns) && Ascending(ns) && ApartFrom(ns, i) && i < j < |ns|
    ensures AllCanonical(RemoveAt(ns, j)) && Ascending(RemoveAt(ns, j)) && ApartFrom(RemoveAt(ns, j), i)
  {
    var rest := RemoveAt(ns, j);
    assert forall k :: 0 <= k < |rest| ==> rest[k] == ns[if k < j then k else k + 1];
  }

  lemma DropInside(ns: seq<IPNet>, i: nat, j: nat)
    requires AllCanonical(ns) && Ascending(ns) && ApartFrom(ns, i) && i < j < |ns| && Contains(ns[i], ns[j].ip)
    ensures AllCanonical(RemoveAt(ns, j)) && Ascending(RemoveAt(ns, j)) && ApartFrom(RemoveAt(ns, j), i)
    ensures SameExceptions(ns, RemoveAt(ns, j))
  {
    DropKeepsOrder(ns, i, j);
    RemovedElements(ns, j);
    forall a
      ensures PlainCovers(RemoveAt(ns, j), a) <==> PlainCovers(ns, a)
    {
      DropKeepsPlain(ns, i, j, a);
    }
    forall a
      ensures Effective(RemoveAt(ns, j), a) <==> Effective(ns, a)
    {
      DropKeepsEffective(ns, i, j, a);
    }
  }

  /** What is left apart is effective as a whole. */
  lemma ApartIsEffective(ns: seq<IPNet>)
    requires AllCanonical(ns) && Ascending(ns) && ApartFrom(ns, |ns|)
    ensures forall a :: Covered(ns, a) <==> Effective(ns, a)
  {
    forall i | 0 <= i < |ns|
      ensures !IsHidden(ns, ns[i])
    {
      DropperEffective(ns, i);
    }
    forall a
      ensures Covered(ns, a) <==> Effective(ns, a)
    {
      if Covered(ns, a) {
        var i :| 0 <= i < |ns| && Contains(ns[i], a);
        assert ns[i] in ns && Has(ns[i], a);
      }
    }
  }

  /** mergeCIDRs: sorts the networks and drops those that start inside an earlier one. */
  method MergeCIDRs(cidrs: seq<IPNet>) returns (ns: seq<IPNet>)
    requires AllCanonical(cidrs)
    ensures AllCanonical(ns) && Ascending(ns) && ApartFrom(ns, |ns|) && SameExceptions(cidrs, ns)
    ensures forall a :: Covered(ns, a) <==> Effective(cidrs, a)
  {
    ns := SortByMask(cidrs);
    SortAscending(cidrs);
    SameElements(cidrs, ns);
    var i := 0;
    while i < |ns|
      invariant 0 <= i <= |ns| && AllCanonical(ns) && Ascending(ns) && ApartFrom(ns, i) && SameExceptions(cidrs, ns)
      decreases |ns| - i
    {
      ns := DropInsideOf(ns, i);
      i := i + 1;
    }
    ApartIsEffective(ns);
  }

  /** The inner loop of mergeCIDRs. */
  method DropInsideOf(cidrs: seq<IPNet>, i: nat) returns (ns: seq<IPNet>)
    requires AllCanonical(cidrs) && Ascending(cidrs) && ApartFrom(cidrs, i) && i < |cidrs|
    ensures AllCanonical(ns) && Ascending(ns) && ApartFrom(ns, i + 1)
    ensures i < |ns| <= |cidrs| && SameExceptions(cidrs, ns)
  {
    ns := cidrs;
    var j := i + 1;
    while j < |ns|
      invariant i < j <= |ns| <= |cidrs| && AllCanonical(ns) && Ascending(ns) && ApartFrom(ns, i)
      invariant forall q :: i < q < j ==> !Contains(ns[i], ns[q].ip)
      invariant SameExceptions(cidrs, ns)
      decreases |ns| - j
    {
      if Contains(ns[i], ns[j].ip) {
        DropInside(ns, i, j);
        ns := RemoveAt(ns, j);
      } else {
        j := j + 1;
      }
    }
  }

  predicate SomePanic(allow: IPNet, excepts: seq<IPNet>, n: nat)
    requires IsNet(allow) && AllCanonical(excepts)
  {
    exists k :: 0 <= k < n <= |excepts| && Panics(allow, excepts[k])
  }

  predicate SomeTouch(allow: IPNet, excepts: seq<IPNet>, n: nat)
    requires IsNet(allow) && AllCanonical(excepts)
  {
    exists k :: 0 <= k < n <= |excepts| && Touches(allow, excepts[k])
  }

  /** A block that is not the whole one: a piece of the usual form, no smaller than the last exception. */
  predicate PieceAfter(b: IPNet, allow: IPNet, excepts: seq<IPNet>, k: nat)
    requires k <= |excepts|
  {
    k > 0 && !b.mapped && !allow.mapped && b.prefix <= MaskSize(excepts[k - 1])
  }

  ghost predicate Pieces(allow: IPNet, excepts: seq<IPNet>, k: nat, blocks: seq<IPNet>)
    requires k <= |excepts|
  {
    forall b :: b in blocks ==> b == allow || PieceAfter(b, allow, excepts, k)
  }

  ghost predicate CoversRest(allow: IPNet, excepts: seq<IPNet>, k: nat, blocks: seq<IPNet>)
    requires IsNet(allow) && AllCanonical(excepts) && AllCanonical(blocks) && k <= |excepts|
  {
    forall a :: Covered(blocks, a) <==> Contains(allow, a) && !Covered(excepts[..k], a)
  }

  /** The blocks that remain after the first k exceptions. */
  ghost predicate Remaining(allow: IPNet, excepts: seq<IPNet>, k: nat, blocks: seq<IPNet>)
    requires IsCanonical(allow) && AllCanonical(excepts) && k <= |excepts|
  {
    && AllCanonical(blocks) && Disjoint(blocks) && !SomePanic(allow, excepts, k)
    && CoversRest(allow, excepts, k, blocks) && Pieces(allow, excepts, k, blocks)
    && (blocks == [allow] || SomeTouch(allow, excepts, k))
  }

  lemma CoveredStep(ns: seq<IPNet>, k: nat, a: Address)
    requires AllCanonical(ns) && k < |ns|
    ensures Covered(ns[..k + 1], a) <==> Covered(ns[..k], a) || Contains(ns[k], a)
  {
  }

  lemma RemainingStart(allow: IPNet, excepts: seq<IPNet>)
    requires IsCanonical(allow) && AllCanonical(excepts)
    ensures Remaining(allow, excepts, 0, [allow])
  {
    forall a
      ensures Covered([allow], a) <==> Contains(allow, a)
    {
      assert Contains([allow][0], a) <==> Contains(allow, a);
    }
  }

  /** A piece panics only where the whole block does. */
  lemma PiecePanics(allow: IPNet, excepts: seq<IPNet>, k: nat, b: IPNet)
    requires IsCanonical(allow) && AllCanonical(excepts) && Ascending(excepts) && k < |excepts| && IsNet(b)
    requires PieceAfter(b, allow, excepts, k) && Panics(b, excepts[k]) && Contains(allow, excepts[k].ip)
    ensures Panics(allow, excepts[k])
  {
    assert MaskSize(excepts[k - 1]) <= MaskSize(excepts[k]);
  }

  /** A network that touches the block and is larger contains all of it. */
  lemma TouchesAll(allow: IPNet, e: IPNet, a: Address)
    requires IsNet(allow) && IsNet(e) && Touches(allow, e) && e.prefix <= allow.prefix && Contains(allow, a)
    ensures Contains(e, a)
  {
    assert allow.ip[..allow.prefix][..e.prefix] == allow.ip[..e.prefix];
    assert a[..allow.prefix][..e.prefix] == a[..e.prefix];
  }

  /** Before the whole block panics on a plain exception, no earlier one can have touched it. */
  lemma PanicUntouched(allow: IPNet, excepts: seq<IPNet>, k: nat)
    requires IsCanonical(allow) && AllCanonical(excepts) && Ascending(excepts)
    requires ApartFrom(excepts, |excepts|) && k < |excepts|
    requires !allow.mapped && !excepts[k].mapped && Panics(allow, excepts[k])
    ensures !SomeTouch(allow, excepts, k)
  {
    forall j | 0 <= j < k
      ensures !Touches(allow, excepts[j])
    {
      assert MaskSize(excepts[j]) <= MaskSize(excepts[k]) && !Contains(excepts[j], excepts[k].ip);
      if Touches(allow, excepts[j]) { TouchesAll(allow, excepts[j], excepts[k].ip); }
    }
  }

  lemma StillCovered(allow: IPNet, excepts: seq<IPNet>, k: nat, blocks: seq<IPNet>) returns (b: IPNet)
    requires IsCanonical(allow) && AllCanonical(excepts) && ApartFrom(excepts, |excepts|) && k < |excepts|
    requires AllCanonical(blocks) && CoversRest(allow, excepts, k, blocks) && Contains(allow, excepts[k].ip)
    ensures b in blocks && IsNet(b) && Contains(b, excepts[k].ip)
  {
    var a := excepts[k].ip;
    forall j | 0 <= j < k
      ensures !Contains(excepts[..k][j], a)
    {
      assert excepts[..k][j] == excepts[j];
    }
    assert !Covered(excepts[..k], a);
    assert Covered(blocks, a);
    var i :| 0 <= i < |blocks| && Contains(blocks[i], a);
    b := blocks[i];
  }

  lemma WholePanics(allow: IPNet, excepts: seq<IPNet>, k: nat, blocks: seq<IPNet>) returns (b: IPNet)
    requires IsCanonical(allow) && AllCanonical(excepts) && Ascending(excepts) && ApartFrom(excepts, |excepts|)
    requires k < |excepts| && Remaining(allow, excepts, k, blocks) && Panics(allow, excepts[k])
    ensures b in blocks && IsNet(b) && Panics(b, excepts[k])
  {
    b := StillCovered(allow, excepts, k, blocks);
    if b != allow && !excepts[k].mapped { PanicUntouched(allow, excepts, k); }
  }

  /** A block panics on the next exception iff the whole block does. */
  lemma PanicOnlyWhole(allow: IPNet, excepts: seq<IPNet>, k: nat, blocks: seq<IPNet>)
    requires IsCanonical(allow) && AllCanonical(excepts) && Ascending(excepts) && ApartFrom(excepts, |excepts|)
    requires k < |excepts| && Remaining(allow, excepts, k, blocks)
    ensures (exists b :: b in blocks && IsNet(b) && Panics(b, excepts[k])) <==> Panics(allow, excepts[k])
  {
    if Panics(allow, excepts[k]) {
      var b := WholePanics(allow, excepts, k, blocks);
    }
    forall b | b in blocks && IsNet(b) && Panics(b, excepts[k])
      ensures Panics(allow, excepts[k])
    {
      var i :| 0 <= i < |blocks| && blocks[i] == b;
      assert Covered(blocks, excepts[k].ip);
      if b != allow { PiecePanics(allow, excepts, k, b); }
    }
  }

  lemma CoversNext(allow: IPNet, excepts: seq<IPNet>, k: nat, blocks: seq<IPNet>, next: seq<IPNet>)
    requires IsCanonical(allow) && AllCanonical(excepts) && k < |excepts|
    requires AllCanonical(blocks) && CoversRest(allow, excepts, k, blocks)
    requires Subtracting(blocks, excepts[k], next) && (forall a :: Covered(next, a) ==> !Contains(excepts[k], a))
    ensures CoversRest(allow, excepts, k + 1, next)
  {
    forall a
      ensures Covered(next, a) <==> Contains(allow, a) && !Covered(excepts[..k + 1], a)
    {
      CoveredStep(excepts, k, a);
    }
  }

  lemma PiecesNext(allow: IPNet, excepts: seq<IPNet>, k: nat, blocks: seq<IPNet>, next: seq<IPNet>)
    requires AllCanonical(excepts) && Ascending(excepts) && k < |excepts| && AllCanonical(blocks)
    requires Pieces(allow, excepts, k, blocks) && Subtracting(blocks, excepts[k], next)
    ensures Pieces(allow, excepts, k + 1, next)
  {
    forall b | b in next
      ensures b == allow || PieceAfter(b, allow, excepts, k + 1)
    {
      if b in blocks {
        assert k > 0 ==> MaskSize(excepts[k - 1]) <= MaskSize(excepts[k]);
      } else {
        var c :| c in blocks && !c.mapped;
        assert c == allow || PieceAfter(c, allow, excepts, k);
      }
    }
  }

  lemma TouchNext(allow: IPNet, excepts: seq<IPNet>, k: nat, blocks: seq<IPNet>, next: seq<IPNet>)
    requires IsCanonical(allow) && AllCanonical(excepts) && AllCanonical(blocks) && k < |excepts|
    requires blocks == [allow] || SomeTouch(allow, excepts, k)
    requires (forall i :: 0 <= i < |blocks| ==> !Touches(blocks[i], excepts[k])) ==> next == blocks
    ensures next == [allow] || SomeTouch(allow, excepts, k + 1)
  {
    if SomeTouch(allow, excepts, k) {
      var j :| 0 <= j < k && Touches(allow, excepts[j]);
    } else if next != [allow] {
      assert Touches(blocks[0], excepts[k]);
    }
  }

  lemma RemainingStep(allow: IPNet, excepts: seq<IPNet>, k: nat, blocks: seq<IPNet>, next: seq<IPNet>)
    requires IsCanonical(allow) && AllCanonical(excepts) && Ascending(excepts)
    requires k < |excepts| && Remaining(allow, excepts, k, blocks)
    requires Subtracting(blocks, excepts[k], next) && (forall a :: Covered(next, a) ==> !Contains(excepts[k], a))
    requires (forall i :: 0 <= i < |blocks| ==> !Touches(blocks[i], excepts[k])) ==> next == blocks
    requires !Panics(allow, excepts[k])
    ensures Remaining(allow, excepts, k + 1, next)
  {
    CoversNext(allow, excepts, k, blocks, next);
    PiecesNext(allow, excepts, k, blocks, next);
    TouchNext(allow, excepts, k, blocks, next);
  }

  /** One turn of the outer loop. */
  method SubtractNext(allow: IPNet, excepts: seq<IPNet>, k: nat, blocks: seq<IPNet>) returns (next: Option<seq<IPNet>>)
    requires IsCanonical(allow) && AllCanonical(excepts) && Ascending(excepts) && ApartFrom(excepts, |excepts|)
    requires k < |excepts| && Remaining(allow, excepts, k, blocks)
    ensures next.None? <==> Panics(allow, excepts[k])
    ensures next.Some? ==> Remaining(allow, excepts, k + 1, next.value)
  {
    next := Subtract(blocks, excepts[k]);
    PanicOnlyWhole(allow, excepts, k, blocks);
    if next.Some? { RemainingStep(allow, excepts, k, blocks, next.value); }
  }

  /** The outer loop. */
  method SubtractAll(allow: IPNet, excepts: seq<IPNet>) returns (r: Option<seq<IPNet>>)
    requires IsCanonical(allow) && AllCanonical(excepts) && Ascending(excepts) && ApartFrom(excepts, |excepts|)
    ensures r.None? <==> SomePanic(allow, excepts, |excepts|)
    ensures r.Some? ==> AllCanonical(r.value) && Disjoint(r.value)
    ensures r.Some? ==> forall a :: Covered(r.value, a) <==> Contains(allow, a) && !Covered(excepts, a)
  {
    var blocks := [allow];
    RemainingStart(allow, excepts);
    for k := 0 to |excepts|
      invariant Remaining(allow, excepts, k, blocks)
    {
      var next := SubtractNext(allow, excepts, k, blocks);
      if next.None? {
        assert SomePanic(allow, excepts, |excepts|);
        return None;
      }
      blocks := next.value;
    }
    assert excepts[..|excepts|] == excepts;
    r := Some(blocks);
  }

  /** What validateIPBlock of the webhook checks about an IP block. */
  predicate Admitted(allow: IPNet, excepts: seq<IPNet>)
    requires IsNet(allow)
  {
    forall i :: 0 <= i < |excepts| ==> Contains(allow, excepts[i].ip) && MaskSize(allow) < MaskSize(excepts[i])
  }

  /** Some exception in 16-byte form that no plain exception hides. */
  predicate MappedLeft(excepts: seq<IPNet>) {
    exists n :: n in excepts && n.mapped && !IsHidden(excepts, n)
  }

  lemma AdmittedPanics(allow: IPNet, excepts: seq<IPNet>, merged: seq<IPNet>)
    requires IsNet(allow) && AllCanonical(excepts) && AllCanonical(merged) && Admitted(allow, excepts)
    requires Ascending(merged) && ApartFrom(merged, |merged|) && SameExceptions(excepts, merged)
    ensures SomePanic(allow, merged, |merged|) ==> MappedLeft(excepts)
  {
    if SomePanic(allow, merged, |merged|) {
      var k :| 0 <= k < |merged| && Panics(allow, merged[k]);
      assert merged[k] in merged;
      DropperEffective(merged, k);
      assert merged[k] in excepts && !IsHidden(excepts, merged[k]);
    }
  }

  lemma MappedPanics(allow: IPNet, excepts: seq<IPNet>, merged: seq<IPNet>)
    requires IsNet(allow) && AllCanonical(excepts) && AllCanonical(merged) && Admitted(allow, excepts)
    requires SameExceptions(excepts, merged) && MappedLeft(excepts)
    ensures SomePanic(allow, merged, |merged|)
  {
    var n :| n in excepts && n.mapped && !IsHidden(excepts, n);
    OwnAddress(n);
    assert Effective(excepts, n.ip) && Effective(merged, n.ip);
    var m :| m in merged && Has(m, n.ip);
    assert m in excepts;
    assert !PlainCovers(merged, n.ip);
    assert m.mapped;
    var k :| 0 <= k < |merged| && merged[k] == m;
    assert Panics(allow, merged[k]);
  }

  /**
   DiffFromCIDRs: the result covers exactly the addresses of the block outside
   all effective exceptions, no address twice. It panics iff diffFromCIDR would
   panic on the block and an exception that is left after merging; for an IP
   block that the webhook admits, iff a 16-byte IPv4 exception is left.
   */
  method DiffFromCIDRs(allow: IPNet, excepts: seq<IPNet>) returns (r: Option<seq<IPNet>>, ghost merged: seq<IPNet>)
    requires IsCanonical(allow) && AllCanonical(excepts)
    ensures AllCanonical(merged) && forall n :: n in merged ==> n in excepts
    ensures forall a :: Covered(merged, a) <==> Effective(excepts, a)
    ensures r.None? <==> SomePanic(allow, merged, |merged|)
    ensures Admitted(allow, excepts) ==> (r.None? <==> MappedLeft(excepts))
    ensures r.Some? ==> AllCanonical(r.value) && Disjoint(r.value)
    ensures r.Some? ==> forall a :: Covered(r.value, a) <==> Contains(allow, a) && !Effective(excepts, a)
  {
    var ns := MergeCIDRs(excepts);
    merged := ns;
    r := SubtractAll(allow, ns);
    if Admitted(allow, excepts) {
      AdmittedPanics(allow, excepts, ns);
      if MappedLeft(excepts) { MappedPanics(allow, excepts, ns); }
    }
  }

  /** The result is the promised one iff every address of a hidden exception is in an effective one as well. */
  lemma ExactIff(allow: IPNet, excepts: seq<IPNet>, blocks: seq<IPNet>)
    requires IsCanonical(allow) && AllCanonical(excepts) && AllCanonical(blocks)
    requires forall a :: Covered(blocks, a) <==> Contains(allow, a) && !Effective(excepts, a)
    ensures (forall a :: Covered(blocks, a) <==> Contains(allow, a) && !Covered(excepts, a)) <==>
      forall n, a :: n in excepts && IsHidden(excepts, n) && Has(n, a) && Contains(allow, a) ==> Effective(excepts, a)
  {
    forall a
      ensures Covered(excepts, a) <==> exists n :: n in excepts && Has(n, a)
    {
      CoveredHas(excepts, a);
    }
  }

  lemma CoveredHas(ns: seq<IPNet>, a: Address)
    requires AllCanonical(ns)
    ensures Covered(ns, a) <==> exists n :: n in ns && Has(n, a)
  {
    if Covered(ns, a) {
      var i :| 0 <= i < |ns| && Contains(ns[i], a);
      assert ns[i] in ns && Has(ns[i], a);
    }
  }

  /** The IPv4 address with these bits set, counted from the most significant one. */
  function IPv4(ones: set<nat>): (a: Address)
    ensures |a| == 32
  {
    seq(32, i requires 0 <= i < 32 => i in ones)
  }

  /** 10.0.0.0 with a prefix. */
  function Ten(prefix: nat, mapped: bool): IPNet { IPNet(IPv4({4, 6}), prefix, mapped) }

  /** 10.0.0.0/24 except 10.0.0.0/16 panics. */
  method LargerException() returns (r: Option<seq<IPNet>>)
    ensures r.None?
  {
    ghost var merged;
    r, merged := DiffFromCIDRs(Ten(24, false), [Ten(16, false)]);
    OnlyOne(Ten(16, false), merged);
  }

  lemma OnlyOne(n: IPNet, merged: seq<IPNet>)
    requires IsCanonical(n) && AllCanonical(merged) && !n.mapped
    requires (forall m :: m in merged ==> m in [n]) && forall a :: Covered(merged, a) <==> Effective([n], a)
    ensures |merged| > 0 && merged[0] == n
  {
    assert n in [n] && Has(n, n.ip) && !IsHidden([n], n);
    assert Effective([n], n.ip) && Covered(merged, n.ip);
    assert forall i :: 0 <= i < |merged| ==> merged[i] in merged;
  }

  /** ::ffff:10.0.0.0/104 except ::ffff:10.0.0.0/112 passes the webhook and panics. */
  method MappedException() returns (r: Option<seq<IPNet>>)
    ensures Admitted(Ten(8, true), [Ten(16, true)]) && r.None?
  {
    var e := [Ten(16, true)];
    assert e[0] in e && !IsHidden(e, e[0]);
    ghost var merged;
    r, merged := DiffFromCIDRs(Ten(8, true), e);
  }

  lemma Hidden(a: Address)
    requires a == IPv4({4, 6, 15})
    ensures var e := [Ten(24, false), Ten(8, true)];
      AllCanonical(e) && Admitted(IPNet(IPv4({}), 0, false), e) && !MappedLeft(e) && Covered(e, a) && !Effective(e, a)
  {
    var e := [Ten(24, false), Ten(8, true)];
    assert Contains(e[1], a);
    assert !Contains(e[0], a) by { assert e[0].ip[..24][15] != a[..24][15]; }
    assert e[0] in e && Has(e[0], e[1].ip);
    assert IsHidden(e, e[1]);
  }

  /** 0.0.0.0/0 except 10.0.0.0/24 and ::ffff:10.0.0.0/104 passes the webhook and forgets the second exception. */
  method HiddenException() returns (r: Option<seq<IPNet>>, a: Address)
    ensures var e := [Ten(24, false), Ten(8, true)];
      && AllCanonical(e) && Admitted(IPNet(IPv4({}), 0, false), e)
      && r.Some? && AllCanonical(r.value) && Covered(r.value, a) && Covered(e, a)
  {
    var e := [Ten(24, false), Ten(8, true)];
    a := IPv4({4, 6, 15});
    Hidden(a);
    ghost var merged;
    r, merged := DiffFromCIDRs(IPNet(IPv4({}), 0, false), e);
  }
}
