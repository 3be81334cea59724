/** Host addresses of an IPv4 block (section 3.1 of RFC 4632): the list the proxy
    server takes its source addresses from, and the random one the proxy pool draws.
    An address is its 32-bit number; clearing the low s bits of x is x - x % 2^s. */
module Cidr {
  import opened Division

  const TWO_TO_THE_32: nat := 0x1_0000_0000

  /** Shifting a 32-bit word by 32 panics when overflow is checked. */
  datatype Outcome<T> = Done(value: T) | PrefixTooLong | ShiftOverflow

  function Pow2(s: nat): (r: nat)
    ensures r >= 1
  {
    if s == 0 then 1 else 2 * Pow2(s - 1)
  }

  /** How many addresses the block has. */
  function BlockSize(prefix: nat): nat
    requires prefix <= 32
  {
    Pow2(32 - prefix)
  }

  /** The first prefix bits of an address: the number of its block. */
  function BlockNumber(x: nat, prefix: nat): nat
    requires prefix <= 32
  {
    QuotientNonNegative(x, BlockSize(prefix));
    x / BlockSize(prefix)
  }

  /** The other bits: the place in the block. */
  function HostPart(x: nat, prefix: nat): nat
    requires prefix <= 32
  {
    x % BlockSize(prefix)
  }

  /** x lies in the block of addr: the two agree on their first prefix bits. */
  predicate InBlock(x: nat, addr: nat, prefix: nat)
    requires prefix <= 32
  {
    x < TWO_TO_THE_32 && BlockNumber(x, prefix) == BlockNumber(addr, prefix)
  }

  /** An address of the block that is neither its lowest, the network, nor its highest, the broadcast address. */
  predicate IsHost(x: nat, addr: nat, prefix: nat)
    requires prefix <= 32
  {
    InBlock(x, addr, prefix) && 0 < HostPart(x, prefix) < BlockSize(prefix) - 1
  }

  lemma Parts(x: nat, prefix: nat)
    requires prefix <= 32
    ensures x == BlockNumber(x, prefix) * BlockSize(prefix) + HostPart(x, prefix)
    ensures HostPart(x, prefix) < BlockSize(prefix)
  {
    var size := BlockSize(prefix);
    assert x == (x / size) * size + x % size;
  }

  /** The blocks tile the address space. */
  lemma {:induction false} BlocksTile(prefix: nat)
    requires prefix <= 32
    ensures Pow2(prefix) * BlockSize(prefix) == TWO_TO_THE_32
    decreases prefix
  {
    if prefix == 0 {
      assert Pow2(32) == TWO_TO_THE_32 by { PowersAdd(16, 16); }
    } else {
      BlocksTile(prefix - 1);
      HalveDouble(Pow2(prefix - 1), BlockSize(prefix));
    }
  }

  lemma HalveDouble(a: nat, b: nat)
    ensures 2 * a * b == a * (2 * b)
  {
  }

  lemma {:induction false} PowersAdd(a: nat, b: nat)
    ensures Pow2(a + b) == Pow2(a) * Pow2(b)
    ensures Pow2(16) == 0x1_0000
  {
    assert Pow2(4) == 16 && Pow2(8) == 256 && Pow2(12) == 4096 && Pow2(16) == 0x1_0000;
    if a > 0 {
      PowersAdd(a - 1, b);
      HalveDouble(Pow2(a - 1), Pow2(b));
    }
  }

  lemma BelowMultiple(q: nat, n: nat, size: nat)
    requires size > 0
    ensures q * size < n * size ==> q * size + size <= n * size
  {
    if q < n {
      Factors(n - q - 1, size);
      assert n * size == q * size + size + (n - q - 1) * size;
    } else {
      Factors(q - n, size);
      assert q * size == n * size + (q - n) * size;
    }
  }

  lemma Factors(a: nat, b: nat)
    ensures a * b >= 0
  {
  }

  /** A block lies within the address space as soon as one of its addresses does. */
  lemma BlockEnds(addr: nat, prefix: nat)
    requires prefix <= 32 && addr < TWO_TO_THE_32
    ensures addr - HostPart(addr, prefix) + BlockSize(prefix) <= TWO_TO_THE_32
  {
    hide *;
    BlocksTile(prefix);
    Parts(addr, prefix);
    BelowMultiple(BlockNumber(addr, prefix), Pow2(prefix), BlockSize(prefix));
  }

  lemma PartsUnique(q: nat, o: nat, prefix: nat)
    requires prefix <= 32 && o < BlockSize(prefix)
    ensures BlockNumber(q * BlockSize(prefix) + o, prefix) == q && HostPart(q * BlockSize(prefix) + o, prefix) == o
  {
    DivMod(q, o, BlockSize(prefix));
  }

  /** x is in the block exactly when its distance from the network address is below the size. */
  lemma InBlockIff(x: nat, addr: nat, prefix: nat)
    requires prefix <= 32 && addr < TWO_TO_THE_32
    ensures InBlock(x, addr, prefix) <==> 0 <= x - (addr - HostPart(addr, prefix)) < BlockSize(prefix)
    ensures InBlock(x, addr, prefix) ==> HostPart(x, prefix) == x - (addr - HostPart(addr, prefix))
  {
    hide BlockNumber, HostPart, BlockSize;
    var q, o := BlockNumber(addr, prefix), x - (addr - HostPart(addr, prefix));
    Parts(addr, prefix);
    Parts(x, prefix);
    BlockEnds(addr, prefix);
    if 0 <= o < BlockSize(prefix) {
      PartsUnique(q, o, prefix);
    }
  }

  /** Exactly the hosts of the block, each once, in ascending order. */
  method GenerateIps(addr: nat, prefix: nat) returns (r: Outcome<seq<nat>>)
    requires addr < TWO_TO_THE_32 && prefix <= 32
    ensures r.PrefixTooLong? <==> prefix >= 31
    ensures r.ShiftOverflow? <==> prefix == 0
    ensures r.Done? ==> forall x: nat :: x in r.value <==> IsHost(x, addr, prefix)
    ensures r.Done? ==> forall i, j | 0 <= i < j < |r.value| :: r.value[i] < r.value[j]
    ensures r.Done? ==> |r.value| == BlockSize(prefix) - 2
  {
    if prefix >= 31 {
      return PrefixTooLong;
    }
    if prefix == 0 {
      return ShiftOverflow;
    }
    hide BlockNumber, HostPart, BlockSize, InBlock;
    AtLeastFour(prefix);
    Parts(addr, prefix);
    var size := BlockSize(prefix);
    var base := addr - HostPart(addr, prefix);
    var hostCount := size - 2;
    var ips: seq<nat> := [];
    for i := 1 to hostCount + 1
      invariant |ips| == i - 1
      invariant forall k | 0 <= k < |ips| :: ips[k] == base + 1 + k
    {
      ips := ips + [base + i];
    }
    forall x: nat
      ensures x in ips <==> IsHost(x, addr, prefix)
    {
      InBlockIff(x, addr, prefix);
      if IsHost(x, addr, prefix) {
        assert ips[x - base - 1] == x;
      }
    }
    return Done(ips);
  }

  lemma SingleAddress()
    ensures BlockSize(32) == 1 && BlockSize(31) == 2
  {
    assert Pow2(1) == 2;
  }

  lemma AtLeastFour(prefix: nat)
    requires prefix <= 30
    ensures BlockSize(prefix) >= 4
  {
    assert Pow2(32 - prefix) == 2 * (2 * Pow2(30 - prefix));
  }

  // ----- the random address

  /** The pool adds an offset from 1 to the number of hosts, which it takes to be
      1 for the longest prefixes, to the address as given, host bits included. */
  function OffsetCount(prefix: nat): int
    requires prefix <= 32
  {
    if prefix >= 31 then 1 else BlockSize(prefix) - 2
  }

  /** Every address the pool can draw for this block lies in the block. */
  ghost predicate AlwaysInBlock(addr: nat, prefix: nat)
    requires prefix <= 32
  {
    forall x: nat | addr + 1 <= x <= addr + OffsetCount(prefix) :: InBlock(x, addr, prefix)
  }

  /** Every address the pool can draw for this block is one of its hosts. */
  ghost predicate AlwaysHost(addr: nat, prefix: nat)
    requires prefix <= 32
  {
    forall x: nat | addr + 1 <= x <= addr + OffsetCount(prefix) :: IsHost(x, addr, prefix)
  }

  /** An address drawn for a block is always inside it exactly when the host bits
      of the given address leave room for every offset: at most 1 for prefixes up
      to 30, 0 for a prefix of 31, and never for a prefix of 32. */
  lemma AlwaysInBlockIff(addr: nat, prefix: nat)
    requires 1 <= prefix <= 32 && addr < TWO_TO_THE_32
    ensures AlwaysInBlock(addr, prefix) <==> HostPart(addr, prefix) + OffsetCount(prefix) < BlockSize(prefix)
    ensures prefix <= 30 ==> (AlwaysInBlock(addr, prefix) <==> HostPart(addr, prefix) <= 1)
    ensures prefix == 31 ==> (AlwaysInBlock(addr, prefix) <==> HostPart(addr, prefix) == 0)
    ensures prefix == 32 ==> !AlwaysInBlock(addr, prefix)
  {
    hide BlockNumber, HostPart, BlockSize, InBlock;
    var size := BlockSize(prefix);
    Parts(addr, prefix);
    if prefix <= 30 {
      AtLeastFour(prefix);
    }
    SingleAddress();
    var farthest := addr + OffsetCount(prefix);
    InBlockIff(farthest, addr, prefix);
    if HostPart(addr, prefix) + OffsetCount(prefix) < size {
      forall x: nat | addr + 1 <= x <= addr + OffsetCount(prefix)
        ensures InBlock(x, addr, prefix)
      {
        InBlockIff(x, addr, prefix);
      }
    } else {
      assert !InBlock(farthest, addr, prefix);
    }
  }

  /** Only for the network address itself is every address drawn a host. */
  lemma AlwaysHostIff(addr: nat, prefix: nat)
    requires 1 <= prefix <= 30 && addr < TWO_TO_THE_32
    ensures AlwaysHost(addr, prefix) <==> HostPart(addr, prefix) == 0
  {
    hide BlockNumber, HostPart, BlockSize, InBlock;
    var size := BlockSize(prefix);
    Parts(addr, prefix);
    AtLeastFour(prefix);
    var farthest := addr + OffsetCount(prefix);
    InBlockIff(farthest, addr, prefix);
    if HostPart(addr, prefix) == 0 {
      forall x: nat | addr + 1 <= x <= addr + OffsetCount(prefix)
        ensures IsHost(x, addr, prefix)
      {
        InBlockIff(x, addr, prefix);
      }
    } else {
      assert !IsHost(farthest, addr, prefix);
    }
  }

  /** 10.0.0.6 with a prefix of 30: the addresses drawn are 10.0.0.7, the block's
      broadcast address, and 10.0.0.8, which lies in the next block. */
  lemma DrawsOutsideItsBlock()
    ensures var addr := 0x0A00_0006;
            && OffsetCount(30) == 2
            && InBlock(addr + 1, addr, 30) && !IsHost(addr + 1, addr, 30)
            && !InBlock(addr + 2, addr, 30)
            && !AlwaysInBlock(addr, 30)
  {
    var addr := 0x0A00_0006;
    assert BlockSize(30) == 4;
    assert HostPart(addr, 30) == 2;
    InBlockIff(addr + 1, addr, 30);
    InBlockIff(addr + 2, addr, 30);
    AlwaysInBlockIff(addr, 30);
  }
}
