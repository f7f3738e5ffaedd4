/** The bump allocator of `src/arena.c`. */
module Arenas {
  const BLOCK_SIZE: nat := 65536
  const ALIGN: nat := 8

  /** Round up to the alignment. */
  function Aligned(n: nat): (a: nat)
    ensures n <= a < n + ALIGN && a % ALIGN == 0
  {
    (n + ALIGN - 1) / ALIGN * ALIGN
  }

  /** A piece of memory handed out: `len` bytes of one block from `off` on. */
  datatype Region = Region(data: array<bv8>, off: nat, len: nat)

  predicate Apart(r: Region, s: Region) {
    r.data != s.data || r.off + r.len <= s.off || s.off + s.len <= r.off
  }

  /** Inside its block and at an aligned offset. */
  predicate Placed(r: Region) { r.len > 0 && r.off + r.len <= r.data.Length && r.off % ALIGN == 0 }

  class Block {
    const data: array<bv8>
    var used: nat
    const next: Block?

    /** `block_new`, put in front of the chain */
    constructor (minCap: nat, next: Block?)
      ensures fresh(data) && data.Length == (if minCap > BLOCK_SIZE then minCap else BLOCK_SIZE) && used == 0
              && this.next == next
    {
      this.data := new bv8[if minCap > BLOCK_SIZE then minCap else BLOCK_SIZE];
      this.used := 0;
      this.next := next;
    }
  }

  class Arena {
    var head: Block
    ghost var regions: seq<Region>

    /** Everything handed out so far is in place, no two pieces overlap, and the free part of the head
        block is behind all of them. */
    ghost predicate Valid()
      reads this, head
    {
      && head.used <= head.data.Length && head.used % ALIGN == 0
      && (forall i | 0 <= i < |regions| :: Placed(regions[i]))
      && (forall i | 0 <= i < |regions| && regions[i].data == head.data :: regions[i].off + regions[i].len <= head.used)
      && (forall i, j | 0 <= i < j < |regions| :: Apart(regions[i], regions[j]))
    }

    /** `arena_init` */
    constructor ()
      ensures Valid() && regions == [] && fresh(head) && fresh(head.data)
    {
      head := new Block(BLOCK_SIZE, null);
      regions := [];
    }

    /** A block with room for `n` more bytes at the head. */
    method Reserve(n: nat)
      requires Valid() && n % ALIGN == 0
      modifies this
      ensures Valid() && regions == old(regions) && head.used + n <= head.data.Length
      ensures head == old(head) || (fresh(head) && fresh(head.data))
      ensures unchanged(old(head))
    {
      if head.used + n > head.data.Length {
        head := new Block(n, head);
      }
    }

    method Zero(r: Region)
      requires r.off + r.len <= r.data.Length
      modifies r.data
      ensures forall k | r.off <= k < r.off + r.len :: r.data[k] == 0
      ensures forall k | 0 <= k < r.data.Length && !(r.off <= k < r.off + r.len) :: r.data[k] == old(r.data[k])
    {
      var k := r.off;
      while k < r.off + r.len
        invariant r.off <= k <= r.off + r.len
        invariant forall j | r.off <= j < k :: r.data[j] == 0
        invariant forall j | 0 <= j < r.data.Length && !(r.off <= j < k) :: r.data[j] == old(r.data[j])
      {
        r.data[k] := 0;
        k := k + 1;
      }
    }

    /**
     `arena_alloc`: a zeroed piece at an aligned offset inside one block, apart from every piece handed out
     before; the bytes of all earlier pieces stay as they are.
     */
    method Alloc(size: int) returns (r: Region)
      requires Valid()
      modifies this, head, head.data
      ensures Valid() && regions == old(regions) + [r]
      ensures Placed(r) && r.len == (if size <= 0 then 1 else size)
      ensures forall i | 0 <= i < |old(regions)| :: Apart(old(regions)[i], r)
      ensures forall k | r.off <= k < r.off + r.len :: r.data[k] == 0
      ensures forall i, k | 0 <= i < |old(regions)|
              && old(regions)[i].off <= k < old(regions)[i].off + old(regions)[i].len ::
                old(regions)[i].data[k] == old(regions[i].data[k])
    {
      var n := if size <= 0 then 1 else size;
      var aligned := Aligned(n);
      Reserve(aligned);
      hide Aligned;
      var b := head;
      r := Region(b.data, b.used, n);
      AlignedSum(b.used, aligned);
      b.used := b.used + aligned;
      Zero(r);
      regions := regions + [r];
    }
  }

  lemma AlignedSum(a: nat, b: nat)
    requires a % ALIGN == 0 && b % ALIGN == 0
    ensures (a + b) % ALIGN == 0
  {
  }
}
