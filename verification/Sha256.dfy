/** The streaming SHA-256 of `src/companion.c`. */
module Sha256Stream {
  import opened Sha256Spec

  /** The part of a message that fills whole blocks, and the rest that waits in the buffer. */
  function Full(m: seq<bv8>): (f: seq<bv8>)
    ensures |f| % 64 == 0
  {
    m[..|m| - |m| % 64]
  }

  function Rest(m: seq<bv8>): (r: seq<bv8>)
    ensures |r| == |m| % 64
  {
    m[|m| - |m| % 64..]
  }

  lemma ModStep(n: nat)
    ensures (n + 1) % 64 == if n % 64 == 63 then 0 else n % 64 + 1
  {}

  lemma SliceStep(m: seq<bv8>, x: bv8, r: nat)
    requires r <= |m|
    ensures (m + [x])[..|m| - r] == m[..|m| - r] && (m + [x])[|m| - r..] == m[|m| - r..] + [x]
    ensures m + [x] == m[..|m| - r] + (m[|m| - r..] + [x])
  {}

  lemma SplitStep(m: seq<bv8>, x: bv8)
    ensures |m| % 64 < 63 ==> Full(m + [x]) == Full(m) && Rest(m + [x]) == Rest(m) + [x]
    ensures |m| % 64 == 63 ==> Full(m + [x]) == Full(m) + (Rest(m) + [x]) && Rest(m + [x]) == []
  {
    ModStep(|m|);
    SliceStep(m, x, |m| % 64);
  }

  lemma RoundsNone(h: seq<bv32>, block: seq<bv8>)
    requires |h| == 8 && |block| == 64
    ensures Rounds(h, block, 0) == Start(h)
  {}

  lemma AddToAt(h: seq<bv32>, r: Regs, s: seq<bv32>)
    requires |h| == 8 && |s| == 8
    requires s[0] == Add(h[0], r.a) && s[1] == Add(h[1], r.b) && s[2] == Add(h[2], r.c) && s[3] == Add(h[3], r.d)
    requires s[4] == Add(h[4], r.e) && s[5] == Add(h[5], r.f) && s[6] == Add(h[6], r.g) && s[7] == Add(h[7], r.h)
    ensures s == AddTo(h, r)
  {
    hide Add;
  }

  lemma EmptyMessage()
    ensures HashBlocks(H0(), Full([])) == H0() && Rest([]) == []
  {
    hide H0;
  }

  class Sha256Ctx {
    const state: array<bv32>
    const buf: array<bv8>
    var total: nat
    ghost var msg: seq<bv8>

    /** What the context stands for after `msg` has been fed in: the hash of its whole blocks, the
        bytes left over, and its length as a 64-bit number. */
    ghost predicate Valid()
      reads this, state, buf
    {
      && state.Length == 8 && buf.Length == 64
      && total == |msg| % TWO_64
      && state[..] == HashBlocks(H0(), Full(msg))
      && buf[..|msg| % 64] == Rest(msg)
    }

    /** `sha256_init` */
    constructor ()
      ensures Valid() && msg == [] && fresh(state) && fresh(buf)
    {
      state := new bv32[8](i requires 0 <= i < 8 => H0()[i]);
      buf := new bv8[64](i => 0);
      total := 0;
      msg := [];
      new;
      assert state[..] == H0();
      EmptyMessage();
      hide H0, HashBlocks, Full, Rest;
    }

    /** `sha256_transform`: folds the buffered block into the state. */
    method Transform()
      requires state.Length == 8 && buf.Length == 64
      modifies state
      ensures state[..] == Compress(old(state[..]), buf[..])
    {
      hide W, Rounds, K, Add;
      ghost var h, block := state[..], buf[..];
      var w := Schedule();
      var r := Regs(state[0], state[1], state[2], state[3], state[4], state[5], state[6], state[7]);
      r := RunRounds(r, w, h, block);
      AddRegs(r);
    }

    /** The registers are added to the state. */
    method AddRegs(r: Regs)
      requires state.Length == 8
      modifies state
      ensures state[..] == AddTo(old(state[..]), r)
    {
      hide Add;
      ghost var h := state[..];
      AddFour(0, r.a, r.b, r.c, r.d);
      AddFour(4, r.e, r.f, r.g, r.h);
      AddToAt(h, r, state[..]);
    }

    method AddFour(i: nat, a: bv32, b: bv32, c: bv32, d: bv32)
      requires state.Length == 8 && i + 4 <= 8
      modifies state
      ensures state[i] == Add(old(state[i]), a) && state[i + 1] == Add(old(state[i + 1]), b)
      ensures state[i + 2] == Add(old(state[i + 2]), c) && state[i + 3] == Add(old(state[i + 3]), d)
      ensures forall k | 0 <= k < 8 && !(i <= k < i + 4) :: state[k] == old(state[k])
    {
      hide Add;
      state[i] := Add(state[i], a);
      state[i + 1] := Add(state[i + 1], b);
      state[i + 2] := Add(state[i + 2], c);
      state[i + 3] := Add(state[i + 3], d);
    }

    method Schedule() returns (w: array<bv32>)
      requires buf.Length == 64
      ensures fresh(w) && w.Length == 64 && forall t | 0 <= t < 64 :: w[t] == W(buf[..], t)
    {
      hide W, SmallSigma0, SmallSigma1, Add;
      ghost var block := buf[..];
      w := new bv32[64](i => 0);
      for i := 0 to 16
        invariant forall t | 0 <= t < i :: w[t] == W(block, t)
      {
        WStep(block, i);
        w[i] := ((buf[i * 4] as bv32) << 24) | ((buf[i * 4 + 1] as bv32) << 16)
                | ((buf[i * 4 + 2] as bv32) << 8) | (buf[i * 4 + 3] as bv32);
        assert w[i] == Word(block, i);
      }
      hide Word;
      for i := 16 to 64
        invariant forall t | 0 <= t < i :: w[t] == W(block, t)
      {
        WStep(block, i);
        w[i] := Add(Add(Add(SmallSigma1(w[i - 2]), w[i - 7]), SmallSigma0(w[i - 15])), w[i - 16]);
      }
    }

    method RunRounds(start: Regs, w: array<bv32>, ghost h: seq<bv32>, ghost block: seq<bv8>) returns (r: Regs)
      requires |h| == 8 && |block| == 64 && start == Start(h)
      requires w.Length == 64 && forall t | 0 <= t < 64 :: w[t] == W(block, t)
      ensures r == Rounds(h, block, 64)
    {
      hide W, K, Ch, Maj, BigSigma0, BigSigma1, Rounds, Add;
      RoundsNone(h, block);
      r := start;
      for i := 0 to 64
        invariant r == Rounds(h, block, i)
      {
        RoundsStep(h, block, i);
        var t1 := Add(Add(Add(Add(r.h, BigSigma1(r.e)), Ch(r.e, r.f, r.g)), K(i)), w[i]);
        var t2 := Add(BigSigma0(r.a), Maj(r.a, r.b, r.c));
        r := Regs(Add(t1, t2), r.a, r.b, r.c, Add(r.d, t1), r.e, r.f, r.g);
      }
    }

    /** `sha256_update`: feeds in one chunk. */
    method Update(data: seq<bv8>)
      requires Valid()
      modifies this, state, buf
      ensures Valid() && msg == old(msg) + data
    {
      hide HashBlocks, Compress, Full, Rest;
      TotalMod(|msg|, total, |data|);
      var idx := total % 64;
      total := (total + |data|) % TWO_64;
      ghost var m := msg;
      for i := 0 to |data|
        invariant msg == old(msg) && total == (|msg| + |data|) % TWO_64
        invariant m == old(msg) + data[..i] && idx == |m| % 64
        invariant state[..] == HashBlocks(H0(), Full(m))
        invariant buf[..idx] == Rest(m)
      {
        SplitStep(m, data[i]);
        buf[idx] := data[i];
        idx := idx + 1;
        assert buf[..idx] == Rest(m) + [data[i]];
        if idx == 64 {
          assert buf[..] == buf[..64];
          HashAppend(H0(), Full(m), buf[..]);
          Transform();
          idx := 0;
        }
        m := m + [data[i]];
      }
      assert data[..|data|] == data;
      msg := m;
    }

    /** Sets `buf[from..to)` to zero. */
    method Clear(from: nat, to: nat)
      requires from <= to <= buf.Length
      modifies buf
      ensures buf[..] == old(buf[..])[..from] + Zeros(to - from) + old(buf[..])[to..]
    {
      var idx := from;
      while idx < to
        invariant from <= idx <= to
        invariant buf[..] == old(buf[..])[..from] + Zeros(idx - from) + old(buf[..])[idx..]
      {
        buf[idx] := 0;
        idx := idx + 1;
      }
    }

    /** Writes the length in bits, most significant byte first. */
    method PutLength(bits: nat)
      requires buf.Length == 64 && bits < TWO_64
      modifies buf
      ensures buf[..] == old(buf[..])[..56] + Be64(bits)
    {
      var i := 0;
      while i < 8
        invariant 0 <= i <= 8
        invariant buf[..56] == old(buf[..56])
        invariant forall j | 0 <= j < i :: buf[56 + j] == Be64(bits)[j]
      {
        buf[56 + i] := (bits / Pow256(7 - i) % 256) as bv8;
        i := i + 1;
      }
    }

    /** Zeros and the length complete the last block, which is folded in. */
    method FinishBlock(idx: nat, bits: nat, ghost done: seq<bv8>, ghost head: seq<bv8>)
      requires state.Length == 8 && buf.Length == 64 && idx <= 56 && bits < TWO_64
      requires |done| % 64 == 0 && state[..] == HashBlocks(H0(), done) && buf[..idx] == head
      modifies state, buf
      ensures state[..] == HashBlocks(H0(), done + (head + Zeros(56 - idx) + Be64(bits)))
    {
      hide HashBlocks, Compress, Be64;
      Clear(idx, 56);
      PutLength(bits);
      assert buf[..] == head + Zeros(56 - idx) + Be64(bits);
      HashAppend(H0(), done, buf[..]);
      Transform();
    }

    /** Zeros fill up a block without room for the length, which is folded in. */
    method FillBlock(idx: nat, ghost done: seq<bv8>, ghost head: seq<bv8>)
      requires state.Length == 8 && buf.Length == 64 && idx <= 64
      requires |done| % 64 == 0 && state[..] == HashBlocks(H0(), done) && buf[..idx] == head
      modifies state, buf
      ensures state[..] == HashBlocks(H0(), done + (head + Zeros(64 - idx)))
    {
      hide HashBlocks, Compress;
      Clear(idx, 64);
      assert buf[..] == head + Zeros(64 - idx);
      HashAppend(H0(), done, buf[..]);
      Transform();
    }

    /** `sha256_final`: pads the message and writes out the digest. */
    method Final() returns (hash: seq<bv8>)
      requires Valid()
      modifies this, state, buf
      ensures hash == Sha256(msg) && msg == old(msg)
    {
      hide HashBlocks, Compress, Be64, Pad, Full, Rest, BigEndian, H0, Zeros;
      TotalMod(|msg|, total, 0);
      PadCases(msg);
      var idx := total % 64;
      var bits := BitLength();
      buf[idx] := 0x80;
      idx := idx + 1;
      ghost var head := Rest(msg) + [0x80];
      assert buf[..idx] == head;
      if idx > 56 {
        FillBlock(idx, Full(msg), head);
        assert [] + Zeros(56) == Zeros(56);
        FinishBlock(0, bits, Full(msg) + (head + Zeros(64 - idx)), []);
      } else {
        FinishBlock(idx, bits, Full(msg), head);
      }
      hash := Digest();
    }

    method BitLength() returns (bits: nat)
      requires Valid()
      ensures bits == 8 * |msg| % TWO_64
    {
      BitsMod(|msg|, total);
      bits := total * 8 % TWO_64;
    }

    method Digest() returns (hash: seq<bv8>)
      requires state.Length == 8
      ensures hash == BigEndian(state[..])
    {
      hash := [];
      for i := 0 to 8
        invariant hash == BigEndian(state[..i])
      {
        assert state[..i + 1][..i] == state[..i];
        hash := hash + [((state[i] >> 24) & 0xff) as bv8, ((state[i] >> 16) & 0xff) as bv8,
                        ((state[i] >> 8) & 0xff) as bv8, (state[i] & 0xff) as bv8];
      }
      assert state[..8] == state[..];
    }
  }

  lemma TotalMod(len: nat, total: nat, more: nat)
    requires total == len % TWO_64
    ensures total % 64 == len % 64 && (total + more) % TWO_64 == (len + more) % TWO_64
  {}

  lemma {:induction false} ModShift(a: nat, k: nat)
    ensures (a + k * TWO_64) % TWO_64 == a % TWO_64
  {
    if k > 0 { ModShift(a, k - 1); }
  }

  lemma BitsMod(len: nat, total: nat)
    requires total == len % TWO_64
    ensures total * 8 % TWO_64 == 8 * len % TWO_64
  {
    var q := len / TWO_64;
    assert 8 * len == total * 8 + (8 * q) * TWO_64;
    ModShift(total * 8, 8 * q);
  }

  /** The padded message is its whole blocks and one or two more. */
  lemma PadCases(m: seq<bv8>)
    ensures |m| % 64 < 56 ==> Pad(m) == Full(m) + (Rest(m) + [0x80] + Zeros(55 - |m| % 64) + Be64(8 * |m| % TWO_64))
    ensures |m| % 64 >= 56 ==>
              Pad(m) == Full(m) + (Rest(m) + [0x80] + Zeros(63 - |m| % 64)) + (Zeros(56) + Be64(8 * |m| % TWO_64))
  {
    hide Be64;
    var r, len, front := |m| % 64, Be64(8 * |m| % TWO_64), Full(m) + Rest(m);
    assert m == front;
    if r < 56 {
      assert Gap(|m|) == 55 - r;
      hide Full, Rest, Zeros;
    } else {
      assert Gap(|m|) == (63 - r) + 56;
      assert Zeros(63 - r + 56) == Zeros(63 - r) + Zeros(56);
      hide Full, Rest, Zeros;
    }
  }

  function Concat(chunks: seq<seq<bv8>>): seq<bv8> {
    if chunks == [] then [] else Concat(chunks[..|chunks| - 1]) + chunks[|chunks| - 1]
  }

  /** Main theorem: however a message is split over `sha256_update` calls, the digest is the one of
      FIPS 180-4. */
  method HashChunks(chunks: seq<seq<bv8>>) returns (hash: seq<bv8>)
    ensures hash == Sha256(Concat(chunks))
  {
    var ctx := new Sha256Ctx();
    for i := 0 to |chunks|
      invariant ctx.Valid() && fresh(ctx) && fresh(ctx.state) && fresh(ctx.buf)
      invariant ctx.msg == Concat(chunks[..i])
    {
      assert chunks[..i + 1][..i] == chunks[..i];
      ctx.Update(chunks[i]);
    }
    assert chunks[..|chunks|] == chunks;
    hash := ctx.Final();
  }
}
