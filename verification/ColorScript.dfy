/** The script object of the color-matrix intrinsic: a built kernel is reused while the key does not
    change, and run over the groups of four pixels of a row. */
module ColorScript {
  import opened Common
  import opened Simd
  import opened ColorMatrix
  import opened ColorKernel
  import opened ColorExact

  /** The bytes of a pixel. */
  type Pixel = seq<int>

  ghost predicate RowOk(row: seq<Pixel>) {
    forall x :: 0 <= x < |row| ==> ChannelOk(row[x])
  }

  /** Pixels `4 * g` to `4 * g + 3`, by channel. */
  function Group(row: seq<Pixel>, g: nat): (px: Pixels)
    requires RowOk(row) && 4 * g + 4 <= |row|
    ensures ValidPixels(px)
  {
    seq(4, i requires 0 <= i < 4 => [row[4 * g][i], row[4 * g + 1][i], row[4 * g + 2][i], row[4 * g + 3][i]])
  }

  lemma SameGroup(a: seq<Pixel>, b: seq<Pixel>, g: nat)
    requires RowOk(a) && RowOk(b) && |a| == |b| && 4 * g + 4 <= |a| && forall x :: 4 * g <= x < |a| ==> a[x] == b[x]
    ensures Group(a, g) == Group(b, g)
  {
  }

  /** How many channels `store_u8_*` writes. */
  function StoreCount(key: Key): nat {
    if key.outVec >= 3 then 4 else key.outVec
  }

  /** Pixel `e` of the group in D0 to D3, over what was there. */
  function StorePixel(r: Regs, key: Key, e: nat, was: Pixel): (p: Pixel)
    requires ValidRegs(r) && e < 4 && ChannelOk(was)
    ensures ChannelOk(p)
  {
    seq(4, j requires 0 <= j < 4 => if j < StoreCount(key) then Byte(r, j, e) else was[j])
  }

  /** The group of pixels in `r` is what a turn over `px` stores. */
  ghost predicate Yields(r: Regs, r0: Regs, key: Key, c: Coeffs, px: Pixels)
    requires ValidRegs(r0) && c.Valid() && ValidPixels(px) && KeyOk(key)
  {
    ValidRegs(r) && forall j: nat, e: nat :: j < 4 && e < 4 ==> Byte(r, j, e) == Stored(r0, key, c, px, j, e)
  }

  lemma TurnYields(r: Regs, r0: Regs, key: Key, c: Coeffs, px: Pixels, vin: nat, vout: nat) returns (p: Regs)
    requires c.Valid() && ValidRegs(r0) && Ready(r, r0, key, c) && ValidPixels(px) && KeyFor(key, c, vin, vout)
    ensures p == Packed(r, key, px) && Ready(p, r0, key, c) && Yields(p, r0, key, c, px)
  {
    p := TurnReady(r, r0, key, c, px, vin, vout);
    forall j: nat, e: nat | j < 4 && e < 4 ensures Byte(p, j, e) == Stored(r0, key, c, px, j, e) {
      var q := TurnStores(r, r0, key, c, px, vin, vout, j, e);
    }
  }

  /** Pixel `x` of a row as the kernel leaves it, in the channels that the output has. */
  ghost predicate Done(p: Pixel, r0: Regs, key: Key, c: Coeffs, row: seq<Pixel>, vout: nat, x: nat)
    requires ValidRegs(r0) && c.Valid() && RowOk(row) && KeyOk(key)
  {
    4 * (x / 4) + 4 <= |row| && DoneIn(p, r0, key, c, Group(row, x / 4), vout, x % 4)
  }

  ghost predicate DoneIn(p: Pixel, r0: Regs, key: Key, c: Coeffs, px: Pixels, vout: nat, e: nat)
    requires ValidRegs(r0) && c.Valid() && ValidPixels(px) && KeyOk(key) && e < 4
  {
    |p| == 4 && forall j: nat :: j < Vec(vout) ==> p[j] == Stored(r0, key, c, px, j, e)
  }

  /** The conditions for all channels of the output. */
  ghost predicate AllRight(key: Key, c: Coeffs, vin: nat, vout: nat)
    requires c.Valid()
  {
    forall j: nat :: j < Vec(vout) ==> ChannelWhen(key, c, vin, j)
  }

  ghost predicate ChannelWhen(key: Key, c: Coeffs, vin: nat, j: nat)
    requires c.Valid() && j < 4
  {
    if Source(key, j) < PackCount(key) then StoredWhen(key, c, vin, Source(key, j))
    else key.copyAlpha || (Vec(vin) < 4 && NoRise(c, Vec(vin)))
  }

  /** They are exact, for the channels that are packed, copied and dropped. */
  lemma ChannelIff(key: Key, c: Coeffs, vin: nat, vout: nat, j: nat)
    requires c.Valid() && KeyFor(key, c, vin, vout) && j < Vec(vout)
    ensures ChannelRight(key, c, vin, j) <==> ChannelWhen(key, c, vin, j)
  {
    if Source(key, j) < PackCount(key) {
      StoredIff(key, c, vin, vout, j);
    } else if key.copyAlpha {
      forall r0: Regs, px: Pixels, e: nat | ValidRegs(r0) && ValidPixels(px) && e < 4
        ensures Stored(r0, key, c, px, j, e) == Target(c, px, vin, j, e)
      {
        CopiedAlphaRight(r0, key, c, px, vin, vout, e);
      }
    } else {
      DotAlphaIff(key, c, vin, vout);
    }
  }

  /** The first `n` channels of a pixel times column `j` of the matrix. */
  function Dot(c: Coeffs, p: Pixel, n: nat, j: nat): int
    requires c.Valid() && ChannelOk(p) && n <= 4 && j < 4
  {
    if n == 0 then 0 else Dot(c, p, n - 1, j) + p[n - 1] * c.ip[4 * (n - 1) + j]
  }

  /** Channel `j` of the product of a pixel with the matrix: rounded, without the eight bits of fraction, as a
      byte. */
  function Product(c: Coeffs, p: Pixel, vin: nat, j: nat): int
    requires c.Valid() && ChannelOk(p) && j < 4
  {
    var v := (Dot(c, p, Vec(vin), j) + c.ipa[j] + 128) / 256;
    if v < 0 then 0 else if v > 255 then 255 else v
  }

  /** Lane `x % 4` of a group is pixel `x` of the row. */
  lemma LaneIs(row: seq<Pixel>, x: nat, i: nat)
    requires RowOk(row) && 4 * (x / 4) + 4 <= |row| && i < 4
    ensures x < |row| && Group(row, x / 4)[i][x % 4] == row[x][i]
  {
    var e := x % 4;
    assert x == 4 * (x / 4) + e;
    assert ChannelOk(row[x]);
  }

  lemma {:induction false} SumIsDot(c: Coeffs, row: seq<Pixel>, x: nat, n: nat, j: nat)
    requires c.Valid() && RowOk(row) && 4 * (x / 4) + 4 <= |row| && n <= 4 && j < 4
    ensures x < |row| && ChannelOk(row[x]) && Sum(c, Group(row, x / 4), n, j, x % 4) == Dot(c, row[x], n, j)
  {
    assert x < |row| && ChannelOk(row[x]);
    if n > 0 {
      SumIsDot(c, row, x, n - 1, j);
      LaneIs(row, x, n - 1);
      SumStep(c, Group(row, x / 4), n, j, x % 4, row[x][n - 1] * c.ip[4 * (n - 1) + j]);
    }
  }

  /** Under those conditions a pixel that was written is the product of that pixel of the row, in every channel. */
  lemma DoneRight(p: Pixel, r0: Regs, key: Key, c: Coeffs, row: seq<Pixel>, vin: nat, vout: nat, x: nat, j: nat)
    requires ValidRegs(r0) && c.Valid() && RowOk(row) && KeyFor(key, c, vin, vout) && j < Vec(vout)
    requires Done(p, r0, key, c, row, vout, x) && AllRight(key, c, vin, vout)
    ensures x < |row| && |p| == 4 && p[j] == Product(c, row[x], vin, j)
  {
    var px, e := Group(row, x / 4), x % 4;
    assert ChannelWhen(key, c, vin, j);
    ChannelIff(key, c, vin, vout, j);
    assert Stored(r0, key, c, px, j, e) == Target(c, px, vin, j, e);
    SumIsDot(c, row, x, Vec(vin), j);
    WantSat(Sum(c, px, Vec(vin), j, e), c.ipa[j]);
  }

  lemma RowRight(out: seq<Pixel>, r0: Regs, key: Key, c: Coeffs, row: seq<Pixel>, vin: nat, vout: nat)
    requires ValidRegs(r0) && c.Valid() && RowOk(row) && KeyFor(key, c, vin, vout) && AllRight(key, c, vin, vout)
    requires |out| <= |row| && forall x :: 0 <= x < |out| ==> Done(out[x], r0, key, c, row, vout, x)
    ensures forall x, j: nat :: 0 <= x < |out| && j < Vec(vout) ==>
        |out[x]| == 4 && out[x][j] == Product(c, row[x], vin, j)
  {
    forall x, j: nat | 0 <= x < |out| && j < Vec(vout)
      ensures |out[x]| == 4 && out[x][j] == Product(c, row[x], vin, j)
    {
      DoneRight(out[x], r0, key, c, row, vin, vout, x, j);
    }
  }

  lemma GroupDone(r: Regs, r0: Regs, key: Key, c: Coeffs, row: seq<Pixel>, vin: nat, vout: nat, g: nat, e: nat,
      was: Pixel)
    requires ValidRegs(r0) && c.Valid() && RowOk(row) && 4 * g + 4 <= |row| && e < 4 && ChannelOk(was)
    requires KeyFor(key, c, vin, vout) && Yields(r, r0, key, c, Group(row, g))
    ensures Done(StorePixel(r, key, e, was), r0, key, c, row, vout, 4 * g + e)
  {
    assert (4 * g + e) / 4 == g && (4 * g + e) % 4 == e;
    forall j: nat | j < Vec(vout) ensures StorePixel(r, key, e, was)[j] == Stored(r0, key, c, Group(row, g), j, e) {
      assert Byte(r, j, e) == Stored(r0, key, c, Group(row, g), j, e);
    }
  }

  /** The bytes of `p` that are no channels of the output: three channels are stored as four, with the alpha of the
      input or 0; otherwise they are as they were. */
  predicate Beyond(p: Pixel, was: Pixel, q: Pixel, vin: nat, vout: nat) {
    |p| == |was| == |q| == 4 && forall j: nat :: Vec(vout) <= j < 4 ==>
      p[j] == if Vec(vout) < 3 then was[j] else if Vec(vin) == 4 then q[j] else 0
  }

  lemma GroupBeyond(r: Regs, r0: Regs, key: Key, c: Coeffs, row: seq<Pixel>, vin: nat, vout: nat, g: nat, e: nat,
      was: Pixel)
    requires ValidRegs(r0) && c.Valid() && RowOk(row) && 4 * g + 4 <= |row| && e < 4 && ChannelOk(was)
    requires KeyFor(key, c, vin, vout) && Yields(r, r0, key, c, Group(row, g))
    ensures Beyond(StorePixel(r, key, e, was), was, row[4 * g + e], vin, vout)
  {
    assert (4 * g + e) / 4 == g && (4 * g + e) % 4 == e;
    assert ChannelOk(row[4 * g + e]);
    LaneIs(row, 4 * g + e, 3);
    assert Byte(r, 3, e) == Stored(r0, key, c, Group(row, g), 3, e);
  }

  /** A row in which the group has been stored. */
  ghost predicate StoredIn(r: Regs, key: Key, at: nat, was: seq<Pixel>, now: seq<Pixel>)
    requires ValidRegs(r) && RowOk(was)
  {
    |now| == |was| && forall x :: 0 <= x < |was| ==>
      now[x] == if at <= x < at + 4 then StorePixel(r, key, x - at, was[x]) else was[x]
  }

  lemma PixelDone(r: Regs, r0: Regs, key: Key, c: Coeffs, row: seq<Pixel>, vin: nat, vout: nat, g: nat, x: nat,
      was: Pixel, p: Pixel)
    requires ValidRegs(r0) && c.Valid() && RowOk(row) && 4 * g <= x < 4 * g + 4 <= |row| && ChannelOk(was)
    requires KeyFor(key, c, vin, vout) && Yields(r, r0, key, c, Group(row, g))
    requires p == StorePixel(r, key, x - 4 * g, was)
    ensures Done(p, r0, key, c, row, vout, x) && Beyond(p, was, row[x], vin, vout)
  {
    GroupDone(r, r0, key, c, row, vin, vout, g, x - 4 * g, was);
    GroupBeyond(r, r0, key, c, row, vin, vout, g, x - 4 * g, was);
  }

  /** The pixels of group `g` have been written. */
  ghost predicate GroupWritten(r0: Regs, key: Key, c: Coeffs, row: seq<Pixel>, vin: nat, vout: nat, g: nat,
      was: seq<Pixel>, now: seq<Pixel>)
    requires ValidRegs(r0) && c.Valid() && RowOk(row) && KeyOk(key) && 4 * g + 4 <= |row| == |was| == |now|
  {
    forall x :: 4 * g <= x < 4 * g + 4 ==>
      Done(now[x], r0, key, c, row, vout, x) && Beyond(now[x], was[x], row[x], vin, vout)
  }

  lemma StoresDone(r: Regs, r0: Regs, key: Key, c: Coeffs, row: seq<Pixel>, vin: nat, vout: nat, g: nat,
      was: seq<Pixel>, now: seq<Pixel>)
    requires ValidRegs(r0) && c.Valid() && RowOk(row) && 4 * g + 4 <= |row| == |was| && RowOk(was)
    requires KeyFor(key, c, vin, vout) && Yields(r, r0, key, c, Group(row, g)) && StoredIn(r, key, 4 * g, was, now)
    ensures GroupWritten(r0, key, c, row, vin, vout, g, was, now)
  {
    forall x | 4 * g <= x < 4 * g + 4
      ensures Done(now[x], r0, key, c, row, vout, x) && Beyond(now[x], was[x], row[x], vin, vout)
    {
      PixelDone(r, r0, key, c, row, vin, vout, g, x, was[x], now[x]);
    }
  }

  /** `store_u8_*`. */
  method StoreGroup(r: Regs, key: Key, output: array<Pixel>, at: nat)
    requires ValidRegs(r) && at + 4 <= output.Length && RowOk(output[..])
    modifies output
    ensures RowOk(output[..]) && StoredIn(r, key, at, old(output[..]), output[..])
  {
    var e := 0;
    while e < 4
      invariant 0 <= e <= 4 && RowOk(output[..])
      invariant forall x :: 0 <= x < output.Length ==>
        output[x] == if at <= x < at + e then StorePixel(r, key, x - at, old(output[x])) else old(output[x])
    {
      output[at + e] := StorePixel(r, key, e, output[at + e]);
      e := e + 1;
    }
  }

  /** The part of the script object that caches the kernel. */
  class Script {
    var lastKey: Key
    var kernel: Option<seq<bv32>>

    ghost predicate Valid()
      reads this
    {
      kernel.Some? ==> kernel.value == Kernel(lastKey)
    }

    constructor ()
      ensures Valid() && kernel.None?
    {
      lastKey := Key(0, 0, false, false, {}, {});
      kernel := None;
    }

    /** `preLaunch`, U8 to U8, with the coefficients of this launch.  `mapped` says whether the code
        page could be mapped.  A kernel is rebuilt only when the key changes, and whatever kernel is
        there afterwards, new or kept, computes each column right exactly under its condition. */
    method PreLaunch(c: Coeffs, vin: nat, vout: nat, mapped: bool)
      requires Valid() && c.Valid()
      modifies this
      ensures Valid() && KeyFor(lastKey, c, vin, vout)
      ensures old(kernel.Some?) && lastKey == old(lastKey) ==> kernel == old(kernel)
      ensures !(old(kernel.Some?) && lastKey == old(lastKey)) ==> kernel.Some? == mapped
      ensures forall j: nat :: j < Vec(vout) && Column(lastKey, j) ==>
        (AlwaysRight(lastKey, c, vin, j) <==> RightWhen(lastKey, c, vin, j))
    {
      var key := ComputeKey(c, vin, vout);
      if kernel.None? || lastKey != key {
        kernel := None;
        if mapped {
          var code := Build(key);
          kernel := Some(code);
        }
        lastKey := key;
      }
      forall j: nat | j < Vec(vout) && Column(lastKey, j)
        ensures AlwaysRight(lastKey, c, vin, j) <==> RightWhen(lastKey, c, vin, j)
      {
        RightIff(lastKey, c, vin, vout, j);
      }
    }

    /** One turn of the generated loop, on the registers. */
    method RunGroup(c: Coeffs, ghost vin: nat, ghost vout: nat, r: Regs, px: Pixels, ghost r0: Regs) returns (r': Regs)
      requires Valid() && kernel.Some? && c.Valid() && KeyFor(lastKey, c, vin, vout)
      requires ValidRegs(r0) && Ready(r, r0, lastKey, c) && ValidPixels(px)
      ensures Ready(r', r0, lastKey, c) && Yields(r', r0, lastKey, c, px)
    {
      r' := Pack(Run(Unpacked(r, lastKey, px), DecodeAll(kernel.value)), lastKey);
      ghost var p := TurnYields(r, r0, lastKey, c, px, vin, vout);
    }

    /** One turn of the generated loop, with its loads and stores. */
    method Turn4(c: Coeffs, ghost vin: nat, ghost vout: nat, r: Regs, ghost r0: Regs,
                 input: array<Pixel>, output: array<Pixel>, g: nat, ghost row: seq<Pixel>) returns (r': Regs)
      requires Valid() && kernel.Some? && c.Valid() && KeyFor(lastKey, c, vin, vout)
      requires ValidRegs(r0) && Ready(r, r0, lastKey, c) && input.Length == output.Length == |row| && 4 * g + 4 <= |row|
      requires RowOk(input[..]) && RowOk(output[..]) && RowOk(row) && forall x :: 4 * g <= x < |row| ==>
          input[x] == row[x]
      modifies output
      ensures Ready(r', r0, lastKey, c) && RowOk(output[..])
      ensures forall x :: 0 <= x < |row| && !(4 * g <= x < 4 * g + 4) ==> output[x] == old(output[x])
      ensures GroupWritten(r0, lastKey, c, row, vin, vout, g, old(output[..]), output[..])
    {
      var px := Group(input[..], g);
      SameGroup(input[..], row, g);
      r' := RunGroup(c, vin, vout, r, px, r0);
      ghost var was := output[..];
      StoreGroup(r', lastKey, output, 4 * g);
      StoresDone(r', r0, lastKey, c, row, vin, vout, g, was, output[..]);
    }

    /** The generated kernel on `count` groups.  The input may be the output. */
    method RunKernel(c: Coeffs, ghost vin: nat, ghost vout: nat, r0: Regs, input: array<Pixel>, output: array<Pixel>,
        count: nat)
      requires Valid() && kernel.Some? && c.Valid() && KeyFor(lastKey, c, vin, vout) && ValidRegs(r0)
      requires input.Length == output.Length && 4 * count <= input.Length && RowOk(input[..]) && RowOk(output[..])
      modifies output
      ensures RowOk(output[..]) && RowOk(old(input[..]))
      ensures forall x :: 0 <= x < 4 * count ==> Done(output[x], r0, lastKey, c, old(input[..]), vout, x)
      ensures forall x :: 0 <= x < 4 * count ==> Beyond(output[x], old(output[x]), old(input[x]), vin, vout)
      ensures forall x :: 4 * count <= x < output.Length ==> output[x] == old(output[x])
    {
      var r := Prefix(r0, c);
      PrefixReady(r0, lastKey, c);
      ghost var row := input[..];
      var g := 0;
      while g < count
        invariant g <= count && Ready(r, r0, lastKey, c) && RowOk(output[..]) && RowOk(input[..])
        invariant forall x :: 4 * g <= x < input.Length ==> input[x] == row[x] && output[x] == old(output[x])
        invariant forall x :: 0 <= x < 4 * g ==> Done(output[x], r0, lastKey, c, row, vout, x)
        invariant forall x :: 0 <= x < 4 * g ==> Beyond(output[x], old(output[x]), row[x], vin, vout)
      {
        r := Turn4(c, vin, vout, r, r0, input, output, g, row);
        g := g + 1;
      }
    }

    /** `kernel`: a row, with the generated code if there is some, or pixel by pixel.  `written` pixels are
        written; the generated code leaves the last ones of a row that is no multiple of four. */
    method RunRow(c: Coeffs, ghost vin: nat, ghost vout: nat, simd: bool, r0: Regs, one: Pixel -> Pixel,
                  input: array<Pixel>, output: array<Pixel>) returns (ghost written: nat)
      requires Valid() && c.Valid() && KeyFor(lastKey, c, vin, vout) && ValidRegs(r0)
      requires input.Length == output.Length && RowOk(input[..]) && RowOk(output[..])
      requires forall p :: ChannelOk(p) ==> ChannelOk(one(p))
      modifies output
      ensures RowOk(old(input[..])) && written <= output.Length
      ensures written == output.Length <==> !(simd && kernel.Some? && output.Length >= 4) || output.Length % 4 == 0
      ensures forall x :: written <= x < output.Length ==> output[x] == old(output[x])
      ensures simd && kernel.Some? && output.Length >= 4 ==> written == 4 * (output.Length / 4)
      ensures simd && kernel.Some? && output.Length >= 4 ==>
        forall x :: 0 <= x < written ==> Done(output[x], r0, lastKey, c, old(input[..]), vout, x)
      ensures simd && kernel.Some? && output.Length >= 4 && AllRight(lastKey, c, vin, vout) ==>
        forall x, j: nat :: 0 <= x < written && j < Vec(vout) ==>
          |output[x]| == 4 && output[x][j] == Product(c, old(input[x]), vin, j)
      ensures simd && kernel.Some? && output.Length >= 4 ==>
        forall x :: 0 <= x < written ==> Beyond(output[x], old(output[x]), old(input[x]), vin, vout)
      ensures !(simd && kernel.Some? && output.Length >= 4) ==> forall x :: 0 <= x < written ==>
          output[x] == one(old(input[x]))
    {
      if simd && kernel.Some? && output.Length >= 4 {
        RunKernel(c, vin, vout, r0, input, output, output.Length / 4);
        written := 4 * (output.Length / 4);
        if AllRight(lastKey, c, vin, vout) {
          RowRight(output[..written], r0, lastKey, c, old(input[..]), vin, vout);
          assert forall x :: 0 <= x < written ==> output[..written][x] == output[x];
        }
      } else {
        var x1 := 0;
        while x1 < output.Length
          invariant 0 <= x1 <= output.Length
          invariant forall x :: x1 <= x < output.Length ==> input[x] == old(input[x]) && output[x] == old(output[x])
          invariant forall x :: 0 <= x < x1 ==> output[x] == one(old(input[x]))
        {
          output[x1] := one(input[x1]);
          x1 := x1 + 1;
        }
        written := output.Length;
      }
    }
  }
}
