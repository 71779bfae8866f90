/**
 The 4-bit weights of tools/export_verify.py, over real numbers: blocks of 32 weights become codes of four bits with a
 scale and a rounded zero point, packed two to a byte; what the codes lose is quantized again the same way.
 */
module Quantize {
  const BLOCK: nat := 32

  type Block = seq<real>

  // ---------------------------------------------------------------- rounding

  /** To the nearest integer, to the even one half-way. */
  function Round(x: real): int {
    var f := x.Floor;
    var d := x - f as real;
    if d < 0.5 then f else if d > 0.5 then f + 1 else if f % 2 == 0 then f else f + 1
  }

  lemma RoundIsNear(x: real, n: int)
    ensures -0.5 <= Round(x) as real - x <= 0.5
    ensures -0.5 < n as real - x < 0.5 ==> n == Round(x)
    ensures Round(x) as real - x == 0.5 || Round(x) as real - x == -0.5 ==> Round(x) % 2 == 0
  {
  }

  function Clip(n: int): nat {
    if n < 0 then 0 else if n > 15 then 15 else n
  }

  // ---------------------------------------------------------------- one block

  /** The least of the weights and zero. */
  function Lo(b: Block): real {
    if b == [] then 0.0
    else
      var before := Lo(b[..|b| - 1]);
      if b[|b| - 1] < before then b[|b| - 1] else before
  }

  /** The greatest of the weights and zero. */
  function Hi(b: Block): real {
    if b == [] then 0.0
    else
      var before := Hi(b[..|b| - 1]);
      if b[|b| - 1] > before then b[|b| - 1] else before
  }

  lemma {:induction false} LoHiBound(b: Block)
    ensures Lo(b) <= 0.0 <= Hi(b)
    ensures forall i :: 0 <= i < |b| ==> Lo(b) <= b[i] <= Hi(b)
  {
    if b != [] {
      LoHiBound(b[..|b| - 1]);
    }
  }

  /** An interval around zero that holds the weights of a block. */
  predicate Spans(b: Block, lo: real, hi: real) {
    lo <= 0.0 <= hi && forall i :: 0 <= i < |b| ==> lo <= b[i] <= hi
  }

  lemma {:induction false} RangeIsLeast(b: Block, lo: real, hi: real)
    requires Spans(b, lo, hi)
    ensures lo <= Lo(b) && Hi(b) <= hi
  {
    if b != [] {
      RangeIsLeast(b[..|b| - 1], lo, hi);
    }
  }

  lemma {:induction false} RangeIsAttained(b: Block)
    ensures Lo(b) == 0.0 || Lo(b) in b
    ensures Hi(b) == 0.0 || Hi(b) in b
  {
    if b != [] {
      RangeIsAttained(b[..|b| - 1]);
      assert forall w :: w in b[..|b| - 1] ==> w in b;
    }
  }

  /** The range of a block is the one interval around zero that holds its weights and ends at zero or at a weight. */
  lemma RangeIsExact(b: Block, lo: real, hi: real)
    ensures lo == Lo(b) && hi == Hi(b) <==>
              Spans(b, lo, hi) && (lo == 0.0 || lo in b) && (hi == 0.0 || hi in b)
  {
    hide Lo, Hi;
    LoHiBound(b);
    RangeIsAttained(b);
    if Spans(b, lo, hi) {
      RangeIsLeast(b, lo, hi);
    }
  }

  function Scale(b: Block): (s: real)
    ensures s > 0.0
  {
    LoHiBound(b);
    var s := (Hi(b) - Lo(b)) / 15.0;
    if s == 0.0 then 1.0 else s
  }

  function ZeroPoint(b: Block): nat {
    Clip(Round(-Lo(b) / Scale(b)))
  }

  function Code(b: Block, w: real): nat {
    Clip(Round(w / Scale(b)) + ZeroPoint(b))
  }

  function Codes(b: Block, ws: seq<real>): (codes: seq<nat>)
    ensures |codes| == |ws| && forall i :: 0 <= i < |ws| ==> codes[i] == Code(b, ws[i])
  {
    if ws == [] then [] else Codes(b, ws[..|ws| - 1]) + [Code(b, ws[|ws| - 1])]
  }

  /** What a code stands for. */
  function Value(code: nat, scale: real, zero: nat): real {
    (code - zero) as real * scale
  }

  /** In units of the scale: the whole range is fifteen, and rounding both ends never costs more than half a unit. */
  lemma ClippedError(a: real, u: real)
    requires 0.0 <= u <= 15.0 && 0.0 <= a + u <= 15.0
    ensures var zero := Clip(Round(u)); var code := Clip(Round(a) + zero);
      -0.5 <= a - (code - zero) as real <= 0.5
  {
    RoundIsNear(u, 0);
    RoundIsNear(a, 0);
  }

  lemma QuotientTimes(x: real, s: real)
    requires s > 0.0
    ensures x / s * s == x
  {
  }

  lemma QuotientGrows(x: real, y: real, s: real)
    requires s > 0.0 && x <= y
    ensures x / s <= y / s
  {
  }

  lemma QuotientAdds(x: real, y: real, s: real)
    requires s > 0.0
    ensures x / s + y / s == (x + y) / s
  {
  }

  lemma TimesGrows(x: real, y: real, s: real)
    requires s > 0.0 && x <= y
    ensures x * s <= y * s
  {
  }

  lemma FifteenSteps(b: Block)
    requires Hi(b) - Lo(b) > 0.0
    ensures Scale(b) == (Hi(b) - Lo(b)) / 15.0 && (Hi(b) - Lo(b)) / Scale(b) == 15.0
  {
    var r := Hi(b) - Lo(b);
    var s := r / 15.0;
    assert s * 15.0 == r && s > 0.0;
    assert 15.0 * s / s == 15.0;
  }

  lemma {:induction false} InRange(b: Block, w: real)
    requires Lo(b) <= w <= Hi(b) && Hi(b) - Lo(b) > 0.0
    ensures var s := Scale(b); 0.0 <= -Lo(b) / s <= 15.0 && 0.0 <= w / s + -Lo(b) / s <= 15.0
  {
    hide Lo, Hi, Scale;
    LoHiBound(b);
    var s := Scale(b);
    FifteenSteps(b);
    QuotientAdds(w, -Lo(b), s);
    QuotientGrows(0.0, -Lo(b), s);
    QuotientGrows(-Lo(b), Hi(b) - Lo(b), s);
    QuotientGrows(0.0, w - Lo(b), s);
    QuotientGrows(w - Lo(b), Hi(b) - Lo(b), s);
    assert 0.0 / s == 0.0;
  }

  lemma Distributes(x: real, y: real, s: real)
    ensures (x - y) * s == x * s - y * s
  {
  }

  /** From units back to weights. */
  lemma HalfAStep(w: real, s: real, c: int)
    requires s > 0.0 && -0.5 <= w / s - c as real <= 0.5
    ensures -(s / 2.0) <= w - c as real * s <= s / 2.0
  {
    var a := w / s;
    QuotientTimes(w, s);
    var d := a - c as real;
    TimesGrows(-0.5, d, s);
    TimesGrows(d, 0.5, s);
    Distributes(a, c as real, s);
    assert d * s == w - c as real * s;
    assert 0.5 * s == s / 2.0 && -0.5 * s == -(s / 2.0);
    assert -0.5 * s <= d * s <= 0.5 * s;
  }

  lemma {:induction false} WideBlockError(b: Block, w: real)
    requires Lo(b) <= w <= Hi(b) && Hi(b) - Lo(b) > 0.0
    ensures var left := w - Value(Code(b, w), Scale(b), ZeroPoint(b));
      -(Scale(b) / 2.0) <= left <= Scale(b) / 2.0
  {
    hide Lo, Hi, Round, Scale, Clip;
    InRange(b, w);
    ClippedError(w / Scale(b), -Lo(b) / Scale(b));
    HalfAStep(w, Scale(b), Code(b, w) - ZeroPoint(b));
  }

  lemma {:induction false} FlatBlockIsExact(b: Block, w: real)
    requires Lo(b) == 0.0 == Hi(b) && w == 0.0
    ensures Value(Code(b, w), Scale(b), ZeroPoint(b)) == w
  {
    ZeroStaysZero(b);
  }

  /** One layer loses at most half a step of any weight, clipped ones included, and nothing of a block of zeros. */
  lemma {:induction false} OneLayerError(b: Block, w: real)
    requires Lo(b) <= w <= Hi(b)
    ensures var left := w - Value(Code(b, w), Scale(b), ZeroPoint(b));
      -((Hi(b) - Lo(b)) / 30.0) <= left <= (Hi(b) - Lo(b)) / 30.0
  {
    hide Lo, Hi, Scale, Value, Code, ZeroPoint;
    LoHiBound(b);
    if Hi(b) - Lo(b) > 0.0 {
      FifteenSteps(b);
      WideBlockError(b, w);
    } else {
      FlatBlockIsExact(b, w);
    }
  }

  lemma NearestInUnits(a: real, u: real, n: int)
    requires 0.0 <= u <= 15.0 && 0.0 <= a + u <= 15.0 && 0 <= n + Clip(Round(u)) <= 15
    ensures var zero := Clip(Round(u)); var code := Clip(Round(a) + zero);
      Distance(a, (code - zero) as real) <= Distance(a, n as real)
  {
    RoundIsNear(u, 0);
    RoundIsNear(a, n);
  }

  function Distance(x: real, y: real): real {
    if x < y then y - x else x - y
  }

  lemma DistanceTimes(x: real, y: real, s: real)
    requires s > 0.0
    ensures Distance(x * s, y * s) == Distance(x, y) * s
  {
    if x < y {
      TimesGrows(x, y, s);
      Distributes(y, x, s);
    } else {
      TimesGrows(y, x, s);
      Distributes(x, y, s);
    }
  }

  lemma DistanceScales(x: real, y: real, a: real, b: real, s: real)
    requires s > 0.0 && x == a * s && y == b * s
    ensures Distance(x, y) == Distance(a, b) * s
  {
    DistanceTimes(a, b, s);
  }

  lemma ValuesAlike(w: real, s: real, c: nat, d: nat, zero: nat)
    requires s > 0.0 && Distance(w / s, (c - zero) as real) <= Distance(w / s, (d - zero) as real)
    ensures Distance(w, Value(c, s, zero)) <= Distance(w, Value(d, s, zero))
  {
    QuotientTimes(w, s);
    DistanceScales(w, Value(c, s, zero), w / s, (c - zero) as real, s);
    DistanceScales(w, Value(d, s, zero), w / s, (d - zero) as real, s);
    hide Distance, Value;
    TimesGrows(Distance(w / s, (c - zero) as real), Distance(w / s, (d - zero) as real), s);
  }

  /** Of the sixteen values a block can stand for, a weight gets a nearest one. */
  lemma {:induction false} CodeIsNearest(b: Block, w: real, code: nat)
    requires Lo(b) <= w <= Hi(b) && code <= 15
    ensures Code(b, w) <= 15
    ensures Distance(w, Value(Code(b, w), Scale(b), ZeroPoint(b))) <= Distance(w, Value(code, Scale(b), ZeroPoint(b)))
  {
    hide Lo, Hi, Round, Scale, Clip, Distance;
    LoHiBound(b);
    CodeIsNibble(b, w);
    if Hi(b) - Lo(b) > 0.0 {
      var s := Scale(b);
      InRange(b, w);
      NearestInUnits(w / s, -Lo(b) / s, code - ZeroPoint(b));
      assert Distance(w / s, (Code(b, w) - ZeroPoint(b)) as real) <= Distance(w / s, (code - ZeroPoint(b)) as real);
      ValuesAlike(w, s, Code(b, w), code, ZeroPoint(b));
    } else {
      FlatBlockIsExact(b, w);
      NoDistance(w, Value(code, Scale(b), ZeroPoint(b)));
    }
  }

  lemma NoDistance(x: real, y: real)
    ensures Distance(x, x) == 0.0 <= Distance(x, y)
  {
  }

  lemma CodeIsNibble(b: Block, w: real)
    ensures Code(b, w) <= 15 && ZeroPoint(b) <= 15
  {
  }

  lemma TimesOver(x: real, s: real)
    requires s > 0.0
    ensures x * s / s == x
  {
  }

  lemma HalfIsEven(n: int)
    ensures Round(n as real + 0.5) % 2 == 0
  {
    assert (n as real + 0.5).Floor == n;
  }

  /** Half-way between two values the even step is taken, unless that would leave the codes. */
  lemma {:induction false} TiesGoToEven(b: Block, w: real, n: int)
    requires w == (n as real + 0.5) * Scale(b) && 0 < Code(b, w) < 15
    ensures (Code(b, w) - ZeroPoint(b)) % 2 == 0
  {
    hide Scale, ZeroPoint, Round;
    var half := n as real + 0.5;
    TimesOver(half, Scale(b));
    HalfIsEven(n);
    assert w / Scale(b) == half;
    assert Code(b, w) == Round(half) + ZeroPoint(b);
  }

  /** A fifteenth of the range is one step, and a block of zeros has step one. */
  lemma ScaleIsExact(b: Block, lo: real, hi: real)
    requires Spans(b, lo, hi) && (lo == 0.0 || lo in b) && (hi == 0.0 || hi in b)
    ensures Scale(b) == if lo == hi then 1.0 else (hi - lo) / 15.0
    ensures -0.5 <= ZeroPoint(b) as real - -lo / Scale(b) <= 0.5 && ZeroPoint(b) <= 15
  {
    hide Lo, Hi, Round;
    RangeIsExact(b, lo, hi);
    var u := -lo / Scale(b);
    RoundIsNear(u, 0);
    if lo < hi {
      InRange(b, 0.0);
      assert 0.0 <= u <= 15.0;
      assert 0 <= Round(u) <= 15;
    } else {
      assert u == 0.0;
    }
  }

  /** Zero is always exact. */
  lemma ZeroStaysZero(b: Block)
    ensures Value(Code(b, 0.0), Scale(b), ZeroPoint(b)) == 0.0
  {
    hide Lo, Hi, Scale, ZeroPoint;
    var s := Scale(b);
    assert 0.0 / s == 0.0;
    assert Round(0.0) == 0;
    ZeroPointIsNibble(b);
  }

  lemma ZeroPointIsNibble(b: Block)
    ensures ZeroPoint(b) <= 15
  {
  }

  // ---------------------------------------------------------------- packing

  /** `lo | (hi << 4)` of two nibbles is their sum with weights one and sixteen, and its halves are they. */
  lemma OrIsSum(lo: bv8, hi: bv8)
    requires lo < 16 && hi < 16
    ensures lo | (hi << 4) == lo + 16 * hi
    ensures (lo | (hi << 4)) & 15 == lo && (lo | (hi << 4)) >> 4 == hi
  {
  }

  predicate Nibbles(codes: seq<nat>) {
    forall i :: 0 <= i < |codes| ==> codes[i] < 16
  }

  /** Even places in the low half of a byte, odd ones in the high half. */
  function Pack(codes: seq<nat>): seq<nat> {
    if |codes| < 2 then []
    else Pack(codes[..|codes| - 2]) + [codes[|codes| - 2] + 16 * codes[|codes| - 1]]
  }

  function Unpack(bytes: seq<nat>): seq<nat> {
    if bytes == [] then []
    else Unpack(bytes[..|bytes| - 1]) + [bytes[|bytes| - 1] % 16, bytes[|bytes| - 1] / 16]
  }

  lemma UnpackMore(bytes: seq<nat>, lo: nat, hi: nat)
    requires lo < 16
    ensures Unpack(bytes + [lo + 16 * hi]) == Unpack(bytes) + [lo, hi]
  {
    assert (bytes + [lo + 16 * hi])[..|bytes|] == bytes;
  }

  lemma PackMore(codes: seq<nat>, lo: nat, hi: nat)
    ensures Pack(codes + [lo, hi]) == Pack(codes) + [lo + 16 * hi]
  {
    assert (codes + [lo, hi])[..|codes|] == codes;
  }

  lemma {:induction false} UnpackUndoesPack(codes: seq<nat>)
    requires Nibbles(codes) && |codes| % 2 == 0
    ensures Unpack(Pack(codes)) == codes && |Pack(codes)| == |codes| / 2
    ensures forall i :: 0 <= i < |Pack(codes)| ==> Pack(codes)[i] < 256
  {
    if codes != [] {
      hide Pack, Unpack;
      var front, lo, hi := codes[..|codes| - 2], codes[|codes| - 2], codes[|codes| - 1];
      assert codes == front + [lo, hi];
      UnpackUndoesPack(front);
      PackMore(front, lo, hi);
      UnpackMore(Pack(front), lo, hi);
    }
  }

  lemma {:induction false} PackLayout(codes: seq<nat>, i: nat)
    requires |codes| % 2 == 0 && 2 * i + 1 < |codes|
    ensures |Pack(codes)| == |codes| / 2 && Pack(codes)[i] == codes[2 * i] + 16 * codes[2 * i + 1]
  {
    if 2 * i + 2 < |codes| {
      PackLayout(codes[..|codes| - 2], i);
    } else if i > 0 {
      PackLayout(codes[..|codes| - 2], i - 1);
    }
  }

  // ---------------------------------------------------------------- layers

  /** Packed codes, scale and zero point of every block; zero points are packed two blocks to a byte. */
  datatype Layer = Layer(bytes: seq<seq<nat>>, scales: seq<real>, zeros: seq<nat>)

  function ZeroPoints(blocks: seq<Block>): (zeros: seq<nat>)
    ensures |zeros| == |blocks| && Nibbles(zeros)
    ensures forall i :: 0 <= i < |blocks| ==> zeros[i] == ZeroPoint(blocks[i])
  {
    if blocks == [] then [] else ZeroPoints(blocks[..|blocks| - 1]) + [ZeroPoint(blocks[|blocks| - 1])]
  }

  function Packed(blocks: seq<Block>): (bytes: seq<seq<nat>>)
    ensures |bytes| == |blocks|
    ensures forall i :: 0 <= i < |blocks| ==> bytes[i] == Pack(Codes(blocks[i], blocks[i]))
  {
    if blocks == [] then []
    else Packed(blocks[..|blocks| - 1]) + [Pack(Codes(blocks[|blocks| - 1], blocks[|blocks| - 1]))]
  }

  function Scales(blocks: seq<Block>): (scales: seq<real>)
    ensures |scales| == |blocks| && forall i :: 0 <= i < |blocks| ==> scales[i] == Scale(blocks[i])
  {
    if blocks == [] then [] else Scales(blocks[..|blocks| - 1]) + [Scale(blocks[|blocks| - 1])]
  }

  function Quantized(blocks: seq<Block>): Layer {
    Layer(Packed(blocks), Scales(blocks), Pack(ZeroPoints(blocks)))
  }

  /** A weight matrix in blocks: an even number of blocks to a row, so of blocks. */
  predicate Matrix(blocks: seq<Block>) {
    |blocks| % 2 == 0 && forall i :: 0 <= i < |blocks| ==> |blocks[i]| == BLOCK
  }

  predicate Fits(layer: Layer, n: nat) {
    && n % 2 == 0 && |layer.bytes| == n && |layer.scales| == n && |layer.zeros| == n / 2
    && forall i :: 0 <= i < n ==> |layer.bytes[i]| == BLOCK / 2
  }

  function Values(codes: seq<nat>, scale: real, zero: nat): (values: seq<real>)
    ensures |values| == |codes| && forall i :: 0 <= i < |codes| ==> values[i] == Value(codes[i], scale, zero)
  {
    if codes == [] then [] else Values(codes[..|codes| - 1], scale, zero) + [Value(codes[|codes| - 1], scale, zero)]
  }

  lemma {:induction false} UnpackLength(bytes: seq<nat>)
    ensures |Unpack(bytes)| == 2 * |bytes|
    ensures forall i :: 0 <= i < |bytes| ==> Unpack(bytes)[2 * i] == bytes[i] % 16 && Unpack(bytes)[2 * i + 1] == bytes[i] / 16
  {
    if bytes != [] {
      UnpackLength(bytes[..|bytes| - 1]);
    }
  }

  /** What one block of a layer multiplies by. */
  function BlockOf(layer: Layer, i: nat): (b: Block)
    requires i < |layer.bytes| && i < |layer.scales| && i < 2 * |layer.zeros|
    ensures |b| == 2 * |layer.bytes[i]|
  {
    UnpackLength(layer.zeros);
    UnpackLength(layer.bytes[i]);
    Values(Unpack(layer.bytes[i]), layer.scales[i], Unpack(layer.zeros)[i])
  }

  function Blocks(layer: Layer, n: nat): (blocks: seq<Block>)
    requires Fits(layer, n)
    ensures |blocks| == n && forall i :: 0 <= i < n ==> |blocks[i]| == BLOCK && blocks[i] == BlockOf(layer, i)
  {
    seq(n, i requires 0 <= i < n => BlockOf(layer, i))
  }

  /** Undoing the packing, in arrays filled two places at a time. */
  method UnpackInto(bytes: seq<nat>) returns (q: array<nat>)
    ensures fresh(q) && q[..] == Unpack(bytes)
  {
    q := new nat[2 * |bytes|](_ => 0);
    UnpackLength(bytes);
    for i := 0 to |bytes|
      invariant q[..2 * i] == Unpack(bytes)[..2 * i]
    {
      q[2 * i] := bytes[i] % 16;
      q[2 * i + 1] := bytes[i] / 16;
      assert q[..2 * i + 2] == q[..2 * i] + [bytes[i] % 16, bytes[i] / 16];
      assert Unpack(bytes)[..2 * i + 2] == Unpack(bytes)[..2 * i] + [bytes[i] % 16, bytes[i] / 16];
    }
    assert q[..] == q[..2 * |bytes|];
  }

  method Dequantize(layer: Layer, n: nat) returns (blocks: seq<Block>)
    requires Fits(layer, n)
    ensures blocks == Blocks(layer, n)
  {
    hide Unpack, Value;
    UnpackLength(layer.zeros);
    var zeros := UnpackInto(layer.zeros);
    blocks := [];
    for i := 0 to n
      invariant |blocks| == i && forall j :: 0 <= j < i ==> blocks[j] == BlockOf(layer, j)
      invariant zeros[..] == Unpack(layer.zeros)
    {
      var codes := UnpackInto(layer.bytes[i]);
      blocks := blocks + [Values(codes[..], layer.scales[i], zeros[i])];
    }
  }

  lemma {:induction false} QuantizedFits(blocks: seq<Block>)
    requires Matrix(blocks)
    ensures Fits(Quantized(blocks), |blocks|)
  {
    hide Codes, Pack, Scale, ZeroPoint, Code;
    forall i | 0 <= i < |blocks| ensures |Packed(blocks)[i]| == BLOCK / 2 {
      CodesAreNibbles(blocks[i], blocks[i]);
      UnpackUndoesPack(Codes(blocks[i], blocks[i]));
    }
    UnpackUndoesPack(ZeroPoints(blocks));
  }

  lemma CodesAreNibbles(b: Block, ws: seq<real>)
    ensures Nibbles(Codes(b, ws))
  {
  }

  /** Packing loses nothing: each weight becomes exactly the value of its code. */
  lemma {:induction false} PackingIsExact(blocks: seq<Block>, i: nat, k: nat)
    requires Matrix(blocks) && i < |blocks| && k < BLOCK
    ensures Fits(Quantized(blocks), |blocks|)
    ensures Blocks(Quantized(blocks), |blocks|)[i][k] ==
            Value(Code(blocks[i], blocks[i][k]), Scale(blocks[i]), ZeroPoint(blocks[i]))
  {
    hide Codes, Pack, Unpack, Scale, ZeroPoint, Code, Value;
    QuantizedFits(blocks);
    CodesAreNibbles(blocks[i], blocks[i]);
    UnpackUndoesPack(Codes(blocks[i], blocks[i]));
    UnpackUndoesPack(ZeroPoints(blocks));
  }

  /** The stored layer: two codes to a byte, two zero points to a byte, the even one in the low half. */
  lemma LayerLayout(blocks: seq<Block>, i: nat, j: nat)
    requires Matrix(blocks) && i < |blocks| && j < BLOCK / 2
    ensures Fits(Quantized(blocks), |blocks|)
    ensures Quantized(blocks).bytes[i][j] == Code(blocks[i], blocks[i][2 * j]) + 16 * Code(blocks[i], blocks[i][2 * j + 1])
    ensures Quantized(blocks).scales[i] == Scale(blocks[i])
    ensures Quantized(blocks).zeros[i / 2] == ZeroPoint(blocks[i - i % 2]) + 16 * ZeroPoint(blocks[i - i % 2 + 1])
  {
    hide Pack, Scale, ZeroPoint, Code;
    QuantizedFits(blocks);
    PackLayout(Codes(blocks[i], blocks[i]), j);
    PackLayout(ZeroPoints(blocks), i / 2);
  }

  // ---------------------------------------------------------------- two layers

  function Minus(a: Block, b: Block): (c: Block)
    requires |a| == |b|
    ensures |c| == |a| && forall i :: 0 <= i < |a| ==> c[i] == a[i] - b[i]
  {
    if a == [] then [] else Minus(a[..|a| - 1], b[..|b| - 1]) + [a[|a| - 1] - b[|b| - 1]]
  }

  function Rest(blocks: seq<Block>): (rest: seq<Block>)
    requires Matrix(blocks)
    ensures Matrix(rest) && |rest| == |blocks|
  {
    hide Quantized, Minus;
    QuantizedFits(blocks);
    var back := Blocks(Quantized(blocks), |blocks|);
    seq(|blocks|, i requires 0 <= i < |blocks| => Minus(blocks[i], back[i]))
  }

  /** The loop that quantizes a weight twice. */
  method TwoLayers(weight: seq<Block>) returns (layers: seq<Layer>)
    requires Matrix(weight)
    ensures layers == [Quantized(weight), Quantized(Rest(weight))]
    ensures Fits(layers[0], |weight|) && Fits(layers[1], |weight|)
    ensures forall i, k, lo, hi :: 0 <= i < |weight| && 0 <= k < BLOCK && Spans(weight[i], lo, hi) ==>
              Near(weight[i][k], Blocks(layers[0], |weight|)[i][k] + Blocks(layers[1], |weight|)[i][k], (hi - lo) / 450.0)
  {
    hide Quantized, Minus;
    layers := [];
    var rest := weight;
    for level := 0 to 2
      invariant Matrix(rest) && |rest| == |weight|
      invariant level == 0 ==> layers == [] && rest == weight
      invariant level == 1 ==> layers == [Quantized(weight)] && rest == Rest(weight)
      invariant level == 2 ==> layers == [Quantized(weight), Quantized(Rest(weight))]
    {
      var layer := Quantized(rest);
      QuantizedFits(rest);
      var back := Dequantize(layer, |rest|);
      var before := rest;
      rest := seq(|rest|, i requires 0 <= i < |rest| => Minus(before[i], back[i]));
      assert rest == Rest(before);
      layers := layers + [layer];
    }
    SummedError(weight);
  }

  predicate Near(x: real, y: real, bound: real) {
    -bound <= x - y <= bound
  }

  lemma SummedError(weight: seq<Block>)
    requires Matrix(weight)
    ensures Fits(Quantized(weight), |weight|) && Fits(Quantized(Rest(weight)), |weight|)
    ensures forall i, k, lo, hi :: 0 <= i < |weight| && 0 <= k < BLOCK && Spans(weight[i], lo, hi) ==>
              Near(weight[i][k], Blocks(Quantized(weight), |weight|)[i][k] + Blocks(Quantized(Rest(weight)), |weight|)[i][k],
                   (hi - lo) / 450.0)
  {
    hide Quantized, Rest, Blocks, Spans;
    QuantizedFits(weight);
    QuantizedFits(Rest(weight));
    forall i, k, lo, hi | 0 <= i < |weight| && 0 <= k < BLOCK && Spans(weight[i], lo, hi)
      ensures Near(weight[i][k], Blocks(Quantized(weight), |weight|)[i][k] + Blocks(Quantized(Rest(weight)), |weight|)[i][k],
                   (hi - lo) / 450.0) {
      TwoLayersError(weight, i, k, lo, hi);
    }
  }

  /** After one layer every weight of a block is within half a step. */
  lemma {:induction false} RestIsSmall(blocks: seq<Block>, i: nat)
    requires Matrix(blocks) && i < |blocks|
    ensures var r := (Hi(blocks[i]) - Lo(blocks[i])) / 30.0;
      0.0 <= r && forall k :: 0 <= k < BLOCK ==> -r <= Rest(blocks)[i][k] <= r
  {
    hide Lo, Hi, Code, Scale, ZeroPoint, Value, Blocks, Quantized, Rest;
    var b := blocks[i];
    LoHiBound(b);
    QuantizedFits(blocks);
    var r := (Hi(b) - Lo(b)) / 30.0;
    forall k | 0 <= k < BLOCK ensures -r <= Rest(blocks)[i][k] <= r {
      PackingIsExact(blocks, i, k);
      OneLayerError(b, b[k]);
      RestAt(blocks, i, k);
    }
  }

  lemma RestAt(blocks: seq<Block>, i: nat, k: nat)
    requires Matrix(blocks) && i < |blocks| && k < BLOCK
    ensures Fits(Quantized(blocks), |blocks|)
    ensures Rest(blocks)[i][k] == blocks[i][k] - Blocks(Quantized(blocks), |blocks|)[i][k]
  {
    hide Blocks, Quantized;
    QuantizedFits(blocks);
  }

  /**
   The two layers together lose at most a 450th of the length of any interval that holds zero and the block's weights:
   the second range is at most a fifteenth of the first, and half a step of it is a thirtieth of that.
   */
  lemma {:induction false} TwoLayersError(blocks: seq<Block>, i: nat, k: nat, lo: real, hi: real)
    requires Matrix(blocks) && i < |blocks| && k < BLOCK && Spans(blocks[i], lo, hi)
    ensures Fits(Quantized(blocks), |blocks|) && Fits(Quantized(Rest(blocks)), |blocks|)
    ensures
      var sum := Blocks(Quantized(blocks), |blocks|)[i][k] + Blocks(Quantized(Rest(blocks)), |blocks|)[i][k];
      -((hi - lo) / 450.0) <= blocks[i][k] - sum <= (hi - lo) / 450.0
  {
    hide Lo, Hi, Code, Scale, ZeroPoint, Value, Blocks, Quantized, Rest;
    var rest := Rest(blocks);
    QuantizedFits(blocks);
    QuantizedFits(rest);
    RestIsSmall(blocks, i);
    RestIsSmall(rest, i);
    RangeIsLeast(rest[i], -((Hi(blocks[i]) - Lo(blocks[i])) / 30.0), (Hi(blocks[i]) - Lo(blocks[i])) / 30.0);
    RangeIsLeast(blocks[i], lo, hi);
    RestAt(blocks, i, k);
    RestAt(rest, i, k);
    assert -((Hi(rest[i]) - Lo(rest[i])) / 30.0) <= Rest(rest)[i][k] <= (Hi(rest[i]) - Lo(rest[i])) / 30.0;
  }
}
