/** The random linear chunk encoder (addon/coding/RFCEncoder.go): loops that scale blocks of bytes and add them up.

    The random draws are an input: draws[i] is the i-th integer the seeded generator returns. */
module RFCEncoder {

  import opened Algebra
  import opened Bytes
  import opened GaloisField
  import opened GaloisTables
  import opened LinearCode

  datatype Chunk = Chunk(dataBlock: seq<byte>, original: bool, padding: int)

  const FIELDSIZE: nat := 256

  /** The coefficients a list of draws stands for. */
  function Coefficients(draws: seq<nat>): (vec: seq<byte>)
    ensures vec == Coefficients(draws)
    ensures |vec| == |draws| && forall i :: 0 <= i < |vec| ==> vec[i] == (draws[i] % FIELDSIZE) as byte
  {
    seq(|draws|, i requires 0 <= i < |draws| => (draws[i] % FIELDSIZE) as byte)
  }

  /** A coefficient is its draw modulo 256; so draws that are bytes come back unchanged. */
  lemma CoefficientsAre(draws: seq<nat>, i: nat)
    requires i < |draws|
    ensures Coefficients(draws)[i] as int == draws[i] % 256
    ensures draws[i] < 256 ==> Coefficients(draws)[i] as int == draws[i]
  {
    ByteOfNumber(draws[i] % 256);
  }

  /** And every vector of bytes is the coefficients of some draws. */
  lemma EveryVectorIsDrawn(vec: seq<byte>)
    ensures Coefficients(seq(|vec|, i requires 0 <= i < |vec| => vec[i] as nat)) == vec
  {
    forall i | 0 <= i < |vec|
      ensures Coefficients(seq(|vec|, i requires 0 <= i < |vec| => vec[i] as nat))[i] == vec[i]
    {
      NumberOfByte(vec[i]);
      CoefficientsAre(seq(|vec|, i requires 0 <= i < |vec| => vec[i] as nat), i);
      SameNumber(Coefficients(seq(|vec|, i requires 0 <= i < |vec| => vec[i] as nat))[i], vec[i]);
    }
  }

  /** The first width bytes of every chunk. */
  function Blocks(chunks: seq<Chunk>, width: nat): (blocks: seq<seq<byte>>)
    requires forall i :: 0 <= i < |chunks| ==> width <= |chunks[i].dataBlock|
    ensures |blocks| == |chunks| && Rectangular(blocks, width)
    ensures forall i :: 0 <= i < |chunks| ==> blocks[i] == chunks[i].dataBlock[..width]
  {
    seq(|chunks|, i requires 0 <= i < |chunks| => chunks[i].dataBlock[..width])
  }

  /** No chunk is longer than the one before it: otherwise the sum indexes past the end of the running product. */
  ghost predicate Shrinking(chunks: seq<Chunk>) {
    forall i, j :: 0 <= i <= j < |chunks| ==> |chunks[j].dataBlock| <= |chunks[i].dataBlock|
  }

  /** The coded chunk: the row of coefficients times the matrix of chunks. */
  function Coded(vec: seq<byte>, chunks: seq<Chunk>, width: nat): Chunk
    requires |vec| == |chunks| && forall i :: 0 <= i < |chunks| ==> width <= |chunks[i].dataBlock|
  {
    Chunk(Combine(GF, vec, Blocks(chunks, width), width), false, 0)
  }

  method BlockMultiply(coefficient: byte, chunk: Chunk) returns (product: seq<byte>)
    ensures product == Scale(GF.mul, coefficient, chunk.dataBlock)
  {
    product := [];
    for i := 0 to |chunk.dataBlock|
      invariant product == Scale(GF.mul, coefficient, chunk.dataBlock)[..i]
    {
      ScaleNext(GF.mul, coefficient, chunk.dataBlock, i);
      product := product + [GF.mul(coefficient, chunk.dataBlock[i])];
    }
  }

  /** Adds as many bytes as the new block has. */
  method BlockSum(product: seq<byte>, newProduct: seq<byte>) returns (sum: seq<byte>)
    requires |newProduct| <= |product|
    ensures sum == Sum(GF.add, product[..|newProduct|], newProduct)
  {
    sum := [];
    for i := 0 to |newProduct|
      invariant sum == Sum(GF.add, product[..|newProduct|], newProduct)[..i]
    {
      sum := sum + [GF.add(product[i], newProduct[i])];
    }
  }

  /** The product after the first i chunks: the coefficients combined with the bytes those chunks have in common. */
  ghost predicate Accumulated(vec: seq<byte>, chunks: seq<Chunk>, i: nat, product: seq<byte>)
    requires |vec| == |chunks| && i <= |chunks| && Shrinking(chunks)
  {
    && (forall k :: 0 <= k < i ==> |product| <= |chunks[k].dataBlock|)
    && product == Combine(GF, vec[..i], Blocks(chunks[..i], |product|), |product|)
  }

  /** One byte of the product after one more chunk. */
  lemma AccumulateByte(vec: seq<byte>, chunks: seq<Chunk>, i: nat, product: seq<byte>, w: nat, j: nat)
    requires |vec| == |chunks| && i < |chunks| && Shrinking(chunks)
    requires Accumulated(vec, chunks, i, product)
    requires j < w == |chunks[i].dataBlock| <= |product|
    ensures GF.add(product[j], GF.mul(vec[i], chunks[i].dataBlock[j]))
         == Dot(GF, vec[..i + 1], Column(Blocks(chunks[..i + 1], w), j))
  {
    var before, after := Blocks(chunks[..i], |product|), Blocks(chunks[..i + 1], w);
    assert vec[..i + 1][..i] == vec[..i];
    assert Column(after, j)[..i] == Column(before, j);
    assert product[j] == Dot(GF, vec[..i], Column(before, j));
  }

  lemma AccumulateNext(vec: seq<byte>, chunks: seq<Chunk>, i: nat, product: seq<byte>, next: seq<byte>)
    requires |vec| == |chunks| && i < |chunks| && Shrinking(chunks)
    requires Accumulated(vec, chunks, i, product)
    requires |chunks[i].dataBlock| <= |product|
    requires next == Sum(GF.add, product[..|chunks[i].dataBlock|], Scale(GF.mul, vec[i], chunks[i].dataBlock))
    ensures Accumulated(vec, chunks, i + 1, next)
  {
    var w := |next|;
    var after := Blocks(chunks[..i + 1], w);
    forall j | 0 <= j < w
      ensures next[j] == Dot(GF, vec[..i + 1], Column(after, j))
    {
      AccumulateByte(vec, chunks, i, product, w, j);
    }
    assert next == Combine(GF, vec[..i + 1], after, w);
  }

  lemma StartAccumulating(vec: seq<byte>, chunks: seq<Chunk>)
    requires |vec| == |chunks| > 0 && Shrinking(chunks)
    ensures Accumulated(vec, chunks, 0, seq(|chunks[0].dataBlock|, _ => 0))
  {
  }

  lemma AllAccumulated(vec: seq<byte>, chunks: seq<Chunk>, product: seq<byte>)
    requires |vec| == |chunks| && Shrinking(chunks) && Accumulated(vec, chunks, |chunks|, product)
    ensures forall i :: 0 <= i < |chunks| ==> |product| <= |chunks[i].dataBlock|
    ensures Chunk(product, false, 0) == Coded(vec, chunks, |product|)
  {
    assert chunks[..|chunks|] == chunks && vec[..|chunks|] == vec;
  }

  /** One turn of the encoder's loop. */
  lemma EncodeStep(was: seq<byte>, coefficient: byte, chunks: seq<Chunk>, i: nat, product: seq<byte>, next: seq<byte>)
    requires |was| == |chunks| && i < |chunks| && Shrinking(chunks) && Accumulated(was, chunks, i, product)
    requires |chunks[i].dataBlock| <= |product|
    requires next == Sum(GF.add, product[..|chunks[i].dataBlock|], Scale(GF.mul, coefficient, chunks[i].dataBlock))
    ensures Accumulated(was[i := coefficient], chunks, i + 1, next)
  {
    var vec := was[i := coefficient];
    assert vec[..i] == was[..i];
    AccumulateNext(vec, chunks, i, product, next);
  }

  lemma NextCoefficient(was: seq<byte>, draws: seq<nat>, i: nat)
    requires |was| == |draws| && i < |draws| && was[..i] == Coefficients(draws)[..i]
    ensures was[i := (draws[i] % FIELDSIZE) as byte][..i + 1] == Coefficients(draws)[..i + 1]
  {
  }

  /** The encoder: the coded block is the vector of coefficients times the matrix of chunks, cut to the last chunk. */
  method Encode(chunks: seq<Chunk>, draws: seq<nat>) returns (chunk: Chunk, vec: seq<byte>)
    requires |chunks| > 0 && |draws| == |chunks| && Shrinking(chunks)
    ensures vec == Coefficients(draws)
    ensures |vec| == |draws| && forall i :: 0 <= i < |draws| ==> vec[i] as int == draws[i] % 256
    ensures chunk == Coded(vec, chunks, |chunks[|chunks| - 1].dataBlock|)
  {
    vec := seq(|chunks|, _ => 0);
    var product := seq(|chunks[0].dataBlock|, _ => 0);
    StartAccumulating(vec, chunks);
    for i := 0 to |chunks|
      invariant |vec| == |chunks| && vec[..i] == Coefficients(draws)[..i]
      invariant Accumulated(vec, chunks, i, product)
      invariant |product| == |chunks[if i == 0 then 0 else i - 1].dataBlock|
    {
      var randNum := draws[i];
      ghost var was, before := vec, product;
      NextCoefficient(vec, draws, i);
      vec := vec[i := (randNum % FIELDSIZE) as byte];
      var newProduct := BlockMultiply(vec[i], chunks[i]);
      product := BlockSum(product, newProduct);
      EncodeStep(was, vec[i], chunks, i, before, product);
    }
    AllAccumulated(vec, chunks, product);
    forall i | 0 <= i < |draws|
      ensures vec[i] as int == draws[i] % 256
    {
      CoefficientsAre(draws, i);
    }
    chunk := Chunk(product, false, 0);
  }

  // ----- What the code is for --------------------------------------------------------------------------------------

  ghost predicate SameLength(chunks: seq<Chunk>, width: nat) {
    forall i :: 0 <= i < |chunks| ==> |chunks[i].dataBlock| == width
  }

  /** Every row of a matrix of coefficients used on the same chunks. */
  function CodedAll(a: seq<seq<byte>>, chunks: seq<Chunk>, width: nat): (coded: seq<Chunk>)
    requires Rectangular(a, |chunks|) && SameLength(chunks, width)
    ensures |coded| == |a| && SameLength(coded, width)
    ensures forall i :: 0 <= i < |a| ==> coded[i] == Coded(a[i], chunks, width)
  {
    seq(|a|, i requires 0 <= i < |a| => Coded(a[i], chunks, width))
  }

  lemma CodedBlocks(a: seq<seq<byte>>, chunks: seq<Chunk>, width: nat)
    requires Rectangular(a, |chunks|) && SameLength(chunks, width)
    ensures Blocks(CodedAll(a, chunks, width), width) == Product(GF, a, Blocks(chunks, width), width)
  {
    var coded := CodedAll(a, chunks, width);
    forall i | 0 <= i < |a|
      ensures Blocks(coded, width)[i] == Product(GF, a, Blocks(chunks, width), width)[i]
    {
      assert coded[i].dataBlock[..width] == coded[i].dataBlock;
    }
  }

  /** Coding coded chunks with b, after coding the originals with the rows of a, is coding once with b * a. */
  lemma CodingComposes(b: seq<byte>, a: seq<seq<byte>>, chunks: seq<Chunk>, width: nat)
    requires |b| == |a| && Rectangular(a, |chunks|) && SameLength(chunks, width)
    ensures Coded(b, CodedAll(a, chunks, width), width) == Coded(Combine(GF, b, a, |chunks|), chunks, width)
  {
    FieldLaws();
    CodedBlocks(a, chunks, width);
    CombineProduct(GF, b, a, Blocks(chunks, width), width);
  }

  /** Any left inverse d of the coefficient matrix a decodes: coding the coded chunks with row k of d gives chunk k.
      */
  lemma ChunksRecovered(d: seq<seq<byte>>, a: seq<seq<byte>>, chunks: seq<Chunk>, width: nat, k: nat)
    requires Rectangular(a, |chunks|) && SameLength(chunks, width) && k < |chunks|
    requires |d| == |chunks| && Rectangular(d, |a|)
    requires Product(GF, d, a, |chunks|)
          == seq(|chunks|, i requires 0 <= i < |chunks| => Unit(0 as byte, 1, i, |chunks|))
    ensures Coded(d[k], CodedAll(a, chunks, width), width).dataBlock == chunks[k].dataBlock
  {
    FieldLaws();
    OneIsUnit();
    CodedBlocks(a, chunks, width);
    Recovered(GF, 1, d, a, Blocks(chunks, width), width, k);
    assert chunks[k].dataBlock[..width] == chunks[k].dataBlock;
  }

  lemma OneIsUnit()
    ensures forall x: byte :: GF.mul(1, x) == x
  {
    TablesSound();
    AntilogEnds();
    forall x: byte
      ensures GF.mul(1, x) == x
    {
      GF256.MultiplyUnit(x);
    }
  }

  /** With the same coefficients, the code of a sum of chunks is the sum of the codes, and a scaled chunk's is scaled.
      */
  lemma CodingIsLinear(vec: seq<byte>, x: seq<Chunk>, y: seq<Chunk>, z: seq<Chunk>, c: byte, width: nat)
    requires |vec| == |x| == |y| == |z| && SameLength(x, width) && SameLength(y, width) && SameLength(z, width)
    requires forall i :: 0 <= i < |x| ==>
      z[i].dataBlock == Sum(Add, Scale(GF.mul, c, x[i].dataBlock), y[i].dataBlock)
    ensures Coded(vec, z, width).dataBlock
         == Sum(Add, Scale(GF.mul, c, Coded(vec, x, width).dataBlock), Coded(vec, y, width).dataBlock)
  {
    FieldLaws();
    forall j | 0 <= j < width
      ensures Coded(vec, z, width).dataBlock[j]
           == Add(GF.mul(c, Coded(vec, x, width).dataBlock[j]), Coded(vec, y, width).dataBlock[j])
    {
      var xs, ys, zs := Column(Blocks(x, width), j), Column(Blocks(y, width), j), Column(Blocks(z, width), j);
      var scaled := Scale(GF.mul, c, xs);
      assert zs == Sum(Add, scaled, ys);
      DotSum(GF, vec, scaled, ys);
      DotScale(GF, vec, c, xs);
    }
  }
}
