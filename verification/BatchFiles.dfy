/** The files that hold batches of edge ids (eid_analyze/eid_analyze_parallel.py, utils.py): every batch is its
    length and then its ids, all as little-endian 32-bit integers. */
module BatchFiles {
  import opened Common

  type Byte = b: nat | b < 256

  predicate IsInt32(x: int) {
    -0x8000_0000 <= x < 0x8000_0000
  }

  ghost predicate AllInt32(xs: seq<int>) {
    forall i :: 0 <= i < |xs| ==> IsInt32(xs[i])
  }

  ghost predicate Storable(batches: seq<seq<int>>) {
    forall i :: 0 <= i < |batches| ==> AllInt32(batches[i]) && IsInt32(|batches[i]|)
  }

  /** The four bytes of `x`, lowest first; a negative number is stored plus 2 to the 32. */
  function ToBytes(x: int): (b: seq<Byte>)
    requires IsInt32(x)
    ensures |b| == 4
  {
    var u := if x < 0 then x + 0x1_0000_0000 else x;
    [u % 256, u / 256 % 256, u / 0x1_0000 % 256, u / 0x100_0000]
  }

  function FromBytes(b: seq<Byte>): (x: int)
    requires |b| == 4
    ensures IsInt32(x)
  {
    var u: int := (b[0] as int) + 256 * (b[1] as int) + 0x1_0000 * (b[2] as int) + 0x100_0000 * (b[3] as int);
    if u < 0x8000_0000 then u else u - 0x1_0000_0000
  }

  lemma BytesRoundTrip(x: int)
    requires IsInt32(x)
    ensures FromBytes(ToBytes(x)) == x
  {
    var u := if x < 0 then x + 0x1_0000_0000 else x;
    Digits(u);
  }

  lemma Digits(u: nat)
    ensures u == u % 256 + 256 * (u / 256 % 256) + 0x1_0000 * (u / 0x1_0000 % 256) + 0x100_0000 * (u / 0x100_0000)
  {
    assert u / 0x1_0000 == (u / 256) / 256 && u / 0x100_0000 == (u / 0x1_0000) / 256;
  }

  /** What four bytes stand for: the first one counts single, and the last one's highest bit is the sign. */
  function LittleEndian(b0: int, b1: int, b2: int, b3: int): (x: int)
  {
    b0 + 256 * b1 + 65536 * b2 + 16777216 * (if b3 < 128 then b3 else b3 - 256)
  }

  /** The lowest byte comes first, in what is read and in what is written. */
  lemma LowestFirst(b: seq<Byte>, x: int)
    requires |b| == 4 && IsInt32(x)
    ensures FromBytes(b) == LittleEndian(b[0], b[1], b[2], b[3])
    ensures x == LittleEndian(ToBytes(x)[0], ToBytes(x)[1], ToBytes(x)[2], ToBytes(x)[3])
  {
    BytesRoundTrip(x);
    BytesValue(b);
    BytesValue(ToBytes(x));
  }

  lemma BytesValue(b: seq<Byte>)
    requires |b| == 4
    ensures FromBytes(b) == LittleEndian(b[0], b[1], b[2], b[3])
  {
  }

  /** `np.array(xs, dtype=np.int32).tofile` */
  function Encoded(xs: seq<int>): (b: seq<Byte>)
    requires AllInt32(xs)
    ensures |b| == 4 * |xs|
  {
    if |xs| == 0 then [] else Encoded(xs[..|xs| - 1]) + ToBytes(xs[|xs| - 1])
  }

  /** `np.frombuffer(b, dtype=np.int32)`, for whole numbers of four bytes. */
  function Decoded(b: seq<Byte>): (xs: seq<int>)
    requires |b| % 4 == 0
    ensures 4 * |xs| == |b|
  {
    if |b| == 0 then [] else Decoded(b[..|b| - 4]) + [FromBytes(b[|b| - 4..])]
  }

  lemma {:induction false} DecodedEncoded(xs: seq<int>)
    requires AllInt32(xs)
    ensures Decoded(Encoded(xs)) == xs
  {
    if |xs| > 0 {
      var n := |xs| - 1;
      hide ToBytes, FromBytes;
      DecodedEncoded(xs[..n]);
      BytesRoundTrip(xs[n]);
      assert Encoded(xs)[..4 * n] == Encoded(xs[..n]) && Encoded(xs)[4 * n..] == ToBytes(xs[n]);
    }
  }

  function Record(batch: seq<int>): (b: seq<Byte>)
    requires AllInt32(batch) && IsInt32(|batch|)
  {
    ToBytes(|batch|) + (if |batch| > 0 then Encoded(batch) else [])
  }

  function Written(batches: seq<seq<int>>): (b: seq<Byte>)
    requires Storable(batches)
  {
    if |batches| == 0 then [] else Record(batches[0]) + Written(batches[1..])
  }

  /** `write_batches_to_bin` */
  method WriteBatches(batches: seq<seq<int>>) returns (file: seq<Byte>)
    requires Storable(batches)
    ensures file == Written(batches)
  {
    file := [];
    hide Record, ToBytes, Encoded;
    for i := 0 to |batches|
      invariant file + Written(batches[i..]) == Written(batches)
    {
      assert batches[i..][1..] == batches[i + 1..];
      ghost var before := file;
      var batch := batches[i];
      file := file + ToBytes(|batch|);
      if |batch| > 0 {
        file := file + Encoded(batch);
      }
      RecordParts(batch);
      assert file == before + Record(batch);
    }
  }

  lemma RecordParts(batch: seq<int>)
    requires AllInt32(batch) && IsInt32(|batch|)
    ensures Record(batch) == ToBytes(|batch|) + (if |batch| > 0 then Encoded(batch) else [])
  {
  }

  /** How many bytes `f.read` gets for a batch of this length. */
  function Got(file: seq<Byte>): (n: nat)
    requires |file| >= 4
    ensures 4 + n <= |file|
  {
    if FromBytes(file[..4]) > 0 then Min(FromBytes(file[..4]) * 4, |file| - 4) else 0
  }

  /** These batches, and then what the rest of the file reads as. */
  function Before(batches: seq<seq<int>>, res: Result<seq<seq<int>>>): (r: Result<seq<seq<int>>>) {
    if res.Ok? then Ok(batches + res.value) else res
  }

  /** What a file of any contents reads as. A length or a batch that breaks off inside a number is an error; a
      batch that breaks off between two numbers is read short; a length that is not positive is an empty batch. */
  function Read(file: seq<Byte>): (res: Result<seq<seq<int>>>)
    decreases |file|
  {
    if |file| == 0 then Ok([])
    else if |file| < 4 || Got(file) % 4 != 0 then ValueError
    else
      Before([Decoded(file[4..4 + Got(file)])], Read(file[4 + Got(file)..]))
  }

  /** `read_batches_from_bin` */
  method ReadBatches(file: seq<Byte>) returns (res: Result<seq<seq<int>>>)
    ensures res == Read(file)
  {
    var batches: seq<seq<int>>, f := [], file;
    assert Before([], Read(file)) == Read(file) by {
      if Read(file).Ok? { assert [] + Read(file).value == Read(file).value; }
    }
    while true
      invariant Read(file) == Before(batches, Read(f))
      decreases |f|
    {
      var lenBytes := f[..Min(4, |f|)];
      ghost var was := f;
      f := f[Min(4, |f|)..];
      if |lenBytes| == 0 { break; }
      if |lenBytes| < 4 { return ValueError; }
      var batchLen := FromBytes(lenBytes);
      var batch := [];
      if batchLen > 0 {
        var n := Min(batchLen * 4, |f|);
        if n % 4 != 0 { return ValueError; }
        batch := Decoded(f[..n]);
        f := f[n..];
      }
      ReadStep(was, batches, batch, f);
      batches := batches + [batch];
    }
    assert batches + [] == batches;
    return Ok(batches);
  }

  lemma ReadStep(file: seq<Byte>, batches: seq<seq<int>>, batch: seq<int>, rest: seq<Byte>)
    requires |file| >= 4 && Got(file) % 4 == 0 && rest == file[4..][Got(file)..]
    requires batch == Decoded(file[4..][..Got(file)])
    ensures |rest| < |file| && Before(batches, Read(file)) == Before(batches + [batch], Read(rest))
  {
    hide Decoded, Got;
    assert file[4..][..Got(file)] == file[4..4 + Got(file)];
    if Read(rest).Ok? {
      assert batches + ([batch] + Read(rest).value) == batches + [batch] + Read(rest).value;
    }
  }

  /** A record reads back as its batch, whatever follows it. */
  lemma RecordReads(batch: seq<int>, rest: seq<Byte>)
    requires AllInt32(batch) && IsInt32(|batch|)
    ensures Read(Record(batch) + rest) == Before([batch], Read(rest))
  {
    hide Record, Read, Decoded, Encoded, Got, Before;
    var file := Record(batch) + rest;
    RecordSlices(batch, rest);
    DecodedEncoded(batch);
    ReadOne(file);
  }

  lemma RecordSlices(batch: seq<int>, rest: seq<Byte>)
    requires AllInt32(batch) && IsInt32(|batch|)
    ensures var file := Record(batch) + rest;
      && |file| >= 4 && Got(file) == 4 * |batch|
      && file[4..4 + Got(file)] == Encoded(batch) && file[4 + Got(file)..] == rest
  {
    hide ToBytes, FromBytes, Encoded;
    BytesRoundTrip(|batch|);
    var file := Record(batch) + rest;
    assert file[..4] == ToBytes(|batch|);
  }

  lemma ReadOne(file: seq<Byte>)
    requires |file| >= 4 && Got(file) % 4 == 0
    ensures Read(file) == Before([Decoded(file[4..4 + Got(file)])], Read(file[4 + Got(file)..]))
  {
    hide Decoded, Got;
  }

  /** Reading what was written gives back every list of batches, the empty batches included; and what follows
      in the file is read as if it stood alone. */
  lemma {:induction false} RoundTrip(batches: seq<seq<int>>, rest: seq<Byte>)
    requires Storable(batches)
    ensures Read(Written(batches) + rest) == Before(batches, Read(rest))
    ensures Read(Written(batches)) == Ok(batches)
  {
    hide Read, Record;
    ReadNothing(rest);
    assert Written(batches) + [] == Written(batches);
    if |batches| > 0 {
      RoundTrip(batches[1..], rest);
      RoundTrip(batches[1..], []);
      assert Written(batches) + rest == Record(batches[0]) + (Written(batches[1..]) + rest);
      assert Written(batches) == Record(batches[0]) + Written(batches[1..]);
      RecordReads(batches[0], Written(batches[1..]) + rest);
      RecordReads(batches[0], Written(batches[1..]));
      JoinBefore(batches[0], batches[1..], Read(rest));
      assert [batches[0]] + batches[1..] == batches;
    } else {
      assert Written(batches) + rest == rest;
    }
  }

  ghost predicate FirstBatch(file: seq<Byte>, batch: seq<int>, rest: seq<Byte>) {
    && |file| >= 4 + 4 * |batch| && FromBytes(file[..4]) == |batch|
    && Decoded(file[4..4 + 4 * |batch|]) == batch && file[4 + 4 * |batch|..] == rest
  }

  /** Where a file has its first batch: four bytes for the length, then four for each id. */
  lemma FileStarts(batch: seq<int>, more: seq<seq<int>>)
    requires Storable([batch] + more) && Storable(more)
    ensures FirstBatch(Written([batch] + more), batch, Written(more))
  {
    hide ToBytes, FromBytes, Encoded, Decoded;
    assert ([batch] + more)[0] == batch && ([batch] + more)[1..] == more;
    var file := Written([batch] + more);
    BytesRoundTrip(|batch|);
    DecodedEncoded(batch);
    assert file == ToBytes(|batch|) + Encoded(batch) + Written(more);
    assert file[..4] == ToBytes(|batch|) && file[4..4 + 4 * |batch|] == Encoded(batch);
  }

  /** Ids stand in the order of the batch, four bytes each. */
  lemma {:induction false} DecodedAt(b: seq<Byte>, i: nat)
    requires |b| % 4 == 0 && 4 * i < |b|
    ensures i < |Decoded(b)| && Decoded(b)[i] == FromBytes(b[4 * i..4 * i + 4])
  {
    hide FromBytes;
    if 4 * i + 4 < |b| {
      DecodedAt(b[..|b| - 4], i);
      assert b[..|b| - 4][4 * i..4 * i + 4] == b[4 * i..4 * i + 4];
    } else {
      assert b[4 * i..4 * i + 4] == b[|b| - 4..];
    }
  }

  /** A file that ends inside a number is an error. */
  lemma {:induction false} BrokenLength(batches: seq<seq<int>>, rest: seq<Byte>)
    requires Storable(batches) && 0 < |rest| < 4
    ensures Read(Written(batches) + rest) == ValueError
  {
    RoundTrip(batches, rest);
  }

  /** A file that ends inside a batch gives the numbers that are there, or an error if it ends inside a number. */
  lemma BrokenBatch(batches: seq<seq<int>>, n: int, xs: seq<int>, rest: seq<Byte>)
    requires Storable(batches) && AllInt32(xs) && |xs| < n && IsInt32(n) && |rest| < 4
    ensures Read(Written(batches) + (ToBytes(n) + Encoded(xs) + rest))
      == if rest == [] then Ok(batches + [xs]) else ValueError
  {
    hide Read, Encoded, ToBytes, Written;
    RoundTrip(batches, ToBytes(n) + Encoded(xs) + rest);
    BrokenTail(n, xs, rest);
  }

  lemma BrokenTail(n: int, xs: seq<int>, rest: seq<Byte>)
    requires AllInt32(xs) && |xs| < n && IsInt32(n) && |rest| < 4
    ensures Read(ToBytes(n) + Encoded(xs) + rest) == if rest == [] then Ok([xs]) else ValueError
  {
    hide Read, Encoded, ToBytes, FromBytes, Decoded;
    var file := ToBytes(n) + Encoded(xs) + rest;
    BytesRoundTrip(n);
    assert file[..4] == ToBytes(n);
    assert Got(file) == 4 * |xs| + |rest|;
    if rest == [] {
      assert file[4..4 + Got(file)] == Encoded(xs) && file[4 + Got(file)..] == [];
      DecodedEncoded(xs);
      ReadOne(file);
      ReadNothing([]);
      assert [xs] + [] == [xs];
    } else {
      BrokenNumber(file);
    }
  }

  lemma BrokenNumber(file: seq<Byte>)
    requires |file| >= 4 && Got(file) % 4 != 0
    ensures Read(file) == ValueError
  {
    hide Got, Decoded;
  }

  /** A length that is not positive stands for an empty batch. */
  lemma EmptyBatch(n: int, rest: seq<Byte>)
    requires IsInt32(n) && n <= 0
    ensures Read(ToBytes(n) + rest) == Before([[]], Read(rest))
  {
    hide ToBytes, FromBytes;
    BytesRoundTrip(n);
    var file := ToBytes(n) + rest;
    assert file[..4] == ToBytes(n) && file[4..4] == [] && file[4..] == rest;
  }

  lemma ReadNothing(rest: seq<Byte>)
    ensures Read([]) == Ok([]) && Before([], Read(rest)) == Read(rest)
  {
    if Read(rest).Ok? {
      assert [] + Read(rest).value == Read(rest).value;
    }
  }

  lemma JoinBefore(batch: seq<int>, batches: seq<seq<int>>, res: Result<seq<seq<int>>>)
    ensures Before([batch], Before(batches, res)) == Before([batch] + batches, res)
  {
    if res.Ok? {
      assert [batch] + (batches + res.value) == [batch] + batches + res.value;
    }
  }
}
