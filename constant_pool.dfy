/**
 * The class-file constant pool (section 4.4 of The Java Virtual Machine Specification, Java SE
 * 17) as the decompiler reads it: a two-byte count, then entries 1..count-1, each a tag byte
 * followed by a tag-specific body.  Long and Double entries take two slots (section 4.4.5).
 * After reading, the entries that refer to other entries are resolved in three passes.
 */
module ConstantPool {
  import opened Wrappers

  type byte = x: int | 0 <= x < 256

  // Tag values of section 4.4, table 4.4-B.
  const CONSTANT_Utf8: int := 1
  const CONSTANT_Integer: int := 3
  const CONSTANT_Float: int := 4
  const CONSTANT_Long: int := 5
  const CONSTANT_Double: int := 6
  const CONSTANT_Class: int := 7
  const CONSTANT_String: int := 8
  const CONSTANT_Fieldref: int := 9
  const CONSTANT_Methodref: int := 10
  const CONSTANT_InterfaceMethodref: int := 11
  const CONSTANT_NameAndType: int := 12
  const CONSTANT_MethodHandle: int := 15
  const CONSTANT_MethodType: int := 16
  const CONSTANT_InvokeDynamic: int := 18
  const CONSTANT_Module: int := 19
  const CONSTANT_Package: int := 20

  /** The payload of a `PrimitiveConstant`. */
  datatype PrimitiveValue =
    | Utf8Bytes(utf: seq<byte>)      // `readUTF`; modified UTF-8, kept undecoded
    | IntegerValue(i: int)           // `readInt`, signed 32-bit
    | FloatBits(fbits: seq<byte>)    // `readFloat`, the 4 raw bytes
    | LongValue(l: int)              // `readLong`, signed 64-bit
    | DoubleBits(dbits: seq<byte>)   // `readDouble`, the 8 raw bytes
    | IndexValue(index: int)         // an unresolved two-byte reference
    | Text(s: string)                // a string filled in by resolution

  datatype PooledConstant =
    | Primitive(tag: int, value: PrimitiveValue)
    /** `index1`/`index2` as read; `names` stands for what resolution fills in. */
    | Link(tag: int, index1: int, index2: int, names: seq<string>)

  /** How building the pool can fail: the stream ends early (`EOFException`), the tag is
    * unknown (`RuntimeException("Invalid Constant Pool entry #" + index + " Type: " + tag)`),
    * or resolving the entry at `index` throws. */
  datatype PoolError = EndOfStream | InvalidEntry(index: int, tag: int) | ResolveFailed(index: int)

  datatype Read<T> = Ok(value: T) | Err(error: PoolError)

  // ---------------------------------------------------------------------------------------
  // Big-endian integers

  function Pow256(n: nat): (r: nat)
    ensures r >= 1
  {
    if n == 0 then 1 else 256 * Pow256(n - 1)
  }

  /** The unsigned big-endian value of `s`. */
  function BigEndian(s: seq<byte>): (r: nat)
    ensures r < Pow256(|s|)
  {
    if s == [] then 0 else BigEndian(s[..|s| - 1]) * 256 + s[|s| - 1]
  }

  /** The `n` low bytes of `u`, most significant first. */
  function ToBigEndian(u: nat, n: nat): (r: seq<byte>)
    ensures |r| == n
  {
    if n == 0 then [] else ToBigEndian(u / 256, n - 1) + [u % 256]
  }

  lemma {:induction false} BigEndianRoundTrip(u: nat, n: nat)
    requires u < Pow256(n)
    ensures BigEndian(ToBigEndian(u, n)) == u
  {
    if n > 0 {
      var s := ToBigEndian(u / 256, n - 1);
      assert u / 256 < Pow256(n - 1);
      BigEndianRoundTrip(u / 256, n - 1);
      assert (s + [u % 256])[..|s|] == s;
    }
  }

  /** Two's-complement reading of an `n`-byte pattern. */
  function Signed(u: nat, n: nat): int
    requires n > 0
  {
    if u < Pow256(n) / 2 then u else u - Pow256(n)
  }

  /** The pattern of a signed `n`-byte value. */
  function Unsigned(v: int, n: nat): (u: nat)
    requires n > 0 && -(Pow256(n) / 2) <= v < Pow256(n) / 2
    ensures u < Pow256(n)
  {
    if v >= 0 then v else v + Pow256(n)
  }

  lemma {:induction false} SignedRoundTrip(v: int, n: nat)
    requires n > 0 && -(Pow256(n) / 2) <= v < Pow256(n) / 2
    ensures Signed(Unsigned(v, n), n) == v
  {
  }

  // ---------------------------------------------------------------------------------------
  // Reading one entry

  /** `n` bytes at `pos`, or the end of the stream. */
  function Bytes(data: seq<byte>, pos: nat, n: nat): (r: Read<seq<byte>>)
    ensures r.Ok? <==> pos + n <= |data|
    ensures r.Ok? ==> r.value == data[pos..pos + n]
  {
    if pos + n <= |data| then Ok(data[pos..pos + n]) else Err(EndOfStream)
  }

  /** `readUnsignedShort`. */
  function U2(data: seq<byte>, pos: nat): Read<int>
  {
    if pos + 2 <= |data| then Ok(BigEndian(data[pos..pos + 2])) else Err(EndOfStream)
  }

  /** The tag byte as the source reads it: `(byte) readUnsignedByte()`, signed. */
  function SignedByte(b: byte): int { if b < 128 then b else b - 256 }

  /** Which resolution pass an entry with this tag joins: 0, 1, 2, or -1 for none. */
  function PassOf(tag: int): int
  {
    if tag in {CONSTANT_Class, CONSTANT_String, CONSTANT_MethodType, CONSTANT_Module,
               CONSTANT_Package, CONSTANT_NameAndType} then 0
    else if tag in {CONSTANT_Fieldref, CONSTANT_Methodref, CONSTANT_InterfaceMethodref,
                    CONSTANT_InvokeDynamic} then 1
    else if tag == CONSTANT_MethodHandle then 2
    else -1
  }

  predicate IsWide(c: PooledConstant) { c.tag == CONSTANT_Long || c.tag == CONSTANT_Double }

  /**
   * One entry at `pos`, the `index`-th of the pool: the constant and the position after it.
   * MethodHandle reads a one-byte kind then a two-byte index; the other link constants read
   * two two-byte indices.
   */
  function ReadEntry(data: seq<byte>, pos: nat, index: int): (r: Read<(PooledConstant, nat)>)
    ensures r.Ok? ==> pos < r.value.1 <= |data|
    ensures pos < |data| && r.Err? && r.error.InvalidEntry? ==>
      r.error == InvalidEntry(index, SignedByte(data[pos]))
  {
    if pos >= |data| then Err(EndOfStream)
    else
      var tag := SignedByte(data[pos]);
      var p := pos + 1;
      if tag == CONSTANT_Utf8 then
        if p + 2 > |data| then Err(EndOfStream)
        else
          var len := BigEndian(data[p..p + 2]);
          if p + 2 + len > |data| then Err(EndOfStream)
          else Ok((Primitive(tag, Utf8Bytes(data[p + 2..p + 2 + len])), p + 2 + len))
      else if tag == CONSTANT_Integer then
        if p + 4 > |data| then Err(EndOfStream)
        else Ok((Primitive(tag, IntegerValue(Signed(BigEndian(data[p..p + 4]), 4))), p + 4))
      else if tag == CONSTANT_Float then
        if p + 4 > |data| then Err(EndOfStream)
        else Ok((Primitive(tag, FloatBits(data[p..p + 4])), p + 4))
      else if tag == CONSTANT_Long then
        if p + 8 > |data| then Err(EndOfStream)
        else Ok((Primitive(tag, LongValue(Signed(BigEndian(data[p..p + 8]), 8))), p + 8))
      else if tag == CONSTANT_Double then
        if p + 8 > |data| then Err(EndOfStream)
        else Ok((Primitive(tag, DoubleBits(data[p..p + 8])), p + 8))
      else if tag in {CONSTANT_Class, CONSTANT_String, CONSTANT_MethodType, CONSTANT_Module,
                      CONSTANT_Package} then
        if p + 2 > |data| then Err(EndOfStream)
        else Ok((Primitive(tag, IndexValue(BigEndian(data[p..p + 2]))), p + 2))
      else if tag in {CONSTANT_NameAndType, CONSTANT_Fieldref, CONSTANT_Methodref,
                      CONSTANT_InterfaceMethodref, CONSTANT_InvokeDynamic} then
        if p + 4 > |data| then Err(EndOfStream)
        else Ok((Link(tag, BigEndian(data[p..p + 2]), BigEndian(data[p + 2..p + 4]), []), p + 4))
      else if tag == CONSTANT_MethodHandle then
        if p + 3 > |data| then Err(EndOfStream)
        else Ok((Link(tag, data[p], BigEndian(data[p + 1..p + 3]), []), p + 3))
      else Err(InvalidEntry(index, tag))
  }

  /** The constants a class file can hold, with every field in the range its encoding has. */
  predicate Encodable(c: PooledConstant)
  {
    match c
    case Primitive(tag, v) =>
      (tag == CONSTANT_Utf8 && v.Utf8Bytes? && |v.utf| < 0x1_0000) ||
      (tag == CONSTANT_Integer && v.IntegerValue? && -0x8000_0000 <= v.i < 0x8000_0000) ||
      (tag == CONSTANT_Float && v.FloatBits? && |v.fbits| == 4) ||
      (tag == CONSTANT_Long && v.LongValue? &&
       -0x8000_0000_0000_0000 <= v.l < 0x8000_0000_0000_0000) ||
      (tag == CONSTANT_Double && v.DoubleBits? && |v.dbits| == 8) ||
      (tag in {CONSTANT_Class, CONSTANT_String, CONSTANT_MethodType, CONSTANT_Module,
               CONSTANT_Package} && v.IndexValue? && 0 <= v.index < 0x1_0000)
    case Link(tag, a, b, names) =>
      names == [] && 0 <= b < 0x1_0000 &&
      ((tag in {CONSTANT_NameAndType, CONSTANT_Fieldref, CONSTANT_Methodref,
                CONSTANT_InterfaceMethodref, CONSTANT_InvokeDynamic} && 0 <= a < 0x1_0000) ||
       (tag == CONSTANT_MethodHandle && 0 <= a < 256))
  }

  /** The bytes a class-file writer emits for `c` (section 4.4). */
  function EncodeEntry(c: PooledConstant): (r: seq<byte>)
    requires Encodable(c)
    ensures |r| > 0 && r[0] == c.tag
  {
    match c
    case Primitive(tag, v) =>
      if v.Utf8Bytes? then [tag] + ToBigEndian(|v.utf|, 2) + v.utf
      else if v.IntegerValue? then [tag] + ToBigEndian(Unsigned(v.i, 4), 4)
      else if v.FloatBits? then [tag] + v.fbits
      else if v.LongValue? then [tag] + ToBigEndian(Unsigned(v.l, 8), 8)
      else if v.DoubleBits? then [tag] + v.dbits
      else [tag] + ToBigEndian(v.index, 2)
    case Link(tag, a, b, _) =>
      if tag == CONSTANT_MethodHandle then [tag, a] + ToBigEndian(b, 2)
      else [tag] + ToBigEndian(a, 2) + ToBigEndian(b, 2)
  }

  /** Reading an encoded entry gives back the constant and stops right after it. */
  lemma {:induction false} ReadEncodedEntry(c: PooledConstant, prefix: seq<byte>, rest: seq<byte>, index: int)
    requires Encodable(c)
    ensures ReadEntry(prefix + EncodeEntry(c) + rest, |prefix|, index)
      == Ok((c, |prefix| + |EncodeEntry(c)|))
  {
    var e := EncodeEntry(c);
    var data := prefix + e + rest;
    assert data[|prefix|..|prefix| + |e|] == e;
    assert data[|prefix|] == c.tag;
    if c.Link? {
      ReadEncodedLink(c, data, |prefix|, e, index);
    } else if c.value.Utf8Bytes? {
      ReadEncodedUtf8(c, data, |prefix|, e, index);
    } else if c.value.IntegerValue? || c.value.LongValue? {
      ReadEncodedNumber(c, data, |prefix|, e, index);
    } else {
      ReadEncodedRaw(c, data, |prefix|, e, index);
    }
  }

  lemma {:induction false} ReadEncodedLink(c: PooledConstant, data: seq<byte>, pos: nat, e: seq<byte>, index: int)
    requires Encodable(c) && c.Link? && e == EncodeEntry(c)
    requires pos + |e| <= |data| && data[pos..pos + |e|] == e
    ensures ReadEntry(data, pos, index) == Ok((c, pos + |e|))
  {
    var p := pos + 1;
    var lo := ToBigEndian(c.index2, 2);
    BigEndianRoundTrip(c.index2, 2);
    SubSlice(data, pos, |e|, 0, 1);
    if c.tag == CONSTANT_MethodHandle {
      assert e == [c.tag, c.index1] + lo;
      SubSlice(data, pos, |e|, 1, 2);
      SubSlice(data, pos, |e|, 2, 4);
      assert e[2..4] == lo;
    } else {
      var hi := ToBigEndian(c.index1, 2);
      BigEndianRoundTrip(c.index1, 2);
      assert e == [c.tag] + hi + lo;
      SubSlice(data, pos, |e|, 1, 3);
      SubSlice(data, pos, |e|, 3, 5);
      assert e[1..3] == hi && e[3..5] == lo;
    }
  }

  /** A slice of the `n` bytes at `pos` is the slice of the stream at the same offsets. */
  lemma SubSlice(data: seq<byte>, pos: nat, n: nat, i: nat, j: nat)
    requires pos + n <= |data| && i <= j <= n
    ensures data[pos + i..pos + j] == data[pos..pos + n][i..j]
    ensures j == i + 1 ==> data[pos + i] == data[pos..pos + n][i]
  {
    var w := data[pos..pos + n];
    assert |data[pos + i..pos + j]| == |w[i..j]|;
    forall k | 0 <= k < j - i
      ensures data[pos + i..pos + j][k] == w[i..j][k]
    {
      assert w[i + k] == data[pos + i + k];
    }
  }

  lemma {:induction false} ReadEncodedUtf8(c: PooledConstant, data: seq<byte>, pos: nat, e: seq<byte>, index: int)
    requires Encodable(c) && c.Primitive? && c.value.Utf8Bytes? && e == EncodeEntry(c)
    requires pos + |e| <= |data| && data[pos..pos + |e|] == e
    ensures ReadEntry(data, pos, index) == Ok((c, pos + |e|))
  {
    var u := c.value.utf;
    var len := ToBigEndian(|u|, 2);
    BigEndianRoundTrip(|u|, 2);
    assert e == [c.tag] + len + u;
    SubSlice(data, pos, |e|, 0, 1);
    SubSlice(data, pos, |e|, 1, 3);
    SubSlice(data, pos, |e|, 3, |e|);
    assert e[1..3] == len && e[3..] == u;
  }

  lemma {:induction false} ReadEncodedNumber(c: PooledConstant, data: seq<byte>, pos: nat, e: seq<byte>, index: int)
    requires Encodable(c) && c.Primitive? && (c.value.IntegerValue? || c.value.LongValue?)
    requires e == EncodeEntry(c)
    requires pos + |e| <= |data| && data[pos..pos + |e|] == e
    ensures ReadEntry(data, pos, index) == Ok((c, pos + |e|))
  {
    var p := pos + 1;
    assert data[pos] == e[0];
    if c.value.IntegerValue? {
      var i := c.value.i;
      BigEndianRoundTrip(Unsigned(i, 4), 4);
      SignedRoundTrip(i, 4);
      assert data[p..p + 4] == e[1..] == ToBigEndian(Unsigned(i, 4), 4);
    } else {
      var l := c.value.l;
      BigEndianRoundTrip(Unsigned(l, 8), 8);
      SignedRoundTrip(l, 8);
      assert data[p..p + 8] == e[1..] == ToBigEndian(Unsigned(l, 8), 8);
    }
  }

  lemma {:induction false} ReadEncodedRaw(c: PooledConstant, data: seq<byte>, pos: nat, e: seq<byte>, index: int)
    requires Encodable(c) && c.Primitive?
    requires c.value.FloatBits? || c.value.DoubleBits? || c.value.IndexValue?
    requires e == EncodeEntry(c)
    requires pos + |e| <= |data| && data[pos..pos + |e|] == e
    ensures ReadEntry(data, pos, index) == Ok((c, pos + |e|))
  {
    var p := pos + 1;
    assert data[pos] == e[0];
    if c.value.FloatBits? {
      assert data[p..p + 4] == e[1..] == c.value.fbits;
    } else if c.value.DoubleBits? {
      assert data[p..p + 8] == e[1..] == c.value.dbits;
    } else {
      BigEndianRoundTrip(c.value.index, 2);
      assert data[p..p + 2] == e[1..] == ToBigEndian(c.value.index, 2);
    }
  }

  /** Any tag outside table 4.4-B (and CONSTANT_Dynamic, 17, which the reader does not know)
    * is rejected with the entry's index and the signed tag. */
  lemma {:induction false} UnknownTagIsRejected(data: seq<byte>, pos: nat, index: int)
    requires pos < |data|
    requires SignedByte(data[pos]) !in {1, 3, 4, 5, 6, 7, 8, 9, 10, 11, 12, 15, 16, 18, 19, 20}
    ensures ReadEntry(data, pos, index) == Err(InvalidEntry(index, SignedByte(data[pos])))
  {
  }

  // ---------------------------------------------------------------------------------------
  // Reading the whole pool

  /** The three resolution passes as lists of pool indices, in the order entries were read. */
  type Passes = p: seq<seq<int>> | |p| == 3 witness [[], [], []]

  function AddToPass(passes: Passes, c: PooledConstant, i: int): (r: Passes)
  {
    var k := PassOf(c.tag);
    if 0 <= k < 3 then passes[k := passes[k] + [i]] else passes
  }

  /** What the reading loop has produced: one slot per index (`null` is `None`), the passes,
    * and the stream position. */
  datatype PoolImage = PoolImage(slots: seq<Option<PooledConstant>>, passes: Passes)

  /**
   * The reading loop from index `i` on, reading at `pos`, with `slots` and `passes` as filled
   * so far.  A Long or Double entry moves `i` on by two.
   */
  function ReadEntries(data: seq<byte>, pos: nat, i: nat, slots: seq<Option<PooledConstant>>,
                       passes: Passes): Read<PoolImage>
    decreases |slots| - i
  {
    if i >= |slots| then Ok(PoolImage(slots, passes))
    else
      match ReadEntry(data, pos, i)
      case Err(e) => Err(e)
      case Ok(entry) =>
        var c := entry.0;
        ReadEntries(data, entry.1, if IsWide(c) then i + 2 else i + 1,
                    slots[i := Some(c)], AddToPass(passes, c, i))
  }

  /** The first loop of the constructor: the count, then entries `1..count-1`. */
  function ReadPoolImage(data: seq<byte>): Read<PoolImage>
  {
    match U2(data, 0)
    case Err(e) => Err(e)
    case Ok(size) => ReadEntries(data, 2, 1, seq(size, _ => None), [[], [], []])
  }

  /** What a filled pool looks like below index `i`, for a pool read from index 1. */
  ghost predicate WellFilled(slots: seq<Option<PooledConstant>>, passes: Passes, i: nat)
  {
    |slots| > 0 && slots[0] == None &&
    (forall j :: i <= j < |slots| ==> slots[j] == None) &&
    (forall j :: 0 <= j < |slots| - 1 && j < i && slots[j].Some? && IsWide(slots[j].value)
       ==> slots[j + 1] == None) &&
    (0 < i <= |slots| ==> !(slots[i - 1].Some? && IsWide(slots[i - 1].value))) &&
    PassHolds(slots, passes[0], 0, i) && PassHolds(slots, passes[1], 1, i) &&
    PassHolds(slots, passes[2], 2, i) &&
    PassComplete(slots, passes, i) && Covered(slots, i)
  }

  /** Every filled slot below `i` whose tag has a pass is queued in that pass. */
  ghost predicate PassComplete(slots: seq<Option<PooledConstant>>, passes: Passes, i: nat)
  {
    forall x :: 0 < x < i && x < |slots| && slots[x].Some? && 0 <= PassOf(slots[x].value.tag) < 3
      ==> x in passes[PassOf(slots[x].value.tag)]
  }

  /** Every slot from 1 to below `i` is filled, except the one after a Long or Double. */
  ghost predicate Covered(slots: seq<Option<PooledConstant>>, i: nat)
  {
    forall x :: 0 < x < i && x < |slots| && !(slots[x - 1].Some? && IsWide(slots[x - 1].value))
      ==> slots[x].Some?
  }

  /** Every index of `pass` is a filled slot below `i` whose tag belongs to pass `k`. */
  ghost predicate PassHolds(slots: seq<Option<PooledConstant>>, pass: seq<int>, k: int, i: nat)
  {
    forall x :: x in pass ==> 0 < x < |slots| && x < i && slots[x].Some? && PassOf(slots[x].value.tag) == k
  }

  /** Reading keeps the slot count, never fills slot 0, fills every other slot except the one
    * after a Long or Double, and queues each entry whose tag has a pass in that pass and in
    * no other. */
  lemma {:induction false} ReadEntriesKeepsShape(data: seq<byte>, pos: nat, i: nat,
      slots: seq<Option<PooledConstant>>, passes: Passes)
    requires 0 < i && WellFilled(slots, passes, i)
    requires i <= |slots| || (i == |slots| + 1 && slots[|slots| - 1].Some? && IsWide(slots[|slots| - 1].value))
    ensures ReadEntries(data, pos, i, slots, passes).Ok? ==>
      var img := ReadEntries(data, pos, i, slots, passes).value;
      |img.slots| == |slots| && WellFilled(img.slots, img.passes, |slots| + 1)
    decreases |slots| - i
  {
    if i < |slots| && ReadEntry(data, pos, i).Ok? {
      var entry := ReadEntry(data, pos, i).value;
      var c := entry.0;
      WellFilledStep(slots, passes, i, c);
      ReadEntriesKeepsShape(data, entry.1, if IsWide(c) then i + 2 else i + 1, slots[i := Some(c)],
                            AddToPass(passes, c, i));
    }
  }

  /** Reading one more entry at `i` keeps the pool well filled below the next index. */
  lemma {:induction false} WellFilledStep(slots: seq<Option<PooledConstant>>, passes: Passes, i: nat,
      c: PooledConstant)
    requires 0 < i < |slots| && WellFilled(slots, passes, i)
    ensures var i' := if IsWide(c) then i + 2 else i + 1;
      WellFilled(slots[i := Some(c)], AddToPass(passes, c, i), i')
  {
    var slots' := slots[i := Some(c)];
    var i' := if IsWide(c) then i + 2 else i + 1;
    assert i + 1 < |slots| ==> slots[i + 1] == None;
    forall j | 0 <= j < |slots'| - 1 && j < i' && slots'[j].Some? && IsWide(slots'[j].value)
      ensures slots'[j + 1] == None
    {
      if j == i {
        assert slots'[j + 1] == slots[j + 1];
      }
    }
    AddToPassKeeps(passes, c, i, slots, slots', i');
    AddToPassCompletes(passes, c, i, slots, slots', i');
    CoveredStep(slots, i, c, i');
  }

  lemma {:induction false} CoveredStep(slots: seq<Option<PooledConstant>>, i: nat, c: PooledConstant, i': nat)
    requires 0 < i < |slots| && Covered(slots, i)
    requires i' == if IsWide(c) then i + 2 else i + 1
    ensures Covered(slots[i := Some(c)], i')
  {
    var slots' := slots[i := Some(c)];
    forall x | 0 < x < i' && x < |slots'| && !(slots'[x - 1].Some? && IsWide(slots'[x - 1].value))
      ensures slots'[x].Some?
    {
      if x < i {
        assert slots'[x - 1] == slots[x - 1] && slots'[x] == slots[x];
      }
    }
  }

  /** The pool array has `count` slots; slot 0 stays `null`; a slot from 1 on is filled
    * exactly when the slot before it is not a Long or Double; each pass holds exactly the
    * filled slots whose tag belongs to it. */
  lemma {:induction false} PoolImageShape(data: seq<byte>)
    requires ReadPoolImage(data).Ok?
    ensures var img := ReadPoolImage(data).value;
      |img.slots| == BigEndian(data[0..2]) &&
      (|img.slots| > 0 ==> WellFilled(img.slots, img.passes, |img.slots| + 1))
  {
    var size := BigEndian(data[0..2]);
    if size > 0 {
      ReadEntriesKeepsShape(data, 2, 1, seq(size, _ => None), [[], [], []]);
    }
  }

  lemma {:induction false} AddToPassKeeps(passes: Passes, c: PooledConstant, i: nat,
      slots: seq<Option<PooledConstant>>, slots': seq<Option<PooledConstant>>, i': nat)
    requires 0 < i < |slots| && i < i' && slots' == slots[i := Some(c)]
    requires PassHolds(slots, passes[0], 0, i) && PassHolds(slots, passes[1], 1, i)
    requires PassHolds(slots, passes[2], 2, i)
    ensures var p := AddToPass(passes, c, i);
      PassHolds(slots', p[0], 0, i') && PassHolds(slots', p[1], 1, i') && PassHolds(slots', p[2], 2, i')
  {
    var p := AddToPass(passes, c, i);
    var k0 := PassOf(c.tag);
    forall k | 0 <= k < 3 ensures PassHolds(slots', p[k], k, i') {
      assert PassHolds(slots, passes[k], k, i);
      forall x | x in p[k]
        ensures 0 < x < |slots'| && x < i' && slots'[x].Some? && PassOf(slots'[x].value.tag) == k
      {
        if x in passes[k] {
          assert x != i;
        } else {
          assert k == k0 && p[k] == passes[k] + [i];
        }
      }
    }
  }

  lemma {:induction false} AddToPassCompletes(passes: Passes, c: PooledConstant, i: nat,
      slots: seq<Option<PooledConstant>>, slots': seq<Option<PooledConstant>>, i': nat)
    requires 0 < i < |slots| && i < i' && slots' == slots[i := Some(c)]
    requires i' == i + 1 || (i' == i + 2 && (i + 1 < |slots| ==> slots[i + 1] == None))
    requires PassComplete(slots, passes, i)
    ensures PassComplete(slots', AddToPass(passes, c, i), i')
  {
    var p := AddToPass(passes, c, i);
    forall x | 0 < x < i' && x < |slots'| && slots'[x].Some? && 0 <= PassOf(slots'[x].value.tag) < 3
      ensures x in p[PassOf(slots'[x].value.tag)]
    {
      var k := PassOf(slots'[x].value.tag);
      if x < i {
        assert slots'[x] == slots[x] && x in passes[k];
        assert p[k] == passes[k] || p[k] == passes[k] + [i];
      } else {
        assert x == i && p[k] == passes[k] + [i];
      }
    }
  }

  /** Every index the resolution passes name is a filled slot, and every filled slot whose
    * tag has a pass is resolved. */
  lemma {:induction false} OrderNamesFilledSlots(slots: seq<Option<PooledConstant>>, passes: Passes)
    requires WellFilled(slots, passes, |slots| + 1)
    ensures forall x :: x in ResolutionOrder(passes) ==> 0 <= x < |slots| && slots[x].Some?
    ensures forall x ::
              0 <= x < |slots| && slots[x].Some? && 0 <= PassOf(slots[x].value.tag) < 3
              ==> x in ResolutionOrder(passes)
  {
    assert PassComplete(slots, passes, |slots| + 1);
    assert PassHolds(slots, passes[0], 0, |slots| + 1) && PassHolds(slots, passes[1], 1, |slots| + 1);
    assert PassHolds(slots, passes[2], 2, |slots| + 1);
    forall x | x in ResolutionOrder(passes) ensures 0 <= x < |slots| && slots[x].Some? {
      if x in passes[0] { } else if x in passes[1] { } else { assert x in passes[2]; }
    }
  }

  /** Each pass lists its indices in increasing order, so no entry is resolved twice. */
  ghost predicate PassesAscending(passes: Passes)
  {
    forall k, a, b :: 0 <= k < 3 && 0 <= a < b < |passes[k]| ==> passes[k][a] < passes[k][b]
  }

  lemma {:induction false} ReadEntriesPassesAscending(data: seq<byte>, pos: nat, i: nat,
      slots: seq<Option<PooledConstant>>, passes: Passes)
    requires PassesAscending(passes)
    requires forall k, x :: 0 <= k < 3 && x in passes[k] ==> x < i
    ensures ReadEntries(data, pos, i, slots, passes).Ok? ==>
      PassesAscending(ReadEntries(data, pos, i, slots, passes).value.passes)
    decreases |slots| - i
  {
    if i < |slots| {
      match ReadEntry(data, pos, i)
      case Err(_) =>
      case Ok(entry) =>
        var c := entry.0;
        var passes' := AddToPass(passes, c, i);
        var i' := if IsWide(c) then i + 2 else i + 1;
        assert forall k, x :: 0 <= k < 3 && x in passes'[k] ==> x < i' by {
          forall k, x | 0 <= k < 3 && x in passes'[k] ensures x < i' {
            if x != i { assert x in passes[k]; }
          }
        }
        assert PassesAscending(passes') by {
          var k0 := PassOf(c.tag);
          if 0 <= k0 < 3 {
            forall k, a, b | 0 <= k < 3 && 0 <= a < b < |passes'[k]|
              ensures passes'[k][a] < passes'[k][b]
            {
              if k == k0 && b == |passes[k]| {
                assert passes[k][a] in passes[k];
              }
            }
          }
        }
        ReadEntriesPassesAscending(data, entry.1, i', slots[i := Some(c)], passes');
    }
  }

  // ---------------------------------------------------------------------------------------
  // Resolution

  /**
   * `PooledConstant.resolveConstant(pool)` is not part of this model: it is a parameter that
   * turns a constant into its resolved form, looking at the pool as it stands, or gives `None`
   * where the source's resolution throws (a bad index, a slot of the wrong kind).
   */
  type Resolver = (PooledConstant, seq<Option<PooledConstant>>) -> Option<PooledConstant>

  /** Resolving the entries at `order`, one after the other, in place; the first entry whose
    * resolution throws ends it. */
  function ResolveAll(slots: seq<Option<PooledConstant>>, order: seq<int>, resolve: Resolver)
    : (r: Read<seq<Option<PooledConstant>>>)
    requires forall x :: x in order ==> 0 <= x < |slots| && slots[x].Some?
    ensures r.Ok? ==> |r.value| == |slots|
    ensures r.Ok? ==> forall j :: 0 <= j < |slots| && j !in order ==> r.value[j] == slots[j]
    ensures r.Ok? ==> forall j :: 0 <= j < |slots| ==> (r.value[j].Some? <==> slots[j].Some?)
    ensures r.Err? ==> r.error.ResolveFailed? && r.error.index in order
    decreases |order|
  {
    if order == [] then Ok(slots)
    else
      var x := order[0];
      assert x in order;
      assert forall y :: y in order[1..] ==> y in order;
      match resolve(slots[x].value, slots)
      case None => Err(ResolveFailed(x))
      case Some(c) => ResolveAll(slots[x := Some(c)], order[1..], resolve)
  }

  /** Resolution fails only where the resolver does: with a resolver that never throws on the
    * entries of `order`, every entry is resolved. */
  lemma {:induction false} ResolveAllSucceeds(slots: seq<Option<PooledConstant>>, order: seq<int>,
      resolve: Resolver)
    requires forall x :: x in order ==> 0 <= x < |slots| && slots[x].Some?
    requires forall c, s :: resolve(c, s).Some?
    ensures ResolveAll(slots, order, resolve).Ok?
    decreases |order|
  {
    if order != [] {
      var x := order[0];
      assert x in order;
      assert forall y :: y in order[1..] ==> y in order;
      ResolveAllSucceeds(slots[x := Some(resolve(slots[x].value, slots).value)], order[1..], resolve);
    }
  }

  /** The three passes run one after the other: pass 0, then pass 1, then pass 2. */
  function ResolutionOrder(passes: Passes): seq<int> { passes[0] + passes[1] + passes[2] }

  /** Resolution touches only the entries of the passes, and every pass-0 entry is resolved
    * before any pass-1 entry, every pass-1 entry before any pass-2 entry. */
  lemma {:induction false} ResolutionOrderRespectsPasses(passes: Passes, a: nat, b: nat)
    requires a < b < |ResolutionOrder(passes)|
    ensures PassIndexAt(passes, a) <= PassIndexAt(passes, b)
  {
  }

  /** Which pass the `n`-th resolution step belongs to. */
  function PassIndexAt(passes: Passes, n: nat): (k: int)
    requires n < |ResolutionOrder(passes)|
    ensures 0 <= k < 3
    ensures ResolutionOrder(passes)[n] in passes[k]
  {
    if n < |passes[0]| then 0
    else if n < |passes[0]| + |passes[1]| then 1
    else 2
  }

  /** The pool as the constructor leaves it, or the exception that ends the constructor. */
  function ReadPool(data: seq<byte>, resolve: Resolver): (r: Read<seq<Option<PooledConstant>>>)
    ensures ReadPoolImage(data).Err? ==> r == Err(ReadPoolImage(data).error)
    ensures r.Ok? ==> ReadPoolImage(data).Ok? && |r.value| == |ReadPoolImage(data).value.slots|
    ensures ReadPoolImage(data).Ok? && r.Err? ==>
      r.error.ResolveFailed? && r.error.index in ResolutionOrder(ReadPoolImage(data).value.passes)
  {
    match ReadPoolImage(data)
    case Err(e) => Err(e)
    case Ok(img) =>
      if |img.slots| == 0 then Ok(img.slots)
      else
        PoolImageShape(data);
        OrderNamesFilledSlots(img.slots, img.passes);
        ResolveAll(img.slots, ResolutionOrder(img.passes), resolve)
  }

  /** With a resolver that never throws, the constructor succeeds exactly when the bytes
    * parse. */
  lemma {:induction false} ReadPoolParsesOnly(data: seq<byte>, resolve: Resolver)
    requires forall c, s :: resolve(c, s).Some?
    ensures ReadPool(data, resolve).Ok? <==> ReadPoolImage(data).Ok?
  {
    if ReadPoolImage(data).Ok? {
      var img := ReadPoolImage(data).value;
      if |img.slots| > 0 {
        PoolImageShape(data);
        OrderNamesFilledSlots(img.slots, img.passes);
        ResolveAllSucceeds(img.slots, ResolutionOrder(img.passes), resolve);
      }
    }
  }

  // ---------------------------------------------------------------------------------------
  // The pool object

  /** `PoolInterceptor.getName`: a renaming of classes and members, when one is installed. */
  type Renaming = map<string, string>

  class ConstantPool {
    /** `private final PooledConstant[] pool`. */
    const pool: array<Option<PooledConstant>>
    /** `interceptor`, `null` when no renaming is installed. */
    const interceptor: Option<Renaming>

    constructor Of(pool: array<Option<PooledConstant>>, interceptor: Option<Renaming>)
      ensures this.pool == pool && this.interceptor == interceptor
    {
      this.pool := pool;
      this.interceptor := interceptor;
    }

    /** `getConstant(index)`: `pool[index]`, which throws outside the array. */
    method GetConstant(index: int) returns (r: Result<Option<PooledConstant>>)
      ensures 0 <= index < pool.Length <==> r.Success?
      ensures r.Success? ==> r.value == pool[index]
    {
      if 0 <= index < pool.Length {
        r := Success(pool[index]);
      } else {
        r := Failure("ArrayIndexOutOfBoundsException");
      }
    }

    /**
     * `getPrimitiveConstant(index)`: the entry cast to a primitive constant (a link constant
     * throws `ClassCastException`); with an interceptor installed, a Class constant whose name
     * is renamed comes back as a new Class constant carrying the new name.
     */
    method GetPrimitiveConstant(index: int) returns (r: Result<Option<PooledConstant>>)
      ensures !(0 <= index < pool.Length) ==> r.Failure?
      ensures 0 <= index < pool.Length && pool[index].Some? && pool[index].value.Link? ==> r.Failure?
      ensures 0 <= index < pool.Length && interceptor.None? && !(pool[index].Some? && pool[index].value.Link?)
        ==> r == Success(pool[index])
      ensures r.Success? && r.value.Some? ==> r.value.value.Primitive?
      ensures r.Success? && r.value.Some? && r.value.value.tag != CONSTANT_Class ==>
        r.value == pool[index]
      ensures r.Success? && r.value.Some? && r.value.value.tag == CONSTANT_Class && interceptor.Some? ==>
        pool[index].Some? && pool[index].value.value.Text? &&
        var old_name := pool[index].value.value.s;
        (if BuildNewClassname(interceptor.value, old_name).Some?
         then r.value.value == Primitive(CONSTANT_Class, Text(BuildNewClassname(interceptor.value, old_name).value))
         else r.value == pool[index])
    {
      var got := GetConstant(index);
      if got.Failure? {
        return Failure(got.error);
      }
      var cn := got.value;
      if cn.Some? && cn.value.Link? {
        return Failure("ClassCastException");
      }
      if cn.Some? && interceptor.Some? && cn.value.tag == CONSTANT_Class {
        if !cn.value.value.Text? {
          return Failure("ClassCastException");
        }
        var newName := BuildNewClassname(interceptor.value, cn.value.value.s);
        if newName.Some? {
          cn := Some(Primitive(CONSTANT_Class, Text(newName.value)));
        }
      }
      r := Success(cn);
    }
  }

  /**
   * The constructor: reads the pool into a new array, then runs the three resolution passes in
   * order over it, in place.  The interceptor is the one installed in the decompiler context.
   */
  method NewConstantPool(data: seq<byte>, resolve: Resolver, interceptor: Option<Renaming>)
    returns (r: Read<ConstantPool>)
    ensures r.Err? <==> ReadPool(data, resolve).Err?
    ensures r.Err? ==> r.error == ReadPool(data, resolve).error
    ensures r.Ok? ==> fresh(r.value) && fresh(r.value.pool)
    ensures r.Ok? ==> r.value.pool[..] == ReadPool(data, resolve).value
    ensures r.Ok? ==> r.value.interceptor == interceptor
  {
    var err, pool, passes := ReadSlots(data);
    if err.Some? {
      return Err(err.value);
    }
    if pool.Length > 0 {
      var failed := ResolvePasses(data, resolve, pool, passes);
      if failed.Some? {
        return Err(failed.value);
      }
    }
    var cp := new ConstantPool.Of(pool, interceptor);
    r := Ok(cp);
  }

  /** The first loop of the constructor: the entry count, then the entries, read into a new
    * array while their indices are queued into the three passes. */
  method ReadSlots(data: seq<byte>) returns (err: Option<PoolError>, pool: array<Option<PooledConstant>>, passes: Passes)
    ensures fresh(pool)
    ensures err.Some? ==> ReadPoolImage(data).Err? && err.value == ReadPoolImage(data).error
    ensures err.None? ==> ReadPoolImage(data) == Ok(PoolImage(pool[..], passes))
  {
    passes := [[], [], []];
    var size := U2(data, 0);
    if size.Err? {
      pool := new Option<PooledConstant>[0];
      return Some(size.error), pool, passes;
    }
    pool := new Option<PooledConstant>[size.value](_ => None);
    var pos := 2;
    var i := 1;
    ghost var start := seq(size.value, _ => None);
    assert pool[..] == start;
    while i < size.value
      invariant pool.Length == size.value
      invariant ReadEntries(data, pos, i, pool[..], passes) == ReadEntries(data, 2, 1, start, [[], [], []])
      modifies pool
    {
      var entry := ReadEntry(data, pos, i);
      if entry.Err? {
        return Some(entry.error), pool, passes;
      }
      var c := entry.value.0;
      pool[i] := Some(c);
      passes := AddToPass(passes, c, i);
      pos := entry.value.1;
      if IsWide(c) {
        i := i + 1;
      }
      i := i + 1;
    }
    err := None;
  }

  /** The three resolution passes of the constructor, run in place over the pool; `failed`
    * is the exception that stops them. */
  method ResolvePasses(data: seq<byte>, resolve: Resolver, pool: array<Option<PooledConstant>>, passes: Passes)
    returns (failed: Option<PoolError>)
    requires pool.Length > 0 && ReadPoolImage(data) == Ok(PoolImage(pool[..], passes))
    modifies pool
    ensures failed.None? <==> ReadPool(data, resolve).Ok?
    ensures failed.None? ==> pool[..] == ReadPool(data, resolve).value
    ensures failed.Some? ==> failed.value == ReadPool(data, resolve).error
  {
    PoolImageShape(data);
    OrderNamesFilledSlots(pool[..], passes);
    failed := ResolveInPlace(pool, ResolutionOrder(passes), resolve);
  }

  /** The entries at `order` resolved one after the other, each against the pool as it
    * stands, up to the first whose resolution throws. */
  method ResolveInPlace(pool: array<Option<PooledConstant>>, order: seq<int>, resolve: Resolver)
    returns (failed: Option<PoolError>)
    requires forall x :: x in order ==> 0 <= x < pool.Length && pool[x].Some?
    modifies pool
    ensures failed.None? <==> ResolveAll(old(pool[..]), order, resolve).Ok?
    ensures failed.None? ==> pool[..] == ResolveAll(old(pool[..]), order, resolve).value
    ensures failed.Some? ==> failed.value == ResolveAll(old(pool[..]), order, resolve).error
  {
    assert forall j :: 0 <= j < |order| ==> order[j] in order;
    var n := 0;
    while n < |order|
      invariant 0 <= n <= |order|
      invariant forall j :: 0 <= j < |order| ==> 0 <= order[j] < pool.Length && pool[order[j]].Some?
      invariant ResolveAll(pool[..], order[n..], resolve) == ResolveAll(old(pool[..]), order, resolve)
    {
      ResolveStep(pool[..], order, n, resolve);
      var x := order[n];
      var resolved := resolve(pool[x].value, pool[..]);
      if resolved.None? {
        return Some(ResolveFailed(x));
      }
      ghost var before := pool[..];
      pool[x] := resolved;
      assert pool[..] == before[x := resolved];
      n := n + 1;
    }
    assert order[n..] == [];
    failed := None;
  }

  /** One resolution step: the entry at `order[n]` is resolved against the current slots,
    * failing there when its resolution throws, and the later entries are still filled. */
  lemma ResolveStep(slots: seq<Option<PooledConstant>>, order: seq<int>, n: nat, resolve: Resolver)
    requires n < |order|
    requires forall j :: 0 <= j < |order| ==> 0 <= order[j] < |slots| && slots[order[j]].Some?
    ensures 0 <= order[n] < |slots| && slots[order[n]].Some?
    ensures forall x :: x in order[n..] ==> 0 <= x < |slots| && slots[x].Some?
    ensures resolve(slots[order[n]].value, slots).None? ==>
      ResolveAll(slots, order[n..], resolve) == Err(ResolveFailed(order[n]))
    ensures resolve(slots[order[n]].value, slots).Some? ==>
      var next := slots[order[n] := resolve(slots[order[n]].value, slots)];
      (forall j :: 0 <= j < |order| ==> 0 <= order[j] < |next| && next[order[j]].Some?) &&
      (forall x :: x in order[n + 1..] ==> 0 <= x < |next| && next[x].Some?) &&
      ResolveAll(slots, order[n..], resolve) == ResolveAll(next, order[n + 1..], resolve)
  {
    var x := order[n];
    var rest := order[n..];
    assert rest[0] == x && rest[1..] == order[n + 1..];
    assert forall y :: y in rest ==> exists j :: 0 <= j < |rest| && rest[j] == y;
    assert forall y :: y in rest[1..] ==> y in rest;
  }

  // ---------------------------------------------------------------------------------------
  // Renaming class names

  function Brackets(n: nat): (r: string)
    ensures |r| == n && forall k :: 0 <= k < n ==> r[k] == '['
  {
    if n == 0 then "" else "[" + Brackets(n - 1)
  }

  /** The number of leading `[` of a class name. */
  function ArrayDim(s: string): (n: nat)
    ensures n <= |s|
    ensures forall k :: 0 <= k < n ==> s[k] == '['
    ensures n < |s| ==> s[n] != '['
  {
    if s != [] && s[0] == '[' then 1 + ArrayDim(s[1..]) else 0
  }

  /**
   * `new VarType(className, true)` (not part of this model) as this file uses it: the number
   * of leading `[` is the array dimension, and the class named is the element type with the
   * `L...;` around an array's element class removed.
   */
  function ClassOfName(s: string): string
  {
    var dim := ArrayDim(s);
    var rest := s[dim..];
    if dim > 0 && |rest| >= 2 && rest[0] == 'L' && rest[|rest| - 1] == ';'
    then rest[1..|rest| - 1] else rest
  }

  /**
   * `buildNewClassname(className)`: the renamed class, `null` when the interceptor does not
   * rename it; an array keeps its dimension and its element becomes `L<new name>;`.
   */
  function BuildNewClassname(names: Renaming, className: string): (r: Option<string>)
    ensures r.None? <==> ClassOfName(className) !in names
    ensures r.Some? && ArrayDim(className) == 0 ==> r.value == names[className]
    ensures r.Some? && ArrayDim(className) > 0 ==>
      r.value == Brackets(ArrayDim(className)) + "L" + names[ClassOfName(className)] + ";"
  {
    var vt := ClassOfName(className);
    var dim := ArrayDim(className);
    if vt in names then
      if dim > 0 then Some(Brackets(dim) + "L" + names[vt] + ";") else Some(names[vt])
    else None
  }

  /** Renaming the element class of an array descriptor keeps the descriptor's shape. */
  lemma {:induction false} RenameArrayClass(names: Renaming, dim: nat, c: string)
    requires dim > 0 && c in names
    ensures BuildNewClassname(names, Brackets(dim) + "L" + c + ";")
      == Some(Brackets(dim) + "L" + names[c] + ";")
  {
    var s := Brackets(dim) + "L" + c + ";";
    LeadingBrackets(dim, "L" + c + ";");
    assert s[dim..] == "L" + c + ";";
    assert ("L" + c + ";")[1..|c| + 1] == c;
  }

  lemma {:induction false} LeadingBrackets(dim: nat, rest: string)
    requires rest == [] || rest[0] != '['
    ensures ArrayDim(Brackets(dim) + rest) == dim
  {
    if dim > 0 {
      assert (Brackets(dim) + rest)[1..] == Brackets(dim - 1) + rest;
      LeadingBrackets(dim - 1, rest);
    }
  }
}
