/**
 * The tag-dispatched binary codec.
 *
 * A tag selects a traits strategy for a value. Arithmetic traits pad the
 * buffer with zeros up to a multiple of their alignment, measured from the
 * buffer's current length, and then store the value in network byte order.
 * The default tag of an arithmetic type aligns it to its own size. Strings
 * are stored as a `uint32` length (itself encoded by the arithmetic rule)
 * followed by the raw bytes, with no trailing padding. Reading mirrors
 * writing, measuring padding from the number of bytes already read.
 */
module SerializationTraits {
  import opened Wire
  import opened Buffers
  import opened Wrappers

  /** A value to serialize: an integer of one of the arithmetic types, or a byte string. */
  datatype Value = Arithmetic(t: IntType, v: int) | Str(bytes: seq<byte>)

  /** The serialization strategy a tag selects. */
  datatype Traits =
    | ArithmeticTraits(t: IntType, alignment: nat)
    | StringTraits

  /** The traits `DefaultSerializationTag<T>` selects for the type of `val`. */
  function DefaultTraits(val: Value): (r: Traits)
    ensures WellFormed(r)
    ensures val.Arithmetic? ==> r.ArithmeticTraits? && r.alignment == SizeOf(val.t) && (InRange(val.t, val.v) ==> Accepts(r, val))
    ensures val.Str? ==> Accepts(r, val)
  {
    match val
    case Arithmetic(t, _) => ArithmeticTraits(t, SizeOf(t))
    case Str(_) => StringTraits
  }

  /** The string length prefix, `uint32_t`, and the number of lengths it can hold. */
  const LengthType: IntType := UInt32
  const LengthLimit: nat := 0x1_0000_0000

  lemma LengthLimitIsRange()
    ensures Pow256(SizeOf(LengthType)) == LengthLimit
  {
  }

  predicate WellFormed(traits: Traits) {
    traits.ArithmeticTraits? ==> traits.alignment >= 1
  }

  /** `val` has the type the traits are written for. */
  predicate Accepts(traits: Traits, val: Value) {
    && WellFormed(traits)
    && match traits
       case ArithmeticTraits(t, _) => val.Arithmetic? && val.t == t && InRange(t, val.v)
       case StringTraits => val.Str?
  }

  /** `length_type len = val.length()`: the length, truncated to 32 bits. */
  function StoredLength(s: seq<byte>): (len: nat)
    ensures InRange(LengthType, len)
    ensures len <= |s|
    ensures |s| < LengthLimit ==> len == |s|
  {
    LengthLimitIsRange();
    |s| % LengthLimit
  }

  // ----- Arithmetic traits -----

  /** The bytes the arithmetic traits append after `existing` bytes: padding, then `hton(v)`. */
  function ArithmeticEncoding(existing: nat, t: IntType, alignment: nat, v: int): (enc: seq<byte>)
    requires alignment >= 1 && InRange(t, v)
    ensures |enc| == ArithmeticSpaceRequired(existing, t, alignment)
    ensures (existing + |enc| - SizeOf(t)) % alignment == 0
    ensures enc[|enc| - SizeOf(t)..] == Hton(t, v)
  {
    Zeros(PaddingRequired(alignment, existing)) + Hton(t, v)
  }

  /** `ArithmeticSerializationTraits::spaceRequired` */
  function ArithmeticSpaceRequired(existing: nat, t: IntType, alignment: nat): (n: nat)
    requires alignment >= 1
    ensures SizeOf(t) <= n < SizeOf(t) + alignment
    ensures (existing + n - SizeOf(t)) % alignment == 0
  {
    PaddingRequired(alignment, existing) + SizeOf(t)
  }

  /** `spaceRequired` is exactly the number of bytes `buffer` appends, whatever the value. */
  lemma ArithmeticSpaceIsLength(existing: nat, t: IntType, alignment: nat, v: int)
    requires alignment >= 1 && InRange(t, v)
    ensures ArithmeticSpaceRequired(existing, t, alignment) == |ArithmeticEncoding(existing, t, alignment, v)|
  {
  }

  /** What the arithmetic traits read at cursor `pos`: skip padding, take `sizeof(T)` bytes, `ntoh`. */
  function ArithmeticDecoding(data: seq<byte>, pos: nat, t: IntType, alignment: nat): (r: Option<(int, nat)>)
    requires alignment >= 1
    ensures r.Some? ==> InRange(t, r.value.0) && r.value.1 == pos + ArithmeticSpaceRequired(pos, t, alignment) <= |data|
    ensures r.None? <==> pos + ArithmeticSpaceRequired(pos, t, alignment) > |data|
  {
    var start := pos + PaddingRequired(alignment, pos);
    if start + SizeOf(t) <= |data| then
      Some((Ntoh(t, data[start..start + SizeOf(t)]), start + SizeOf(t)))
    else
      None
  }

  /** The value's bytes start at a multiple of the alignment, after zero padding, in network order. */
  lemma ArithmeticLayout(existing: nat, t: IntType, alignment: nat, v: int)
    requires alignment >= 1 && InRange(t, v)
    ensures var enc := ArithmeticEncoding(existing, t, alignment, v);
      var start := ArithmeticSpaceRequired(existing, t, alignment) - SizeOf(t);
      && (existing + start) % alignment == 0
      && (forall i :: 0 <= i < start ==> enc[i] == 0)
      && enc[start..] == ToBigEndian(ToBits(t, v), SizeOf(t))
  {
    var enc := ArithmeticEncoding(existing, t, alignment, v);
    var start := PaddingRequired(alignment, existing);
    assert enc[start..] == Hton(t, v);
  }

  /** Reading at the offset the value was written at gives it back, and passes over exactly its bytes. */
  lemma {:induction false} ArithmeticRoundTrip(data: seq<byte>, pos: nat, t: IntType, alignment: nat, v: int)
    requires alignment >= 1 && InRange(t, v)
    requires var enc := ArithmeticEncoding(pos, t, alignment, v);
      pos + |enc| <= |data| && data[pos..pos + |enc|] == enc
    ensures ArithmeticDecoding(data, pos, t, alignment) == Some((v, pos + ArithmeticSpaceRequired(pos, t, alignment)))
  {
    var pad := PaddingRequired(alignment, pos);
    var bytes := Hton(t, v);
    SliceSplit(data, pos, ArithmeticEncoding(pos, t, alignment, v), Zeros(pad), bytes);
    assert |bytes| == SizeOf(t);
    assert data[pos + pad..pos + pad + SizeOf(t)] == bytes;
    NtohHton(t, v);
  }

  // ----- Dispatch over the traits -----

  /** The bytes `buffer` appends to a buffer that already holds `existing` bytes. */
  function Encoding(existing: nat, traits: Traits, val: Value): (enc: seq<byte>)
    requires Accepts(traits, val)
    ensures traits.ArithmeticTraits? ==> |enc| == ArithmeticSpaceRequired(existing, traits.t, traits.alignment)
    ensures traits.StringTraits? ==> |enc| == ArithmeticSpaceRequired(existing, LengthType, 4) + StoredLength(val.bytes)
  {
    match traits
    case ArithmeticTraits(t, alignment) => ArithmeticEncoding(existing, t, alignment, val.v)
    case StringTraits =>
      var len := StoredLength(val.bytes);
      ArithmeticEncoding(existing, LengthType, 4, len) + val.bytes[..len]
  }

  /**
   * `getBufferSpaceRequiredRaw`: the exact number of bytes `buffer` will add
   * at this point (for strings, when the length fits its 32-bit prefix).
   */
  function SpaceRequired(existing: nat, traits: Traits, val: Value): (n: nat)
    requires Accepts(traits, val)
    ensures traits.ArithmeticTraits? || |val.bytes| < LengthLimit ==> n == |Encoding(existing, traits, val)|
  {
    match traits
    case ArithmeticTraits(t, alignment) =>
      ArithmeticSpaceIsLength(existing, t, alignment, val.v);
      ArithmeticSpaceRequired(existing, t, alignment)
    case StringTraits =>
      ArithmeticSpaceIsLength(existing, LengthType, 4, StoredLength(val.bytes));
      ArithmeticSpaceRequired(existing, LengthType, 4) + |val.bytes|
  }

  /** What `unbuffer` reads at cursor `pos`, and where the cursor ends; `None` when the data runs out. */
  function Decoding(data: seq<byte>, pos: nat, traits: Traits): (r: Option<(Value, nat)>)
    requires WellFormed(traits)
    ensures r.Some? ==> Accepts(traits, r.value.0) && pos <= r.value.1 <= |data|
  {
    match traits
    case ArithmeticTraits(t, alignment) =>
      (match ArithmeticDecoding(data, pos, t, alignment)
       case None => None
       case Some((v, next)) => Some((Arithmetic(t, v), next)))
    case StringTraits =>
      (match ArithmeticDecoding(data, pos, LengthType, 4)
       case None => None
       case Some((len, next)) =>
         if next + len <= |data| then Some((Str(data[next..next + len]), next + len)) else None)
  }

  /**
   * Round trip: a reader whose cursor stands where the writer's buffer ended,
   * over data that holds the encoding there, reads back the value and advances
   * by exactly `spaceRequired`.
   */
  lemma {:induction false} RoundTrip(data: seq<byte>, pos: nat, traits: Traits, val: Value)
    requires Accepts(traits, val)
    requires val.Str? ==> |val.bytes| < LengthLimit
    requires var enc := Encoding(pos, traits, val);
      pos + |enc| <= |data| && data[pos..pos + |enc|] == enc
    ensures Decoding(data, pos, traits) == Some((val, pos + SpaceRequired(pos, traits, val)))
  {
    match traits
    case ArithmeticTraits(t, alignment) =>
      ArithmeticRoundTrip(data, pos, t, alignment, val.v);
    case StringTraits =>
      StringRoundTrip(data, pos, val.bytes);
  }

  lemma StringRoundTrip(data: seq<byte>, pos: nat, s: seq<byte>)
    requires |s| < LengthLimit
    requires var enc := Encoding(pos, StringTraits, Str(s));
      pos + |enc| <= |data| && data[pos..pos + |enc|] == enc
    ensures Decoding(data, pos, StringTraits) == Some((Str(s), pos + SpaceRequired(pos, StringTraits, Str(s))))
  {
    LengthLimitIsRange();
    var head := ArithmeticEncoding(pos, LengthType, 4, |s|);
    assert StoredLength(s) == |s| && s[..|s|] == s;
    assert Encoding(pos, StringTraits, Str(s)) == head + s;
    SliceSplit(data, pos, Encoding(pos, StringTraits, Str(s)), head, s);
    ArithmeticRoundTrip(data, pos, LengthType, 4, |s|);
  }

  /** The same, for a buffer written as `prefix`, then the value, then anything. */
  lemma RoundTripAfter(prefix: seq<byte>, traits: Traits, val: Value, suffix: seq<byte>)
    requires Accepts(traits, val)
    requires val.Str? ==> |val.bytes| < LengthLimit
    ensures var data := prefix + Encoding(|prefix|, traits, val) + suffix;
      Decoding(data, |prefix|, traits) == Some((val, |prefix| + SpaceRequired(|prefix|, traits, val)))
  {
    var enc := Encoding(|prefix|, traits, val);
    var data := prefix + enc + suffix;
    assert data[0..|data|] == data;
    SliceSplit(data, 0, data, prefix + enc, suffix);
    SliceSplit(data, 0, prefix + enc, prefix, enc);
    RoundTrip(data, |prefix|, traits, val);
  }

  /** A string is its aligned `uint32` length in network order, then exactly its bytes. */
  lemma StringLayout(existing: nat, s: seq<byte>)
    requires |s| < LengthLimit
    ensures InRange(LengthType, |s|)
    ensures Encoding(existing, StringTraits, Str(s)) == Encoding(existing, DefaultTraits(Arithmetic(LengthType, |s|)), Arithmetic(LengthType, |s|)) + s
    ensures SpaceRequired(existing, StringTraits, Str(s)) == SpaceRequired(existing, DefaultTraits(Arithmetic(LengthType, 0)), Arithmetic(LengthType, 0)) + |s|
  {
    LengthLimitIsRange();
  }

  /**
   * For a string longer than the 32-bit prefix can state, `spaceRequired`
   * (which counts the full length) overstates what `buffer` appends (which
   * writes the truncated length and only that many bytes).
   */
  lemma OverlongStringSpace(existing: nat, s: seq<byte>)
    requires |s| >= LengthLimit
    ensures SpaceRequired(existing, StringTraits, Str(s)) > |Encoding(existing, StringTraits, Str(s))|
  {
  }

  /** The default tag aligns every arithmetic type to its own size. */
  lemma DefaultAlignsToSize(existing: nat, t: IntType, v: int)
    requires InRange(t, v)
    ensures Accepts(DefaultTraits(Arithmetic(t, v)), Arithmetic(t, v))
    ensures var pad := SpaceRequired(existing, DefaultTraits(Arithmetic(t, v)), Arithmetic(t, v)) - SizeOf(t);
      pad < SizeOf(t) && (existing + pad) % SizeOf(t) == 0
  {
  }

  // ----- The traits' buffer and unbuffer operations -----

  /** `ArithmeticSerializationTraits::buffer`: `buf.appendAligned(hton(val), Alignment)`. */
  method BufferArithmetic(buf: WriteBuffer, t: IntType, alignment: nat, v: int)
    requires alignment >= 1 && InRange(t, v)
    modifies buf
    ensures buf.contents == old(buf.contents) + ArithmeticEncoding(|old(buf.contents)|, t, alignment, v)
  {
    buf.AppendAligned(Hton(t, v), alignment);
  }

  /** `ArithmeticSerializationTraits::unbuffer`: `buf.readAligned(val, Alignment)`, then `ntoh`. */
  method UnbufferArithmetic(reader: BufferReader, t: IntType, alignment: nat) returns (ok: bool, v: int)
    requires reader.Valid() && alignment >= 1
    modifies reader
    ensures reader.Valid()
    ensures var expected := ArithmeticDecoding(reader.data, old(reader.bytesRead), t, alignment);
      && (ok <==> expected.Some?)
      && (ok ==> v == expected.value.0 && reader.bytesRead == expected.value.1)
  {
    var bytes;
    ok, bytes := reader.ReadAligned(SizeOf(t), alignment);
    v := if ok then Ntoh(t, bytes) else 0;
  }

  /** The string traits' `buffer`: the length by the `uint32` rule, then the raw bytes. */
  method BufferString(buf: WriteBuffer, s: seq<byte>)
    modifies buf
    ensures buf.contents == old(buf.contents) + Encoding(|old(buf.contents)|, StringTraits, Str(s))
  {
    var len := StoredLength(s);
    BufferArithmetic(buf, LengthType, 4, len);
    buf.Append(s[..len]);
  }

  /** The string traits' `unbuffer`: the length, then exactly that many bytes. */
  method UnbufferString(reader: BufferReader) returns (ok: bool, s: seq<byte>)
    requires reader.Valid()
    modifies reader
    ensures reader.Valid()
    ensures var expected := Decoding(reader.data, old(reader.bytesRead), StringTraits);
      && (ok <==> expected.Some?)
      && (ok ==> Str(s) == expected.value.0 && reader.bytesRead == expected.value.1)
  {
    ghost var data, pos := reader.data, reader.bytesRead;
    var len;
    ok, len := UnbufferArithmetic(reader, LengthType, 4);
    s := [];
    if ok {
      ghost var next := reader.bytesRead;
      assert ArithmeticDecoding(data, pos, LengthType, 4) == Some((len, next));
      ok, s := reader.ReadBytes(len);
      assert ok <==> next + len <= |data|;
    }
  }

  /** `serializeRaw`: appends `val` by the strategy its tag selects. */
  method SerializeRaw(buf: WriteBuffer, traits: Traits, val: Value)
    requires Accepts(traits, val)
    modifies buf
    ensures buf.contents == old(buf.contents) + Encoding(|old(buf.contents)|, traits, val)
    ensures traits.ArithmeticTraits? || |val.bytes| < LengthLimit ==>
      |buf.contents| == |old(buf.contents)| + SpaceRequired(|old(buf.contents)|, traits, val)
  {
    match traits
    case ArithmeticTraits(t, alignment) =>
      BufferArithmetic(buf, t, alignment, val.v);
    case StringTraits =>
      BufferString(buf, val.bytes);
  }

  /** `deserializeRaw`: reads a value by the strategy its tag selects; fails when the data runs out. */
  method DeserializeRaw(reader: BufferReader, traits: Traits) returns (ok: bool, val: Value)
    requires reader.Valid() && WellFormed(traits)
    modifies reader
    ensures reader.Valid()
    ensures var expected := Decoding(reader.data, old(reader.bytesRead), traits);
      && (ok <==> expected.Some?)
      && (ok ==> val == expected.value.0 && reader.bytesRead == expected.value.1)
  {
    match traits
    case ArithmeticTraits(t, alignment) =>
      var v;
      ok, v := UnbufferArithmetic(reader, t, alignment);
      val := Arithmetic(t, v);
    case StringTraits =>
      var s;
      ok, s := UnbufferString(reader);
      val := Str(s);
  }
}
