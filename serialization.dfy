/**
 * The older serialization header: `DefaultSerializationTraits<T, Alignment>`
 * and the functors that hand each value given to them to its traits.
 *
 * These traits pad explicitly (`appendPadding(paddingRequired(size))`, then
 * `append(hton(val))`) and read with `skipPadding(paddingRequired(bytesRead))`
 * then `read`, and insist that `Alignment > 1`. Their integral specialisation
 * in the header is an empty stub, so the functors here hand each member to the
 * complete traits of the codec.
 */
module Serialization {
  import opened Wire
  import opened Buffers
  import opened Wrappers
  import opened SerializationTraits

  // ----- DefaultSerializationTraits<T, Alignment> -----

  /** `spaceRequired`: the least padding that aligns the value, plus the value itself. */
  function DefaultSpaceRequired(t: IntType, alignment: nat, existing: nat): (n: nat)
    requires alignment > 1
    ensures SizeOf(t) <= n < SizeOf(t) + alignment
    ensures (existing + (n - SizeOf(t))) % alignment == 0
  {
    PaddingRequired(alignment, existing) + SizeOf(t)
  }

  /** `buffer`: padding for the current size, then the value in network order. */
  method DefaultBuffer(buf: WriteBuffer, t: IntType, alignment: nat, v: int)
    requires alignment > 1 && InRange(t, v)
    modifies buf
    ensures buf.contents == old(buf.contents) + Zeros(PaddingRequired(alignment, |old(buf.contents)|)) + Hton(t, v)
    ensures |buf.contents| == |old(buf.contents)| + DefaultSpaceRequired(t, alignment, |old(buf.contents)|)
    ensures buf.contents[..|old(buf.contents)|] == old(buf.contents)
  {
    buf.AppendPadding(PaddingRequired(alignment, buf.Size()));
    buf.Append(Hton(t, v));
  }

  /** `unbuffer`: skip the padding for the bytes read so far, read the value, `ntoh`. */
  method DefaultUnbuffer(reader: BufferReader, t: IntType, alignment: nat) returns (ok: bool, v: int)
    requires reader.Valid() && alignment > 1
    modifies reader
    ensures reader.Valid()
    ensures var expected := ArithmeticDecoding(reader.data, old(reader.bytesRead), t, alignment);
      && (ok <==> expected.Some?)
      && (ok ==> v == expected.value.0 && reader.bytesRead == expected.value.1)
    ensures var start := old(reader.bytesRead) + PaddingRequired(alignment, old(reader.bytesRead));
      !ok ==> reader.bytesRead == if start <= |reader.data| then start else old(reader.bytesRead)
  {
    ok := reader.SkipPadding(PaddingRequired(alignment, reader.bytesRead));
    v := 0;
    if ok {
      var bytes;
      ok, bytes := reader.ReadBytes(SizeOf(t));
      if ok {
        v := Ntoh(t, bytes);
      }
    }
  }

  /**
   * Round trip: a reader whose cursor stands where the writer's buffer ended,
   * over bytes that hold what `buffer` appended there, reads the value back
   * and advances by exactly `spaceRequired`.
   */
  lemma DefaultRoundTrip(data: seq<byte>, pos: nat, t: IntType, alignment: nat, v: int)
    requires alignment > 1 && InRange(t, v)
    requires var enc := Zeros(PaddingRequired(alignment, pos)) + Hton(t, v);
      pos + |enc| <= |data| && data[pos..pos + |enc|] == enc
    ensures ArithmeticDecoding(data, pos, t, alignment) == Some((v, pos + DefaultSpaceRequired(t, alignment, pos)))
  {
    ArithmeticRoundTrip(data, pos, t, alignment, v);
  }

  /** `SerializeFunctor`: holds the buffer and appends each member handed to it. */
  class SerializeFunctor {
    const buf: WriteBuffer

    constructor (buf: WriteBuffer)
      ensures this.buf == buf
    {
      this.buf := buf;
    }

    method Apply(traits: Traits, val: Value)
      requires Accepts(traits, val)
      modifies buf
      ensures buf.contents == old(buf.contents) + Encoding(|old(buf.contents)|, traits, val)
    {
      SerializeRaw(buf, traits, val);
    }
  }

  /** `DeserializeFunctor`: holds the reader and reads each member asked of it. */
  class DeserializeFunctor {
    const reader: BufferReader

    constructor (reader: BufferReader)
      ensures this.reader == reader
    {
      this.reader := reader;
    }

    method Apply(traits: Traits) returns (ok: bool, val: Value)
      requires reader.Valid() && WellFormed(traits)
      modifies reader
      ensures reader.Valid()
      ensures var expected := Decoding(reader.data, old(reader.bytesRead), traits);
        && (ok <==> expected.Some?)
        && (ok ==> val == expected.value.0 && reader.bytesRead == expected.value.1)
    {
      ok, val := DeserializeRaw(reader, traits);
    }
  }
}
