/**
 * The write buffer and its reader, as the codec sees them.
 *
 * The buffer's own implementation is not part of this model; what the codec
 * relies on is kept: appending zero padding and raw bytes, appending a value
 * at an aligned offset, and a reader that walks the same bytes with a cursor
 * (`bytesRead`) and refuses to read past the end.
 */
module Buffers {
  import opened Wire

  /** `n` zero bytes of padding. */
  function Zeros(n: nat): (z: seq<byte>)
    ensures |z| == n
    ensures forall i :: 0 <= i < n ==> z[i] == 0
  {
    seq(n, _ => 0)
  }

  /**
   * `existing % alignment`, by repeated subtraction: spelled out so that the
   * codec's layout reasoning does not unfold a modulus by a variable.
   */
  function Leftover(existing: nat, alignment: nat): (r: nat)
    requires alignment >= 1
    ensures r < alignment && r == existing % alignment
    decreases existing
  {
    if existing < alignment then
      DivModUnique(existing, alignment, 0, existing);
      existing
    else
      var r := Leftover(existing - alignment, alignment);
      DivModUnique(existing - alignment, alignment, (existing - alignment) / alignment, r);
      DivModUnique(existing, alignment, (existing - alignment) / alignment + 1, r);
      r
  }

  /**
   * The number of zero bytes that bring a buffer of `existing` bytes up to
   * the next multiple of `alignment`.
   */
  function PaddingRequired(alignment: nat, existing: nat): (p: nat)
    requires alignment >= 1
    ensures p < alignment
    ensures (existing + p) % alignment == 0
  {
    var leftover := Leftover(existing, alignment);
    if leftover == 0 then 0
    else
      ModOfNextMultiple(alignment, existing);
      alignment - leftover
  }

  lemma MulAtLeast(a: int, d: int)
    requires a >= 1 && d >= 1
    ensures a * d >= a
  {
  }

  /** Euclidean division has one quotient and one remainder. */
  lemma DivModUnique(n: int, a: int, q: int, r: int)
    requires a >= 1 && 0 <= r < a && n == a * q + r
    ensures n / a == q && n % a == r
  {
    var q', r' := n / a, n % a;
    assert n == a * q' + r';
    assert a * (q - q') == r' - r;
    if q > q' {
      MulAtLeast(a, q - q');
    } else if q < q' {
      MulAtLeast(a, q' - q);
    }
  }

  lemma ModOfNextMultiple(a: nat, n: nat)
    requires a >= 1 && n % a != 0
    ensures (n + (a - n % a)) % a == 0
  {
    var q := n / a;
    assert n == a * q + n % a;
    DivModUnique(n + (a - n % a), a, q + 1, 0);
  }

  /** Padding is zero exactly when the length is already a multiple. */
  lemma PaddingZeroIffAligned(alignment: nat, existing: nat)
    requires alignment >= 1
    ensures PaddingRequired(alignment, existing) == 0 <==> existing % alignment == 0
  {
  }

  /** No shorter padding reaches a multiple of the alignment. */
  lemma {:induction false} PaddingIsMinimal(alignment: nat, existing: nat, q: nat)
    requires alignment >= 1
    requires q < PaddingRequired(alignment, existing)
    ensures (existing + q) % alignment != 0
  {
    var leftover := existing % alignment;
    var k := existing / alignment;
    assert existing == alignment * k + leftover;
    DivModUnique(existing + q, alignment, k, leftover + q);
  }

  /** Padding an aligned length again adds nothing. */
  lemma PaddingIdempotent(alignment: nat, existing: nat)
    requires alignment >= 1
    ensures PaddingRequired(alignment, existing + PaddingRequired(alignment, existing)) == 0
  {
  }

  /** Bytes `enc == a + b` found at `pos` hold `a` there and `b` right after it. */
  lemma SliceSplit(data: seq<byte>, pos: nat, enc: seq<byte>, a: seq<byte>, b: seq<byte>)
    requires pos + |enc| <= |data| && data[pos..pos + |enc|] == enc && enc == a + b
    ensures data[pos..pos + |a|] == a && data[pos + |a|..pos + |a| + |b|] == b
  {
    assert data[pos..pos + |a|] == enc[..|a|];
    assert data[pos + |a|..pos + |a| + |b|] == enc[|a|..];
  }

  /** A growable byte buffer: the codec only ever appends to it. */
  class WriteBuffer {
    var contents: seq<byte>

    constructor ()
      ensures contents == []
    {
      contents := [];
    }

    function Size(): (n: nat)
      reads this
      ensures n == |contents|
    {
      |contents|
    }

    method AppendPadding(n: nat)
      modifies this
      ensures contents == old(contents) + Zeros(n)
    {
      contents := contents + Zeros(n);
    }

    method Append(bytes: seq<byte>)
      modifies this
      ensures contents == old(contents) + bytes
    {
      contents := contents + bytes;
    }

    /** Pads to `alignment` from the current size, then appends `bytes`. */
    method AppendAligned(bytes: seq<byte>, alignment: nat)
      requires alignment >= 1
      modifies this
      ensures contents == old(contents) + Zeros(PaddingRequired(alignment, |old(contents)|)) + bytes
    {
      AppendPadding(PaddingRequired(alignment, |contents|));
      Append(bytes);
    }
  }

  /** A cursor over received bytes. */
  class BufferReader {
    const data: seq<byte>
    var bytesRead: nat

    ghost predicate Valid()
      reads this
    {
      bytesRead <= |data|
    }

    constructor (data: seq<byte>)
      ensures Valid() && this.data == data && bytesRead == 0
    {
      this.data := data;
      bytesRead := 0;
    }

    /** Takes the next `n` bytes, or fails without moving when fewer remain. */
    method ReadBytes(n: nat) returns (ok: bool, bytes: seq<byte>)
      requires Valid()
      modifies this
      ensures Valid()
      ensures ok <==> old(bytesRead) + n <= |data|
      ensures ok ==> bytes == data[old(bytesRead)..old(bytesRead) + n] && bytesRead == old(bytesRead) + n
      ensures !ok ==> bytesRead == old(bytesRead)
    {
      if bytesRead + n <= |data| {
        ok, bytes := true, data[bytesRead..bytesRead + n];
        bytesRead := bytesRead + n;
      } else {
        ok, bytes := false, [];
      }
    }

    /** Skips `n` bytes of padding, whatever they hold. */
    method SkipPadding(n: nat) returns (ok: bool)
      requires Valid()
      modifies this
      ensures Valid()
      ensures ok <==> old(bytesRead) + n <= |data|
      ensures bytesRead == if ok then old(bytesRead) + n else old(bytesRead)
    {
      var skipped;
      ok, skipped := ReadBytes(n);
    }

    /** Skips to the next multiple of `alignment`, then takes `size` bytes. */
    method ReadAligned(size: nat, alignment: nat) returns (ok: bool, bytes: seq<byte>)
      requires Valid() && alignment >= 1
      modifies this
      ensures Valid()
      ensures var start := old(bytesRead) + PaddingRequired(alignment, old(bytesRead));
        && (ok <==> start + size <= |data|)
        && (ok ==> bytes == data[start..start + size] && bytesRead == start + size)
        && (!ok ==> bytesRead == if start <= |data| then start else old(bytesRead))
        && old(bytesRead) <= bytesRead
    {
      ok := SkipPadding(PaddingRequired(alignment, bytesRead));
      bytes := [];
      if ok {
        ok, bytes := ReadBytes(size);
      }
    }
  }
}
