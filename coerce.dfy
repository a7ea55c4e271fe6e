/**
 * Moving a value between its in-memory form and a coerced register type of
 * a possibly different padded size, one byte image at a time.
 */
module Coercion {
  /** A byte of memory: a known value, or undefined (never written). */
  datatype Byte = Known(b: bv8) | Undef

  datatype Result<T> = Ok(value: T) | Failure(error: string)

  function Undefs(n: nat): (r: seq<Byte>)
    ensures |r| == n && forall k :: 0 <= k < n ==> r[k] == Undef
  {
    seq(n, _ => Undef)
  }

  /**
   * CreateCoercedLoad: read a value of dstSize bytes from memory holding src.
   * Equal sizes read the bytes as they are; a smaller source goes through a
   * temporary whose remaining bytes are undefined; a larger source would lose
   * bytes and is refused.
   */
  function CoercedLoad(src: seq<Byte>, dstSize: nat): (r: Result<seq<Byte>>)
    ensures r.Ok? <==> |src| <= dstSize
    ensures r.Ok? ==> (|r.value| == dstSize && r.value[..|src|] == src &&
                       forall k :: |src| <= k < dstSize ==> r.value[k] == Undef)
  {
    if |src| == dstSize then Ok(src)
    else if |src| < dstSize then Ok(src + Undefs(dstSize - |src|))
    else Failure("Coercion is losing source bits!")
  }

  /**
   * CreateCoercedStore: write a value held in src into a destination of
   * dstSize bytes. Equal sizes store the bytes as they are; a larger source
   * goes through a temporary and only its first dstSize bytes reach the
   * destination; a smaller source would leave the destination short and is
   * refused. The result is the destination's new contents.
   */
  function CoercedStore(src: seq<Byte>, dstSize: nat): (r: Result<seq<Byte>>)
    ensures r.Ok? <==> |src| >= dstSize
    ensures r.Ok? ==> r.value == src[..dstSize]
  {
    if |src| == dstSize then Ok(src)
    else if |src| > dstSize then Ok(src[..dstSize])
    else Failure("Coercion is missing bits!")
  }

  /**
   * Coercing a value of srcSize bytes to a register type of dstSize bytes and
   * storing it back into srcSize bytes gives back the original bytes, and
   * that exactly when no bytes are lost on the way out.
   */
  lemma CoercionRoundTrip(src: seq<Byte>, dstSize: nat)
    ensures CoercedLoad(src, dstSize).Ok? <==> |src| <= dstSize
    ensures CoercedLoad(src, dstSize).Ok? ==> CoercedStore(CoercedLoad(src, dstSize).value, |src|) == Ok(src)
  {
  }
}
