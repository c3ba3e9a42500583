/** A byte stream as the receiver gets it: cut into chunks in any way. */
module Network {
  import opened CString

  function Concat(chunks: seq<Bytes>): Bytes {
    if chunks == [] then [] else chunks[0] + Concat(chunks[1..])
  }

  /** What recv with room for `size` bytes can deliver: at least one byte at a
      time, until the peer has closed and it returns 0, or it fails. */
  ghost predicate Deliverable(chunks: seq<Bytes>, size: nat) {
    forall i | 0 <= i < |chunks| :: 0 < |chunks[i]| <= size
  }

  lemma {:induction false} ConcatSplit(chunks: seq<Bytes>, k: nat)
    requires k <= |chunks|
    ensures Concat(chunks) == Concat(chunks[..k]) + Concat(chunks[k..])
  {
    if k > 0 {
      ConcatSplit(chunks[1..], k - 1);
      assert chunks[..k][0] == chunks[0] && chunks[..k][1..] == chunks[1..][..k - 1];
    }
  }

  class Socket {
    var pending: seq<Bytes>
    var broken: bool // what ends the stream is an error, not the peer's close

    constructor (pending: seq<Bytes>, broken: bool)
      ensures this.pending == pending && this.broken == broken
    {
      this.pending, this.broken := pending, broken;
    }

    /** recv: the next chunk, written to the front of the buffer; at the end 0, or -1 for an error. */
    method Recv(buffer: array<byte>) returns (n: int)
      requires Deliverable(pending, buffer.Length)
      modifies this`pending, buffer
      ensures if old(pending) == [] then
                n == (if broken then -1 else 0) && pending == [] && buffer[..] == old(buffer[..])
              else
                && n == |old(pending)[0]| <= buffer.Length && pending == old(pending)[1..]
                && buffer[..] == old(pending)[0] + old(buffer[..])[n..]
    {
      if pending == [] {
        return if broken then -1 else 0;
      }
      var chunk := pending[0];
      n := |chunk|;
      forall i | 0 <= i < n {
        buffer[i] := chunk[i];
      }
      pending := pending[1..];
    }
  }
}
