/** The proxy's accumulator buffer, and the handler that sends what it holds. */
module Curl {
  import opened Wrappers
  import opened CString
  import opened Decimal
  import opened Protocol
  import opened Network
  import opened Transfers

  const SERVER_FAILURE := -1

  class MemoryStruct {
    var memory: array?<byte>
    var size: nat

    /** One cell past the contents, and a NUL in it. */
    ghost predicate Valid()
      reads this, memory
    {
      if memory == null then size == 0 else memory.Length == size + 1 && memory[size] == NUL
    }

    ghost function Contents(): Bytes
      reads this, memory
      requires Valid()
    {
      if memory == null then [] else memory[..size]
    }

    constructor ()
      ensures Valid() && Contents() == [] && memory == null
    {
      memory, size := null, 0;
    }

    /** write_memory_callback: realloc to make room, append, and end with a NUL. */
    method Write(contents: array<byte>, count: nat, nmemb: nat) returns (n: nat)
      requires Valid() && contents.Length == count * nmemb
      modifies this
      ensures Valid() && memory != null && fresh(memory)
      ensures n == contents.Length && Contents() == old(Contents()) + contents[..]
    {
      n := count * nmemb;
      Append(contents, n);
    }

    method Append(contents: array<byte>, realsize: nat)
      requires Valid() && contents.Length == realsize
      modifies this
      ensures Valid() && memory != null && fresh(memory)
      ensures Contents() == old(Contents()) + contents[..]
    {
      var all := (if memory == null then [] else memory[..size]) + contents[..] + [NUL];
      var larger := new byte[|all|](i requires 0 <= i < |all| => all[i]);
      assert larger[..] == all;
      memory := larger;
      size := size + realsize;
    }
  }

  /** curl_easy_perform, as the callback sees it: the chunks in order, one call each. */
  method Collect(chunks: seq<Bytes>, mem: MemoryStruct)
    requires mem.Valid()
    modifies mem
    ensures mem.Valid() && mem.Contents() == old(mem.Contents()) + Concat(chunks)
    ensures mem.memory == null || mem.memory == old(mem.memory) || fresh(mem.memory)
  {
    var k := 0;
    ghost var start := mem.Contents();
    while k < |chunks|
      invariant 0 <= k <= |chunks|
      invariant mem.Valid() && mem.Contents() == start + Concat(chunks[..k])
      invariant mem.memory == null || mem.memory == old(mem.memory) || fresh(mem.memory)
    {
      var contents := new byte[|chunks[k]|](i requires 0 <= i < |chunks[k]| => chunks[k][i]);
      assert contents[..] == chunks[k];
      ghost var before := mem.Contents();
      var _ := mem.Write(contents, 1, contents.Length);
      ConcatSnoc(chunks, k);
      k := k + 1;
    }
    assert chunks[..k] == chunks;
  }

  lemma ConcatSnoc(chunks: seq<Bytes>, k: nat)
    requires k < |chunks|
    ensures Concat(chunks[..k + 1]) == Concat(chunks[..k]) + chunks[k]
  {
    ConcatSplit(chunks[..k + 1], k);
    assert chunks[..k + 1][..k] == chunks[..k];
    assert chunks[..k + 1][k..] == [chunks[k]];
    assert Concat([chunks[k]]) == chunks[k] + Concat([]);
  }

  /** handle_with_curl, with a working curl handle: the chunks curl delivered
      and the final status code come from the origin server. With status 200 the
      header is sent, and then, unless it is empty, the whole body in one call;
      the result is the body's length exactly when all of it was taken. */
  method HandleWithCurl(ctx: Context, chunks: seq<Bytes>, httpCode: int) returns (ret: int)
    requires ctx.wire == [] && ctx.sends == []
    modifies ctx
    ensures httpCode != 200 ==>
              var header := PrintHeader(GF_FILE_NOT_FOUND, 0);
              ctx.sends == [SendCall(header, ret)] && -1 <= ret <= |header| && ctx.wire == Taken(header, ret)
    ensures httpCode == 200 ==>
              var body := Concat(chunks);
              SentAs(ctx.sends, ctx.wire, PrintHeader(GF_OK, ToInt(|body|)), body, ret)
    ensures ctx.closed == old(ctx.closed)
  {
    hide PrintHeader, Concat;
    var response := new MemoryStruct();
    Collect(chunks, response);
    assert response.Contents() == [] + Concat(chunks) == Concat(chunks);
    if httpCode != 200 {
      ret := ctx.SendHeader(GF_FILE_NOT_FOUND, 0);
      return;
    }
    ghost var body := Concat(chunks);
    assert response.size == |body|;
    var h := ctx.SendHeader(GF_OK, response.size);
    ghost var header := PrintHeader(GF_OK, ToInt(|body|));
    assert ctx.wire == Taken(header, h);
    ret := 0;
    while ret < response.size
      invariant ret == 0 || (ret == response.size && SentAs(ctx.sends, ctx.wire, header, body, ret))
      invariant ret == 0 ==> ctx.sends == [SendCall(header, h)] && ctx.wire == Taken(header, h)
      invariant response.size == |body| && response.Valid() && response.Contents() == body
      invariant ctx.closed == old(ctx.closed)
      decreases response.size - ret
    {
      var n := ctx.Send(response.memory[..response.size]);
      assert ctx.sends == [SendCall(header, h), SendCall(body, n)];
      if n != response.size {
        ret := SERVER_FAILURE;
        return;
      }
      ret := ret + n;
    }
  }

  /** Header and body were sent, and the connection took what it took of each. */
  ghost predicate SentAs(sends: seq<SendCall>, wire: Bytes, header: Bytes, body: Bytes, ret: int) {
    && |sends| == (if body == [] then 1 else 2)
    && sends[0].data == header && -1 <= sends[0].n <= |header|
    && if body == [] then wire == Taken(header, sends[0].n) && ret == 0
       else
         && sends[1].data == body && -1 <= sends[1].n <= |body|
         && wire == Taken(header, sends[0].n) + Taken(body, sends[1].n)
         && ret == if sends[1].n == |body| then |body| else SERVER_FAILURE
  }
}
