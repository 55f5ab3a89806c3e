/** The writer that cuts a platform export into messages of one size
    (internal/protection/platform_backup_rpc.go). */
module ChunkSender {

  type Bytes = seq<bv8>

  const CHUNK := 1048576

  function Concat(parts: seq<Bytes>): Bytes {
    if parts == [] then [] else Concat(parts[..|parts| - 1]) + parts[|parts| - 1]
  }

  ghost predicate AllFull(chunks: seq<Bytes>) {
    forall i :: 0 <= i < |chunks| ==> |chunks[i]| == CHUNK
  }

  lemma ConcatMore(parts: seq<Bytes>, last: Bytes)
    ensures Concat(parts + [last]) == Concat(parts) + last
  {
    assert (parts + [last])[..|parts|] == parts;
  }

  lemma MoveOver(sent: Bytes, buf: Bytes, left: Bytes, k: nat)
    requires k <= |left|
    ensures sent + (buf + left[..k]) + left[k..] == sent + buf + left
  {
  }

  class Sender {
    var sent: seq<Bytes>
    var buf: Bytes

    constructor ()
      ensures sent == [] && buf == []
    {
      sent, buf := [], [];
    }

    /** A message is sent whole or not at all; the buffer is empty either way. */
    method Flush() returns (ok: bool)
      modifies this
      ensures buf == []
      ensures old(buf) == [] ==> ok
      ensures sent == if ok && old(buf) != [] then old(sent) + [old(buf)] else old(sent)
    {
      if buf == [] {
        return true;
      }
      ok := *;
      if ok {
        sent := sent + [buf];
      }
      buf := [];
    }

    /** Nothing is lost or reordered, and only full messages go out; after an error the
        messages sent are a prefix of the input. */
    method Write(b: Bytes) returns (ok: bool)
      requires AllFull(sent) && |buf| < CHUNK
      modifies this
      ensures AllFull(sent) && |buf| < CHUNK
      ensures ok ==> Concat(sent) + buf == Concat(old(sent)) + old(buf) + b
      ensures !ok ==> Concat(sent) <= Concat(old(sent)) + old(buf) + b
    {
      ghost var all := Concat(sent) + buf + b;
      var left := b;
      while |left| > 0
        invariant AllFull(sent) && |buf| < CHUNK && Concat(sent) + buf + left == all
      {
        var k := if CHUNK - |buf| < |left| then CHUNK - |buf| else |left|;
        MoveOver(Concat(sent), buf, left, k);
        buf := buf + left[..k];
        left := left[k..];
        if |buf| == CHUNK {
          ghost var before, chunk := sent, buf;
          var done := Flush();
          if !done {
            return false;
          }
          ConcatMore(before, chunk);
        }
      }
      return true;
    }
  }

  /** Any split of the input into writes: the messages are the input, all but the last of
      them exactly one chunk long. */
  method SendAll(parts: seq<Bytes>) returns (ok: bool, sent: seq<Bytes>)
    ensures ok ==> Concat(sent) == Concat(parts)
    ensures !ok ==> Concat(sent) <= Concat(parts)
    ensures forall i :: 0 <= i < |sent| - 1 ==> |sent[i]| == CHUNK
    ensures forall i :: 0 <= i < |sent| ==> 0 < |sent[i]| <= CHUNK
  {
    var s := new Sender();
    for i := 0 to |parts|
      invariant fresh(s) && AllFull(s.sent) && |s.buf| < CHUNK && Concat(s.sent) + s.buf == Concat(parts[..i])
    {
      assert parts[..i + 1] == parts[..i] + [parts[i]];
      ConcatMore(parts[..i], parts[i]);
      ok := s.Write(parts[i]);
      if !ok {
        ConcatPrefix(parts, i + 1);
        return false, s.sent;
      }
    }
    assert parts[..|parts|] == parts;
    ghost var before, rest := s.sent, s.buf;
    ok := s.Flush();
    sent := s.sent;
    ConcatMore(before, rest);
  }

  lemma {:induction false} ConcatPrefix(parts: seq<Bytes>, n: nat)
    requires n <= |parts|
    ensures Concat(parts[..n]) <= Concat(parts)
  {
    if n < |parts| {
      var shorter := parts[..|parts| - 1];
      ConcatPrefix(shorter, n);
      assert shorter[..n] == parts[..n];
    } else {
      assert parts[..n] == parts;
    }
  }
}
