/** A connection seen from one end: bytes arrive and leave in pieces of the transport's
    choosing, and either direction may fail at any point. */
module Streams {
  import opened Bytes
  import opened Results

  class Connection {
    /** What the peer sends and has not been read yet. */
    var unread: bytes
    /** What has been written, in order. */
    var sent: bytes
    /** The transport has failed, or refused to take a byte. */
    var broken: bool

    constructor (unread: bytes)
      ensures this.unread == unread && sent == [] && !broken
    {
      this.unread, sent, broken := unread, [], false;
    }

    /** One Write call: any prefix may be taken, with or without an error. */
    method Write(value: bytes) returns (written: nat, failed: bool)
      modifies this
      ensures written <= |value| && sent == old(sent) + value[..written] && unread == old(unread)
      ensures old(broken) ==> broken
      ensures failed || (written < 1 && value != []) ==> broken
    {
      written :| written <= |value|;
      failed := *;
      sent := sent + value[..written];
      broken := broken || failed || (written < 1 && value != []);
    }

    /** One Read call into a buffer of the given size: some bytes, or the end, or an error;
        an error may come along with bytes. */
    method Read(size: nat) returns (chunk: bytes, failed: bool)
      requires size > 0
      modifies this
      ensures chunk + unread == old(unread) && |chunk| <= size && sent == old(sent)
      ensures old(broken) ==> broken
      ensures failed ==> broken || unread == []
      ensures !failed ==> chunk != []
    {
      var n: nat :| n <= size && n <= |unread|;
      failed := *;
      if n == 0 {
        failed := true;
      }
      chunk := unread[..n];
      unread := unread[n..];
      broken := broken || (failed && unread != []);
    }

    /** writeFull: keep writing what is left. */
    method WriteFull(value: bytes) returns (ok: bool)
      modifies this
      ensures unread == old(unread) && (old(broken) ==> broken)
      ensures ok ==> sent == old(sent) + value
      ensures !ok ==> broken && exists k :: 0 <= k <= |value| && sent == old(sent) + value[..k]
    {
      var left := value;
      ghost var done := 0;
      while |left| > 0
        invariant 0 <= done <= |value| && left == value[done..] && sent == old(sent) + value[..done]
        invariant unread == old(unread) && (old(broken) ==> broken)
        decreases |left|
      {
        var written, failed := Write(left);
        assert value[..done] + left[..written] == value[..done + written];
        done := done + written;
        if failed || written < 1 {
          return false;
        }
        left := left[written..];
      }
      assert value[..done] == value;
      ok := true;
    }

    /** io.ReadFull: keep reading until the buffer is full. */
    method ReadFull(size: nat) returns (ok: bool, data: bytes)
      modifies this
      ensures sent == old(sent) && (old(broken) ==> broken)
      ensures data + unread == old(unread) && |data| <= size
      ensures ok <==> |data| == size
      ensures !ok ==> broken || unread == []
    {
      data := [];
      var failed := false;
      while |data| < size && !failed
        invariant sent == old(sent) && (old(broken) ==> broken)
        invariant data + unread == old(unread) && |data| <= size
        invariant failed ==> broken || unread == []
        decreases size - |data|, !failed
      {
        var chunk;
        chunk, failed := Read(size - |data|);
        data := data + chunk;
      }
      ok := |data| == size;
    }
  }
}
