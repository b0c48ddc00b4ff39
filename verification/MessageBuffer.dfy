/**
 The fixed message buffer of linked_list.c (the other character-device modules share it):
 my_write copies a message in and terminates it, my_read hands it out from the start.
 */
module MessageBuffer {
  import opened Kernel

  const BUFF_SIZE: nat := 1024

  /** What a call returns to user space. */
  datatype Result = Count(n: nat) | Fault | NoMemory

  function Min(a: nat, b: nat): nat { if a < b then a else b }

  /** The bytes before the first NUL, or all of them. */
  function CutAtNul(s: seq<Byte>): seq<Byte> {
    if s == [] || s[0] == 0 then [] else [s[0]] + CutAtNul(s[1..])
  }

  /** strlen(device_buffer), which stays inside the buffer because its last byte is NUL. */
  function Strlen(buf: seq<Byte>): nat {
    |CutAtNul(buf)|
  }

  predicate Terminated(buf: seq<Byte>) {
    |buf| == BUFF_SIZE && buf[BUFF_SIZE - 1] == 0
  }

  /** copy_from_user that gets `copied` of the `toCopy` bytes across; on a fault the rest of the
      target is zeroed or left alone, depending on the architecture. */
  function CopyIn(buf: seq<Byte>, msg: seq<Byte>, toCopy: nat, copied: nat, zeroTail: bool): (r: seq<Byte>)
    requires copied <= toCopy <= |msg| && toCopy <= |buf|
    ensures |r| == |buf|
  {
    msg[..copied] + (if zeroTail then seq(toCopy - copied, _ => 0) else buf[copied..toCopy]) + buf[toCopy..]
  }

  function Write(buf: seq<Byte>, msg: seq<Byte>, copied: nat, zeroTail: bool): (r: (seq<Byte>, Result))
    requires |buf| == BUFF_SIZE && copied <= Min(|msg|, BUFF_SIZE)
    ensures |r.0| == BUFF_SIZE
  {
    var toCopy := Min(|msg|, BUFF_SIZE);
    var b := CopyIn(buf, msg, toCopy, copied, zeroTail);
    if copied < toCopy then (b, Fault)
    else (b[Min(toCopy, BUFF_SIZE - 1) := 0], Count(toCopy))
  }

  /** The bytes handed out, the new offset and the return value.  The data always come from the
      start of the buffer; the offset only decides whether there are any. */
  function Read(buf: seq<Byte>, offset: nat, copyOk: bool): (seq<Byte>, nat, Result)
    requires Terminated(buf)
  {
    var length := Strlen(buf);
    if offset >= length then ([], offset, Count(0))
    else if !copyOk then ([], offset, Fault)
    else (CutAtNul(buf), offset + length, Count(length))
  }

  class MessageDevice {
    const deviceBuffer: array<Byte>

    ghost predicate Valid()
      reads deviceBuffer
    {
      deviceBuffer.Length == BUFF_SIZE && Terminated(deviceBuffer[..])
    }

    constructor ()
      ensures Valid() && fresh(deviceBuffer) && deviceBuffer[..] == seq(BUFF_SIZE, _ => 0)
    {
      deviceBuffer := new Byte[BUFF_SIZE](_ => 0);
    }

    method CopyFromUser(msg: seq<Byte>, toCopy: nat, copied: nat, zeroTail: bool) returns (ok: bool)
      requires copied <= toCopy <= |msg| && toCopy <= deviceBuffer.Length
      modifies deviceBuffer
      ensures ok <==> copied == toCopy
      ensures deviceBuffer[..] == CopyIn(old(deviceBuffer[..]), msg, toCopy, copied, zeroTail)
    {
      for i := 0 to copied
        invariant deviceBuffer[..i] == msg[..i] && deviceBuffer[i..] == old(deviceBuffer[i..])
      {
        deviceBuffer[i] := msg[i];
      }
      if zeroTail {
        for i := copied to toCopy
          invariant deviceBuffer[..copied] == msg[..copied] && deviceBuffer[i..] == old(deviceBuffer[i..])
          invariant forall k | copied <= k < i :: deviceBuffer[k] == 0
        {
          deviceBuffer[i] := 0;
        }
      }
      ok := copied == toCopy;
    }

    method MyWrite(msg: seq<Byte>, copied: nat, zeroTail: bool) returns (result: Result)
      requires Valid() && copied <= Min(|msg|, BUFF_SIZE)
      modifies deviceBuffer
      ensures (deviceBuffer[..], result) == Write(old(deviceBuffer[..]), msg, copied, zeroTail)
      ensures Valid()
    {
      WriteTerminates(deviceBuffer[..], msg, copied, zeroTail);
      var toCopy := if |msg| > BUFF_SIZE then BUFF_SIZE else |msg|;
      var ok := CopyFromUser(msg, toCopy, copied, zeroTail);
      if !ok {
        return Fault;
      }
      var safeLen := if toCopy < BUFF_SIZE - 1 then toCopy else BUFF_SIZE - 1;
      deviceBuffer[safeLen] := 0;
      return Count(toCopy);
    }

    method StringLength() returns (length: nat)
      requires Valid()
      ensures length == Strlen(deviceBuffer[..]) && length < BUFF_SIZE && deviceBuffer[length] == 0
      ensures deviceBuffer[..length] == CutAtNul(deviceBuffer[..])
    {
      length := 0;
      while deviceBuffer[length] != 0
        invariant length < BUFF_SIZE
        invariant forall k | 0 <= k < length :: deviceBuffer[k] != 0
        decreases BUFF_SIZE - length
      {
        length := length + 1;
      }
      CutAt(deviceBuffer[..], length);
    }

    method MyRead(offset: nat, copyOk: bool) returns (data: seq<Byte>, offset': nat, result: Result)
      requires Valid()
      modifies deviceBuffer
      ensures (data, offset', result) == Read(old(deviceBuffer[..]), offset, copyOk)
      ensures Valid() && deviceBuffer[..] == old(deviceBuffer[..])
    {
      var length := StringLength();
      if offset >= length {
        return [], offset, Count(0);
      }
      deviceBuffer[length] := 0;
      if !copyOk {
        return [], offset, Fault;
      }
      return deviceBuffer[..length], offset + length, Count(length);
    }
  }

  /** The cut is at `n` when the first NUL is there. */
  lemma {:induction false} CutAt(s: seq<Byte>, n: nat)
    requires n < |s| && s[n] == 0 && forall k | 0 <= k < n :: s[k] != 0
    ensures CutAtNul(s) == s[..n]
  {
    if n > 0 {
      CutAt(s[1..], n - 1);
      assert s[..n] == [s[0]] + s[1..][..n - 1];
    }
  }

  /** Only what precedes a NUL matters to the cut. */
  lemma {:induction false} CutOfPrefix(s: seq<Byte>, t: seq<Byte>)
    requires |s| > 0 && s[|s| - 1] == 0
    ensures CutAtNul(s + t) == CutAtNul(s) == CutAtNul(s[..|s| - 1])
  {
    if s[0] != 0 {
      assert (s + t)[1..] == s[1..] + t && s[..|s| - 1][1..] == s[1..][..|s| - 2];
      CutOfPrefix(s[1..], t);
    }
  }

  lemma WriteTerminates(buf: seq<Byte>, msg: seq<Byte>, copied: nat, zeroTail: bool)
    requires Terminated(buf) && copied <= Min(|msg|, BUFF_SIZE)
    ensures Terminated(Write(buf, msg, copied, zeroTail).0)
  {
  }

  /** Byte by byte: what arrived of the message, then zeros if the kernel zeroes the rest of the
      target, then the old bytes; and a NUL after a message that arrived whole, in its last
      place if it fills the buffer. */
  lemma {:induction false} WriteByteByByte(buf: seq<Byte>, msg: seq<Byte>, copied: nat, zeroTail: bool, i: nat)
    requires |buf| == BUFF_SIZE && copied <= Min(|msg|, BUFF_SIZE) && i < BUFF_SIZE
    ensures var toCopy := Min(|msg|, BUFF_SIZE);
            var b := Write(buf, msg, copied, zeroTail).0;
            b[i] == if copied == toCopy && i == Min(|msg|, BUFF_SIZE - 1) then 0
                    else if i < copied then msg[i]
                    else if i < toCopy && zeroTail then 0 else buf[i]
  {
  }

  /** A successful write counts min(len, 1024) bytes.  After it the first read from offset 0
      returns the first min(len, 1023) bytes cut at their first NUL, and the next read 0.  Nothing of the old buffer
      contents, however long, is in what is read. */
  lemma DrainAfterWrite(buf: seq<Byte>, msg: seq<Byte>, zeroTail: bool)
    requires Terminated(buf)
    ensures var b := Write(buf, msg, Min(|msg|, BUFF_SIZE), zeroTail).0;
            var expected := CutAtNul(msg[..Min(|msg|, BUFF_SIZE - 1)]);
            && Terminated(b) && Write(buf, msg, Min(|msg|, BUFF_SIZE), zeroTail).1 == Count(Min(|msg|, BUFF_SIZE))
            && Read(b, 0, true) == (expected, |expected|, Count(|expected|))
            && Read(b, |expected|, true) == ([], |expected|, Count(0))
  {
    var toCopy := Min(|msg|, BUFF_SIZE);
    var safe := Min(toCopy, BUFF_SIZE - 1);
    var b := Write(buf, msg, toCopy, zeroTail).0;
    assert b == (msg[..safe] + [0]) + b[safe + 1..];
    CutOfPrefix(msg[..safe] + [0], b[safe + 1..]);
    assert (msg[..safe] + [0])[..safe] == msg[..safe];
  }

  /** A read at any offset hands out the whole message, from its start, or nothing: the offset,
      and whether the copy faults, decide only which. */
  lemma ReadIsAllOrNothing(buf: seq<Byte>, msg: seq<Byte>, zeroTail: bool, offset: nat, copyOk: bool)
    requires Terminated(buf)
    ensures var b := Write(buf, msg, Min(|msg|, BUFF_SIZE), zeroTail).0;
            var expected := CutAtNul(msg[..Min(|msg|, BUFF_SIZE - 1)]);
            && Terminated(b)
            && var (data, offset', result) := Read(b, offset, copyOk);
               && (data == if offset < |expected| && copyOk then expected else [])
               && offset' == offset + |data|
               && (result == if offset < |expected| && !copyOk then Fault else Count(|data|))
  {
    DrainAfterWrite(buf, msg, zeroTail);
    var b := Write(buf, msg, Min(|msg|, BUFF_SIZE), zeroTail).0;
    assert Read(b, 0, true).0 == CutAtNul(msg[..Min(|msg|, BUFF_SIZE - 1)]);
    assert Strlen(b) == |CutAtNul(b)|;
    if CutAtNul(b) == [] {
      assert Read(b, |CutAtNul(msg[..Min(|msg|, BUFF_SIZE - 1)])|, true) == ([], 0, Count(0));
    }
  }

  /** A write that faults after `copied` bytes leaves exactly those, cut at the first NUL, when
      the kernel zeroes the rest of the target; otherwise the old bytes follow them. */
  lemma ReadAfterFault(buf: seq<Byte>, msg: seq<Byte>, copied: nat, zeroTail: bool)
    requires Terminated(buf) && copied < Min(|msg|, BUFF_SIZE)
    ensures var (b, result) := Write(buf, msg, copied, zeroTail);
            && result == Fault && Terminated(b)
            && CutAtNul(b) == CutAtNul(msg[..copied] + if zeroTail then [] else buf[copied..])
  {
    var b := Write(buf, msg, copied, zeroTail).0;
    if zeroTail {
      assert b == (msg[..copied] + [0]) + b[copied + 1..];
      CutOfPrefix(msg[..copied] + [0], b[copied + 1..]);
      assert (msg[..copied] + [0])[..copied] == msg[..copied];
      assert msg[..copied] + [] == msg[..copied];
    } else {
      assert b == msg[..copied] + buf[copied..];
    }
  }

  /** One call from user space. */
  datatype Call = WriteCall(msg: seq<Byte>, copied: nat, zeroTail: bool) | ReadCall(offset: nat, copyOk: bool)

  function Apply(buf: seq<Byte>, call: Call): (r: seq<Byte>)
    requires |buf| == BUFF_SIZE
    ensures |r| == BUFF_SIZE
  {
    match call
    case WriteCall(msg, copied, zeroTail) =>
      if copied <= Min(|msg|, BUFF_SIZE) then Write(buf, msg, copied, zeroTail).0 else buf
    case ReadCall(_, _) => buf
  }

  /** The buffer after `calls`, from the zeroed one the module is loaded with. */
  function ApplyAll(calls: seq<Call>): (r: seq<Byte>)
    ensures |r| == BUFF_SIZE
  {
    if calls == [] then seq(BUFF_SIZE, _ => 0) else Apply(ApplyAll(calls[..|calls| - 1]), calls[|calls| - 1])
  }

  /** Between any calls, faulted copies included, the last byte is NUL. */
  lemma {:induction false} AlwaysTerminated(calls: seq<Call>)
    ensures Terminated(ApplyAll(calls))
  {
    if calls != [] {
      AlwaysTerminated(calls[..|calls| - 1]);
    }
  }

  /** Reads in between do not change what a later drain returns. */
  lemma {:induction false} LastWriteWins(calls: seq<Call>, msg: seq<Byte>, zeroTail: bool, later: seq<Call>)
    requires forall i | 0 <= i < |later| :: later[i].ReadCall?
    ensures var b := ApplyAll(calls + [WriteCall(msg, Min(|msg|, BUFF_SIZE), zeroTail)] + later);
            Terminated(b) && CutAtNul(b) == CutAtNul(msg[..Min(|msg|, BUFF_SIZE - 1)])
  {
    var write := WriteCall(msg, Min(|msg|, BUFF_SIZE), zeroTail);
    var all := calls + [write] + later;
    if later == [] {
      assert all == calls + [write] && all[..|all| - 1] == calls;
      AlwaysTerminated(calls);
      DrainAfterWrite(ApplyAll(calls), msg, zeroTail);
      var expected := CutAtNul(msg[..Min(|msg|, BUFF_SIZE - 1)]);
      assert Strlen(ApplyAll(all)) == |expected|;
    } else {
      assert all[..|all| - 1] == calls + [write] + later[..|later| - 1];
      LastWriteWins(calls, msg, zeroTail, later[..|later| - 1]);
    }
  }
}
