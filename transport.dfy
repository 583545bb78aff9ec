/**
 * The transport behind the driver's write and read function pointers,
 * modelled as a scripted fake: a queue of canned replies, a log of every
 * packet written, and a success flag for each direction. A read copies the
 * next reply into the caller's buffer the way `strcpy` does.
 */
module Transport {
  import opened CLib
  import opened Protocol

  /** The observable state of the scripted transport. */
  datatype Link = Link(replies: seq<string>, written: seq<string>, writeOk: bool, readOk: bool)

  /** A read succeeds when reads are enabled and a reply is queued. */
  predicate CanRead(s: Link) {
    s.readOk && |s.replies| > 0
  }

  /** The C string the next read delivers. */
  function NextReply(s: Link): (t: string)
    requires CanRead(s)
    ensures NoNul(t)
  {
    CStr(s.replies[0])
  }

  /** Every write attempt is logged, whether or not it succeeds. */
  function AfterWrite(s: Link, data: string): (s': Link)
    ensures s'.written == s.written + [data]
    ensures s'.replies == s.replies && s'.writeOk == s.writeOk && s'.readOk == s.readOk
  {
    s.(written := s.written + [data])
  }

  /** A successful read consumes its reply; a failed one consumes nothing. */
  function AfterRead(s: Link): (s': Link)
    ensures s'.replies == (if CanRead(s) then s.replies[1..] else s.replies)
    ensures s'.written == s.written && s'.writeOk == s.writeOk && s'.readOk == s.readOk
  {
    if CanRead(s) then s.(replies := s.replies[1..]) else s
  }

  /** The first `n` queued replies fit, terminator included, into buffers of the given sizes. */
  predicate RepliesFit(s: Link, sizes: seq<nat>) {
    forall i :: 0 <= i < |sizes| && i < |s.replies| ==> |CStr(s.replies[i])| < sizes[i]
  }

  /** `strcpy(b, t)`: the string, its terminator, and the old remainder of the buffer. */
  function Strcpy(b: seq<char>, t: string): (b': seq<char>)
    requires |CStr(t)| < |b|
    ensures |b'| == |b|
  {
    CStr(t) + [NUL] + b[|CStr(t)| + 1..]
  }

  /** Copying into a zero-filled buffer leaves exactly the C string of the reply in it. */
  lemma StrcpyIntoZeroed(n: nat, t: string)
    requires |CStr(t)| < n
    ensures Strcpy(seq(n, _ => NUL), t) == Padded(CStr(t), n)
    ensures CStr(Strcpy(seq(n, _ => NUL), t)) == CStr(t)
    ensures IsCBuffer(Strcpy(seq(n, _ => NUL), t))
  {
    var z: seq<char> := seq(n, _ => NUL);
    assert Strcpy(z, t) == Padded(CStr(t), n);
    PaddedHoldsString(CStr(t), n);
  }

  class ScriptedTransport {
    var replies: seq<string>
    var written: seq<string>
    var writeOk: bool
    var readOk: bool

    function Script(): Link
      reads this
    {
      Link(replies, written, writeOk, readOk)
    }

    constructor (replies: seq<string>, writeOk: bool, readOk: bool)
      ensures Script() == Link(replies, [], writeOk, readOk)
    {
      this.replies := replies;
      this.written := [];
      this.writeOk := writeOk;
      this.readOk := readOk;
    }

    /** The write callback: logs the packet and reports the scripted result. */
    method Write(data: string) returns (r: DriverResponse)
      modifies this
      ensures Script() == AfterWrite(old(Script()), data)
      ensures r == (if old(writeOk) then DriverSuccess else DriverFail)
    {
      written := written + [data];
      r := if writeOk then DriverSuccess else DriverFail;
    }

    /**
     * The read callback: copies the next reply into `buf` with `strcpy`.
     * The length argument of the C callback is not used by the fakes.
     */
    method Read(buf: array<char>) returns (r: DriverResponse)
      requires CanRead(Script()) ==> |NextReply(Script())| < buf.Length
      modifies this, buf
      ensures Script() == AfterRead(old(Script()))
      ensures r == (if CanRead(old(Script())) then DriverSuccess else DriverFail)
      ensures buf[..] == (if CanRead(old(Script())) then Strcpy(old(buf[..]), old(replies[0])) else old(buf[..]))
    {
      if !readOk || |replies| == 0 {
        return DriverFail;
      }
      var t := CStr(replies[0]);
      ghost var b := buf[..];
      var i := 0;
      while i < |t|
        modifies buf
        invariant 0 <= i <= |t|
        invariant forall k :: 0 <= k < i ==> buf[k] == t[k]
        invariant forall k :: i <= k < buf.Length ==> buf[k] == b[k]
      {
        buf[i] := t[i];
        i := i + 1;
      }
      buf[|t|] := NUL;
      assert buf[..] == t + [NUL] + b[|t| + 1..];
      replies := replies[1..];
      r := DriverSuccess;
    }
  }
}
