/**
 * `connection` (src/connection.cpp and its header): the pair of
 * descriptors of an open channel to a protocol server, and the `close`
 * that releases them.
 */
module Channel {
  /** The descriptors one `close()` passes to the OS: `in`, then `out` only when it differs and `in` closed. */
  function CloseCalls(inFd: int, outFd: int, inOk: bool): (calls: seq<int>)
    ensures 1 <= |calls| <= 2 && calls[0] == inFd
    ensures |calls| == 2 <==> inOk && outFd != inFd
    ensures |calls| == 2 ==> calls[1] == outFd
  {
    [inFd] + (if inOk && outFd != inFd then [outFd] else [])
  }

  /** No real (non-negative) descriptor appears twice in a log of `close` calls. */
  predicate NoDoubleClose(log: seq<int>) {
    forall i, j :: 0 <= i < j < |log| && log[i] == log[j] ==> log[i] < 0
  }

  /** None of the real descriptors in the log is `fd`. */
  predicate NotClosed(log: seq<int>, fd: int) {
    forall i :: 0 <= i < |log| && log[i] >= 0 ==> log[i] != fd
  }

  /**
   * Closing two descriptors that the log has not closed yet keeps the log
   * free of double closes, whether or not the calls succeed.
   */
  lemma CloseKeepsNoDoubleClose(log: seq<int>, inFd: int, outFd: int, inOk: bool)
    requires NoDoubleClose(log) && NotClosed(log, inFd) && NotClosed(log, outFd)
    ensures NoDoubleClose(log + CloseCalls(inFd, outFd, inOk))
  {
    var log' := log + CloseCalls(inFd, outFd, inOk);
    forall i, j | 0 <= i < j < |log'| && log'[i] == log'[j]
      ensures log'[i] < 0
    {
      if j >= |log| && i < |log| {
        assert log[i] == log'[j];
      }
    }
  }

  /** Once both descriptors are -1, a close passes nothing but -1 to the OS. */
  lemma ReclosePassesOnlyMinusOne(inOk: bool)
    requires !inOk
    ensures CloseCalls(-1, -1, inOk) == [-1]
  {
  }

  class Connection {
    var inFd: int
    var outFd: int
    var remote: bool
    /** Every descriptor this object has passed to the OS's `close`, in order. */
    var closeLog: seq<int>

    /** The object owns its descriptors: the log has no double close and has not closed either field. */
    ghost predicate Owns()
      reads this
    {
      NoDoubleClose(closeLog) && NotClosed(closeLog, inFd) && NotClosed(closeLog, outFd)
    }

    /** `connection(in, out, is_remote)`. */
    constructor (inFd: int, outFd: int, remote: bool)
      ensures this.inFd == inFd && this.outFd == outFd && this.remote == remote
      ensures closeLog == [] && Owns()
    {
      this.inFd := inFd;
      this.outFd := outFd;
      this.remote := remote;
      closeLog := [];
    }

    /** `connection()`: the default arguments are -1, -1 and false. */
    constructor Default()
      ensures inFd == -1 && outFd == -1 && !remote
      ensures closeLog == [] && Owns()
    {
      inFd := -1;
      outFd := -1;
      remote := false;
      closeLog := [];
    }

    function In(): int
      reads this
    {
      inFd
    }

    function Out(): int
      reads this
    {
      outFd
    }

    function IsRemote(): bool
      reads this
    {
      remote
    }

    /** `in(val)`: only the input descriptor changes. */
    method SetIn(val: int)
      modifies this`inFd
      ensures In() == val && Out() == old(Out()) && IsRemote() == old(IsRemote())
    {
      inFd := val;
    }

    /** `out(val)`: only the output descriptor changes. */
    method SetOut(val: int)
      modifies this`outFd
      ensures Out() == val && In() == old(In()) && IsRemote() == old(IsRemote())
    {
      outFd := val;
    }

    /** `is_remote(val)`: only the flag changes. */
    method SetRemote(val: bool)
      modifies this`remote
      ensures IsRemote() == val && In() == old(In()) && Out() == old(Out())
    {
      remote := val;
    }

    /**
     * `close()`. Both fields are reset to -1 before any OS call; `in` is
     * closed first and, if that fails, the error is returned without
     * touching `out`; `out` is closed only when it differs from `in`.
     * `inOk` and `outOk` are the OS's answers to those two calls: closing a
     * negative descriptor always fails.
     */
    method Close(inOk: bool, outOk: bool) returns (ok: bool)
      requires inFd < 0 ==> !inOk
      requires outFd < 0 ==> !outOk
      modifies this`inFd, this`outFd, this`closeLog
      ensures inFd == -1 && outFd == -1
      ensures closeLog == old(closeLog) + CloseCalls(old(inFd), old(outFd), inOk)
      ensures ok <==> inOk && (old(outFd) == old(inFd) || outOk)
      ensures old(Owns()) ==> Owns()
    {
      var i, o := inFd, outFd;
      inFd, outFd := -1, -1;
      if old(Owns()) {
        CloseKeepsNoDoubleClose(closeLog, i, o, inOk);
      }
      closeLog := closeLog + [i];
      if !inOk {
        return false;
      }
      if o != i {
        closeLog := closeLog + [o];
        if !outOk {
          return false;
        }
      }
      return true;
    }

    /** `~connection()`: calls `close()` and drops its result. */
    method Dispose(inOk: bool, outOk: bool)
      requires inFd < 0 ==> !inOk
      requires outFd < 0 ==> !outOk
      modifies this`inFd, this`outFd, this`closeLog
      ensures inFd == -1 && outFd == -1
      ensures closeLog == old(closeLog) + CloseCalls(old(inFd), old(outFd), inOk)
      ensures old(Owns()) ==> Owns()
    {
      var _ := Close(inOk, outOk);
    }
  }

  /**
   * An explicit `close()` followed by the destructor's: the second call
   * passes only -1 to the OS, so no real descriptor is closed twice.
   */
  method CloseThenDestroy(c: Connection, inOk: bool, outOk: bool)
    requires c.inFd < 0 ==> !inOk
    requires c.outFd < 0 ==> !outOk
    modifies c
    ensures c.closeLog == old(c.closeLog) + CloseCalls(old(c.inFd), old(c.outFd), inOk) + [-1]
    ensures old(c.Owns()) ==> c.Owns()
  {
    var _ := c.Close(inOk, outOk);
    c.Dispose(false, false);
  }
}
