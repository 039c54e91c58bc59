/**
 * The server-side helpers of src/catui_server.c: the descriptor the load
 * balancer passes in the environment, receiving a client descriptor, and
 * the acknowledgement frames: an empty frame accepts, `{"error":…}`
 * refuses.
 */
module TextServer {
  import opened Wrappers
  import opened Decimal
  import opened Semver
  import opened Json
  import opened CString
  import opened Sys

  const LoadBalancerFdVar: string := "CATUI_LOAD_BALANCER_FD"

  /** `CATUI_ACK_SIZE`: the buffer `ack` and `nack` encode into. */
  const AckSize: nat := 1024

  const Int16Min: int := -0x8000
  const Int16Max: int := 0x7fff
  const Int64Min: int := -0x8000_0000_0000_0000
  const Int64Max: int := 0x7fff_ffff_ffff_ffff

  /** The conversion of an out-of-range value to a 32-bit `int`: reduction modulo 2^32. */
  function Wrap32(n: int): (r: int)
    ensures Int32Min <= r <= Int32Max
    ensures (r - n) % 0x1_0000_0000 == 0
    ensures Int32Min <= n <= Int32Max ==> r == n
  {
    (n - Int32Min) % 0x1_0000_0000 + Int32Min
  }

  /** The conversion of a `size_t` to the `int16_t` result type: reduction modulo 2^16. */
  function Wrap16(n: int): (r: int)
    ensures Int16Min <= r <= Int16Max
    ensures (r - n) % 0x1_0000 == 0
    ensures Int16Min <= n <= Int16Max ==> r == n
  {
    (n - Int16Min) % 0x1_0000 + Int16Min
  }

  /** `strtoimax`, through which the C library converts `%d`: out-of-range values stop at the 64-bit bounds. */
  function Clamp64(n: int): (r: int)
    ensures Int64Min <= r <= Int64Max
    ensures Int64Min <= n <= Int64Max ==> r == n
  {
    if n > Int64Max then Int64Max else if n < Int64Min then Int64Min else n
  }

  /**
   * `sscanf(s, "%d", &fd) == 1`: after leading white space, an optional
   * sign and at least one digit; the rest of the text is ignored. Values
   * outside `int` are undefined behaviour in C; here they are converted as
   * the C library does, through `intmax_t` and then to `int`.
   */
  function ScanInt(s: string): Option<int> {
    var p := SkipSpace(s, 0);
    var signed := p < |s| && (s[p] == '-' || s[p] == '+');
    var q := if signed then p + 1 else p;
    var e := DigitsEnd(s, q);
    if e == q then None
    else
      var magnitude: int := Value(s[q..e]);
      Some(Wrap32(Clamp64(if p < |s| && s[p] == '-' then -magnitude else magnitude)))
  }

  /** `catui_server_fd`: the descriptor in `CATUI_LOAD_BALANCER_FD`, or -1 when it is unset or not a decimal. */
  function ServerFd(env: map<string, string>): (fd: int)
    ensures LoadBalancerFdVar !in env ==> fd == -1
    ensures LoadBalancerFdVar in env && ScanInt(env[LoadBalancerFdVar]).None? ==> fd == -1
    ensures LoadBalancerFdVar in env && ScanInt(env[LoadBalancerFdVar]).Some? ==>
              fd == ScanInt(env[LoadBalancerFdVar]).value
  {
    if LoadBalancerFdVar !in env then -1
    else
      match ScanInt(env[LoadBalancerFdVar])
      case None => -1
      case Some(fd) => fd
  }

  /**
   * `catui_server_accept(fd)`: `received` is the answer of `unix_recv_fd`;
   * -1 is passed on as the error.
   */
  method ServerAccept(fd: int, received: int) returns (con: int, trace: seq<Action>)
    ensures trace == [RecvFd(fd)]
    ensures con == -1 <==> received == -1
    ensures con != -1 ==> con == received
  {
    trace := [RecvFd(fd)];
    if received == -1 {
      return -1, trace;
    }
    con := received;
  }

  /** `catui_server_encode_ack`: the acknowledgement is the empty message, so nothing is written into the buffer. */
  method EncodeAck(buf: array<char>) returns (n: int)
    ensures n == 0
  {
    n := 0;
  }

  /** The refusal object `{"error": msg}`. */
  function NackText(msg: string): string {
    Print([Member("error", msg)])
  }

  /**
   * `catui_server_encode_nack(buf, buf.Length, msg)`: `objectOk` and
   * `addOk` are the answers of `cJSON_CreateObject` and
   * `cJSON_AddStringToObject`, `tight` the print oracle. On success the
   * buffer holds the refusal and the result is its length as an `int16_t`.
   */
  method EncodeNack(buf: array<char>, msg: string, objectOk: bool, addOk: bool, tight: bool) returns (n: int)
    requires Safe(msg)
    modifies buf
    ensures !(objectOk && addOk) ==> n == -1 && buf[..] == old(buf[..])
    ensures objectOk && addOk && !PrintFits(|NackText(msg)|, buf.Length, tight) ==> n == -1
    ensures objectOk && addOk && PrintFits(|NackText(msg)|, buf.Length, tight) ==>
              Holds(buf, NackText(msg)) && n == Wrap16(|NackText(msg)|)
  {
    if !objectOk || !addOk {
      return -1;
    }
    var text := NackText(msg);
    if !PrintFits(|text|, buf.Length, tight) {
      return -1;
    }
    assert SafeMembers([Member("error", msg)]);
    PrintHasNoNul([Member("error", msg)]);
    var len := StoreThenMeasure(buf, text);
    n := Wrap16(len);
  }

  /**
   * `catui_server_encode_nack` as its callers read it: the length of the
   * message on success and a negative value on error. A refusal longer
   * than `int16_t` can hold is an error here rather than a wrapped length.
   */
  method EncodeNackChecked(buf: array<char>, msg: string, objectOk: bool, addOk: bool, tight: bool)
      returns (n: int)
    requires Safe(msg)
    modifies buf
    ensures n >= 0 <==> objectOk && addOk && PrintFits(|NackText(msg)|, buf.Length, tight) &&
                        |NackText(msg)| <= Int16Max
    ensures n >= 0 ==> Holds(buf, NackText(msg)) && n == |NackText(msg)|
    ensures n < 0 ==> n == -1
    ensures !(objectOk && addOk) ==> buf[..] == old(buf[..])
  {
    n := EncodeNack(buf, msg, objectOk, addOk, tight);
    if n < 0 || |NackText(msg)| > Int16Max {
      return -1;
    }
  }

  /**
   * `catui_server_ack(fd)`: encode into a local buffer of `CATUI_ACK_SIZE`
   * and send the `n` bytes (`sendOk` is the answer of `msgstream_fd_send`).
   * The encoder never fails, so its `n < 0` branch is not taken.
   */
  method ServerAck(fd: int, sendOk: bool) returns (r: int, trace: seq<Action>)
    ensures trace == [MsgSend(fd, "")]
    ensures r == 0 <==> sendOk
    ensures r != 0 ==> r == -1
  {
    var ack := new char[AckSize];
    var n := EncodeAck(ack);
    trace := [MsgSend(fd, ack[..n])];
    if !sendOk {
      return -1, trace;
    }
    r := 0;
  }

  /**
   * `catui_server_nack(fd, msg)`: an encoding failure returns -1 before
   * anything is sent; otherwise exactly the encoded refusal is sent. A
   * refusal that fits `CATUI_ACK_SIZE` is far below `int16_t`'s limit, so
   * its length does not wrap here.
   */
  method ServerNack(fd: int, msg: string, objectOk: bool, addOk: bool, tight: bool, sendOk: bool)
      returns (r: int, trace: seq<Action>)
    requires Safe(msg)
    ensures !(objectOk && addOk && PrintFits(|NackText(msg)|, AckSize, tight)) ==> r == -1 && trace == []
    ensures objectOk && addOk && PrintFits(|NackText(msg)|, AckSize, tight) ==>
              trace == [MsgSend(fd, NackText(msg))] && (r == 0 <==> sendOk) && (r != 0 ==> r == -1)
  {
    var errJson := new char[AckSize];
    var n := EncodeNack(errJson, msg, objectOk, addOk, tight);
    if n < 0 {
      return -1, [];
    }
    trace := [MsgSend(fd, errJson[..n])];
    if !sendOk {
      return -1, trace;
    }
    r := 0;
  }

  // ---------------------------------------------------------------- properties

  /** The refusal, written out: `{"error":"` + msg + `"}"`, twelve characters besides the message. */
  lemma NackLayout(msg: string)
    ensures NackText(msg) == "{\"error\":\"" + msg + "\"}"
    ensures |NackText(msg)| == 12 + |msg|
  {
    var m := MemberText(Member("error", msg));
    assert MembersText([Member("error", msg)]) == m;
    assert "{" + m + "}" == "{\"error\":\"" + msg + "\"}" by {
      NackRegroup("{", "\"error\"", ":", "\"", msg, "}");
    }
  }

  lemma NackRegroup(o: string, k: string, colon: string, q: string, msg: string, cl: string)
    ensures o + (k + colon + (q + msg + q)) + cl == (o + k + colon + q) + msg + (q + cl)
  {
  }

  /** A refusal is never empty, so a client never takes it for the acknowledgement, and it reads back as its message. */
  lemma NackIsNotAck(msg: string)
    requires Safe(msg)
    ensures |NackText(msg)| > 0
    ensures Json.Parse(NackText(msg)) == Some([Member("error", msg)])
  {
    NackLayout(msg);
    assert SafeMembers([Member("error", msg)]);
    ParsePrint([Member("error", msg)]);
  }

  /**
   * As written, a refusal of 32768 characters that fits the buffer is
   * stored, yet its length comes back as -32768, which callers read as an
   * error.
   */
  lemma LongNackLengthWraps(msg: string)
    requires |msg| == 32756
    ensures |NackText(msg)| == 32768 && Wrap16(|NackText(msg)|) == -32768
  {
    NackLayout(msg);
  }

  /** A refusal that fits the `CATUI_ACK_SIZE` buffer with cJSON's slack is always encoded and sent. */
  lemma NackFitsAckBuffer(msg: string, tight: bool)
    requires |msg| + 12 + 5 <= AckSize
    ensures PrintFits(|NackText(msg)|, AckSize, tight)
  {
    NackLayout(msg);
  }

  /** White space, an optional `-`, and the decimal of `n` followed by a non-digit: read back as `±n`, converted to `int`. */
  lemma {:induction false} ScanDecimal(s: string, ws: nat, negative: bool, n: nat)
    requires ws <= |s| && forall k :: 0 <= k < ws ==> IsSpace(s[k])
    requires var q := if negative then ws + 1 else ws;
             q + |Dec(n)| <= |s| && (negative ==> s[ws] == '-') && s[q..q + |Dec(n)|] == Dec(n) &&
             (q + |Dec(n)| < |s| ==> !IsDigit(s[q + |Dec(n)|]))
    ensures ScanInt(s) == Some(Wrap32(Clamp64(if negative then -(n as int) else n as int)))
  {
    var q := if negative then ws + 1 else ws;
    var e := q + |Dec(n)|;
    assert ws < |s| && !IsSpace(s[ws]) by {
      assert s[q] == Dec(n)[0];
    }
    SkipSpaceOver(s, 0, ws);
    DigitsOf(s, q, n, e);
  }

  /** A set variable holding a decimal in range gives that descriptor. */
  lemma ServerFdReadsDecimal(env: map<string, string>, n: nat)
    requires LoadBalancerFdVar in env && env[LoadBalancerFdVar] == Dec(n) && n <= Int32Max
    ensures ServerFd(env) == n
  {
    var s := env[LoadBalancerFdVar];
    assert s[0..|Dec(n)|] == Dec(n);
    ScanDecimal(s, 0, false, n);
  }

  /** A larger decimal keeps only its low 32 bits (2^32 + 5 gives descriptor 5). */
  lemma ServerFdWrapsLargeDecimal(env: map<string, string>, n: nat)
    requires LoadBalancerFdVar in env && env[LoadBalancerFdVar] == Dec(n) && n <= Int64Max
    ensures ServerFd(env) == Wrap32(n)
  {
    var s := env[LoadBalancerFdVar];
    assert s[0..|Dec(n)|] == Dec(n);
    ScanDecimal(s, 0, false, n);
  }

  /** A value whose first non-blank character is neither a sign nor a digit fails `sscanf`, giving -1. */
  lemma ServerFdRejectsNonDecimal(env: map<string, string>)
    requires LoadBalancerFdVar in env
    requires var s := env[LoadBalancerFdVar];
             var p := SkipSpace(s, 0);
             p == |s| || (s[p] != '-' && s[p] != '+' && !IsDigit(s[p]))
    ensures ServerFd(env) == -1
  {
  }
}
