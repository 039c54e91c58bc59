/**
 * The older client entry point `gulachek::catui::connect(protocol,
 * version, fd)` (src/catui.cpp): checks the environment the catui server
 * set, opens a unix socket to it, writes the request and reads the
 * acknowledgement. Unlike `handshake::connect` it has no install path, it
 * compares the catui version with 0.1.0 only once the address type was
 * found (the version itself is read and parsed first), and it never closes
 * the socket it stored in `*fd`.
 */
module Client {
  import opened Wrappers
  import opened GTree
  import opened Semver
  import opened Sys
  import Handshakes

  /** `connect_error_code` of include/gulachek/catui.hpp. */
  datatype ConnectErrorCode =
    | Success
    | NoVersion
    | VersionNoParse
    | VersionIncompatible
    | NoAddrType
    | UnknownType
    | NoAddr
    | NoSocket
    | NoConnect
    | NoAck
    | Rejected

  /**
   * The environment checks of `connect`, in the order the code makes them;
   * on success, the socket address. The catui version is read and parsed
   * first, but checked against 0.1.0 only after the address type was found.
   */
  function Checks(env: map<string, string>): (r: Result<string, ConnectErrorCode>)
    ensures r == Err(NoVersion) <==> VersionVar !in env
    ensures r == Err(VersionNoParse) <==> VersionVar in env && Parse(env[VersionVar]).Err?
    ensures r == Err(NoAddrType) <==> VersionVar in env && Parse(env[VersionVar]).Ok? && AddrTypeVar !in env
    ensures r == Err(VersionIncompatible) <==>
              VersionVar in env && Parse(env[VersionVar]).Ok? && AddrTypeVar in env &&
              !CanUse(Handshakes.ImplCatuiVersion, Parse(env[VersionVar]).value)
    ensures r == Err(UnknownType) <==>
              VersionVar in env && Parse(env[VersionVar]).Ok? && AddrTypeVar in env &&
              CanUse(Handshakes.ImplCatuiVersion, Parse(env[VersionVar]).value) && env[AddrTypeVar] != "unix"
    ensures r == Err(NoAddr) <==>
              VersionVar in env && Parse(env[VersionVar]).Ok? && AddrTypeVar in env &&
              CanUse(Handshakes.ImplCatuiVersion, Parse(env[VersionVar]).value) && env[AddrTypeVar] == "unix" &&
              AddrVar !in env
    ensures r.Ok? <==>
              VersionVar in env && Parse(env[VersionVar]).Ok? && AddrTypeVar in env &&
              CanUse(Handshakes.ImplCatuiVersion, Parse(env[VersionVar]).value) && env[AddrTypeVar] == "unix" &&
              AddrVar in env
    ensures r.Ok? ==> r.value == env[AddrVar]
  {
    if VersionVar !in env then Err(NoVersion)
    else
      match Parse(env[VersionVar])
      case Err(_) => Err(VersionNoParse)
      case Ok(catuiVersion) =>
        if AddrTypeVar !in env then Err(NoAddrType)
        else if !CanUse(Handshakes.ImplCatuiVersion, catuiVersion) then Err(VersionIncompatible)
        else if env[AddrTypeVar] != "unix" then Err(UnknownType)
        else if AddrVar !in env then Err(NoAddr)
        else Ok(env[AddrVar])
  }

  /** The `getenv` calls made before the checks stop: one, two or all three variables. */
  function Lookups(checked: Result<string, ConnectErrorCode>): (acts: seq<Action>)
    ensures 1 <= |acts| <= 3 && acts[0] == GetEnv(VersionVar)
    ensures |acts| == 3 <==> checked.Ok? || checked == Err(NoAddr)
  {
    match checked
    case Err(NoVersion) => [GetEnv(VersionVar)]
    case Err(VersionNoParse) => [GetEnv(VersionVar)]
    case Err(NoAddr) => [GetEnv(VersionVar), GetEnv(AddrTypeVar), GetEnv(AddrVar)]
    case Ok(_) => [GetEnv(VersionVar), GetEnv(AddrTypeVar), GetEnv(AddrVar)]
    case Err(_) => [GetEnv(VersionVar), GetEnv(AddrTypeVar)]
  }

  /**
   * `gtree::read_fd(*fd, &err_msg)` and the check of the message: the same
   * reading as `Handshakes.AckCode`, in this file's own error codes.
   */
  function ReplyCode(ack: Option<Tree>): (code: ConnectErrorCode)
    ensures code == NoAck <==> ack.None? || !ack.value.Str?
    ensures code == Rejected <==> ack.Some? && ack.value.Str? && ack.value.s != ""
    ensures code == Success <==> ack == Some(Str(""))
  {
    match Handshakes.AckCode(ack)
    case Success => Success
    case Rejected => Rejected
    case _ => NoAck
  }

  /**
   * `connect(protocol, version, fd)`. `fd` is the caller's `*fd` on entry
   * and `fdOut` its value on return: it is overwritten by `socket` once the
   * checks pass, and nothing is ever closed. The request written is the
   * pair (protocol, version).
   */
  method Connect(protocol: string, version: SemVer, fd: int, env: map<string, string>, net: Handshakes.Net,
                 writeOk: bool, ack: Option<Tree>)
      returns (code: ConnectErrorCode, fdOut: int, trace: seq<Action>)
    ensures Checks(env).Err? ==> code == Checks(env).error && fdOut == fd && trace == Lookups(Checks(env))
    ensures Checks(env).Ok? ==> fdOut == net.socketFd
    ensures Checks(env).Ok? && net.socketFd == -1 ==> code == NoSocket && trace == Lookups(Checks(env)) + [Socket]
    ensures Checks(env).Ok? && net.socketFd != -1 && !net.connectOk ==>
              code == NoConnect &&
              trace == Lookups(Checks(env)) + [Socket] + [ConnectUnix(net.socketFd, SunPath(env[AddrVar]))]
    ensures Checks(env).Ok? && net.socketFd != -1 && net.connectOk ==>
              code == (if writeOk then ReplyCode(ack) else NoAck) &&
              trace == Lookups(Checks(env)) + [Socket] + [ConnectUnix(net.socketFd, SunPath(env[AddrVar]))] +
                       [WriteTree(net.socketFd, Handshakes.EncodeFields(protocol, version))] +
                       (if writeOk then [ReadTree(net.socketFd)] else [])
  {
    fdOut := fd;
    var checked := Checks(env);
    trace := Lookups(checked);
    if checked.Err? {
      return checked.error, fdOut, trace;
    }
    fdOut := net.socketFd;
    trace := trace + [Socket];
    if fdOut == -1 {
      return NoSocket, fdOut, trace;
    }
    trace := trace + [ConnectUnix(fdOut, SunPath(checked.value))];
    if !net.connectOk {
      return NoConnect, fdOut, trace;
    }
    trace := trace + [WriteTree(fdOut, Handshakes.EncodeFields(protocol, version))];
    if !writeOk {
      return NoAck, fdOut, trace;
    }
    trace := trace + [ReadTree(fdOut)];
    code := ReplyCode(ack);
  }

  // ---------------------------------------------------------------- properties

  /** A server announcing exactly 0.1.0 passes the version check (whatever the address turns out to be). */
  lemma OwnVersionPassesVersionCheck(env: map<string, string>)
    requires VersionVar in env && env[VersionVar] == Format(Handshakes.ImplCatuiVersion)
    requires AddrTypeVar in env
    ensures Checks(env) != Err(VersionNoParse) && Checks(env) != Err(VersionIncompatible)
  {
    ParseFormat(Handshakes.ImplCatuiVersion);
  }

  /** Any other printed version, once there is an address type, is incompatible: 0.x uses only itself. */
  lemma OtherVersionsAreIncompatible(env: map<string, string>, v: SemVer)
    requires v.major as int <= Int32Max && v.minor as int <= Int32Max && v.patch as int <= Int32Max
    requires v != Handshakes.ImplCatuiVersion
    requires VersionVar in env && env[VersionVar] == Format(v)
    requires AddrTypeVar in env
    ensures Checks(env) == Err(VersionIncompatible)
  {
    ParseFormat(v);
    Handshakes.ImplUsesOnlyItself(v);
  }

  /** With no address type the version is never compared: a bad version still reports `no_addr_type`. */
  lemma AddressTypeCheckedBeforeCompatibility(env: map<string, string>, v: SemVer)
    requires v.major as int <= Int32Max && v.minor as int <= Int32Max && v.patch as int <= Int32Max
    requires VersionVar in env && env[VersionVar] == Format(v)
    requires AddrTypeVar !in env
    ensures Checks(env) == Err(NoAddrType)
  {
    ParseFormat(v);
  }
}
