/**
 * `handshake` (src/handshake.cpp): a protocol name and version, its gtree
 * codec, and `connect`, which either reaches a remote catui server named
 * by the environment or spawns the protocol server that is installed under
 * the install root, and then waits for the server's acknowledgement.
 */
module Handshakes {
  import opened Wrappers
  import opened Decimal
  import opened GTree
  import opened Semver
  import opened Sys
  import opened Channel

  /** `connect_error_code` of include/gulachek/catui/handshake.hpp. */
  datatype ConnectErrorCode =
    | Success
    | NoCatuiVersion
    | CatuiVersionNoParse
    | CatuiVersionIncompatible
    | NoAddrType
    | UnknownType
    | NoAddr
    | NoSocket
    | NoConnect
    | NoAck
    | Rejected
    | NoConfig
    | NoVersion
    | VersionIncompatible
    | NoExec
    | NoFork
    | NoPipe
    | BadProtocol

  /** The catui protocol version this implementation is written against. */
  const ImplCatuiVersion: SemVer := SemVer(0, 1, 0)

  /** Because 0.1.0 is an unstable (major 0) version, it can use exactly one version: itself. */
  lemma ImplUsesOnlyItself(v: SemVer)
    ensures CanUse(ImplCatuiVersion, v) <==> v == ImplCatuiVersion
  {
  }

  // ---------------------------------------------------------------- gtree codec

  /** `gtree_encode`: the pair (protocol, version). */
  function EncodeFields(protocol: string, version: SemVer): Tree {
    Pair(Str(protocol), ToTree(version))
  }

  /** `gtree_decode`: a pair whose first item is a string and whose second is a version. */
  function DecodeFields(t: Tree): (r: Result<(string, SemVer), string>)
    ensures r.Ok? ==> EncodeFields(r.value.0, r.value.1) == t
  {
    if t.Tuple? && |t.items| == 2 && t.items[0].Str? && FromTree(t.items[1]).Ok? then
      TreeRoundTrip(FromTree(t.items[1]).value, t.items[1]);
      Ok((t.items[0].s, FromTree(t.items[1]).value))
    else Err("failed to decode handshake")
  }

  /** Decoding an encoded handshake gives back exactly its protocol and its version. */
  lemma FieldsRoundTrip(protocol: string, version: SemVer)
    ensures DecodeFields(EncodeFields(protocol, version)) == Ok((protocol, version))
  {
    TreeRoundTrip(version, ToTree(version));
  }

  // ---------------------------------------------------------------- install path

  /** Does a `std::filesystem::path` (POSIX) have a file name, that is, not end in a separator? */
  predicate HasFilename(p: string) {
    |p| > 0 && p[|p| - 1] != '/'
  }

  /**
   * `p / q` of `std::filesystem::path` on POSIX: an absolute `q` replaces
   * `p`; otherwise a separator is inserted when `p` has a file name.
   */
  function Join(p: string, q: string): string {
    if |q| > 0 && q[0] == '/' then q
    else if HasFilename(p) then p + "/" + q
    else p + q
  }

  /** `root / protocol_ / std::to_string(major) / "config.gt"`. */
  function ConfigPath(root: string, protocol: string, major: u32): string {
    Join(Join(Join(root, protocol), Dec(major as nat)), "config.gt")
  }

  /** For a root and a relative protocol name, each without trailing separator, the usual layout. */
  lemma ConfigPathLayout(root: string, protocol: string, major: u32)
    requires HasFilename(root) && HasFilename(protocol) && protocol[0] != '/'
    ensures ConfigPath(root, protocol, major) == root + "/" + protocol + "/" + Dec(major as nat) + "/config.gt"
  {
    var d := Dec(major as nat);
    var p1 := root + "/" + protocol;
    assert Join(root, protocol) == p1;
    assert HasFilename(p1) by {
      assert p1[|p1| - 1] == protocol[|protocol| - 1];
    }
    assert d[0] != '/' && d[|d| - 1] != '/';
    var p2 := p1 + "/" + d;
    assert Join(p1, d) == p2;
    assert HasFilename(p2) by {
      assert p2[|p2| - 1] == d[|d| - 1];
    }
    assert Join(p2, "config.gt") == p2 + "/" + "config.gt";
    assert p2 + "/" + "config.gt" == root + "/" + protocol + "/" + d + "/config.gt";
  }

  /** An absolute protocol name replaces the install root altogether. */
  lemma AbsoluteProtocolIgnoresRoot(root: string, other: string, protocol: string, major: u32)
    requires |protocol| > 0 && protocol[0] == '/'
    ensures ConfigPath(root, protocol, major) == ConfigPath(other, protocol, major)
  {
  }

  const CatuiVersionKey: string := "catui_version"
  const VersionKey: string := "version"
  const ExecKey: string := "exec"

  /** `dict.read(key, &v)` for a version: the key must be there and decode. */
  function ReadVersion(dict: map<string, Tree>, key: string): Result<SemVer, string> {
    if key in dict then FromTree(dict[key]) else Err("missing key")
  }

  /** `dict.read(key, &v)` for a `std::vector<std::string>`. */
  function ReadStrings(dict: map<string, Tree>, key: string): Result<seq<string>, string> {
    if key in dict then DecodeStrings(dict[key]) else Err("missing key")
  }

  /**
   * The catui version check both paths make: a version that does not parse
   * (or decode), then a version 0.1.0 cannot use.
   */
  function CheckCatuiVersion(parsed: Result<SemVer, string>): (r: Result<SemVer, ConnectErrorCode>)
    ensures r == Err(CatuiVersionNoParse) <==> parsed.Err?
    ensures r == Err(CatuiVersionIncompatible) <==> parsed.Ok? && parsed.value != ImplCatuiVersion
    ensures r.Ok? <==> parsed == Ok(ImplCatuiVersion)
    ensures r.Ok? ==> r.value == ImplCatuiVersion
  {
    match parsed
    case Err(_) => Err(CatuiVersionNoParse)
    case Ok(v) =>
      ImplUsesOnlyItself(v);
      if !CanUse(ImplCatuiVersion, v) then Err(CatuiVersionIncompatible) else Ok(v)
  }

  /**
   * The checks of the installed `config.gt`, in order; on success, the
   * command line to run. `version` is the handshake's own version.
   */
  function CheckConfig(dict: map<string, Tree>, version: SemVer): (r: Result<seq<string>, ConnectErrorCode>)
    ensures r.Err? ==> r.error in {CatuiVersionNoParse, CatuiVersionIncompatible, NoVersion, VersionIncompatible, NoExec}
    ensures r.Err? && r.error in {CatuiVersionNoParse, CatuiVersionIncompatible} <==>
              CheckCatuiVersion(ReadVersion(dict, CatuiVersionKey)).Err?
    ensures r == Err(NoVersion) <==>
              CheckCatuiVersion(ReadVersion(dict, CatuiVersionKey)).Ok? && ReadVersion(dict, VersionKey).Err?
    ensures r == Err(VersionIncompatible) <==>
              CheckCatuiVersion(ReadVersion(dict, CatuiVersionKey)).Ok? && ReadVersion(dict, VersionKey).Ok? &&
              !CanUse(version, ReadVersion(dict, VersionKey).value)
    ensures r == Err(NoExec) <==>
              CheckCatuiVersion(ReadVersion(dict, CatuiVersionKey)).Ok? && ReadVersion(dict, VersionKey).Ok? &&
              CanUse(version, ReadVersion(dict, VersionKey).value) && ReadStrings(dict, ExecKey).Err?
    ensures r.Ok? ==> ReadStrings(dict, ExecKey) == Ok(r.value)
  {
    match CheckCatuiVersion(ReadVersion(dict, CatuiVersionKey))
    case Err(code) => Err(code)
    case Ok(_) =>
      match ReadVersion(dict, VersionKey)
      case Err(_) => Err(NoVersion)
      case Ok(installed) =>
        if !CanUse(version, installed) then Err(VersionIncompatible)
        else
          match ReadStrings(dict, ExecKey)
          case Err(_) => Err(NoExec)
          case Ok(argv) => Ok(argv)
  }

  // ---------------------------------------------------------------- exec

  /** `raw_argv` as `exec` fills it: one entry per argument, then a terminating null. */
  function RawArgv(argv: seq<string>): (raw: seq<Option<string>>) {
    seq(|argv|, i requires 0 <= i < |argv| => Some(argv[i])) + [None]
  }

  /** The argument list `execv` reads from a raw vector: the entries before the first null. */
  function ArgvSeen(raw: seq<Option<string>>): seq<string> {
    if raw == [] || raw[0].None? then [] else [raw[0].value] + ArgvSeen(raw[1..])
  }

  /** `execv` sees exactly the arguments `exec` was given. */
  lemma {:induction false} ArgvSeenRaw(argv: seq<string>)
    ensures ArgvSeen(RawArgv(argv)) == argv
  {
    if argv != [] {
      assert RawArgv(argv)[1..] == RawArgv(argv[1..]);
      ArgvSeenRaw(argv[1..]);
      assert [argv[0]] + argv[1..] == argv;
    }
  }

  /** The loop of `exec` that fills `raw_argv`. */
  method FillRawArgv(argv: seq<string>) returns (raw: array<Option<string>>)
    ensures raw.Length == |argv| + 1
    ensures raw[..] == RawArgv(argv)
  {
    raw := new Option<string>[|argv| + 1](_ => None);
    var i := 0;
    while i < |argv|
      invariant 0 <= i <= |argv|
      invariant forall k :: 0 <= k < i ==> raw[k] == Some(argv[k])
    {
      raw[i] := Some(argv[i]);
      i := i + 1;
    }
    raw[|argv|] := None;
    assert raw[..] == RawArgv(argv) by {
      forall k | 0 <= k < raw.Length ensures raw[..][k] == RawArgv(argv)[k] {
      }
    }
  }

  /** What `exec` comes to: the process image was replaced, or an error came back. */
  datatype ExecOutcome = Replaced(path: string, argv: seq<string>) | ExecFailed(msg: string)

  /**
   * `exec(argv)`: an empty list is refused before any system call;
   * otherwise `execv(argv[0], argv)` runs, and `execOk` is whether it
   * replaced the process image.
   */
  method Exec(argv: seq<string>, execOk: bool) returns (r: ExecOutcome, acts: seq<Action>)
    ensures |argv| == 0 ==> r == ExecFailed("Need at least a file path to exec") && acts == []
    ensures |argv| > 0 ==> acts == [ExecV(argv[0], argv)]
    ensures |argv| > 0 ==> (r.Replaced? <==> execOk)
    ensures r.Replaced? ==> r == Replaced(argv[0], argv)
  {
    if |argv| < 1 {
      return ExecFailed("Need at least a file path to exec"), [];
    }
    var raw := FillRawArgv(argv);
    assert raw[0] == Some(argv[0]) by {
      assert raw[..][0] == RawArgv(argv)[0];
    }
    var path := raw[0].value;
    var seen := ArgvSeen(raw[..]);
    ArgvSeenRaw(argv);
    acts := [ExecV(path, seen)];
    if execOk {
      r := Replaced(path, seen);
    } else {
      r := ExecFailed("execv");
    }
  }

  // ---------------------------------------------------------------- connect

  /** The environment's address of a remote server, or the first thing wrong with it. */
  function RemoteAddress(env: map<string, string>): (r: Result<string, ConnectErrorCode>)
    ensures r == Err(NoAddrType) <==> AddrTypeVar !in env
    ensures r == Err(UnknownType) <==> AddrTypeVar in env && env[AddrTypeVar] != "unix"
    ensures r == Err(NoAddr) <==> AddrTypeVar in env && env[AddrTypeVar] == "unix" && AddrVar !in env
    ensures r.Ok? <==> AddrTypeVar in env && env[AddrTypeVar] == "unix" && AddrVar in env
    ensures r.Ok? ==> r.value == env[AddrVar]
  {
    if AddrTypeVar !in env then Err(NoAddrType)
    else if env[AddrTypeVar] != "unix" then Err(UnknownType)
    else if AddrVar !in env then Err(NoAddr)
    else Ok(env[AddrVar])
  }

  /** The environment lookups `connect_remote` makes: the address is looked up only for type "unix". */
  function AddressLookups(env: map<string, string>): seq<Action> {
    if AddrTypeVar in env && env[AddrTypeVar] == "unix" then [GetEnv(AddrTypeVar), GetEnv(AddrVar)]
    else [GetEnv(AddrTypeVar)]
  }

  /** The answers of `socket` (-1 on failure) and `connect`. */
  datatype Net = Net(socketFd: int, connectOk: bool)

  /**
   * `connect_remote`: the address checks, then a socket and a connect. On
   * success `*pconn` is a remote connection reading and writing the one
   * socket; a socket whose connect fails is not closed.
   */
  method ConnectRemote(env: map<string, string>, net: Net)
      returns (code: ConnectErrorCode, conn: Connection?, trace: seq<Action>)
    ensures RemoteAddress(env).Err? ==> code == RemoteAddress(env).error && trace == AddressLookups(env)
    ensures RemoteAddress(env).Ok? ==>
              (code == NoSocket <==> net.socketFd == -1) &&
              (code == NoConnect <==> net.socketFd != -1 && !net.connectOk) &&
              (code == Success <==> net.socketFd != -1 && net.connectOk) &&
              (net.socketFd == -1 ==> trace == AddressLookups(env) + [Socket]) &&
              (net.socketFd != -1 ==> trace == AddressLookups(env) + [Socket] + [ConnectUnix(net.socketFd, SunPath(env[AddrVar]))])
    ensures ClosesNothing(trace)
    ensures conn != null <==> code == Success
    ensures conn != null ==> fresh(conn) && conn.inFd == net.socketFd && conn.outFd == net.socketFd &&
                             conn.remote && conn.closeLog == [] && conn.Owns()
  {
    trace := AddressLookups(env);
    conn := null;
    var address := RemoteAddress(env);
    if address.Err? {
      return address.error, null, trace;
    }
    var fd := net.socketFd;
    trace := trace + [Socket];
    if fd == -1 {
      return NoSocket, null, trace;
    }
    trace := trace + [ConnectUnix(fd, SunPath(address.value))];
    if !net.connectOk {
      return NoConnect, null, trace;
    }
    conn := new Connection(fd, fd, true);
    code := Success;
  }

  /** `conn->read(&err_msg)`: a failed read or a non-string is no acknowledgement; a non-empty string is a refusal. */
  function AckCode(ack: Option<Tree>): (code: ConnectErrorCode)
    ensures code == NoAck <==> ack.None? || DecodeString(ack.value).Err?
    ensures code == Rejected <==> ack.Some? && DecodeString(ack.value).Ok? && DecodeString(ack.value).value != ""
    ensures code == Success <==> ack == Some(Str(""))
  {
    match ack
    case None => NoAck
    case Some(t) =>
      match DecodeString(t)
      case Err(_) => NoAck
      case Ok(msg) => if msg != "" then Rejected else Success
  }

  /**
   * The acknowledgement step: read the server's message on the connection's
   * input. Unless it accepts, the connection goes out of scope and its
   * destructor closes it (`closeInOk`, `closeOutOk` are the OS's answers).
   */
  method AwaitAck(conn: Connection, ack: Option<Tree>, closeInOk: bool, closeOutOk: bool)
      returns (code: ConnectErrorCode, trace: seq<Action>)
    modifies conn
    ensures code == AckCode(ack)
    ensures code == Success ==> trace == [ReadTree(old(conn.inFd))] && unchanged(conn)
    ensures code != Success ==>
              trace == [ReadTree(old(conn.inFd))] + Closes(CloseCalls(old(conn.inFd), old(conn.outFd), closeInOk && old(conn.inFd) >= 0)) &&
              conn.inFd == -1 && conn.outFd == -1
    ensures old(conn.Owns()) ==> conn.Owns()
  {
    trace := [ReadTree(conn.inFd)];
    code := AckCode(ack);
    if code != Success {
      var i, o := conn.inFd, conn.outFd;
      conn.Dispose(closeInOk && i >= 0, closeOutOk && o >= 0);
      trace := trace + Closes(CloseCalls(i, o, closeInOk && i >= 0));
    }
  }

  /** The outcomes of `pipe`, `pipe`, `fork`, the two `dup2` in the child and `execv`. */
  datatype Spawn = Spawn(pipeIn: Option<(int, int)>, pipeOut: Option<(int, int)>, pid: int,
                         dupInOk: bool, dupOutOk: bool, execOk: bool)

  predicate PipesOk(spawn: Spawn) {
    spawn.pipeIn.Some? && spawn.pipeOut.Some?
  }

  /** How `connect` ends: it returns a code, or (in the child of the fork) the process exits or becomes the server. */
  datatype Ending = Returned(code: ConnectErrorCode) | ChildExit(status: int) | ChildExec(path: string, argv: seq<string>)

  /**
   * The system calls the child of the fork makes, in order: `dup2` onto
   * stdin, `dup2` onto stdout, the two closes, `execv`, and `exit` after
   * whichever of them failed. The messages `perror` and `std::cerr` print
   * to stderr are not modelled; nothing is written to the server.
   */
  function ChildTrace(pipeIn: (int, int), pipeOut: (int, int), argv: seq<string>, spawn: Spawn): (acts: seq<Action>)
    ensures WritesNothing(acts)
    ensures |acts| >= 2 && acts[0] == Dup2(pipeIn.0, StdinFileno)
    ensures (acts[|acts| - 1] == Exit(ExitFailure)) <==> !(spawn.dupInOk && spawn.dupOutOk && |argv| > 0 && spawn.execOk)
  {
    if !spawn.dupInOk then [Dup2(pipeIn.0, StdinFileno), Exit(ExitFailure)]
    else if !spawn.dupOutOk then [Dup2(pipeIn.0, StdinFileno), Dup2(pipeOut.1, StdoutFileno), Exit(ExitFailure)]
    else
      [Dup2(pipeIn.0, StdinFileno), Dup2(pipeOut.1, StdoutFileno), Close(pipeIn.1), Close(pipeOut.0)] +
      (if |argv| > 0 then [ExecV(argv[0], argv)] else []) +
      (if |argv| > 0 && spawn.execOk then [] else [Exit(ExitFailure)])
  }

  /**
   * The child of the fork: its stdin becomes the read end of `pipe_in` and
   * its stdout the write end of `pipe_out`, the other ends are closed, and
   * the installed command runs. Any failure exits with `EXIT_FAILURE`.
   */
  method RunChild(pipeIn: (int, int), pipeOut: (int, int), argv: seq<string>, spawn: Spawn)
      returns (ending: Ending, acts: seq<Action>)
    ensures acts == ChildTrace(pipeIn, pipeOut, argv, spawn)
    ensures !spawn.dupInOk ==> ending == ChildExit(ExitFailure) && acts == [Dup2(pipeIn.0, StdinFileno), Exit(ExitFailure)]
    ensures spawn.dupInOk && !spawn.dupOutOk ==>
              ending == ChildExit(ExitFailure) &&
              acts == [Dup2(pipeIn.0, StdinFileno), Dup2(pipeOut.1, StdoutFileno), Exit(ExitFailure)]
    ensures spawn.dupInOk && spawn.dupOutOk ==>
              (ending.ChildExec? <==> |argv| > 0 && spawn.execOk) &&
              (ending.ChildExec? ==> ending == ChildExec(argv[0], argv)) &&
              (!ending.ChildExec? ==> ending == ChildExit(ExitFailure)) &&
              acts == [Dup2(pipeIn.0, StdinFileno), Dup2(pipeOut.1, StdoutFileno), Close(pipeIn.1), Close(pipeOut.0)] +
                      (if |argv| > 0 then [ExecV(argv[0], argv)] else []) +
                      (if ending.ChildExec? then [] else [Exit(ExitFailure)])
  {
    acts := [Dup2(pipeIn.0, StdinFileno)];
    if !spawn.dupInOk {
      return ChildExit(ExitFailure), acts + [Exit(ExitFailure)];
    }
    acts := acts + [Dup2(pipeOut.1, StdoutFileno)];
    if !spawn.dupOutOk {
      return ChildExit(ExitFailure), acts + [Exit(ExitFailure)];
    }
    acts := acts + [Close(pipeIn.1), Close(pipeOut.0)];
    var r, execActs := Exec(argv, spawn.execOk);
    acts := acts + execActs;
    if r.Replaced? {
      return ChildExec(r.path, r.argv), acts;
    }
    ending := ChildExit(ExitFailure);
    acts := acts + [Exit(ExitFailure)];
  }

  /** Reading the installed `config.gt` (`None` when `read_file` fails) and checking it. */
  function LoadConfig(config: Option<map<string, Tree>>, version: SemVer): (r: Result<seq<string>, ConnectErrorCode>)
    ensures r == Err(NoConfig) <==> config.None?
    ensures config.Some? ==> r == CheckConfig(config.value, version)
  {
    match config
    case None => Err(NoConfig)
    case Some(dict) => CheckConfig(dict, version)
  }

  /**
   * The install path of `connect` once the config checks passed: two pipes
   * and a fork. The child runs the installed command `argv`; the parent
   * closes the child's ends and keeps a local connection reading
   * `pipe_out[0]` and writing `pipe_in[1]`. No request is written.
   */
  method ForkServer(argv: seq<string>, spawn: Spawn)
      returns (ending: Ending, conn: Connection?, trace: seq<Action>)
    ensures WritesNothing(trace)
    ensures ending == Returned(NoPipe) <==> !PipesOk(spawn)
    ensures spawn.pipeIn.None? ==> trace == [Pipe]
    ensures spawn.pipeIn.Some? && spawn.pipeOut.None? ==> trace == [Pipe, Pipe]
    ensures PipesOk(spawn) && spawn.pid < 0 ==> trace == [Pipe, Pipe, Fork]
    ensures PipesOk(spawn) && spawn.pid == 0 ==>
              trace == [Pipe, Pipe, Fork] + ChildTrace(spawn.pipeIn.value, spawn.pipeOut.value, argv, spawn)
    ensures ending == Returned(NoFork) <==> PipesOk(spawn) && spawn.pid < 0
    ensures ending.ChildExit? || ending.ChildExec? <==> PipesOk(spawn) && spawn.pid == 0
    ensures ending == Returned(Success) <==> PipesOk(spawn) && spawn.pid > 0
    ensures ending.Returned? ==> ending.code in {NoPipe, NoFork, Success}
    ensures ending.ChildExit? ==> ending.status == ExitFailure
    ensures ending.ChildExec? ==> |argv| > 0 && ending == ChildExec(argv[0], argv)
    ensures conn != null <==> ending == Returned(Success)
    ensures conn != null ==>
              fresh(conn) && conn.inFd == spawn.pipeOut.value.0 && conn.outFd == spawn.pipeIn.value.1 &&
              !conn.remote && conn.closeLog == [] && conn.Owns() &&
              trace == [Pipe, Pipe, Fork, Close(spawn.pipeIn.value.0), Close(spawn.pipeOut.value.1)]
  {
    trace := [Pipe];
    conn := null;
    if spawn.pipeIn.None? {
      return Returned(NoPipe), null, trace;
    }
    trace := trace + [Pipe];
    if spawn.pipeOut.None? {
      return Returned(NoPipe), null, trace;
    }
    var pipeIn, pipeOut := spawn.pipeIn.value, spawn.pipeOut.value;
    trace := trace + [Fork];
    if spawn.pid < 0 {
      return Returned(NoFork), null, trace;
    } else if spawn.pid == 0 {
      var childActs;
      ending, childActs := RunChild(pipeIn, pipeOut, argv, spawn);
      WritesNothingConcat(trace, childActs);
      trace := trace + childActs;
      return ending, null, trace;
    }
    trace := trace + [Close(pipeIn.0), Close(pipeOut.1)];
    conn := new Connection(pipeOut.0, pipeIn.1, false);
    ending := Returned(Success);
  }

  /**
   * What the remote path of `connect` does, in order: the catui version
   * check (`checked`), then the address checks, then the socket; once
   * connected, `request` is written and the acknowledgement read, and a
   * connection that is not accepted is closed by its destructor. The socket
   * is never closed before the connection exists.
   */
  ghost predicate ServerOutcome(checked: Result<SemVer, ConnectErrorCode>, env: map<string, string>, net: Net,
                                request: Tree, writeOk: bool, ack: Option<Tree>, closeInOk: bool,
                                ending: Ending, conn: Connection?, trace: seq<Action>)
    reads conn
  {
    var fd := net.socketFd;
    var code := if writeOk then AckCode(ack) else NoAck;
    ending.Returned? &&
    (checked.Err? ==> ending.code == checked.error && trace == [GetEnv(VersionVar)]) &&
    (checked.Ok? && RemoteAddress(env).Err? ==>
       ending.code == RemoteAddress(env).error && trace == [GetEnv(VersionVar)] + AddressLookups(env)) &&
    (checked.Ok? && RemoteAddress(env).Ok? && fd == -1 ==>
       ending.code == NoSocket && trace == [GetEnv(VersionVar)] + (AddressLookups(env) + [Socket])) &&
    (checked.Ok? && RemoteAddress(env).Ok? && fd != -1 && !net.connectOk ==>
       ending.code == NoConnect &&
       trace == [GetEnv(VersionVar)] + (AddressLookups(env) + [Socket] + [ConnectUnix(fd, SunPath(env[AddrVar]))])) &&
    (checked.Ok? && RemoteAddress(env).Ok? && fd != -1 && net.connectOk ==>
       var closes := Closes(CloseCalls(fd, fd, closeInOk && fd >= 0));
       ending.code == code &&
       trace == [GetEnv(VersionVar)] + (AddressLookups(env) + [Socket] + [ConnectUnix(fd, SunPath(env[AddrVar]))]) +
                [WriteTree(fd, request)] +
                (if code == Success then [ReadTree(fd)] else if writeOk then [ReadTree(fd)] + closes else closes)) &&
    (conn != null ==> conn.inFd == fd && conn.outFd == fd && conn.remote)
  }

  /**
   * What the install path of `connect` does, in order: read the config at
   * `path`, check it (`loaded`), then pipes and fork; the child runs the
   * installed command and the parent reads the acknowledgement from the
   * child's stdout. A failed pipe or fork leaves what was opened before it
   * open. Nothing is written to the server.
   */
  ghost predicate InstalledOutcome(path: string, loaded: Result<seq<string>, ConnectErrorCode>, spawn: Spawn,
                                   ack: Option<Tree>, closeInOk: bool,
                                   ending: Ending, conn: Connection?, trace: seq<Action>)
    reads conn
  {
    |trace| >= 2 && trace[0] == GetEnv(VersionVar) && trace[1] == ReadFile(path) && WritesNothing(trace) &&
    (loaded.Err? ==> ending == Returned(loaded.error) && |trace| == 2) &&
    (loaded.Ok? ==>
       (ending == Returned(NoPipe) <==> !PipesOk(spawn)) &&
       (ending == Returned(NoFork) <==> PipesOk(spawn) && spawn.pid < 0) &&
       (ending.ChildExit? || ending.ChildExec? <==> PipesOk(spawn) && spawn.pid == 0) &&
       (spawn.pipeIn.None? ==> trace == [GetEnv(VersionVar), ReadFile(path)] + [Pipe]) &&
       (spawn.pipeIn.Some? && spawn.pipeOut.None? ==> trace == [GetEnv(VersionVar), ReadFile(path)] + [Pipe, Pipe]) &&
       (PipesOk(spawn) && spawn.pid < 0 ==> trace == [GetEnv(VersionVar), ReadFile(path)] + [Pipe, Pipe, Fork]) &&
       (PipesOk(spawn) && spawn.pid == 0 ==>
          trace == [GetEnv(VersionVar), ReadFile(path)] +
                   ([Pipe, Pipe, Fork] + ChildTrace(spawn.pipeIn.value, spawn.pipeOut.value, loaded.value, spawn)))) &&
    (loaded.Ok? && PipesOk(spawn) && spawn.pid > 0 ==>
       var input, output := spawn.pipeOut.value.0, spawn.pipeIn.value.1;
       ending == Returned(AckCode(ack)) &&
       trace == [GetEnv(VersionVar), ReadFile(path)] +
                [Pipe, Pipe, Fork, Close(spawn.pipeIn.value.0), Close(spawn.pipeOut.value.1)] +
                (if AckCode(ack) == Success then [ReadTree(input)]
                 else [ReadTree(input)] + Closes(CloseCalls(input, output, closeInOk && input >= 0)))) &&
    (ending.ChildExit? ==> ending.status == ExitFailure) &&
    (ending.ChildExec? ==> loaded.Ok? && |loaded.value| > 0 && ending == ChildExec(loaded.value[0], loaded.value)) &&
    (conn != null ==> PipesOk(spawn) && conn.inFd == spawn.pipeOut.value.0 && conn.outFd == spawn.pipeIn.value.1 &&
                      !conn.remote)
  }

  /**
   * The remote path of `connect`, from its first step: `checked` is the
   * checked `GULACHEK_CATUI_VERSION` and `request` the encoded handshake.
   */
  method ConnectToServer(checked: Result<SemVer, ConnectErrorCode>, env: map<string, string>, net: Net,
                         request: Tree, writeOk: bool, ack: Option<Tree>, closeInOk: bool, closeOutOk: bool)
      returns (ending: Ending, conn: Connection?, trace: seq<Action>)
    requires checked.Err? ==> checked.error != Success && checked.error != NoCatuiVersion && checked.error != BadProtocol
    ensures ServerOutcome(checked, env, net, request, writeOk, ack, closeInOk, ending, conn, trace)
    ensures ending != Returned(NoCatuiVersion) && ending != Returned(BadProtocol)
    ensures conn != null <==> ending == Returned(Success)
    ensures conn != null ==> fresh(conn) && conn.closeLog == [] && conn.Owns()
  {
    trace := [GetEnv(VersionVar)];
    if checked.Err? {
      return Returned(checked.error), null, trace;
    }
    var code, c, acts := ConnectRemote(env, net);
    trace := trace + acts;
    if code != Success {
      return Returned(code), null, trace;
    }
    trace := trace + [WriteTree(c.outFd, request)];
    if !writeOk {
      var i, o := c.inFd, c.outFd;
      c.Dispose(closeInOk && i >= 0, closeOutOk && o >= 0);
      trace := trace + Closes(CloseCalls(i, o, closeInOk && i >= 0));
      return Returned(NoAck), null, trace;
    }
    var answer, ackActs := AwaitAck(c, ack, closeInOk, closeOutOk);
    trace := trace + ackActs;
    if answer != Success {
      return Returned(answer), null, trace;
    }
    return Returned(Success), c, trace;
  }

  /**
   * The install path of `connect`, from its first step: `path` is where the
   * config was read and `loaded` the result of reading and checking it.
   */
  method ConnectToInstalled(path: string, loaded: Result<seq<string>, ConnectErrorCode>, spawn: Spawn,
                            ack: Option<Tree>, closeInOk: bool, closeOutOk: bool)
      returns (ending: Ending, conn: Connection?, trace: seq<Action>)
    requires loaded.Err? ==> loaded.error != Success && loaded.error != NoCatuiVersion && loaded.error != BadProtocol
    ensures InstalledOutcome(path, loaded, spawn, ack, closeInOk, ending, conn, trace)
    ensures ending != Returned(NoCatuiVersion) && ending != Returned(BadProtocol)
    ensures conn != null <==> ending == Returned(Success)
    ensures conn != null ==> fresh(conn) && conn.closeLog == [] && conn.Owns()
  {
    trace := [GetEnv(VersionVar), ReadFile(path)];
    if loaded.Err? {
      return Returned(loaded.error), null, trace;
    }
    var forked, c, acts := ForkServer(loaded.value, spawn);
    WritesNothingConcat(trace, acts);
    trace := trace + acts;
    if forked != Returned(Success) {
      return forked, null, trace;
    }
    var answer, ackActs := AwaitAck(c, ack, closeInOk, closeOutOk);
    WritesNothingConcat(trace, ackActs);
    trace := trace + ackActs;
    if answer != Success {
      return Returned(answer), null, trace;
    }
    return Returned(Success), c, trace;
  }

  class Handshake {
    var protocol: string
    var version: SemVer

    /** `handshake(protocol, version)`. */
    constructor (protocol: string, version: SemVer)
      ensures this.protocol == protocol && this.version == version
    {
      this.protocol := protocol;
      this.version := version;
    }

    /** `handshake()`: the defaults are the empty protocol and version 0.0.0. */
    constructor Default()
      ensures protocol == "" && version == SemVer(0, 0, 0)
    {
      protocol := "";
      version := SemVer(0, 0, 0);
    }

    function Protocol(): string
      reads this
    {
      protocol
    }

    function Version(): SemVer
      reads this
    {
      version
    }

    /** `gtree_encode`: the pair (protocol, version), which decodes back to this handshake. */
    function Encode(): (t: Tree)
      reads this
      ensures DecodeFields(t) == Ok((protocol, version))
    {
      FieldsRoundTrip(protocol, version);
      EncodeFields(protocol, version)
    }

    /** `gtree_decode`: both fields are assigned only after the pair decodes. */
    method Decode(t: Tree) returns (err: Option<string>)
      modifies this
      ensures err.None? <==> DecodeFields(t).Ok?
      ensures err.None? ==> (protocol, version) == DecodeFields(t).value
      ensures err.Some? ==> protocol == old(protocol) && version == old(version)
    {
      var r := DecodeFields(t);
      if r.Err? {
        return Some("failed to decode handshake");
      }
      protocol, version := r.value.0, r.value.1;
      err := None;
    }

    /**
     * `connect(pconn)`. With `GULACHEK_CATUI_VERSION` set it takes the
     * remote path, checking that variable's version and writing this
     * handshake to the server; otherwise the install path, reading the
     * config at `ConfigPath` under `root`. The codes `no_catui_version` and
     * `bad_protocol` are never produced.
     */
    method Connect(env: map<string, string>, root: string, net: Net, writeOk: bool,
                   config: Option<map<string, Tree>>, spawn: Spawn, ack: Option<Tree>,
                   closeInOk: bool, closeOutOk: bool)
        returns (ending: Ending, conn: Connection?, trace: seq<Action>)
      ensures |trace| >= 1 && trace[0] == GetEnv(VersionVar)
      ensures ending != Returned(NoCatuiVersion) && ending != Returned(BadProtocol)
      ensures VersionVar in env ==>
                ServerOutcome(CheckCatuiVersion(Parse(env[VersionVar])), env, net, EncodeFields(protocol, version),
                              writeOk, ack, closeInOk, ending, conn, trace)
      ensures VersionVar !in env ==>
                InstalledOutcome(ConfigPath(root, protocol, version.major), LoadConfig(config, version),
                                 spawn, ack, closeInOk, ending, conn, trace)
      ensures conn != null <==> ending == Returned(Success)
      ensures conn != null ==> fresh(conn) && conn.closeLog == [] && conn.Owns()
    {
      if VersionVar in env {
        var checked := CheckCatuiVersion(Parse(env[VersionVar]));
        ending, conn, trace := ConnectToServer(checked, env, net, Encode(), writeOk, ack, closeInOk, closeOutOk);
      } else {
        var path := ConfigPath(root, protocol, version.major);
        var loaded := LoadConfig(config, version);
        ending, conn, trace := ConnectToInstalled(path, loaded, spawn, ack, closeInOk, closeOutOk);
      }
    }
  }
}
