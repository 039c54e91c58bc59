/**
 * The operating-system and library calls the handshake code makes, as
 * observable steps. A connect routine returns the list of steps it took,
 * in order, so that the order of its checks can be stated; the result of
 * each step is an input to the routine (an oracle), never computed here.
 */
module Sys {
  import opened GTree

  datatype Action =
    | GetEnv(name: string)
    | Socket
    | ConnectUnix(fd: int, path: string)
    | WriteTree(fd: int, tree: Tree)
    | ReadTree(fd: int)
    | ReadFile(path: string)
    | Pipe
    | Fork
    | Dup2(fd: int, target: int)
    | Close(fd: int)
    | ExecV(path: string, argv: seq<string>)
    | Exit(status: int)
    | MsgSend(fd: int, msg: string)
    | MsgRecv(fd: int)
    | RecvFd(fd: int)

  /** The environment variables the C++ client reads. */
  const VersionVar: string := "GULACHEK_CATUI_VERSION"
  const AddrTypeVar: string := "GULACHEK_CATUI_ADDR_TYPE"
  const AddrVar: string := "GULACHEK_CATUI_ADDR"

  const StdinFileno: int := 0
  const StdoutFileno: int := 1
  const ExitFailure: int := 1

  /** `sizeof(sockaddr_un::sun_path)` on the BSD/macOS layout that has `sun_len`. */
  const SunPathSize: nat := 104

  /**
   * `strlcpy(server.sun_path, addr, sizeof(server.sun_path))`: the address
   * cut to leave room for the terminating NUL.
   */
  function SunPath(addr: string): (p: string)
    ensures |p| < SunPathSize && p <= addr
    ensures |addr| < SunPathSize ==> p == addr
  {
    if |addr| < SunPathSize then addr else addr[..SunPathSize - 1]
  }

  /** The `close` steps for a list of descriptors, in order. */
  function Closes(fds: seq<int>): (acts: seq<Action>)
    ensures |acts| == |fds|
    ensures forall i :: 0 <= i < |fds| ==> acts[i] == Close(fds[i])
  {
    if fds == [] then [] else [Close(fds[0])] + Closes(fds[1..])
  }

  /** Does a trace open a socket? */
  predicate OpensSocket(trace: seq<Action>) {
    exists i :: 0 <= i < |trace| && trace[i] == Socket
  }

  /** Does a trace close nothing at all? */
  predicate ClosesNothing(trace: seq<Action>) {
    forall i :: 0 <= i < |trace| ==> !trace[i].Close?
  }

  /** Does a trace write no tree? */
  predicate WritesNothing(trace: seq<Action>) {
    forall i :: 0 <= i < |trace| ==> !trace[i].WriteTree?
  }

  lemma WritesNothingConcat(a: seq<Action>, b: seq<Action>)
    requires WritesNothing(a) && WritesNothing(b)
    ensures WritesNothing(a + b)
  {
    forall i | 0 <= i < |a + b| ensures !(a + b)[i].WriteTree? {
      if i >= |a| {
        assert (a + b)[i] == b[i - |a|];
      }
    }
  }
}
