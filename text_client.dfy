/**
 * The C client (src/catui.c): the JSON connect request
 * `{"catui-version":…,"protocol":…,"version":…}` written into a
 * caller-supplied buffer, the address of the catui server, and
 * `catui_connect`, which sends a request over a unix socket and reads the
 * acknowledgement frame.
 */
module TextClient {
  import opened Wrappers
  import opened Decimal
  import opened Semver
  import opened Json
  import opened CString
  import opened Sys
  import Handshakes

  /** `catui_connect_request`. */
  datatype Request = Request(catuiVersion: SemVer, protocol: string, version: SemVer)

  /** The answers of the cJSON allocations `catui_encode_connect` makes, and the print oracle. */
  datatype CJson = CJson(objectOk: bool, stringsOk: bool, addItemsOk: bool, tight: bool)

  /**
   * `semver_encode`: `snprintf(buf, size, "%u.%u.%u", …)` succeeds when the
   * whole text and its NUL fit in `size` bytes. `%u` never fails, so the
   * `0 <= n` half of the check always holds.
   */
  function SemverEncode(v: SemVer, size: nat): (r: Option<string>)
    ensures r.Some? <==> |Format(v)| < size
    ensures r.Some? ==> r.value == Format(v)
  {
    var text := Format(v);
    if |text| < size then Some(text) else None
  }

  /** The members of the request object, in the order they are added. */
  function ConnectMembers(req: Request): seq<Member> {
    [Member("catui-version", Format(req.catuiVersion)), Member("protocol", req.protocol),
     Member("version", Format(req.version))]
  }

  /** The unformatted JSON text of the request. */
  function ConnectText(req: Request): string {
    Print(ConnectMembers(req))
  }

  /**
   * `catui_encode_connect(req, buf, bufsz, msgsz)` with `bufsz == buf.Length`.
   * `prevMsgsz` is `*msgsz` on entry and `msgsz` its value on return. Any
   * failure before the print returns 0 with the buffer and `*msgsz`
   * untouched; a print that does not fit returns 0 with `*msgsz` untouched.
   */
  method EncodeConnect(req: Request, buf: array<char>, prevMsgsz: nat, versionSize: nat, cjson: CJson)
      returns (ok: bool, msgsz: nat)
    requires Safe(req.protocol)
    modifies buf
    ensures ok <==> cjson.objectOk && SemverEncode(req.catuiVersion, versionSize).Some? &&
                    SemverEncode(req.version, versionSize).Some? && cjson.stringsOk && cjson.addItemsOk &&
                    PrintFits(|ConnectText(req)|, buf.Length, cjson.tight)
    ensures ok ==> Holds(buf, ConnectText(req)) && msgsz == |ConnectText(req)|
    ensures ok ==> buf[|ConnectText(req)| + 1..] == old(buf[|ConnectText(req)| + 1..])
    ensures !ok ==> msgsz == prevMsgsz
    ensures !(cjson.objectOk && SemverEncode(req.catuiVersion, versionSize).Some? &&
              SemverEncode(req.version, versionSize).Some? && cjson.stringsOk && cjson.addItemsOk) ==>
              buf[..] == old(buf[..])
  {
    msgsz := prevMsgsz;
    if !cjson.objectOk {
      return false, msgsz;
    }
    var catuiv := SemverEncode(req.catuiVersion, versionSize);
    if catuiv.None? {
      return false, msgsz;
    }
    var protov := SemverEncode(req.version, versionSize);
    if protov.None? {
      return false, msgsz;
    }
    if !cjson.stringsOk || !cjson.addItemsOk {
      return false, msgsz;
    }
    var members := [Member("catui-version", catuiv.value), Member("protocol", req.protocol),
                    Member("version", protov.value)];
    var text := Print(members);
    if !PrintFits(|text|, buf.Length, cjson.tight) {
      return false, msgsz;
    }
    RequestIsSafe(req);
    PrintHasNoNul(members);
    msgsz := StoreThenMeasure(buf, text);
    ok := true;
  }

  /** Formatted versions are digits and dots, so the request needs no escaping beyond the protocol's. */
  lemma RequestIsSafe(req: Request)
    requires Safe(req.protocol)
    ensures SafeMembers(ConnectMembers(req))
  {
    FormatIsSafe(req.catuiVersion);
    FormatIsSafe(req.version);
  }

  lemma FormatIsSafe(v: SemVer)
    ensures Safe(Format(v))
  {
    var a, b, c := Dec(v.major as nat), Dec(v.minor as nat), Dec(v.patch as nat);
    var s := Format(v);
    forall i | 0 <= i < |s| ensures SafeChar(s[i]) {
      if i < |a| {
        assert s[i] == a[i];
      } else if i == |a| || i == |a| + 1 + |b| {
      } else if i < |a| + 1 + |b| {
        assert s[i] == b[i - |a| - 1];
      } else {
        assert s[i] == c[i - |a| - 2 - |b|];
      }
    }
  }

  /** The request `catui_encode_connect` writes reads back as its three members, in order. */
  lemma EncodedRequestReadsBack(req: Request)
    requires Safe(req.protocol)
    ensures Json.Parse(ConnectText(req)) == Some(ConnectMembers(req))
  {
    RequestIsSafe(req);
    ParsePrint(ConnectMembers(req));
  }

  /** No `u32` has more than ten digits, so the formatted version never needs more than 32 characters. */
  lemma {:induction false} FormatAtMost32(v: SemVer)
    ensures |Format(v)| <= 32
  {
    DecLength(v.major as nat, 10);
    DecLength(v.minor as nat, 10);
    DecLength(v.patch as nat, 10);
    assert Pow10(10) == 10000000000;
  }

  /** A version buffer of at least 33 bytes never makes `semver_encode` fail. */
  lemma SemverEncodeFitsIn33(v: SemVer, size: nat)
    requires size >= 33
    ensures SemverEncode(v, size) == Some(Format(v))
  {
    FormatAtMost32(v);
  }

  // ---------------------------------------------------------------- the client of src/catui.c

  const AddressVar: string := "CATUI_ADDRESS"
  const DefaultAddress: string := "~/Library/Caches/TemporaryItems/catui/load_balancer.sock"

  /** `catui_address`: `CATUI_ADDRESS` when it is set, the fixed macOS cache path otherwise. */
  function CatuiAddress(env: map<string, string>): (addr: string)
    ensures AddressVar in env ==> addr == env[AddressVar]
    ensures AddressVar !in env ==> addr == DefaultAddress
  {
    if AddressVar in env then env[AddressVar] else DefaultAddress
  }

  /** The text `catui_connect` prints with `snprintf`: a hand-written request for catui version 0.1.0. */
  function RequestText(proto: string, semver: string): string {
    "{\"catui-version\":\"0.1.0\",\"protocol\":\"" + proto + "\",\"version\":\"" + semver + "\"}"
  }

  /**
   * `catui_connect(proto, semver, err)`: `sock` is the answer of
   * `unix_socket`, `connectOk` of `unix_connect`, `sendOk` of
   * `msgstream_fd_send` and `recv` the size of the received frame (`None`
   * on a receive error). The socket is returned only when the
   * acknowledgement is an empty frame; nothing is ever closed.
   */
  method CatuiConnect(proto: string, semver: string, env: map<string, string>, sock: int, connectOk: bool,
                      sendOk: bool, recv: Option<nat>)
      returns (r: int, trace: seq<Action>)
    ensures sock != -1 && connectOk && sendOk && recv == Some(0) ==> r == sock
    ensures !(sock != -1 && connectOk && sendOk && recv == Some(0)) ==> r == -1
    ensures sock == -1 ==> trace == [GetEnv(AddressVar), Socket]
    ensures sock != -1 && !connectOk ==> trace == [GetEnv(AddressVar), Socket, ConnectUnix(sock, CatuiAddress(env))]
    ensures sock != -1 && connectOk && !sendOk ==>
              trace == [GetEnv(AddressVar), Socket, ConnectUnix(sock, CatuiAddress(env)), MsgSend(sock, RequestText(proto, semver))]
    ensures sock != -1 && connectOk && sendOk ==>
              trace == [GetEnv(AddressVar), Socket, ConnectUnix(sock, CatuiAddress(env)), MsgSend(sock, RequestText(proto, semver)),
                        MsgRecv(sock)]
  {
    var addr := CatuiAddress(env);
    trace := [GetEnv(AddressVar), Socket];
    if sock == -1 {
      return -1, trace;
    }
    trace := trace + [ConnectUnix(sock, addr)];
    if !connectOk {
      return -1, trace;
    }
    trace := trace + [MsgSend(sock, RequestText(proto, semver))];
    if !sendOk {
      return -1, trace;
    }
    trace := trace + [MsgRecv(sock)];
    if recv.None? {
      return -1, trace;
    }
    // a zero-length message is the acknowledgement
    if recv.value != 0 {
      return -1, trace;
    }
    r := sock;
  }

  // ---------------------------------------------------------------- properties

  /** The printed request, written out: the three members in order, no white space. */
  lemma ConnectTextLayout(req: Request)
    ensures ConnectText(req) ==
            "{\"catui-version\":\"" + Format(req.catuiVersion) + "\",\"protocol\":\"" + req.protocol +
            "\",\"version\":\"" + Format(req.version) + "\"}"
  {
    PrintedRequest(Format(req.catuiVersion), req.protocol, Format(req.version));
  }

  lemma PrintedRequest(x: string, y: string, z: string)
    ensures Print([Member("catui-version", x), Member("protocol", y), Member("version", z)]) ==
            "{\"catui-version\":\"" + x + "\",\"protocol\":\"" + y + "\",\"version\":\"" + z + "\"}"
  {
    var ms := [Member("catui-version", x), Member("protocol", y), Member("version", z)];
    var a, b, c := MemberText(ms[0]), MemberText(ms[1]), MemberText(ms[2]);
    assert ms[1..][1..] == [ms[2]];
    assert MembersText(ms[1..]) == b + "," + c;
    assert MembersText(ms) == a + "," + (b + "," + c);
    PrintedTriple(x, y, z, a, b, c);
  }

  lemma PrintedTriple(x: string, y: string, z: string, a: string, b: string, c: string)
    requires a == "\"catui-version\":\"" + x + "\""
    requires b == "\"protocol\":\"" + y + "\""
    requires c == "\"version\":\"" + z + "\""
    ensures "{" + (a + "," + (b + "," + c)) + "}" ==
            "{\"catui-version\":\"" + x + "\",\"protocol\":\"" + y + "\",\"version\":\"" + z + "\"}"
  {
    Nest("{", "\"catui-version\":\"", x, "\"", ",", "\"protocol\":\"", y, "\"version\":\"", z, "}");
    assert "{" + "\"catui-version\":\"" == "{\"catui-version\":\"";
    assert "\"" + "," + "\"protocol\":\"" == "\",\"protocol\":\"";
    assert "\"" + "," + "\"version\":\"" == "\",\"version\":\"";
    assert "\"" + "}" == "\"}";
    Flatten("{\"catui-version\":\"", x, "\",\"protocol\":\"", y, "\",\"version\":\"", z, "\"}");
  }

  /** Three members `k + v + q` joined by `cm` and enclosed in `o`, `cl`, with the literal neighbours put together. */
  lemma Nest(o: string, k1: string, x: string, q: string, cm: string, k2: string, y: string, k3: string, z: string,
             cl: string)
    ensures o + ((k1 + x + q) + cm + ((k2 + y + q) + cm + (k3 + z + q))) + cl ==
            (o + k1) + (x + ((q + cm + k2) + (y + ((q + cm + k3) + (z + (q + cl))))))
  {
  }

  lemma Flatten(p1: string, x: string, p2: string, y: string, p3: string, z: string, p4: string)
    ensures p1 + (x + (p2 + (y + (p3 + (z + p4))))) == p1 + x + p2 + y + p3 + z + p4
  {
  }

  /** The request takes 47 characters besides the two versions and the protocol. */
  lemma ConnectTextLength(req: Request)
    ensures |ConnectText(req)| == 47 + |Format(req.catuiVersion)| + |req.protocol| + |Format(req.version)|
  {
    ConnectTextLayout(req);
  }

  /** The request `catui_connect` prints by hand is the one `catui_encode_connect` builds for catui 0.1.0. */
  lemma RequestTextIsEncodedRequest(proto: string, v: SemVer)
    ensures RequestText(proto, Format(v)) == ConnectText(Request(Handshakes.ImplCatuiVersion, proto, v))
  {
    ImplFormat();
    RequestPrefix();
    PrintedRequest("0.1.0", proto, Format(v));
  }

  lemma ImplFormat()
    ensures Format(Handshakes.ImplCatuiVersion) == "0.1.0"
  {
  }

  lemma RequestPrefix()
    ensures "{\"catui-version\":\"0.1.0\",\"protocol\":\"" == "{\"catui-version\":\"" + "0.1.0" + "\",\"protocol\":\""
  {
  }

  /** The sample request of the JSON test takes 73 characters and reads back as its three members. */
  lemma SampleRequest()
    ensures |ConnectText(Request(SemVer(1, 2, 3), "com.example.test", SemVer(4, 5, 6)))| == 73
    ensures Json.Parse(ConnectText(Request(SemVer(1, 2, 3), "com.example.test", SemVer(4, 5, 6)))) ==
            Some([Member("catui-version", "1.2.3"), Member("protocol", "com.example.test"), Member("version", "4.5.6")])
  {
    var req := Request(SemVer(1, 2, 3), "com.example.test", SemVer(4, 5, 6));
    assert Format(req.catuiVersion) == "1.2.3";
    assert Format(req.version) == "4.5.6";
    ConnectTextLength(req);
    EncodedRequestReadsBack(req);
  }

  /** A 50-byte buffer is too small for the sample request, whatever cJSON's slack. */
  lemma SampleRequestNeedsMoreThan50(tight: bool)
    ensures !PrintFits(|ConnectText(Request(SemVer(1, 2, 3), "com.example.test", SemVer(4, 5, 6)))|, 50, tight)
  {
    SampleRequest();
  }
}
