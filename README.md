# catui client handshake, modelled in Dafny

catui lets a program ask for a protocol server by protocol name and
semantic version, and be handed a channel to that server. This project
models the client side of that handshake, the semantic-version type it
rests on, and the small C helpers a server uses to answer. The model
covers:

- **The `semver` type.** Three unsigned 32-bit components, its
  lexicographic order, the `can_use` / `can_support` compatibility rule
  (an unstable 0.x version only works with itself), `major.minor.patch`
  formatting, and the `istringstream` parser with every stream state it
  goes through.

- **The `connection` object.** It holds the two descriptors of a channel.
  Its `close` resets both to -1 before calling the OS, so closing twice
  never closes a real descriptor again.

- **`handshake::connect` (C++).**
  - When the catui server announced itself in the environment, it checks
    that server's catui version, opens and connects a unix socket, writes
    the (protocol, version) request and reads the acknowledgement.
  - Otherwise it reads the installed `config.gt` for the protocol's major
    version. It checks the catui version, the protocol version and `exec`
    fields in that file, then forks the configured program over two pipes
    and reads the acknowledgement from the child.
  - A connection that is not accepted is closed by its destructor.

- **The older `catui::connect` (C++).** It follows the same remote path,
  but it checks the catui version against 0.1.0 only after it has found
  the address type, although it reads and parses the version first, and it
  never closes the socket it leaves in `*fd`.

- **The C client.** `catui_encode_connect` writes the JSON request
  `{"catui-version":…,"protocol":…,"version":…}` into a caller's buffer.
  `catui_connect` sends a hand-written request over a unix socket and
  waits for an empty acknowledgement frame.

- **The C server helpers.** They read the load-balancer descriptor from
  `CATUI_LOAD_BALANCER_FD`, receive a client descriptor, and send the
  acknowledgement: an empty frame accepts, `{"error":…}` refuses.

System calls, environment lookups, file reads and the cJSON allocator are
oracles: each method takes their answers as parameters. Each method
returns the trace of the observable steps it took (`Sys.Action`). So the
contracts state what is returned, and also which calls happen, in which
order, and which descriptors are closed.

Modules: `Wrappers` (Option/Result), `Decimal` (decimal text),
`GTree` (the structured encoding's trees), `Semver`, `Sys` (trace
actions), `Channel` (`connection`), `Json` (the cJSON text of string
objects), `CString` (NUL-terminated buffers), `Handshakes`
(`handshake.cpp`), `Client` (`catui.cpp`), `TextClient` (`catui.c`) and
`TextServer` (`catui_server.c`).

## Model

| member | source | states |
|---|---|---|
| Semver.ToTree | src/semver.cpp:22-27 | definition: the three components as a tuple of unsigned integers; its properties are in `FromTree` and `TreeRoundTrip` |
| Semver.FromTree | src/semver.cpp:29-38 | decoding succeeds exactly for a 3-tuple of unsigned numbers below 2^32 |
| Semver.TreeRoundTrip | src/semver.cpp:22-38 | decoding an encoded version gives it back, and every decodable tree is the encoding of what it decodes to |
| Semver.CanUse | src/semver.cpp:40-53 | definition: majors must match, major 0 needs minor and patch equal, otherwise the api's minor must be newer or, at the same minor, its patch not older; its properties are in `CanUseByOrder`, `CanUseReflexiveAndMirrored` and `CanUseTransitive` |
| Semver.CanSupport | src/semver.cpp:55-58 | definition: `can_use` with the arguments swapped; its properties are in `CanUseReflexiveAndMirrored` |
| Semver.CanUseByOrder | src/semver.cpp:40-53 | `can_use` holds iff the majors agree and, at major 0, the versions are equal, above it the consumer is not newer than the api in the version order |
| Semver.CanUseReflexiveAndMirrored | src/semver.cpp:40-58 | every version can use itself; `can_support(a, b)` is `can_use(b, a)` |
| Semver.CanUseTransitive | src/semver.cpp:40-53 | if a can use b and b can use c then a can use c |
| Semver.Compare | src/semver.cpp:86-104 | definition: the member-wise `<=>`, major first, then minor, then patch; its properties are in `CompareIsKeyOrder` and `CompareIsTotalOrder` |
| Semver.Same | src/semver.cpp:106-109 | definition: `==` as `<=>` giving equal; its property is in `SameIffEqual` |
| Semver.Format | src/semver.cpp:81-84 | definition: the three decimals joined by dots; its properties are in `ParseFormat`, `TextClient.FormatIsSafe` and `TextClient.FormatAtMost32` |
| Semver.CompareIsKeyOrder | src/semver.cpp:86-104 | `<=>` is the numeric order of the components read as base-2^32 digits, i.e. lexicographic on (major, minor, patch) |
| Semver.CompareIsTotalOrder | src/semver.cpp:86-104 | `<=>` is antisymmetric and transitive for both `<` and `<=` |
| Semver.SameIffEqual | src/semver.cpp:106-109 | `==` holds exactly when all three components are equal |
| Semver.ExtractInt | src/semver.cpp:64-71 | one `ss >> n` keeps the stream text, the position within it, and an `int32_t` value within range |
| Semver.ReadNumber | src/semver.cpp:67-71 | the number conversion always stores a value within `int32_t` range |
| Semver.ExtractChar | src/semver.cpp:68-70 | one `ss >> dot` keeps the stream text and a valid position |
| Semver.Extracted | src/semver.cpp:62-71 | definition: the five extractions `>> major`, `>> dot`, `>> minor`, `>> dot`, `>> patch` from -1; its properties are in `ExtractedSigned` and the `Parse…` lemmas |
| Semver.Parse | src/semver.cpp:60-79 | a parsed version never has a component above 2^31-1 |
| Semver.ExtractedSigned | src/semver.cpp:62-71 | the three numbers read from signed decimals with separators are the clamped values; once a number is out of range the stream fails and later numbers stay -1 |
| Semver.ParseSigned | src/semver.cpp:60-79 | with any non-blank, non-digit, non-sign separators and any trailing text not starting with a digit: success iff major and minor are in 0..2^31-1 and patch is at least 0, and then the patch is clamped to 2^31-1 |
| Semver.ParseFormat | src/semver.cpp:60-84 | parsing a formatted version gives it back if and only if every component is at most 2^31-1 |
| Semver.ParseMissingPatch | src/semver.cpp:60-79 | two numbers and one separator, with nothing after, are an error (patch stays -1) |
| Semver.ParseMissingMinor | src/semver.cpp:60-79 | a single number, alone or followed by one separator, is an error (minor stays -1) |
| Semver.ParseTrailingSeparator | src/semver.cpp:60-79 | two numbers with a separator after each and nothing after that are an error (patch stays -1) |
| Semver.ParseBasicVersion | test/semver_test.cpp:125-134 | "1.2.3" parses to 1.2.3 and 1.2.3 formats as "1.2.3" |
| Semver.ParseNegativeMajorIsError | test/semver_test.cpp:136-142 | "-1.2.3" is an error |
| Semver.ParseNegativeMinorIsError | test/semver_test.cpp:144-150 | "1.-2.3" is an error |
| Semver.ParseNegativePatchIsError | test/semver_test.cpp:152-158 | "1.2.-3" is an error |
| Semver.ParseShortIsError | test/semver_test.cpp:160-166 | "1.2" is an error |
| Semver.ParseEmptyIsError | test/semver_test.cpp:168-174 | "" is an error |
| Semver.ParseWordIsError | src/semver.cpp:60-79 | "cookie-monster", which has no leading number, is an error |
| Semver.ParseHugeMajorIsError | test/semver_test.cpp:176-182 | a major above 2^31-1 is an error (the stream fails, so minor and patch stay -1) |
| Semver.ParseHugeMinorIsError | src/semver.cpp:64-74 | a minor above 2^31-1 is an error (the patch is never read) |
| Semver.ParseClampsHugePatch | src/semver.cpp:64-77 | a patch above 2^31-1 is not an error: it is read as 2^31-1 |
| Decimal.Dec | src/semver.cpp:81-84 | the decimal text is a non-empty run of digits without a leading zero |
| Decimal.ValueOfDec | src/semver.cpp:81-84 | reading the decimal text back gives the number |
| Decimal.DecLength | src/catui.c:78-83 | the decimal of n takes at most k characters exactly when n < 10^k |
| GTree.DecodeString | src/handshake.cpp:260-266 | a string decodes exactly from a string tree, and only that one |
| GTree.EncodeStrings | src/handshake.cpp:208-214 | a string vector is a tuple with one string child per element, in order |
| GTree.DecodeStrings | src/handshake.cpp:208-214 | a vector decodes exactly from a tuple of strings, element by element |
| GTree.StringsRoundTrip | src/handshake.cpp:208-214 | the vector encoding and decoding are inverse in both directions |
| Sys.SunPath | src/handshake.cpp:79-83 | `strlcpy` into `sun_path` keeps a prefix of the address shorter than the field, and the whole address when it fits |
| Sys.Closes | src/connection.cpp:35-42 | one `close` step per descriptor, in order |
| Channel.CloseCalls | src/connection.cpp:30-50 | `close` passes `in` first, then `out` only when `in` closed and `out` differs |
| Channel.CloseKeepsNoDoubleClose | src/connection.cpp:30-50 | closing descriptors the object still owns never closes a real descriptor twice |
| Channel.ReclosePassesOnlyMinusOne | src/connection.cpp:32-35 | once both fields are -1, a close passes only -1 to the OS |
| Channel.Connection.constructor | include/gulachek/catui/connection.hpp:11-19 | the fields are the arguments and nothing has been closed |
| Channel.Connection.In | src/connection.cpp:12-13 | definition: the stored input descriptor; its properties are in the setters and `Close` |
| Channel.Connection.Out | src/connection.cpp:18-19 | definition: the stored output descriptor; its properties are in the setters and `Close` |
| Channel.Connection.IsRemote | src/connection.cpp:24-25 | definition: the stored remote flag; its properties are in `SetRemote` |
| Channel.Connection.Default | include/gulachek/catui/connection.hpp:11-19 | the defaults are -1, -1 and not remote |
| Channel.Connection.SetIn | src/connection.cpp:15-16 | only the input descriptor changes |
| Channel.Connection.SetOut | src/connection.cpp:21-22 | only the output descriptor changes |
| Channel.Connection.SetRemote | src/connection.cpp:27-28 | only the remote flag changes |
| Channel.Connection.Close | src/connection.cpp:30-50 | both fields become -1; the OS sees exactly `CloseCalls`; success iff `in` closed and (`out` equals `in` or closed); ownership is kept |
| Channel.Connection.Dispose | src/connection.cpp:7-10 | the destructor performs `close` and drops its result |
| Channel.CloseThenDestroy | src/connection.cpp:7-50 | an explicit close followed by the destructor adds only -1 to the close log |
| Json.Print | src/catui.c:120 | definition: the unformatted text `cJSON_PrintPreallocated` gives for an object of string members; its properties are in `ParsePrint` and `PrintHasNoNul` |
| Json.PrintFits | src/catui.c:120-121 | a print that succeeds left room for the NUL; 5 bytes of slack always suffice |
| Json.ParsePrint | src/catui.c:111-121 | the printed object of JSON-safe string members reads back as exactly those members, in order |
| Json.PrintHasNoNul | src/catui.c:120-125 | the printed text has no NUL, so `strlen` of the buffer is its length |
| CString.Store | src/catui.c:120 | the buffer starts with the text and a NUL, and the bytes after the NUL are untouched |
| CString.StrLen | src/catui.c:125 | `strlen` is the index of the first NUL |
| CString.StoreThenMeasure | src/catui.c:120-125 | `strlen` after the print gives the length of the printed text |
| Handshakes.ImplUsesOnlyItself | src/handshake.cpp:126-147 | the implementation's catui version 0.1.0 can use a version iff it is 0.1.0 |
| Handshakes.EncodeFields | src/handshake.cpp:279-284 | definition: the pair (protocol, version); its properties are in `DecodeFields` and `FieldsRoundTrip` |
| Handshakes.DecodeFields | src/handshake.cpp:286-295 | whatever decodes is the encoding of the decoded (protocol, version) |
| Handshakes.FieldsRoundTrip | src/handshake.cpp:279-295 | decoding an encoded handshake gives back its protocol and version |
| Handshakes.ConfigPath | src/handshake.cpp:164-166 | definition: `root / protocol / major / "config.gt"`; its properties are in `ConfigPathLayout` and `AbsoluteProtocolIgnoresRoot` |
| Handshakes.ConfigPathLayout | src/handshake.cpp:164-166 | with a relative protocol name, the config path is `root/protocol/major/config.gt` |
| Handshakes.AbsoluteProtocolIgnoresRoot | src/handshake.cpp:164-166 | an absolute protocol name replaces the install root altogether |
| Handshakes.CheckCatuiVersion | src/handshake.cpp:133-147 | no-parse iff the version does not parse; incompatible iff it parses to anything but 0.1.0; success only for 0.1.0 |
| Handshakes.ReadVersion | src/handshake.cpp:176-198 | definition: `dict.read` of a version, an error for a missing key or a tree that is not a version; used by `CheckConfig` |
| Handshakes.ReadStrings | src/handshake.cpp:208-214 | definition: `dict.read` of a list of strings, an error for a missing key or a tree that is not one; used by `CheckConfig` |
| Handshakes.CheckConfig | src/handshake.cpp:176-214 | each config error code holds exactly when the earlier checks passed and its own check failed; on success the result is the `exec` vector |
| Handshakes.LoadConfig | src/handshake.cpp:169-174 | no-config iff the file could not be read; otherwise the config checks decide |
| Handshakes.ArgvSeenRaw | src/handshake.cpp:101-109 | `execv` sees exactly the argument list, up to the terminating null |
| Handshakes.FillRawArgv | src/handshake.cpp:101-107 | the raw vector holds every argument in order, then a null |
| Handshakes.Exec | src/handshake.cpp:96-117 | an empty list fails before any call; otherwise `execv(argv[0], argv)` runs and the image is replaced iff it succeeds |
| Handshakes.RemoteAddress | src/handshake.cpp:45-69 | each address error holds exactly when its variable is missing or wrong; success returns `GULACHEK_CATUI_ADDR` |
| Handshakes.ConnectRemote | src/handshake.cpp:40-94 | error codes by case with the exact lookups, `socket` and `connect` steps; nothing is closed; a connection exists iff success, and it is a fresh remote one on the socket |
| Handshakes.AckCode | src/handshake.cpp:260-273 | no-ack iff nothing or a non-string was read; rejected iff a non-empty string; success exactly for the empty string |
| Handshakes.AwaitAck | src/handshake.cpp:260-276 | reads the input descriptor; on anything but success the destructor closes both descriptors (`CloseCalls`) |
| Handshakes.ChildTrace | src/handshake.cpp:231-251 | the child's system calls write nothing to the server (no `WriteTree`; the stderr messages are not modelled), start with the `dup2` onto stdin, and end in `exit` exactly when a `dup2` or the `execv` failed or there was no command |
| Handshakes.RunChild | src/handshake.cpp:231-251 | the child's exact dup2/close/execv steps (its trace is `ChildTrace`); any failure exits with `EXIT_FAILURE`; it becomes the installed program iff both dups and exec succeed |
| Handshakes.ForkServer | src/handshake.cpp:216-257 | no-pipe iff a pipe failed (the second is not tried after the first fails); no-fork iff fork failed, with trace pipe, pipe, fork and all four pipe ends left open; child or parent by pid, the child's trace being pipe, pipe, fork and then `ChildTrace`; the parent closes the child's ends and keeps a local connection on `pipe_out[0]` / `pipe_in[1]`; nothing is written to the server (no `WriteTree`) |
| Handshakes.ServerOutcome | src/handshake.cpp:130-161 | definition: the remote path's code and exact trace for every case, then the ack read of lines 260-276; this is the contract of `ConnectToServer` and `Handshake.Connect` |
| Handshakes.InstalledOutcome | src/handshake.cpp:162-276 | definition: the install path's code and exact trace for every case, with nothing written to the server; this is the contract of `ConnectToInstalled` and `Handshake.Connect` |
| Handshakes.ConnectToServer | src/handshake.cpp:130-161 | the remote path: version check, address checks, socket, connect, request written, ack read, each with its code and exact trace; a failed write or ack closes the connection; a connection is returned iff success |
| Handshakes.ConnectToInstalled | src/handshake.cpp:162-276 | the install path: config read and checks, pipes, fork, ack read from the child's stdout; the exact trace after each failed pipe, a failed fork, in the child and in the parent; nothing is written to the server (no `WriteTree`); a connection is returned iff success |
| Handshakes.Handshake.constructor | include/gulachek/catui/handshake.hpp:20-26 | the fields are the arguments |
| Handshakes.Handshake.Default | include/gulachek/catui/handshake.hpp:20-26 | the defaults are the empty protocol and 0.0.0 |
| Handshakes.Handshake.Protocol | src/handshake.cpp:34-35 | definition: the stored protocol; its properties are in the constructors and `Handshake.Decode` |
| Handshakes.Handshake.Version | src/handshake.cpp:37-38 | definition: the stored version; its properties are in the constructors and `Handshake.Decode` |
| Handshakes.Handshake.Encode | src/handshake.cpp:279-284 | the encoded handshake decodes back to its protocol and version |
| Handshakes.Handshake.Decode | src/handshake.cpp:286-295 | succeeds iff the pair decodes, and then the fields are the decoded pair; on failure both fields are unchanged |
| Handshakes.Handshake.Connect | src/handshake.cpp:119-277 | with `GULACHEK_CATUI_VERSION` set, the remote path with this handshake as the request; otherwise the install path at the protocol's major version; never `no_catui_version` or `bad_protocol`; a fresh connection iff success |
| Client.Checks | src/catui.cpp:26-77 | each error code (no version, no parse, no address type, incompatible, unknown type, no address) holds exactly when the earlier checks passed and its own failed, in the code's order; success returns the address |
| Client.Lookups | src/catui.cpp:26-76 | the version is always looked up first; all three variables are looked up iff the checks reach the address |
| Client.ReplyCode | src/catui.cpp:112-127 | no-ack iff nothing or a non-string was read; rejected iff a non-empty string; success exactly for the empty string (the reading of `Handshakes.AckCode`, in `catui::connect`'s codes) |
| Client.Connect | src/catui.cpp:21-128 | check errors leave `*fd` alone with the exact lookups; after that `*fd` is the socket; codes and traces by case through the request `(protocol, version)` and the ack read; nothing is closed |
| Client.OwnVersionPassesVersionCheck | src/catui.cpp:34-59 | a server announcing 0.1.0 passes the parse and compatibility checks |
| Client.OtherVersionsAreIncompatible | src/catui.cpp:42-59 | any other printed version, once the address type is set, is incompatible |
| Client.AddressTypeCheckedBeforeCompatibility | src/catui.cpp:42-59 | without an address type even an incompatible version reports `no_addr_type` |
| TextClient.SemverEncode | src/catui.c:78-83 | succeeds iff the formatted version and its NUL fit the buffer, and then gives the formatted text |
| TextClient.EncodeConnect | src/catui.c:85-127 | succeeds iff every allocation, both version encodings and the print succeed; then the buffer holds the request as a C string and `*msgsz` is its length; otherwise `*msgsz` is unchanged, and a failure before the print leaves the buffer unchanged |
| TextClient.RequestIsSafe | src/catui.c:91-109 | formatted versions need no escaping, so the request is JSON-safe when the protocol is |
| TextClient.FormatIsSafe | src/catui.c:78-83 | a formatted version is JSON-safe |
| TextClient.EncodedRequestReadsBack | src/catui.c:111-121 | the request text reads back as its three members, in the order they were added |
| TextClient.FormatAtMost32 | src/catui.c:78-80 | a formatted version never exceeds 32 characters |
| TextClient.SemverEncodeFitsIn33 | src/catui.c:78-83 | a version buffer of at least 33 bytes never makes `semver_encode` fail |
| TextClient.ConnectText | src/catui.c:111-121 | definition: the printed request object; its properties are in `ConnectTextLayout`, `ConnectTextLength` and `EncodedRequestReadsBack` |
| TextClient.RequestText | src/catui.c:51-54 | definition: the request text `catui_connect` formats by hand; its property is in `RequestTextIsEncodedRequest` |
| TextClient.ConnectTextLayout | src/catui.c:111-121 | the printed request, written out member by member without white space |
| TextClient.ConnectTextLength | src/catui.c:111-125 | the request takes 47 characters besides the two versions and the protocol |
| TextClient.RequestTextIsEncodedRequest | src/catui.c:51-54 | the text `catui_connect` prints by hand is the request `catui_encode_connect` builds for catui 0.1.0 |
| TextClient.SampleRequest | test/catui_test.cpp:43-68 | the request for catui 1.2.3, "com.example.test" and 4.5.6 takes 73 characters and reads back as its three members |
| TextClient.SampleRequestNeedsMoreThan50 | test/catui_test.cpp:70-88 | a 50-byte buffer is too small for that request |
| TextClient.CatuiAddress | src/catui.c:25-33 | `CATUI_ADDRESS` when set, the fixed macOS cache socket otherwise |
| TextClient.CatuiConnect | src/catui.c:35-75 | returns the socket iff socket, connect and send succeed and the received frame is empty, -1 otherwise; exact trace by case; nothing is closed |
| TextServer.Wrap32 | src/catui_server.c:19-20 | the conversion to `int` is in range, congruent modulo 2^32 and the identity in range |
| TextServer.Wrap16 | src/catui_server.c:42-71 | the conversion to `int16_t` is in range, congruent modulo 2^16 and the identity in range |
| TextServer.Clamp64 | src/catui_server.c:20 | the library's 64-bit conversion stays within the 64-bit bounds and is the identity inside them |
| TextServer.ServerFd | src/catui_server.c:12-26 | -1 when the variable is unset or `%d` does not match; otherwise the scanned value |
| TextServer.ScanInt | src/catui_server.c:19-20 | definition: `sscanf("%d")`, white space, an optional sign, digits, clamped to 64 bits and truncated to `int`; its properties are in `ScanDecimal` and the `ServerFd…` lemmas |
| TextServer.ScanDecimal | src/catui_server.c:19-20 | white space, an optional `-` and a decimal followed by a non-digit scan to that signed value converted to `int` |
| TextServer.ServerFdReadsDecimal | src/catui_server.c:12-26 | a decimal in `int` range gives that descriptor |
| TextServer.ServerFdWrapsLargeDecimal | src/catui_server.c:19-25 | a larger decimal (up to 2^63-1) keeps only its low 32 bits, as a signed `int` |
| TextServer.ServerFdRejectsNonDecimal | src/catui_server.c:20-23 | a value starting with neither a sign nor a digit gives -1 |
| TextServer.ServerAccept | src/catui_server.c:28-36 | one `recv_fd`; -1 iff it failed, otherwise the received descriptor |
| TextServer.EncodeAck | src/catui_server.c:38-40 | the acknowledgement has length 0 |
| TextServer.EncodeNack | src/catui_server.c:42-72 | -1 with the buffer untouched when an allocation fails; -1 when the print does not fit; otherwise the buffer holds the refusal and the result is its length as an `int16_t` |
| TextServer.EncodeNackChecked | src/catui_server.c:42-72 | non-negative iff encoding succeeds and the length fits an `int16_t`, and then exactly the length of the refusal in the buffer |
| TextServer.ServerAck | src/catui_server.c:74-87 | sends the empty frame; 0 iff the send succeeded, -1 otherwise |
| TextServer.ServerNack | src/catui_server.c:89-103 | calls `EncodeNack` as written; nothing is sent and -1 is returned when encoding fails; otherwise exactly the refusal is sent (its length fits `int16_t` because it fits `CATUI_ACK_SIZE`), and 0 iff the send succeeded |
| TextServer.NackText | src/catui_server.c:51-61 | definition: the printed refusal object with the single member `error`; its properties are in `NackLayout` and `NackIsNotAck` |
| TextServer.NackLayout | src/catui_server.c:51-61 | the refusal is `{"error":"` + message + `"}`, twelve characters besides the message |
| TextServer.NackIsNotAck | src/catui_server.c:42-72 | a refusal is never empty, so never taken for the acknowledgement, and it reads back as its message |
| TextServer.NackFitsAckBuffer | src/catui_server.c:89-92 | a message of up to 1024 - 17 characters is always encoded into the `CATUI_ACK_SIZE` buffer |
| TextServer.LongNackLengthWraps | src/catui_server.c:42-71 | a 32756-character message prints 32768 characters, which the `int16_t` result turns into -32768, an error code |

## Left out

- I/O is reduced to oracle parameters and traces. The environment, sockets, pipes, `fork`, `execv`, `dup2`, `close`, `read_file`, the structured-tree reader and writer and `msgstream` framing are not modelled. So are the bytes on the wire and error messages, apart from the `exec` one that the code returns.
- Concurrency is not modelled. The forked child is a separate ending (`ChildExit` / `ChildExec`), not a second process.
- Memory allocation and its failure are oracles, and no leak is modelled. `catui_encode_connect` leaks its cJSON object on every early return. On success its `cJSON_free(obj)` releases only the root, so the three string items leak as well. `catui_server_encode_nack` leaks its object when adding the string fails and when printing fails.
- Json.Print: cJSON escaping is not modelled. Strings must be JSON-safe (printable ASCII other than `"` and `\`), so `TextClient.EncodeConnect` and `TextServer.EncodeNack` require a safe protocol or message.
- Json.PrintFits: cJSON's exact size test is an oracle bounded on both sides. A print that succeeds needs room for the NUL, and five spare bytes always suffice. What a failed print leaves in the buffer is not specified.
- TextClient.CatuiConnect: the request is assumed to fit `CATUI_CONNECT_SIZE`. The `snprintf` truncation, the negative `n` and `unix_connect`'s own handling of the address are not modelled. The socket the function leaks on each failure is visible only as the absence of a close.
- TextClient.EncodeConnect: `CATUI_VERSION_SIZE` is a parameter (`versionSize`), because its value is defined in a header that is not part of this model.
- TextServer.ScanInt: `sscanf("%d")` of a value beyond the 64-bit range is undefined behaviour in C. The model follows the usual C library, which converts with `strtoimax`, clamps at the 64-bit bounds and then truncates to 32 bits.
- The structured tree encoding (gtree) is reduced to the trees this core uses. The exact tuple arity checks of the `std::pair` and `std::tuple` decoders, and a dictionary read of a missing key, are modelled as plain decode errors.
- Handshakes.Handshake.Connect: the release of whatever `*pconn` held before is not modelled. The returned connection stands for the new `*pconn`; a null result means `*pconn` was left alone. The install root `CATUI_INSTALL_ROOT` is a parameter.
- Handshakes.ConnectRemote: `sockaddr_un` is reduced to the truncated path, `Sys.SunPath`, using the BSD/macOS field size of 104 bytes.
- Characters are modelled as Dafny `char`, with no encoding. `isspace` is the C-locale set.
- The daemon `src/catuid.c`, `catui_decode_connect`, `src/buffer.c` and the broker registry are not part of this model.
- test/handshake_test.cpp names the error codes of `catui::connect` (`no_version`, `version_no_parse`) although it calls `handshake::connect`. The model uses the code of each function as written.
- Three behaviours of the code that the model keeps as written:
  - `connection::close` stops at the first failed `close` and never tries `out`.
  - `handshake::connect` checks the catui version before it looks up the address type. `catui::connect` reads and parses the version first, but checks it against 0.1.0 only after it has found the address type.
  - The install path writes no handshake request before it reads the acknowledgement.

## Findings

| source | as written | input that shows it | evidently intended | confidence | as-written member | corrected member |
|---|---|---|---|---|---|---|
| src/catui_server.c:42-71 | `catui_server_encode_nack` returns `strlen(buf)` as an `int16_t`, so the length of a refusal of 32768 characters or more wraps around | a JSON-safe message of 32756 characters and a buffer of at least 32773 bytes: the refusal prints 32768 characters and the result is -32768, which callers read as an error | report a refusal that an `int16_t` cannot measure as an error (or return a wider type), never a wrapped length | not executed | TextServer.EncodeNack, TextServer.LongNackLengthWraps | TextServer.EncodeNackChecked |
