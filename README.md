# HelixScreen core, modelled in Dafny

HelixScreen is a touch-screen front end for Klipper 3D printers. It talks
to the printer's Moonraker server over a WebSocket using JSON-RPC 2.0.
This project models the deterministic core of that program and proves
properties of the model:

- **The Moonraker client** (`moonraker_client.dfy`). The request-id
  counter is a 32-bit value that wraps around. The client keeps a table of
  one-shot reply callbacks keyed by id, a list of general notification
  callbacks, and a method → handler-name → callback table. The routing of
  inbound frames is a pure step function. Callbacks are opaque identities;
  invoking one is recorded as an event, and every frame sent is appended to
  an outbox.
- **The API layer** (`moonraker_api.dfy`). It covers the request
  parameters, the decoding of file-list and file-metadata replies, the
  homing G-code, and the printer-ready and print-state extraction, over a
  small JSON datatype (`json.dfy`).
- **Validators and helpers:**
  - the connection wizard's host and port checks (`wizard_validation.dfy`);
  - the error-report helpers (`error_helpers.dfy`);
  - the stub DNS resolver's query encoder, response decoder and
    nameserver-line reader, after RFC 1035 (`dns.dfy`);
  - largest-thumbnail selection (`thumbnail.dfy`);
  - console error detection (`console.dfy`);
  - the notification-history panel's severity mapping, relative-time text
    and filter (`notification_history.dfy`);
  - the JSON-pointer settings tree and the first-run wizard rule
    (`config.dfy`);
  - theme palettes (`theme_loader.dfy`);
  - the test-mode switches (`test_config.dfy`).
- **The Python translation-maintenance scripts:**
  - merging new keys into every locale file (`yaml_manager.dfy`, over the
    file model of `translations.dfy`);
  - coverage statistics (`coverage.dfy`);
  - obsolete-key detection, marking and deletion (`obsolete.dfy`).
- **The stateful test doubles:**
  - the print-control handlers of the Moonraker mock (`print_mock.dfy`);
  - the mock's bed-mesh profile store (`bed_mesh_mock.dfy`);
  - the connection-tracking client mock (`client_mock.dfy`);
  - the LVGL widget, subject and timer mock (`lvgl_mock.dfy`).

`common.dfy` holds the shared vocabulary: Option and Result, ASCII
character classes, decimal rendering and string order.

Code that changes state step by step is modelled as imperative Dafny:
- the client, the settings store and the mocks are classes whose methods
  state their whole new state;
- the loops of the validators, the DNS encoder and the translation scripts
  are methods with loop invariants;
- the DNS encoder and the LVGL `strncpy` write into arrays.

Each such method is proved against a specification function, and the
properties the code promises are proved about those functions as lemmas.

Where the code and its description disagree, the model follows the code.
Six parts are modelled from their unit tests alone, because their
implementation files are not part of this model:
- the DNS resolver (`base/dns_resolv`);
- `Config`;
- the bed-mesh commands of the Moonraker mock;
- the Moonraker error helpers (the text of an HTTP error message is one
  text that has the properties the tests check; see "## Left out");
- thumbnail selection (`FileMetadata::get_largest_thumbnail`);
- the dual-palette theme (`ModePalette`, `DualThemeData`).

The notification-history panel uses `severity_to_icon` as written. The
merge functions of `yaml_manager.py` save what the code saves: the plain
sorted dict as the `translations` mapping, without the comments of its
keys. Corrected versions of both are proved
beside them and listed under "## Findings".

## Model

| member | source | states |
|---|---|---|
| MoonrakerClient.NextId | src/moonraker_client.cpp:151 | the next request id stays below 2^32: one more, or 0 after 2^32-1 (uint32_t wrap-around of `request_id_++`) |
| MoonrakerClient.IdAfterIsModular | src/moonraker_client.cpp:151 | k sends after id the counter holds (id + k) mod 2^32 |
| MoonrakerClient.IdsDistinctWithinWrap | src/moonraker_client.cpp:151 | fewer than 2^32 sends never reuse a request id, and exactly 2^32 sends bring the counter back to where it started |
| MoonrakerClient.Envelope | src/moonraker_client.cpp:147-166 | the request object carries "jsonrpc": "2.0", the method name, the numeric id, and "params" exactly when params were given |
| MoonrakerClient.ScriptParams | src/moonraker_client.cpp:185 | the gcode_script params object has the single key "script" holding the G-code |
| MoonrakerClient.Route | src/moonraker_client.cpp:47-102 | a frame that does not parse changes nothing and calls nothing; a handled message only removes pending reply callbacks, never adds or rebinds one |
| MoonrakerClient.ReplyFiresAtMostOnce | src/moonraker_client.cpp:58-65 | a message calls at most one reply callback; when its id is pending that callback is called first, with the message, and removed; otherwise no reply callback is called and the table is unchanged |
| MoonrakerClient.DuplicateReplyIsNoOp | src/moonraker_client.cpp:60-64 | a second reply with the same id calls no reply callback and leaves the pending table as the first left it |
| MoonrakerClient.NotifyRouting | src/moonraker_client.cpp:68-82 | a method message without id never throws or touches the reply table; a status-update or file-list message calls every notify callback in order first, any other method calls no notify callback |
| MoonrakerClient.MethodRouting | src/moonraker_client.cpp:68-101 | after the built-in reaction (klippy disconnected / ready callbacks) come exactly the handlers registered for that method, and no handler of another method is called |
| MoonrakerClient.HandlersInNameOrder | src/moonraker_client.cpp:97-99 | the handlers of one method are called in strictly ascending handler-name order (std::map iteration) |
| MoonrakerClient.RegisterInTable | src/moonraker_client.cpp:130-145 | registering keeps the table's methods and each method's handlers sorted and without duplicates |
| MoonrakerClient.RegisterKeepsExisting | src/moonraker_client.cpp:130-145 | a new (method, handler) pair is added; an existing handler name keeps its first callback (map insert does not overwrite); every other handler and method is unchanged |
| MoonrakerClient.Client.constructor | src/moonraker_client.cpp:26-29 | a new client has request id 0, no callbacks and has sent nothing |
| MoonrakerClient.Client.SendJsonRpc | src/moonraker_client.cpp:147-155 | sends one request without params under the current id, advances the id, returns what the transport returned, and changes nothing else |
| MoonrakerClient.Client.SendJsonRpcWithParams | src/moonraker_client.cpp:157-166 | as SendJsonRpc, with the params in the request |
| MoonrakerClient.Client.SendJsonRpcWithCallback | src/moonraker_client.cpp:168-182 | when the current id already has a callback: returns -1 and sends nothing; otherwise binds the callback to the current id, then sends exactly as SendJsonRpcWithParams |
| MoonrakerClient.Client.GcodeScript | src/moonraker_client.cpp:184-187 | sends "printer.gcode.script" with params {"script": gcode} |
| MoonrakerClient.Client.RegisterNotifyUpdate | src/moonraker_client.cpp:126-128 | appends the callback to the notify list and changes nothing else |
| MoonrakerClient.Client.RegisterMethodCallback | src/moonraker_client.cpp:130-145 | the method table becomes RegisterInTable of the old one; nothing else changes |
| MoonrakerClient.Client.OnMessage | src/moonraker_client.cpp:47-102 | the pending callbacks and the call trace become what Route gives for the old tables; ids, lists and the outbox are unchanged |
| MoonrakerClient.Client.RunReply | src/moonraker_client.cpp:58-65 | the reply step on the pending table: its callbacks, its calls appended to the trace, and whether `get<uint32_t>` threw |
| MoonrakerClient.Client.RunMethodStep | src/moonraker_client.cpp:68-101 | the method step: its calls appended to the trace, or a throw when "method" is not a string |
| MoonrakerClient.Client.RunBuiltin | src/moonraker_client.cpp:71-92 | appends the built-in reaction to the method (notify callbacks, klippy disconnected or ready) |
| MoonrakerClient.Client.RunHandlers | src/moonraker_client.cpp:94-100 | appends the calls of the handlers registered for the method, in name order |
| MoonrakerApi.ListFilesCall | src/moonraker_api.cpp:35-54 | "server.files.list" with params that always hold "root", hold "path" exactly when the path is non-empty and "extended": true exactly when recursive, and nothing else |
| MoonrakerApi.WithPath | src/moonraker_api.cpp:44-46 | "path" is added only for a non-empty path; "root" is kept |
| MoonrakerApi.WithExtended | src/moonraker_api.cpp:48-50 | "extended": true is added only when recursive; "root" and "path" are kept |
| MoonrakerApi.FileMetadataCall | src/moonraker_api.cpp:69-78 | "server.files.metadata" with the single param "filename" |
| MoonrakerApi.ExecuteGcodeCall | src/moonraker_api.cpp:326-335 | "printer.gcode.script" with the single param {"script": gcode} |
| MoonrakerApi.HomeAxesCall | src/moonraker_api.cpp:254-260 | home_axes sends the generated homing G-code through execute_gcode |
| MoonrakerApi.PrinterInfoCall | src/moonraker_api.cpp:386-388 | "printer.info" with an empty params object |
| MoonrakerApi.PrintStateCall | src/moonraker_api.cpp:401-409 | "printer.objects.query" asking for {"objects": {"print_stats": null}} |
| MoonrakerApi.HomeGcode | src/moonraker_api.cpp:563-574 | generate_home_gcode: "G28" and one " X" per axis, upper-cased; HomeGcodeShape states its meaning |
| MoonrakerApi.HomeGcodeShape | src/moonraker_api.cpp:563-574 | the homing G-code is "G28" followed by " " and the upper-cased axis for each axis, in order, so its length is 3 + 2·\|axes\| (and "G28" alone for no axes) |
| MoonrakerApi.GenerateHomeGcode | src/moonraker_api.cpp:563-574 | the ostringstream loop builds exactly HomeGcode(axes) |
| MoonrakerApi.OptString | src/moonraker_api.cpp:441-449 | an absent key keeps the default; a present key yields its string, and the `get<std::string>` throw (None) when it is not a string |
| MoonrakerApi.OptU64 | src/moonraker_api.cpp:465-467 | `get<uint64_t>` of an optional key: an absent key keeps 0; a present key converts exactly when it holds a number (a boolean throws), and the value is the number modulo 2^64 |
| MoonrakerApi.OptU32 | src/moonraker_api.cpp:517-519 | `get<uint32_t>` of an optional key: an absent key keeps 0; a number converts modulo 2^32, a boolean converts to 0 or 1, and any other kind throws |
| MoonrakerApi.DirEntry | src/moonraker_api.cpp:439-452 | one directory entry of parse_file_list, or None when a `get<>` throws; DirEntryFields states its meaning |
| MoonrakerApi.FileEntry | src/moonraker_api.cpp:457-476 | one file entry of parse_file_list, or None when a `get<>` throws; FileEntryFields states its meaning |
| MoonrakerApi.DirEntryFields | src/moonraker_api.cpp:439-452 | a directory entry throws exactly when "dirname" or "permissions" is present and not a string, or "modified" is present and not a number (a boolean throws for `double`); otherwise is_dir holds exactly when "dirname" is present, the name and permissions are copied when present, and path and size stay at their defaults |
| MoonrakerApi.FileEntryFields | src/moonraker_api.cpp:457-476 | a file entry throws exactly when "filename", "path" or "permissions" is present and not a string, or "size" or "modified" is present and not a number (booleans throw for `uint64_t` and `double`); otherwise it is no directory and copies filename, path, size (below 2^64) and permissions when present |
| MoonrakerApi.BooleanNumbersThrow | src/moonraker_api.cpp:445-470 | a boolean "size" makes a file entry throw, and a boolean "modified" makes a file or directory entry throw |
| MoonrakerApi.BooleanSizeRejected | src/moonraker_api.cpp:456-467 | a file list whose one file has `"size": true` does not parse |
| MoonrakerApi.ConvertAllElementwise | src/moonraker_api.cpp:439-476 | converting a list succeeds exactly when every element converts, and then the i-th result is the i-th element's entry |
| MoonrakerApi.FileList | src/moonraker_api.cpp:428-480 | parse_file_list, or None when it throws; FileListShape states its meaning |
| MoonrakerApi.FileListShape | src/moonraker_api.cpp:428-480 | no "result" gives the empty list; otherwise the list has \|dirs\| + \|files\| entries, all directory entries first and in order, then all file entries in order, and it throws exactly when some entry has a field of the wrong kind, booleans in numeric fields included |
| MoonrakerApi.ConvertAllFailureSticks | src/moonraker_api.cpp:439-476 | once one entry throws, the whole parse throws |
| MoonrakerApi.AppendAll | src/moonraker_api.cpp:439-476 | the push_back loop appends exactly the converted entries, or reports the throw |
| MoonrakerApi.ParseFileList | src/moonraker_api.cpp:428-480 | the imperative parse computes FileList(response) |
| MoonrakerApi.ListFilesReply | src/moonraker_api.cpp:55-63 | the reply handler passes the parsed list to on_success, and an empty list when parsing threw; on_error is never used |
| MoonrakerApi.PathIndices | src/moonraker_api.cpp:552-558 | the ascending positions of exactly the thumbnail entries that carry "relative_path" |
| MoonrakerApi.ThumbPathsSelect | src/moonraker_api.cpp:552-558 | the thumbnail list keeps, in order, exactly the relative paths of the entries that have one |
| MoonrakerApi.ThumbPathsFailureSticks | src/moonraker_api.cpp:552-558 | a non-string relative path makes the whole parse throw |
| MoonrakerApi.CollectThumbnails | src/moonraker_api.cpp:552-558 | the push_back loop computes ThumbPaths(items) |
| MoonrakerApi.MetadataFields | src/moonraker_api.cpp:489-560 | the field reads of parse_file_metadata, or None when one throws; MetadataShape states its meaning |
| MoonrakerApi.Metadata | src/moonraker_api.cpp:482-487 | no "result" yields the default metadata |
| MoonrakerApi.MetadataShape | src/moonraker_api.cpp:482-561 | without "result" the default metadata; otherwise the parse throws exactly when some present field has the wrong kind (strings for filename, slicer and slicer_version; numbers for the uint64, uint32 and double fields, booleans accepted only for layer_count) or a thumbnail path is not a string; when it succeeds filename, size, slicer, slicer_version, layer_count, the gcode byte offsets and the thumbnail paths are the converted values |
| MoonrakerApi.ParseFileMetadata | src/moonraker_api.cpp:482-561 | the imperative parse computes Metadata(response) |
| MoonrakerApi.FileMetadataReply | src/moonraker_api.cpp:79-88 | the reply handler passes the parsed metadata to on_success, and default metadata when parsing threw |
| MoonrakerApi.AtPath | src/moonraker_api.cpp:391-415 | the empty path is the value itself |
| MoonrakerApi.AtPathCons | src/moonraker_api.cpp:412-415 | a path is followed one `contains` step at a time and is missing as soon as one key is |
| MoonrakerApi.PrinterReady | src/moonraker_api.cpp:389-395 | ready is true exactly when result.state is the string "ready", false when the path is missing, and a throw when the state is not a string |
| MoonrakerApi.PrintState | src/moonraker_api.cpp:410-418 | result.status.print_stats.state converted to a string, or "unknown" when any step of the path is missing |
| WizardValidation.ValidHost | src/wizard_validation.cpp:20-134 | the hosts is_valid_ip_or_hostname accepts: a dotted quad when only digits and dots, else a hostname; IsValidIpOrHostname proves the loop computes it |
| WizardValidation.ValidPort | src/wizard_validation.cpp:136-161 | the port strings is_valid_port accepts; ValidPortIsPrintedNumber states its meaning |
| WizardValidation.IsValidIpOrHostname | src/wizard_validation.cpp:20-134 | accepts exactly the hosts of 1..253 characters that, when made only of digits and dots, are four dot-separated parts of 1-3 digits each at most 255, and otherwise start with a letter or digit, end in neither "-" nor ".", and consist of labels of 1..63 letters, digits, "-" or "_" that neither start nor end with "-"; a digits-and-dots string is never judged as a hostname |
| WizardValidation.ScanLooksLikeIp | src/wizard_validation.cpp:31-37 | true exactly when every character is a digit or a dot |
| WizardValidation.CheckIpv4 | src/wizard_validation.cpp:40-87 | a digits-and-dots string is accepted exactly when it is a dotted quad |
| WizardValidation.ScanIpSegments | src/wizard_validation.cpp:45-70 | a break out of the dot loop means the string is no dotted quad; finishing it means every closed part is a valid part |
| WizardValidation.CloseIpSegment | src/wizard_validation.cpp:46-68 | the checks at one dot reject only strings that are no dotted quad, and keep the loop invariant when they pass |
| WizardValidation.ClosedPieceRefutes | src/wizard_validation.cpp:48-66 | an empty, over-long or over-255 part closed by a dot rules out a dotted quad |
| WizardValidation.CheckHostname | src/wizard_validation.cpp:92-133 | for a non-empty string the hostname branch accepts exactly HostnameOk |
| WizardValidation.ScanLabels | src/wizard_validation.cpp:107-131 | an early return in the label loop means the hostname is invalid; finishing it means every closed label is valid and the open one holds only host characters |
| WizardValidation.ClosedLabelRefutes | src/wizard_validation.cpp:109-120 | a label closed by a dot that is empty, longer than 63, or starts or ends with "-" makes the hostname invalid |
| WizardValidation.BadCharRefutes | src/wizard_validation.cpp:123-129 | a character other than a letter, digit, "-", "_" or "." makes the hostname invalid |
| WizardValidation.HostnameCharacters | src/wizard_validation.cpp:123-129 | every character of a valid hostname is a letter, digit, "-", "_" or "." |
| WizardValidation.IsValidPort | src/wizard_validation.cpp:136-161 | accepts exactly the non-empty digit strings without a leading "0" (unless of length 1) whose value is in 1..65535; "0" and overflowing strings are rejected |
| WizardValidation.ValidPortIsPrintedNumber | src/wizard_validation.cpp:136-161 | a port string is accepted exactly when it is the decimal rendering of some n in 1..65535 |
| MoonrakerErrors.ReportError | tests/unit/test_moonraker_error_helpers.cpp:15-44 | a null callback receives nothing; otherwise exactly that callback receives the report |
| MoonrakerErrors.ReportErrorDelivers | tests/unit/test_moonraker_error_helpers.cpp:15-39 | report_error delivers exactly the given type, method and message with code 0 by default, and an explicit code is kept |
| MoonrakerErrors.ReportHttpError | tests/unit/test_moonraker_error_helpers.cpp:80-113 | a null callback receives nothing |
| MoonrakerErrors.HttpErrorKind | tests/unit/test_moonraker_error_helpers.cpp:76-107 | the error type of an HTTP status; HttpErrorMapping states its meaning |
| MoonrakerErrors.HttpMessage | tests/unit/test_moonraker_error_helpers.cpp:80-107 | the text of an HTTP error, one that names the status and the message; HttpErrorMapping states what the tests require of it |
| MoonrakerErrors.HttpErrorMapping | tests/unit/test_moonraker_error_helpers.cpp:80-107 | 404 maps to FILE_NOT_FOUND, 403 to PERMISSION_DENIED and every other status to UNKNOWN (each both ways); the status is kept as the code, the method is kept, and the message contains the status number and the given message |
| MoonrakerErrors.ReportConnectionError | tests/unit/test_moonraker_error_helpers.cpp:124-134 | a null callback receives nothing |
| MoonrakerErrors.ReportParseError | tests/unit/test_moonraker_error_helpers.cpp:140-155 | a null callback receives nothing |
| MoonrakerErrors.ConnectionAndParseErrors | tests/unit/test_moonraker_error_helpers.cpp:124-150 | the connection helper gives CONNECTION_LOST with method and message verbatim; the parse helper gives PARSE_ERROR with the method verbatim and a message containing the given text |
| MoonrakerErrors.NullCallbackIsSafe | tests/unit/test_moonraker_error_helpers.cpp:41-155 | with a null callback every helper reports nothing |
| DnsResolv.Be16Value | tests/unit/test_dns_resolver.cpp:137-205 | a 16-bit value written in network byte order reads back as itself |
| DnsResolv.EncodedNameLength | tests/unit/test_dns_resolver.cpp:17-75 | a name of n bytes encodes as n + 1 bytes of length-prefixed labels |
| DnsResolv.StripDot | tests/unit/test_dns_resolver.cpp:77-87 | stripping the trailing dot removes at most one byte |
| DnsResolv.QueryPacket | tests/unit/test_dns_resolver.cpp:17-130 | the query for a host name, None when the name cannot be encoded; QueryLayout and QueryRejections state its meaning |
| DnsResolv.QueryLayout | tests/unit/test_dns_resolver.cpp:17-75 | a query is the transaction id, flags 0x01 0x00 (RD set), QDCOUNT 1 and zero other counts, then the length-prefixed labels, the root byte, QTYPE A and QCLASS IN; its length is 18 more than the name's (29 for "example.com") |
| DnsResolv.QueryRejections | tests/unit/test_dns_resolver.cpp:90-130 | no query for an empty name, a name longer than 253 bytes, two dots in a row or a first label longer than 63 bytes |
| DnsResolv.EmptyLabelRejected | tests/unit/test_dns_resolver.cpp:115-117 | two dots in a row make the name unencodable |
| DnsResolv.LongLabelRejected | tests/unit/test_dns_resolver.cpp:109-113 | a first label longer than 63 bytes makes the name unencodable |
| DnsResolv.TrailingDotIgnored | tests/unit/test_dns_resolver.cpp:77-87 | a name with a trailing dot is accepted exactly when the name without it is, and then the two queries agree except for the transaction-id bytes 0-1 |
| DnsResolv.BuildQuery | tests/unit/test_dns_resolver.cpp:17-130 | -1 for a null hostname or buffer, a bad name or a buffer too small, leaving the buffer alone; otherwise the query is written at the buffer's start, the rest is untouched and its length is returned |
| DnsResolv.CheckLabels | tests/unit/test_dns_resolver.cpp:109-117 | the label loop accepts exactly names whose labels are 1..63 bytes long |
| DnsResolv.WriteQuery | tests/unit/test_dns_resolver.cpp:17-75 | writes exactly the query packet at the buffer's start and nothing past it |
| DnsResolv.Emit | tests/unit/test_dns_resolver.cpp:137-205 | writing through the advancing offset puts the bytes at the offset, moves the offset past them and touches nothing else |
| DnsResolv.EmitLabels | tests/unit/test_dns_resolver.cpp:153-165 | writes the length-prefixed labels at the offset and nothing else |
| DnsResolv.FirstA | tests/unit/test_dns_resolver.cpp:225-237 | the address of the first A record is four bytes |
| DnsResolv.WithRa | tests/unit/test_dns_resolver.cpp:147-148 | the fourth header byte sets RA and keeps the rcode in its low four bits |
| DnsResolv.TestAnswers | tests/unit/test_dns_resolver.cpp:171-200 | the builder writes n answers, the i-th being the i-th test answer |
| DnsResolv.BuildTestResponse | tests/unit/test_dns_resolver.cpp:137-205 | -1 and no write for a buffer under 512 bytes; otherwise the buffer is zeroed, the response (header with QR and RA, one question, the answers) is written at its start and its length returned |
| DnsResolv.ZeroFill | tests/unit/test_dns_resolver.cpp:141 | the first buflen bytes become 0 and the rest is untouched |
| DnsResolv.EmitResponseHeader | tests/unit/test_dns_resolver.cpp:143-151 | writes the 12-byte response header |
| DnsResolv.EmitTestName | tests/unit/test_dns_resolver.cpp:153-165 | writes the encoded question name at the offset |
| DnsResolv.EmitTestAnswers | tests/unit/test_dns_resolver.cpp:171-200 | writes the n 16-byte answers at the offset |
| DnsResolv.AnswersLength | tests/unit/test_dns_resolver.cpp:171-200 | each answer takes 16 bytes (pointer, type, class, TTL, RDLENGTH 4, address) |
| DnsResolv.SkipName | tests/unit/test_dns_resolver.cpp:293-381 | skipping a name moves strictly forward and stays within the packet |
| DnsResolv.FindA | tests/unit/test_dns_resolver.cpp:293-381 | a found address is four bytes |
| DnsResolv.Parse | tests/unit/test_dns_resolver.cpp:207-287 | an address is found only in a packet of at least 12 bytes with QR set, RCODE 0 and a nonzero answer count, and it is four bytes |
| DnsResolv.ParseResponse | tests/unit/test_dns_resolver.cpp:207-287 | returns 0 or -1; -1 for a null buffer or address; 0 exactly when the response parses, and then the address holds the first A address; on failure the address is untouched |
| DnsResolv.SkipNameAt | tests/unit/test_dns_resolver.cpp:293-381 | the name-skipping loop computes SkipName |
| DnsResolv.SkipQuestionsAt | tests/unit/test_dns_resolver.cpp:207-237 | the question loop computes SkipQuestions |
| DnsResolv.FindAAt | tests/unit/test_dns_resolver.cpp:293-381 | the answer loop computes FindA |
| DnsResolv.FindARecords | tests/unit/test_dns_resolver.cpp:225-381 | reading well-formed records finds the first A record among them |
| DnsResolv.ResponseParse | tests/unit/test_dns_resolver.cpp:207-287 | decoding a built response yields nothing for a nonzero rcode or no answers, and otherwise the first A record's address |
| DnsResolv.TestResponseRoundTrip | tests/unit/test_dns_resolver.cpp:207-280 | parsing build_test_response(txid, rcode, n, name, ip) yields the ip exactly when rcode is 0 and n >= 1 |
| DnsResolv.FirstTestAnswer | tests/unit/test_dns_resolver.cpp:225-237 | with several answers the first one's address is returned |
| DnsResolv.CnameThenA | tests/unit/test_dns_resolver.cpp:293-381 | a CNAME answer before an A answer is skipped by its RDLENGTH and the A address is returned |
| DnsResolv.RejectedResponses | tests/unit/test_dns_resolver.cpp:257-286 | clearing QR or cutting the answer short makes the response rejected |
| DnsResolv.QrClearedResponse | tests/unit/test_dns_resolver.cpp:257-263 | a response with QR = 0 is rejected |
| DnsResolv.TruncatedResponse | tests/unit/test_dns_resolver.cpp:281-286 | a response missing any of the last 1..16 bytes of its answer is rejected |
| DnsResolv.TruncatedAnswer | tests/unit/test_dns_resolver.cpp:281-286 | a cut-off answer record yields no address |
| DnsResolv.TrimLeftDropsBlanks | tests/unit/test_dns_resolver.cpp:458-473 | trimming removes exactly the leading blanks |
| DnsResolv.TokenIsLongestWord | tests/unit/test_dns_resolver.cpp:390-407 | the address read is the longest blank-free prefix |
| DnsResolv.NameserverOf | tests/unit/test_dns_resolver.cpp:390-473 | the address one resolv.conf line names; NameserverLine and SkippedLines state its meaning |
| DnsResolv.Nameservers | tests/unit/test_dns_resolver.cpp:387-474 | the first max addresses the lines name, none without a file; NameserversBound states its meaning |
| DnsResolv.GetNameserversFrom | tests/unit/test_dns_resolver.cpp:387-474 | the line loop collects exactly Nameservers(lines, max): the `nameserver X` values in line order, at most max of them, none for a missing file |
| DnsResolv.NameserversBound | tests/unit/test_dns_resolver.cpp:428-456 | at most max nameservers are collected, none without a file, and each collected one is named by some line |
| DnsResolv.NamedBySomeLine | tests/unit/test_dns_resolver.cpp:390-407 | every collected address comes from a line of the file |
| DnsResolv.NameserverLine | tests/unit/test_dns_resolver.cpp:390-473 | a line of leading blanks, "nameserver ", an address and a blank-led tail names that address |
| DnsResolv.SkippedLines | tests/unit/test_dns_resolver.cpp:409-426 | blank lines, `#` and `;` comments and lines with another keyword name no nameserver |
| DnsResolv.AllNameserversPrefix | tests/unit/test_dns_resolver.cpp:428-444 | reading fewer lines gives a prefix of the addresses, so stopping at the maximum keeps the first ones |
| Thumbnails.PixelCount | tests/unit/test_thumbnail_selection.cpp:20-46 | the pixel count (width × height) is 0 exactly when a dimension is 0, and is at least either dimension otherwise |
| Thumbnails.SingleAndDefault | tests/unit/test_thumbnail_selection.cpp:20-67 | a default thumbnail counts 0 pixels, and a single thumbnail is the one chosen |
| Thumbnails.BestIndex | tests/unit/test_thumbnail_selection.cpp:69-155 | the index the fold over the first n thumbnails picks lies among them |
| Thumbnails.BestIndexIsFirstMaximum | tests/unit/test_thumbnail_selection.cpp:69-155 | the fold over the first n thumbnails stops at the first one with the largest pixel count |
| Thumbnails.LargestThumbnail | tests/unit/test_thumbnail_selection.cpp:52-155 | get_largest_thumbnail: "" without thumbnails, else the relative path at BestIndex; LargestThumbnailChoice states its meaning |
| Thumbnails.LargestThumbnailChoice | tests/unit/test_thumbnail_selection.cpp:53-155 | "" for no thumbnails; otherwise the path of a thumbnail whose count is maximal, with every earlier one strictly smaller |
| Thumbnails.UniqueLargestWins | tests/unit/test_thumbnail_selection.cpp:69-175 | a strictly largest thumbnail is chosen wherever it sits in the list, including after zero-size ones |
| Thumbnails.EqualCountsPickFirst | tests/unit/test_thumbnail_selection.cpp:136-155 | among equal counts, including all zero, the first thumbnail wins |
| Console.IsErrorMessage | tests/unit/test_ui_panel_console.cpp:27-48 | is_error_message: false for "", true for a "!!" start, else true exactly when the first five characters lower-case to "error"; ErrorMessageCharacterised states its meaning |
| Console.ErrorMessageCharacterised | tests/unit/test_ui_panel_console.cpp:20-80 | a message is an error exactly when it starts with "!!" or its first five characters read "error" in any letter case |
| Console.LowersTo | tests/unit/test_ui_panel_console.cpp:38-45 | lower-casing maps a character to a given lower-case letter exactly when it is that letter or its upper-case form |
| Console.LowerErrorIsAnyCase | tests/unit/test_ui_panel_console.cpp:38-69 | the lower-cased first five characters are "error" exactly when they spell "error" in any mix of cases |
| Console.OnlyPrefixMatters | tests/unit/test_ui_panel_console.cpp:58-80 | messages that agree on their first five characters are classified alike, so "error" elsewhere than at the start does not count |
| Console.ShortMessages | tests/unit/test_ui_panel_console.cpp:28-92 | the empty string is no error, and a message shorter than five characters is an error exactly when it starts with "!!" |
| NotificationHistory.SeverityToColor | src/ui_panel_notification_history.cpp:18-26 | severity_to_color's switch; SeverityColorsAndLabels states its meaning |
| NotificationHistory.SeverityLabel | src/ui_panel_notification_history.cpp:195-197 | the "severity" attribute's nested conditional; SeverityColorsAndLabels relates it to the colour |
| NotificationHistory.SeverityColorsAndLabels | src/ui_panel_notification_history.cpp:18-197 | error, warning and success each have their own colour constant and every other value maps to "info_color"; the severity label is the colour constant without "_color" |
| NotificationHistory.SeverityIconAsWritten | src/ui_panel_notification_history.cpp:29-37 | the icon table as written: every icon is a three-byte UTF-8 glyph |
| NotificationHistory.ErrorIconAsWrittenIsNotTriangle | src/ui_panel_notification_history.cpp:31-32 | the error icon as written decodes to U+F041, not the U+F071 triangle its comment and the warning icon name |
| NotificationHistory.SeverityIcon | src/ui_panel_notification_history.cpp:29-37 | the corrected icon table: every icon is a three-byte UTF-8 glyph |
| NotificationHistory.SeverityIconEncodesIntended | src/ui_panel_notification_history.cpp:29-37 | every corrected icon is well-formed three-byte UTF-8 decoding to the code point its comment names, and only the error icon differs from the table as written |
| NotificationHistory.FormatTimestamp | src/ui_panel_notification_history.cpp:40-61 | format_timestamp with the clock as a parameter; FormatTimestampMeaning states its meaning |
| NotificationHistory.FormatTimestampMeaning | src/ui_panel_notification_history.cpp:40-61 | "Just now" exactly for a future timestamp or less than a minute; otherwise "m min ago", "h hour(s) ago" or "d day(s) ago" with m, h, d the whole minutes, hours or days elapsed (1..59, 1..23, >= 1) and the "s" exactly when the count exceeds 1 |
| NotificationHistory.NotJustNow | src/ui_panel_notification_history.cpp:50-60 | a text that starts with digits is never "Just now", so the ranges cannot be confused |
| NotificationHistory.Filtered | src/ui_panel_notification_history.cpp:144 | the filtered history holds exactly the entries of the history with that severity |
| NotificationHistory.FilteredKeepsOrder | src/ui_panel_notification_history.cpp:144 | the filter is the order- and multiplicity-preserving selection: filtering a + b is filtering a then b, and one entry is kept exactly when it has the severity |
| NotificationHistory.Displayed | src/ui_panel_notification_history.cpp:142-144 | a negative filter shows the whole history; otherwise exactly the entries with the filter's severity are shown |
| NotificationHistory.DisplayedKeepsOrder | src/ui_panel_notification_history.cpp:142-144 | the displayed list distributes over concatenation, and a single entry is shown exactly when the filter is negative or matches its severity, so order and repeats are kept |
| NotificationHistory.ItemFor | src/ui_panel_notification_history.cpp:176-203 | an item shows the title, or "Notification" for an empty one, the message, the formatted timestamp, the severity's colour constant and label, and the icon severity_to_icon returns as written |
| NotificationHistory.ItemsFor | src/ui_panel_notification_history.cpp:176-222 | one item per displayed entry, in order |
| NotificationHistory.MarkAllRead | src/ui_panel_notification_history.cpp:225 | every entry is kept in order and marked read |
| NotificationHistory.HistoryPanel.constructor | src/ui_panel_notification_history.cpp:14-15 | no panel yet and the filter at -1 |
| NotificationHistory.HistoryPanel.Create | src/ui_panel_notification_history.cpp:90-133 | when the XML panel is created the filter is reset to -1 and the whole history is listed and marked read; otherwise nothing changes |
| NotificationHistory.HistoryPanel.Refresh | src/ui_panel_notification_history.cpp:135-231 | without a panel nothing changes; with one the list shows the items of the entries the filter selects and every entry is marked read |
| NotificationHistory.HistoryPanel.FilterClicked | src/ui_panel_notification_history.cpp:70-88 | the filter becomes the button's severity (or -1 for all) and the list is refreshed with it |
| NotificationHistory.HistoryPanel.ClearClicked | src/ui_panel_notification_history.cpp:64-68 | the history is emptied and the refreshed list is empty |
| Settings.SetPath | tests/unit/test_config.cpp:220-269 | writing a value along a path keeps the tree well formed (object keys sorted and unique) |
| Settings.GetPathAppend | tests/unit/test_config.cpp:97-139 | reading a path one key longer is reading the key in what the shorter path reads |
| Settings.MissingParent | tests/unit/test_config.cpp:118-214 | a path whose parent is missing is missing |
| Settings.SetOnNull | tests/unit/test_config.cpp:220-329 | a write into an empty store succeeds at any depth, creating the intermediate objects |
| Settings.SetThroughObjects | tests/unit/test_config.cpp:220-269 | a write succeeds whenever every prefix of the path is missing, an object or null |
| Settings.GetAfterSet | tests/unit/test_config.cpp:220-329 | after a successful write, reading the same path gives the written value, whatever was there before and whatever its type |
| Settings.SetLeavesOthers | tests/unit/test_config.cpp:227-246 | a write leaves every path that neither extends nor is extended by the written one as it was |
| Settings.Unescape | tests/unit/test_config.cpp:83-139 | reading a pointer token never lengthens it, and a token without "~" is itself |
| Settings.Escape | tests/unit/test_config.cpp:83-139 | an escaped key contains no "/" |
| Settings.UnescapeEscape | tests/unit/test_config.cpp:83-139 | unescaping an escaped key gives the key back (section 4 of RFC 6901) |
| Settings.UnescapeAllEscapeAll | tests/unit/test_config.cpp:83-139 | the same, token by token |
| Settings.SplitOfJoin | tests/unit/test_config.cpp:97-102 | splitting slash-free tokens joined by "/" gives the tokens back |
| Settings.PointerRoundTrip | tests/unit/test_config.cpp:83-139 | the pointer text of a path parses back to that path |
| Settings.PrinterKeyPointer | tests/unit/test_config.cpp:104-199 | df() + key is the pointer /printers/<default>/key, so reading through df() reads the full path |
| Settings.Convert | tests/unit/test_config.cpp:83-258 | get<T> succeeds for a string, bool or JSON request only on a value of that kind, for an int on a number or a bool (read as 0/1), and on null only for a JSON request; an int read is a 32-bit signed value congruent to the stored number modulo 2^32 (static_cast), equal to it when it is in range |
| Settings.IntReadNarrows | tests/unit/test_config.cpp:93 | get<int> of a stored 2^32 + 1 reads 1, of 2^31 reads -2^31, and of -1 reads -1 |
| Settings.GetPath | tests/unit/test_config.cpp:97-139 | reading a path key by key, missing as soon as a key or an object is; GetPathAppend and GetAfterSet state its meaning |
| Settings.Get | tests/unit/test_config.cpp:83-139 | Config::get<T>(pointer): parse the pointer, read it, convert; GetStoredOrMissing states its meaning |
| Settings.GetStoredOrMissing | tests/unit/test_config.cpp:83-139 | get on a stored path returns the stored value converted, including whole sub-objects; on a missing path it fails unless plain JSON is asked for, which yields null |
| Settings.GetOr | tests/unit/test_config.cpp:145-214 | Config::get<T>(pointer, default); GetOrStoredOrMissing states its meaning |
| Settings.GetOrStoredOrMissing | tests/unit/test_config.cpp:145-337 | get with a default returns the stored value when present, and the default when the key or any parent is missing, including in an empty config |
| Settings.WizardRequired | tests/unit/test_config.cpp:275-317 | is_wizard_required over the stored tree; WizardRule states its meaning |
| Settings.Config.IsWizardRequired | tests/unit/test_config.cpp:275-317 | Config::is_wizard_required on the object's store, as WizardRequired |
| Settings.WizardRule | tests/unit/test_config.cpp:275-317 | the wizard is not required exactly when the printer's moonraker_host is present, not null and not "127.0.0.1", and hardware_map has a non-null heated_bed and hotend |
| Settings.NullingHardwareRequiresWizard | tests/unit/test_config.cpp:287-303 | nulling heated_bed or hotend makes the wizard required |
| Settings.Config.constructor | tests/unit/test_config.cpp:17-28 | an empty store without default printer |
| Settings.Config.Df | tests/unit/test_config.cpp:104-109 | df() is the default printer's prefix, and when a printer is chosen the pointer df() + key reads /printers/<that printer>/key for every plain key |
| Settings.PrinterPrefixPointers | tests/unit/test_config.cpp:104-199 | for a plain printer name, the prefix followed by any plain key parses to the path printers, name, key |
| Settings.Config.SetDefaultPrinter | tests/unit/test_config.cpp:17-28 | choosing a printer sets df() to "/printers/<name>/" and keeps the stored tree |
| Settings.Config.Set | tests/unit/test_config.cpp:220-269 | a successful set stores the written tree and returns the value, and a get of the same pointer reads it back; a failed set leaves the store unchanged |
| ThemeLoader.At | src/ui/theme_loader.cpp:21-58 | ThemePalette::at, None for the out_of_range throw; AtRange states its meaning |
| ThemeLoader.AtRange | src/ui/theme_loader.cpp:12-58 | at(i) is defined exactly for i < 16 (out_of_range otherwise); there are 16 colour names, from "bg_darkest" (field bg_darkest) to "status_special" (field status_special) |
| ThemeLoader.WriteThenRead | src/ui/theme_loader.cpp:60-62 | the mutable at(i) exists exactly where the const one does; a write then a read at i returns the written value and leaves every other index as it was |
| ThemeLoader.WriteSameValue | src/ui/theme_loader.cpp:60-62 | writing back the value read changes nothing |
| ThemeLoader.IsValid | src/ui/theme_loader.cpp:64-73 | ThemeData::is_valid; ValidityCharacterised states its meaning |
| ThemeLoader.ValidityCharacterised | src/ui/theme_loader.cpp:64-73 | a valid theme has a name and 16 colours each of 7 characters starting with "#"; one bad colour or an empty name makes it invalid, and so does an empty palette |
| ThemeLoader.ValidityKept | src/ui/theme_loader.cpp:60-73 | writing a well-formed colour keeps a valid theme valid |
| ThemeDual.ModeAt | tests/unit/test_theme_dual_palette.cpp:11-60 | ModePalette::at, None for the out_of_range throw; ModeAtRange states its meaning |
| ThemeDual.ModeAtRange | tests/unit/test_theme_dual_palette.cpp:11-60 | ModePalette::at is defined exactly for indices below 16; its 16 names start "app_bg", "panel_bg" and end "focus", and at(0), at(15) are app_bg and focus |
| ThemeDual.ModeValidity | tests/unit/test_theme_dual_palette.cpp:27-54 | a palette with any colour unset is invalid, so one with only app_bg set is invalid; a valid palette has well-formed colours |
| ThemeDual.SupportsDark | tests/unit/test_theme_dual_palette.cpp:62-157 | supports_dark: the dark palette is valid |
| ThemeDual.SupportsLight | tests/unit/test_theme_dual_palette.cpp:62-157 | supports_light: the light palette is valid |
| ThemeDual.GetModeSupport | tests/unit/test_theme_dual_palette.cpp:62-157 | get_mode_support; ModeSupportCharacterised states its meaning |
| ThemeDual.ModeSupportCharacterised | tests/unit/test_theme_dual_palette.cpp:62-157 | DUAL_MODE exactly when both palettes are valid, DARK_ONLY exactly when only the dark one is, LIGHT_ONLY exactly when only the light one is, and no mode when neither is |
| TestMode.ShouldMockWifi | include/test_config.h:45-47 | should_mock_wifi; TestModeOverrides states its meaning |
| TestMode.ShouldMockEthernet | include/test_config.h:53-55 | should_mock_ethernet; TestModeOverrides states its meaning |
| TestMode.ShouldMockMoonraker | include/test_config.h:61-63 | should_mock_moonraker; TestModeOverrides states its meaning |
| TestMode.ShouldUseTestFiles | include/test_config.h:69-71 | should_use_test_files; TestModeOverrides states its meaning |
| TestMode.IsTestMode | include/test_config.h:77-79 | is_test_mode; ProductionNeverMocks relates it to the mocks |
| TestMode.TestModeOverrides | include/test_config.h:45-71 | in test mode each should_mock_* / should_use_test_files holds exactly when its --real-* flag is not set, and a flag affects only its own component |
| TestMode.ProductionNeverMocks | include/test_config.h:28-71 | outside test mode nothing is mocked, and any mock implies test mode |
| TestMode.DefaultIsProduction | include/test_config.h:33-79 | the default configuration is production without mocks; turning on only test_mode mocks everything |
| Translations.EntriesOf | scripts/translations/yaml_manager.py:104-108 | the translations of a well-formed file (a null mapping read as empty) have distinct keys |
| Translations.FindNamed | scripts/translations/coverage.py:40-41 | `base_path.exists()`: the first file with that name at or after `from`, and none exactly when no such file exists |
| Translations.MissingKeysIs | scripts/translations/yaml_manager.py:112-114 | the keys a file lacks are the new keys minus the file's keys |
| Translations.UnicodeSpaceIsBlank | scripts/translations/coverage.py:69-73 | `value.strip()` removes Python's Unicode white space: a no-break or ideographic space alone is blank, and a value with any other character is not |
| Translations.DistinctCard | scripts/translations/yaml_manager.py:112-120 | a mapping with distinct keys has as many keys as entries |
| TranslationMerge.SortEntries | scripts/translations/yaml_manager.py:127-129 | `dict(sorted(...))` orders the keys ascending |
| TranslationMerge.SortEntriesSame | scripts/translations/yaml_manager.py:127-129 | sorting keeps exactly the same keys with the same values |
| TranslationMerge.AscendingUnique | scripts/translations/yaml_manager.py:127-129 | two sorted mappings with the same contents are equal, so the sorted result is unique |
| TranslationMerge.MergeIsDetermined | scripts/translations/yaml_manager.py:110-129 | at most one sorted mapping is the merge of the new keys into a file |
| TranslationMerge.MergeExists | scripts/translations/yaml_manager.py:110-129 | adding the missing keys to the sorted mapping is such a merge |
| TranslationMerge.AddKeys | scripts/translations/yaml_manager.py:112-120 | adding keys keeps the mapping sorted |
| TranslationMerge.AddKeysAll | scripts/translations/yaml_manager.py:112-120 | the result holds every old key with its old value and every new key with its added value |
| TranslationMerge.MergedEntries | scripts/translations/yaml_manager.py:110-129 | the unique merge of the new keys into a file |
| TranslationMerge.MergeNeverOverwrites | scripts/translations/yaml_manager.py:112-120 | an existing value, even an empty one, is never overwritten; an added key gets the key itself for locale "en" and "" otherwise; every old and every new key ends up present |
| TranslationMerge.MergeFile | scripts/translations/yaml_manager.py:110-129 | the key loop adds exactly the keys the file lacks, and counts them; with no additions the mapping is unchanged, otherwise it becomes the sorted merge |
| TranslationMerge.MergeStepAdd | scripts/translations/yaml_manager.py:114-120 | adding an absent key keeps the loop invariant and counts one more |
| TranslationMerge.MergeStepKeep | scripts/translations/yaml_manager.py:114 | a key already present is skipped without changing the mapping or the count |
| TranslationMerge.MergeFinish | scripts/translations/yaml_manager.py:122-129 | at the end of the key loop the count is the number of missing keys and the sorted mapping is the merge |
| TranslationMerge.AddedCountBounds | scripts/translations/yaml_manager.py:110-122 | a file gains at most \|new keys\| keys, and none exactly when it already has them all |
| TranslationMerge.MergeTotalsMeaning | scripts/translations/yaml_manager.py:122-125 | files_modified counts the files that gain a key, keys_added lies between files_modified and files_modified × \|new keys\|, each keys_per_file entry is between 1 and \|new keys\|, and nothing is added exactly when every file already has every key |
| TranslationMerge.TotalsAtLeast | scripts/translations/yaml_manager.py:122-123 | every file's additions are part of keys_added |
| TranslationMerge.TotalsZero | scripts/translations/yaml_manager.py:122-125 | keys_added is 0 exactly when no file gains a key |
| TranslationMerge.MergeOne | scripts/translations/yaml_manager.py:101-132 | one file: the number of keys it gains, and, when it gains any, the merged mapping written back with the comments the chosen handling gives (none as written) |
| TranslationMerge.MergeFiles | scripts/translations/yaml_manager.py:99-134 | the statistics are MergeTotals; a dry run writes nothing, otherwise one merged file per modified file, in directory order, with comments dropped as written or kept as corrected |
| TranslationMerge.SavedMeaning | scripts/translations/yaml_manager.py:122-132 | each written file is the sorted merge of the matching modified file, with no comments as written, or its kept and added comments as corrected |
| TranslationMerge.MergeNewKeys | scripts/translations/yaml_manager.py:82-134 | merge_new_keys as written: the statistics are MergeTotals; a dry run saves nothing; otherwise every modified file is saved, in order, as the merge of its old contents and the new keys, and no key of a saved translations mapping keeps a comment (`dict(sorted(...))` replaces the commented mapping) |
| TranslationMerge.MergeNewKeysKeepingComments | scripts/translations/yaml_manager.py:82-134 | merge_new_keys corrected: the same statistics and merged files, each saved with exactly the key comments its translations mapping had |
| TranslationMerge.MergeNewKeysWithSources | scripts/translations/yaml_manager.py:137-194 | merge_new_keys_with_sources as written: the same for the keys of the sources map, and no key of a saved translations mapping keeps a comment, the " Source: ..." lines included |
| TranslationMerge.MergeNewKeysWithSourcesKeepingComments | scripts/translations/yaml_manager.py:137-194 | merge_new_keys_with_sources corrected: every saved translations mapping keeps the key comments it had and, with ruamel.yaml and a commented mapping, each key it gains carries the " Source: ..." line of its sources |
| TranslationMerge.SourceRef | scripts/translations/yaml_manager.py:176 | a "file:line" reference ends in a digit |
| TranslationMerge.Refs | scripts/translations/yaml_manager.py:176 | one "file:line" reference per source, in order |
| TranslationMerge.OnlyFirstThreeListed | scripts/translations/yaml_manager.py:176-178 | the comment depends only on the first three sources and on how many there are |
| TranslationMerge.MoreSuffix | scripts/translations/yaml_manager.py:176-178 | the comment ends in ")" (the " (+N more)" suffix) exactly when there are more than three sources |
| TranslationMerge.CommentsAfter | scripts/translations/yaml_manager.py:175-181 | the corrected merge keeps every comment the translations mapping had |
| TranslationMerge.SourceCommentIsLost | scripts/translations/yaml_manager.py:175-189 | as written, a key added with sources is saved without its source comment and every earlier comment of the mapping is dropped; corrected, the key carries " Source: ..." and the earlier comments stay |
| Coverage.CoverageBase | scripts/translations/coverage.py:39-46 | the base file is `<base>.yml` when it exists, otherwise the first file; none exactly when the directory has no file |
| Coverage.KeysWhere | scripts/translations/coverage.py:68-73 | the keys selected among the first n base keys are at most n |
| Coverage.Locales | scripts/translations/coverage.py:53-55 | one locale per file, in directory order: the file's `locale`, or its stem |
| Coverage.KeysWhereMembers | scripts/translations/coverage.py:68-73 | a key is selected exactly when it is a base key and its value's blankness (`value.strip()` empty, with Python's Unicode white space) is the one asked for |
| Coverage.KeysPartition | scripts/translations/coverage.py:70-75 | every base key is counted either as translated or as missing |
| Coverage.NothingTranslated | scripts/translations/coverage.py:69 | a file with no translations has nothing translated |
| Coverage.TranslatedAndMissing | scripts/translations/coverage.py:68-75 | translated keys are the base keys with a non-blank value, missing keys those without, and together they are all the base keys |
| Coverage.Percentage | scripts/translations/coverage.py:76 | translated / total × 100, and 100 for no keys; PercentageRange states its meaning |
| Coverage.PercentageRange | scripts/translations/coverage.py:76 | the percentage lies in 0..100 and is 100 exactly when everything is translated |
| Coverage.StatsMeaning | scripts/translations/coverage.py:58-83 | total is the number of base keys and missing is total − translated; the base locale has nothing missing; any other locale counts its non-blank base keys |
| Coverage.CountTranslated | scripts/translations/coverage.py:68-73 | the counting loop gives the number of translated base keys |
| Coverage.LocaleStats | scripts/translations/coverage.py:58-83 | the loop body computes the file's statistics |
| Coverage.CoverageVals | scripts/translations/coverage.py:53-83 | every file contributes its statistics |
| Coverage.CollectStep | scripts/translations/coverage.py:60-83 | one more file's entry overwrites any earlier entry for the same locale |
| Coverage.CollectKeys | scripts/translations/coverage.py:53-83 | a locale is in the result exactly when some file has it and contributes |
| Coverage.CollectFrom | scripts/translations/coverage.py:53-83 | every entry of the result is the contribution of some file with that locale |
| Coverage.CollectLast | scripts/translations/coverage.py:53-83 | the entry for a locale is the contribution of the last file with that locale |
| Coverage.CoveragePerFile | scripts/translations/coverage.py:53-85 | the file loop builds the locale map from each file's statistics |
| Coverage.CalculatedCoverage | scripts/translations/coverage.py:24-85 | the map calculate_coverage returns; CoverageMeaning states its meaning |
| Coverage.CalculateCoverage | scripts/translations/coverage.py:24-85 | calculate_coverage computes CalculatedCoverage, the map CoverageMeaning characterises |
| Coverage.CoverageMeaning | scripts/translations/coverage.py:24-85 | an empty directory gives no entries; otherwise exactly the locales of the files have entries, each the statistics of a file with that locale against the base file's keys; the base locale is fully translated |
| Coverage.CoverageLast | scripts/translations/coverage.py:53-83 | the entry of a locale is the statistics of its last file |
| Coverage.SortStringsMembers | scripts/translations/coverage.py:131 | `sorted(missing)` is strictly ascending and holds the same keys |
| Coverage.ListedMeaning | scripts/translations/coverage.py:119-131 | a file is listed exactly when it is not the base locale and misses some key; then its list is the sorted set of its missing base keys |
| Coverage.MissingVals | scripts/translations/coverage.py:115-131 | every file contributes its missing list, if any |
| Coverage.CollectMissing | scripts/translations/coverage.py:123-128 | the key loop collects the missing base keys, in base order |
| Coverage.LocaleMissing | scripts/translations/coverage.py:116-131 | the loop body computes the file's contribution |
| Coverage.MissingPerFile | scripts/translations/coverage.py:115-131 | the file loop builds the locale map from each file's missing list |
| Coverage.MissingTranslations | scripts/translations/coverage.py:88-133 | the map get_missing_translations returns; MissingTranslationsMeaning states its meaning |
| Coverage.GetMissingTranslations | scripts/translations/coverage.py:88-133 | get_missing_translations computes MissingTranslations, the map MissingTranslationsMeaning characterises |
| Coverage.MissingTranslationsMeaning | scripts/translations/coverage.py:103-133 | no base file, or a base file without keys, gives no entries; every entry is a non-base locale and lists exactly the sorted missing base keys of a file with that locale |
| Coverage.MissingComplete | scripts/translations/coverage.py:119-131 | every non-base locale missing some key has an entry |
| Obsolete.FindObsolete | scripts/translations/obsolete.py:14-52 | find_obsolete_keys with the used strings as a parameter; FindObsoleteMeaning states its meaning |
| Obsolete.FindObsoleteMeaning | scripts/translations/obsolete.py:37-52 | the obsolete keys are never used strings; with no base file there are none; otherwise they are exactly the base keys not used |
| Obsolete.MarkValue | scripts/translations/obsolete.py:105-106 | a value gets the "[DEPRECATED] " prefix unless it already starts with "[DEPRECATED]"; PrefixMarks and MarkIdempotent state its meaning |
| Obsolete.PrefixMarks | scripts/translations/obsolete.py:105-106 | a `[DEPRECATED] ` value counts as marked |
| Obsolete.MarkMeaning | scripts/translations/obsolete.py:102-108 | marking keeps every key in place; values of keys that are not obsolete are untouched; obsolete values end up marked, an unmarked one by the prefix; a value already marked is left as it is |
| Obsolete.MarkCountChanged | scripts/translations/obsolete.py:102-108 | the mark count is the number of entries whose value changed |
| Obsolete.MarkIdempotent | scripts/translations/obsolete.py:105 | marking twice is marking once, and a second pass marks nothing |
| Obsolete.MarkAbsent | scripts/translations/obsolete.py:103 | an obsolete key the file does not have changes nothing |
| Obsolete.MarkNothing | scripts/translations/obsolete.py:87-88 | with no obsolete keys nothing is marked |
| Obsolete.MarkStep | scripts/translations/obsolete.py:102-108 | one more obsolete key marks that key's value when present and unmarked, and counts it |
| Obsolete.MarkKey | scripts/translations/obsolete.py:103-108 | the loop body marks one key as MarkStep says |
| Obsolete.MarkFile | scripts/translations/obsolete.py:99-108 | the key loop produces the marked mapping and the number of values changed |
| Obsolete.MarkObsoleteKeys | scripts/translations/obsolete.py:73-113 | mark_obsolete_keys returns the total marked; a dry run saves nothing, otherwise it saves every changed file, in directory order; no obsolete keys marks and saves nothing |
| Obsolete.MarkNone | scripts/translations/obsolete.py:87-88 | no obsolete keys: nothing counted, nothing saved |
| Obsolete.MarkFlagsUnused | scripts/translations/obsolete.py:102-108 | marking the keys find_obsolete_keys reports flags every unused base key and leaves every used one as it was |
| Obsolete.KeptAppend | scripts/translations/obsolete.py:144-148 | deleting from a longer mapping deletes the same plus the last entry when it is obsolete |
| Obsolete.WithoutAbsent | scripts/translations/obsolete.py:146 | deleting an absent key changes nothing |
| Obsolete.WithoutAppend | scripts/translations/obsolete.py:146 | deleting a key from a concatenation deletes it from each part |
| Obsolete.KeptKeys | scripts/translations/obsolete.py:144-148 | the kept keys are the old keys minus the obsolete ones, with their old values; kept and deleted entries add up to the old size |
| Obsolete.DeleteCountKeys | scripts/translations/obsolete.py:144-148 | the delete count is the number of obsolete keys the file has |
| Obsolete.KeyOnlyAt | scripts/translations/obsolete.py:144 | in a mapping with distinct keys a key occurs at one position only |
| Obsolete.WithoutMiddle | scripts/translations/obsolete.py:146 | deleting a key that occurs once removes exactly that entry |
| Obsolete.DeleteAt | scripts/translations/obsolete.py:144-146 | deleting the key at position i of the partly filtered mapping removes just that entry |
| Obsolete.DeleteStep | scripts/translations/obsolete.py:144-148 | one more loop step deletes that key when it is obsolete, and counts it |
| Obsolete.DeleteFile | scripts/translations/obsolete.py:142-148 | the key loop keeps the non-obsolete entries, in order, and counts the deleted ones |
| Obsolete.DeleteObsoleteKeys | scripts/translations/obsolete.py:116-153 | delete_obsolete_keys returns the total deleted; a dry run saves nothing, otherwise it saves every changed file, in directory order; no obsolete keys deletes nothing |
| Obsolete.DeleteNothing | scripts/translations/obsolete.py:130-131 | with no obsolete keys nothing is deleted |
| Obsolete.DeleteNone | scripts/translations/obsolete.py:130-131 | no obsolete keys: nothing counted, nothing saved |
| Obsolete.DeleteLeavesUsed | scripts/translations/obsolete.py:144-148 | deleting the keys find_obsolete_keys reports leaves exactly the used base keys, with their values |
| LvglMock.CStr | tests/mocks/lvgl_mock.cpp:194 | reading a `char*` stops at the first NUL: the result is the longest NUL-free prefix |
| LvglMock.CStrIs | tests/mocks/lvgl_mock.cpp:212-213 | a buffer with its first NUL at k reads as its first k characters |
| LvglMock.StrNCopy | tests/mocks/lvgl_mock.cpp:212 | strncpy writes the source characters and then NUL padding over the first n cells and nothing beyond |
| LvglMock.CopyToBuffer | tests/mocks/lvgl_mock.cpp:211-213 | `strncpy(buf, v, size - 1); buf[size - 1] = '\0'` leaves the value, truncated to size − 1 characters, NUL-terminated, and leaves the cells from size on untouched |
| LvglMock.ReadBack | tests/mocks/lvgl_mock.cpp:211-213 | reading the buffer back gives the value truncated to size − 1 characters, the whole value when it fits |
| LvglMock.MinOf | tests/mocks/lvgl_mock.cpp:60 | a non-empty set of handles has a least element |
| LvglMock.LeastHandle | tests/mocks/lvgl_mock.cpp:60 | the least handle of a non-empty set, which the map iteration visits first |
| LvglMock.PickLeast | tests/mocks/lvgl_mock.cpp:118 | the loop step picks the least remaining handle |
| LvglMock.FirstNamed | tests/mocks/lvgl_mock.cpp:125-132 | find_widget_by_name: none exactly when no widget has the name; otherwise a widget with that name, the first one the iteration reaches |
| LvglMock.RetextKeepsNames | tests/mocks/lvgl_mock.cpp:58-65 | changing a widget's text never changes which widget a name finds |
| LvglMock.TimerCallsStep | tests/mocks/lvgl_mock.cpp:118-122 | process_timers calls the first timer's callback, when set, and then goes on with the rest |
| LvglMock.TimerCallsSound | tests/mocks/lvgl_mock.cpp:118-122 | every call is of a live timer's own callback, with that timer |
| LvglMock.TimerCallsAscending | tests/mocks/lvgl_mock.cpp:118-122 | each timer is called at most once, in handle order |
| LvglMock.TimerCallsComplete | tests/mocks/lvgl_mock.cpp:118-122 | every live timer with a callback is called |
| LvglMock.DeletedTimerNotCalled | tests/mocks/lvgl_mock.cpp:305-308 | a deleted timer is never called |
| LvglMock.EventCalls | tests/mocks/lvgl_mock.cpp:265-273 | one event per registered callback, in registration order, each with the target, the code, the widget's user data and the parameter |
| LvglMock.AddU32 | tests/mocks/lvgl_mock.cpp:111-114 | `mock_tick += ms` on a uint32_t: the sum modulo 2^32, the plain sum when it fits |
| LvglMock.AdvanceTwice | tests/mocks/lvgl_mock.cpp:111-114 | advancing by a and then by b is advancing by a + b, modulo 2^32 |
| LvglMock.Lvgl.constructor | tests/mocks/lvgl_mock.cpp:29-38 | the global state starts empty, with no screen, tick 0 and both counters at 1 |
| LvglMock.Lvgl.Reset | tests/mocks/lvgl_mock.cpp:48-56 | reset clears widgets, subjects, registry and timers, drops the screen and zeroes the tick; the counters keep counting |
| LvglMock.Lvgl.NewWidget | tests/mocks/lvgl_mock.cpp:68-69 | a new widget gets the next counter value, a handle no live widget has |
| LvglMock.Lvgl.ScrAct | tests/mocks/lvgl_mock.cpp:174-176 | lv_scr_act reads the active screen |
| LvglMock.Lvgl.Init | tests/mocks/lvgl_mock.cpp:40-46 | init resets and then creates the single "screen" widget, which becomes the active screen |
| LvglMock.Lvgl.FindWidgetByName | tests/mocks/lvgl_mock.cpp:125-132 | the search loop returns the first widget with the name, or none |
| LvglMock.Lvgl.ObjFindByName | tests/mocks/lvgl_mock.cpp:155-172 | lv_obj_find_by_name always returns a widget with that name: the existing first one with nothing changed, or a new empty one |
| LvglMock.Lvgl.XmlCreate | tests/mocks/lvgl_mock.cpp:140-153 | lv_xml_create adds a fresh widget named after the component with the user data, and changes nothing else |
| LvglMock.Lvgl.TextareaGetText | tests/mocks/lvgl_mock.cpp:178-187 | an unknown widget reads as "" |
| LvglMock.Lvgl.TextareaSetText | tests/mocks/lvgl_mock.cpp:189-198 | the widget's text becomes the given text and reads back as it; an unknown widget changes nothing |
| LvglMock.Lvgl.GetTextareaValue | tests/mocks/lvgl_mock.cpp:72-79 | the text of the first widget with the name, "" when there is none |
| LvglMock.Lvgl.SetTextareaValue | tests/mocks/lvgl_mock.cpp:58-70 | afterwards the name reads back the value: the first widget with the name is retexted, or a new widget is created with it |
| LvglMock.Lvgl.SubjectInitString | tests/mocks/lvgl_mock.cpp:200-217 | the subject is (re)recorded with its buffer, size and initial value ("" when null); with both a buffer and a value the buffer holds the value as CopyToBuffer says |
| LvglMock.Lvgl.XmlRegisterSubject | tests/mocks/lvgl_mock.cpp:219-228 | the name maps to the subject, and a known subject takes the name |
| LvglMock.Lvgl.SubjectCopyString | tests/mocks/lvgl_mock.cpp:230-245 | a known subject takes the value and, when it has a buffer, the buffer holds it; an unknown one changes nothing |
| LvglMock.Lvgl.GetSubjectValue | tests/mocks/lvgl_mock.cpp:81-90 | a name that was never registered reads as "" |
| LvglMock.Lvgl.AddEventCb | tests/mocks/lvgl_mock.cpp:247-257 | the callback is appended to a known widget's list and its user data replaced; an unknown widget changes nothing |
| LvglMock.Lvgl.Deliver | tests/mocks/lvgl_mock.cpp:265-273 | every callback of the widget is called once, in order, with the event |
| LvglMock.Lvgl.EventSend | tests/mocks/lvgl_mock.cpp:259-277 | sending to a known widget runs its callbacks; to an unknown one, nothing |
| LvglMock.Lvgl.TriggerButtonClick | tests/mocks/lvgl_mock.cpp:92-109 | a CLICKED event with no parameter goes to the callbacks of the first widget with the name, if any |
| LvglMock.Lvgl.TickGet | tests/mocks/lvgl_mock.cpp:286-288 | lv_tick_get reads the tick |
| LvglMock.Lvgl.AdvanceTime | tests/mocks/lvgl_mock.cpp:111-114 | the tick advances by ms with uint32 wrap-around, and nothing else changes |
| LvglMock.Lvgl.TimerCreate | tests/mocks/lvgl_mock.cpp:290-303 | a timer with the callback, period and user data under the next, unused, handle |
| LvglMock.Lvgl.TimerDel | tests/mocks/lvgl_mock.cpp:305-308 | the timer is removed, and nothing else changes |
| LvglMock.Lvgl.ProcessTimers | tests/mocks/lvgl_mock.cpp:116-123 | one call per timer with a callback, as TimerCalls, and no state changes |
| PrintMock.MethodNamesDistinct | src/moonraker_client_mock_print.cpp:12-96 | the five handlers have five distinct method names |
| PrintMock.RegisterPrintHandlers | src/moonraker_client_mock_print.cpp:10-113 | the five names map to their handlers, overwriting any earlier entry, and every other entry is kept |
| PrintMock.StringParam | src/moonraker_client_mock_print.cpp:16-19 | "" when the key is absent; the string when it holds one; a type error otherwise |
| PrintMock.Handle | src/moonraker_client_mock_print.cpp:12-112 | every handler returns true; success replies go to the success callback with `{}`, failures to the error callback as validation errors under the handler's method; only a non-string script or filename throws |
| PrintMock.GcodeForwardsScript | src/moonraker_client_mock_print.cpp:12-25 | the script (or "") is passed to gcode_script and the reply is `{}` exactly when there is a success callback |
| PrintMock.StartWithoutFilename | src/moonraker_client_mock_print.cpp:31-53 | an absent or empty filename starts nothing and reports "Missing filename parameter" when there is an error callback |
| PrintMock.StartWithFilename | src/moonraker_client_mock_print.cpp:35-46 | a filename starts that print; success replies `{}`; failure reports "Failed to start print" |
| PrintMock.ControlSucceedsIff | src/moonraker_client_mock_print.cpp:58-112 | pause, resume and cancel ignore the parameters, always call their operation, and reply success exactly when it succeeds, else their own message |
| PrintMock.NoReplyWithoutCallbacks | src/moonraker_client_mock_print.cpp:21-53 | with neither callback set nothing is called |
| BedMeshMock.MeshOf | tests/unit/test_moonraker_mock_bed_mesh.cpp:93-99 | the probed mesh carries the profile name and grid, and its counts are the grid's dimensions |
| BedMeshMock.Parse | tests/unit/test_moonraker_mock_bed_mesh.cpp:154-295 | the bed-mesh command a script line asks for; ParseRender and RenderParse state its meaning |
| BedMeshMock.ParseRender | tests/unit/test_moonraker_mock_bed_mesh.cpp:159-195 | each bed-mesh command line parses back to the command it renders |
| BedMeshMock.RenderParse | tests/unit/test_moonraker_mock_bed_mesh.cpp:159-292 | every line recognised as a bed-mesh command is exactly that command's rendering |
| BedMeshMock.SampleGrid | tests/unit/test_moonraker_mock_bed_mesh.cpp:93-99 | sampling the generated surface gives a 7×7 grid whose cells are the surface heights |
| BedMeshMock.InitialState | tests/unit/test_moonraker_mock_bed_mesh.cpp:93-124 | for any generated surfaces, after construction a 7×7 mesh with data is active and both "default" and "adaptive" are stored |
| BedMeshMock.Apply | tests/unit/test_moonraker_mock_bed_mesh.cpp:154-295 | what LOAD, REMOVE, CALIBRATE and CLEAR do to the mesh state; the lemmas below state its meaning |
| BedMeshMock.Run | tests/unit/test_moonraker_mock_bed_mesh.cpp:154-295 | gcode_script on one line: Apply of Parse |
| BedMeshMock.ApplyValid | tests/unit/test_moonraker_mock_bed_mesh.cpp:154-295 | every command keeps each profile stored under its own name |
| BedMeshMock.LoadStored | tests/unit/test_moonraker_mock_bed_mesh.cpp:157-171 | LOAD of a stored profile makes exactly its data active and keeps the profiles |
| BedMeshMock.LoadRestores | tests/unit/test_moonraker_mock_bed_mesh.cpp:157-171 | loading a, then b, then a again gives a's data back |
| BedMeshMock.CalibrateThenLoad | tests/unit/test_moonraker_mock_bed_mesh.cpp:173-186 | calibrating stores and activates the probed mesh, and a later LOAD brings back the same data |
| BedMeshMock.CalibrateNewAddsOne | tests/unit/test_moonraker_mock_bed_mesh.cpp:249-259 | calibrating under a new name adds exactly that profile |
| BedMeshMock.RemoveDeletes | tests/unit/test_moonraker_mock_bed_mesh.cpp:188-201 | REMOVE drops just that name and keeps every other profile and the active mesh |
| BedMeshMock.MissingNameChangesNothing | tests/unit/test_moonraker_mock_bed_mesh.cpp:269-287 | LOAD or REMOVE of an unknown name changes nothing |
| BedMeshMock.ClearRemovesMesh | tests/unit/test_moonraker_mock_bed_mesh.cpp:289-295 | BED_MESH_CLEAR leaves no active mesh and keeps the profiles |
| BedMeshMock.BedMeshMock.constructor | tests/unit/test_moonraker_mock_bed_mesh.cpp:93-124 | the mock starts in the initial state |
| BedMeshMock.BedMeshMock.GcodeScript | tests/unit/test_moonraker_mock_bed_mesh.cpp:154-295 | gcode_script returns 0 and applies the line's command to the mesh state |
| ClientMock.CallIfSet | tests/mocks/moonraker_client_mock.cpp:69-71 | a callback is called once when set and not at all when empty |
| ClientMock.MoonrakerClientMock.constructor | tests/mocks/moonraker_client_mock.cpp:24-26 | a new mock is in the reset state |
| ClientMock.MoonrakerClientMock.Connect | tests/mocks/moonraker_client_mock.cpp:28-36 | connect stores the URL and both callbacks, returns 0, and neither connects nor calls anything |
| ClientMock.MoonrakerClientMock.SendJsonRpc | tests/mocks/moonraker_client_mock.cpp:38-53 | the method is appended to the list, everything else kept, and 0 returned |
| ClientMock.MoonrakerClientMock.GcodeScript | tests/mocks/moonraker_client_mock.cpp:55-58 | gcode_script returns 0 |
| ClientMock.MoonrakerClientMock.DiscoverPrinter | tests/mocks/moonraker_client_mock.cpp:60-64 | discover_printer is a no-op: it changes nothing and calls nothing |
| ClientMock.MoonrakerClientMock.IsConnected | tests/mocks/moonraker_client_mock.h:79 | is_connected reads the connected flag |
| ClientMock.MoonrakerClientMock.TriggerConnected | tests/mocks/moonraker_client_mock.cpp:66-72 | the mock becomes connected and the connect callback, when set, is called once |
| ClientMock.MoonrakerClientMock.TriggerDisconnected | tests/mocks/moonraker_client_mock.cpp:74-80 | the mock becomes disconnected and the disconnect callback, when set, is called once |
| ClientMock.MoonrakerClientMock.Reset | tests/mocks/moonraker_client_mock.cpp:82-89 | callbacks, URL and methods are cleared and the mock is disconnected, with no callback called |
| ClientMock.ConnectFlow | tests/unit/test_mock_example.cpp:36-59 | connect then trigger_connected: connected, the URL recorded, and the connect callback called exactly once |

## Left out

- WebSocket transport (src/moonraker_client.cpp:34-45, 104-123): opening the socket, the open and close wiring, the ping interval and libhv's reconnection and backoff. This is network I/O in a foreign library. The model starts from a connected client and records the frames it sends.
- Log output (spdlog) and the JSON text of `dump()`. Frames are kept as values, not as serialised text.
- Floating-point G-code (src/moonraker_api.cpp:263-320, 576-595) and the `float`/`double` fields of FileInfo and FileMetadata. The decoders check these fields' JSON kind but do not carry their values.
- The other Moonraker API calls: the file operations (delete, move, copy, directories), print control and emergency stop. They only forward a method and parameters to the client, which is modelled.
- The asynchronous reply paths of `list_files` and `get_file_metadata` are modelled as functions of the reply (ListFilesReply, FileMetadataReply); the callbacks themselves are identities.
- Coverage percentages are real numbers (Coverage.Percentage); Python's `round(…, 1)` and the report and bar formatting (scripts/translations/coverage.py:136-190) are not modelled.
- YAML loading and saving, and directory globbing (scripts/translations/yaml_manager.py:32-79). A directory is a sequence of files in glob order, and a save is an appended SavedFile. ruamel.yaml's comment objects are reduced to one comment string per key.
- The XML and C++ string extractor used by `find_obsolete_keys`. The set of used strings is a parameter.
- `report_obsolete_keys` (scripts/translations/obsolete.py:55-70) only prints.
- scripts/translation_sync.py and scripts/translations/__init__.py: a command-line wrapper and re-exports.
- Reading resolv.conf from disk and `in_addr` formatting. Nameserver parsing works on the file's lines, with a missing file (or a null path) as None. The random DNS transaction id is a parameter.
- Theme file loading and saving, and `parse_theme_json`. Their implementation is not part of this model and they are file I/O.
- LVGL-bound UI code: widget building in the notification-history panel (reduced to the list of items a refresh creates), the theme manager, icons, keyboard mock and glyph headers. These are foreign calls, no-ops or declarations.
- include/sensor_registry.h: declarations only.
- The print state of the Moonraker mock. The result of `start_print_internal`, `pause_print_internal`, `resume_print_internal` and `cancel_print_internal` is a parameter of the handlers, and `gcode_script`'s own effects are recorded as the call it receives.
- The bed-mesh mock's random mesh generation, z-ranges and bounds. A mesh is its name, its counts and an opaque grid of integers. The generated surfaces are parameters: the default one is a height function sampled on the 7×7 probe grid the tests check, and the adaptive and calibrated grids are given as they are. G-code lines other than the four bed-mesh commands leave the mesh state alone.
- `discover_printer` of the client mock never calls its callback. It is modelled as a method that changes nothing.
- The LVGL mock's `std::unordered_map` iteration order is unspecified in C++. The model iterates in ascending handle order, so "the first widget with a name" is the one with the least handle.
- LvglMock.Lvgl.AdvanceTime: the uint32 tick wraps modulo 2^32 as in C++. The 64-bit `widget_counter` and `timer_counter` are unbounded, because they cannot wrap in any test.
- The LVGL mock's callbacks are identities recorded in `fired`. What a callback does to the mock state (the test's own lambda) is not modelled, so the methods that run callbacks state no state change.
- `lv_xml_register_event_cb` is a no-op in the mock, and the observer callback of `lv_subject_init_string` is unused. Neither is modelled.
- ThemeDual.GetModeSupport: when neither palette is valid, the tests do not fix a result and the model returns None.
- MoonrakerErrors.HttpMessage: the exact text of an HTTP error message is not fixed by the tests. The model uses "HTTP <status>: <message>", and its proofs use only that the text contains the status number and the given message.
- NotificationHistory.HistoryPanel.Refresh: the early returns when the LVGL widgets `overlay_content` or the list container are missing (src/ui_panel_notification_history.cpp:145-156) are not modelled. In that case the code returns without listing anything or marking entries read. The model treats the panel as either absent or complete.
- JSON-pointer tokens that index arrays ("/0", "/-") are not modelled. Every token is an object key, which is all the tests use.
- Real closures and exceptions. Callbacks are identities recorded in traces, and a `get<>()` that would throw is an Err or a None.
- Integer widths elsewhere: timestamps, DNS fields and ports are bounded by their ranges where the code checks them; other counters are unbounded.

## Findings

| source | as written | input that shows it | evidently intended | confidence | as-written member | corrected member |
|---|---|---|---|---|---|---|
| src/ui_panel_notification_history.cpp:31 | the ERROR icon is the bytes EF 81 81, which is the UTF-8 encoding of U+F041 | severity ERROR | U+F071 (exclamation-triangle), the glyph its own comment names and the WARNING line spells as EF 81 B1 | medium, not executed | NotificationHistory.ErrorIconAsWrittenIsNotTriangle | NotificationHistory.SeverityIconEncodesIntended |
| scripts/translations/yaml_manager.py:128-189 | merge_new_keys and merge_new_keys_with_sources replace the loaded `translations` mapping with the plain dict `dict(sorted(...))` before saving. With ruamel.yaml that dict carries no comments, so every comment inside the translations mapping is lost, and so is each " Source: …" comment the second function has just attached; the top-level document keeps its own comments | one file lacking key k, with sources for k and ruamel.yaml available | each added key is saved with its source comment, and the translations mapping's existing comments are kept | high, not executed | TranslationMerge.MergeNewKeysWithSources | TranslationMerge.MergeNewKeysWithSourcesKeepingComments |

