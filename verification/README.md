# VoxTun in Dafny

VoxTun is a SIP/IAX tunnel: a public server relays signalling and media between outside phones and a
PBX behind NAT. This project models the parts of the server whose behaviour is hardest to see from one
function at a time, and proves what they do over all inputs and all runs.

| files | what they cover |
|---|---|
| `text.dfy` | Go's string operations used below: index, split, join, trim, case folding, numbers |
| `sip_message.dfy`, `sip_headers.dfy`, `sip_stream.dfy` | parsing and printing SIP messages, and what that means for their text; cutting a TCP stream into messages |
| `sdp.dfy`, `sdp_meaning.dfy`, `sdp_agreement.dfy` | extracting media entries from an SDP body and rewriting it, word by word; when the two agree |
| `sip_rewrite.dfy`, `sip_framing.dfy`, `sip_object.dfy`, `sip_bridge.dfy`, `sip_external.dfy`, `sip_pipe.dfy` | rewriting one message and when the result frames, the message object, what a bridge writes, a rewrite with the session's relays, the bridge loop |
| `rtp_pool.dfy`, `rtp_lifecycle.dfy`, `rtp_orphans.dfy`, `rtp_calls.dfy`, `rtp_steps.dfy`, `rtp_session.dfy`, `sip_release.dfy` | RTP ports and relays: allocation, every interleaving, single operations, one session |
| `config_section.dfy`, `config_meaning.dfy`, `config_editor.dfy`, `config_reader.dfy`, `config_readback.dfy`, `ip_admin.dfy` | the in-place editor of the `ipFilter` section, what a YAML loader reads back, the dashboard edits that drive the editor, and the verdict on an address |
| `deny_log.dfy` | the rate limit on denial log entries |
| `ext_*.dfy` | per-extension call statistics against the history of events |
| `registry.dfy`, `registry_session.dfy`, `work_conn.dfy` | who owns which public port; matching work connections |
| `codec.dfy` | the framing of control messages |

Objects the program updates in place are classes whose methods are tied to specification functions;
the properties are lemmas about those functions. Behaviour spread over goroutines (relays, proxies) is a
state machine with one action per critical section, and its lemmas quantify over every run.

Main results:

- **The bridge writes everything a healthy destination takes**: one output for every message that is not
  blank, in order (`SipPipe.PipeSIP`), a repeated header with all of its values (`SipHeaders.ParsedFields`),
  an SDP body with its addresses and ports replaced (`SdpMeaning.SdpBodyRewritten`, `LineRewritten`). A
  destination that breaks gets exactly what goes through before it does.
- **When the bridge keeps framing.** What `pipeSIP` writes reads back as exactly the messages it wrote if
  and only if every rewritten one has a head within the reader's limit and the right length
  (`SipBridge.BridgedStream`); the length is right if and only if, read off the message before the
  rewrite, no header behind the repaired one declares another length last, or, where none is repaired,
  the message declares what is sent (`SipFraming.RewrittenFramedExactly`). Unrewritten traffic always
  reads back (`ForwardedStream`), and so does what was written before a failed write (`CutStream`).
- **The peer is told the session's relays**: the SDP that it reads advertises at index i the port that the
  session maps under that index of the call, or the original one (`SipExternal.RelaysAdvertised`); while
  ports are free and their sockets open, every index gets one (`RtpSession.EveryIndexServed`).
- **Parsing is a normal form** exactly when no repeated header ends in an empty occurrence
  (`SipMessage.ParseNormalForm`).
- **Extraction and rewriting of SDP agree**, for every relay map, exactly when no `m=` line without an
  integer port precedes one that has a port (`SdpAgreement.AgreesIffAligned`).
- **Ports are accounted for** over every interleaving: the used set is the ports of the relays that own
  one, they are distinct, each is freed once and only by its owner (`RtpLifecycle.PortsAccounted`). A live
  relay is orphaned exactly when an overlapping call overwrote its map entry
  (`RtpOrphans.OrphansAreOverwritten`), and a mapped relay is live exactly when it has not idled out
  (`MappedLiveIffNotIdled`); a key keeps its port exactly as long as its entry is not overwritten
  (`StableExactly`).
- **Edits of the configuration file do not pile up** and touch nothing else (`ConfigEditor.LastEditWins`,
  `EditIsLocal`). They read back exactly when the kept keys of the section stand at the editor's column,
  deeper lines only below a key without a value, and nothing of ours hides below the section
  (`ConfigReadback.ReadBack`); for exactly those files a restart finds the setting in force after any
  history of edits and failures (`IpAdmin.RestartFindsSetting`).
- **The rules in force are those of the setting** after every history (`IpAdmin.AgreeFrom`): an address comes
  in exactly when no entry of the deny list covers it, and one of the allow list does unless there is none
  (`VerdictOfSetting`).
- **The call counters are a function of the history**, talk time is bounded, bytes are conserved
  (`ExtHistory.CountersAreHistory`, `ExtTalk.TalkBounded`, `ExtBytes.BytesConserved`).
- **Whoever holds a proxy is the one registered**, over every interleaving (`Registry.OwnersAreRegistered`).

Where the code and what its comments promise differ, the model follows the code:

- `SetHeader` compares header names exactly while the readers fold case, so a message may leave with two
  Content-Length headers; the last positive one wins on the other side, so a repaired header is undone by
  a differently spelt one behind it (`SipFraming.SetLength`). Two Content-Length headers of one spelling
  are merged into a list that declares nothing (`RepeatedLengthBreaks`), and white space before the colon
  hides the header from the stream reader but not from the parser (`PaddedLengthBreaks`).
- After an idle timeout the relay stays in the session's map although its port is free again, so one
  result can name a port twice (`RtpCalls.IdleReuse`), and only then; a port is another relay's too exactly
  when it was given back and is used again (`RtpOrphans.PortTakenAgain`, `ResultPortsOwn`).
  Two overlapping calls for one key orphan a live relay (`RtpCalls.OverlapOrphans`). The invariants are
  therefore about relays, not about the map.
- The section editor's comment says that column-0 comments at the end of a section are left to the next
  one. A column-0 comment anywhere ends the section, so the test for such lines when the end is moved
  back never applies, and keys below such a comment are written a second time above it. In a file with
  CRLF line ends an empty line ends the section too. The editor writes its keys at two spaces whatever
  the section's indentation is and keeps other lines where they stand, so a section indented otherwise
  with a key of its own no longer loads (`ConfigReadback.IndentedFileFails`). `ReadBack` says
  exactly which files are safe to edit, for the loader described under "Left out".
- A proxy that finishes starting after its session was closed is entered into the closed session and
  keeps its port (`Registry.EnterAfterClose`).

The clock readings of the extension tracker are taken before its lock. `ExtTalk` assumes that the
readings do not run backwards in the order in which the lock is taken; `ExtHistory` assumes nothing. The
denial log reads the clock before its lock too (internal/app/common/ipfilter/ipfilter.go:225-226), so
`DenyLog.Monotone` is likewise about the order in which callers get the lock as well as about the clock.

A session's own proxy map is guarded by one lock, which `handleProxyClosed` and `Close` hold while they
unregister. The registry machine takes a proxy out of its session first and unregisters it in a later
step, as `closeProxy` does; under the lock the order of the two is not visible to other holders of it.

## Model

| member | source | states |
|---|---|---|
| Text.WhiteSpace | internal/app/protocol/sip/sip.go:84-85 | trimming takes blanks, tabs, line feeds, vertical tabs, form feeds and carriage returns for white space |
| Text.LetterCase | internal/app/protocol/sip/sip.go:335 | lowering turns the 26 upper-case letters into the lower-case ones and keeps every other byte |
| Text.Decimal | internal/app/protocol/sip/sip.go:373 | numbers are printed in decimal digits, the last digit last |
| SipMessage.ParseRendered | internal/app/protocol/sip/sip.go:30-96 | parsing CRLF-terminated head lines, a blank line and a body sees exactly those lines and that body |
| SipMessage.ParsePrintable | internal/app/protocol/sip/sip.go:30-96 | whatever the bytes, the parsed message has one order entry per header, no CRLF and no colon in a name, and a start line that prints unambiguously |
| SipMessage.Reparse | internal/app/protocol/sip/sip.go:186-211 | parsing a printed message changes nothing but outer white space of header values |
| SipMessage.PrintRoundTrip | internal/app/protocol/sip/sip.go:186-211 | Parse inverts Bytes if and only if the header values are trimmed |
| SipMessage.MergeTrimmed | internal/app/protocol/sip/sip.go:76-93 | merged header values are trimmed if and only if no repeated header ends in an empty occurrence |
| SipMessage.ParseNormalForm | internal/app/protocol/sip/sip.go:30-96 | Parse(Bytes(Parse(d))) == Parse(d), for every byte string, if and only if no repeated header ends in an empty occurrence |
| SipHeaders.MergedHeaders | internal/app/protocol/sip/sip.go:86-92 | every header has all the values given under its name, in order and separated by ", ", and the order of the headers is that of their first occurrences |
| SipHeaders.ParsedFields | internal/app/protocol/sip/sip.go:75-93 | the same of parsed text: for lines name:value in any number, values and names without the white space around them |
| SipHeaders.NoFieldLine | internal/app/protocol/sip/sip.go:80-83 | a line without a colon is no header |
| SipHeaders.HeadOnly | internal/app/protocol/sip/sip.go:35-42 | without a blank line there is no body and every line but the first may be a header |
| SipHeaders.RequestLine | internal/app/protocol/sip/sip.go:61-74 | a first line that does not begin with SIP/ is method, URI and version, cut at the first two blanks |
| SipHeaders.StatusLine | internal/app/protocol/sip/sip.go:48-60 | one that does is version, status and reason |
| SipHeaders.PrintedText | internal/app/protocol/sip/sip.go:186-211 | a message prints as its start line, a line name: value for every header in order, a blank line and its body |
| SipStream.BufReader.ReadLine | internal/app/protocol/sip/sip.go:132 | returns the bytes up to and including the next line feed, or the rest at the end of the stream, and advances past them |
| SipStream.BufReader.ReadFull | internal/app/protocol/sip/sip.go:155 | returns exactly n bytes and advances past them, or fails on a shorter rest |
| SipStream.ReadHead | internal/app/protocol/sip/sip.go:131-152 | the header loop consumes and buffers exactly the head the scan finds, or fails where the scan does, and says where the reader stands either way |
| SipStream.ReadMessageFromStream | internal/app/protocol/sip/sip.go:127-161 | the loop returns the message that ReadMessage finds at the front of the stream, or fails with its error, and in both cases leaves exactly the rest it gives |
| SipStream.ReadIsFramed | internal/app/protocol/sip/sip.go:127-161 | a message that was read is read again alone, and before any other bytes unless it was the very last and its head ended in a bare carriage return |
| SipStream.ChunksConserve | internal/app/protocol/sip/sip.go:127-161 | for every byte stream the returned messages concatenate to the consumed prefix |
| SipStream.ChunksReadable | internal/app/protocol/sip/sip.go:127-161 | every message of a stream reads back as itself, and all but the last whatever follows |
| SipStream.ChunksOfConcat | internal/app/protocol/sip/sip.go:127-161 | reading the concatenation of framed messages returns those messages |
| SipStream.ConcatReads | internal/app/protocol/sip/sip.go:127-161 | a list of messages is recovered from its concatenation if and only if each reads as itself and all but the last are framed |
| SipStream.ChunksOfPrefix | internal/app/protocol/sip/sip.go:127-161 | framed messages are recovered whatever bytes follow them |
| SipStream.ScanRendered | internal/app/protocol/sip/sip.go:131-152 | scanning rendered lines reaches the end of the head with the last positive Content-Length, or reports a head over 64 KiB |
| SipStream.FramedRendered | internal/app/protocol/sip/sip.go:127-161 | a rendered message frames as one message if and only if its head fits and its last positive Content-Length is its body's length |
| SipHeaders.LengthLine | internal/app/protocol/sip/sip.go:139-146 | the stream reader takes a line for a length header exactly when its name is content-length in any letter case |
| SipHeaders.MessageRead | internal/app/protocol/sip/sip.go:127-161 | a head of more than 64 KiB is an error; a message has as many bytes behind its head as the last length in it says, or the stream is too short |
| SipHeaders.SipStarts | internal/app/protocol/sip/sip.go:99-119 | a message is SIP exactly when it begins with one of fourteen methods and a blank, or with SIP/2.0 and a blank |
| Sdp.RewriteLineTwice | internal/app/protocol/sip/sip.go:342-369 | rewriting a rewritten SDP line changes nothing |
| Sdp.OtherLinesUntouched | internal/app/protocol/sip/sip.go:342-369 | every line keeps its type, c= lines become the public address, and lines other than c=, o= and m= are unchanged |
| Sdp.RewrittenLines | internal/app/protocol/sip/sip.go:339-371 | splitting the rewritten body gives the rewritten lines, so positions are kept |
| Sdp.RewriteBodyTwice | internal/app/protocol/sip/sip.go:331-377 | rewriting a body twice is rewriting it once |
| Sdp.KindsRewritten | internal/app/protocol/sip/sip.go:342-369 | what the extractor sees of a rewritten body is its view of the original with the address and the ports replaced |
| Sdp.ExtractRewrittenBody | internal/app/protocol/sip/sip.go:293-377 | the entries extracted from a rewritten body are those of the rewritten view |
| SdpMeaning.LineRewritten | internal/app/protocol/sip/sip.go:342-369 | the sixth word of an o= line becomes the address, the second of an m= line the port if there is one, a c= line is replaced, and nothing else changes |
| SdpMeaning.LineAt | internal/app/protocol/sip/sip.go:341-369 | a line is rewritten with the port of the relay whose index is the number of m= lines before it |
| SdpMeaning.LineSeen | internal/app/protocol/sip/sip.go:300-312 | what the extractor takes from a line, word by word |
| SdpMeaning.ExtractMeans | internal/app/protocol/sip/sip.go:298-324 | one entry for every m= line with an integer port, in order, with the last c= address since the entry before it, or else the last one before the first entry |
| SdpMeaning.SdpBodyRewritten | internal/app/protocol/sip/sip.go:331-371 | a message whose Content-Type holds application/sdp in any letter case and whose body has a line to rewrite is given the body rewritten line by line |
| SdpMeaning.TypesAndBodies | internal/app/protocol/sip/sip.go:335-338 | so is one without a Content-Type; one with another type, or without a line to rewrite, keeps its body |
| SdpAgreement.ExtractCount | internal/app/protocol/sip/sip.go:293-325 | one entry per m= line with an integer port |
| SdpAgreement.RewriteAgrees | internal/app/protocol/sip/sip.go:293-377 | on an aligned body, with relays for all entries or only some, ports repeated or not: same media types in order, port i is relay i or the original port where there is none, the public address wherever the original entry had one |
| SdpAgreement.BodyMisaligned | internal/app/protocol/sip/sip.go:312-359 | on a body that is not aligned some relay map, even one with a port of its own for every entry, makes extraction and rewriting disagree |
| SdpAgreement.AgreesIffAligned | internal/app/protocol/sip/sip.go:293-377 | agreement for every relay map, and likewise for every one that covers the entries, if and only if no m= line without an integer port precedes one that has a port |
| SipRewrite.PrintedFramed | internal/app/protocol/sip/sip.go:127-211 | a clean message prints as one framed message if and only if its head fits and its last positive Content-Length, in any letter case, is its body's length |
| SipRewrite.ParseClean | internal/app/protocol/sip/sip.go:30-96 | a SIP chunk without bare CR or LF in its head parses to a clean message with the same body |
| SipRewrite.ParsedLength | internal/app/protocol/sip/sip.go:60-93 | with one well-placed Content-Length the stream reader and the parsed message agree on the length |
| SipFraming.SetLength | internal/app/protocol/sip/sip.go:178-183 | after setting Content-Length the declared length is the new one unless a differently spelt header behind it declares another length last |
| SipFraming.SingleRepaired | internal/app/protocol/sip/sip.go:178-183 | with a single length header of whatever spelling, setting Content-Length repairs the declared length, overwriting the old header or following it |
| SipFraming.SdpDeclares | internal/app/protocol/sip/sip.go:331-377 | the SDP rewrite leaves a message that declares its body's length if and only if a condition on the message before it holds |
| SipFraming.RoutingDeclares | internal/app/protocol/sip/sip.go:385-399 | the routing rewrite does not disturb the declared length |
| SipFraming.RewrittenFramedExactly | internal/app/server/proxy.go:292-318 | for every clean message and all choices the rewritten message declares its body's length if and only if that condition holds, and frames if and only if its head fits as well |
| SipFraming.FitsIsRight | internal/app/protocol/sip/sip.go:331-377 | a message whose one length header agrees with its body meets the exact condition |
| SipFraming.SdpKeeps | internal/app/protocol/sip/sip.go:331-377 | the SDP rewrite leaves such a message declaring its body's length |
| SipFraming.RewrittenFramed | internal/app/server/proxy.go:292-318 | such a message, rewritten, declares its body's length and frames if and only if its head still fits, whatever relays and header spellings were picked |
| SipFraming.RepeatedLengthBreaks | internal/app/protocol/sip/sip.go:87-92 | with two Content-Length headers of one spelling a message with a body does not frame as it stands, and the length sent is right if and only if its SDP is rewritten |
| SipFraming.PaddedLengthBreaks | internal/app/protocol/sip/sip.go:139-143 | a Content-Length with white space before the colon is missed by the reader, so the chunk is read without its body and what is printed for it never has the right length |
| SipObject.Message.constructor | internal/app/protocol/sip/sip.go:30-96 | the header loop builds exactly the parsed message |
| SipObject.Message.GetHeader | internal/app/protocol/sip/sip.go:164-175 | the exact spelling wins, else any spelling that differs in case, else empty |
| SipObject.Message.SetHeader | internal/app/protocol/sip/sip.go:178-183 | sets the value, appending the name to the order when it is new |
| SipObject.Message.Bytes | internal/app/protocol/sip/sip.go:186-211 | the loop over the header order writes exactly the printed message |
| SipObject.Message.ExtractMediaEntries | internal/app/protocol/sip/sip.go:293-325 | the loop over the body's lines returns exactly the extracted entries |
| SipObject.RewriteAll | internal/app/protocol/sip/sip.go:339-369 | the loop overwrites each line where it stands with its rewriting, counting m= lines, and reports whether any line was touched |
| SipObject.Message.RewriteSDPWithRelays | internal/app/protocol/sip/sip.go:331-377 | body and Content-Length change as specified, and only for a non-empty SDP body with a touched line |
| SipObject.Message.RewriteRoutingHeaders | internal/app/protocol/sip/sip.go:385-399 | Contact and then Record-Route are substituted when the substitution changes them |
| SipHeaders.RewrittenHeaders | internal/app/protocol/sip/sip.go:370-399 | in the rewritten message Contact and Record-Route are substituted, Content-Length is the length of a rewritten body, and every other header is as before |
| SipHeaders.OtherSpelling | internal/app/protocol/sip/sip.go:385-399 | a substituted Contact or Record-Route found under another spelling is added under its own |
| SipPipe.PipeOne | internal/app/server/proxy.go:252-274 | one turn ends, drops a white-space-only chunk, or writes what may be written for the chunk it consumed: all of it when the destination takes it, and else what goes through before it breaks; relays are allocated on the way out and released by a BYE on the way in |
| SipPipe.PipeSIP | internal/app/server/proxy.go:252-274 | a destination that takes everything gains an output for every kept chunk, in order; one that breaks gains the outputs for some of them and as much of the next as goes through |
| SipBridge.KeptChunks | internal/app/server/proxy.go:259-262 | of the chunks exactly those of white space only are dropped, the others stay in order |
| SipBridge.SentMeans | internal/app/server/proxy.go:264-268 | a SIP message on its way out of a rewriting proxy is written as the print of its rewriting, everything else as it came |
| SipBridge.HealthyRun | internal/app/server/proxy.go:252-274 | on a destination that takes everything the loop ends with the source and every kept chunk has its output |
| SipBridge.ForwardedStream | internal/app/server/proxy.go:252-274 | outside to inside, for every byte stream: the output is the consumed chunks without the white-space-only ones, and reads back as exactly those |
| SipBridge.BridgedStream | internal/app/server/proxy.go:252-318 | the output of a direction reads back as exactly the messages written if and only if every rewritten one has a head within the limit and the right length, for whatever relays and header values were picked |
| SipBridge.RewritingReads | internal/app/server/proxy.go:292-318 | one rewritten message with a clean head reads back, alone or before other bytes, if and only if its head fits and its length is right |
| SipBridge.CutStream | internal/app/server/proxy.go:252-274 | when a write fails, the messages before it read back whole, followed by what the partial write reads as |
| SipBridge.BridgedWellSpelt | internal/app/server/proxy.go:252-318 | the exact condition holds for well-spelt lengths with rewritten heads under the limit: the output reads back and every rewritten message declares its body's length |
| SipBridge.SentFramed | internal/app/server/proxy.go:292-318 | one rewritten message is framed and its headers declare its body's length |
| SipExternal.RewriteSIPForExternal | internal/app/server/proxy.go:292-318 | a BYE first unmaps its call's relays, then every media entry gets the relay that the session has or can open for it, and the result is the message rewritten with exactly those |
| SipExternal.RewrittenParses | internal/app/server/proxy.go:292-318 | a rewritten message parses with the body it was given |
| SipExternal.RelaysAdvertised | internal/app/server/proxy.go:292-318 | what the other side parses in the sent message advertises, for an aligned SDP, at index i the port the session maps under call#i or the original port where the entry got no relay, for the same media; under a Content-Type without application/sdp the entries are the original ones |
| SipRelease.ReleaseRelayOnBye | internal/app/server/proxy.go:277-289 | a BYE with a Call-ID unmaps and stops exactly that call's relays, other messages change nothing |
| SipRelease.ByeRequest | internal/app/server/proxy.go:277-283 | of the requests exactly those with the method BYE end a call, on a proxy that rewrites SDP |
| RtpPool.PoolPolicy | internal/app/server/rtp_relay.go:22-42 | every pool port is at least 10000, and allowed if and only if no range is configured or one reaches 10000 |
| RtpPool.PoolPorts | internal/app/server/rtp_relay.go:22-42 | the pool holds exactly the ports from 10000 up that an allowed range contains, or 10000 to 20000 when no allowed range reaches that far |
| RtpPool.FirstFreeFirst | internal/app/server/rtp_relay.go:45-57 | the allocated port is the first unused one in the order of the ranges |
| RtpPool.FirstFreeComplete | internal/app/server/rtp_relay.go:45-57 | allocation fails if and only if every port of the union of the ranges, overlapping or not, is used; otherwise it picks an unused one of them |
| RtpPool.PortPool.constructor | internal/app/server/rtp_relay.go:22-42 | the pool starts empty over the clipped ranges |
| RtpPool.PortPool.Alloc | internal/app/server/rtp_relay.go:45-57 | the nested loops return the first free port and mark it used, or 0 with nothing changed if and only if all are used |
| RtpPool.PortPool.Free | internal/app/server/rtp_relay.go:60-64 | exactly the port leaves the used set |
| RtpLifecycle.KeyInjective | internal/app/server/control.go:339 | keys of different calls or media indices never collide, even when a Call-ID contains '#' |
| RtpLifecycle.StepInv | internal/app/server/control.go:333-402 | every critical section keeps: used ports are those of relays that own one, freed once, goroutines and map entries refer to their own relays |
| RtpLifecycle.RunKeeps | internal/app/server/control.go:333-402 | every run of every interleaving keeps that invariant |
| RtpLifecycle.PortsAccounted | internal/app/server/rtp_relay.go:45-64 | in every reachable state the used set is exactly the ports of reserved, live and stopping relays, pairwise distinct, and allocations equal used plus freed |
| RtpLifecycle.FreesAreOwn | internal/app/server/rtp_relay.go:188-202 | whenever a port is given back no other relay owns it and its relay never gave it back before |
| RtpOrphans.OrphansAreOverwritten | internal/app/server/control.go:340-374 | in every reachable state a live relay is mapped or about to be if and only if no publication overwrote its map entry |
| RtpOrphans.MappedLiveIffNotIdled | internal/app/server/rtp_relay.go:148-163 | in every reachable state a mapped relay is live if and only if its idle timeout has not fired |
| RtpOrphans.PortTakenAgain | internal/app/server/rtp_relay.go:45-64 | in every reachable state a relay's port is owned by another relay too if and only if it was given back and is in the used set again |
| RtpOrphans.ResultPortsOwn | internal/app/server/control.go:333-390 | the ports a call has mapped belong to nobody else if and only if none of them was given back and is used again, which takes an idle timeout |
| RtpOrphans.SharedPortWasGivenBack | internal/app/server/rtp_relay.go:148-202 | two mapped keys have the same port only when the older relay idled out and gave its port back, and the port was taken again unless the newer one gave it back too |
| RtpOrphans.StableExactly | internal/app/server/control.go:333-390 | over any run without a release, failure or close of a key its relay, and with it its port, stays the same if and only if no publication overwrote it |
| RtpCalls.NoOrphans | internal/app/server/control.go:333-390 | without overlapping calls for one key every live relay is mapped or about to be; OrphansAreOverwritten has the exact condition |
| RtpOrphans.StablePorts | internal/app/server/control.go:333-390 | between two lookups of a key with no release, failure or close in between and no overlapping calls, the port does not change |
| RtpCalls.DistinctPorts | internal/app/server/control.go:333-390 | two keys return different ports when one relay still owns its port and the other's was not given back and used again |
| RtpCalls.OverlapOrphans | internal/app/server/control.go:340-374 | a run of two overlapping calls for one key that leaves a live relay nobody refers to |
| RtpCalls.IdleReuse | internal/app/server/rtp_relay.go:148-163 | a run with an idle timeout after which two indices of one call have the same port |
| RtpSteps.SweepMeaning | internal/app/server/control.go:227-244 | in every reachable state a reported failure, the end of a call and the end of a session unmap exactly the relays they are for and leave none of those live |
| RtpSteps.OneIndexRun | internal/app/server/control.go:338-388 | an allocation nobody interrupts finds the mapped relay, or maps a new live one on the first free port, or leaves keys and ports as they were when none is free or its socket fails |
| RtpSession.RTPRelay.Stop | internal/app/server/rtp_relay.go:188-202 | the port goes back on the first call only |
| RtpSession.ClientSession.GetOrCreateOne | internal/app/server/control.go:338-388 | one index yields the mapped port, or a new live relay for the entry on the first free port with a request to the client, or nothing exactly when no port is free or the socket on the first free one does not open |
| RtpSession.ClientSession.GetOrCreateRTPRelays | internal/app/server/control.go:333-390 | nothing mapped before changes, new relays are for the entries of their index, live on return and on free and distinct ports, the client is asked for each of them, the result names the mapped port of every entry that has one, and an entry without one was refused a port or a socket |
| RtpSession.EveryIndexServed | internal/app/server/control.go:333-390 | with sockets that open and at least as many free ports as entries every index is in the result |
| RtpSession.ClientSession.ServeEntries | internal/app/server/control.go:337-388 | the loop over the entries does so one index at a time |
| RtpSession.ClientSession.ReleaseRTPRelays | internal/app/server/control.go:393-402 | exactly the call's relays are unmapped and stopped, and only those not stopped before give a port back |
| RtpSession.ClientSession.HandleRelayFailure | internal/app/server/control.go:227-245 | exactly the named relay is unmapped and stopped |
| RtpSession.ClientSession.CloseRelays | internal/app/server/control.go:286-292 | all relays are stopped, none stays mapped, each port goes back at most once |
| ConfigSection.KeyLineAgain | internal/app/common/config/config.go:184-192 | a written key line is recognised as that key again and keeps its inline comment |
| ConfigSection.RewriteLinesTwice | internal/app/common/config/config.go:180-198 | rewriting rewritten lines with other settings gives what those settings alone give, and the same keys are seen |
| ConfigSection.PartsFit | internal/app/common/config/config.go:157-178 | the file is what precedes the first header, the header, a section of lines that are not top-level, and a rest the section does not reach into |
| ConfigMeaning.HeaderMeans | internal/app/common/config/config.go:157-166 | an edit fails exactly when no line begins with ipFilter:, and else works on the first that does |
| ConfigMeaning.SectionMeans | internal/app/common/config/config.go:167-178 | the section ends before the next line that begins in the first column, and before blank lines in front of that |
| ConfigMeaning.LineEdited | internal/app/common/config/config.go:180-198 | a line of the section with one of the keys becomes that key with its setting and its comment, an item goes |
| ConfigMeaning.ListRendered | internal/app/common/config/config.go:232-241 | a list is its key and one quoted entry a line in order, or [] on the line of the key |
| ConfigMeaning.QuotePlain | internal/app/common/config/config.go:238 | printable text without quote and backslash stands for itself in quotes |
| ConfigSection.PartsAgain | internal/app/common/config/config.go:157-178 | a file put together from fitting parts is cut there again, its section shortened by trailing blank lines |
| ConfigSection.BodyTwice | internal/app/common/config/config.go:180-209 | editing an edited section, shortened or not, gives what the second edit alone gives |
| ConfigSection.ReplaceTwice | internal/app/common/config/config.go:156-216 | replace(replace(src, f), g) == replace(src, g) for every file with the section, on lines |
| ConfigEditor.SplitEdited | internal/app/common/config/config.go:211-216 | the edited text splits into the lines it was joined from |
| ConfigEditor.EditTwice | internal/app/common/config/config.go:156-216 | replace(replace(src, f), g) == replace(src, g) on file text, and success depends on the file only |
| ConfigEditor.LastEditWins | internal/app/common/config/config.go:129-150 | after any run of edits the file is one edit of the original with the last setting |
| ConfigEditor.EditIsLocal | internal/app/common/config/config.go:152-216 | everything outside the section is byte-identical, and comments, blanks and other keys inside keep their order |
| ConfigEditor.RenderListLoop | internal/app/common/config/config.go:232-241 | the loop writes the key line and one quoted item per entry, or an empty list |
| ConfigEditor.RewriteBody | internal/app/common/config/config.go:180-209 | the loop with its seen set produces the rewritten lines followed by exactly the missing keys |
| ConfigEditor.FindEnd | internal/app/common/config/config.go:168-178 | the two loops find the end of the section |
| ConfigEditor.ReplaceIPFilterSection | internal/app/common/config/config.go:156-216 | the program computes exactly the specified edit, or fails when there is no header |
| ConfigReadback.UnquoteQuote | internal/app/common/config/config.go:238 | a quoted entry reads back as itself |
| ConfigReadback.BodyReads | internal/app/common/config/config.go:180-209 | a written section whose kept lines stand where a loader can take them, each key once, reads as exactly the settings |
| ConfigReadback.KeptReads | internal/app/common/config/config.go:198-202 | a line the editor keeps reads on if it stands at the editor's column, or deeper below a key without a value; elsewhere it fails at once or, as the section's first key, dooms the reading of the keys that follow |
| ConfigReadback.BodyTwins | internal/app/common/config/config.go:180-209 | a section without such places for all of its lines reads the same whether f was written or f with the filter switched, so not both read back |
| ConfigReadback.RestReadsOn | internal/app/common/config/config.go:168-178 | what follows the section leaves the reading intact if and only if each line up to the next key at column 0 may stand there and is none of our keys or items |
| ConfigReadback.ReadBack | internal/app/common/config/config.go:156-216 | the edited file reads back as exactly f, and with the filter switched as that, if and only if the header stands alone, the section's keys stand once each at the editor's column with deeper lines only below a key without a value, and what a loader still takes for the section is harmless |
| ConfigReadback.IndentedFileFails | internal/app/common/config/config.go:180-209 | a section in which one of our keys precedes the first key of another name, which stands at a column other than two, never loads after an edit, whatever is written |
| ConfigReadback.IndentedExample | internal/app/common/config/config.go:180-209 | such a file, indented by four spaces, that loads before the edit and not after |
| DenyLog.SameAnswers | internal/app/common/ipfilter/ipfilter.go:224-240 | with a clock that does not run backwards every call is answered as if no entry were ever dropped |
| DenyLog.TableIsLastLogged | internal/app/common/ipfilter/ipfilter.go:224-240 | the unpruned table holds exactly the time of each host's last logged call |
| DenyLog.LogSpacing | internal/app/common/ipfilter/ipfilter.go:13-19 | a call is logged if and only if every logged call for its host before it is at least five minutes away |
| DenyLog.LoggedEntry | internal/app/common/ipfilter/ipfilter.go:224-240 | a logged call is entered with its time; a table of 1024 entries keeps exactly those of the last five minutes, a smaller one all |
| DenyLog.Limiter.ShouldLog | internal/app/common/ipfilter/ipfilter.go:224-240 | answers and updates the table as specified, the loop dropping exactly the expired entries |
| IpAdmin.ParseListLoop | internal/app/common/ipfilter/ipfilter.go:74-96 | the loop returns the parsed entries in order, skipping blanks, or fails if one does not parse |
| IpAdmin.Filter.Reload | internal/app/common/ipfilter/ipfilter.go:58-71 | unless an entry is malformed, the filter then allows the networks of the allow list, denies those of the deny list and is on as the setting says; with a malformed entry nothing changes |
| IpAdmin.RulesStand | internal/app/common/ipfilter/ipfilter.go:58-96 | a setting has rules exactly when no entry is malformed, and they hold the networks of its trimmed entries list by list |
| IpAdmin.VerdictOfSetting | internal/app/common/ipfilter/ipfilter.go:127-147 | with the filter on, an address comes in exactly when no entry of the deny list covers it, and one of the allow list does unless that has none |
| IpAdmin.Filter.Allow | internal/app/common/ipfilter/ipfilter.go:128-147 | the program computes that verdict from the rules |
| IpAdmin.Filter.Check | internal/app/common/ipfilter/ipfilter.go:157-188 | the dashboard gets the same verdict, with a network of the list that decided it |
| IpAdmin.Validate | internal/app/common/ipfilter/ipfilter.go:46-54 | accepts exactly the settings that Reload accepts |
| IpAdmin.Server.SaveIPFilter | internal/app/common/config/config.go:129-150 | the file becomes the edited file, or stays as it was on any failure |
| IpAdmin.Server.MutateIPFilter | internal/app/server/web.go:435-463 | file, setting and rules move together to the next setting, the rules then being those of its entries list by list, or none of them moves |
| IpAdmin.MutateMeans | internal/app/server/web.go:466-574 | a request changes the switch or the list it names, adding an entry once at the end, and an unknown list is refused |
| IpAdmin.WithoutMeans | internal/app/server/web.go:566-572 | removing a value takes out all of its occurrences and none of another value |
| IpAdmin.WithoutAppend | internal/app/server/web.go:566-572 | and keeps the others in order |
| IpAdmin.SucceedsExactly | internal/app/server/web.go:435-459 | a request succeeds exactly when its list is known, every entry of the next setting is an address, there is a path, the disk works and the file has an ipFilter: line |
| IpAdmin.AgreeFrom | internal/app/server/web.go:435-463 | however requests mix and fail, the rules allow and deny what the entries of the setting say and the file is one edit of the original with it |
| IpAdmin.EditLoads | internal/app/common/config/config.go:129-150 | a file loads after writing f, and after writing f with the filter switched, if and only if it is editable in the sense of ReadBack |
| IpAdmin.RestartFindsSetting | internal/app/server/web.go:435-463 | after every history with a successful request the file loads as the setting in force, if and only if the original file is editable; the rules in force are those of its entries |
| ExtTracker.PartiesMeaning | internal/app/server/extension.go:130-151 | a call's parties are the registered ones of caller and callee, each with the other's number |
| ExtTracker.RegisterMeaning | internal/app/server/extension.go:85-112 | a registration stamps its record or begins one with counters at zero, binds its address, and changes no other record; the other addresses stay bound below 4096 of them and are forgotten at that |
| ExtTracker.OpensExactly | internal/app/server/extension.go:119-145 | a call is opened exactly when its key is new and its caller or callee is a registered number |
| ExtTracker.PendMeaning | internal/app/server/extension.go:119-155 | opening leaves the call ringing with its registered parties and every other call as it was, but for an oldest one when 1024 were there |
| ExtTracker.StepShape | internal/app/server/extension.go:85-212 | every operation keeps: keys spell their records, addresses lead to records, calls have one or two distinct registered parties and peers for exactly those, at most 4096 addresses and 1024 calls |
| ExtTracker.RunShape | internal/app/server/extension.go:85-212 | the shape holds in every reachable state and records exist exactly for numbers that ever registered |
| ExtHistory.StepTied | internal/app/server/extension.go:119-198 | every event keeps the table and the counters tied to the history of calls |
| ExtHistory.CountersAreHistory | internal/app/server/extension.go:119-198 | a record's calls are the answered calls it took part in, each once, and its seconds those of the answered calls that ended rather than were dropped |
| ExtTalk.TalkBounded | internal/app/server/extension.go:158-198 | the seconds one call key ever gives a record are at most the time since its first answer |
| ExtBytes.BytesConserved | internal/app/server/extension.go:215-258 | over every run, per direction, the bytes on the records are the bytes of known addresses plus those of known calls times their parties |
| ExtBytes.BytesMeaning | internal/app/server/extension.go:215-258 | the bytes go to the record bound to the address or to those of the call's parties, by direction, and nothing else changes |
| ExtObject.Tracker.RecordLocked | internal/app/server/extension.go:85-100 | creates the record once, binds the address, starting the index over when it is full |
| ExtObject.Tracker.MarkRegister | internal/app/server/extension.go:103-112 | changes the tracker exactly by a registration event |
| ExtObject.Tracker.PendCall | internal/app/server/extension.go:119-155 | opens a call exactly when the key is new and a party is registered, evicting an oldest call from a full table |
| ExtObject.Tracker.PruneCallsLocked | internal/app/server/extension.go:201-212 | drops one of the oldest calls when the table is over its limit and nothing otherwise |
| ExtObject.Tracker.AnswerCall | internal/app/server/extension.go:158-174 | counts the call for every party on its first answer only |
| ExtObject.Tracker.EndCall | internal/app/server/extension.go:177-198 | removes the call and credits whole seconds of talk to every party of an answered one |
| ExtObject.Tracker.AddPeerBytes | internal/app/server/extension.go:215-234 | credits the record bound to the address, if any |
| ExtObject.Tracker.AddCallBytes | internal/app/server/extension.go:237-258 | credits every party of the call, if it is known |
| ExtObserve.WholeCall | internal/app/server/extension.go:119-212 | a call with any number of openings and answers before its end counts once, with the seconds from the first answer, and changes nothing else but the call that a full table drops for it |
| ExtObserve.ObserveMeaning | internal/app/server/extension.go:293-335 | which messages register a number and which, which open, answer and end a call, and which do nothing |
| ExtObserve.ExtensionNumber | internal/app/server/extension.go:277-290 | a number is an extension exactly when it has one to eight of the characters 0-9, * and # |
| ExtObserve.SipCallCountsOnce | internal/app/server/extension.go:293-335 | a SIP call counts once for each registered party whatever INVITE, 200 and ACK messages are repeated before its BYE, with a full call table too |
| ExtObserve.IaxCallCountsOnce | internal/app/server/extension.go:364-384 | an IAX call counts once whether it ends by HANGUP, REJECT or the next NEW from the same address, with a full call table too |
| Registry.ProxyKeyInjective | internal/app/server/server.go:134-136 | different type or port gives a different key, whatever the type's text |
| Registry.StepInv | internal/app/server/control.go:116-324 | every critical section keeps: whoever has a proxy has the registered one, a proxy is in one place, registered proxies are somewhere |
| Registry.OwnersAreRegistered | internal/app/server/server.go:139-158 | in every reachable state every proxy held, in flight or leaving is the one registered under its key, no two have the same key, and no registration is left without an owner |
| Registry.RemovesOwn | internal/app/server/server.go:154-158 | deleting by key removes the caller's own registration and leaves every other owner registered |
| Registry.NewProxyRun | internal/app/server/control.go:116-183 | a registration nobody interrupts ends with the proxy registered and held exactly when name and key are new, the port is allowed and it starts, and else leaves both tables as they were |
| Registry.CloseProxyRun | internal/app/server/control.go:303-316 | closing a proxy takes exactly it out of its session and the registry, in every reachable state |
| Registry.CloseEmpties | internal/app/server/control.go:274-285 | closing a session takes out all it holds and leaves what others hold |
| Registry.ClosedHoldsOnlyLate | internal/app/server/control.go:274-293 | in every reachable state a session that holds a proxy is closed if and only if its message loop entered the proxy after the close |
| Registry.EnterAfterClose | internal/app/server/control.go:161-178 | a run in which a proxy is entered into a session that was closed while it started, and stays registered |
| RegistrySession.Server.PortAllowed | internal/app/common/config/config.go:244-254 | the loop decides whether some allowed range contains the port, or none is configured |
| RegistrySession.Server.RegisterProxy | internal/app/server/server.go:139-151 | registers exactly when no registered proxy of the kind has the port and the port is allowed |
| RegistrySession.RelayKind | internal/app/server/control.go:138-149 | sip and iax run on udp, sip-tcp and sip-tls on tcp, any other type on itself |
| RegistrySession.Server.UnregisterProxy | internal/app/server/server.go:154-158 | removes exactly the key |
| RegistrySession.ClientSession.HandleNewProxy | internal/app/server/control.go:116-183 | the proxy enters session and registry together, or both are as before on each of the failures |
| RegistrySession.ClientSession.CloseProxy | internal/app/server/control.go:303-316 | the proxy leaves session and registry, every other one stays registered |
| RegistrySession.ClientSession.Close | internal/app/server/control.go:278-285 | exactly the session's proxies leave the registry |
| WorkConn.Fifo | internal/app/server/workconn.go:28-49 | the i-th successful delivery for a name goes to the i-th waiter for it, and the queue is the waiters behind them |
| WorkConn.OneConnectionEach | internal/app/server/workconn.go:28-49 | each waiter is sent at most one connection, and its channel is empty when it is |
| WorkConn.SentArrives | internal/app/server/workconn.go:11-49 | in every run what was sent to a waiter is what it received, in order, followed by what its channel holds |
| WorkConn.Manager.WaitWorkConn | internal/app/server/workconn.go:28-35 | appends a new waiter to the queue of the name |
| WorkConn.Manager.DeliverWorkConn | internal/app/server/workconn.go:38-49 | sends to the first waiter and removes it, or refuses exactly when nobody waits |
| Codec.FrameRoundTrip | internal/app/common/protocol/codec.go:13-64 | a message comes back from its frame with the reader at its end if and only if type and body fit in 1 MiB, 32-bit wrap-around included |
| Codec.OversizeRejected | internal/app/common/protocol/codec.go:46-49 | a larger frame is rejected with only its length read |
| Codec.LengthRead | internal/app/common/protocol/codec.go:41-64 | for every length field: 0 and more than 1 MiB are rejected, a frame that has not all come is cut short, any other is a message |
| Codec.FramesRoundTrip | internal/app/common/protocol/codec.go:13-64 | reading concatenated frames returns the same list and goes on with what follows |
| Codec.Encode | internal/app/common/protocol/codec.go:13-28 | the filled buffer is exactly the frame |
| Codec.Reader.ReadMsg | internal/app/common/protocol/codec.go:41-64 | reads exactly the frame at the front; a bad length stops right behind the length field |

## Left out

- Sockets, TLS, goroutine plumbing, timers and logging: on which ports a socket opens, where a connection breaks, whether a listener starts and what the clock reads are parameters; a request to the client that fails to be sent is only logged and is not modelled.
- Unicode: white space, case folding and case-insensitive comparison are those of single-byte ASCII text; U+0085 and U+00A0 are not trimmed.
- The pattern behind the Contact and Record-Route rewrite: a function parameter on header values that introduces no CR or LF.
- The pattern that finds the user part of a SIP URI: a function parameter that returns the user part or nothing.
- RewriteSDP with a positive port: the server only calls it with port 0, which is the rewrite with no relays; ExtractMediaPort is not called by it.
- SipStream.ReadMessageFromStream: a Content-Length too large to allocate makes `make` panic (internal/app/protocol/sip/sip.go:154), where the model reads to the end of the stream and returns an error.
- SipPipe.PipeSIP: the statistics and the extension tracker are not part of its state; ExtObserve has the tracker. The relays of the session change only through its own calls: other goroutines are in RtpLifecycle.
- RTP packets, peer learning and byte counting of a relay: they do not change which port belongs to whom.
- Records and calls of the extension tracker are values in the maps rather than separate objects, so aliasing of a record pointer is not modelled.
- Counters are unbounded; 64-bit wrap-around of byte and call counters and rounding of seconds through a float are not modelled.
- ExtObserve.SipCallCountsOnce: in a full table the call that its own opening drops is not the call itself, because a call that is dropped at once is not counted.
- The layout of IAX frames and information elements: decoded commands are the events.
- ConfigReadback.ReadBack: the loader is a column-aware account of block YAML with one-line plain and quoted scalars; it refuses what it does not cover (flow collections other than [] and {}, anchors, tags, block and multi-line scalars, quoted keys, tabs in indentation), takes lines outside the section for well-formed, and knows one `ipFilter` key. Bytes from 0x80 up are ordinary characters to it: the line breaks U+0085, U+2028 and U+2029 and invalid UTF-8 are not considered.
- strconv.Quote of bytes above ASCII: they stand for themselves, which is what it does for printable UTF-8.
- IpAdmin.Server.SaveIPFilter: file permissions and a temporary file left behind by a crash are not modelled.
- Parsing of one IP or CIDR, membership in a network and normalizeIPEntry: the address library is a pair of function parameters; a filter that was never created, which lets everything in, is not modelled.
- WorkConn: a waiter is not promised a connection, since the request is sent before the waiter queues up.
- JSON bodies, authentication, heartbeat, the web handlers around the edits, sessions, cookies and the client side.
