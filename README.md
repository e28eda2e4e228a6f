# pbl4_v1 packet analyzer core, modelled in Dafny

This project models the core of a Qt packet analyzer. The core has five parts:

- **The layered dissector.** `Parser::parse` walks a captured frame from its
  Ethernet header through an optional 802.1Q tag, then IPv4, IPv6 or ARP, then
  TCP, UDP or ICMP. When it reaches TCP or UDP it ends with the application
  classifier: HTTP on port 80, DNS on port 53, TLS on port 443.
- **The conversation manager.** It keys every IPv4 TCP/UDP packet by a
  direction-independent stream identifier. It keeps per-stream state in a hash
  table, and relabels QUIC short-header packets once a long-header packet has
  been seen on the same flow.
- **The display filter engine.** It evaluates texts such as
  `tcp.port == 80 && ip.src == 10.0.0.1 || dns` against a dissected packet.
- **The capture engine's batching loop.** It reads frames, dissects them,
  numbers the accepted ones and hands them on in batches of at most 50. A
  batch also goes out once 100 ms have passed since the last one.
- **The counters and lookup.** The statistics manager counts packets per
  protocol, source and destination. The MAC resolver maps a hardware
  address's OUI to a vendor name loaded from a vendor file.

Each parser has the same shape:

- a specification function on byte sequences (`Decode`) that states what the
  header means;
- a method (`Parse`) that mirrors the source step by step over the same
  cursor and is proved equal to that function;
- lemmas about the function: field positions, acceptance conditions, and
  round trips with an encoder (`Decode(Encode(h) + rest) == h`).

The decoders and the filter engine compute what the code computes, defects
included. For each defect listed under "## Findings", a lemma shows where
the code's result departs from the evident intent. Beside it, a corrected
definition is given, and the intended property is proved about it.

Objects the source updates in place are classes: the packet record, the
conversation manager, the capture engine, the statistics manager and the MAC
resolver. Their methods are proved against functions of the old state.

The model replaces the outside world with parameters:

- the capture library's answers (did the handle open, did the filter
  compile and install);
- the frames it delivers;
- the flag writes the user-interface thread makes.

Together these reach the capture loop as a sequence of turns. The two clocks
reach it the same way: the real-time clock the dissector stamps packets with,
and the steady clock the flush test reads.

The files follow the source's structure:

| file | models |
|---|---|
| Wrappers.dfy, Bytes.dfy, Text.dfy | option/result types; bytes and big/little-endian words; decimal, hex, trimming, case, split/join, `QString::toInt` and `std::stoi` |
| PacketData.dfy | `PacketData` and its `clear()` |
| Ethernet.dfy, Vlan.dfy | `EthernetParser`, `VLANParser` |
| IPv4.dfy, IPv6.dfy, Arp.dfy, Icmp.dfy | the network-layer parsers |
| Tcp.dfy, Udp.dfy | the transport-layer parsers, TCP options included |
| Application.dfy, Http.dfy, Dns.dfy | the application classifier, HTTP and DNS |
| Dissector.dfy | `Parser::parse` |
| Conversation.dfy | `StreamID`, its hash, `StreamState`, `ConversationManager` |
| DisplayFilter.dfy | `DisplayFilterEngine` |
| Capture.dfy | `CaptureEngine` |
| Statistics.dfy | `StatisticsManager` |
| MacVendor.dfy | `MacResolver` |

## Model

| member | source | states |
|---|---|---|
| PacketData.Cleared | src/Common/PacketData.hpp:195-214 | clearing empties the raw bytes, resets the depth, every presence and expert flag, every layer header and the application layer to their value-initialised defaults, and keeps id, timestamp, lengths and stream index |
| PacketData.ClearedIdempotent | src/Common/PacketData.hpp:195-214 | clearing twice is clearing once; two records with the same metadata clear to the same record |
| PacketData.Packet.constructor | src/Common/PacketData.hpp:145-187 | a new packet record holds the value-initialised defaults of every field (stream index -1, meaning no stream) |
| PacketData.Packet.Clear | src/Common/PacketData.hpp:195-214 | the packet's new state is the cleared old state |
| PacketData.TcpFlagsAreBits | src/Common/PacketData.hpp:87-96 | the eight TCP flag constants are bits 0..7 of one byte, pairwise distinct |
| Ethernet.Decode | src/Core/Protocols/LinkLayer/EthernetParser.hpp:13-43 | accepted iff the frame holds the 14-byte header; a short frame leaves all out-parameters untouched; a tag is taken iff the type is 0x8100 and 4 more bytes follow, and then TPID, TCI and the inner type replace the outer type |
| Ethernet.Parse | src/Core/Protocols/LinkLayer/EthernetParser.hpp:13-43 | the parser's verdict and out-parameters are those of `Decode` |
| Ethernet.Frame | src/Core/Protocols/LinkLayer/EthernetParser.hpp:18-22 | a built frame is the 14-byte header plus the payload |
| Ethernet.DecodeFrame | src/Core/Protocols/LinkLayer/EthernetParser.hpp:13-43 | decoding a built untagged frame gives back its destination, source and EtherType |
| Ethernet.DecodeTaggedFrame | src/Core/Protocols/LinkLayer/EthernetParser.hpp:29-40 | decoding a tagged frame gives back its TCI and inner EtherType, with TPID 0x8100 |
| Ethernet.TciSplit | src/Core/Protocols/LinkLayer/EthernetParser.hpp:72-82 | PCP, DEI and VID fit 3, 1 and 12 bits and recompose to the TCI |
| Ethernet.TciCompose | src/Core/Protocols/LinkLayer/EthernetParser.hpp:72-82 | a TCI built from in-range PCP, DEI and VID splits back into them |
| Ethernet.EtherTypeName | src/Core/Protocols/LinkLayer/EthernetParser.hpp:54-70 | unlisted types print as "0x" and four hex digits; listed types get a name without 'x' |
| Ethernet.MacPrefix | src/Core/Protocols/LinkLayer/EthernetParser.hpp:45-52 | the first n groups span 3n characters, less the missing final colon |
| Ethernet.MacToString | src/Core/Protocols/LinkLayer/EthernetParser.hpp:45-52 | the loop's text is the six two-digit groups, 17 characters long |
| Ethernet.MacPrefixLayout | src/Core/Protocols/LinkLayer/EthernetParser.hpp:45-52 | group k sits at offset 3k as the byte's two hex digits, followed by ':' except after the last |
| Ethernet.MacTextInjective | src/Core/Protocols/LinkLayer/EthernetParser.hpp:45-52 | different addresses print differently |
| Vlan.Decode | src/Core/Protocols/LinkLayer/VLANParser.hpp:13-30 | accepted iff at least 4 bytes and the TPID is 0x8100, 0x88A8 or 0x9100; TPID and TCI are stored whenever 4 bytes exist; with 6 bytes the inner type is stored and returned, otherwise the tag's type is 0 and the caller's type is untouched |
| Vlan.Parse | src/Core/Protocols/LinkLayer/VLANParser.hpp:13-30 | the parser's verdict and out-parameters are those of `Decode` |
| Vlan.Tag | src/Core/Protocols/LinkLayer/VLANParser.hpp:16-24 | a tag is six bytes |
| Vlan.DecodeTag | src/Core/Protocols/LinkLayer/VLANParser.hpp:13-30 | every accepted tag decodes back to its TPID, TCI and inner EtherType |
| Vlan.DeiText | src/Core/Protocols/LinkLayer/VLANParser.hpp:36-38 | the label is "Drop Eligible" or "Not Drop Eligible", the first exactly when bit 12, which `(tci >> 12) & 1` tests, is set: the low 13 bits reach 0x1000 |
| Vlan.DeiBit | src/Core/Protocols/LinkLayer/VLANParser.hpp:37 | the DEI field of the TCI split is 1 exactly when bit 12 is set |
| Vlan.DeiTextOfFields | src/Core/Protocols/LinkLayer/VLANParser.hpp:36-38 | a TCI built from in-range priority, DEI and identifier is labelled drop eligible exactly when its DEI is 1 |
| Vlan.VidText | src/Core/Protocols/LinkLayer/VLANParser.hpp:40-45 | the label starts with the VID in decimal; VID 0 and only it is the priority tag, 0xFFF and only it is reserved |
| Vlan.TpidName | src/Core/Protocols/LinkLayer/VLANParser.hpp:55-62 | "Unknown VLAN Tag" exactly for identifiers the decoder refuses |
| Vlan.AcceptedTagsNamed | src/Core/Protocols/LinkLayer/VLANParser.hpp:19-21 | a tag the decoder accepts always has a name |
| IPv4.Decode | src/Core/Protocols/NetworkLayer/IPv4Parser.hpp:21-49 | accepted iff at least 20 bytes, version 4, IHL at least 5 and IHL × 4 bytes present; version and IHL are stored even when the header is then refused; on success the options are the IHL × 4 − 20 bytes after the fixed header and the rest of the option buffer is the caller's |
| IPv4.Parse | src/Core/Protocols/NetworkLayer/IPv4Parser.hpp:21-49 | the parser's verdict and header are those of `Decode` |
| IPv4.FixedBytes | src/Core/Protocols/NetworkLayer/IPv4Parser.hpp:31-39 | the fixed header is 20 bytes |
| IPv4.Encode | src/Core/Protocols/NetworkLayer/IPv4Parser.hpp:28-46 | an encoded header is IHL × 4 bytes |
| IPv4.FixedFieldsOfBytes | src/Core/Protocols/NetworkLayer/IPv4Parser.hpp:31-39 | every fixed field comes back from its bytes, whatever follows them |
| IPv4.DecodeEncode | src/Core/Protocols/NetworkLayer/IPv4Parser.hpp:21-49 | decoding an encoded header followed by any payload gives the header back |
| IPv4.DottedWireOrder | src/Controller/StatisticsManager.cpp:117-124 | the wire-order text of an address copied raw from the frame lists its four bytes in wire order |
| IPv4.DotSplit | src/Controller/StatisticsManager.cpp:117-124 | two digit strings followed by a dot split one way only |
| IPv4.DottedGroups | src/Controller/StatisticsManager.cpp:117-124 | the text is the four byte values in decimal, separated by dots |
| IPv4.DottedInjective | src/Controller/StatisticsManager.cpp:117-124 | different addresses print differently |
| IPv4.DottedHighFirstReversed | src/Core/Protocols/NetworkLayer/IPv4Parser.hpp:51-58 | as written, an address copied raw from the frame prints its bytes in reverse wire order |
| IPv4.DottedHighFirstReversesWire | src/Core/Protocols/NetworkLayer/IPv4Parser.hpp:51-58 | as written, 10.0.0.1 on the wire prints as the text of 1.0.0.10 |
| IPv4.DottedHighFirstDiffers | src/Core/Protocols/NetworkLayer/IPv4Parser.hpp:51-58 | the as-written text of 10.0.0.1 differs from its wire-order text |
| IPv4.ProtocolName | src/Core/Protocols/NetworkLayer/IPv4Parser.hpp:60-70 | unlisted protocol numbers print in decimal |
| IPv4.FlagsFragmentSplit | src/Core/Protocols/NetworkLayer/IPv4Parser.hpp:99-100 | the 3 flag bits and the 13-bit offset recompose the flags/fragment word |
| IPv4.FlagsLabel | src/Core/Protocols/NetworkLayer/IPv4Parser.hpp:72-79 | the label is "0" iff none of the three bits it looks at is set |
| IPv4.FlagsTextAsWrittenMislabels | src/Core/Protocols/NetworkLayer/IPv4Parser.hpp:72-79 | as written, Don't Fragment (0x4000) is labelled "Reserved", and an offset bit with no flag set is labelled "More Fragments" |
| IPv4.FlagsTextReadsFlagBits | src/Core/Protocols/NetworkLayer/IPv4Parser.hpp:72-79 | the corrected label depends only on the three flag bits, is "0" iff no flag is set, and names 0x4000 Don't Fragment |
| IPv6.ExtLength | src/Core/Protocols/NetworkLayer/IPv6Parser.cpp:59-79 | an extension header spans a positive multiple of 8 bytes: (length + 1) × 8 for options and routing headers, 8 for a fragment header |
| IPv6.Walk | src/Core/Protocols/NetworkLayer/IPv6Parser.cpp:48-94 | the walk skips a multiple of 8 bytes within the buffer; when it succeeds it stops at a type that is not an extension header; a non-extension type skips nothing |
| IPv6.FirstWordSplit | src/Core/Protocols/NetworkLayer/IPv6Parser.cpp:107-109 | version, traffic class and flow label fit 4, 8 and 20 bits and recompose the first word |
| IPv6.Decode | src/Core/Protocols/NetworkLayer/IPv6Parser.cpp:25-101 | accepted iff 40 bytes, version 6 and a clean extension walk; a short buffer leaves the header untouched; the fixed fields are stored before the version check; on success the next header is the upper-layer type and the bytes consumed are 40 plus a multiple of 8 |
| IPv6.Parse | src/Core/Protocols/NetworkLayer/IPv6Parser.cpp:25-101 | the parser's verdict, header and bytes consumed are those of `Decode` |
| IPv6.EncodeChain | src/Core/Protocols/NetworkLayer/IPv6Parser.cpp:55-82 | a chain of well-formed extension headers is a multiple of 8 bytes long |
| IPv6.WalkHead | src/Core/Protocols/NetworkLayer/IPv6Parser.cpp:55-82 | one well-formed extension header at the head of the bytes is skipped and the walk goes on at its next type |
| IPv6.WalkChain | src/Core/Protocols/NetworkLayer/IPv6Parser.cpp:48-94 | the walk skips exactly a well-formed chain and stops at its upper-layer type |
| IPv6.DecodeChain | src/Core/Protocols/NetworkLayer/IPv6Parser.cpp:25-101 | a packet built from a fixed header and a chain decodes with the upper-layer type as next header and the payload as what follows |
| Arp.Decode | src/Core/Protocols/NetworkLayer/ARPParser.cpp:42-82 | a packet shorter than 28 bytes is refused and leaves the header untouched; otherwise every field is stored, and the packet is accepted iff it describes Ethernet (1) hardware and IPv4 (0x0800) protocol addresses of sizes 6 and 4 |
| Arp.Parse | src/Core/Protocols/NetworkLayer/ARPParser.cpp:42-82 | the parser's verdict and header are those of `Decode` |
| Arp.Encode | src/Core/Protocols/NetworkLayer/ARPParser.cpp:49-70 | an encoded packet is 28 bytes |
| Arp.SizesOfBytes | src/Core/Protocols/NetworkLayer/ARPParser.cpp:52-56 | hardware and protocol type, sizes and opcode come back from the first 8 bytes |
| Arp.SenderOfBytes | src/Core/Protocols/NetworkLayer/ARPParser.cpp:59-69 | the sender's hardware and raw protocol address come back from bytes 8 to 17 |
| Arp.TargetOfBytes | src/Core/Protocols/NetworkLayer/ARPParser.cpp:60-70 | the target's hardware and raw protocol address come back from bytes 18 to 27 |
| Arp.DecodeEncode | src/Core/Protocols/NetworkLayer/ARPParser.cpp:42-82 | any header survives encoding and decoding whatever trails it, and is accepted exactly when it is Ethernet/IPv4 |
| Arp.AcceptanceIgnoresOpcode | src/Core/Protocols/NetworkLayer/ARPParser.cpp:74-79 | acceptance depends only on the first six bytes, never on the opcode or addresses |
| Arp.OpcodeLabel | src/Core/Protocols/NetworkLayer/ARPParser.cpp:85 | "Unknown" exactly for opcodes other than request (1) and reply (2) |
| Icmp.Decode | src/Core/Protocols/NetworkLayer/ICMPParser.cpp:44-68 | accepted iff at least 4 bytes; a short buffer leaves the header untouched; type, code and checksum are read; identifier and sequence number are read for an ICMPv4 echo request or reply of at least 8 bytes and zeroed otherwise |
| Icmp.Parse | src/Core/Protocols/NetworkLayer/ICMPParser.cpp:44-68 | the parser's verdict and header are those of `Decode` |
| Icmp.Echo | src/Core/Protocols/NetworkLayer/ICMPParser.cpp:52-61 | an echo message is 8 bytes plus its data |
| Icmp.DecodeEcho | src/Core/Protocols/NetworkLayer/ICMPParser.cpp:44-68 | an echo layout decodes to its type, code and checksum; identifier and sequence number come back for ICMPv4 echo types and are zero for every other type, the ICMPv6 echoes included |
| Icmp.TypeName | src/Core/Protocols/NetworkLayer/ICMPParser.cpp:20-40 | "Unknown Type" exactly for types outside the listed ICMP and ICMPv6 ones |
| Udp.Decode | src/Core/Protocols/TransportLayer/UDPParser.cpp:36-57 | a buffer under 8 bytes is refused and leaves the header untouched; otherwise the four words are stored and the datagram is accepted iff its length field is at least 8 |
| Udp.Parse | src/Core/Protocols/TransportLayer/UDPParser.cpp:36-57 | the parser's verdict and header are those of `Decode` |
| Udp.Encode | src/Core/Protocols/TransportLayer/UDPParser.cpp:43-49 | an encoded header is 8 bytes |
| Udp.DecodeEncode | src/Core/Protocols/TransportLayer/UDPParser.cpp:36-57 | any header comes back from its bytes, whatever payload follows, and is accepted iff its length field is at least 8, even when it claims more bytes than are present |
| Udp.PortName | src/Core/Protocols/TransportLayer/UDPParser.cpp:22-32 | unlisted ports print in decimal; a name is all digits exactly when the port is unlisted |
| Tcp.StepAt | src/Core/Protocols/TransportLayer/TCPParser.cpp:54-94 | a step of the option walk that goes on skips between 1 and the remaining bytes |
| Tcp.TimestampShift | src/Core/Protocols/TransportLayer/TCPParser.cpp:93-94 | a Timestamps option found in the rest of the options after n bytes lies n bytes further into the options |
| Tcp.OptionsSound | src/Core/Protocols/TransportLayer/TCPParser.cpp:44-96 | the walk either leaves the recorded timestamps as they were or reports the values of a well-formed kind-8, length-10 option present in the bytes |
| Tcp.OptionsAt | src/Core/Protocols/TransportLayer/TCPParser.cpp:52-94 | one step read from offset p stops at End, skips one byte at NOP, stops on a truncated option or a length outside 2..remaining, records the values of a length-10 Timestamps option, and otherwise skips the option's length |
| Tcp.ParseOptions | src/Core/Protocols/TransportLayer/TCPParser.cpp:44-96 | only the three timestamp fields change, and they are the walk started with the flag cleared |
| Tcp.EncodeOption | src/Core/Protocols/TransportLayer/TCPParser.cpp:60-73 | a NOP is one byte; any other option is its data plus kind and length bytes |
| Tcp.TimestampBytes | src/Core/Protocols/TransportLayer/TCPParser.cpp:77-90 | TSval and TSecr are read big-endian from bytes 2..5 and 6..9 of the option |
| Tcp.OneOption | src/Core/Protocols/TransportLayer/TCPParser.cpp:52-94 | one well-formed option at the head of the bytes advances the walk by one reference step |
| Tcp.ValidTail | src/Core/Protocols/TransportLayer/TCPParser.cpp:52-94 | a well-formed option list is a well-formed option followed by a well-formed list |
| Tcp.WalkOptions | src/Core/Protocols/TransportLayer/TCPParser.cpp:44-96 | over a well-formed option list, ended or padded with End, the walk reports the last Timestamps option in the list |
| Tcp.NopNopTimestamps | src/Core/Protocols/TransportLayer/TCPParser.cpp:44-96 | NOP, NOP, Timestamps yields that option's TSval and TSecr |
| Tcp.Decode | src/Core/Protocols/TransportLayer/TCPParser.cpp:101-145 | accepted iff 20 bytes, data offset at least 5 and data offset × 4 bytes present; a short buffer leaves the header untouched; the fixed fields are stored before the offset check; on success the option length is data offset × 4 − 20 and, when there are options, the timestamps are the walk over them; otherwise the timestamps stay |
| Tcp.Parse | src/Core/Protocols/TransportLayer/TCPParser.cpp:101-145 | the parser's verdict and header are those of `Decode` |
| Tcp.FixedBytes | src/Core/Protocols/TransportLayer/TCPParser.cpp:108-119 | the fixed header is 20 bytes |
| Tcp.FixedFieldsOfBytes | src/Core/Protocols/TransportLayer/TCPParser.cpp:108-119 | every fixed field comes back from its bytes, whatever follows them |
| Tcp.Encode | src/Core/Protocols/TransportLayer/TCPParser.cpp:126-142 | an encoded header is data offset × 4 bytes |
| Tcp.DecodeLayout | src/Core/Protocols/TransportLayer/TCPParser.cpp:101-145 | an acceptable header decodes to its fixed fields, its option length and the walk over its option bytes |
| Tcp.DecodeEncode | src/Core/Protocols/TransportLayer/TCPParser.cpp:101-145 | decoding an encoded header followed by any payload gives its fixed fields, option length and the last Timestamps option in its list |
| Tcp.PortName | src/Core/Protocols/TransportLayer/TCPParser.cpp:29-42 | unlisted ports print in decimal; a name is all digits exactly when the port is unlisted |
| Application.RuleFor | src/Core/Protocols/ApplicationLayer/ApplicationParser.cpp:9-52 | an empty payload is never claimed; HTTP is chosen only for TCP on port 80, DNS only for UDP on port 53, TLS only for TCP on port 443 with neither port 80 |
| Application.Classify | src/Core/Protocols/ApplicationLayer/ApplicationParser.cpp:9-52 | an empty payload is rejected with the fields untouched; an accepted payload is labelled HTTP, DNS or TLS, HTTP only over TCP port 80 and DNS only over UDP port 53 |
| Application.Parse | src/Core/Protocols/ApplicationLayer/ApplicationParser.cpp:9-52 | the dispatcher's verdict and fields are those of `Classify` |
| Application.HttpHasPriority | src/Core/Protocols/ApplicationLayer/ApplicationParser.cpp:15-19 | TCP port 80 with a payload takes the HTTP decoder's verdict as final, whatever the other port; a rejected HTTP payload is not relabelled TLS |
| Application.DnsOverUdp | src/Core/Protocols/ApplicationLayer/ApplicationParser.cpp:22-26 | UDP port 53 with a payload takes the DNS decoder's verdict |
| Application.TlsOverTcp | src/Core/Protocols/ApplicationLayer/ApplicationParser.cpp:29-41 | TCP port 443 with a payload and no port 80 is accepted as TLS with the fixed summary, no other field changed |
| Application.Unclaimed | src/Core/Protocols/ApplicationLayer/ApplicationParser.cpp:43-51 | UDP on 443, TCP on 53 and every other combination are rejected with the fields untouched |
| Application.ChangedOnlyWhenClaimed | src/Core/Protocols/ApplicationLayer/ApplicationParser.cpp:9-52 | the fields change only for a non-empty payload on a port and transport some rule claims |
| Http.WordFrom | src/Core/Protocols/ApplicationLayer/HTTPParser.cpp:16-20 | the word starting at a non-space character ends at the next whitespace or the end of the line, and holds no whitespace |
| Http.SplitLine | src/Core/Protocols/ApplicationLayer/HTTPParser.cpp:14-22 | the loop yields exactly the whitespace-separated tokens of the line |
| Http.FirstLine | src/Core/Protocols/ApplicationLayer/HTTPParser.cpp:33-37 | no first line iff the text has no CRLF; otherwise the text starts with the line and a CRLF, and the line holds none |
| Http.FirstLineOf | src/Core/Protocols/ApplicationLayer/HTTPParser.cpp:33-37 | a line free of carriage returns followed by CRLF is the first line |
| Http.HostEndAfterName | src/Core/Protocols/ApplicationLayer/HTTPParser.cpp:57-62 | the first CRLF at or after "Host: " lies after the field name, so the value's length is never negative |
| Http.Host | src/Core/Protocols/ApplicationLayer/HTTPParser.cpp:57-63 | the host changes only when the text holds "Host: " and a CRLF after it |
| Http.StatusCode | src/Core/Protocols/ApplicationLayer/HTTPParser.cpp:78-82 | the code is what `stoi` reads from the token, and 0 where it throws |
| Http.Request | src/Core/Protocols/ApplicationLayer/HTTPParser.cpp:50-66 | a request writes the protocol, the request flag, method, target and version from the first three tokens, the Host value, and the summary method, space, host, target; no other field changes |
| Http.Response | src/Core/Protocols/ApplicationLayer/HTTPParser.cpp:75-91 | a response writes the protocol, the response flag, the version token, the status code and the summary "Response", code, reason words each followed by a space; method, target and host stay |
| Http.DecodeText | src/Core/Protocols/ApplicationLayer/HTTPParser.cpp:26-95 | a rejected payload leaves the fields untouched; an accepted one is at least 10 characters, has a first line, is labelled HTTP and changes only HTTP fields |
| Http.Acceptance | src/Core/Protocols/ApplicationLayer/HTTPParser.cpp:26-95 | a text is accepted exactly when it is at least 10 characters, has a first line, and that line's tokens start with a listed method and have three tokens, or start with "HTTP/" and have two |
| Http.DecodesAsRequest | src/Core/Protocols/ApplicationLayer/HTTPParser.cpp:44-67 | a request line makes the request fields be written |
| Http.DecodesAsResponse | src/Core/Protocols/ApplicationLayer/HTTPParser.cpp:71-92 | a status line makes the response fields be written |
| Http.Decode | src/Core/Protocols/ApplicationLayer/HTTPParser.cpp:26-95 | a payload under 10 bytes is rejected; rejection leaves the fields untouched; acceptance labels the payload HTTP and changes only HTTP fields |
| Http.StatusMessage | src/Core/Protocols/ApplicationLayer/HTTPParser.cpp:85-88 | the loop's reason phrase is every token after the code, each followed by a space |
| Http.ParseRequest | src/Core/Protocols/ApplicationLayer/HTTPParser.cpp:50-66 | the request branch writes exactly what `Request` describes |
| Http.ParseResponse | src/Core/Protocols/ApplicationLayer/HTTPParser.cpp:75-91 | the response branch writes exactly what `Response` describes |
| Http.Parse | src/Core/Protocols/ApplicationLayer/HTTPParser.cpp:26-95 | the parser's verdict and fields are those of `Decode` |
| Http.MethodsShape | src/Core/Protocols/ApplicationLayer/HTTPParser.cpp:44-46 | no listed method contains a colon or begins like a version, and each is a single word |
| Http.RequestRoundTrip | src/Core/Protocols/ApplicationLayer/HTTPParser.cpp:44-67 | a line of method, target and version, followed by CRLF and anything, decodes to that method, target and version with the summary built from them |
| Http.HostHeader | src/Core/Protocols/ApplicationLayer/HTTPParser.cpp:57-63 | a Host header that is the first "Host: " in the text is read back, up to its CRLF |
| Http.FieldFirstAt | src/Core/Protocols/ApplicationLayer/HTTPParser.cpp:57 | with no colon before it, "Host: " is first found where it was placed |
| Http.ValueEnd | src/Core/Protocols/ApplicationLayer/HTTPParser.cpp:59 | the CRLF after a value free of carriage returns ends the header line |
| Http.ResponseRoundTrip | src/Core/Protocols/ApplicationLayer/HTTPParser.cpp:71-92 | a status line of version, numeric code and reason words decodes to that version and code, with the reason in the summary |
| Http.ResponseFields | src/Core/Protocols/ApplicationLayer/HTTPParser.cpp:77-90 | a status line with a numeric code writes the version, the code and the summary of its reason words |
| Http.StatusLineShape | src/Core/Protocols/ApplicationLayer/HTTPParser.cpp:14-22 | a status line splits back into its words, holds no carriage return and is at least 8 characters |
| Dns.Dotted | src/Core/Protocols/ApplicationLayer/DNSParser.cpp:42-46 | joining with an empty piece gives the other piece; two non-empty pieces are joined by exactly one dot |
| Dns.DottedAssociative | src/Core/Protocols/ApplicationLayer/DNSParser.cpp:42-46 | joining with dots does not depend on grouping |
| Dns.JoinTarget | src/Core/Protocols/ApplicationLayer/DNSParser.cpp:30-36 | behind a pointer the target's text is appended directly as written, or after a dot in the corrected reading |
| Dns.PointerOffset | src/Core/Protocols/ApplicationLayer/DNSParser.cpp:31 | a pointer's offset is its low 14 bits |
| Dns.StepAt | src/Core/Protocols/ApplicationLayer/DNSParser.cpp:28-49 | the end byte lies in the message; a pointer's two bytes lie in it; a label's bytes lie in it and its text has the label's length |
| Dns.ReadName | src/Core/Protocols/ApplicationLayer/DNSParser.cpp:25-54 | a name that reads ends with the cursor past it, inside the message |
| Dns.AppendLabel | src/Core/Protocols/ApplicationLayer/DNSParser.cpp:39-47 | one label adds a dot when the name is not empty, then the label's text, and moves the cursor past the label |
| Dns.ParseName | src/Core/Protocols/ApplicationLayer/DNSParser.cpp:25-54 | the loop with its recursive call for a pointer reads the name as the source builds it: labels joined with dots, and the text behind a pointer appended with no dot |
| Dns.LabelAdvance | src/Core/Protocols/ApplicationLayer/DNSParser.cpp:37-48 | a label at the cursor continues the reading behind it with its text added |
| Dns.PointerFails | src/Core/Protocols/ApplicationLayer/DNSParser.cpp:30-36 | for either join, a pointer whose target does not read makes the name fail at the pointer |
| Dns.LabelTexts | src/Core/Protocols/ApplicationLayer/DNSParser.cpp:46 | one text per label |
| Dns.AtSplit | src/Core/Protocols/ApplicationLayer/DNSParser.cpp:89 | bytes placed in the message lie there piece by piece |
| Dns.AtSlice | src/Core/Protocols/ApplicationLayer/DNSParser.cpp:89 | bytes placed in the message are that slice of it |
| Dns.EncodeLabelsCons | src/Core/Protocols/ApplicationLayer/DNSParser.cpp:37-48 | the first label's length and bytes come first |
| Dns.LabelStepAt | src/Core/Protocols/ApplicationLayer/DNSParser.cpp:37-48 | a label's length byte and bytes at the cursor make one label step |
| Dns.LabelsAt | src/Core/Protocols/ApplicationLayer/DNSParser.cpp:37-48 | the first of a run of labels is one label step, and the rest lie behind it |
| Dns.LabelsThen | src/Core/Protocols/ApplicationLayer/DNSParser.cpp:28-49 | a run of labels is read as a whole, its texts added with dots |
| Dns.ReadEncodedName | src/Core/Protocols/ApplicationLayer/DNSParser.cpp:25-54 | an uncompressed name reads back as its labels with dots, the cursor just past its zero byte |
| Dns.Pointer | src/Core/Protocols/ApplicationLayer/DNSParser.cpp:30-31 | a pointer is two bytes |
| Dns.PointerAt | src/Core/Protocols/ApplicationLayer/DNSParser.cpp:30-31 | a pointer's two bytes give back its offset |
| Dns.PointerStep | src/Core/Protocols/ApplicationLayer/DNSParser.cpp:30-36 | for either join, a pointer whose target reads adds the target's text to the name as that join says (appended directly as written), and the cursor moves two bytes on |
| Dns.ReadCompressedName | src/Core/Protocols/ApplicationLayer/DNSParser.cpp:25-54 | labels then a pointer read as the labels' text joined to the target's text, the cursor just past the pointer |
| Dns.DottedAllJoin | src/Core/Protocols/ApplicationLayer/DNSParser.cpp:42-46 | adding labels with dots is joining their texts with "." |
| Dns.JoinNonEmpty | src/Core/Protocols/ApplicationLayer/DNSParser.cpp:42-46 | joined label texts are never empty |
| Dns.NameIsJoinedLabels | src/Core/Protocols/ApplicationLayer/DNSParser.cpp:25-54 | an uncompressed name reads as its label texts joined with "." |
| Dns.PointerDropsDot | src/Core/Protocols/ApplicationLayer/DNSParser.cpp:30-36 | as written, labels before a pointer to a non-empty name read without the dot between them ("www" then "example.com" gives "wwwexample.com"); the corrected reading has the dot |
| Dns.DottedAllStarts | src/Core/Protocols/ApplicationLayer/DNSParser.cpp:42-46 | a name of at least one label is not empty |
| Dns.DottedAllKeeps | src/Core/Protocols/ApplicationLayer/DNSParser.cpp:42-46 | a non-empty name stays non-empty as labels are added |
| Dns.TargetsAgree | src/Core/Protocols/ApplicationLayer/DNSParser.cpp:25-54 | without a pointer, the as-written and corrected readings agree |
| Dns.Decode | src/Core/Protocols/ApplicationLayer/DNSParser.cpp:70-116 | fewer than 12 bytes is refused with the fields untouched; otherwise the protocol, identifier and query flag are set; with no question the summary is kind and identifier; with questions it succeeds iff the name reads and type and class fit, and then stores name, type, class and the summary with the name; the name is read as written, with the text behind a pointer appended with no dot; only the DNS fields and the summary change |
| Dns.QrBit | src/Core/Protocols/ApplicationLayer/DNSParser.cpp:86 | the QR bit is clear exactly for flag words below 0x8000 |
| Dns.Parse | src/Core/Protocols/ApplicationLayer/DNSParser.cpp:70-116 | the parser's verdict and fields, the as-written name included, are those of `Decode` |
| Dns.AtBE16 | src/Core/Protocols/ApplicationLayer/DNSParser.cpp:98-102 | a field written big-endian reads back |
| Dns.QueryRoundTrip | src/Core/Protocols/ApplicationLayer/DNSParser.cpp:70-116 | a query whose first question is an uncompressed name, type and class decodes to that name, type and class |
| Dns.CompressedQueryRoundTrip | src/Core/Protocols/ApplicationLayer/DNSParser.cpp:25-116 | a query whose first question is labels, a pointer, then type and class stores the labels' text with the pointed-to name appended directly, and the type and class behind the pointer |
| Dissector.AfterLink | src/Core/Capture/Parser.cpp:44-56 | the bytes after the link layer start past the 14-byte Ethernet header and, when a tag was found, past its 4 bytes |
| Dissector.TcpStep | src/Core/Capture/Parser.cpp:78-85 | only TCP fields and the TCP flag change, the flag being the decoder's verdict; on success the tree gains one level and the header fits the bytes; on failure the application fields and depth stay |
| Dissector.UdpStep | src/Core/Capture/Parser.cpp:86-92 | only UDP fields and the UDP flag change, the flag being the decoder's verdict; on success the tree gains one level; on failure the application fields and depth stay |
| Dissector.IcmpStep | src/Core/Capture/Parser.cpp:93-98 | only ICMP fields and the ICMP flag change; no application decoder runs; the tree gains a level iff ICMP was decoded |
| Dissector.Transport | src/Core/Capture/Parser.cpp:77-98 | the network and link layers stay; at most one transport layer is decoded, TCP only for protocol 6 with 20 bytes, UDP only for 17 with 8, ICMP only for its number with 4; without TCP or UDP the application fields stay |
| Dissector.IPv4Step | src/Core/Capture/Parser.cpp:62-99 | the dissection goes on iff the IPv4 header is acceptable; a rejected header leaves only the IPv4 fields written; otherwise the transport step runs past the header and its options |
| Dissector.IPv6Step | src/Core/Capture/Parser.cpp:102-137 | the IPv6 flag is the decoder's verdict; a rejected header leaves only the IPv6 fields written and no transport; otherwise the transport step starts where the extension walk stopped |
| Dissector.ArpStep | src/Core/Capture/Parser.cpp:139-144 | only ARP fields and the ARP flag change, and the tree gains a level iff ARP was decoded |
| Dissector.NetworkStep | src/Core/Capture/Parser.cpp:61-147 | the link layer stays; layers are consistent; each network flag matches its EtherType; only a rejected IPv4 header of at least 20 bytes stops the dissection; without TCP or UDP the application fields stay; the depth counts the layers decoded |
| Dissector.Dissect | src/Core/Capture/Parser.cpp:24-155 | an empty frame is refused with the record untouched; otherwise the record is cleared, holds the frame, both lengths and the capture time; the verdict is true iff the frame holds an Ethernet header and no malformed IPv4 header; the malformed flag is the negated verdict; the layers are consistent |
| Dissector.LinkStep | src/Core/Capture/Parser.cpp:37-59 | the link step succeeds iff 14 bytes are present; on success the next type is the tag's inner type when tagged, the depth is 1 plus the tag, and the cursor is past the link bytes; only the link layer changes |
| Dissector.FromLink | src/Core/Capture/Parser.cpp:37-155 | the dissection after entry changes only layers, application, depth and malformed flag, and has the verdict and flag of `Dissect` |
| Dissector.Finish | src/Core/Capture/Parser.cpp:149-155 | the verdict is the network step's; a failed step marks the packet malformed; a found application protocol adds one tree level |
| Dissector.ParseTcp | src/Core/Capture/Parser.cpp:78-85 | the TCP branch leaves the packet as `TcpStep` describes |
| Dissector.ParseUdp | src/Core/Capture/Parser.cpp:86-92 | the UDP branch leaves the packet as `UdpStep` describes |
| Dissector.ParseIcmp | src/Core/Capture/Parser.cpp:93-98 | the ICMP branch leaves the packet as `IcmpStep` describes |
| Dissector.ParseTransport | src/Core/Capture/Parser.cpp:77-98 | the transport block leaves the packet as `Transport` describes |
| Dissector.ParseIPv4 | src/Core/Capture/Parser.cpp:62-99 | the IPv4 branch leaves the packet and verdict as `IPv4Step` describes |
| Dissector.ParseIPv6 | src/Core/Capture/Parser.cpp:102-137 | the IPv6 branch leaves the packet as `IPv6Step` describes |
| Dissector.ParseArp | src/Core/Capture/Parser.cpp:139-144 | the ARP branch leaves the packet as `ArpStep` describes |
| Dissector.ParseNetwork | src/Core/Capture/Parser.cpp:61-147 | the layer-3 block leaves the packet and verdict as `NetworkStep` describes |
| Dissector.ParseFinish | src/Core/Capture/Parser.cpp:149-155 | the tail of the dissection leaves the packet and verdict as `Finish` describes |
| Dissector.ParseLink | src/Core/Capture/Parser.cpp:37-59 | the Ethernet and tag part gives the verdict, cursor and next type of `LinkStep` and changes only layers and depth |
| Dissector.ParseFrame | src/Core/Capture/Parser.cpp:37-155 | the dissection after entry leaves the packet and verdict as `FromLink` describes |
| Dissector.Enter | src/Core/Capture/Parser.cpp:27-35 | the packet is cleared and holds the frame, both lengths and the capture time |
| Dissector.Parse | src/Core/Capture/Parser.cpp:24-155 | the dissector leaves the packet and verdict as `Dissect` describes |
| Dissector.TransportIgnoresLink | src/Core/Capture/Parser.cpp:77-98 | the transport step never looks at the link layer |
| Dissector.IPv4IgnoresLink | src/Core/Capture/Parser.cpp:62-99 | the IPv4 step never looks at the link layer |
| Dissector.IPv6IgnoresLink | src/Core/Capture/Parser.cpp:102-137 | the IPv6 step never looks at the link layer |
| Dissector.NetworkIgnoresLink | src/Core/Capture/Parser.cpp:61-147 | the network step never looks at the link layer |
| Dissector.TagIsTransparent | src/Core/Capture/Parser.cpp:47-59 | a frame with one 802.1Q tag dissects above the link layer exactly as the same frame with the tag's four bytes cut out |
| Dissector.TcpPayloadReachesApplication | src/Core/Capture/Parser.cpp:71-84 | an untagged IPv4/TCP frame hands the application decoder exactly the bytes after the Ethernet, IPv4 and TCP headers, options included, with the TCP ports |
| Dissector.UdpOverIPv6ReachesApplication | src/Core/Capture/Parser.cpp:102-128 | an untagged IPv6/UDP frame hands the application decoder the bytes after the extension headers and the 8 UDP header bytes, with the UDP ports |
| Dissector.UnknownEtherTypeIgnored | src/Core/Capture/Parser.cpp:145-147 | a frame whose EtherType names no decoder is accepted with no network or transport layer |
| Dissector.ApplicationNeedsTransport | src/Core/Capture/Parser.cpp:84 | the application fields change only when a TCP or UDP header was decoded |
| Dissector.DepthCountsLayers | src/Core/Capture/Parser.cpp:45-152 | on success the tree depth is one level per decoded layer: Ethernet, tag, network, transport and application |
| Conversation.SameStreamIsIdentity | src/Controller/ControllerLib/ConversationManager.hpp:23-27 | the field-by-field key comparison holds exactly when the two keys are equal, so the table's equality is key identity |
| Conversation.BelowAtFirstDifference | src/Controller/ControllerLib/ConversationManager.cpp:35 | the address order used by the swap holds iff at the first differing byte the left address has the smaller byte (lexicographic comparison of 16-byte arrays) |
| Conversation.BelowIrreflexive | src/Controller/ControllerLib/ConversationManager.cpp:35 | no address is below itself |
| Conversation.BelowAsymmetric | src/Controller/ControllerLib/ConversationManager.cpp:35 | if one address is below another, the other is not below it |
| Conversation.BelowTotal | src/Controller/ControllerLib/ConversationManager.cpp:35 | two different addresses are ordered one way or the other |
| Conversation.Canonical | src/Controller/ControllerLib/ConversationManager.cpp:35-38 | the key's endpoints are the given (address, port) pairs, possibly swapped; afterwards the first address is not above the second, and with equal addresses the first port is not above the second; the protocol is kept and the IPv6 flag is off |
| Conversation.CanonicalSymmetric | src/Controller/ControllerLib/ConversationManager.cpp:33-38 | the two directions of a flow get the same key |
| Conversation.CanonicalIdentifiesFlow | src/Controller/ControllerLib/ConversationManager.cpp:33-38 | two observations share a key iff they are the same pair of endpoints, in either direction |
| Conversation.IpBytes | src/Controller/ControllerLib/ConversationManager.hpp:83-84 | the 16-byte key address holds the IPv4 word in its first four bytes in memory order, the other twelve bytes zero |
| Conversation.IpBytesInjective | src/Controller/ControllerLib/ConversationManager.hpp:83-84 | two IPv4 words give the same key address iff they are equal |
| Conversation.StreamIdOf | src/Controller/ControllerLib/ConversationManager.cpp:16-43 | a non-zero protocol only for an IPv4 packet carrying TCP or UDP; every other packet gets the value-initialised key; the IPv6 flag is never set |
| Conversation.ReplySharesStream | src/Controller/ControllerLib/ConversationManager.cpp:16-43 | a packet with source and destination addresses and ports exchanged gets the same key |
| Conversation.GetStreamId | src/Controller/ControllerLib/ConversationManager.cpp:16-43 | the key built field by field with the in-place swap is the canonical key of the packet's headers |
| Conversation.XorStep | src/Controller/ControllerLib/ConversationManager.hpp:34 | exclusive or works bit by bit: low bit is the inequality of the low bits, the rest is the exclusive or of the halves |
| Conversation.XorZero | src/Controller/ControllerLib/ConversationManager.hpp:34 | exclusive or with zero leaves a value unchanged |
| Conversation.XorCommutes | src/Controller/ControllerLib/ConversationManager.hpp:39-41 | exclusive or is commutative |
| Conversation.XorAssociates | src/Controller/ControllerLib/ConversationManager.hpp:39-41 | exclusive or is associative |
| Conversation.XorExchange | src/Controller/ControllerLib/ConversationManager.hpp:39-41 | the last two operands of an exclusive-or chain can be exchanged |
| Conversation.AddressHashOfIpv4 | src/Controller/ControllerLib/ConversationManager.hpp:31-35 | the hash of an IPv4 key address is the seed exclusive-or the IPv4 word, the twelve zero bytes contributing nothing |
| Conversation.HashIgnoresOrderAndFamily | src/Controller/ControllerLib/ConversationManager.hpp:38-42 | the key hash does not change when the two endpoints are listed the other way round, nor with the IPv6 flag |
| Conversation.TrackKey | src/Controller/ControllerLib/ConversationManager.cpp:56-95 | a non-QUIC packet or a packet without a stream leaves table and packet as they were; otherwise at most the packet's key is added to the table, every other entry stays, and the packet's protocol and info are either kept, relabelled QUIC, or relabelled QUIC with the short-header info |
| Conversation.LongHeaderMarksStream | src/Controller/ControllerLib/ConversationManager.cpp:71-78 | a long-header packet on a stream leaves its stream in the table marked as QUIC, and is labelled QUIC with its info unchanged |
| Conversation.ShortHeaderNeedsMark | src/Controller/ControllerLib/ConversationManager.cpp:68-93 | a short-header packet leaves its stream's state as it was (inserting a fresh one if missing); it is relabelled QUIC with the short-header info iff its stream was marked, otherwise its application fields stay |
| Conversation.MarksPersist | src/Controller/ControllerLib/ConversationManager.cpp:56-95 | no packet removes a table entry or clears a stream's QUIC mark |
| Conversation.ReplyConfirmed | src/Controller/ControllerLib/ConversationManager.cpp:56-95 | after a long-header packet, a short-header packet travelling the other way on the same flow is relabelled QUIC with the short-header info |
| Conversation.ConversationManager.constructor | src/Controller/ControllerLib/ConversationManager.hpp:86-87 | the manager starts with an empty table and a zero stream counter |
| Conversation.ConversationManager.Clear | src/Controller/ControllerLib/ConversationManager.cpp:8-11 | the table is emptied and the counter is left alone |
| Conversation.ConversationManager.Record | src/Controller/ControllerLib/ConversationManager.cpp:67-93 | the table and the packet's application fields become what the flow-tracking function gives for that key |
| Conversation.ConversationManager.ProcessPacket | src/Controller/ControllerLib/ConversationManager.cpp:56-95 | the table and the packet's application fields become what the flow-tracking function gives; nothing else in the packet and not the counter changes |
| DisplayFilter.OpText | src/Controller/ControllerLib/DisplayFilterEngine.cpp:58-70 | every operator is written with one or two characters |
| DisplayFilter.CompareComplements | src/Controller/ControllerLib/DisplayFilterEngine.cpp:121-129 | "!=" is the negation of "==", ">=" of "<" and "<=" of ">"; ">=" is ">" or "=="; "<" is ">" with the operands exchanged |
| DisplayFilter.Signed32 | src/Controller/ControllerLib/DisplayFilterEngine.cpp:181 | the conversion of the unsigned 32-bit wire length to `int` gives a value in the signed 32-bit range, equal to the length below 2^31 and congruent to it modulo 2^32 |
| DisplayFilter.CheckProtocol | src/Controller/ControllerLib/DisplayFilterEngine.cpp:105-119 | a bare name can hold only if it is one of the six application names or the four layer names |
| DisplayFilter.ProtocolNamesSelect | src/Controller/ControllerLib/DisplayFilterEngine.cpp:105-119 | each application name selects exactly the packets labelled with that name in upper case; "tcp", "udp", "icmp" and "arp" select exactly the packets with that layer decoded |
| DisplayFilter.CheckIp | src/Controller/ControllerLib/DisplayFilterEngine.cpp:131-151 | an address test can hold only for an IPv4 packet and only with "==" or "!=" |
| DisplayFilter.IpTestSelects | src/Controller/ControllerLib/DisplayFilterEngine.cpp:131-151 | with an address written in the engine's dotted form, "ip.src ==" and "ip.dst ==" select the IPv4 packets with that source or destination, "ip.addr ==" those with it at either end, "ip.addr !=" those with it at neither end |
| DisplayFilter.PortsFor | src/Controller/ControllerLib/DisplayFilterEngine.cpp:153-168 | a port test reads ports only from a packet with TCP or UDP decoded |
| DisplayFilter.PortTestSelects | src/Controller/ControllerLib/DisplayFilterEngine.cpp:153-178 | without matching ports every port test fails; "!=" holds iff neither port is the target and "==" iff either is; "tcp.port" needs TCP and "udp.port" needs UDP |
| DisplayFilter.Test | src/Controller/ControllerLib/DisplayFilterEngine.cpp:83-102 | an unknown key fails; "stream" holds iff the packet is on a stream and its index passes the comparison with the value read as a number; "frame.len" and "length" compare the wire length read as a signed 32-bit number |
| DisplayFilter.TwoCharFrom | src/Controller/ControllerLib/DisplayFilterEngine.cpp:58-65 | a detected two-character operator is one of "==", "!=", ">=", "<=" and occurs at the reported index |
| DisplayFilter.Operator | src/Controller/ControllerLib/DisplayFilterEngine.cpp:54-73 | a detected operator starts inside the condition |
| DisplayFilter.Clean | src/Controller/ControllerLib/DisplayFilterEngine.cpp:77-78 | a cleaned value holds no double or single quote |
| DisplayFilter.OperatorOfParts | src/Controller/ControllerLib/DisplayFilterEngine.cpp:54-73 | in a condition made of a key and a value without operator characters around one operator, that operator is detected, at the end of the key, with its own width |
| DisplayFilter.OperatorBare | src/Controller/ControllerLib/DisplayFilterEngine.cpp:67-71 | a bare '=' between a plain key and value is detected as equality at the end of the key |
| DisplayFilter.ConditionOfParts | src/Controller/ControllerLib/DisplayFilterEngine.cpp:46-103 | a condition written as key, operator and value without stray operator characters runs the test of the trimmed key, the cleaned value and that operator |
| DisplayFilter.BareEqualsCondition | src/Controller/ControllerLib/DisplayFilterEngine.cpp:70-77 | a bare '=' is read as equality; as written the value loses its first character, corrected it is the whole value |
| DisplayFilter.BareEqualsIsEquality | src/Controller/ControllerLib/DisplayFilterEngine.cpp:70-77 | with the value read from just after the '=', "key=value" means the same as "key==value" |
| DisplayFilter.BareEqualsDropsDigit | src/Controller/ControllerLib/DisplayFilterEngine.cpp:70-77 | with the value read two characters after the '=', "length=80" rejects an 80-byte frame; read one character after, it accepts it |
| DisplayFilter.BangAloneFails | src/Controller/ControllerLib/DisplayFilterEngine.cpp:50-73 | a condition whose only operator character is '!' finds no operator and fails |
| DisplayFilter.BlankFilterMatches | src/Controller/ControllerLib/DisplayFilterEngine.cpp:19-20 | a filter of white space only matches every packet |
| DisplayFilter.CaseInsensitive | src/Controller/ControllerLib/DisplayFilterEngine.cpp:19 | upper- or lower-casing the filter text does not change which packets it matches |
| DisplayFilter.DetectOperator | src/Controller/ControllerLib/DisplayFilterEngine.cpp:54-71 | the loop over the two-character operators and the one-character fallbacks detect the operator the operator-detection function gives; a bare '=' is the operator "==" and the value skips that operator's two characters, as written |
| DisplayFilter.MatchSingleCondition | src/Controller/ControllerLib/DisplayFilterEngine.cpp:46-103 | the result is the condition function's verdict: empty holds, no operator character means a protocol name, otherwise the test of key, cleaned value and operator, the value taken as written two characters after a bare '=' |
| DisplayFilter.AndBlock | src/Controller/ControllerLib/DisplayFilterEngine.cpp:27-36 | the block is valid iff every trimmed "&&" part of the alternative holds, each part read as `matchSingleCondition` reads it |
| DisplayFilter.Match | src/Controller/ControllerLib/DisplayFilterEngine.cpp:18-44 | the result is true iff the trimmed, lower-cased filter is empty or some "||" alternative has all of its "&&" parts hold, read as written (so "length=80" rejects an 80-byte frame) |
| Capture.Frame | src/Core/Capture/CaptureEngine.cpp:148-155 | a read yields a packet iff it delivered a frame (result 1) and the dissector accepts it; the packet keeps the frame's bytes, the capture time and the header's length on the wire |
| Capture.Reads | src/Core/Capture/CaptureEngine.cpp:141-183 | one read per turn, the i-th read being what the loop makes of the i-th turn |
| Capture.Step | src/Core/Capture/CaptureEngine.cpp:148-177 | one pass sends at most one batch and never changes those already sent; a batch is sent only when something is waiting and either 50 are waiting or 100 ms have passed since the last send, and sending empties the buffer and restarts the timer; without a send the buffer only grows and the timer stays |
| Capture.FlattenAppend | src/Core/Capture/CaptureEngine.cpp:166-177 | sending one more batch appends its packets to everything sent |
| Capture.StepKeepsPackets | src/Core/Capture/CaptureEngine.cpp:148-177 | a pass keeps every packet: what is sent plus what waits grows by exactly the packet the read yields, and the counter by its count |
| Capture.LoopKeepsPackets | src/Core/Capture/CaptureEngine.cpp:141-183 | the loop loses, duplicates and reorders nothing: sent plus waiting packets are the earlier ones followed by the accepted ones, and the counter advances once per accepted packet |
| Capture.RunSendsEveryPacket | src/Core/Capture/CaptureEngine.cpp:141-190 | the batches of a whole capture, laid end to end, are exactly the accepted packets in read order, the final send included |
| Capture.NumberedCons | src/Core/Capture/CaptureEngine.cpp:155 | a packet numbered after c followed by packets numbered consecutively after it are numbered consecutively after c |
| Capture.AcceptedNumbering | src/Core/Capture/CaptureEngine.cpp:155 | accepted packets carry the numbers following the counter's value, consecutively in read order, modulo 2^32 |
| Capture.RunNumbering | src/Core/Capture/CaptureEngine.cpp:141-190 | the packets a capture sends, in order, are numbered one after another from the counter's starting value plus one |
| Capture.StepKeepsSizes | src/Core/Capture/CaptureEngine.cpp:133-177 | a pass keeps every sent batch between 1 and 50 packets and leaves fewer than 50 waiting |
| Capture.LoopKeepsSizes | src/Core/Capture/CaptureEngine.cpp:133-183 | the loop keeps every sent batch between 1 and 50 packets and fewer than 50 waiting |
| Capture.RunBatchesWellSized | src/Core/Capture/CaptureEngine.cpp:133-190 | every batch a capture sends, the last included, holds between 1 and 50 packets |
| Capture.StopDropsPendingRead | src/Core/Capture/CaptureEngine.cpp:143-146 | a frame read while a stop arrives during the pause wait ends the loop, and neither it nor anything after it is numbered or sent |
| Capture.LoopEndsAtStop | src/Core/Capture/CaptureEngine.cpp:141-146 | the loop's outcome depends only on the reads before the first one it does not go on past |
| Capture.RunEndsAtStop | src/Core/Capture/CaptureEngine.cpp:141-146 | a capture's batches depend only on the turns before the first at which the flag is clear or the read fails |
| Capture.CaptureEngine.constructor | src/Core/Capture/CaptureEngine.cpp:8-14 | a new engine is neither running nor paused, has counted nothing, holds no handle and has empty interface and filter settings |
| Capture.CaptureEngine.SetInterface | src/Core/Capture/CaptureEngine.cpp:21-23 | the interface name is set and nothing else changes |
| Capture.CaptureEngine.SetCaptureFilter | src/Core/Capture/CaptureEngine.cpp:25-27 | the capture filter is set and nothing else changes |
| Capture.CaptureEngine.StartCapture | src/Core/Capture/CaptureEngine.cpp:32-53 | the engine is running, not paused and its counter is reset to zero; the settings and the handle stay |
| Capture.CaptureEngine.StopCapture | src/Core/Capture/CaptureEngine.cpp:55-64 | the running flag is cleared and nothing else changes |
| Capture.CaptureEngine.PauseCapture | src/Core/Capture/CaptureEngine.cpp:66-68 | the paused flag is set and nothing else changes |
| Capture.CaptureEngine.ResumeCapture | src/Core/Capture/CaptureEngine.cpp:70-72 | the paused flag is cleared and nothing else changes |
| Capture.CaptureEngine.SetupPcap | src/Core/Capture/CaptureEngine.cpp:76-83 | the handle is open exactly when the capture library opened it; the flags, counter and settings stay |
| Capture.CaptureEngine.ClosePcap | src/Core/Capture/CaptureEngine.cpp:85-90 | the handle is closed; the flags, counter and settings stay |
| Capture.CaptureEngine.ApplyCaptureFilter | src/Core/Capture/CaptureEngine.cpp:92-107 | succeeds iff the filter is empty, no handle is open, or the filter both compiles and installs |
| Capture.CaptureEngine.DissectFrame | src/Core/Capture/CaptureEngine.cpp:149-152 | parsing a fresh packet gives the dissector's verdict and record for the frame |
| Capture.CaptureEngine.Accept | src/Core/Capture/CaptureEngine.cpp:148-159 | the packet returned is the turn's frame numbered after the old counter, and the counter advances by one exactly when a packet is returned |
| Capture.CaptureEngine.Pass | src/Core/Capture/CaptureEngine.cpp:148-177 | the buffer, the sent batches, the counter and the flush time become what one step of the loop function gives |
| Capture.CaptureEngine.CaptureLoop | src/Core/Capture/CaptureEngine.cpp:113-193 | a failed open reports the open error and sends nothing; a failed filter reports the filter error, sends nothing and closes the handle; otherwise no error, the handle is closed at the end, the batches sent are the run function's over the turns and the counter is where the loop left it |
| Statistics.Bump | src/Controller/StatisticsManager.cpp:79-91 | incrementing a counter inserts its key if missing, raises that counter by one and leaves every other counter as it was |
| Statistics.SumRemove | src/Controller/StatisticsManager.cpp:79 | the sum of a counter map can be taken apart at any of its keys |
| Statistics.SumBump | src/Controller/StatisticsManager.cpp:79-91 | incrementing one counter raises the sum of the map by one |
| Statistics.ProtocolKeyOrder | src/Controller/StatisticsManager.cpp:69-77 | the protocol label is never empty: the application label when the dissector set one, else "TCP", "UDP", "ICMP" or "ARP" for the first of those layers decoded, in that order, else "Unknown", each case exactly |
| Statistics.Ipv6Groups | src/Controller/StatisticsManager.cpp:128-132 | an IPv6 address prints as eight groups |
| Statistics.GroupsColonFree | src/Controller/StatisticsManager.cpp:130-131 | no printed group contains a colon |
| Statistics.Ipv6TextSplits | src/Controller/StatisticsManager.cpp:126-134 | the printed address splits at its colons back into the eight groups, each one to four hex digits reading back as the address's big-endian 16-bit group |
| Statistics.GroupBytes | src/Controller/StatisticsManager.cpp:130 | equal 16-bit groups come from equal byte pairs |
| Statistics.Ipv6TextInjective | src/Controller/StatisticsManager.cpp:126-134 | two IPv6 addresses with the same printed form are equal |
| Statistics.Endpoints | src/Controller/StatisticsManager.cpp:82-91 | a packet has printed endpoints exactly when it has IPv4, IPv6 or ARP decoded |
| Statistics.EndpointsSeparate | src/Controller/StatisticsManager.cpp:82-87 | two IPv4 packets are counted under the same source iff their source addresses are equal, and likewise for destinations; the same holds for two IPv6 packets |
| Statistics.TallyCounts | src/Controller/StatisticsManager.cpp:63-92 | one packet adds one to the total and to its own label's counter and nothing to other labels; the source and destination sums each gain one exactly when the packet has addresses, and the address maps are untouched otherwise |
| Statistics.TallyAllSums | src/Controller/StatisticsManager.cpp:53-92 | from empty statistics the total is the number of packets, the label counters add up to the total, each label's counter is the number of packets with that label, and the source and destination counters each add up to the number of packets with addresses |
| Statistics.TallyAllAppend | src/Controller/StatisticsManager.cpp:53-59 | counting two batches one after the other is counting their concatenation |
| Statistics.StatisticsManager.constructor | src/Controller/StatisticsManager.cpp:3-7 | a new manager has a zero total and three empty maps |
| Statistics.StatisticsManager.Clear | src/Controller/StatisticsManager.cpp:9-15 | the total is zero again and all three maps are empty |
| Statistics.StatisticsManager.ProcessPacket | src/Controller/StatisticsManager.cpp:63-92 | the manager's state becomes the one-packet tally of the old state |
| Statistics.StatisticsManager.FinalProto | src/Controller/StatisticsManager.cpp:69-77 | the label chosen by the chain of tests is the packet's protocol label |
| Statistics.StatisticsManager.CountAddresses | src/Controller/StatisticsManager.cpp:82-91 | the source and destination maps are incremented under the packet's printed endpoints when it has them and are unchanged otherwise; the total and label counts stay |
| Statistics.StatisticsManager.ProcessPackets | src/Controller/StatisticsManager.cpp:53-59 | the manager's state becomes the tally of the whole batch, packet after packet, from the old state |
| Statistics.StatisticsManager.Ipv6ToString | src/Controller/StatisticsManager.cpp:126-134 | the loop over byte pairs builds the colon-joined hex form of the address |
| MacVendor.StrippedHasNoSeparator | src/Common/MacResolver.cpp:50-53 | no ':', '-' or '.' is left in an address once its separators are removed |
| MacVendor.ExtractOui | src/Common/MacResolver.cpp:48-59 | the OUI is empty iff fewer than six characters remain once the separators are removed, and otherwise six characters long, with no separator and no lower-case letter |
| MacVendor.StrippedConcat | src/Common/MacResolver.cpp:50-53 | removing separators works piecewise over a concatenation |
| MacVendor.StrippedSeparator | src/Common/MacResolver.cpp:50-53 | a lone separator is removed entirely |
| MacVendor.StrippedDropsSeparator | src/Common/MacResolver.cpp:50-53 | inserting a separator anywhere does not change the stripped address |
| MacVendor.OuiIgnoresSeparator | src/Common/MacResolver.cpp:48-59 | inserting a separator anywhere does not change the OUI, so "00:11:22", "00-11-22" and "0011.22" give the same key |
| MacVendor.CaseConcat | src/Common/MacResolver.cpp:57 | case conversion works piecewise over a concatenation |
| MacVendor.WithoutUpper | src/Common/MacResolver.cpp:51-57 | removing a non-letter commutes with upper-casing |
| MacVendor.WithoutLower | src/Common/MacResolver.cpp:51-57 | removing a non-letter commutes with lower-casing |
| MacVendor.StrippedCase | src/Common/MacResolver.cpp:51-57 | stripping separators commutes with upper- and lower-casing |
| MacVendor.OuiIgnoresCase | src/Common/MacResolver.cpp:48-59 | an address written in upper or lower case gives the same OUI |
| MacVendor.LineEntry | src/Common/MacResolver.cpp:22-41 | an empty or comment line stores nothing, and a stored key is six characters long |
| MacVendor.LineKeyIsOui | src/Common/MacResolver.cpp:29-59 | a line whose first word has no '.' is stored under exactly the OUI that word gives as an address, so looking up the address as the file writes it finds that line |
| MacVendor.LastLineWins | src/Common/MacResolver.cpp:20-42 | after loading, a key holds the short name of the last line stored under it |
| MacVendor.UnkeyedUnchanged | src/Common/MacResolver.cpp:20-42 | a key no line stores is present after loading iff it was before, with the same name |
| MacVendor.Vendor | src/Common/MacResolver.cpp:61-70 | "Unknown" when the address yields no OUI or its OUI is not in the table, otherwise the name stored under the OUI |
| MacVendor.ResolvesToLastLine | src/Common/MacResolver.cpp:12-70 | after loading, an address resolves to the short name on the last line stored under its OUI |
| MacVendor.MacResolver.constructor | src/Common/MacResolver.hpp:20-26 | a new resolver has an empty table |
| MacVendor.MacResolver.LoadDatabase | src/Common/MacResolver.cpp:12-46 | fails and leaves the table alone when the file cannot be opened; otherwise succeeds with the table being the old one with every line's entry stored in order |
| Text.QtToInt | src/Controller/ControllerLib/DisplayFilterEngine.cpp:88-99 | a value converts to a signed 32-bit number (0 for text that is not a number) |
| Text.QtToIntDecimal | src/Controller/ControllerLib/DisplayFilterEngine.cpp:88-99 | a printed non-negative 32-bit number converts back to itself |
| Text.Stoi | src/Core/Protocols/ApplicationLayer/HTTPParser.cpp:79 | a number read by the conversion lies in the signed 32-bit range |
| Text.StoiDecimal | src/Core/Protocols/ApplicationLayer/HTTPParser.cpp:79 | a printed non-negative 32-bit number is read back as itself |
| Text.Split | src/Controller/ControllerLib/DisplayFilterEngine.cpp:23-27 | splitting gives at least one part |
| Text.JoinSplit | src/Controller/ControllerLib/DisplayFilterEngine.cpp:23-27 | joining the parts of a split with the separator gives the text back |
| Text.SplitPartsFree | src/Controller/ControllerLib/DisplayFilterEngine.cpp:23-27 | no part of a split contains the separator |
| Text.SplitJoinChar | src/Controller/StatisticsManager.cpp:133 | parts without the separator character, joined by it, split back into the same parts |
| Text.Find | src/Controller/ControllerLib/DisplayFilterEngine.cpp:60-70 | the index found is the first occurrence of the pattern, and nothing is found iff the pattern does not occur |
| Text.TokensAreWords | src/Core/Protocols/ApplicationLayer/HTTPParser.cpp:18 | every word read from a line is non-empty and holds no white space |
| Text.TokensSpacedThen | src/Core/Protocols/ApplicationLayer/HTTPParser.cpp:18 | words written one after another, each followed by a space, are read back as those words |
| Text.DecimalRoundTrip | src/Controller/StatisticsManager.cpp:119-123 | a number printed in decimal reads back as itself |
| Text.DecimalInjective | src/Controller/StatisticsManager.cpp:119-123 | different numbers print differently in decimal |
| Text.HexRoundTrip | src/Controller/StatisticsManager.cpp:131 | a number printed in hexadecimal reads back as itself |
| Text.HexInjective | src/Controller/StatisticsManager.cpp:131 | different numbers print differently in hexadecimal |
| Text.HexLength | src/Controller/StatisticsManager.cpp:131 | a number below 16^k prints with at most k hexadecimal digits |
| Text.TrimmedEnds | src/Controller/ControllerLib/DisplayFilterEngine.cpp:76-77 | trimmed text neither starts nor ends with white space |
| Text.TrimAllSpace | src/Controller/ControllerLib/DisplayFilterEngine.cpp:19-20 | white space alone trims to the empty string |
| Text.Without | src/Controller/ControllerLib/DisplayFilterEngine.cpp:78 | the character removed no longer occurs, and the text does not grow |
| DisplayFilter.OperatorEq | src/Controller/ControllerLib/DisplayFilterEngine.cpp:58-65 | "key==value" is detected as equality at the end of the key, two characters wide |
| DisplayFilter.OperatorNe | src/Controller/ControllerLib/DisplayFilterEngine.cpp:58-65 | "key!=value" is detected as inequality at the end of the key, two characters wide |
| DisplayFilter.OperatorGe | src/Controller/ControllerLib/DisplayFilterEngine.cpp:58-65 | "key>=value" is detected as at-least at the end of the key, two characters wide |
| DisplayFilter.OperatorLe | src/Controller/ControllerLib/DisplayFilterEngine.cpp:58-65 | "key<=value" is detected as at-most at the end of the key, two characters wide |
| DisplayFilter.OperatorGt | src/Controller/ControllerLib/DisplayFilterEngine.cpp:67-68 | "key>value" is detected as greater-than at the end of the key, one character wide |
| DisplayFilter.OperatorLt | src/Controller/ControllerLib/DisplayFilterEngine.cpp:67-69 | "key<value" is detected as less-than at the end of the key, one character wide |

## Left out

- Threads and the `volatile` flags. The other thread's writes to the running and paused flags reach the loop only as the values the loop observes in each turn. The pause wait (`msleep` until resumed or stopped) is one observation per turn.
- The capture library: `pcap_open_live`, `pcap_compile`, `pcap_setfilter`, `pcap_next_ex`, `pcap_breakloop` and `pcap_close`. Their answers are parameters. The error-buffer text and the text of `errorOccurred` appear only as a `CaptureError` value. The `packetsCaptured` signal is the returned sequence of batches.
- Capture.CaptureEngine.StartCapture: does not start the capture thread. The loop that thread runs is `CaptureLoop`, called separately.
- Capture.IdOf: the C `int` packet counter is an unbounded integer here. Its overflow past 2^31 − 1 is undefined behaviour in C, so the model does not capture it. The 32-bit `packet_id` is the counter modulo 2^32.
- The clocks. `clock_gettime` in `Parser::parse` is the time-stamp parameter. `steady_clock::now()` in the capture loop is each turn's millisecond reading.
- Tree-view text, expert-info text and `to_hex` (the `appendTreeView` builders). The tree-view lines themselves are not modelled, only how many levels the tree gains. The label functions the tree prints (EtherType, TCI, TPID, protocol, flag, port, ICMP-type and ARP-opcode names) are modelled.
- Dns.Decode: reports failure where the source reads past the end of the message. The source's name walk has no bounds checks and follows compression pointers without limit. The model checks every read against the message length and fails after 16 pointers. For messages the source reads inside their bounds, following at most 16 pointers, the two agree.
- The truncated-VLAN branch of `Parser::parse` (src/Core/Capture/Parser.cpp:51-55) is not modelled. It is unreachable: `EthernetParser` sets the tag flag only when the tag's 4 bytes are present.
- `ConversationManager::processPackets`: its body is empty.
- The TCP handshake states, stream-index assignment and the global stream counter are left out. The source declares them but never updates them: `m_global_stream_counter` is never incremented. `quic_type` and `stream_index` are inputs, because the code that sets them is not part of this model.
- Conversation.Hash: Qt's `qHash` for integers is a parameter. The `size_t` exclusive or is taken on natural numbers, which agrees with 64-bit `^` on values below 2^64.
- Conversation.StreamIdOf: the source assigns the raw 32-bit IPv4 address directly to the 16-byte key arrays, which does not type-check as written. The model uses the declared `ipToBytes` helper: the word's four memory bytes, then zeros.
- `processPacket` marks the field `saw_quic_initial`, a name the `StreamState` declaration does not have. The model uses the declared `is_quic_confirmed`.
- IPv6 stream keys: the source does not build them, so `isIpv6` is never set.
- DisplayFilter.Match: case folding (`toLower`) and trimming cover ASCII only. The regular expression `[=!<>]=?` is modelled as "contains one of `=`, `!`, `<`, `>`", which is the same test.
- The BPF-style API declared in DisplayFilterEngine.hpp has no implementation, so it is not modelled.
- `MacResolver::instance` (a singleton) and the `ifstream` reading in `loadDatabase` are not modelled. The lines of the file and whether it opened are parameters. The console messages are not modelled. `::toupper` is ASCII-only.
- `StatisticsManager::calculateIOGraphData` is floating-point bucketing and is not modelled. The statistics getters only return fields.
- The address text IPv6Parser builds for the tree is not modelled.
- The source and the design description disagree in two places; the model follows the source.
  - An IPv4 EtherType with fewer than 20 bytes left is not reported as malformed. It falls through to the unknown-EtherType case, and the parse succeeds.
  - A frame the dissector rejects is dropped by the capture loop, not kept as a malformed record.

## Findings

| source | as written | input that shows it | evidently intended | confidence | as-written member | corrected member |
|---|---|---|---|---|---|---|
| src/Core/Protocols/ApplicationLayer/DNSParser.cpp:30-36 | the name read behind a compression pointer is appended with no '.' before it | labels "www" followed by a pointer to "example.com" read as "wwwexample.com" | "www.example.com": a dot between the labels and the pointed-to name | not executed | Dns.PointerDropsDot | Dns.NameIsJoinedLabels |
| src/Core/Protocols/NetworkLayer/IPv4Parser.hpp:51-58 | `ipToString` prints the word's highest byte first, but addresses are stored raw from the frame (lowest memory byte first on a little-endian host) | source 10.0.0.1 on the wire is shown in the tree as 1.0.0.10 | wire order, as `StatisticsManager::ipToString` and `DisplayFilterEngine::ipToString` print it | not executed | IPv4.DottedHighFirstReversesWire | IPv4.DottedWireOrder |
| src/Core/Protocols/NetworkLayer/IPv4Parser.hpp:72-79 | `flagsToString` tests 0x4000, 0x2000, 0x1000 as Reserved, Don't Fragment, More Fragments | 0x4000 (Don't Fragment set) is labelled "Reserved"; 0x1000 (an offset bit, no flag) is labelled "More Fragments" | the flag bits of section 3.1 of RFC 791: 0x8000 reserved, 0x4000 Don't Fragment, 0x2000 More Fragments | not executed | IPv4.FlagsTextAsWrittenMislabels | IPv4.FlagsTextReadsFlagBits |
| src/Controller/ControllerLib/DisplayFilterEngine.cpp:70-77 | a bare '=' becomes the operator "==" with the index of the '=', and the value starts two characters after it | "length=80" compares the length with 0, not 80 | the value starts right after the '=', so "length=80" means "length==80" | not executed | DisplayFilter.BareEqualsDropsDigit | DisplayFilter.BareEqualsIsEquality |
