# Verified models of gowebfilter

gowebfilter is a filtering web proxy written in Go. This project models the parts of it whose
correctness is not visible from one function at a time, and proves what they promise for every
input, every run and every interleaving. Nothing here executes the Go program: each Dafny member
restates a Go function's branches, constants and error cases, and the theorems are about those.

`dafny verify dfyconfig.toml` checks everything.

## What is modelled

**Ad blocking** (`Domains`, `Glob`, `Tokens`, `Rules`, `Indexing`, `Engine`, `HostRules`,
`Shortcut`, `RuleParser`, `Scanner`, `ListParser`, `Readings`, `Compiler`, `ListOrder`). A list is
read line by line, each line as its place in the list says; a filter line is parsed into a rule,
rules are filed in buckets by host name, by a literal token or as generic, and a request looks only
in the buckets it can reach. The reference is a scan over all rules with the declarative meaning of
an Adblock Plus filter. The indexed engine is proved to block exactly what that scan blocks, and to
name a rule that justifies its answer; what it answers depends only on what the lists say, which for
all but two kinds of lines is the same wherever they stand. The argument rests on token soundness (a
bucket's token is a whole token of every URL the rule matches) and on the completeness of the glob
matcher's restart from the last star, including `^` matching nothing at the end of the input.

**ICAP** (`Wire`, `Chunked`, `Preview`, `Encapsulated`). A connection is a byte string with a cursor.
The chunked decoder is proved to return the first `limit` bytes and to leave the cursor right after
the body whatever the limit; it accepts exactly what the chunk grammar can write. Preview negotiation
is shown to be invisible to the handler. An emitted envelope is read back as the same head and body.

**SOCKS5 UDP** (`UdpPacket`, `UdpAssociation`). The datagram codec, and the session table as a state
machine of lock-held regions and goroutine exits, with the methods of a class proved to take its steps.

**Category lists** (`DomainSets`, `DomainCache`). Cleaning, loading, the two forms of a set and their
agreement, for every hash function; and a bound on how old the cache's answer can be when calls
overlap and the file is replaced at any time.

**Smaller parts.** `ClientHello` (the server name in a TLS ClientHello), `Schedule` (weekly windows),
`MergePatch` (JSON merge patch), `Gateway` (kernel settings saved and restored over whole runs).

`Wrappers`, `Bytes` and `Text` hold shared vocabulary. A `char` of `Text` stands for one byte.

## Where a promise does not hold

Four promises of the code or its comments fail on some inputs; the project proves when they hold.

- *The hostname shortcut* (`internal/adblock/parse.go:293-300`) turns `||h^` and `||h` into a host lookup. It is
  compared with the pattern on URLs of the form `scheme://host`, an optional port, and an optional path, query or
  fragment; user information is kept out, since the pattern matches in it whatever the host
  (`HostRules.UserInformationMatches`). Lookup and pattern differ in four ways:
  - A final dot of the request's host is trimmed before the lookup (`internal/adblock/engine.go:288`), and is no
    separator for the pattern. `Shortcut.FinalDotDiverges`: for every domain a rule can name, a request for it
    written with a final dot is found and not matched. `HostRules.LookupImpliesPattern`: but for rules made of dots
    only, a lookup that succeeds implies the pattern matches if and only if the host has no final dot.
    `HostRules.AgreesUnlessDotted` is the condition for a single request.
  - The guard lets a `#` through, and a `#` right after what could be a host, an empty one included, is matched
    beyond the host of a URL.
  - Without `^` the pattern also matches longer last labels; the lookup does not. The lookup never finds more than
    that pattern, final dot or not (`HostRules.BareLookupIsSound`).
  - A looked-up host is lowercase; under `match-case` the pattern's subject is not.

  `Shortcut.ShortcutKeepsRules` is the exact condition for every rule the parser turns into a lookup. Over all
  requests that name their URL's host: they agree if and only if the rule's host is neither host bytes only nor
  host bytes up to a `#`, so that neither ever succeeds. Over those whose host has no final dot: if and only if no
  `#` follows what could be such a host and, for a rule's host of host bytes, the `^` is there and, under
  `match-case`, it has no letter or ends in a dot. `HostRules.ShortcutIsExact` and `HostRules.BareShortcutIsExact`
  are the same for plain URLs. `Shortcut.ShortcutKeepsAnswers` adds a rule's options: wherever the condition holds the
  answers are the same, except that a rule without types that is kept as a lookup also applies to navigations,
  as the comment at `internal/adblock/engine.go:370-374` wants.
- *The order of a list's lines.* Comments and exceptions look as if they could not take blocking away or
  add it, but a list is read with memory (`internal/adblock/parse.go:114-155`): a bare domain is a host rule
  above the first comment or header and a filter below it, and only a host rule blocks navigation; a header
  counts only in the first five lines. `ListOrder.OrderMatters`, `ListOrder.CommentCanUnblock` and
  `ListOrder.ExceptionsCanBlock` give the lists. `Readings.MovingKeepsReadings`: however lines are moved or
  added, the old ones are read as before if and only if every bare domain stays on its side of the first
  mark and every header on its side of line five. Under that condition the order does not matter and the
  two kinds of lines do only what they should (`Compiler`).
- *Restoring the kernel's settings* (`internal/gateway/sysctl.go:52-89`). `restore` forgets the saved values
  even when a write fails, so a failed restore of a changed key loses it: no later start or shutdown
  brings it back. `Gateway.RestoredExactly`: after a shutdown the host has exactly what it had before the
  first start if and only if no restore write ever failed on a key that was changed at that time.
- *Reading back a written body* (`internal/icap/chunked.go:156-174`). The writer sends one chunk whatever
  the size, the reader parses sizes of 31 bits. `Chunked.WriteReadRoundTrip`: a body is read back if and
  only if it is under 2^31 bytes; a larger one is refused.

The comment that a skipped rule can only let an ad through (`internal/adblock/parse.go:9-10`) does not hold
for skipped exceptions, and nothing here states it.

## Model

| member | source | states |
|---|---|---|
| Domains.DomainMatchesIsSubdomain | internal/adblock/engine.go:360-365 | the length-and-suffix test holds exactly when the host is the domain or some labels, a dot and the domain |
| Domains.ParentKeepsMatches | internal/adblock/engine.go:351-357 | dropping the first label neither gains nor loses a shorter domain that matches |
| Domains.ChainIsMatches | internal/adblock/engine.go:239-245 | the walk from a host up through its parents visits exactly the non-empty domains the host belongs to |
| Glob.GlobMatch | internal/adblock/engine.go:468-506 | the greedy matcher decides the declarative pattern relation for all four anchorings, in at most (p+s)(p+1)+p+1 turns of its main loop |
| Glob.MatchesAtEnd | internal/adblock/engine.go:500-505 | at the end of the input a rest of the pattern matches exactly when it is made of stars and separators |
| Glob.LastStarSuffices | internal/adblock/engine.go:480-483 | forgetting an earlier star loses no match: the last star reaches whatever an earlier restart could |
| Glob.EndDecides | internal/adblock/engine.go:475-477 | running out of input settles the answer, since no later restart can succeed where this one fails |
| Tokens.RunsFromExact | internal/adblock/engine.go:508-534 | the listed matches of the token expression are exactly the maximal runs of token bytes |
| Tokens.TokensOf | internal/adblock/engine.go:313-335 | a URL's tokens are exactly its distinct maximal runs of length three or more that are not stop tokens |
| Rules.MatchesSuffix | internal/adblock/engine.go:422-426 | matching a suffix of the subject on its own is matching the subject from that offset |
| Rules.NextCandidate | internal/adblock/engine.go:433-443 | skipping to the next occurrence of the leading literal skips no match and stays in bounds |
| Rules.MatchUnanchored | internal/adblock/engine.go:430-445 | the scan over occurrences of the leading literal gives the same answer as the unanchored pattern, for every subject |
| Rules.MatchesDomains | internal/adblock/engine.go:386-408 | a rule's domain lists are satisfied exactly when the source lies under no excluded domain and, if any are included, under one of those |
| Rules.MatchCtx.constructor | internal/adblock/engine.go:284-311 | the offsets collected are exactly the host label starts of the lowercased URL |
| Rules.MatchCtx.Tokens | internal/adblock/engine.go:313-335 | the memoised tokens are always the URL's tokens |
| Rules.MatchCtx.Page | internal/adblock/engine.go:185-196 | the page is the request itself for a navigation, its source page when known, and otherwise none |
| Rules.MatchCtx.HostStartMatches | internal/adblock/engine.go:421-427 | trying the collected offsets decides whether the pattern matches at some host label start |
| Rules.MatchCtx.RuleMatches | internal/adblock/engine.go:369-447 | the code accepts a rule exactly when its type, party, domain and pattern conditions, stated declaratively, all hold |
| Indexing.BestToken | internal/adblock/engine.go:528-543 | the token chosen is the leftmost of the longest usable runs, and empty exactly when there is none |
| Indexing.BestTokenIsUnique | internal/adblock/engine.go:528-543 | a rule has one best token, so one bucket |
| Indexing.UsableRunSurvives | internal/adblock/engine.go:525-543 | a usable run of a pattern is a maximal token run of the lowercased subject at the place where it matches |
| Indexing.HostStartIsBoundary | internal/adblock/engine.go:296-309 | a match anchored at a host label start begins at a token boundary |
| Indexing.TokenSoundness | internal/adblock/engine.go:313-335 | if a pattern rule matches a URL, under any anchoring and either case mode, every run it could be indexed by is a whole token of the lowercased URL |
| Indexing.FiledExact | internal/adblock/engine.go:63-83 | a bucket holds exactly the rules that belong to it |
| Indexing.ApplicableIsReachable | internal/adblock/engine.go:229-254 | a rule that applies to a request is in a bucket that request looks in |
| Engine.RuleIndex.Add | internal/adblock/engine.go:63-83 | adding a rule keeps the index a correct filing of all rules added so far, with the new one last |
| Engine.RuleIndex.Candidates | internal/adblock/engine.go:229-254 | the candidates are the host buckets from the host upwards, then the token buckets, then the generic rules, each in order |
| Engine.CandidatesSuffice | internal/adblock/engine.go:229-254 | every rule that applies is among the candidates, and every candidate is a rule of the index |
| Engine.RuleIndex.Find | internal/adblock/engine.go:259-269 | finds nothing exactly when no rule of the index applies; what it finds is important exactly when some important rule applies |
| Engine.RuleIndex.First | internal/adblock/engine.go:217-227 | finds nothing exactly when no accepted rule of the index applies at page level |
| Engine.FilterEngine.constructor | internal/adblock/engine.go:100-119 | the three indexes partition the rules into blocking, excepting and page-level ones |
| Engine.FilterEngine.DocumentException | internal/adblock/engine.go:200-209 | an exception is found exactly when a page-level `$document` exception applies to the request's page |
| Engine.FilterEngine.Match | internal/adblock/engine.go:159-181 | the engine blocks exactly what a linear scan of the rules blocks, and the rule it names is a reason for that answer, of the kind the answer calls for |
| Engine.OnlyTheSetOfRulesMatters | internal/adblock/engine.go:159-181 | the answer does not depend on the order of lists or on repeated lines |
| Engine.AddingBlockRulesNeverUnblocks | internal/adblock/engine.go:171-180 | more block rules, wherever they are added, never let through what was blocked |
| Engine.AddingExceptionsNeverBlocks | internal/adblock/engine.go:165-179 | more exceptions, wherever they are added, never block what was let through |
| HostRules.HostThenSeparator | internal/adblock/engine.go:464-506 | the pattern `h^` matches at an offset exactly when `h` occurs there and a separator or the end follows |
| HostRules.HostStartsOf | internal/adblock/engine.go:296-309 | the host starts of a well-formed URL are its host and what follows each dot of the host |
| HostRules.LookupImpliesPattern | internal/adblock/engine.go:284-289 | when the host less its final dot is found, the pattern `h^` matches at a host start if and only if the URL's host has no final dot, or `h` is dots only |
| HostRules.PatternImpliesLookup | internal/adblock/parse.go:293-300 | without a `#` after what could be a host, the pattern matching implies that the host less its final dot is found when `h` has no final dot, and that it is not found when `h` has one and is not dots only |
| HostRules.AgreesUnlessDotted | internal/adblock/engine.go:284-289 | on one request, for an `h` without a final dot and without a `#` after what could be a host, lookup and pattern agree unless the URL's host has a final dot and is found without it |
| HostRules.ShortcutIsExact | internal/adblock/parse.go:293-300 | looking up the host less its final dot decides the host-anchored pattern `h^` on every well-formed URL if and only if `h` is neither host bytes only nor host bytes up to a `#`; on those whose host has no final dot, if and only if no `#` of `h` follows what could be such a host |
| HostRules.BareLookupIsSound | internal/adblock/parse.go:294-299 | for every host the guard accepts, finding the URL's host less its final dot implies that the host-anchored pattern without `^` matches too |
| HostRules.BareShortcutIsExact | internal/adblock/parse.go:294-299 | without `^`, lookup of the host less its final dot and pattern agree on every well-formed URL, or on those whose host has no final dot, if and only if `h` is not host bytes only and no `#` of it follows what could be such a host |
| HostRules.UserInformationMatches | internal/adblock/engine.go:296-309 | the host-anchored pattern `h^` matches user information that is `h`, whatever host follows |
| Shortcut.LookupsAreShortcuts | internal/adblock/parse.go:284-300 | every kept line that became a lookup is a host-anchored pattern of that host, with `^` or without |
| Shortcut.ShortcutKeepsRules | internal/adblock/parse.go:284-300 | on all requests that name their URL's host, or on those whose host has no final dot, what a lookup rule finds is what its pattern would match if and only if no `#` follows what could be a host and, for a rule's host of host bytes, final dots are left out, the pattern ended in `^` and, under `match-case`, the rule's host has no letter or ends in a dot |
| Shortcut.FinalDotDiverges | internal/adblock/engine.go:284-289 | for every lookup rule for a lowercase domain without a final dot, the request for that domain with a final dot is found and its pattern form does not match |
| Shortcut.ShortcutKeepsAnswers | internal/adblock/engine.go:369-382 | under that condition a lookup rule with all its options applies exactly when its pattern form does, except to a navigation when it has no types: then the pattern form never applies, and the rule exactly when party, domains and pattern do |
| RuleParser.ParseOptions | internal/adblock/parse.go:311-392 | options are refused exactly when one is unsupported or the types named leave none; otherwise every setting is what the list of options says, the last party option deciding the party |
| RuleParser.OptionOrderIsFree | internal/adblock/parse.go:311-392 | putting options in another order changes neither acceptance nor flags nor types nor the listed domains, and the party only if two options disagree on it |
| RuleParser.SettleTypes | internal/adblock/parse.go:378-390 | the type mask holds exactly the types included and not excluded, with the defaults for exclusions only and for page switches |
| RuleParser.ReadDomains | internal/adblock/parse.go:341-355 | entity and regex domains refuse the rule; the others go to the included or excluded list in order |
| RuleParser.SplitIsUnique | internal/adblock/parse.go:248-255 | a line has one reading as body and options |
| RuleParser.ReadAnchors | internal/adblock/parse.go:273-283 | putting the anchors back around the pattern gives the text, and no anchor is left unread |
| RuleParser.FinishPattern | internal/adblock/parse.go:284-306 | a pattern of stars only is refused unless something narrows it; the hostname shortcut is taken exactly under its guard |
| RuleParser.ParseNetRule | internal/adblock/parse.go:241-307 | a line is kept exactly when its options are acceptable and its body can be kept, and the rule kept says what the line says and satisfies every invariant the index relies on |
| RuleParser.RuleIsUnique | internal/adblock/parse.go:241-307 | what a line says determines the rule completely |
| ListParser.ParseABPLine | internal/adblock/parse.go:183-201 | lines with an unsupported marker are skipped, element-hiding lines give their hiding rule or are skipped, every other line is a network filter |
| ListParser.ParseCosmetic | internal/adblock/parse.go:203-237 | a hiding rule is kept exactly when its selector is plain CSS and its sites are plain names, and then carries the selector and the included and excluded sites in order |
| ListParser.ParseLine | internal/adblock/parse.go:119-152 | a line is read in the order of the source's cases: blank, early header, comment, hosts comment, hosts line, bare domain while no mark was seen, and else an Adblock Plus line |
| ListParser.ParseList | internal/adblock/parse.go:114-155 | the rules and hiding rules are those that the lines say, each in its place, in order, and both are counted together; what is skipped is counted, every rule satisfies the index's invariants, and a line that is too long is reported |
| Readings.BareIsFilterOnceMarked | internal/adblock/parse.go:143-152 | a bare domain is a host rule, with a host, before any mark and a network filter after one, and is nothing else anywhere |
| Readings.ReadingIsUnchanged | internal/adblock/parse.go:119-152 | a line is read alike in two places if and only if, being a bare domain, it is above or below the first mark in both, and, being a header, within or beyond line five in both |
| Readings.MovingKeepsReadings | internal/adblock/parse.go:114-155 | however lines are permuted or added, every old line is read as before if and only if bare domains stay on their side of the first mark and headers on their side of line five |
| Readings.AddingOneLine | internal/adblock/parse.go:114-155 | adding one line changes no other line's reading if and only if it pushes no header over line five and is not the first mark above a bare domain |
| Compiler.Compile | internal/adblock/engine.go:90-119 | lists compile unless one has a line that is too long; the engine then holds, in order, the one rule for each thing the lists say, and counts the lines skipped |
| Compiler.SameLinesSameAnswers | internal/adblock/engine.go:90-181 | lists whose lines are found in each other, bare domains on the same side of a mark and headers on the same side of line five, block the same requests |
| Compiler.ListOrderIsFree | internal/adblock/engine.go:90-181 | whole lists may come in any order and more than once |
| Compiler.BlockingLinesNeverUnblock | internal/adblock/engine.go:90-181 | adding lines without `@@` lets no blocked request through, as long as the old lines are read as they were |
| Compiler.AddingBlockingLine | internal/adblock/engine.go:90-181 | so one line without `@@` may be put anywhere it pushes no header over line five and is not the first mark above a bare domain |
| Compiler.ExceptionLinesNeverBlock | internal/adblock/engine.go:90-181 | adding lines with `@@` blocks no request that got through, as long as the old lines are read as they were |
| Compiler.AddingExceptionLine | internal/adblock/engine.go:90-181 | so one line with `@@` may be put anywhere it pushes no header over line five |
| ListOrder.OrderMatters | internal/adblock/parse.go:129-147 | a bare domain above a comment blocks navigation to it, the same two lines in the other order do not, for every bare domain and comment |
| ListOrder.CommentCanUnblock | internal/adblock/parse.go:129-147 | a comment added on top of a bare domain lets a blocked navigation through |
| ListOrder.ExceptionsCanBlock | internal/adblock/parse.go:125-147 | five exceptions added above a header, kept or not, make a bare domain below it block navigation again, unless they answer that very navigation |
| ListOrder.BareFilterSparesDocuments | internal/adblock/engine.go:375-382 | a bare domain read as a filter never applies to a navigation |
| Wire.LineRoundTrip | internal/icap/chunked.go:138-154 | a line sent within the limit is read back as its text, with the cursor right after it |
| Wire.LineWasSent | internal/icap/chunked.go:138-154 | whatever is read as a line is the encoding of that text |
| Wire.Reader.ReadLine | internal/icap/chunked.go:138-154 | reads the first line of what remains, or fails as closed or too long, consuming exactly that line |
| Chunked.HexRoundTrip | internal/icap/chunked.go:160-163 | a size written in hexadecimal has that value when read |
| Chunked.ReadChunkHeader | internal/icap/chunked.go:77-95 | the size line is cut at its first semicolon, trimmed, and refused when empty, not hexadecimal or of 2^31 or more |
| Chunked.SpelledHeader | internal/icap/chunked.go:77-95 | digits of either case, leading zeros, white space around them and any extension: every spelling of a size under 2^31 is read as that size and extension, a larger one refused |
| Chunked.SpelledIEOF | internal/icap/chunked.go:97-107 | `ieof` counts in either case of its letters, with white space around it, alone or before other extensions |
| Chunked.LaterIEOF | internal/icap/chunked.go:97-107 | an `ieof` counts behind any other extension too |
| Chunked.SpelledTail | internal/icap/chunked.go:38-45 | any spelling of zero with an extension that says `ieof`, any trailer and a blank line end a body and say `ieof` |
| Chunked.UsualTail | internal/icap/chunked.go:38-45 | `0; ieof` and a blank line are such an end |
| Chunked.DiscardTrailer | internal/icap/chunked.go:111-121 | consumes the trailer up to and including its blank line and nothing else |
| Chunked.ReadChunkData | internal/icap/chunked.go:46-68 | what fits is kept, the rest of the chunk is consumed all the same |
| Chunked.ReadChunkedBody | internal/icap/chunked.go:31-73 | returns the first `limit` bytes of the body, says truncated exactly when there were more, reports `ieof`, and leaves the cursor right after the body; which error occurs does not depend on the limit |
| Chunked.BodyRoundTrip | internal/icap/chunked.go:31-73 | for any chunks with any extensions, any trailer and any bytes after them, decoding gives the chunks' data, the zero chunk's `ieof` and the exact length |
| Chunked.BodyWasSent | internal/icap/chunked.go:31-73 | whatever decodes was chunks and a tail, carrying exactly the data returned |
| Chunked.WriteChunkedBody | internal/icap/chunked.go:160-174 | writes the body as one chunk and the zero chunk, or the zero chunk alone when it is empty |
| Chunked.WriteReadRoundTrip | internal/icap/chunked.go:160-174 | a written body is read back exactly, up to where it ends, if and only if it is under 2^31 bytes |
| Preview.Server.CallModify | internal/icap/server.go:252-257 | the final hook is shown the request once; no answer means no modification |
| Preview.Server.Decide | internal/icap/server.go:196-248 | the answer, the requests each hook is shown, the bytes written and the bytes consumed are those of the negotiation, in every branch including errors |
| Preview.PreviewIsTransparent | internal/icap/server.go:211-240 | when the handler passes a preview, it is shown the final request once, with the body and truncation flag of the same body sent without a preview; one 100 Continue is written and the connection ends at the same bytes |
| Preview.CompletePreviewEndsThere | internal/icap/server.go:218-223 | a preview with `ieof` is the whole body: nothing is written, nothing more is read |
| Encapsulated.SortIsStable | internal/icap/encapsulated.go:61 | sorting by offset keeps the entries and the order of those at one offset |
| Encapsulated.ParseEncapsulated | internal/icap/encapsulated.go:43-63 | a header value gives its entries in the order in which the parts arrive, and one malformed entry refuses it |
| Encapsulated.EntryRoundTrip | internal/icap/encapsulated.go:66-72 | an entry written for a part the RFC names reads back as itself |
| Encapsulated.HeaderRoundTrip | internal/icap/encapsulated.go:43-72 | a written list of entries reads back as the same list |
| Encapsulated.ReadEncapsulatedHeads | internal/icap/message.go:202-241 | heads are cut from the wire at the distances between offsets, and the cursor ends after the last of them |
| Encapsulated.GapsTelescope | internal/icap/message.go:202-241 | when the walk succeeds no gap is negative, and the bytes consumed add up to the body's offset less the first one |
| Encapsulated.LayOut | internal/icap/message.go:250-273 | the entries list the parts with the offsets at which they lie |
| Encapsulated.WriteHead | internal/icap/message.go:275-285 | status line, tag if there is one, headers under their ICAP spellings, and last the index of the section |
| Encapsulated.WriteResponse | internal/icap/message.go:246-300 | writes the head, whose last line indexes exactly the section that follows, a blank line and the section |
| Encapsulated.EnvelopeHeaderRoundTrip | internal/icap/message.go:285 | the emitted header value reads back as the emitted parts, already in order |
| Encapsulated.EnvelopeRoundTrip | internal/icap/message.go:246-300 | an emitted section is split back into exactly its head and body, followed by whatever came after, unless the head exceeds the reader's limit or the body has 2^31 bytes or more |
| UdpPacket.DecodeThenEncode | internal/proxy/socks5_udp.go:660-713 | re-encoding an accepted datagram's header and payload gives the datagram back, and its header is the one the RFC prescribes for that host and port |
| UdpPacket.EncodeThenDecode | internal/proxy/socks5_udp.go:660-713 | every well-formed address header with any payload is accepted and decodes to just that |
| UdpPacket.AcceptedExactly | internal/proxy/socks5_udp.go:660-702 | the accepted datagrams are exactly the encodings of well-formed headers |
| UdpAssociation.Association.AcceptFrom | internal/proxy/socks5_udp.go:303-316 | takes the pinning step: the first source with the required host is pinned, and only it is accepted from then on |
| UdpAssociation.Association.Lookup | internal/proxy/socks5_udp.go:338-348 | takes the lookup step: an existing session is returned and marked as used now |
| UdpAssociation.Association.EvictLockedIfFull | internal/proxy/socks5_udp.go:400-413 | removes a session only from a full table, and one used no later than any other |
| UdpAssociation.Association.Commit | internal/proxy/socks5_udp.go:368-391 | takes the commit step: nothing after close, the winner of a race is kept, a full table first evicts a least recently used session |
| UdpAssociation.Association.DropSession | internal/proxy/socks5_udp.go:444-450 | takes the drop step: the key is removed only while it still maps to this session |
| UdpAssociation.Association.Done | internal/proxy/socks5_udp.go:418-420 | takes the reader's last step: the wait group counts one less |
| UdpAssociation.Association.BeginClose | internal/proxy/socks5_udp.go:454-462 | takes the close step and returns every session that was registered |
| UdpAssociation.NextInv | internal/proxy/socks5_udp.go:303-468 | every step of every goroutine keeps the table's invariant |
| UdpAssociation.RunInv | internal/proxy/socks5_udp.go:303-468 | in every interleaving at most 512 sessions are registered, each with a running reader, and the wait group counts exactly the unfinished readers |
| UdpAssociation.NothingAfterClose | internal/proxy/socks5_udp.go:369-391 | after close nothing is ever registered and nothing joins the wait group |
| UdpAssociation.CloseLeavesNothing | internal/proxy/socks5_udp.go:454-468 | when the wait in close returns, every reader has finished and none runs later |
| UdpAssociation.SessionsLeaveOnlyFor | internal/proxy/socks5_udp.go:400-450 | a session leaves the table only for its own reader's exit, as the least recently used of a full table, or at close; a late exit removes no replacement |
| UdpAssociation.PinnedStaysPinned | internal/proxy/socks5_udp.go:303-316 | the client address, once pinned, never changes |
| UdpAssociation.OneClient | internal/proxy/socks5_udp.go:303-316 | all datagrams accepted in a run come from one address, with the required host |
| DomainSets.DedupeInPlace | internal/categories/store.go:253-262 | the array's own prefix ends up strictly increasing with the same members, although reading and writing share it |
| DomainSets.BuildDomainSet | internal/categories/store.go:229-263 | up to the threshold the set is exactly the listed domains; above it, strictly increasing and exactly their hashes |
| DomainSets.HashSetContains | internal/categories/store.go:59-63 | binary search finds a hash exactly when it is there |
| DomainSets.SuffixesAreParents | internal/categories/store.go:269-271 | joining a host's labels from each one on, short of the last alone, gives exactly its parents that still hold a dot |
| DomainSets.HostInSet | internal/categories/store.go:267-276 | a host is listed exactly when it or a parent with a dot is in the set |
| DomainSets.ListedIsContained | internal/categories/store.go:229-263 | neither form loses a listed domain |
| DomainSets.CompactContains | internal/categories/store.go:57-63 | the compact form contains a domain exactly when a listed one has its hash |
| DomainSets.FormsAgree | internal/categories/store.go:37-63 | the two forms answer alike except for hosts with an unlisted parent whose hash is that of a listed domain, which the compact form adds |
| DomainSets.WriteCleaned | internal/categories/download.go:131-177 | a list is refused when too large or when a line is too long, and otherwise written as its kept entries with their count |
| DomainSets.KeptKeepsHashes | internal/categories/download.go:140-166 | deduplication by hash keeps every hash, one entry each, and only listed entries |
| DomainSets.CleaningKeepsHashes | internal/categories/download.go:131-177 | loading a cleaned list gives exactly the hashes of the raw list, and the count is their number |
| DomainSets.CleaningKeepsAnswers | internal/categories/download.go:131-177 | when the hash tells the listed domains apart, cleaning changes no membership answer and counts the distinct domains |
| DomainCache.Store.Lookup | internal/categories/store.go:170-178 | takes the first locked step of a call: a recently checked entry is the answer |
| DomainCache.Store.PutMissing | internal/categories/store.go:180-186 | takes the locked step of a call that found no file |
| DomainCache.Store.Revalidate | internal/categories/store.go:189-197 | takes the second locked step: an entry for the file's modification time is confirmed and returned |
| DomainCache.Store.PutLoaded | internal/categories/store.go:199-203 | takes the last locked step: what was loaded is stored under the modification time seen before |
| DomainCache.NextInv | internal/categories/store.go:169-204 | every step of every call, of the clock and of the file keeps the cache's invariant |
| DomainCache.SeenHappened | internal/categories/store.go:169-204 | the history the bound is stated with records only what states of the run really held |
| DomainCache.BoundedStaleness | internal/categories/store.go:169-204 | in any interleaving with file replacements under fresh modification times, a call answers with what the category held at some instant later than sixty seconds before the call began |
| ClientHello.SkipVector | internal/proxy/transparent.go:214-227 | steps over a length-prefixed vector, or fails exactly when it does not fit |
| ClientHello.FirstHostName | internal/proxy/transparent.go:187-210 | the first host name entry of the list that fits, never reading outside it |
| ClientHello.SniFromClientHello | internal/proxy/transparent.go:128-183 | with every index in bounds on every input, the loops compute the name specified for the record |
| ClientHello.PrefixSafe | internal/proxy/transparent.go:120-183 | on every prefix of every input the answer is nothing or the whole input's answer |
| ClientHello.WellFormedIsRead | internal/proxy/transparent.go:120-210 | every well-formed ClientHello in one record, with anything after it, yields the first host name of its first server_name extension |
| Schedule.NormalDayIsModulo | internal/models/schedule.go:34 | the double remainder is the day modulo seven, for negative days too |
| Schedule.ContainsDay | internal/models/schedule.go:135-142 | a weekday is found exactly when some listed day equals it modulo seven |
| Schedule.FormatThenParse | internal/models/schedule.go:41-52 | a normalized time reads back as itself |
| Schedule.CoversIsTwoDays | internal/models/schedule.go:118-130 | the test on today and yesterday is membership of the minute of the week, modulo the week, in a closed interval from a listed day's start |
| Schedule.IsActiveAt | internal/models/schedule.go:94-133 | a schedule is active exactly when disabled, empty, or the minute of the week lies in such an interval of some window |
| Schedule.TimeWindow.Normalize | internal/models/schedule.go:58-74 | days are wrapped and times padded, a missing one becomes the default and an unreadable one is left |
| Schedule.NormalizeIsIdempotent | internal/models/schedule.go:58-74 | normalizing twice is normalizing once |
| Schedule.NormalizeKeepsAnswer | internal/models/schedule.go:58-133 | normalizing never changes when a window is open |
| MergePatch.MergeJSONObjects | internal/settingsvc/policymerge.go:52-74 | whatever order the members come in, the result is the RFC's merge: which members it has and what each one is |
| MergePatch.MergeIsIdempotent | internal/settingsvc/policymerge.go:49-74 | applying a patch twice is applying it once |
| MergePatch.MergeStaysNullFree | internal/settingsvc/policymerge.go:57-61 | merging adds no null members |
| Gateway.SysctlSaver.Set | internal/gateway/sysctl.go:55-74 | for any key and value, reads, remembers the first value seen and writes only a different one; a missing key is skipped, a failed access reported |
| Gateway.SysctlSaver.Restore | internal/gateway/sysctl.go:78-89 | puts every remembered key back, last first, goes on past failures and vanished keys, forgets everything, and reports exactly whether some write failed |
| Gateway.Manager.ApplySysctls | internal/gateway/gateway.go:165-185 | sets forwarding and then each interface's redirects in order, stopping at the first failure |
| Gateway.Manager.Start | internal/gateway/gateway.go:118-163 | succeeds exactly when disabled or when every check, every setting and the ruleset succeed; before the first change a failure changes nothing, after it a failure undoes the changes and removes the ruleset as far as nft does |
| Gateway.Manager.Shutdown | internal/gateway/gateway.go:192-208 | from any state, removes the ruleset as far as nft does and takes the restoring step, and again when nothing is left to restore |
| Gateway.RunInv | internal/gateway/gateway.go:118-208 | in every run, with any accesses failing, a key not lost is remembered as it was or untouched |
| Gateway.RestoredExactly | internal/gateway/sysctl.go:55-89 | after any shutdown the host has exactly what it had before the first start if and only if no restore write ever failed on a changed key |
| Gateway.RestoredWhenNoRestoreFailed | internal/gateway/gateway.go:118-208 | in particular when no restore write has failed, whatever else failed and however often a key was set |
| Gateway.LossHappens | internal/gateway/sysctl.go:78-89 | a run that loses a key: forwarding was off, the start succeeds, the one restore write fails, and forwarding stays on with nothing remembered |
| Gateway.LostForGood | internal/gateway/sysctl.go:78-89 | a key lost to a failed restore never gets its value back |

## Left out

- Rules.MatchCtx.RuleMatches: RE2 matching and the public suffix list are functions of the model's `Oracle`, about which nothing is assumed.
- Engine.FilterEngine.Match: a nil engine, and the skipping of index maps that were never created, which are empty maps here.
- The element-hiding half of the engine: the hiding rules are read from the lists, but their exceptions and the CSS made from them are not modelled.
- Non-ASCII text: case folding covers A to Z and white space the six ASCII characters, so byte lengths never change.
- Chunked.ReadChunkedBody: the partial body returned beside an error, which no caller uses, and the difference between a connection closed at and inside an element.
- Preview.Server.Decide: deadlines, write errors, and handlers whose answer depends on more than the request they are shown; hooks are functions and the `State` slot is not modelled.
- The body of an OPTIONS or unknown request, which the server leaves unread, the contents of an OPTIONS answer, and the echo that replaces a 204 the client did not offer to take.
- Encapsulated.WriteResponse: how an HTTP head is written; it is opaque bytes, and whether a parser accepts it is a function. Headers come in one order, given with them.
- UdpAssociation.Association.Commit: the unlocked dial is only a session nobody else holds, made some time between lookup and commit.
- Whether every UDP socket is closed: a session dropped for idleness leaves the table without its socket being closed (`internal/proxy/socks5_udp.go:444-450`).
- The DNS and DNS-over-HTTPS half of the UDP relay, and the text form of IP addresses.
- DomainSets.BuildDomainSet: the hash is a parameter instead of FNV-1a and sorting is insertion sort; gzip and files are not modelled.
- DomainCache.BoundedStaleness: each category is one file, so a switch between `domains.gz` and `domains` with equal modification times is not covered, nor a change of the base directory.
- Modification times that are reused: the bound assumes each replacement brings a fresh one.
- HTTP heads on transparently intercepted connections (`internal/proxy/transparent.go:103-118`).
- MergePatch.MergeJSONObjects: the round trip through the policy model and the replacement of category actions before the merge.
- Gateway.RestoredExactly: other writers of the same settings, keys that appear or vanish during a run, and writes that fail after changing the value.
- Gateway.Manager.Start: how the checks before the first change come out, and whether nft accepts or deletes the ruleset, are given from outside; the ruleset's text is not modelled.
