# A verified model of MemoryX

MemoryX stores knowledge as content-addressed atoms, serves them over a line protocol to any
number of local clients, and moves them in and out of files. This project models its core in
Dafny and proves what that core is for. There is one module per component.

| module | models |
|---|---|
| Bytes, Codecs, Results, Decimal | little-endian words, counted records, result values, decimal text |
| Sorting, FirstSeen | stable sorting and what it hides; de-duplication in first-seen order |
| Claims, Symbols, Evidence, Meta | the section codecs, with their section objects |
| Canonical | the canonical form: orders, normalisation, nested encoding |
| Payload | header, section table, lookup, extraction, atom id, verification |
| Builder, BodyLayout | the payload builder of the MCP server and the claim walk of the exporter; the built bytes, position by position |
| LineReader, Relay | the bounded line reader, and the stdio proxy with the owner behind it |
| Ownership | writer lease, control descriptor, guard, authentication, crashes |
| Registry | the multi-base registry of the MCP server |
| BoundedOutput | documents that state their own length, and the bounded answers |
| CsvGroups, CsvBlocks, CsvAtoms, CsvCells | grouping of CSV rows, rows printed atom after atom, the parser and printer of atoms, their cells |
| Batch | the batch drivers of the native API |
| Paths | lexical and physical path identity over a file tree with symbolic links |

Code that computes a value is modelled by functions. Code that changes state or loops is
modelled by classes and methods, each proved against a specification function whose properties
are then proved as lemmas. Beside the laws (round trips, injectivity, refinement), each main
operation is pinned from outside: what it does is stated again from the library functions, from
literal byte positions or over whole runs, without its specification function. The two protocols (Relay, Ownership) are state machines over their
steps, and their theorems hold for every run and every interleaving.

Library functions are parameters about which nothing is assumed: BLAKE3, NFC, lossy UTF-8
decoding, the f32 trust arithmetic, the invariants section, CRC32, JSON parsing and request
handling, answering and ingesting. Where a theorem needs a law of a library, the law is
a named predicate in its precondition: `Registry.Lawful` (a canonical root is its own canonical
root; proved of the file tree by `Registry.FileTreeIsLawful`), `CsvAtoms.Lawful` (what is printed
is read back, trimming is idempotent), `Relay.OneLineReplies` (serialised JSON has no newline) and
`BoundedOutput.EscapesOnlyOthers` (JSON escaping leaves digits and letters alone).

Where the code differs from its documentation or from what one may expect, the model follows the code:

- The order of claims ignores the qualifier mask, so a form built by hand can depend on the
  input order. `Canonical.ClaimOrderInvisibleIffNoTies` gives the exact condition; extraction
  always sets the mask to 0 and is not affected.
- The builder does not check the limit of 1,000,000 claims that every reader enforces, nor that
  subjects fit 32 bits. `Builder.BuiltPayloadId` and `Builder.ClaimsSurviveExport` state exactly
  which built payloads get an id and can be exported.
- A META value whose tag is unknown is read as U32, so a VERSION field with such a tag counts as a version.
- The symbols reader does not ask for the final padding, and maps a repeated name to its last position.
- Table and section ends are computed with wrap-around in release builds; the resulting slice failures
  are modelled as `Panics`.
- `answer_pack_json` only asserts its limit in debug builds; its contract here claims no bound for
  the reduced document.
- Two rounds of the length loops are not enough and three are (`BoundedOutput.TwoRoundsAreNotEnough`,
  `BoundedOutput.SettledIsExact`); the source runs four or eight. The fixed point need not be unique, so the
  contracts speak of the one reached.
- The owner's accept task ends asynchronously, and does not end at all on some error paths, so a client
  can still connect while the guard is dropped. The listener's end is a step of its own in Ownership.
- Only `connect_base` runs the allow-list check; a directory found by `list_bases` is opened without it
  (`Registry.EveryEntryIsKnown`).
- A CSV row without id is keyed by its position, so it can clash with an id of the form `__row_<n>`.
- A CSV row written for an atom without claims is refused by the CSV parser, and payloads and ids come
  back trimmed: `CsvAtoms.CsvRoundTripIff` gives the exact condition for a round trip.

## Model

| member | source | states |
|---|---|---|
| Canonical.ClaimTies | src/cas/canonical.rs:80-88 | the claim order ties two claims exactly when they differ at most in the qualifier mask, which it ignores |
| Canonical.FormBytesInjective | src/cas/canonical.rs:189-257 | the nested length-prefixed encoding is injective: with lengths below 2^32 and 32-byte digests, equal bytes if and only if equal forms |
| Canonical.CanonicalBytesCharacteriseContent | src/cas/canonical.rs:182-257 | without mask-only ties, normalised bytes are equal if and only if scalars, symbols, invariants and version agree and claims, evidence, tags and edges agree as multisets |
| Canonical.NormalCharacterisesContent | src/cas/canonical.rs:182-187 | sorting the four lists forgets their order and nothing else (either direction) |
| Canonical.ClaimOrderInvisibleIffNoTies | src/cas/canonical.rs:80-88 | the exact condition: every reordering of the claims gives the same bytes if and only if no two claims differ in their masks alone |
| Canonical.ZeroMasksDoNotTie | src/cas/canonical.rs:468-475 | claims with mask zero, as extraction makes them, never tie |
| Canonical.CanonicalForm.Normalize | src/cas/canonical.rs:182-187 | in-place sorting: the new form is the normal form with the old content, each list in the order of its keys (claims by subject, predicate, tag, value; edges by kind, target, then the rest) |
| Canonical.CanonicalForm.ToBytes | src/cas/canonical.rs:189-257 | the appending loops print every field at its literal or computed position: type at 0, validity at 4 and 12, then each symbol, claim, digest, tag and edge behind the ones before it |
| Canonical.FormIsLaidOut | src/cas/canonical.rs:189-257 | byte for byte, where each field of the encoding stands, stated without the encoder |
| Canonical.NormalFormIsOrdered | src/cas/canonical.rs:80-88 | the order of the normal form, key by key and with its priorities |
| Sorting.LexMeans | src/cas/canonical.rs:80-88 | byte strings are ordered by their first difference, a prefix before its extensions |
| Sorting.SortCharacterisesContents | src/cas/canonical.rs:182-187 | two lists without ties sort to the same list if and only if they are permutations of each other |
| Sorting.SortBlindIffNoTies | src/cas/canonical.rs:182-187 | sorting hides the input order exactly when there are no ties |
| Decimal.DigitsInjective | src/cas/canonical.rs:506-509 | numbers with the same decimal digits are equal; hence VERSION texts tell versions apart, which the converse above needs |
| Decimal.DigitsMean | src/cas/canonical.rs:506-509 | the digits are ASCII digits of that number, without leading zero |
| Bytes.FromLeMeans | src/cas/canonical.rs:189-257 | words are read least significant byte first, in the widths that occur |
| Bytes.Len32Reads | src/cas/canonical.rs:189-257 | a length below 2^32 is stored as itself |
| Claims.TagBijection | src/store/mod.rs:388-407 | the two tag conversions used around claim values are inverse bijections between nine tags and the bytes 0..8 |
| Claims.TagTable | src/cas/claims.rs:411-524 | the tag numbers and the length of the value of each tag |
| Claims.FromScalar | src/cas/claims.rs:39-84 | a scalar becomes a record with the given subject, predicate and tag whose value has the width of the tag and reads back as the scalar; exactly BOOL above 1, SYM beyond 32 bits, BYTES and REF are refused |
| Claims.RecordRoundTrip | src/cas/claims.rs:274-288 | a printed record, in either layout, is read back from the front of any buffer and uses exactly its own bytes |
| Claims.RecordReprint | src/cas/claims.rs:472-524 | an accepted record prints back to the very bytes it was read from |
| Claims.SectionRoundTrip | src/cas/claims.rs:396-470 | parse of print is the section, whatever bytes follow, for up to 1,000,000 well-formed claims |
| Claims.SectionReprint | src/cas/claims.rs:411-524 | any accepted V2 input begins with the print of what was read, and everything read is well formed |
| Claims.SectionIgnoresTail | src/cas/claims.rs:411-524 | bytes behind an accepted section, V1 or V2, change nothing |
| Claims.StrictPrefixRejected | src/cas/claims.rs:411-524 | no strict prefix of a printed section is accepted |
| Claims.MagicIsNoCount | src/cas/claims.rs:17-20 | the magic read as a V1 count is 843,926,595 and so above the claim limit |
| Claims.SectionRecords | src/cas/claims.rs:411-524 | an accepted section, V2 by its magic or else V1: the count and each record stand at their positions, field by field |
| Claims.SectionBytes | src/cas/claims.rs:396-408 | the printed section: magic, count, and each record behind the ones before it |
| Claims.LegacyRoundTrip | src/cas/claims.rs:419-470 | a V1 section with an admissible count is never taken for V2 and reads back as written |
| Claims.MigrationKeepsClaims | src/cas/claims.rs:411-524 | parsing V1 (or V2), printing V2 and parsing again gives the same section |
| Claims.ClaimsSection.AddClaim | src/cas/claims.rs:345-347 | appends one claim |
| Claims.ClaimsSection.ToBytes | src/cas/claims.rs:396-408 | the loop prints the V2 section |
| Claims.SectionFromBytes | src/cas/claims.rs:411-524 | the parsing loop with its running offset computes the section parser, errors included |
| Symbols.InternKeepsBijection | src/cas/symbols.rs:40-49 | interning keeps map and vector mutual inverses, returns the id of the string and changes no other id |
| Symbols.InternRun | src/cas/symbols.rs:40-49 | after any run of interns the names are the distinct strings in first-seen order, each under its position |
| Symbols.IdsAreStable | src/cas/symbols.rs:40-49 | an id handed out is never changed by later interns |
| Symbols.PrintedSize | src/cas/symbols.rs:72-103 | the print has exactly serialized_size bytes |
| Symbols.SizeIsAligned | src/cas/symbols.rs:72-80 | that size is divisible by four |
| Symbols.LastIdsOfDistinct | src/cas/symbols.rs:148-156 | the map rebuilt from a section inverts the vector exactly when no name is repeated |
| Symbols.LastPositionWins | src/cas/symbols.rs:148-156 | in general a name is mapped to its last position |
| Symbols.ParsedIsReadback | src/cas/symbols.rs:106-159 | every parsed section has the map that its names give |
| Symbols.SectionRoundTrip | src/cas/symbols.rs:83-159 | parse of print restores both the vector and the map, whatever follows |
| Symbols.PrefixAcceptance | src/cas/symbols.rs:106-159 | a strict prefix of a print is accepted exactly when it cuts only padding behind the last string |
| Symbols.SectionStrings | src/cas/symbols.rs:106-159 | the names read are the strings that stand behind their lengths, decoded, each at the padded end of the one before it |
| Symbols.SectionBytes | src/cas/symbols.rs:83-103 | the printed section: count, and each string behind its length with zeros up to a multiple of four |
| Symbols.SymbolsSection.Intern | src/cas/symbols.rs:40-49 | map and vector become the interned table; a bijection stays one, the old names keep their ids and the id returned names the string |
| Symbols.SymbolsSection.Find | src/cas/symbols.rs:57-59 | on interned and on parsed tables: finds a string exactly if the section has it, at its last position |
| Symbols.SymbolsSection.Get | src/cas/symbols.rs:52-54 | on interned tables the inverse of find: an id has a string exactly if some string has that id; on parsed tables find gives that id or a later one |
| Symbols.SymbolsSection.ToBytes | src/cas/symbols.rs:83-103 | the loop prints the section |
| Symbols.SectionFromBytes | src/cas/symbols.rs:106-159 | the loop over the buffer computes the section parser, errors included |
| Evidence.RecordRoundTrip | src/cas/evidence.rs:84-118 | 24 bytes are read back to the record they were printed from |
| Evidence.SectionExact | src/cas/evidence.rs:240-290 | parse of print is the section whatever follows, and every strict prefix is rejected |
| Evidence.LengthCheckIsExact | src/cas/evidence.rs:263-271 | the length test made before the loop accepts exactly what the loop can read |
| Evidence.SectionReprint | src/cas/evidence.rs:255-290 | an accepted input begins with the print of its records |
| Evidence.SectionRecords | src/cas/evidence.rs:255-290 | record i of an accepted section is the six words 4 + 24 * i bytes into it |
| Evidence.EvidenceSection.ToBytes | src/cas/evidence.rs:240-252 | the loop prints the section |
| Evidence.SectionFromBytes | src/cas/evidence.rs:255-290 | the loop computes the section parser, errors included |
| Meta.FieldRoundTrip | src/cas/meta.rs:124-150 | eight bytes are read back to the field they were printed from |
| Meta.SectionExact | src/cas/meta.rs:221-271 | parse of print is the section whatever follows, and every strict prefix is rejected |
| Meta.LengthCheckIsExact | src/cas/meta.rs:244-252 | the length test accepts exactly what the loop can read |
| Meta.LastFieldsDecide | src/cas/canonical.rs:496-516 | going through all fields gives the last TRUST_SCORE with F32 value and the last VERSION with U32 value |
| Meta.LastIsLast | src/cas/canonical.rs:496-516 | the deciding field is one no later field of its kind follows |
| Meta.SectionFields | src/cas/meta.rs:236-271 | field i of an accepted section is the three words 4 + 8 * i bytes into it |
| Meta.DigestMeans | src/cas/canonical.rs:496-516 | trust is the value of the last field of kind 1 and tag 1, version that of the last of kind 3 with tag 0 or an unknown one; none without such a field |
| Meta.Digested | src/cas/canonical.rs:496-516 | the loop over the fields ends with that trust and version |
| Meta.SectionFromBytes | src/cas/meta.rs:236-271 | the loop computes the section parser, errors included |
| Payload.HeaderRoundTrip | src/cas/mod.rs:421-451 | the 48 header bytes are read back to the header they were printed from |
| Payload.DescRoundTrip | src/cas/mod.rs:591-614 | the 32 descriptor bytes are read back to the descriptor they were printed from |
| Payload.HeaderMeans | src/cas/mod.rs:421-451 | a header is accepted exactly with its magic and version 1, and each field is read from its position |
| Payload.TableMeans | src/cas/canonical.rs:381-401 | entry i of the table is read 32 * i bytes behind the offset in the header; exactly when the table leaves the body reading fails or, with wrap-around, panics |
| Payload.SectionIsFirst | src/cas/canonical.rs:403-412 | a section is the slice that the first entry of its kind names, empty when it leaves the body |
| Payload.MissingSectionIsEmpty | src/cas/canonical.rs:403-418 | without an entry of a kind, or with one that leaves the body, its section is empty |
| Payload.AcceptedIff | src/cas/canonical.rs:432-518 | extraction accepts a body exactly if header and table are readable, every section present decodes and every subject fits 32 bits |
| Payload.IdHasAccount | src/cas/canonical.rs:371-427 | every id is the hash of laid-out bytes of an ordered form whose fields are read, one by one, from the slices of the body; evidence is hashed as its full 24 bytes |
| Payload.LayoutIndependence | src/cas/canonical.rs:432-614 | two bodies whose first sections decode to the same content up to claim and evidence order have the same canonical bytes and id, wherever the sections lie and whatever the rest of the bodies is |
| Payload.ContentDecidesBytes | src/cas/canonical.rs:432-518 | permuting claims and evidence records keeps the canonical bytes |
| Payload.BytesDetermineContent | src/cas/canonical.rs:432-518 | conversely, equal canonical bytes mean equal extracted contents, and only they do: type, validity, symbols, invariants, version, the claims as a multiset, the evidence up to order and hash, and the scaled trust |
| Payload.BodyBytesDetermineContent | src/cas/canonical.rs:432-614 | the same for any two bodies that extraction accepts |
| Payload.MigrationKeepsDecodedClaims | src/cas/canonical.rs:454-475 | rewriting a legacy claims section in V2 keeps the canonical claims it decodes to |
| Payload.TrailingBytesIgnored | src/cas/canonical.rs:371-427 | bytes appended to a body whose sections are in range do not change the id |
| Payload.ReadTable | src/cas/canonical.rs:381-401 | the descriptor loop computes the table; with a table end that wraps around it panics exactly when an index leaves the buffer |
| Payload.ExtractCanonicalForm | src/cas/canonical.rs:432-518 | pushing the decoded sections into a form and normalising it gives the ordered form of what the sections hold, field by field, or the error |
| Payload.ComputeAtomIdFromPayload | src/cas/canonical.rs:371-427 | the ingest copy of the pipeline gives every payload the id that the account of its bytes gives, and a failed extraction exactly when the verify copy fails |
| Payload.ExtractAndComputeAtomId | src/cas/canonical.rs:576-614 | the verify copy computes the same id, with the same account of the bytes |
| Payload.VerifyAtomId | src/cas/canonical.rs:569-574 | verification is true exactly when the pipeline gives the stored id |
| Builder.BodyParses | src/bin/memoryx.rs:8745-8775 | header and table of a built body parse back to what was written |
| Builder.SectionsTileTheBody | src/bin/memoryx.rs:8714-8787 | the seven sections start at 272, follow each other without gap or overlap and end with the body |
| Builder.LookupReturnsWhatWasBuilt | src/bin/memoryx.rs:8714-8787 | looking a section up by kind gives exactly the bytes built for it |
| Builder.BuiltPayloadId | src/bin/memoryx.rs:8657-8787 | the id of a built payload is the hash of the form built directly from the draft, and it exists exactly when subjects fit 32 bits, the claims number at most a million and the invariants library accepts its own empty section |
| Builder.ClaimOrderDoesNotChangeId | src/bin/memoryx.rs:8657-8787 | permuting the input claims never changes the id |
| Builder.BuiltBodyIsShort | src/bin/memoryx.rs:8714-8742 | a draft with 32-bit counts and names of less than 2^63 bytes gives a payload whose offsets fit 64 bits |
| Builder.OrdinaryDraftsAreCompact | src/bin/memoryx.rs:8657-8680 | up to 2^30 names and claims with names of 32-bit length are always such a draft |
| Builder.SomeDraftQualifies | src/bin/memoryx.rs:8657-8697 | the conditions of the last theorems can be met by a draft with a claim |
| Builder.BuildAtomPayload | src/bin/memoryx.rs:8657-8787 | the builder returns the laid-out body exactly when every claim is accepted |
| BodyLayout.PayloadMeans | src/bin/memoryx.rs:8657-8787 | the built bytes, position by position: fixed front, seven entries with kind, offset, length and checksum, names, typed claims, empty invariants and evidence, trust bits and the low 32 bits of the domain mask |
| BodyLayout.TypedMeans | src/cas/claims.rs:39-84 | which claims can be built, by predicate width, tag and scalar, and which bytes each scalar is stored as |
| BodyLayout.NamesMean | src/bin/memoryx.rs:8657-8680 | the names are the given ones, then sym_0, sym_1, ... for each claim and at least two, each where it first appears |
| Builder.ScalarSurvives | src/bin/memoryx.rs:1410-1500 | typing a scalar and exporting it gives the scalar back (NULL loses its value) |
| Builder.ClaimsSurviveExport | src/bin/memoryx.rs:1386-1551 | exporting a built payload returns the authored claims in order, up to mask and NULL values, exactly when there are at most a million |
| Builder.ExportAtom | src/bin/memoryx.rs:1386-1551 | the walk over the section table, in which every CLAIMS section replaces the claims found before |
| BodyLayout.WalkMeans | src/bin/memoryx.rs:1386-1551 | without wrap-around the walk fails exactly on an unknown section kind or on claims that cannot be shown, and else the last CLAIMS section inside the body wins |
| BodyLayout.PanicMeans | src/bin/memoryx.rs:1525-1560 | with wrap-around, exactly which table entries abort the walk |
| BodyLayout.ExportedClaimsMean | src/bin/memoryx.rs:1410-1500 | each claim of a section is shown by its tag, in order; the export fails only for a value of the wrong length |
| BodyLayout.ExportMeans | src/bin/memoryx.rs:1397-1408 | with a readable table, exactly the atom types 1 to 13 are exported |
| LineReader.ReadBoundedLine | src/bin/memoryx.rs:3851-3894 | for every chunking: the next line of the stream or Eof or TooLarge, leaving the stream behind its newline; the buffer stays within 8 MiB |
| LineReader.SkipLine | src/bin/memoryx.rs:3878-3889 | drops chunks up to and including the next newline |
| LineReader.ChunkEndsLine | src/bin/memoryx.rs:3866-3874 | a chunk with a newline settles the line as the specification says, too large or not |
| LineReader.ChunkContinuesLine | src/bin/memoryx.rs:3875-3893 | a chunk without newline only extends the line, or makes it too large for good |
| LineReader.FramedReadsBack | src/bin/memoryx.rs:3897-3906 | one framed message is read back and the rest of the stream is untouched |
| LineReader.FrameReadsBack | src/bin/memoryx.rs:3897-3906 | framing any list of newline-free messages within the limit and reading the lines gives the list |
| LineReader.LastLineMeans | src/bin/memoryx.rs:3851-3894 | a last line without newline counts like any other, up to 8,388,608 bytes |
| Relay.ReplyDecisionAgrees | src/bin/memoryx.rs:4111-4121 | client and owner decide alike, for every line and store, whether it is answered |
| Relay.ServeStream | src/bin/memoryx.rs:4299-4350 | the owner loop, with requests processed under the mutex, leaves the store that handling the parsed requests in order leaves, and prints the framed answers owed |
| Relay.ServeMeans | src/bin/memoryx.rs:4739-4750 | one line, from the library functions alone: what the store becomes and what is answered for a parsed, an unparsable, a non-UTF-8 and an oversized line |
| Relay.OversizedMeans | src/bin/memoryx.rs:4299-4350 | an oversized line leaves the store and is answered with the fixed error |
| Relay.DirectMeans | src/bin/memoryx.rs:4299-4350 | over a stream: the store is the fold of the handler over the parsed requests, and the output the framed answers that are owed |
| Relay.NoReplyIsMismatched | src/bin/memoryx.rs:4124-4172 | in every interleaving with other clients, each reply printed was computed from the very line it answers, in order, with at most the last one outstanding |
| Relay.StepKeepsInv | src/bin/memoryx.rs:4124-4172 | every step of proxy, owner or other clients keeps the relay invariant |
| Relay.StuckMeansDone | src/bin/memoryx.rs:4124-4172 | proxy and owner never wait for each other: they stop only when all input is served |
| Relay.StepsReduceWork | src/bin/memoryx.rs:4124-4172 | each step of proxy or owner reduces the work left |
| Relay.RunsAreBounded | src/bin/memoryx.rs:4124-4172 | whatever others do in between, proxy and owner take at most as many steps as there is work at the start, so every run ends |
| Relay.EveryRunCanFinish | src/bin/memoryx.rs:4124-4172 | every run can be continued, without anybody else, to a state where both have finished |
| Relay.OutputIsAlwaysADirectPrefix | src/bin/memoryx.rs:4124-4172 | at any moment the output is what the direct loop prints for some prefix of the input lines |
| Relay.ProxyTransparency | src/bin/memoryx.rs:4124-4172 | output and store are those of handling the parsed requests in order, as in the direct loop, if every response fits a line; otherwise the proxy fails exactly at the first response that does not, having printed what the direct loop prints before it |
| Ownership.StepKeepsInv | src/bin/memoryx.rs:1988-2029 | each step of any process, crash included, keeps the ownership invariant |
| Ownership.HistoryIsInOrder | src/bin/memoryx.rs:3983-4108 | over every run, with clients connecting even while a guard is dropped, each request was processed by the lease holder, guards removed their own descriptor only, cleared descriptors belonged to dead processes, and each accepted client reached the publisher of the descriptor it had read |
| Ownership.SingleOwner | src/store/base_lease.rs:82-150 | at most one process has a base open, and it holds the lease |
| Ownership.DescriptorNamesOwner | src/bin/memoryx.rs:1988-2029 | a serving owner is named by the descriptor file; a file naming a process without the lease means that process crashed or its guard met an I/O error |
| Ownership.AttachedToPublisher | src/bin/memoryx.rs:4037-4108 | an accepted client talks to the publisher of its descriptor, though addresses are reused across bases |
| Ownership.StaleDescriptorIsRejected | src/bin/memoryx.rs:3937-3948 | authentication succeeds exactly when the listener is the publisher of the descriptor read |
| Ownership.ClientCanAttach | src/bin/memoryx.rs:4262-4275 | while an owner serves and its listener is open, a new client of its base can attach, and to nobody else |
| Ownership.OwnFileStaysGood | src/bin/memoryx.rs:2014-2028 | removal by token comparison and publication leave a file that names its owner |
| Ownership.FreeBaseCanBeServed | src/bin/memoryx.rs:1988-2029 | a process can open, bind, clear and publish if and only if it is new, nobody holds the lease, and token and address are free; a descriptor file left behind is no obstacle and is cleared away |
| Ownership.AbandonedBaseCanBeServed | src/store/base_lease.rs:82-150 | after an owner crashed at any moment, or gave up while starting, its base can be served again at once, even under the old address |
| Ownership.ShutdownFreesBase | src/bin/memoryx.rs:1988-2029 | a shutdown can be completed, frees the lease and removes the descriptor exactly when its guard meets no error |
| Ownership.StaleClientIsTurnedAway | src/bin/memoryx.rs:3937-3948 | a client can read a stale descriptor and connect to whoever listens on its address now, and is then turned away with nothing changed |
| Ownership.AttachedIsServed | src/bin/memoryx.rs:4037-4108 | what an attached client asks for is processed by the publisher of its descriptor, while it holds the lease |
| Ownership.OwnerIsServed | src/bin/memoryx.rs:4299-4350 | a serving owner can process requests of its own, holding the lease |
| Registry.EveryRunKeepsInv | src/bin/memoryx.rs:1673-1901 | over every sequence of calls the active base is connected and alone marked active, connected marks equal open stores, and no two open stores share a physical root |
| Registry.CallKeepsInv | src/bin/memoryx.rs:1673-1901 | each connect, switch, list or routed call keeps that invariant |
| Registry.RunKeepsConnected | src/bin/memoryx.rs:1721-1899 | over any run a connected base stays connected under the same root, name and scope |
| Registry.StoresAreIsolated | src/bin/memoryx.rs:1673-1901 | over any run an open store has been changed by exactly the calls routed to its base, in order |
| Registry.MissingEntryIsUnreachable | src/bin/memoryx.rs:1788-1791 | after any run no call meets a connected base without registry entry |
| Registry.RoutedTouchesOnlyTheSelected | src/bin/memoryx.rs:6251-6272 | consequence of the invariant: a routed call changes the selected store only, connecting that base first if needed |
| Registry.OtherCallsTouchNoStore | src/bin/memoryx.rs:1753-1899 | consequence of the invariant: the other calls leave every open store as it is, open at most the one they name, and only a switch moves the active base |
| Registry.ConnectSucceedsIff | src/bin/memoryx.rs:1753-1828 | consequence of the invariant: connect succeeds exactly if the path is allowed and resolves and either the reference has that root already or it is free, the root is unused and the store opens |
| Registry.OnlyAllowedPathsAreOpened | src/bin/memoryx.rs:1760-1770 | connect refuses a path exactly when the allow-list check of the given path, or of the path of scope and name, fails; what it opens is the canonical form of what that check returned |
| Registry.ConnectMeans | src/bin/memoryx.rs:1753-1828 | the answer case by case: which root, reference, scope and name the new entry gets, and when each failure comes |
| Registry.EveryEntryIsKnown | src/bin/memoryx.rs:1673-1901 | over any run each entry was there at the start, was found by a listing, or was connected under a path that passed the allow-list check |
| Registry.AllowedMeans | src/bin/memoryx.rs:2194-2224 | on a file tree a path is allowed exactly if its physical path lies in project or user storage or directly in some .memoryx/bases; the answer has no link in it and resolves to itself |
| Registry.ConnectedRootsAreInStorage | src/bin/memoryx.rs:1760-1770 | so a base that a connect opens lies in storage, whatever links the path led over |
| Registry.SelectSucceedsIff | src/bin/memoryx.rs:1721-1751 | consequence of the invariant: selecting succeeds exactly if the base is connected, or known, resolvable, not at a used root and openable |
| Registry.SelectMeans | src/bin/memoryx.rs:1721-1751 | the answer of the selection case by case, with the entry and store it adds |
| Registry.SwitchMeans | src/bin/memoryx.rs:1846-1854 | a switch moves the active mark to the selected base and nothing else |
| Registry.ListMeans | src/bin/memoryx.rs:1856-1893 | listing keeps what is known and adds an unconnected entry for each new directory, the first found under its reference |
| Registry.FileTreeIsLawful | src/bin/memoryx.rs:2068-2070 | on a fixed file tree base identity is stable, which the invariant relies on |
| Registry.McpServerState.constructor | src/bin/memoryx.rs:1674-1701 | the registry starts with the one connected, active base |
| Registry.McpServerState.ConnectedRefForPath | src/bin/memoryx.rs:1830-1844 | the scan finds a connected base at the root, or one that no longer resolves, exactly when there is one |
| Registry.McpServerState.StoreForRef | src/bin/memoryx.rs:1721-1751 | connects on demand as specified; a failure leaves the registry unchanged |
| Registry.McpServerState.ConnectBase | src/bin/memoryx.rs:1753-1828 | connects only what the allow-list check lets through, refuses with NotAllowed exactly when that fails, and returns the registry entry at the canonical root; a failure leaves the registry unchanged |
| Registry.McpServerState.SwitchBase | src/bin/memoryx.rs:1846-1854 | switches as specified and returns the registry entry; a failure leaves the registry unchanged |
| Registry.McpServerState.ListBases | src/bin/memoryx.rs:1856-1893 | adds found directories that are not known yet, and nothing else |
| Registry.McpServerState.RefreshActiveMarkers | src/bin/memoryx.rs:1895-1900 | updates all markers in place |
| Registry.McpServerState.WithSelectedStore | src/bin/memoryx.rs:6251-6272 | runs the handler on the selected store |
| BoundedOutput.WidthSettles | src/bin/memoryx.rs:2935-2941 | the digit count of c + k*digits settles after two rounds for k of 1 or 2 and any start width from 1 to 20 |
| BoundedOutput.SettledIsExact | src/bin/memoryx.rs:2935-2941 | three rounds reach an exact length from null or any machine word |
| BoundedOutput.TwoRoundsAreNotEnough | src/bin/memoryx.rs:2935-2941 | a document for which two rounds do not suffice |
| BoundedOutput.ExactLengthIsNotUnique | src/bin/memoryx.rs:2935-2941 | a document for which both 99 and 100 are exact |
| BoundedOutput.Settle | src/bin/memoryx.rs:2935-2941 | the four-round loop ends with a field that equals the true length |
| BoundedOutput.AnswerPackJson | src/bin/memoryx.rs:2910-2946 | returns the full document exactly when it fits the limit, else the reduced one for its length, stating its own exact length |
| BoundedOutput.SerializeBoundedAnswer | src/bin/memoryx.rs:2980-3006 | prints the full text within the limit, else the reduced text with its exact length, and fails exactly when that reached length exceeds the limit |
| BoundedOutput.TextResultIsResponse | src/bin/memoryx.rs:6062-6077 | putting a document as an escaped string into the response twice makes its length field occur twice |
| BoundedOutput.TextResultMeans | src/bin/memoryx.rs:6062-6077 | where head, the escaped document, the middle, the document again and the tail stand in a response |
| BoundedOutput.SettleResponse | src/bin/memoryx.rs:6108-6116 | the response loop ends with a response whose field is its own length |
| BoundedOutput.McpAnswerResult | src/bin/memoryx.rs:6102-6172 | carries the full answer, stating its own length, whenever that fits max_bytes, else the reduced one, and the budget error only when that is too long as well; within max_bytes whenever that is at least 86 |
| CsvGroups.TabulateDescribes | src/bin/memoryx.rs:1008-1176 | grouping succeeds exactly if the rows of each key agree, and then holds each group in first-seen order |
| CsvGroups.InterleavingKeepsGroups | src/bin/memoryx.rs:1008-1176 | interleaving rows differently keeps every group; only the order follows the first rows |
| CsvGroups.ScanTabulates | src/bin/memoryx.rs:1012-1157 | the row loop gets through exactly if every row is readable and every group agrees |
| CsvGroups.RepeatedGroups | src/bin/memoryx.rs:1068-1156 | rows that repeat the atom-level cells group to one atom with claims and evidence de-duplicated |
| CsvGroups.GroupedByFirstRow | src/bin/memoryx.rs:1159-1178 | if each atom is the group of its rows, the result is exactly these atoms, ordered by first row |
| CsvBlocks.BlocksAreGroups | src/bin/memoryx.rs:1159-1178 | rows printed atom after atom under different keys are grouped into these blocks, in order |
| CsvBlocks.ReturnedKeysAreApart | src/bin/memoryx.rs:1060-1062 | conversely, if printed atoms come back, no two share a key, positional keys of rows without id included, and those without id had one row |
| CsvAtoms.ClaimRowReads | src/bin/memoryx.rs:1012-1057 | a written row is readable exactly if type label and tag are known, and then says what was written |
| CsvAtoms.AtomRoundTrip | src/bin/memoryx.rs:1181-1246 | the rows of one atom group to that atom exactly if the atom is canonical |
| CsvAtoms.InterleavedRowsParse | src/bin/memoryx.rs:1003-1178 | any interleaving of written rows that keeps the order within each atom parses to the same atoms, ordered by first row |
| CsvAtoms.WrittenInterleaves | src/bin/memoryx.rs:1181-1252 | the printed rows are such an interleaving, with the atoms in their own order |
| CsvAtoms.CanonicalAtomsAreRestorable | src/bin/memoryx.rs:1060-1062 | for atoms with ids, sharing no key means having distinct ids |
| CsvAtoms.CsvRoundTripIff | src/bin/memoryx.rs:1003-1252 | parse of print is the identity if and only if every atom is canonical (trimmed id and payload, known label, claims present and distinct, valid tags, distinct evidence), no two atoms share a key, and each atom without id has one claim |
| CsvAtoms.ParseCsvRows | src/bin/memoryx.rs:1003-1178 | the loop over order and map computes the parse, reports the first row that stops it, and no group disappears |
| CsvAtoms.MergeRow | src/bin/memoryx.rs:1081-1156 | one row joins its group: conflicts are reported in the order of the checks |
| CsvCells.RowMeans | src/bin/memoryx.rs:1012-1057 | a row is refused for the first of its problems in the order of the checks; a row without problems says what its cells state, evidence cells included |
| CsvCells.GroupMeans | src/bin/memoryx.rs:1081-1156 | a group amounts to what all its rows say, with each claim and reference once as first seen, and fails only if two rows clash |
| CsvCells.AmountsMeansNoClash | src/bin/memoryx.rs:1081-1156 | conversely, rows that amount to an atom do not clash |
| CsvCells.DecimalTextMeans | src/bin/memoryx.rs:1060-1062 | the positional key of a row without id ends in the digits of its index |
| CsvCells.StopMeans | src/bin/memoryx.rs:1012-1157 | the row that stops the parser is the first that cannot be read or that clashes with its group |
| CsvAtoms.WriteCsvAtoms | src/bin/memoryx.rs:1181-1252 | the nested loops write one row per claim, or one bare row |
| CsvCells.WrittenMeans | src/bin/memoryx.rs:1181-1252 | the cells of every written row, counted through the rows of the atoms before it |
| Batch.AnswerAllMeans | examples/native_api.rs:138-146 | the sequential answer: each answer belongs to its own query, or the error is that of the lowest failing index |
| Batch.AnswerInTurn | examples/native_api.rs:138-146 | the sequential loop computes it |
| Batch.AwaitWave | examples/native_api.rs:175-182 | each worker fills the empty slot of its own query; the first failure awaited is the lowest failing index |
| Batch.Unwrap | examples/native_api.rs:184-187 | no slot is empty at the end, so the final expect cannot fail |
| Batch.BatchQuery | examples/native_api.rs:126-188 | for every parallelism the result is that of the sequential loop |
| Batch.EveryAtomIsAccountedFor | examples/native_api.rs:78-123 | each atom meets the store that the atoms before it leave; its id or its error, with its index, stands at the place that the earlier successes determine |
| Batch.StoreIsThreaded | examples/native_api.rs:78-123 | the final store is the forward fold of ingesting the atoms, failing ones included |
| Batch.Conserved | examples/native_api.rs:78-123 | successes plus errors are the atoms, and errors are listed by increasing index |
| Batch.NativeStore.BatchIngest | examples/native_api.rs:78-123 | store, ids and errors are those of one unchunked loop, whatever the batch size; the store is the fold of ingesting the atoms in order |
| Paths.NormalizeAbsolutePath | src/bin/memoryx.rs:2123-2147 | the component loop computes the normalisation |
| Paths.FailsIffSomePrefixEscapes | src/bin/memoryx.rs:2123-2147 | an absolute path is refused exactly if some prefix leads above the root, and otherwise the result is as deep as the path leads |
| Paths.NormalFormIsFixed | src/bin/memoryx.rs:2123-2147 | a path without dot components is its own normal form, so normalisation is idempotent |
| Paths.DroppingKeepsResult | src/bin/memoryx.rs:2123-2147 | a name followed by `..`, and `.`, can be dropped anywhere in a path |
| Paths.CanonicalMeans | src/bin/memoryx.rs:2155-2192 | the result is r if and only if r is the canonical deepest existing ancestor followed by the missing names in order |
| Paths.CanonicalIsIdempotent | src/bin/memoryx.rs:2155-2192 | the result is its own canonical path and exists exactly as much as the input |
| Paths.CanonicalPathIsStable | src/bin/memoryx.rs:2155-2192 | so the identity of a base does not change when it is computed again, from any working directory |
| Paths.RelativeMeansBelowCwd | src/bin/memoryx.rs:2115-2121 | a relative path means the path below the working directory, an absolute one does not depend on it |
| Paths.ResultHasNoLinks | src/bin/memoryx.rs:2149-2154 | no prefix of the result is a symbolic link |
| Paths.DanglingLinkIsRefused | src/bin/memoryx.rs:2149-2154 | a dangling link as deepest existing ancestor is an error, not a missing directory |
| Paths.CanonicalPhysicalPath | src/bin/memoryx.rs:2155-2192 | the loop up to an existing ancestor and back computes the canonical path, and never runs out of ancestors |
| FirstSeen.FirstsOrder | src/bin/memoryx.rs:1064-1066 | de-duplication keeps elements in the order of their first appearance |

## Left out

- Hash collisions: ids are compared through canonical bytes; nothing is claimed about BLAKE3.
- JSON, YAML and CSV text: documents are templates with holes for the length field, requests are parsed
  by an uninterpreted function, and rows are sequences of cells that lose blanks on their way.
- Sockets, scheduling and flushing: streams deliver arbitrary non-empty chunks, processes take atomic steps.
- I/O errors of streams and a lost connection between proxy and owner; the relay's own failure on an oversized response is modelled.
- Operating-system faults in Ownership: a lock has one holder and dies with it, an address has one listener, tokens do not repeat, process identities are not reused.
- The temporary file of a publication, file permissions, and descriptor validation beyond the base path.
- The invariants section codec in `src/cas/invariants.rs`: an uninterpreted parse-and-print.
- Message texts and numbers of errors, and the metadata the exporter reads from META: it is not laid out as the META codec prints it, so it does not round trip.
- `create_minimal_atom_body`, which replaces subjects and predicates by symbol ids, and `build_atom_with_canonical_id`, whose body builder is a stub.
- Capacity: memory exhaustion is not modelled, and bodies are assumed shorter than 2^64 bytes where offsets are stored.
- In-place update of vectors: growing vectors and maps are fields or variables of sequence and map type; aliasing between them is not modelled. The slots of `batch_query` are an array.
- Worker panics in `batch_query`, and other writers between its waves or between the chunks of `batch_ingest`: the store changes through the driver only.
- Windows path prefixes, permission errors and racing changes of the file tree; directory creation when a store opens.
- Other bases' processes and the registry: opening a store succeeds or fails as the environment decides.
- The HTTP federation server, which takes the active store out of the registry for good.
- CsvAtoms.InterleavedRowsParse: is stated for atoms that all have an id, because the key of a row without id is its position and changes with the interleaving.
- Store internals (ingest, answer, relation repair, graph, WAL, CRDT, VM): only called, never modelled.
- `src/cas/refs.rs`, section CRC checks, getters and filters of the section objects: they would only add easy members.
