# A verified model of agw

agw is a gateway that keeps AI agents accountable: it confines what they can reach, signs and
verifies their requests, judges their tool calls, and writes down every decision in a hash-linked,
signed evidence log. This project models the parts of it whose correctness is an argument rather
than a case analysis, and proves that argument.

| Module | Models |
|---|---|
| `Decimal`, `Text`, `Utf16` | numerals, trimming, joining, sorting, quoting and UTF-16, as Go, Python and JavaScript do them |
| `LengthPrefix`, `Timestamp` | the length-prefixed field encoding; RFC 3339 timestamps and their UTC normal form |
| `EvidenceChain`, `EvidenceVerify` | records, checkpoints, the bytes they commit to; the reference verifier and tamper evidence |
| `EvidenceSink`, `SinkProtocol` | the writer as a class; group commit, checkpoints, crashes and restarts as interleaved steps |
| `VerifierEquivalence` | the second Go verifier and the JavaScript verifier, over raw members, against the reference |
| `EvidenceExport` | bundles cut out of a log, and their verification |
| `Guard`, `Policy`, `Registry`, `KillSwitch`, `ConfineProxy` | address guard, egress policy, workload registry, kill switch, and one request through the proxy |
| `Profile`, `SignatureInput`, `SignatureRoundTrip`, `HeaderValues`, `SignatureBase`, `SignVerify` | AGS1 request signing (a profile of RFC 9421): header printer and parser, header normalisation, signature base, sign and verify |
| `SignatureGrammar`, `SignatureLayout` | the same on the wire, apart from the code: which headers parse and as what, and the signed bytes line by line |
| `CanonicalJson`, `StrictJson`, `JsonRoundTrip` | the RFC 8785 printer in Python, the strict JavaScript parser, and the round trip between them |
| `JsonShortest`, `JsonTokens` | that no text read as a value is shorter than the printer's, and what the parser's tokens are, after RFC 8259 |
| `SignerPurpose`, `SignerDaemon` | what the signing daemon agrees to sign, how fast, and how it counts |
| `Inventory`, `McpEnforcer` | the MCP enforcer's decisions and the tool-inventory watch |
| `Oracle` | the gym's independent reconciliation of traffic with evidence |

Objects whose methods change fields are classes here, and each such method's postcondition equates
the object's value after it with a function of its value before. What the system promises is then
proved about those functions, over every run. Concurrent parts (`SinkProtocol`, `KillSwitch`,
`McpEnforcer`, `SignerDaemon`) are state machines whose steps are the code's critical sections, so
the run theorems hold in every interleaving; the methods of `McpEnforcer.Enforcer` and
`SignerDaemon.Daemon` are proved to be runs of those machines.

Nothing is assumed of SHA-256: where a claim needs it not to collide, the conclusion says "or here
is a collision". Ed25519, base64, JSON canonicalisation of request bodies and `unicode.IsPrint`
beyond ASCII are parameters, with the laws used of them (`SignVerify.Lawful64`,
`SignVerify.LawfulCrypto`) as hypotheses of the theorems that use them.

## What turned out not to hold

- **The JavaScript verifier does not always agree with the Go ones.** It computes the expected next
  sequence number with a `BigInt`, which does not wrap; Go's `uint64` does. After a record numbered
  2^64 - 1, a malformed line or a record numbered 0 is reported differently.
  `VerifierEquivalence.JavaScriptAgreesIff` says exactly when the reports agree, and
  `JavaScriptDiffers` gives two lines on which they do not.
- **A key id that `%q` has to escape does not survive its own header.** `ParseSignatureInput` strips
  quotes without undoing escapes. `SignatureRoundTrip.RoundTripIff` gives the exact condition for
  the round trip, key id included; `QuotedKeyIDIsLost` shows it fail for a quote and for a backslash.
- **`ValidateForPurpose` alone accepts a context without its prefix.** It trims the principal-context
  prefix where it is present but does not insist on it, so a bare field list validates
  (`SignerPurpose.BareContextValidates`); only `ClassifyPurpose` stops it
  (`ValidatesIffClassified`). The daemon always classifies first, and no message validates under two
  purposes either way (`NoTwoPurposes`).
- **An absent and an empty query sign alike.** The comment on `CanonicalQuery`
  (`pkg/ags1/canonicalhttp/request.go:87`) says the marker "?" tells them apart; the code drops one
  leading "?" and puts one back. The raw query is empty for both `/p` and `/p?`, and that of `/p??`
  signs like it (`SignVerify.EmptyAndBareMark`); so do `/p?x=1` and `/p??x=1` (`DoubledMark`).
  `SameQueryIff` and `SameBaseIffSameQuery` show that queries share a signature base exactly if they
  differ by at most that one mark.
- **A rule naming an IP literal also matches that address's mapped spelling.** The comment in
  `hostMatches` (`internal/confine/policy.go:217`) reads as if the two were kept apart; the code
  compares unmapped addresses. `Policy.LiteralPermitsIff` says exactly which addresses a literal
  permits, `SpellingsShareVerdict` that no policy without wildcards tells two spellings apart, and
  `MappedSpellingMatches` gives the comment's own pair.
- **A version with a line break in it breaks the hash input's framing.** The version line is the one
  part that carries no length. Two records with equal hash inputs agree on every hashed field exactly
  if they are of one version (`EvidenceChain.RecordInputIff`); `TwoRecordsOneInput` makes two that do
  not out of any two records. Likewise a record's hash input is signable exactly if its version
  spells a field list across its line break (`SignerPurpose.RecordIsSignableIff`), and every record
  has such a version (`BrokenVersionIsSignable`). Neither can happen to a record the chain writes or
  the verifier knows (`LinkedRecordIsNeverSignable`, `KnownRecordIsNeverSignable`,
  `EvidenceVerify.TamperEvidence`).
- **Before year 0 the three timestamp normalisers print three texts.** An offset can carry
  0000-01-01 into the year before, where `%04d`, `padStart` and RFC3339Nano place sign and zeros
  differently. `Timestamp.JsTsAgrees` and `ReferenceTsAgrees` show that they agree exactly on all
  other texts, `ThreeNormalForms` that there all three differ, and `MinuteBeforeYearZero` gives a text.
- **A log that verifies may not reopen or export.** The verifier trims every line, vertical tabs and
  form feeds included, and skips what is then empty; `resumeChain` trims nothing and skips only empty
  lines, and both it and the decoder under `Export` know only JSON's own white space.
  `EvidenceSink.IntactResumesIff` and `EvidenceExport.IntactReadableIff` say exactly which intact logs
  are refused. `WhiteSpaceUnseen`, `FormFeedStopsResume` and `FormFeedStopsExport` turn any log into one
  that the verifier reports on as before and that is refused.
- **A sink opened on an unsigned tail reports it signed.** `SignedThrough` is documented as the sequence
  the latest checkpoint covers; a new sink starts it at the resumed sequence.
  `SinkProtocol.SignedThroughAgrees` says exactly when it is what the verifier reports, and
  `UnsignedTailDiffers` gives a log with one record for which it is not.

## Model

| member | source | states |
|---|---|---|
| LengthPrefix.ParseLengthPrefixed | pkg/ags1/signer/purpose.go:190-214 | the consuming loop reads exactly the field list of the recursive grammar, or refuses |
| LengthPrefix.ParseEncode | pkg/evidence/chain.go:107-107 | the daemon's parser undoes the chain writer's field encoding on every field list and consumes the input exactly |
| LengthPrefix.ParseSpells | pkg/ags1/signer/purpose.go:184-214 | an accepted text is its fields, each behind a numeral Atoi reads as its length, and not a byte more |
| LengthPrefix.EncodeInjective | pkg/evidence/chain.go:87-107 | no value can shift a field boundary: equal encodings are equal field lists |
| LengthPrefix.ParseAcross | pkg/ags1/signer/purpose.go:184-214 | a text with a line break in it is a field list exactly if what stands before the break leaves a field open and what follows closes it |
| Timestamp.AcceptsExactly | cmd/agw-verify/main.go:71-112 | a text is accepted if and only if it renders fields in range whose calendar date exists |
| Timestamp.NormalFormIsInstant | cmd/agw-verify/main.go:76-112 | two accepted texts normalise alike if and only if they name the same instant to the nanosecond |
| Timestamp.TsIdempotent | cmd/agw-verify/main.go:76-112 | normalising a normal form changes nothing |
| Timestamp.TsFormat | pkg/evidence/strict.go:26-49 | a formatted moment is accepted, decodes to that moment and is its own normal form |
| Timestamp.FormatInjective | pkg/evidence/chain.go:112-112 | different moments print differently |
| Timestamp.ToUtcKeepsInstant | cmd/agw-verify/main.go:89-105 | carrying an offset into the date across day, month and year ends keeps the instant |
| Timestamp.CarriedDate | cmd/agw-verify/main.go:86-88 | the day of the month that an overlong day is carried to is that of the date as many days on |
| Timestamp.NextDayNumber | cmd/agw-verify/main.go:82-88 | the calendar's successor is one day later, through leap years and month ends |
| Timestamp.DayNumberInjective | cmd/agw-verify/main.go:82-88 | two dates with one day count are the same date |
| Timestamp.JsTsAgrees | site/assets/rfc0009.js:164-196 | the JavaScript normaliser, which carries offsets in minutes and the fraction as text, and the second Go one agree on a text if and only if its UTC year is not before 0 |
| Timestamp.ReferenceTsAgrees | cmd/agw-verify/main.go:105-111 | the second Go normaliser and the reference's RFC3339Nano agree on exactly the same texts |
| Timestamp.ThreeNormalForms | site/assets/rfc0009.js:186-195 | before year 0 the three normal forms are pairwise different |
| Timestamp.MinuteBeforeYearZero | cmd/agw-verify/main.go:89-105 | 0000-01-01T00:00:00+00:01 is such a text |
| EvidenceChain.CanonicalRecordInput | pkg/evidence/chain.go:93-147 | the builder's bytes are the version line and the 24 or 29 length-prefixed fields in order |
| EvidenceChain.RecordInputInjective | pkg/evidence/chain.go:87-147 | of records whose versions hold no line break, equal hash inputs mean equal version, sequence, previous hash, name, timestamp and every event field that version hashes |
| EvidenceChain.RecordInputIff | pkg/evidence/chain.go:93-147 | records with equal hash inputs agree on everything hashed if and only if they are of one version |
| EvidenceChain.TwoRecordsOneInput | pkg/evidence/chain.go:93-147 | any two records become different records with one hash input by the first's producer, or user agent under version 1, and the second's version |
| EvidenceChain.CheckpointInputInjective | pkg/evidence/chain.go:165-180 | a checkpoint's signed bytes determine its sequence, hash, count, time and key id |
| EvidenceVerify.VerifyWithAnchor | pkg/evidence/verify.go:86-291 | the scan loop reports what the step-by-step specification reports, problems in order |
| EvidenceVerify.PaddingUnseen | pkg/evidence/verify.go:104-110 | white space around a record or checkpoint changes nothing the verifier reports |
| EvidenceVerify.RunMeaning | pkg/evidence/verify.go:102-197 | after any prefix, the scan is intact if and only if every line of it is sound where it stands |
| EvidenceVerify.SeenMeaning | pkg/evidence/verify.go:122-136 | what the scan remembers for a sequence number is the last checkpoint commitment to it |
| EvidenceVerify.IntactIff | pkg/evidence/verify.go:86-291 | a log is intact if and only if its records chain, its checkpoints hold, the anchor is held, and a keyed non-empty log has a checkpoint |
| EvidenceVerify.NoProblemsIff | pkg/evidence/verify.go:86-291 | a report without problems is an intact one with no record in the superseded format |
| EvidenceVerify.IntactSpelled | pkg/evidence/verify.go:86-312 | the same line by line: every line decodes, every record follows the one before it and every checkpoint signs what stands before it, the kept one is held, and a keyed log of records has one |
| EvidenceVerify.SharedHashSharedPast | pkg/evidence/verify.go:168-186 | two chains sharing the hash of record n agree on every hashed field of records 0 to n, or exhibit a collision |
| EvidenceVerify.SameHashedV2 | pkg/evidence/chain.go:129-144 | records of version 2 that agree on the hashed fields and the hash are the same record |
| EvidenceVerify.TamperEvidence | pkg/evidence/verify.go:86-291 | two logs that verify intact and agree on one record's hash have one history up to it, or exhibit a collision |
| EvidenceVerify.SeqIsPosition | pkg/evidence/verify.go:158-166 | in a sound chain the n-th record is numbered n |
| EvidenceVerify.CheckpointPins | pkg/evidence/verify.go:293-312 | a checkpoint of an intact log sits after as many records as it says and carries the hash of the last |
| EvidenceVerify.AnchorFound | pkg/evidence/verify.go:219-259 | an accepted anchor is matched by a checkpoint of the log |
| EvidenceVerify.AnchoredExtension | pkg/evidence/verify.go:68-291 | an intact verification against a checkpoint kept from an earlier intact log means the log extends that log's covered prefix unchanged, or a collision |
| EvidenceSink.ResumeChain | pkg/evidence/sink.go:187-226 | restart reads the last record's sequence and hash, or fails exactly if some line does not decode untrimmed or is white space without being empty |
| EvidenceSink.EvidenceSink.constructor | pkg/evidence/sink.go:103-146 | an opened sink resumes sequence, head and the checkpointed count from the log |
| EvidenceSink.EvidenceSink.AppendLocked | pkg/evidence/sink.go:228-271 | the locked part of Write: link, encode, count, and a checkpoint if one is due, as one change of state |
| EvidenceSink.EvidenceSink.WriteCheckpointLocked | pkg/evidence/sink.go:320-333 | a checkpoint commits to the head, or the state says why not |
| EvidenceSink.EvidenceSink.FlushLocked | pkg/evidence/sink.go:279-301 | a flush moves everything buffered, unless the writer's sticky error is set |
| EvidenceSink.EvidenceSink.CheckpointLocked | pkg/evidence/sink.go:337-354 | the locked part of Checkpoint, with its three outcomes |
| EvidenceSink.LinkSelf | pkg/evidence/chain.go:156-162 | a linked record's hash is the hash of the record itself |
| EvidenceSink.AppendKeeps | pkg/evidence/sink.go:228-271 | whatever the signer and disk do, the log stays sound and grows by exactly the record returned |
| EvidenceSink.AppendFaults | pkg/evidence/sink.go:250-268 | a write fails if and only if the encoder fails on its own record, and the writer breaks if and only if that encode, or one of a checkpoint due and signed, breaks; the signer can do neither |
| EvidenceSink.CheckpointFollows | pkg/evidence/sink.go:250-333 | a write that brings the unanchored records up to CheckpointEvery, or finds the interval elapsed, with a signer and disk that work, leaves the record and a checkpoint to it, whole state given |
| EvidenceSink.RecordAlone | pkg/evidence/sink.go:250-333 | a write that triggers no checkpoint, or one that fails, leaves the record alone and says so |
| EvidenceSink.RecordLost | pkg/evidence/sink.go:228-249 | a write whose own record fails leaves everything but the writer as it was |
| EvidenceSink.ForceCheckpointKeeps | pkg/evidence/sink.go:337-367 | a forced checkpoint keeps the log sound, adds no record and targets the head |
| EvidenceSink.ReopenKeeps | pkg/evidence/sink.go:103-146 | any line-boundary prefix of a good log can be reopened and resumes consistently |
| EvidenceSink.IntactResumesIff | pkg/evidence/sink.go:205-213 | an intact log can be reopened if and only if every blank line of it is empty and no value stands beside a vertical tab or form feed |
| EvidenceSink.WhiteSpaceUnseen | pkg/evidence/verify.go:104-110 | a line of white space behind any log changes no report of the verifier and keeps the log from being reopened |
| EvidenceSink.FormFeedStopsResume | pkg/evidence/sink.go:205-213 | a form feed beside any record or checkpoint of any log changes no report of the verifier and keeps the log from being reopened |
| EvidenceSink.SignedThroughIs | pkg/evidence/verify.go:132-134 | on what the writer wrote, the verifier's signed-through is the last checkpoint's sequence |
| EvidenceSink.VerifierAccepts | pkg/evidence/verify.go:66-291 | what the writer wrote verifies without a problem and its unanchored count is head minus last checkpoint |
| EvidenceSink.KeptCheckpointStillHeld | pkg/evidence/verify.go:219-259 | a checkpoint of the log never raises an alarm against it |
| SinkProtocol.StepKeeps | pkg/evidence/sink.go:228-367 | every critical section of Write, syncThrough, Checkpoint, crash and restart keeps the protocol's invariant |
| SinkProtocol.AcknowledgedIsDurable | pkg/evidence/sink.go:228-301 | in every interleaving with failures, crashes and restarts, a record whose Write succeeded is on disk at its own position ever after |
| SinkProtocol.ReturnedIsAcknowledged | pkg/evidence/sink.go:262-301 | a Write that returns success is one of those |
| SinkProtocol.SyncedOnlyAdvances | pkg/evidence/sink.go:279-301 | the synced sequence never decreases and never exceeds what is durable |
| SinkProtocol.SignerNeverFailsWrite | pkg/evidence/sink.go:250-268 | with a working disk, no Write fails whatever the checkpoint signer does |
| SinkProtocol.UnanchoredStaysShort | pkg/evidence/sink.go:250-367 | with a signer and disk that work, in every interleaving and across crashes, the records behind the last checkpoint stay fewer than CheckpointEvery, and the verifier finds no more unanchored unless they were there before |
| SinkProtocol.WriterVerifierAgree | pkg/evidence/sink.go:103-367 | after any run, any line-boundary prefix with a checkpoint or no records verifies without problems and counts its tail exactly |
| SinkProtocol.KeptAnchorNeverAlarms | pkg/evidence/sink.go:228-367 | a checkpoint that reached the disk is held by every later state of the log |
| SinkProtocol.DurableLines | pkg/evidence/sink.go:279-301 | durable lines never change and never go away |
| SinkProtocol.SignedThroughAgrees | pkg/evidence/sink.go:131-185 | after any run, SignedThrough is what the verifier reports if and only if the log the sink was opened on had no record behind its last checkpoint, or a checkpoint has been written since |
| SinkProtocol.UnsignedTailDiffers | pkg/evidence/sink.go:103-146 | a sink opened on one unsigned record reports it signed, where the verifier reports nothing signed |
| VerifierEquivalence.HashInput | cmd/agw-verify/main.go:207-232 | the field-table loop over raw members builds the raw hash input |
| VerifierEquivalence.JsHashInput | site/assets/rfc0009.js:218-223 | so does the JavaScript loop |
| VerifierEquivalence.RawInputIsRecordInput | cmd/agw-verify/main.go:140-232 | the input built from raw members is the one the reference builds from the decoded struct |
| VerifierEquivalence.ValuesAreFields | cmd/agw-verify/main.go:140-205 | the table over raw members, with nulls and absences, gives the struct's fields in hash order |
| VerifierEquivalence.HashedAs | cmd/agw-verify/main.go:157-204 | a member is hashed as what it holds, and one absent or null as the zero of its type |
| VerifierEquivalence.SignatureAgrees | cmd/agw-verify/main.go:255-280 | the three implementations check the same bytes of a checkpoint |
| VerifierEquivalence.AgwVerify | cmd/agw-verify/main.go:477-581 | the second Go verifier reports exactly what the reference reports on the decoded log |
| VerifierEquivalence.JsVerify | site/assets/rfc0009.js:342-429 | the JavaScript verifier reports what the reference would with an unbounded successor |
| VerifierEquivalence.JavaScriptAgreesIff | site/assets/rfc0009.js:342-429 | JavaScript and Go agree if and only if no line after record 2^64 - 1 is malformed or a record numbered 0 |
| VerifierEquivalence.JavaScriptDiffers | site/assets/rfc0009.js:342-429 | a log on which they differ |
| EvidenceExport.ReadAll | pkg/evidence/export.go:261-293 | all records and checkpoints and the head, or nothing exactly if some line does not decode or holds a vertical tab or form feed outside its value |
| EvidenceExport.Export | pkg/evidence/export.go:87-143 | the bundle holds exactly the matching records, with the continuity facts of the log; there is one under the same condition |
| EvidenceExport.ExportedIff | pkg/evidence/export.go:200-215 | a record is exported if and only if it is of the tenant, as home or source, of the agent, and inside the times that the filter names |
| EvidenceExport.RelevantCheckpoints | pkg/evidence/export.go:216-237 | the loop keeps the checkpoints the specification keeps, from the first sequence less one in uint64 arithmetic |
| EvidenceExport.VerifyBundle | pkg/evidence/export.go:151-198 | a bundle of another version is an error; otherwise the problems are those of contents, of links if complete, and of signatures if there is a key, each in order, and there are none if and only if every check holds |
| EvidenceExport.NoProblemsIffHolds | pkg/evidence/export.go:151-198 | the reported problems are none if and only if every content hash, every link of a complete bundle and every signature holds |
| EvidenceExport.IntactReadableIff | pkg/evidence/export.go:261-279 | an intact log can be exported if and only if no line of it holds a vertical tab or form feed outside its value |
| EvidenceExport.FormFeedStopsExport | pkg/evidence/export.go:269-279 | a form feed beside any record or checkpoint of any log changes no report of the verifier and keeps the log from being exported |
| EvidenceExport.ExportSound | pkg/evidence/export.go:87-198 | every export of an intact log is of this version and accepted under the same key, and is complete if and only if its sequences form an interval |
| EvidenceExport.CompleteIffInterval | pkg/evidence/export.go:100-113 | pairwise-consecutive records are exactly those that fill their interval |
| EvidenceExport.ExportKeeps | pkg/evidence/export.go:216-237 | the kept checkpoints are those in range and then the first one after it |
| Guard.CheckAddr | internal/confine/guard.go:150-198 | exemptions first, then the structural denials, on the unmapped address |
| Guard.AllowedIff | internal/confine/guard.go:150-198 | an address is let through if and only if it is valid and, unmapped, lies in an exemption or in none of the denied ranges, which are listed |
| Guard.VerdictIff | internal/confine/guard.go:162-195 | with no exemption, a verdict is given exactly for the addresses in its own ranges; only the metadata endpoint lies in two, and it counts as link-local |
| Guard.AcceptableIff | internal/confine/guard.go:105-143 | an entry is accepted if and only if it is a /24 or /64 or narrower and no address of it lies in a never-exempt range |
| Guard.NeverReopened | internal/confine/guard.go:87-198 | no accepted exemptions let through a link-local, multicast, carrier-NAT or NAT64 address, nor the metadata subnet |
| Guard.NewGuard | internal/confine/guard.go:105-143 | a guard is built if and only if every entry parses, is long enough and overlaps no never-exempt prefix; entries are masked |
| Guard.OverlapIffShared | internal/confine/guard.go:203-205 | the overlap test holds if and only if some address lies in both prefixes, in 32 and 128 bits |
| Guard.MaskedContainsSame | internal/confine/guard.go:139-139 | storing an exemption masked exempts exactly the addresses it named |
| Guard.NeverExemptIsDenied | internal/confine/guard.go:87-198 | every never-exempt range is inside the structural denials |
| Guard.NeverExemptAlwaysRefused | internal/confine/guard.go:87-198 | whatever exemptions were accepted, an address whose unmapped form is never-exempt is refused |
| Guard.SpellingIrrelevant | internal/confine/guard.go:145-155 | an IPv4-mapped spelling is judged as the address it embeds |
| Policy.Validate | internal/confine/policy.go:74-132 | accepted if and only if version, workloads, ids, hosts and ports are well formed and ids distinct; the index is the normalised workloads |
| Policy.Permits | internal/confine/policy.go:141-160 | permitted if and only if some rule matches, and the note is the first such rule's |
| Policy.PermittedIff | internal/confine/policy.go:141-160 | a workload is permitted a name and port if and only if a rule of its own matches the name, lower-case and without its trailing dot, and lists the port or none |
| Policy.MatchesIff | internal/confine/policy.go:200-227 | a pattern matches its own text, the names at least one label below it if it is a wildcard, and the spellings of its address if it is none |
| Policy.ValidHostIff | internal/confine/policy.go:100-119 | a rule's host is accepted if and only if it is not empty and holds no star, or one in front of a dotted name |
| Policy.WildcardNeedsLabel | internal/confine/policy.go:200-227 | an accepted wildcard matches only names with a further label, never the apex |
| Policy.LiteralPermitsIff | internal/confine/policy.go:215-224 | an accepted rule naming an address permits an address if and only if the two are one unmapped and the port matches |
| Policy.SpellingsShareVerdict | internal/confine/policy.go:141-227 | a workload whose rules hold no wildcard gets one verdict for all spellings of an address |
| Policy.MappedSpellingMatches | internal/confine/policy.go:215-218 | 140.82.121.4 and ::ffff:140.82.121.4 match each other |
| Registry.Registry.Register | internal/confine/registry.go:77-108 | registers, or refuses, exactly as the table function says, with both indexes kept in step |
| Registry.RegisteredIff | internal/confine/registry.go:77-108 | a workload is registered if and only if it has an id and an address and neither is taken |
| Registry.Registry.Lookup | internal/confine/registry.go:111-126 | finds the workload of the unmapped address, revoked or live |
| Registry.Registry.Track | internal/confine/registry.go:135-154 | tracks the connection unless the workload is unknown or revoked |
| Registry.Registry.Release | internal/confine/registry.go:149-153 | the release function forgets exactly that connection |
| Registry.Registry.RevokeLocked | internal/confine/registry.go:171-198 | revocation marks the workload and takes its connections in one step |
| Registry.RegisterKeeps | internal/confine/registry.go:77-108 | registration keeps the two indexes coherent, rebinds nothing already registered and makes the new identity live |
| Registry.TrackKeeps | internal/confine/registry.go:135-154 | so does tracking keep them coherent |
| Registry.ReleaseKeeps | internal/confine/registry.go:149-153 | and releasing |
| Registry.RevokeKeeps | internal/confine/registry.go:171-198 | and revoking, after which every address that found the workload live finds it revoked |
| Registry.LookupIff | internal/confine/registry.go:111-126 | in a coherent registry an address finds a workload if and only if it is the workload's own unmapped |
| KillSwitch.StepKeeps | internal/confine/proxy.go:196-280 | every step of handlers and Revoke keeps each open connection tracked, doomed or held |
| KillSwitch.RevokedMeansClosed | internal/confine/registry.go:158-212 | in every interleaving, once a Revoke and the handlers' pending steps are done, no tunnel connection of that workload is open |
| KillSwitch.NeverTrackedAgain | internal/confine/registry.go:135-145 | after revocation no Track for the workload ever succeeds |
| KillSwitch.HandlersFinish | internal/confine/proxy.go:231-280 | a handler always has a next step and each one brings it nearer its end |
| ConfineProxy.Proxy.Resolve | internal/confine/resolve.go:86-118 | addresses come back if and only if the literal passes the guard, or the one answer asked for is not empty and every address of it passes; they are the answer's, unmapped |
| ConfineProxy.Proxy.Authorize | internal/confine/proxy.go:144-194 | addresses come back if and only if the registry finds the caller live, policy lets it reach that host and port, and the host resolves past the guard |
| ConfineProxy.CallerIsLive | internal/confine/registry.go:111-126 | a connection comes from a workload exactly if that is live and its address is the connection's own unmapped |
| ConfineProxy.Proxy.DialValidated | internal/confine/proxy.go:357-371 | dials the addresses it was given in order, stops at the first that connects, and gives up only after all have failed |
| ConfineProxy.Proxy.Handle | internal/confine/proxy.go:196-353 | every dial of a request is guarded, from its single resolution, permitted, by a live workload, and after its allow record; and there is one if and only if the request is authorised and its allow record written or the proxy fails open |
| ConfineProxy.Proxy.Serve | internal/confine/proxy.go:107-121 | so does every request of any sequence, each with its own adversarial world |
| ConfineProxy.Proxy.DialsAreSafe | internal/confine/proxy.go:144-217 | authorised, then recorded, then dialled, is safe |
| ConfineProxy.NoDialOutOfBounds | internal/confine/proxy.go:357-371 | no dial ever goes to a never-exempt range |
| SignatureInput.BuildSignatureInput | pkg/ags1/httpmsig/signature_input.go:32-57 | the printed header, built component by component |
| SignatureInput.ParseComponents | pkg/ags1/httpmsig/signature_input.go:150-199 | the loop reads the quoted, supported names with ;sf exactly where it belongs |
| SignatureInput.SplitParams | pkg/ags1/httpmsig/signature_input.go:271-298 | splits at every separator outside quotes and drops blank pieces |
| SignatureInput.ParseParams | pkg/ags1/httpmsig/signature_input.go:203-267 | the closed parameter set, each once, with the faults in the code's order |
| SignatureInput.ParseSignatureInput | pkg/ags1/httpmsig/signature_input.go:65-110 | the whole parser is its parts in order |
| SignatureInput.ParseIsClosed | pkg/ags1/httpmsig/signature_input.go:59-110 | an accepted header has a legal label, supported components, a key id, a valid nonce and the profile's tag |
| SignatureGrammar.AcceptedIff | pkg/ags1/httpmsig/signature_input.go:59-305 | a header is accepted, as these values, if and only if it is a label, a list of items and the four settings each once, under the profile's tag, label and nonce alphabets |
| SignatureGrammar.SettingsIff | pkg/ags1/httpmsig/signature_input.go:203-267 | the parameters are accepted if and only if they are created, keyid, nonce and tag, each once, in any order, and none empty |
| SignatureGrammar.SettingIs | pkg/ags1/httpmsig/signature_input.go:218-248 | what each parameter sets, and which fault a repeated, forbidden or algorithm parameter is refused with |
| SignatureGrammar.ItemIs | pkg/ags1/httpmsig/signature_input.go:150-199 | what each spelling of a component is read as or refused with |
| SignatureGrammar.NonceIff | pkg/ags1/nonce/nonce.go:45-70 | a nonce is 22 to 64 characters of the URL-safe base64 alphabet |
| SignatureGrammar.CoveredAre | pkg/ags1/protocol/constants.go:110-190 | the covered components in order, the one spelled strictly, and the headers that may not repeat |
| SignatureRoundTrip.RoundTripIff | pkg/ags1/httpmsig/signature_input.go:32-305 | a built header is read back as what it was built from if and only if the values are the profile's own and the key id needs no escaping |
| SignatureRoundTrip.SettingsRoundTrip | pkg/ags1/httpmsig/signature_input.go:203-305 | the four settings are read back as printed |
| SignatureRoundTrip.KeyIDReadBack | pkg/ags1/httpmsig/signature_input.go:236-237 | a key id that needs escaping is never read back, wherever its quotes lead the splitter |
| SignatureRoundTrip.QuotedKeyIDIsLost | pkg/ags1/httpmsig/signature_input.go:236-237 | one header with key id k1 is read back; with a quote or a backslash in the key id it is not |
| SignatureRoundTrip.FrontComesApart | pkg/ags1/httpmsig/signature_input.go:113-199 | label, component list and settings come apart where they were put together |
| HeaderValues.NormalizeHeaderValue | pkg/ags1/canonicalhttp/normalize.go:58-69 | the loop ends, with no line break left and, if there was one, no double space |
| HeaderValues.ThreeReplacements | pkg/ags1/canonicalhttp/normalize.go:60-62 | the three replacements turn every line break, a CRLF once, into one space |
| HeaderValues.SquashOfReplaced | pkg/ags1/canonicalhttp/normalize.go:64-66 | a round of replacing double spaces changes no run's collapse |
| HeaderValues.NormalizeHeaders | pkg/ags1/canonicalhttp/normalize.go:23-49 | visits the headers in any order with one result, and refuses a repeated singleton |
| HeaderValues.NormalHeadersHaveNoBreak | pkg/ags1/canonicalhttp/normalize.go:51-69 | no normalised header can carry a line into the signature base |
| Text.QuotePrefixFree | pkg/ags1/canonicalhttp/signature_base.go:168-174 | a %q text ends where it says, whatever follows, so quoted values can be told apart |
| SignatureBase.ValidateCoveredComponents | pkg/ags1/canonicalhttp/signature_base.go:60-86 | the checks and their order of faults |
| SignatureBase.CoverageIsExact | pkg/ags1/canonicalhttp/signature_base.go:58-86 | a list passes if and only if it is the profile's own list, in order, for the request's shape |
| SignatureBase.NormalDigestIsTrim | pkg/ags1/digest/content_digest.go:38-87 | digest normalisation removes surrounding white space and nothing else, and is idempotent |
| SignatureBase.BuildSignatureBase | pkg/ags1/canonicalhttp/signature_base.go:31-56 | the lines in order, or the first fault |
| SignatureBase.BaseInjective | pkg/ags1/canonicalhttp/signature_base.go:31-175 | equal bases mean equal body shape, component list, covered values and created, keyid, nonce and tag |
| SignatureBase.BaseTellsQuery | pkg/ags1/canonicalhttp/signature_base.go:31-175 | of requests that differ only in their canonical query, two have one base if and only if the queries are equal |
| SignatureBase.SettingsInjective | pkg/ags1/canonicalhttp/signature_base.go:158-175 | the parameter line determines its four parameters |
| SignatureLayout.BaseIs | pkg/ags1/canonicalhttp/signature_base.go:31-175 | the base byte for byte: a line for each component, by name and value, and the parameters' line last |
| SignatureLayout.BaseIff | pkg/ags1/canonicalhttp/signature_base.go:31-146 | a base can be built if and only if the list is the profile's own, every header in it is there and the digest parses |
| SignVerify.HttpRequest.Sign | pkg/ags1/httpmsig/signer.go:69-204 | the request left behind and the result, on every path, body first, then digest, headers, base and signature |
| SignatureLayout.SignedIs | pkg/ags1/httpmsig/signer.go:69-204 | a request let through carries its identity headers, its digest, and both signature headers, over the base of exactly the request it is |
| SignatureLayout.IsJsonIff | pkg/ags1/httpmsig/helpers.go:61-72 | a body is canonicalised if and only if its media type, parameters aside, is application/json or ends in +json |
| SignVerify.HttpRequest.SetAll | pkg/ags1/httpmsig/signer.go:136-154 | the headers and body the base will cover |
| SignVerify.SignatureHeaderRoundTrip | pkg/ags1/httpmsig/signature_header.go:15-60 | the signature header is read back as its label and bytes |
| SignVerify.SignatureHeaderIff | pkg/ags1/httpmsig/signature_header.go:15-60 | a header gives a label and bytes if and only if it is that label, an equals sign and their base64 between colons |
| SignVerify.SignatureHeadersChangeNothing | pkg/ags1/httpmsig/signer.go:190-191 | adding the signature headers leaves everything signed as it was |
| SignVerify.SignedVerifies | pkg/ags1/httpmsig/verifier.go:53-144 | Verify accepts what Sign emitted, on any request with the same covered values inside the window |
| SignVerify.AcceptedIff | pkg/ags1/httpmsig/verifier.go:53-185 | of headers that parse, a request is accepted if and only if the labels match, the components are the profile's own, the creation time lies in the window, the body has its digest, and an Ed25519 key of 32 bytes verifies a signature of 64 over the base of this request |
| SignVerify.AcceptedIsReported | pkg/ags1/httpmsig/verifier.go:53-144 | an accepted request has two headers that parse, and is reported with the values and the base that were signed |
| SignVerify.TimelyIff | pkg/ags1/httpmsig/verifier.go:146-173 | the window as inequalities: not the zero time, at most the skew ahead of now and the age behind it, with the defaults |
| SignVerify.AcceptedBindsBody | pkg/ags1/httpmsig/verifier.go:79-144 | two accepted requests with one signed base agree on every covered value and parameter, and on the body or exhibit a collision |
| SignVerify.SameQueryIff | pkg/ags1/canonicalhttp/request.go:93-99 | two raw queries have one canonical form if and only if they are equal once one leading "?" is dropped |
| SignVerify.SameBaseIffSameQuery | pkg/ags1/canonicalhttp/request.go:67-99 | requests that differ only in the raw query have one signature base if and only if that holds of their queries |
| SignVerify.EmptyAndBareMark | pkg/ags1/canonicalhttp/request.go:87-99 | the raw query "" and the raw query "?" have one canonical form |
| SignVerify.DoubledMark | pkg/ags1/canonicalhttp/request.go:93-99 | so have x=1 and ?x=1 |
| CanonicalJson.SerializeString | sdks/python/ags_sdk/jcs.py:131-148 | the list of pieces joined is the escaped text |
| JsonShortest.CharacterIs | sdks/python/ags_sdk/jcs.py:127-148 | which text each character is printed as, after section 3.2.2.2 of RFC 8785 |
| JsonShortest.ShortestString | sdks/python/ags_sdk/jcs.py:131-148 | no text that is read as the string is shorter than the printed one |
| JsonShortest.ShortestText | sdks/python/ags_sdk/jcs.py:54-148 | no text that is read as a canonical value is shorter than the printed one |
| CanonicalJson.SerializeIs | sdks/python/ags_sdk/jcs.py:54-76 | arrays join their items, dicts their members in UTF-16 order of the names |
| CanonicalJson.SortedAscending | sdks/python/ags_sdk/jcs.py:67-82 | distinct names come out strictly ascending by UTF-16 code units |
| CanonicalJson.SortedByBytes | sdks/python/ags_sdk/jcs.py:79-82 | the order of code units is the order of the big-endian bytes the source compares |
| CanonicalJson.CanonIffSame | sdks/python/ags_sdk/jcs.py:54-82 | two values have one canonical form if and only if they are equal with dicts unordered |
| StrictJson.ParseJson | site/assets/rfc0009.js:45-127 | the cursor parser returns exactly what the grammar reads, or throws |
| StrictJson.Parser.Value | site/assets/rfc0009.js:50-61 | one value read and the cursor just after it |
| StrictJson.Parser.Object | site/assets/rfc0009.js:62-81 | members until the brace, a repeated name refused |
| StrictJson.Parser.Array | site/assets/rfc0009.js:82-94 | items until the bracket |
| StrictJson.Parser.String | site/assets/rfc0009.js:95-115 | code units, escapes undone, lone surrogates replaced |
| StrictJson.Parser.Number | site/assets/rfc0009.js:116-121 | the longest number, kept as text |
| JsonTokens.LongestNumber | site/assets/rfc0009.js:116-121 | a number token is the longest number, as a grammar apart from the code has it, that the text begins with; there is none exactly if it begins with none |
| JsonTokens.EscapesAre | site/assets/rfc0009.js:107-109 | the eight escapes of one letter, and no other |
| JsonTokens.HexDigitsAre | site/assets/rfc0009.js:110-113 | hexadecimal digits in either case, and no other |
| JsonTokens.WhiteSpaceIs | site/assets/rfc0009.js:47-47 | white space is the blank, the tab and the two line breaks |
| JsonTokens.ParsedIsSound | site/assets/rfc0009.js:62-121 | whatever is read holds no repeated member name, no lone surrogate and no number but JSON's, at any depth |
| JsonRoundTrip.ParseSerialize | site/assets/rfc0009.js:45-127 | the parser undoes the printer on every value and consumes the whole text |
| JsonRoundTrip.SerializeIffSame | sdks/python/ags_sdk/jcs.py:54-148 | two values have one canonical text if and only if they are the same value, whatever the insertion orders |
| JsonRoundTrip.StringBack | sdks/python/ags_sdk/jcs.py:131-148 | every string's text is read back as its UTF-16 code units |
| JsonRoundTrip.NumberBack | sdks/python/ags_sdk/jcs.py:85-90 | every integer's numeral is read back whole, up to its delimiter |
| Utf16.WellFormedEncoded | site/assets/rfc0009.js:101-103 | toWellFormed leaves encoded text alone |
| Utf16.WellFormedIs | site/assets/rfc0009.js:101-103 | unit by unit, exactly the surrogates that stand in no pair are replaced |
| SignerPurpose.ValidateForPurpose | pkg/ags1/signer/purpose.go:118-182 | the checks of each purpose, loops included |
| SignerPurpose.SignableIff | pkg/ags1/signer/purpose.go:96-182 | which messages the daemon signs under each purpose: the openings, the pairs a context must hold, the five parts of a checkpoint, and the one probe |
| SignerPurpose.SignableOpens | pkg/ags1/signer/purpose.go:96-182 | nothing without one of those openings and a list of fields behind it |
| SignerPurpose.CheckpointIsSignable | pkg/evidence/chain.go:165-180 | every checkpoint input classifies and validates as evidence-checkpoint |
| SignerPurpose.RecordIsNotCheckpoint | pkg/evidence/chain.go:93-147 | no hash input of a record whose version holds no line break validates as a checkpoint |
| SignerPurpose.RecordIsNeverSignable | pkg/ags1/signer/purpose.go:96-182 | nor is one classified and accepted under any purpose |
| SignerPurpose.RecordIsSignableIff | pkg/ags1/signer/purpose.go:96-182 | a record's hash input is signable under a purpose if and only if the version starts with that purpose's prefix and leaves a field open which the rest closes into fields the purpose accepts |
| SignerPurpose.KnownRecordIsNeverSignable | pkg/evidence/verify.go:133-156 | no record of a version the verifier knows is signable under any purpose |
| SignerPurpose.LinkedRecordIsNeverSignable | pkg/evidence/chain.go:156-162 | no record Link writes is signable under any purpose |
| SignerPurpose.BrokenVersionIsSignable | pkg/evidence/chain.go:99-105 | every record has a version, with a line break in it, under which its hash input is signable as a checkpoint |
| SignerPurpose.NoTwoPurposes | pkg/ags1/signer/purpose.go:118-182 | no message validates under two purposes |
| SignerPurpose.ValidatesIffClassified | pkg/ags1/signer/purpose.go:96-182 | what validates is classified alike, a principal context exactly when it has its prefix |
| SignerPurpose.BareContextValidates | pkg/ags1/signer/purpose.go:121-122 | a principal context that validates without its prefix |
| SignerPurpose.CheckpointHidesNothing | pkg/ags1/signer/purpose.go:144-167 | after the prefix stand five parts behind their numerals and nothing more |
| SignerDaemon.TokenBucket.Take | pkg/ags1/signer/daemon.go:62-74 | one take's new tokens and time, and its answer |
| SignerDaemon.Daemon.constructor | pkg/ags1/signer/daemon.go:128-167 | a full bucket for each purpose served, with the defaults where no positive rate or burst is given |
| SignerDaemon.TakePays | pkg/ags1/signer/daemon.go:62-74 | tokens stay within the capacity, and a grant in a window is paid for by what the bucket could still give in it |
| SignerDaemon.RateBound | pkg/ags1/signer/daemon.go:62-74 | in every run and window, a purpose's authorised signings number at most capacity plus rate times the window |
| SignerDaemon.ConfiguredRateBound | pkg/ags1/signer/daemon.go:94-199 | a configured daemon authorises for one purpose at most burst plus rate times the window, in any window of any run |
| SignerDaemon.SignatureBound | pkg/ags1/signer/daemon.go:248-286 | in every run and window, the signatures made for a purpose number at most those authorised and unfinished when it opens, plus capacity, plus rate times the window |
| SignerDaemon.ConfiguredSignatureBound | pkg/ags1/signer/daemon.go:94-286 | the same of a daemon as configured, whatever purposes it serves |
| SignerDaemon.CounterBound | pkg/ags1/signer/daemon.go:272-284 | from its start to any later time, its counter for a purpose stays within burst plus rate times the time |
| SignerDaemon.CountersAddUp | pkg/ags1/signer/daemon.go:281-284 | the total is the sum over purposes, and none exceeds what was authorised |
| SignerDaemon.GrantedIsSignable | pkg/ags1/signer/daemon.go:173-199 | only a message that validates under its own, served, correctly named purpose, and no other, is authorised |
| SignerDaemon.AuthorizedIff | pkg/ags1/signer/daemon.go:173-199 | a signing is authorised if and only if the purpose is served, the message signable under it and not misnamed, and the bucket, filled since it was last asked, holds a token |
| SignerDaemon.RefusalIs | pkg/ags1/signer/daemon.go:173-205 | a refusal counts one, under the purpose the message opens with or as unknown, and changes nothing else but the refilled bucket |
| SignerDaemon.Daemon.AuthorizeSigning | pkg/ags1/signer/daemon.go:173-199 | the decision, the bucket and the refusal counter after it |
| SignerDaemon.Daemon.CountSignature | pkg/ags1/signer/daemon.go:272-284 | the counters go up only for a signature made |
| SignerDaemon.Daemon.HandleSign | pkg/ags1/signer/daemon.go:248-286 | a signing request from length check to counters |
| Inventory.Inventory.Observe | internal/mcp/inventory.go:46-85 | the digest of the sorted entries recorded, and whether it changed |
| Inventory.DigestedIff | internal/mcp/inventory.go:59-71 | the hashed bytes agree if and only if the tools agree as multisets of name, description and trimmed schema |
| Inventory.ChangedIff | internal/mcp/inventory.go:46-85 | a change is reported if and only if that multiset differs, or SHA-256 collides; reordering is none |
| McpEnforcer.BuildErrorReply | internal/mcp/enforcer.go:253-279 | each refused request with an id is answered once, in order; a notification is not |
| McpEnforcer.StepKeeps | internal/mcp/enforcer.go:94-235 | every interleaved step keeps what the log says of each message in flight |
| McpEnforcer.ForwardedOnlyIfCleared | internal/mcp/enforcer.go:81-147 | any forwarded message but a response had every request permitted, then every request recorded, before it went |
| McpEnforcer.ForwardedIsGranted | internal/mcp/enforcer.go:94-181 | each request of a forwarded message was granted by the authorizer of a step of the run that asked about it, as spelled out, and written by the sink, whatever interleaves |
| McpEnforcer.DecideIff | internal/mcp/enforcer.go:149-181 | a request is allowed if and only if it is no tool call of a frozen server and the authorizer, asked about its action, resource and risk, allows it; the question is spelled out |
| McpEnforcer.DecisionIs | internal/mcp/enforcer.go:111-124 | a granted request is permitted and the next one decided; any other ends its message, refused and counted |
| McpEnforcer.RecordIs | internal/mcp/enforcer.go:126-146 | a request the sink wrote is counted if it calls a tool and remembered if it lists them; one it could not write ends its message, refused |
| McpEnforcer.MadeByStep | internal/mcp/enforcer.go:94-147 | every permission and every record in the log was made by a step of the run that could make it |
| McpEnforcer.NoPermitOnceFrozen | internal/mcp/enforcer.go:162-166 | once frozen, always frozen, and no tool call is permitted |
| McpEnforcer.FrozenForwardsNoToolCall | internal/mcp/enforcer.go:162-219 | no message arriving after the freeze with a tools/call is forwarded |
| McpEnforcer.FrozenIffRedefined | internal/mcp/enforcer.go:192-230 | with PinTools, frozen if and only if some inspected list redefined the tools of the one before, short of a collision |
| McpEnforcer.RugPullStopped | internal/mcp/enforcer.go:162-230 | with PinTools, after an inspected list has redefined the one before it and been acted on, no message that arrives with a tools/call is ever forwarded, short of a collision between the two lists |
| McpEnforcer.Enforcer.Admit | internal/mcp/enforcer.go:94-147 | an uninterrupted Admit is a run of the steps, and its verdict is where that run ends |
| McpEnforcer.Enforcer.DecideAll | internal/mcp/enforcer.go:111-124 | the deciding loop as steps, to the first refusal |
| McpEnforcer.Enforcer.RecordAll | internal/mcp/enforcer.go:126-146 | the recording loop as steps, to the first failed write |
| McpEnforcer.Enforcer.ObserveResponse | internal/mcp/enforcer.go:192-235 | an uninterrupted ObserveResponse is a claim of the list unless the caller knows it, an inspection and, for a change, a freeze; a response to no list changes nothing |
| Oracle.Score.Reconcile | internal/gym/score.go:208-260 | the counts, the unrecorded hits in order and the phantom total, or the error path |
| Oracle.PortOfPrinted | internal/gym/score.go:518-528 | a port behind any host is read back |
| Oracle.PortOfIff | internal/gym/score.go:518-528 | a resource names a port if and only if what stands behind its last colon is a whole number |
| Oracle.UnrecordedAt | internal/gym/score.go:246-254 | per port, unrecorded egress is the excess of hits over allow records |
| Oracle.Conservation | internal/gym/score.go:246-260 | hits less unrecorded are ported non-close allow records less phantoms |
| Oracle.OrderIrrelevant | internal/gym/score.go:208-260 | the order of hits and of records changes neither the unrecorded per port nor the phantoms |

## Left out

Assumptions of the model:

- Evidence strings are their UTF-8 bytes, one char a byte, and a JSON line decodes to the record it encodes (valid UTF-8, UTC years 0 to 9999).
- A reader gets lines whole: scanner limits, torn last lines and the text of problem details are not modelled; a crash leaves a line-boundary prefix.
- A successful fsync makes everything flushed durable, and the buffered writer's error is sticky.
- SinkProtocol.AcknowledgedIsDurable: stated for logs with fewer than 2^64 records, where the code's counter would wrap; EvidenceExport.ExportSound, EvidenceExport.ExportKeeps, EvidenceVerify.SeqIsPosition, EvidenceVerify.CheckpointPins, EvidenceVerify.AnchoredExtension and EvidenceSink.AppendKeeps carry the same bound.
- EvidenceChain.RecordInputInjective: only for versions without a line break, which covers every version there is; without that it is false, and EvidenceChain.RecordInputIff says when it holds.
- SignerPurpose.RecordIsNotCheckpoint: only for versions without a line break; SignerPurpose.RecordIsSignableIff covers the others.
- SignerPurpose.RecordIsNeverSignable: only for versions without a line break, as above; all the lemmas on signable records speak of fields Go can hold, of length below 2^63.
- A log is read line by line; that `Export` decodes a stream, in which a line may hold two values or a value two lines, is not modelled.
- Threads interleave at the granularity of critical sections and atomic operations; goroutine scheduling, timers and deadlines only choose the order.
- `McpEnforcer` joins some of them: reading the frozen flag with the authorizer's answer, which depends on nothing of the enforcer's, so that a decision happens when the flag is read; writing a record with the counter and the tools/list id that go with it; and counting a change with the freeze.
- Addresses carry no zone; `SplitHostPort` and `netip.ParseAddr` are inputs of `ConfineProxy` and `Policy`; lower-casing is ASCII.
- KillSwitch.RevokedMeansClosed: speaks of CONNECT tunnels, the only connections the registry tracks; plain HTTP requests are not tracked by the code either.
- Header names are lower-case and canonical, so no two spellings of one name meet in one request; `EscapedPath` is an input; signing strings are valid UTF-8.
- Times in `SignVerify` do not saturate, and a caller always says what time it is.
- SignVerify.SignedVerifies: one direction; for a key id that needs escaping the signature is checked over another base, and whether it then fails is Ed25519's affair.
- Canonical JSON covers null, booleans, integers, strings, arrays and objects; floats, lone surrogates and Python's limit on the digits of an integer are out.
- SignerDaemon.RateBound: over real-valued tokens, as are the bounds built on it; floating-point rounding and the 2^64 wrap of the counters are out.
- Request decoding by `ParseBatch` is an input of `McpEnforcer`; so is what a response body decodes to. Log lines and the fields of evidence records beyond their event and outcome are out.
- `Oracle` leaves out canary escapes, chain verification and findings.

Not modelled, because they would add only case analysis or foreign semantics: JSON classification of
evidence lines and case folding in `ExactNames`, key stores, authorizer rules and shadow mode,
routing, the decision package, nftables and namespaces, the HTTP and unix-socket servers, OTLP
ingest, the command line, the site and the demos, and the Go canonicaliser of `pkg/ags1/jcs`.
