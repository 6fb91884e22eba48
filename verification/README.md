# Kommunsign, verified

A Dafny model of the parts of Kommunsign that its legal promises rest on: the evidence archive and
its verifier, the QR encoder of the signing page, the canonical encodings under every hash, the
worker protocols that lead from an identified signer to a completed case, key rotation, and the
preservation export. Code that computes is modelled by functions, code that changes things step by
step by methods with loops, arrays and classes, each proved against a function; the lemmas then say
what those functions mean, over every input, every run and every interleaving.

`dafny verify dfyconfig.toml` checks the project. The modules:

| modules | subject |
|---|---|
| `Galois`, `ReedSolomon`, `QrTables`, `QrBits`, `QrBlocks`, `QrLayout`, `QrMatrix`, `QrVersionInfo`, `QrEncoder` | the QR encoder, from field tables to the finished grid, and a reader |
| `QrSymbol`, `QrConformance`, `QrCodewords` | what a scanner expects of a symbol, stated without the encoder, and the proof that every symbol is so |
| `Bytes`, `Crc32`, `PathRules`, `Zip`, `ZipParser`, `ZipFormat`, `ZipSoundness`, `ZipErrors`, `ZipLaws` | the evidence archive: writer, parser, and what each guarantees, by the offsets and constants of the format |
| `Evidence`, `EvidenceVerifier`, `EvidenceMeaning`, `EvidenceRoundTrip`, `EvidencePaths`, `EvidenceText`, `WorkerPaths` | manifest, checksum file, package, and the offline verifier in both directions; every message of its report; which paths a package needs, and which the worker makes |
| `Text`, `JsonNumber`, `JsonString`, `CanonicalJson`, `JsonParser`, `CanonicalJsonLaws`, `JsonFormat`, `Base64` | canonical JSON with its parser, character by character, and base64 with the workers' decoder |
| `RetryDelay`, `JobRows`, `DurableJobs`, `JobRules` | durable jobs: delays, the step system of leases, the repository and one attempt, and what each statement does to a row |
| `Webhooks` | delivery of an outbox event to its endpoints |
| `SigningRows`, `SigningSafety`, `SigningProgress`, `SigningHandlers`, `SigningWorker`, `SigningEffects`, `SigningChain`, `Revisions` | identity, signature, package and expiry handlers; what every interleaving keeps; what each job changes, and that the whole chain ends in a signed document; the chain of signed revisions |
| `KeyRotation` | key rings, re-encryption and blind indexes |
| `Archive`, `ArchiveLaws`, `ArchiveRules` | the preservation export |
| `Results`, `Arithmetic`, `Ordering`, `Platform`, `PlatformExample`, `PackageExamples` | shared: thrown errors as data, the stable sort, the platform's functions with the laws assumed of them, an example that meets them, and inputs on it that fail |

## What is assumed

`Platform.Platform` holds the functions that the runtime provides: NFC normalisation, the UTF-8
encoder and decoder, `localeCompare` and SHA-256. Lemmas that need more of them than that they are
functions say `Lawful()`: normalisation and UTF-8 at most triple the length, normalisation keeps
ASCII text and neither makes nor removes line terminators, decoded text has no lone surrogate, decoding
inverts encoding except that lone surrogates are lost and one leading byte order mark is dropped,
collation is a total preorder, a digest is 64 hexadecimal digits.
`PlatformExample.ExampleLawful` gives a platform that meets them, for any hash of 64 digits.
`WorkerPaths.Characters` holds the character classes of file names: line terminators, surrogates and the
byte order mark are neither letters nor numbers.

No hash of bounded length is injective. Where the argument needs it, a lemma says `InjectiveOn` and names
the finite set of byte strings that do not collide: those hashed when a package is built and verified, or
those of a document and of the run that signs it. `PlatformExample.TheoremApplies` exhibits a delivery that
meets every hypothesis of the tamper theorem.

A database transaction is one atomic step. The rest of the system takes part in the signing runs as
arbitrary moves within `SigningSafety.EnvironmentMoves`: it obeys the transition guards, fixes the
required signers before a case is sent, and leaves evidence, attempts and the workers' jobs alone.

## What the proofs found

- QR versions 7 to 10: the encoder skips the alignment patterns centred on the timing lines, so its
  data region has 40 modules more than the standard's. It reads back by its own function map, which
  is not the standard's (`QrLayout.StandardDataRegion`).
- A document whose title is not in Unicode normal form C, such as one with U+212B, U+2126 or Hangul jamo
  that compose, gives a package that its own verifier rejects: the manifest keeps the path as it is and the
  archive normalises it (`PackageExamples.AngstromTitleRejected`). For the worker's paths this is the only
  way (`WorkerPaths.WorkerPackageVerifies`): `safeFileName` replaces line terminators, byte order marks and
  lone surrogates, which would make a package fail as well (`EvidencePaths.BuiltPackageVerifies`).
- Archives are exact inverses except for paths that UTF-8 does not carry (lone surrogates, a leading
  byte order mark) and paths whose normal form is longer than 512 units, such as 512 times U+0958:
  the archive is created and does not read back as it was (`ZipLaws.RoundTrip`, `ZipLaws.CreatedReparsed`,
  `PackageExamples.LoneSurrogateLost`).
- A case that is still `sent` cannot complete: the completing statement selects it, the transition
  guard refuses it, and no worker ever moves a case to `in_progress` (`SigningRows.CompletionCommits`,
  `SigningProgress.NoneCompletes`). No other statement of the API, the workers or the migrations does.
- One signer whose turn has not come keeps an overdue case from expiring, and so does a case that is
  still being prepared or already being archived (`SigningRows.ExpiryCommits`).
- After a revision that failed validation, or passed as anything but TOTAL_PASSED, a document cannot
  be signed again: `loadLatestRevision` falls back to the canonical PDF, which the chain guard refuses
  (`Revisions.NextSignature`).
- A worker lost during a job's last attempt leaves the job leased for ever (`JobRows.LostLastAttemptStays`).
- An error that escapes a delivery on the last attempt, such as a secret that cannot be decrypted,
  leaves that delivery `delivering` (`Webhooks.LastAttemptConverges`).
- Retirement does not check that the retired version is not the active one (`KeyRotation.RetireKeeps`);
  rolling back after a write strands that row
  (`KeyRotation.RollbackStrands`), and rolling back an older promotion leaves two active versions
  (`KeyRotation.RollbackKeeps`, `KeyRotation.OldRollbackBreaks`); the blind-index plan
  does not repair a compromised active version (`KeyRotation.OverwriteRepairs`).
- The preservation export depends on row order exactly when the collation ties two different
  signatures, identities or files, such as two signatures of one signer (`ArchiveLaws.BuildForgetsOrder`),
  and its verifier never looks at a file that another of the same path follows
  (`ArchiveLaws.ShadowedFileVerifies`).
- The comment at packages/archive/src/index.ts:140-142 promises that every identity has a signature as
  well; the code checks only that every signature has an identity, and archives a case with an identity
  that has none (`ArchiveLaws.StrayIdentityArchived`). The model follows the code.

## Model

| member | source | states |
|---|---|---|
| `QrTables.Tables.constructor` | apps/signer-portal/public/qr.js:14-15 | the two loops leave `exp` holding the powers of 2 in GF(256) and `log` inverting one full period of them |
| `QrTables.Tables.Multiply` | apps/signer-portal/public/qr.js:16 | multiplying by table look-up is multiplication in the field |
| `QrSymbol.FieldPolynomial` | apps/signer-portal/public/qr.js:15-16 | the field is that of x^8 + x^4 + x^3 + x^2 + 1: the powers of 2 below the eighth are themselves, the eighth is 29, and multiplying by 2 doubles and then takes away 256 for 29 |
| `Galois.MulComm` | apps/signer-portal/public/qr.js:16 | the product is commutative |
| `Galois.MulAssoc` | apps/signer-portal/public/qr.js:16 | the product is associative |
| `Galois.MulAdd` | apps/signer-portal/public/qr.js:16 | the product distributes over exclusive or, on both sides |
| `Galois.AlphaOrder` | apps/signer-portal/public/qr.js:15 | 2 generates the field: no power of it below the 255th is one, so the tables repeat no value |
| `QrTables.Tables.Generator` | apps/signer-portal/public/qr.js:22 | the nested loops multiply out (x - 2^0)...(x - 2^(degree-1)) |
| `ReedSolomon.GeneratorRoots` | apps/signer-portal/public/qr.js:22 | each of 2^0..2^(n-1) is a root of the generator of degree n |
| `QrTables.Tables.Remainder` | apps/signer-portal/public/qr.js:23 | the in-place division register ends as the remainder function of data and degree |
| `ReedSolomon.CodewordIsMultiple` | apps/signer-portal/public/qr.js:23 | data followed by its remainder is the quotient times the generator |
| `ReedSolomon.SyndromesVanish` | apps/signer-portal/public/qr.js:22-23 | data followed by its remainder evaluates to zero at 2^0..2^(n-1), for every data block and degree |
| `ReedSolomon.MinimumDistance` | apps/signer-portal/public/qr.js:22-23 | codewords of different data blocks of one length, at most 255 octets long with their remainders, differ in at least n + 1 places |
| `ReedSolomon.RemainderUnique` | apps/signer-portal/public/qr.js:23 | no other n octets than the remainder make a codeword of the data |
| `QrBits.AppendBits` | apps/signer-portal/public/qr.js:18 | refuses exactly the values that do not fit, and otherwise appends the bits, most significant first |
| `QrBits.SelectVersion` | apps/signer-portal/public/qr.js:20 | finds the smallest version that holds the bytes, and fails exactly above 271 bytes |
| `QrBits.Capacities` | apps/signer-portal/public/qr.js:9-12 | the block table adds up to the capacities that the standard lists |
| `QrBits.DataCodewords` | apps/signer-portal/public/qr.js:21 | header, terminator, completion and alternating pad octets fill exactly the version's data codewords |
| `QrBits.ParseDataBits` | apps/signer-portal/public/qr.js:21 | parsing mode nibble, count and bytes from the padded stream returns the text |
| `QrCodewords.FitsWhen` | apps/signer-portal/public/qr.js:20 | a version holds exactly 17, 32, 53, 78, 106, 134, 154, 192, 230 or 271 bytes at most |
| `QrCodewords.MessageConforms` | apps/signer-portal/public/qr.js:21 | octet by octet, the message is mode 4, the count (two octets in version 10), the bytes, four zero bits, and then 0xec and 0x11 in turns |
| `QrBlocks.AllCodewords` | apps/signer-portal/public/qr.js:24 | splits into blocks, adds each block's remainder and interleaves |
| `QrBlocks.InterleavedReadBack` | apps/signer-portal/public/qr.js:24 | de-interleaving returns the data, and every received block has vanishing syndromes |
| `QrBlocks.InterleavedLength` | apps/signer-portal/public/qr.js:24 | the stream is exactly as long as the version's capacity: no codeword is lost or repeated |
| `QrCodewords.StreamConforms` | apps/signer-portal/public/qr.js:24 | taken apart by the standard's own table of blocks, the stream gives back the message in order, and every block with its error correction is zero at the first powers of 2, as many as the version has error correction octets |
| `QrLayout.ZigzagReaches` | apps/signer-portal/public/qr.js:33 | every module outside the vertical timing column has a turn in the zigzag |
| `QrLayout.ZigzagOnce` | apps/signer-portal/public/qr.js:33 | no module has two turns |
| `QrLayout.CentreUnclaimed` | apps/signer-portal/public/qr.js:29 | the `func` test skips an alignment pattern exactly when its centre lies on a timing line, and never because of a pattern drawn before |
| `QrLayout.DataModulesCount` | apps/signer-portal/public/qr.js:25-33 | outside the encoder's own function map there are 8 modules for each codeword and 0, 7 or 40 more, so no codeword bit is dropped |
| `QrLayout.StandardDataRegion` | apps/signer-portal/public/qr.js:29 | that count is the standard's exactly up to version 6: from version 7 the skipped patterns leave 40 modules too many |
| `QrMatrix.FormatWordPublished` | apps/signer-portal/public/qr.js:30 | the BCH register gives the standard's published format sequence for level L and mask 0 |
| `QrMatrix.FormatStepMultiplies` | apps/signer-portal/public/qr.js:30 | the register stays below its top bit, so the multiplication in the loop is the test of a division register |
| `QrMatrix.VersionStepMultiplies` | apps/signer-portal/public/qr.js:32 | the same for the version register |
| `QrVersionInfo.WordsApart` | apps/signer-portal/public/qr.js:32 | any two of the version words of 7 to 10 differ in exactly eight bits |
| `QrVersionInfo.DamagedVersionRead` | apps/signer-portal/public/qr.js:32 | version information with up to three wrong modules still reads as the version it was drawn for |
| `QrMatrix.Matrix.Place` | apps/signer-portal/public/qr.js:33 | the zigzag puts bit k of the codewords into the k-th free module, light beyond the last bit, and touches no function module |
| `QrMatrix.Matrix.Apply` | apps/signer-portal/public/qr.js:34-35 | inverts exactly the masked modules outside the function map |
| `QrEncoder.MakeMatrix` | apps/signer-portal/public/qr.js:25-38 | after all in-place writes the grid is what a scanner expects of this version and these codewords, stated without the encoder's own layout: finders, timing, alignment, both copies of the format word and of the version word, and the bit of every codeword in reading order under the mask |
| `QrConformance.FinderShown` | apps/signer-portal/public/qr.js:27 | around each of the three centres: a dark 3x3 square, a light ring, a dark ring, and light around it, for every version |
| `QrConformance.FindersFound` | apps/signer-portal/public/qr.js:27 | so three rows and three columns through each centre show the runs 1:1:3:1:1 |
| `QrConformance.PatternsShown` | apps/signer-portal/public/qr.js:26-32 | all function patterns are the standard's, module by module |
| `QrConformance.ReadingOrder` | apps/signer-portal/public/qr.js:33 | the turns of the zigzag are exactly the data modules, in the order in which a scanner reads them |
| `QrConformance.CodewordsShown` | apps/signer-portal/public/qr.js:33-35 | module k of that order shows bit k of the codewords, inverted where column and row add up to an even number |
| `QrConformance.RoomFor` | apps/signer-portal/public/qr.js:33 | no codeword bit is without a module |
| `QrEncoder.DecodeDrawn` | apps/signer-portal/public/qr.js:18-39 | a reader that knows the grid only, and starts from its three finders (version from its size and version information, both format copies, mask, zigzag, blocks, syndromes, segment) reads back exactly the bytes |
| `QrEncoder.Encode` | apps/signer-portal/public/qr.js:39 | fails exactly for no bytes or more than 271; otherwise draws the symbol of the smallest version that holds them by the standard's capacities, module by module and codeword by codeword as a scanner expects it, and reading it returns them |
| `Crc32.Crc32` | packages/evidence/src/zip.ts:264-271 | the bitwise loop computes the checksum function |
| `Crc32.RoundDivides` | packages/evidence/src/zip.ts:268 | each bit multiplies the register by x, modulo x^32 + x^26 + x^23 + x^22 + x^16 + x^12 + x^11 + x^10 + x^8 + x^7 + x^5 + x^4 + x^2 + x + 1 |
| `Crc32.Residue` | packages/evidence/src/zip.ts:264-271 | every byte string followed by its own checksum, low byte first, has the checksum 0x2144df1c |
| `Crc32.CheckValue` | packages/evidence/src/zip.ts:264-271 | the nine characters 123456789 give the published 0xcbf43926 |
| `Crc32.DetectsBursts` | packages/evidence/src/zip.ts:264-271 | inputs that differ only inside four consecutive bytes have different checksums |
| `PathRules.ValidIsSafe` | packages/evidence/src/zip.ts:240-247 | a path passes exactly when it has 1 to 512 units, no backslash and no NUL, and no stretch between slashes or ends is empty, "." or ".."; what it returns is the normal form |
| `PathRules.SegmentsJoin` | packages/evidence/src/zip.ts:242 | splitting at slashes is undone by joining, and no segment holds a slash |
| `Zip.CreateEvidenceZip` | packages/evidence/src/zip.ts:32-100 | the loops over files, headers and DataView writes leave the archive that the layout of sections 4.3.7, 4.3.12 and 4.3.16 of PKWARE APPNOTE describes, or the same error |
| `ZipLaws.NoFieldWraps` | packages/evidence/src/zip.ts:33-98 | on every normal return, by offsets and constants: local headers with their data in path order from the first byte, central headers behind them, and the end record, each count, size, name length and offset being its unbounded value and each central offset its local header's position; no byte is left open |
| `ZipLaws.CreatedWhen` | packages/evidence/src/zip.ts:33-96 | the writer's errors in order (count, unsafe path, equal normal forms, a file above 100 MiB, an archive above 250 MiB), and an archive when none applies |
| `ZipLaws.InputOrderForgotten` | packages/evidence/src/zip.ts:33-36 | archive or error do not depend on the order of the files when the collation ties no two different paths |
| `ZipParser.FindEndOfCentralDirectory` | packages/evidence/src/zip.ts:232-238 | the backward loop returns the search function's result |
| `ZipParser.FindEndIsLast` | packages/evidence/src/zip.ts:232-238 | the search finds the last end signature of the window, and fails only when there is none |
| `ZipParser.ParseEvidenceZip` | packages/evidence/src/zip.ts:153-214 | the cursor loop over the central directory returns the parse function's result; every typed read lies inside the buffer |
| `ZipErrors.EndErrors` | packages/evidence/src/zip.ts:154-155 | the size limits, and no end signature in the last 65557 bytes |
| `ZipErrors.RecordErrors` | packages/evidence/src/zip.ts:156-164 | the errors of the end record in order, by the offsets of its fields; otherwise the directory decides |
| `ZipErrors.CentralErrors` | packages/evidence/src/zip.ts:170-190 | the errors of a central header in order, by the offsets of its fields |
| `ZipErrors.LocalErrors` | packages/evidence/src/zip.ts:193-207 | the errors of a local header and its data in order, up to the checksum |
| `ZipErrors.EntryEndsAsLocal` | packages/evidence/src/zip.ts:170-209 | an entry whose central header passes ends as its local header does |
| `ZipErrors.DirectoryErrors` | packages/evidence/src/zip.ts:166-213 | the first entry that fails decides; entries that all pass must fill the directory under different paths |
| `ZipSoundness.ParsedSound` | packages/evidence/src/zip.ts:153-214 | whatever the bytes, accepted files have central entries that tile [centralOffset, endOffset), local headers and data before centralOffset, safe distinct paths and matching checksums, by offsets and constants of the format |
| `ZipSoundness.ParsedComplete` | packages/evidence/src/zip.ts:153-214 | and every such directory is accepted with exactly those files |
| `ZipSoundness.ParsedPathsSafe` | packages/evidence/src/zip.ts:190 | every returned path is the normal form of a name in the archive that has no empty, "." or ".." segment and no backslash or NUL |
| `ZipLaws.RoundTrip` | packages/evidence/src/zip.ts:32-100 | parsing a created archive returns its path-sorted files exactly when every normalised path survives UTF-8 and a second validation (no lone surrogate, no leading byte order mark, still at most 512 units) |
| `ZipLaws.CreatedReparsed` | packages/evidence/src/zip.ts:32-214 | for every created archive, the parser's exact result or error: each path decoded from its UTF-8 and validated once more, refused at the first that fails or when two become equal |
| `PackageExamples.LoneSurrogateLost` | packages/evidence/src/zip.ts:32-214 | a file named by a lone surrogate: the archive is created and the parser refuses it |
| `EvidenceVerifier.VerifyEvidenceFiles` | packages/evidence/src/index.ts:44-55 | the two loops collect exactly the listed failures, in order |
| `EvidenceVerifier.VerifyChecksumFile` | packages/evidence/src/zip.ts:130-151 | the loops over lines and entries collect exactly the listed failures, or throw the path error |
| `EvidenceVerifier.VerifyEvidenceZip` | packages/evidence/src/zip.ts:102-128 | verified exactly when the list of failures is empty |
| `EvidenceText.PackageMessages` | packages/evidence/src/zip.ts:102-128 | the report from the archive's bytes to its last message, by the texts of the messages |
| `EvidenceText.FileMessages` | packages/evidence/src/index.ts:44-55 | the entries' messages in order, then one for each file that has no entry |
| `EvidenceText.EntryMessages` | packages/evidence/src/index.ts:46-52 | missing, of another size, of another hash: by the last file of the entry's path |
| `EvidenceText.UnlistedMessages` | packages/evidence/src/index.ts:53 | one message for each path that no entry lists |
| `EvidenceText.ChecksumMessages` | packages/evidence/src/zip.ts:130-151 | missing and different checksums in the order of the entries, then unexpected ones |
| `EvidenceText.LineEffect` | packages/evidence/src/zip.ts:136-143 | an empty line is passed over; a line that does not match is reported; a matching one is recorded under the normal form of its path, a second time with a message |
| `EvidenceText.LineRead` | packages/evidence/src/zip.ts:138 | a line matches exactly if it is 64 lower-case hexadecimal digits, two spaces, and at least one character without a line terminator |
| `EvidenceText.LinesJoin` | packages/evidence/src/zip.ts:136 | splitting at newlines is undone by joining, and leaves no newline |
| `EvidenceText.EvidenceOnly` | packages/evidence/src/zip.ts:115-117 | all files but manifest and checksum file, in their order |
| `EvidenceText.EntryAcceptance` | packages/evidence/src/zip.ts:223-227 | an entry is read exactly if it is an object with a safe, normalised path, a hash, a size up to 2^53 - 1 and a type, with the error of the first check that fails |
| `EvidenceText.EntriesAcceptance` | packages/evidence/src/zip.ts:223-227 | entries are read in order, and the first that is refused decides |
| `EvidenceText.ManifestAcceptance` | packages/evidence/src/zip.ts:216-230 | a manifest is read exactly if it is JSON of this schema whose entries are read and have different paths |
| `EvidenceMeaning.VerifiedIsConsistent` | packages/evidence/src/zip.ts:102-150 | verified means: files and manifest entries in bijection with equal length and hash, no entry for the metadata files, and the checksum file exactly the manifest's map from path to hash |
| `EvidenceMeaning.ConsistentIsVerified` | packages/evidence/src/zip.ts:102-150 | and every such archive verifies |
| `Evidence.CreateEvidenceManifest` | packages/evidence/src/index.ts:24-38 | one entry for each file, sorted by path |
| `EvidenceRoundTrip.ManifestContents` | packages/evidence/src/index.ts:24-38 | what it is told, and of every file the path, hash, size and type once, in path order |
| `EvidenceRoundTrip.ManifestProperties` | packages/evidence/src/index.ts:24-38 | its JSON has exactly five properties, of these names and values |
| `EvidenceRoundTrip.EntryProperties` | packages/evidence/src/index.ts:30-35 | an entry's JSON has exactly four |
| `EvidenceText.ChecksumLines` | apps/workers/src/production-handlers.ts:428 | one line for each entry: hash, two spaces, path, newline |
| `EvidenceText.ChecksumFile` | apps/workers/src/production-handlers.ts:428 | in path order; without entries, one newline |
| `Evidence.BuildPackage` | apps/workers/src/production-handlers.ts:424-434 | manifest, checksum file and archive put together as the worker does |
| `EvidencePaths.BuiltPackageVerifies` | apps/workers/src/production-handlers.ts:426-434 | every package the worker builds, whatever its paths: it verifies without failure exactly when each path is its own normal form, has no lone surrogate and no leading byte order mark, and holds no line terminator |
| `WorkerPaths.NameStep` | apps/workers/src/production-handlers.ts:805 | a title becomes a name one code point at a time: letters, numbers and four marks stay, all else becomes a low line |
| `WorkerPaths.TrimmedIs` | apps/workers/src/production-handlers.ts:805 | then white space goes from both ends, and only there |
| `WorkerPaths.NameEnds` | apps/workers/src/production-handlers.ts:805 | and .pdf is added unless the lower-case name ends with it |
| `WorkerPaths.SafeNamePlain` | apps/workers/src/production-handlers.ts:805 | whatever the title, the file name made of it is Unicode text without a line terminator, byte order mark, slash, backslash or NUL |
| `WorkerPaths.WorkerPackageVerifies` | apps/workers/src/production-handlers.ts:614-650 | with the worker's own paths (fixed names, ordinals, row ids and titles made into file names) only the normal form is left: the package verifies exactly when every path is normalised |
| `PackageExamples.AngstromTitleRejected` | apps/workers/src/production-handlers.ts:614-620 | a document titled with U+212B: the package is built, and its own verifier rejects it |
| `CanonicalJson.EncodePrintsCanon` | packages/crypto/src/canonical-json.ts:9-34 | encoding fails exactly on undefined and non-finite parts; otherwise it prints the value with sorted keys |
| `CanonicalJsonLaws.ParseEncoded` | packages/crypto/src/canonical-json.ts:9-34 | a JSON parser inverts the encoder on every value, up to key order and -0 |
| `CanonicalJsonLaws.EncodingIsMeaning` | packages/crypto/src/canonical-json.ts:9-34 | two values have equal encodings exactly when they are the same value (objects as finite maps, -0 as 0) |
| `CanonicalJsonLaws.KeyOrderForgotten` | packages/crypto/src/canonical-json.ts:22-29 | inserting an object's keys in another order leaves its meaning and its encoding unchanged |
| `CanonicalJsonLaws.EncodingForgetsOrder` | packages/crypto/src/canonical-json.ts:9-34 | two values have equal encodings exactly when one is the other with the members of its objects, at any depth, in another order (and zeros of either sign) |
| `CanonicalJsonLaws.EncodedWellFormed` | packages/crypto/src/canonical-json.ts:9-34 | the text has no lone surrogate, so UTF-8 keeps it |
| `JsonFormat.KeysAscend` | packages/crypto/src/canonical-json.ts:22-29 | read back by the grammar, every object's keys ascend by code units, at every depth |
| `JsonFormat.Punctuation` | packages/crypto/src/canonical-json.ts:9-34 | literals, brackets, braces, commas and colons, and no character between them |
| `JsonFormat.StringText` | packages/crypto/src/canonical-json.ts:13 | strings unit by unit: the seven short escapes, four lower-case hexadecimal digits for other control characters and lone surrogates, pairs and all else as they are |
| `JsonFormat.NumberShape` | packages/crypto/src/canonical-json.ts:15-18 | numbers: a minus sign only before a negative number that is not zero, and an exponent exactly for magnitudes from 10^21 and below 10^-6 |
| `Base64.Base64Encode` | packages/crypto/src/base64.ts:4-17 | the loop over groups of three computes the encoding function |
| `Base64.EncodedLength` | packages/crypto/src/base64.ts:4-17 | the padded form has 4 * ceil(n / 3) characters |
| `Base64.Groups` | packages/crypto/src/base64.ts:6-15 | three bytes become four characters, six bits each from the highest |
| `Base64.LastGroups` | packages/crypto/src/base64.ts:13-14 | one or two bytes at the end are padded |
| `Base64.AlphabetIs` | packages/crypto/src/base64.ts:1 | the 64 characters by code |
| `Base64.DecodesEncoded` | apps/workers/src/pades-handlers.ts:631-638 | the worker's decoder inverts the encoder on all non-empty bytes and refuses the empty ones |
| `Base64.DecodesUrlEncoded` | packages/crypto/src/base64.ts:19-21 | the same for the URL form, which has no padding, plus or slash |
| `RetryDelay.JitteredRetryDelaySeconds` | apps/workers/src/jobs.ts:61-72 | the hash loop gives the delay function (exact reals) |
| `RetryDelay.DelayIs` | apps/workers/src/jobs.ts:61-72 | half the base, and of the other half the share that the hash of id, colon and attempt number has of 2^32 - 1 |
| `RetryDelay.BaseIs` | apps/workers/src/jobs.ts:50-53 | one second up to the first attempt, doubled with every further one until 1024 |
| `RetryDelay.HashVectors` | apps/workers/src/jobs.ts:64-69 | the hash gives the published values of 32-bit FNV-1a for the empty text, "a" and "foobar" |
| `RetryDelay.DelayBounds` | apps/workers/src/jobs.ts:50-72 | every delay lies in [base / 2, base] |
| `RetryDelay.TotalDelayBounds` | apps/workers/src/jobs.ts:50-72 | n failures wait at most 2^n - 1 seconds for n <= 11 and 2047 + 1024 (n - 11) beyond, and at least half of that |
| `JobRows.OnlyOwnerMoves` | apps/workers/src/postgres-production-adapter.ts:266-329 | in every step a row under a live lease is moved by its owner only |
| `JobRows.ClaimsConserved` | migrations/data/0009_integrity_and_worker_recovery.sql:439-469 | over every run, the recovery included: each claim of a job is settled once, or lost to the end of its lease, or still held |
| `JobRows.LeaseHolds` | apps/workers/src/postgres-production-adapter.ts:266-329 | as long as its owner's heartbeats come before the lease ends, no run of all other steps, the recovery included, changes a row but for the end of its lease |
| `JobRows.FinalStays` | apps/workers/src/postgres-production-adapter.ts:266-314 | completed and dead-lettered rows never change in a run without the provisioning recovery |
| `JobRows.ClaimsBounded` | migrations/data/0009_integrity_and_worker_recovery.sql:439-469 | a job is claimed at most `maximum_attempts` times in any run, and its counter is exact |
| `JobRows.ExpiredIsClaimable` | migrations/data/0009_integrity_and_worker_recovery.sql:454-467 | an expired lease can be claimed again exactly while attempts remain |
| `JobRows.LostLastAttemptStays` | migrations/data/0009_integrity_and_worker_recovery.sql:457-463 | a worker lost during the last attempt leaves the row leased for ever: it is neither claimed nor dead-lettered |
| `JobRules.ClaimEffect` | migrations/data/0009_integrity_and_worker_recovery.sql:448-467 | a job is given out exactly if it is due, has attempts left, and is pending or leased beyond its time; what its row then holds |
| `JobRules.StatementEffects` | apps/workers/src/postgres-production-adapter.ts:266-329 | completion, retry, dead letter and heartbeat: nothing without the lease, and else every column of the row |
| `JobRules.RecoverEffect` | apps/workers/src/postgres-production-adapter.ts:187-203 | the provisioning recovery passes over live leases only; any other row of its job is pending again, and a dead one has all its attempts back |
| `DurableJobs.Store.ClaimDurableJobs` | migrations/data/0009_integrity_and_worker_recovery.sql:439-469 | leases exactly the claimable candidates, one attempt each, and no other row |
| `DurableJobs.LeaseAllLeases` | migrations/data/0009_integrity_and_worker_recovery.sql:448-467 | leasing distinct claimable rows gives each to the worker with one more attempt and changes nothing else |
| `DurableJobs.ClaimJobs` | apps/workers/src/postgres-production-adapter.ts:232-264 | over all tenants in turn: at most limit jobs, each leased to the worker and remembered as this process's |
| `DurableJobs.Repository.CompleteJob` | apps/workers/src/postgres-production-adapter.ts:266-280 | completes only a row whose lease the worker holds, and forgets the claim |
| `DurableJobs.Repository.RetryJob` | apps/workers/src/postgres-production-adapter.ts:282-297 | releases only such a row, with the new time and the cleaned code |
| `DurableJobs.Repository.DeadLetterJob` | apps/workers/src/postgres-production-adapter.ts:299-314 | dead-letters only such a row, with the cleaned code |
| `DurableJobs.CleanedIsClean` | apps/workers/src/postgres-production-adapter.ts:390-392 | a cleaned code has 1 to 120 characters of the safe alphabet, and a code is left as it is exactly if it was like that |
| `DurableJobs.Repository.HeartbeatJob` | apps/workers/src/postgres-production-adapter.ts:316-329 | extends only a lease that is held, and reports one that is lost |
| `DurableJobs.ProcessClaimedJob` | apps/workers/src/jobs.ts:119-148 | heartbeat first; a worker without the lease runs nothing and changes nothing; otherwise the end is settled on whatever rows there then are |
| `DurableJobs.SettledMoves` | apps/workers/src/jobs.ts:119-148 | settling changes the worker's own row only: completed, dead on a permanent error or the last attempt, else pending after half to one base delay |
| `JobRules.AttemptEffect` | apps/workers/src/jobs.ts:119-148 | the end of an attempt, column by column: completed; dead on a permanent error or the last attempt; else pending again after its delay |
| `JobRules.ClaimChecks` | apps/workers/src/postgres-production-adapter.ts:378-382 | the checks of a claim in order: worker id, limit 1 to 1000, lease of 5 to 3600 seconds |
| `JobRules.CleaningIs` | apps/workers/src/postgres-production-adapter.ts:390-392 | each unit outside the safe alphabet becomes a low line; an empty result is WORKER_ERROR, a long one is cut at 120 |
| `Webhooks.Outbox.ClaimDelivery` | apps/workers/src/webhook-handlers.ts:150-178 | creates a missing delivery and marks it delivering unless it is terminal |
| `Webhooks.Outbox.HandleWebhookDeliver` | apps/workers/src/webhook-handlers.ts:84-142 | the loop over endpoints leaves exactly the deliveries, posts, publication and error of the attempt function, whose rows `Webhooks.RowAfter` and `Webhooks.ClosedByAnswer` pin down |
| `Webhooks.TerminalStays` | apps/workers/src/webhook-handlers.ts:116-178 | within one attempt a delivered or dead-lettered delivery is neither changed nor posted to |
| `Webhooks.TerminalForever` | apps/workers/src/webhook-handlers.ts:84-178 | once a delivery is terminal after some attempt, no later attempt changes it or posts to its endpoint, however the attempts end |
| `Webhooks.EachMoves` | apps/workers/src/webhook-handlers.ts:121-138 | without an escaping error every endpoint's delivery moves by its own outcome alone, with at most one post |
| `Webhooks.RowAfter` | apps/workers/src/webhook-handlers.ts:121-141 | up to the first escaping error an open delivery tells its own outcome: delivered exactly if accepted, dead-lettered exactly if refused on the last attempt, failed exactly if refused earlier, with this attempt's number and its own response status; a closed one stays as it is |
| `Webhooks.AttemptCloses` | apps/workers/src/webhook-handlers.ts:84-178 | the attempt that closes a delivery left its own number, and accepted it or was the last and refused it |
| `Webhooks.ClosedByAnswer` | apps/workers/src/webhook-handlers.ts:84-178 | over all attempts, however they end: delivered exactly if so at the start or closed by an accepted attempt, dead-lettered exactly if so at the start or closed by a refused one |
| `Webhooks.OnePostEach` | apps/workers/src/webhook-handlers.ts:116-178 | however an attempt ends, an error after the request included, it posts at most once to each of its endpoints and to no other |
| `Webhooks.PostsBounded` | apps/workers/src/webhook-handlers.ts:84-178 | over n attempts, whatever they bring, an endpoint is posted to at most n times |
| `Webhooks.LastAttemptConverges` | apps/workers/src/webhook-handlers.ts:116-141 | the last attempt ends every delivery exactly when no error escapes from a delivery, and then never fails as incomplete |
| `Webhooks.EarlierAttempt` | apps/workers/src/webhook-handlers.ts:121-141 | an earlier attempt succeeds exactly when all deliveries are terminal, and otherwise fails as incomplete with the number of refused ones |
| `Webhooks.HandledKeeps` | apps/workers/src/webhook-handlers.ts:121-141 | a successful attempt publishes; a published event stays exactly as it is; no row outside the endpoints appears |
| `Webhooks.DeliveryConverges` | apps/workers/src/webhook-handlers.ts:84-326 | over all attempts, whatever each brings: if no error escapes from the last one, every delivery is terminal and the event published |
| `SigningRows.ExpiryCommits` | apps/workers/src/production-handlers.ts:549-562 | the transaction commits exactly for closed cases, left as they are, and for cases under way none of whose signers is pending, which then expire with all their open signers; a pending signer, or a case being prepared or archived, rolls it back |
| `SigningRows.CompletionCommits` | apps/workers/src/production-handlers.ts:461 | the statement selects a sent case, but the transition guard lets only in_progress and partially_signed complete |
| `SigningProgress.NoneCompletes` | apps/workers/src/production-handlers.ts:458-464 | in no interleaving does a case complete unless something other than the workers moves one to in_progress or partially_signed |
| `SigningEffects.SignerTransitions` | migrations/data/0037_decline_without_opening.sql:50-61 | the signer's transition guard as a table of pairs |
| `SigningEffects.CaseTransitions` | migrations/data/0037_decline_without_opening.sql:34-49 | the case's transition guard as a table of pairs |
| `SigningEffects.IdentityTransitions` | migrations/data/0021_pades_signature_chain_guards.sql:84-89 | the identity transaction's transition guard as a table of pairs |
| `SigningEffects.CollectEffect` | apps/workers/src/production-handlers.ts:263-334 | evidence collection: errors in order; readable evidence moves transaction and intent and queues the validation, unreadable evidence fails transaction, intent and signer; no other row changes |
| `SigningEffects.ValidateEffect` | apps/workers/src/production-handlers.ts:336-418 | the identity verdict: PASS makes the transaction verified, an evidence_collected intent verified and an identity_started signer identity_verified, and queues the signing job; FAIL fails transaction, intent and open signer and queues nothing; no other row changes |
| `SigningEffects.CreateEffect` | apps/workers/src/pades-handlers.ts:82-244 | signing: errors in order; otherwise the signer starts signing, and the documents without an attempt each get one with its validation job, in order up to the first answer that fails |
| `SigningEffects.JudgeEffect` | apps/workers/src/pades-handlers.ts:253-409 | a signature's verdict: the attempt, and when all signable documents are validated the signer signed, the intent packaged, the signer's package queued, the named pending group invited, and the case package queued exactly if all required signers have signed; refusal fails attempt and signer |
| `SigningEffects.PackageEffect` | apps/workers/src/production-handlers.ts:454-464 | a signer's package changes verified intents of that signer only; a case's package completes it, or is rolled back for a case still sent |
| `SigningEffects.ExpireEffect` | apps/workers/src/production-handlers.ts:549-562 | expiry: errors in order; the case and its open signers expire, or nothing changes |
| `SigningChain.ChainSigns` | apps/workers/src/pades-handlers.ts:82-409 | progress: if every service accepts, delivering the verdict, the signing job and then the validation of each new attempt, in any order and any number of times, leaves the signer signed, its intent packaged, its package queued, the named pending group invited, and the case package queued exactly if all required signers have signed; no other row changes |
| `SigningSafety.StepSafe` | apps/workers/src/production-handlers.ts:319-464 | each committed or refused transaction keeps the invariant |
| `SigningSafety.RunSafe` | apps/workers/src/pades-handlers.ts:121-408 | in every interleaving: identity_verified only with a PASS artifact; signing only with a verified identity transaction as well; signed only with that and a validated attempt for every signable document; completed only with every required signer signed |
| `SigningSafety.EmptySafe` | apps/workers/src/production-handlers.ts:263-464 | a tenant without rows satisfies the invariant, so every run from it does |
| `SigningSafety.SignedStays` | migrations/data/0037_decline_without_opening.sql:50-61 | no run ever leaves signed |
| `SigningSafety.SignedVisited` | apps/workers/src/pades-handlers.ts:121-127 | a signer reaches signed only through identity_verified and then signing |
| `SigningHandlers.HandledSafe` | apps/workers/src/production-handlers.ts:263-464 | whatever the services answer, handling any queued job keeps the invariant |
| `SigningHandlers.CreatedEach` | apps/workers/src/pades-handlers.ts:129-243 | a signing job that ends normally has left an attempt at every signable document, and never gives a signer two at one document |
| `SigningHandlers.Redelivered` | apps/workers/src/pades-handlers.ts:202-409 | delivering a job again after it was handled changes no row, whatever the services answer the second time |
| `SigningHandlers.Retried` | apps/workers/src/pades-handlers.ts:129-243 | delivering a job again after it failed: what a partial signing job left stays exactly as it is; any other failed job has left nothing, or the second delivery changes nothing |
| `SigningHandlers.DeliveredOnce` | apps/workers/src/pades-handlers.ts:129-138 | over any number of deliveries in any order, failing or not, no signer gets a second attempt at a document and no attempt is lost |
| `SigningWorker.Tenant.HandleTicCollect` | apps/workers/src/production-handlers.ts:263-334 | branches and statements of evidence collection, with the failure transaction, do what the handler function says |
| `SigningWorker.Tenant.HandleSignatureValidate` | apps/workers/src/production-handlers.ts:336-418 | the identity verdict's statements, rolled back together when a guard raises, do what the handler function says, whose effect on every row `SigningEffects.ValidateEffect` gives |
| `SigningWorker.Tenant.SignDocuments` | apps/workers/src/pades-handlers.ts:129-243 | the loop skips signed documents and stops at the first error, keeping the attempts made before |
| `SigningWorker.Tenant.HandlePadesCreate` | apps/workers/src/pades-handlers.ts:82-244 | all checks in order, the move to signing, then the loop |
| `SigningWorker.Tenant.HandlePadesValidate` | apps/workers/src/pades-handlers.ts:253-409 | attempt, signer, intent, next group and package jobs in one transaction |
| `SigningWorker.Tenant.HandleEvidencePackageBuild` | apps/workers/src/production-handlers.ts:454-464 | packages the signer's verified intents, or completes the case |
| `SigningWorker.Tenant.HandleCaseExpire` | apps/workers/src/production-handlers.ts:549-562 | expires case and signers together or not at all |
| `SigningWorker.Tenant.Deliver` | apps/workers/src/production-handlers.ts:263-464 | the rows after any delivery are the handler function's, and stay safe |
| `Revisions.IsPrefix` | apps/workers/src/pades-handlers.ts:615-619 | true exactly for byte prefixes |
| `Revisions.SigningRoom.Sign` | apps/workers/src/pades-handlers.ts:140-219 | records a revision exactly when stored bytes, claimed hash, append check and chain guard agree, and otherwise throws the first of their errors |
| `Revisions.SignatureChecks` | apps/workers/src/pades-handlers.ts:140-181 | the errors in order: input hash, claimed hash, appended bytes, chain; and the one revision that is added |
| `Revisions.ChainChecks` | migrations/data/0021_pades_signature_chain_guards.sql:281-347 | the chain guard: the first signature continues the canonical PDF, a later one some revision, and no two the same |
| `Revisions.VerdictIs` | apps/workers/src/pades-handlers.ts:253-409 | a verdict is recorded once, on its own revision, and changes nothing else |
| `Revisions.OnlyLastContinues` | migrations/data/0021_pades_signature_chain_guards.sql:281-347 | the guard admits only continuations of the last revision |
| `Revisions.RunKeepsLine` | apps/workers/src/pades-handlers.ts:140-181 | every run of signatures and verdicts whose strings do not collide keeps one line of revisions, each made from and appended to the one before |
| `Revisions.RunExtends` | apps/workers/src/pades-handlers.ts:207-224 | no run rewrites or drops a revision, the canonical PDF or the consented hash |
| `Revisions.EarlierArePrefixes` | apps/workers/src/pades-handlers.ts:454-497 | the consented canonical PDF, the input and every earlier revision are byte prefixes of every later one |
| `Revisions.NextSignature` | apps/workers/src/pades-handlers.ts:454-497 | with honest services a signature is recorded exactly when the document is unsigned or its last revision passed validation and added bytes; after any other verdict the fall back to the canonical PDF is refused |
| `KeyRotation.SaneMeans` | packages/crypto/src/key-rotation.ts:78-93 | the checks accept exactly the rings with distinct numbers and one active version |
| `KeyRotation.RingChecks` | packages/crypto/src/key-rotation.ts:78-115 | the ring's errors in order, and the active version |
| `KeyRotation.UseChecks` | packages/crypto/src/key-rotation.ts:108-225 | which versions can be written and read, and when a rotation is complete, by the errors in order |
| `KeyRotation.BeginEffect` | packages/crypto/src/key-rotation.ts:177-194 | promotion: its errors in order, and the two states it changes |
| `KeyRotation.RetireEffect` | packages/crypto/src/key-rotation.ts:227-235 | retirement: its errors in order, and the one state it changes |
| `KeyRotation.RollbackEffect` | packages/crypto/src/key-rotation.ts:244-262 | rollback: its errors in order, and the two states it changes |
| `KeyRotation.IndexCheck` | packages/crypto/src/key-rotation.ts:306-317 | the final check fails exactly if an entry is under a compromised version |
| `KeyRotation.BeginKeeps` | packages/crypto/src/key-rotation.ts:177-194 | promotion keeps the ring sane, makes the new version the writable one and takes no version's readability away |
| `KeyRotation.RetireKeeps` | packages/crypto/src/key-rotation.ts:227-235 | retiring keeps the ring sane exactly when it does not retire the active version, which nothing checks |
| `KeyRotation.RetireReads` | packages/crypto/src/key-rotation.ts:137-148 | retiring makes exactly the retired version unreadable |
| `KeyRotation.RollbackInverts` | packages/crypto/src/key-rotation.ts:244-262 | rolling back a promotion restores the ring exactly, unless the old key is compromised, when it is refused |
| `KeyRotation.RunSafe` | packages/crypto/src/key-rotation.ts:78-235 | over every run of promotion, writes, re-encryption and retirement with truthful counters one version is active and every row readable |
| `KeyRotation.FreshSafe` | packages/crypto/src/key-rotation.ts:112-130 | where such a run starts |
| `KeyRotation.RollbackStrands` | packages/crypto/src/key-rotation.ts:244-262 | rolling back a promotion leaves every row readable exactly when none was written under the new version |
| `KeyRotation.RollbackKeeps` | packages/crypto/src/key-rotation.ts:244-262 | for any sane ring and any progress: a rollback keeps one version active exactly when the active version is one of the two it names, which nothing checks |
| `KeyRotation.RollbackReads` | packages/crypto/src/key-rotation.ts:244-262 | it makes the old version readable, the new one unreadable, and touches no other |
| `KeyRotation.RollbackSafe` | packages/crypto/src/key-rotation.ts:244-262 | in any safe store a rollback leaves one active version and every row readable exactly when it names the active version and no row is under the one it makes pending |
| `KeyRotation.OldRollbackBreaks` | packages/crypto/src/key-rotation.ts:244-262 | with versions 1 and 2 decrypt_only and 3 active, rolling back from 1 to 2 leaves two active versions and strands a row |
| `KeyRotation.PlanMembers` | packages/crypto/src/key-rotation.ts:284-297 | lookups span exactly the versions present, in order; the plan names exactly the compromised ones but the active |
| `KeyRotation.OverwriteRepairs` | packages/crypto/src/key-rotation.ts:284-317 | carrying the plan out passes the final check exactly when the active version is not compromised or nothing compromised was there |
| `Archive.AssertArchivable` | packages/archive/src/index.ts:121-170 | the loops find the first of the refusals |
| `ArchiveRules.FirstRefusal` | packages/archive/src/index.ts:121-170 | the refusals by their codes, in order |
| `ArchiveRules.PathRule` | packages/archive/src/index.ts:202-209 | a path is content/, metadata/ or evidence/ and a file name of at most 121 characters of the safe alphabet, the first a letter or digit, without two dots in a row |
| `Archive.BuildArchivePackage` | packages/archive/src/index.ts:204-279 | path checks, entries, sorting and hash, or the same error code |
| `ArchiveRules.FirstError` | packages/archive/src/index.ts:227-252 | buildArchivePackage's errors in order; none means a package |
| `ArchiveRules.BuiltContents` | packages/archive/src/index.ts:233-279 | the manifest holds the case's data, every file once in path order with hash, size, type and category, and signatures and identities by signer |
| `ArchiveRules.ManifestJsonIs` | packages/archive/src/index.ts:254-270 | the manifest's JSON by its property names |
| `ArchiveRules.PartJsonIs` | packages/archive/src/index.ts:236-242 | and that of its entries, signatures and identities |
| `ArchiveRules.BuiltHash` | packages/archive/src/index.ts:277 | the delivered hash is of the canonical JSON in UTF-8 |
| `Archive.VerifyArchivePackage` | packages/archive/src/index.ts:297-328 | verified exactly when the list of failures is empty |
| `ArchiveRules.ReportIs` | packages/archive/src/index.ts:297-328 | the report: a wrong hash or schema alone, else the messages of the file comparison |
| `ArchiveLaws.VerifiedIs` | packages/archive/src/index.ts:297-328 | no failure means: hash and schema agree, every entry describes the last file of its path, every path is listed |
| `ArchiveLaws.BuiltVerifies` | packages/archive/src/index.ts:227-328 | the verifier accepts every built package |
| `ArchiveLaws.IdentityAdded` | packages/archive/src/index.ts:140-164 | adding any identity to a case leaves the refusal as it is, or ends a missing-identity refusal when it identifies every signature that was left |
| `ArchiveLaws.StrayIdentityArchived` | packages/archive/src/index.ts:140-164 | an archivable case meets the comment's promise exactly when every identity has a signature; with an identity that has none the package is still built, lists it and verifies |
| `Ordering.SortForgetsExactly` | packages/archive/src/index.ts:266-268 | no rearrangement shows in the result of the stable sort exactly when the comparator ties no two different members |
| `ArchiveLaws.BuildForgetsOrder` | packages/archive/src/index.ts:218-279 | listing files, signatures and identities in another order never changes an error, and changes no package exactly when the collation ties no two different ones |
| `ArchiveLaws.SwappedSignaturesShow` | packages/archive/src/index.ts:266-268 | exchanging two different signatures whose signer ids tie, such as two of one signer, gives another package, in a list of any length |
| `ArchiveLaws.SwappedIdentitiesShow` | packages/archive/src/index.ts:266-268 | the same for identities |
| `ArchiveLaws.SwappedFilesShow` | packages/archive/src/index.ts:244-274 | the same for two files whose different paths the collation ties |
| `ArchiveLaws.VerifiedDescribesAll` | packages/archive/src/index.ts:312-325 | a verified delivery holds only described files exactly when each file agrees with the last one of its path |
| `ArchiveLaws.ShadowedFileVerifies` | packages/archive/src/index.ts:312-325 | any bytes pass in front of a file of the same path |
| `ArchiveLaws.OnlyBuiltVerifies` | packages/archive/src/index.ts:297-328 | if no two of the strings hashed at building and at verifying collide, only the built manifest verifies against its delivered hash, with all its files and, when no path comes twice, no others |

## Left out

- `svg`, `renderSvg` and `penalty` of the QR encoder: user interface and code that is never called; `encode` always applies mask 0.
- The UTF-8 encoding of the QR text: the encoder starts from the bytes.
- QrTables.Tables.Remainder: degrees outside 1 to 512, which no block asks for; the table look-up ends there.
- QrBits.AppendBits: values of 2^32 and more, where the shift operator would wrap; every caller passes an octet, a count up to 271 or a constant.
- WorkerPaths.SafeNamePlain: `\p{L}`, `\p{N}` and `toLowerCase` are parameters; what titles the API accepts before is not modelled.
- The text of decoder and parser exceptions, and the key named in canonical JSON's error for an undefined member.
- EvidenceVerifier.VerifyEvidenceZip: numbers of a parsed manifest are read exactly, not rounded to 64-bit floating point, and `String()` of an object ignores a `toString` property of its own.
- CanonicalJson.EncodePrintsCanon: numbers are decimal values in the shortest form that ECMAScript prints; how a 64-bit value is turned into its digits is not modelled, nor are values that are not plain data.
- RetryDelay.JitteredRetryDelaySeconds: exact reals instead of floating point.
- Allocation limits: no buffer is too large to make.
- JobRows.OnlyOwnerMoves: time is a real number that only grows, the same for all workers.
- DurableJobs.Store.ClaimDurableJobs: which claimable rows are looked at, and in which order, is the database's choice (locked rows are skipped).
- DurableJobs.ProcessClaimedJob: the heartbeat timer during the handler is one of the changes that anything may make meanwhile.
- Webhooks.Outbox.HandleWebhookDeliver: one attempt at a time, on a fixed set of endpoints; requests, signatures and response bodies are arbitrary outcomes.
- SigningWorker.Tenant.Deliver: a handler's own transactions follow each other undisturbed here; their interleaving with all others is what `SigningSafety` covers, transaction by transaction.
- SigningHandlers.DeliveredOnce: one delivery after another; that two workers do not sign one document at the same moment is left to leases and the chain guard.
- SigningSafety.RunSafe: other triggers of the database (evidence and immutability guards) can only roll further transactions back, which leaves a run of the model as it is; audit and outbox rows, storage keys and certificates are not modelled, and `evidence_packages` rows are not, so a build that finds its package ready is a step that does not happen.
- SigningRows.CompletionCommits: as far as the transition guard decides; other guards may refuse more.
- The verdicts of the validator and of the admission gate are inputs; so is the turn order that names the next signers.
- Revisions.SigningRoom.Sign: the admission gate's verdict is one of four, of which only TOTAL_PASSED makes a revision the latest.
- Revisions.NextSignature: two artifacts of one document are never inserted at the same time.
- KeyRotation.RunSafe: ciphertext is only its version number, and the counters are truthful; rollback is not a step of the run but treated by `KeyRotation.RollbackSafe`, from any safe store.
- Archive.BuildArchivePackage: error messages (codes only); `buildDescriptiveMetadata`, which is a pure expression.
- Archive.VerifyArchivePackage: a manifest of the declared type, whose numbers are natural numbers.
- HTTP routes, portals, scanners, document conversion, identity and signature services, the audit chain, privacy and retention executors, tables of permissions and messages: input and output, or members that would be easy.
