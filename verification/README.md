# A model of the Waughtal Package Manager's text, catalogue and journal kernels

This project models, in Dafny, the deterministic parts of the package manager
`wpm` and proves what its callers rely on.  Texts are C strings: one `char` per
byte and no NUL.  A cursor into a text is an index; what a scanner does is stated
about the rest of the text from that index on.

* **JSON** (`JsonGrammar`, `JsonStrings`, `JsonChecker`, `JsonFields`,
  `JsonVersion`, `JsonText`).
  RFC 8259 is given as concrete syntax trees that keep every byte, with a printer
  and a recursive reader that are proved inverse.  The state-stack checker is
  proved to accept exactly the printed trees; string tokens have a printer of their
  own, from scalar values to escapes and surrogate halves; the field lookups, the "version is
  1" test, the UTF-8 test and the string encoders are proved against the trees.
* **Catalogues** (`Strings`, `Decimal`, `Semver`, `Versions`, `Packages`, `Catalog`,
  `Publish`, `Rebuild`, `Publication`, `Sorting`).  The strict catalogue reader, SemVer
  precedence, the candidate choice, the splice of a new entry, the rebuild from
  an inventory, and publication on a disk that may fail or stop at any point.
* **Plans and journals** (`Operations`, `Drivers`, `Timestamps`, `Records`,
  `Journal`, `RoundTrip`, `Evidence`).  The plan protocol is a class whose durable effects
  form a history; an automaton says which histories an approved plan allows, and
  whole-run theorems are proved about all of them.  The printed recovery record
  is proved to be read back as what was recorded, and so is every record that an
  invocation commits, on conditions about its names, its paths and the clock.
* **Archives, links, HTTP, redaction** (`Admission`, `Indexes`, `Links`, `Https`,
  `Responses`, `Redaction`, `Credentials`).  What is read is also stated from the
  writing side: an index, a response head, a version or a number that is printed
  is read as what was printed.

Allocation is assumed to succeed.  Hashes, signature checks, path resolution,
zip lookup and the answers of the operating system are parameters or left open
(`*`), so every theorem holds for whatever they answer.

## Where the code and its description differ

* Escaped lone surrogates are refused by the grammar checker, and raw bytes from
  0x20 on are not checked for UTF-8 there; the model keeps both.
* A prerelease or build label may end in a dot.  The dot adds no identifier to
  the comparison.  The model follows the code, so accepted versions are a little
  more than those of SemVer 2.0.0.
* `wpm_operation_completed` itself does not ask whether the phase list is whole;
  that "completed" is recorded only with the whole list is a property of the
  three drivers, and is proved there.

## Model

| member | source | states |
|---|---|---|
| JsonGrammar.ParseIsPrintInverse | wpm/json_input.c:187-316 | a text is the printout of at most one well-formed tree, and the recursive reader finds exactly that one |
| JsonGrammar.ParseDecidesGrammar | wpm/json_input.c:187-316 | the reader succeeds exactly on the grammatical texts |
| JsonStrings.TokenMeans | wpm/json_input.c:60-135 | a token printed from plain bytes, short escapes, escaped scalars and surrogate pairs decodes to what they stand for, with digits in either case |
| JsonStrings.TokenIsPrinted | wpm/json_input.c:37-145 | the accepted string tokens are exactly the printed ones |
| JsonStrings.Utf8CarriesScalar | wpm/json_input.c:95-118 | the decoded bytes carry the scalar value in their payload bits, in as few bytes as it needs |
| JsonChecker.DocumentValid | wpm/json_input.c:187-316 | the iterative checker accepts exactly the texts of the recursive grammar; the stack index stays inside the array it is given, and every round consumes a byte |
| JsonChecker.CheckStates | wpm/json_input.c:196-316 | the state loop agrees with the recursive reading of what the stack still expects |
| JsonChecker.Punctuation | wpm/json_input.c:208-262 | one punctuation step keeps what the stack still expects, and rejects only what cannot be completed |
| JsonChecker.ValueRound | wpm/json_input.c:263-313 | one value step pushes for an opening bracket and otherwise consumes one scalar, with the same meaning |
| JsonChecker.ReadHex4 | wpm/json_input.c:15-36 | the value of four hexadecimal digits, or refusal |
| JsonChecker.ReadChar | wpm/json_input.c:60-135 | one string character with escapes and surrogate pairs, decoded to UTF-8 |
| JsonChecker.ReadString | wpm/json_input.c:37-145 | decodes exactly the string tokens whose text fits the buffer; a refusal leaves the cursor |
| JsonChecker.Space | wpm/json_input.c:9-14 | stops behind the longest run of white space |
| JsonFields.ValueEnd | wpm/json_input.c:146-177 | the delimiter scan computes its recursive description |
| JsonFields.ValueEndStops | wpm/json_input.c:146-177 | on any well-formed value the scan stops at that value's own delimiter |
| JsonFields.SkimValue | wpm/json_input.c:146-177 | the scan passes over a whole value at any depth |
| JsonFields.Content | wpm/json_input.c:178-185 | skips the byte order mark and white space |
| JsonFields.Field | wpm/json_input.c:318-349 | the value of the first member whose decoded key is the name |
| JsonFields.UniqueField | wpm/json_input.c:411-445 | the value of the only such member, and nothing when there are none or several |
| JsonFields.KeyInIsDecoded | wpm/json_input.c:418-440 | for nonempty names that fit the key buffer the lookup compares decoded keys exactly |
| JsonVersion.VersionOne | wpm/json_input.c:350-409 | succeeds exactly when the first root "version" is a number token of exact value 1 |
| JsonVersion.OneByDigits | wpm/json_input.c:350-409 | the digit and exponent test decides the exact value, and the exponent cut-off refuses no token equal to 1 |
| JsonVersion.ExponentAt | wpm/json_input.c:385-402 | reads an exponent, refusing exactly those beyond 4 MiB |
| Decimal.ReadDecimal | wpm/json_input.c:393-400 | accumulates a digit run and gives up exactly when its value exceeds the limit |
| JsonText.Utf8Valid | wpm/json_output.c:85-125 | the byte-wise recogniser |
| JsonText.Utf8IsRfc3629 | wpm/json_output.c:85-125 | it accepts exactly the UTF-8 texts of section 4 of RFC 3629 without NUL |
| JsonText.DecodedIsUtf8 | wpm/json_input.c:37-145 | every string decoded from a UTF-8 text is UTF-8 |
| JsonText.EncodeString | wpm/json_output.c:127-174 | encodes the redacted text within 6n+3 bytes, and fails exactly when that text is too long or not UTF-8 |
| JsonText.EncodingRoundTrip | wpm/json_output.c:127-174 | the encoded string decodes to the text and is a grammatical document |
| JsonText.AuthorString | wpm/repository.c:2724-2754 | quotes a text into a bounded buffer, exactly when seven bytes stay free before every character |
| Redaction.RedactText | wpm/logging.c:324-407 | the in-place passes compute the redacted text |
| Redaction.FindProtectedField | wpm/logging.c:304-322 | the next occurrence of a field name, case-insensitively |
| Redaction.BehindLastAtIn | wpm/logging.c:365-373 | the end of the user information of an authority |
| Redaction.FieldValue | wpm/logging.c:384-397 | the span of a quoted or bare value, escapes included |
| Redaction.PlainIsKept | wpm/logging.c:324-407 | a text without control bytes, equals signs and URIs is not changed |
| Redaction.RedactionProtects | wpm/logging.c:304-407 | the result is no longer, holds no control byte but TAB, LF and CR, and every protected field in it is empty or starred |
| Credentials.NoUserInfo | wpm/logging.c:359-378 | after the second pass no "://" is followed by an authority with an "@", for every text |
| Credentials.CredentialsAreRemoved | wpm/logging.c:324-407 | so the filtered text of a message without an equals sign holds no user information |
| Credentials.MaskingCanJoin | wpm/logging.c:379-405 | in general it may: a concrete message whose masked value held the only byte that ended an authority |
| Credentials.ControlSequenceIsRemoved | wpm/logging.c:331-341 | a control sequence disappears up to its final byte, and nothing else does |
| Credentials.SystemCommandIsRemoved | wpm/logging.c:342-352 | an operating system command disappears up to its terminator |
| Redaction.MaskFieldKeeps | wpm/logging.c:355-405 | masking one field leaves the others masked |
| Semver.ReadVersion | wpm/repository.c:2027-2059 | parses exactly the accepted versions |
| Semver.CheckIdentifiers | wpm/repository.c:2004-2026 | the identifier rule, trailing dot included |
| Semver.IdentifierCompare | wpm/repository.c:2060-2096 | numeric identifiers of any length by integer value, others by bytes, numeric first |
| Semver.CompareIdentifiers | wpm/repository.c:2114-2133 | the dotted lists, item by item, then by length |
| Semver.CompareParsed | wpm/repository.c:2097-2134 | item 11 of SemVer 2.0.0 on parsed versions |
| Semver.CompareVersions | wpm/repository.c:2135-2147 | the comparison of texts, and when it is valid |
| Semver.PrecedenceTransitive | wpm/repository.c:2097-2134 | precedence is transitive, strictly where one step is strict |
| Semver.VersionOrderIsPreorder | wpm/repository.c:2135-2147 | on accepted versions the comparison is a total preorder |
| Versions.TextSays | wpm/repository.c:2027-2059 | three numbers below 2^64 printed with dots, and valid labels, are parsed to those numbers and that prerelease |
| Versions.VersionsArePrinted | wpm/repository.c:2027-2059 | the accepted versions are exactly those printouts |
| Versions.NumbersDecide | wpm/repository.c:2097-2147 | printed versions are ordered by major, then minor, then patch number, then a prerelease before its release, then the labels |
| Versions.LabelSays | wpm/repository.c:2004-2026 | a label holds exactly the identifiers printed with dots, with or without a dot at the end |
| Packages.BetterCandidate | wpm/repository.c:3939-3950 | SemVer, then priority, then lower order |
| Packages.SelectCandidate | wpm/repository.c:3952-4042 | nothing exactly when no entry is admissible, else the earliest maximal one |
| Packages.ChoiceIsMaximal | wpm/repository.c:3939-4042 | no admissible entry is native when the choice is not, or newer, of higher priority, from an earlier root or earlier in the list, in this order |
| Packages.ChoiceIgnoresOrder | wpm/repository.c:3952-4042 | on permuted catalogues the choices are equally good |
| Packages.BeatsTransitive | wpm/repository.c:3939-4042 | being preferred is a strict weak order on admissible entries |
| Catalog.AuthorEntry | wpm/repository.c:2160-2219 | accepts exactly the objects with the four required fields once each, nonempty, fitting and valid |
| Catalog.EntryFields | wpm/repository.c:2168-2215 | the member loop computes the four fields or fails when one is missing, repeated or unfit |
| Catalog.CatalogFields | wpm/repository.c:2249-2281 | true exactly when "version" and "packages" each occur once in an object root |
| Catalog.CheckDocument | wpm/repository.c:2283-2306 | the admission of a catalogue text by size, NUL, grammar, version and fields |
| Catalog.ReadEntries | wpm/repository.c:2326-2344 | the array loop reads all elements, at most 96 and no two of one identity |
| Catalog.ReadCatalog | wpm/repository.c:2308-2347 | the entries of exactly the accepted texts, and the offset of the closing bracket |
| Publish.EntryPrints | wpm/repository.c:3082-3085 | the formatted entry is the printout of an object with the four fields |
| Publish.EntryReadsBack | wpm/repository.c:3082-3085 | a printed sound entry is read back as itself |
| Publish.SpliceReadsBack | wpm/repository.c:3086-3100 | splicing a printed entry before the closing bracket gives a catalogue that reads back as the old entries and the new one |
| Publish.FormatEntry | wpm/repository.c:3073-3085 | the formatted entry; its buffers always suffice |
| Publish.AddToCatalog | wpm/repository.c:3031-3100 | succeeds exactly when the package can be added, puts the entry right before the bracket that closes the array and keeps every old byte, and the new text reads back as old entries plus the new one |
| Publish.EntryRoom | wpm/repository.c:2984-2984 | no package that fits its fields exceeds the four buffers |
| Rebuild.AuthorIndexOrder | wpm/repository.c:2756-2769 | the comparator is the lexicographic order it stands for |
| Rebuild.IndexOrderChained | wpm/repository.c:2756-2769 | that order is transitive |
| Rebuild.SortedIsUnique | wpm/repository.c:2756-2769 | on an inventory without duplicates two sorted arrangements are equal |
| Rebuild.NewestFirst | wpm/repository.c:2756-2769 | the sorted list goes up by name and architecture and from the newest version down |
| Rebuild.RebuildCatalog | wpm/repository.c:2831-2921 | the rebuilt text, when it fits; it reads back as the sorted inventory, keeps the text around the array, and "already current" means equal bytes |
| Rebuild.WriteList | wpm/repository.c:2884-2913 | the writing loop, which fails exactly when the text would exceed 4 MiB |
| Rebuild.RebuildIsIdempotent | wpm/repository.c:2884-2921 | rebuilding from its own output reproduces it byte for byte |
| Rebuild.RebuildIgnoresEnumeration | wpm/repository.c:2831-2921 | the text is the same for every order of directory enumeration |
| Publication.AddPackage | wpm/repository.c:2978-3169 | every state a stop may leave is the old repository or the published one, whose index is the old text with the entry spliced in byte for byte; if the listed archives were present, they are in every such state; success means published, failure and dry runs keep everything; a dry run succeeds exactly when the package may be added |
| Publication.PlanAddition | wpm/repository.c:2996-3100 | a plan is made exactly when the index reads, its archives are there and valid, the entry is new and fits, and nothing stands in the way |
| Publication.PublishArchive | wpm/repository.c:3128-3150 | copy, rename and re-hash: the archive is in place with the content its name tells, or nothing listed has changed |
| Publication.PublishIndex | wpm/repository.c:3151-3169 | the index holds the new text, spliced into the old one, or is not changed at all; no state lies between |
| Publication.SafeIsPresent | wpm/repository.c:3128-3169 | in every state since the start each archive the index of that state lists is present |
| Publication.PublishedIsPresent | wpm/repository.c:3128-3169 | so also in the published one, where the new archive lies where its entry points |
| Sorting.Sort | wpm/repository.c:2880-2880 | the library sort as used: an ordered permutation |
| Sorting.BinarySearch | wpm/archive.c:2177-2185 | finds an equal element exactly when there is one |
| Operations.Operation.constructor | wpm/operation.c:571-577 | begins an empty collection |
| Operations.Operation.Archive | wpm/operation.c:644-733 | collects a plan with a new target, or starts the one unused plan that matches in the approved state, when no other plan matches, or changes nothing |
| Operations.CollectedMatches | wpm/operation.c:713-730 | a collected plan matches the same call exactly when the same file with the same content is found again |
| Operations.Operation.Confirm | wpm/operation.c:735-843 | when a plan is approved, cancelled or invalidated, and that only approval enters execution |
| Operations.Operation.BeforeScript | wpm/operation.c:845-860 | when a script may run; the check is part of the history |
| Operations.Operation.ExternalStart | wpm/operation.c:862-872 | the uncertainty is part of the record written before the call returns |
| Operations.Operation.ScriptResult | wpm/operation.c:874-888 | a failing exit marks and records the item as failed, a zero exit finishes the phase |
| Operations.Operation.PhaseStart | wpm/operation.c:890-900 | what is written, or refused |
| Operations.Operation.PhaseFinish | wpm/operation.c:1032-1047 | only the phase on record can be finished, and it is appended |
| Operations.Operation.Completed | wpm/operation.c:1049-1067 | the final record, the new controlled state and the release of the item, or none of them |
| Operations.Operation.CloseOperation | wpm/operation.c:550-569 | an item in execution gets a last "failed" record unless its journal has failed |
| Operations.Operation.JournalWrite | wpm/operation.c:102-291 | one record of the item as it stands is committed, or the item is blocked for good |
| Operations.Operation.RetainInput | wpm/operation.c:293-362 | the input is retained, or the failure is recorded |
| Operations.Operation.SetReadOnly | wpm/capability.c:6-10 | from then on nothing is committed |
| Operations.ApprovedIsDistinct | wpm/operation.c:665-672 | in every history no two approved plans have one action and archive |
| Operations.StartsAreSerial | wpm/operation.c:653-733 | in every history each item runs at most once, is an approved one, differs in target from every other one that runs, and the next starts only after it completed |
| Operations.StartsInKnownState | wpm/operation.c:713-715 | an item starts only in the controlled state of approval or of the last completion |
| Operations.ScriptsAreChecked | wpm/operation.c:845-860 | in every history a script process is preceded, since its item started, by a check that found the approved input and the state of the start |
| Operations.CommitsAreCurrent | wpm/operation.c:102-291 | records and processes belong to the running item and carry the plan and the plan digest that were approved |
| Operations.FailedCommitIsFinal | wpm/operation.c:277-290 | after one failed commit nothing more is committed, completed or started |
| Operations.ReadOnlyNeverCommits | wpm/capability.c:4-19 | a read-only invocation commits nothing and approves nothing |
| Operations.NothingBeforeApproval | wpm/operation.c:735-843 | nothing runs or is recorded before approval |
| Operations.WrittenFaithful | wpm/operation.c:102-291 | writing a record of a tracked item keeps all records honest |
| Drivers.Deploy | wpm/archive.c:3620-3804 | an install or upgrade ends with the whole phase list on record, its script having run once and ended well if the package has one and not otherwise, or stops with honest records and blocks what follows |
| Drivers.DeployPhases | wpm/archive.c:4094-4212 | the phase order of install and upgrade |
| Drivers.Remove | wpm/archive.c:4221-4368 | the same for removal |
| Drivers.ScheduleSelfUpgrade | wpm/archive.c:3847-4063 | the handoff process is created, and recorded as pending with the uncertainty |
| Drivers.RunPackageScript | wpm/archive.c:3198-3425 | a script that exists is run exactly once, after the check and with the uncertainty on record, and its phase is finished only on exit code 0; a missing script finishes the phase without a process |
| Drivers.Dispatch | wpm/repository.c:4382-4482 | any list of commands keeps the records honest; when all succeed, exactly their items have completed, in order, with exactly the existing scripts run, or while collecting exactly their plans are added |
| Drivers.Invocation | wpm/wpm.c:2210-2223 | any invocation's history is authorised and its records are faithful, whatever the two dispatches select; what is approved has the planned actions and the digest of the plans and state; success means that every executed command has its completion and script run, or that nothing was approved; a dry run leaves no trace |
| Drivers.OneApproval | wpm/operation.c:735-843 | a history holds at most one approval |
| Drivers.ProcessesAreAnnounced | wpm/archive.c:3328-3330 | no script or handoff process exists before a record says that external state may change |
| Drivers.RecordsGrow | wpm/operation.c:102-291 | later records of an item never take back phases or uncertainty, and a final record is the last |
| Drivers.LastRecordIsHonest | wpm/operation.c:1032-1067 | the last record names a prefix of the action's phases, and is "completed" only with all of them |
| Drivers.UncertaintyStays | wpm/archive.c:3328-3330 | the last record of an item that ran a process says that external state may have changed |
| Drivers.CompletionStays | wpm/operation.c:1049-1067 | the last record of an item that completed is its final one and tells exactly whether a process was created for it |
| Timestamps.RecordTime | wpm/recovery_record.c:97-129 | accepts exactly the fixed-width stamps of real Gregorian times from year 1 on |
| Timestamps.StampInverse | wpm/operation.c:69-75 | a stamp says its moment, and nothing else does |
| Timestamps.StampOrder | wpm/recovery_record.c:230-230 | on stamps byte order is the order by elapsed milliseconds |
| Timestamps.TimeOrder | wpm/recovery_record.c:230-230 | so the created/updated comparison is one of time |
| Timestamps.DaysInClosedForm | wpm/recovery_record.c:97-129 | the calendar has a leap day every fourth year, but of the centuries only every fourth |
| Records.RecordParse | wpm/recovery_record.c:173-289 | on every text, the record of a valid UTF-8 document that meets all conditions, else nothing |
| Records.RecordString | wpm/recovery_record.c:70-82 | the only member with the key: a fitting nonempty string, or null where allowed |
| Records.RecordBool | wpm/recovery_record.c:84-95 | the only member with the key, when it is true or false |
| Records.WordIsValue | wpm/recovery_record.c:65-95 | a literal before a delimiter is the value itself |
| Records.ReadExit | wpm/recovery_record.c:272-286 | null, or an integer below 2^32 without fraction and exponent |
| Records.ReadActions | wpm/recovery_record.c:255-266 | exactly the list of one "inspect" |
| Records.ReadArtifacts | wpm/recovery_record.c:131-171 | at most 16 objects with roles, at most one recovery input, with the record's digest and a known state |
| Journal.PrintRecord | wpm/operation.c:183-257 | the written document is the printout of the record's tree, and is written exactly when every text can be encoded |
| Journal.HexTextSays | wpm/operation.c:181-182 | two digits a byte, the high one first: the printed digits name every byte |
| RoundTrip.DigestIsReadBack | wpm/operation.c:181-246 | the digest that is read back, taken as hexadecimal, is the recorded fingerprint |
| RoundTrip.PhasesAreWritten | wpm/operation.c:248-254 | the document lists the completed phases in order |
| RoundTrip.LocationIsWritten | wpm/operation.c:230-246 | the document names the location of the retained input |
| RoundTrip.PrintedIsRead | wpm/recovery_record.c:173-289 | the reader finds in a printed record exactly what was recorded |
| RoundTrip.PrintedIsUtf8 | wpm/operation.c:183-257 | the printed record is UTF-8 without NUL |
| RoundTrip.RecordRoundTrip | wpm/operation.c:183-257 | for every recordable item whose texts redaction keeps, printing and reading yield the same fields |
| RoundTrip.RetainedPath | wpm/recovery_record.c:434-457 | accepts exactly the canonical relative path |
| RoundTrip.RetainedIsCanonical | wpm/recovery_record.c:434-457 | a printed record's relative path is that one |
| Evidence.RecordsAreReadBack | wpm/operation.c:183-257 | every record that any invocation commits is read back as what was recorded, if the plans fit their buffers, redaction keeps their names and paths, and the clock does not go back |
| Evidence.LastRecordIsReadBack | wpm/recovery_record.c:173-289 | so the file left for an item reads as its last record |
| Evidence.UncertaintyIsReadBack | wpm/archive.c:3328-3330 | whenever a process was created for an item, the reader finds in its file that external state may have changed |
| Evidence.CompletionIsReadBack | wpm/recovery_record.c:173-289 | the reader finds "completed" only when every phase of the action was recorded |
| Evidence.FinalIsReadBack | wpm/operation.c:1049-1067 | the reader finds a final status for every item that completed, and the uncertainty exactly when a process was created for it |
| Evidence.VersionIsOrdinary | wpm/repository.c:2027-2059 | an accepted version holds nothing that redaction or the encoder would change |
| Admission.ValidateArchive | wpm/archive.c:2615-2799 | accepts exactly the archives that meet all conditions on index, entries and names |
| Admission.AcceptedIsIndexed | wpm/archive.c:2640-2785 | in an accepted signed and indexed archive every file but the metadata has exactly one row up to case, with its own size and hash |
| Indexes.IndexSays | wpm/archive.c:2643-2693 | the header and printed rows, in the order filename, size, hash, algorithm, are read as those rows |
| Indexes.IndexedIsAccepted | wpm/archive.c:2615-2799 | a trusted archive within the limits, with safe and distinct names and readable files, whose index prints one row with its own size and hash for every file, is accepted |
| Indexes.UnindexedIsAccepted | wpm/archive.c:2725-2799 | without an index a trusted archive is accepted exactly when its names are safe and distinct and its files readable |
| Admission.ClimbsMeans | wpm/archive.c:1924-1935 | a path is refused for climbing exactly when ".." is one of its segments |
| Admission.AcceptedIsUnambiguous | wpm/archive.c:2736-2785 | no two entries coincide after separator and case folding, paths are safe and files readable |
| Admission.ReadIndex | wpm/archive.c:2643-2724 | the line loop reads and verifies all rows or fails |
| Admission.Contains | wpm/archive.c:2177-2185 | the search under the sort's order finds exactly the names present up to case |
| Admission.IsSafePath | wpm/archive.c:1917-1938 | no absolute path, no colon, no ".." segment |
| Links.Resolver.LoadEntries | wpm/repository.c:3337-3380 | at most 32 roots, each at its place, all admissible links followed unless the list is full, and the entries are the first 96 of all roots in order |
| Links.Resolver.AppendLink | wpm/repository.c:1934-1968 | a root is appended exactly when the link is admissible, new up to case and there is room |
| Links.LinkKeepsTransport | wpm/repository.c:1909-1930 | a link keeps the transport class, and over http the origin |
| Links.RelativeStaysBelow | wpm/repository.c:1909-1930 | a relative link leads to the path it names below its root |
| Links.PlainMeans | wpm/repository.c:1884-1908 | a relative item is plain exactly when no segment of it is empty, "." or ".." |
| Links.TransportIsInherited | wpm/repository.c:1934-1968 | every appended root has transport, priority and opt-in of the root that links it, and over http its origin |
| Links.TransportIsConfigured | wpm/repository.c:1909-1968 | whatever is reached has the transport, priority and opt-in of one configured root, and over http its origin |
| Links.ListIsClosed | wpm/repository.c:3337-3380 | below capacity the list is closed under admissible links of readable indexes |
| Links.EntriesNameTheirRoot | wpm/repository.c:1644-1651 | every entry's order names the root that lists it |
| Https.Number | wpm/https.c:105-129 | exactly the nonempty digit strings of value below 2^64 |
| Responses.NumberSays | wpm/https.c:105-129 | every number below 2^64, printed in decimal or hexadecimal in either case, is read as that number |
| Https.Connection.Read | wpm/https.c:408-437 | a nonempty prefix of what remains, or the kind of end |
| Https.Line | wpm/https.c:439-462 | the next line of the bytes within the budget, however they are cut |
| Https.Field | wpm/https.c:464-484 | token name and trimmed value, or refusal |
| Https.Headers | wpm/https.c:486-549 | the final head behind interim ones, from the bytes alone |
| Https.HeadIsFinal | wpm/https.c:531-546 | an accepted head has a final status and frames the body in at most one way |
| Responses.HeadSays | wpm/https.c:486-549 | a printed final head is read as its status and what its fields say |
| Responses.LengthFrames | wpm/https.c:514-519 | with one length field the body is the following bytes of that number |
| Responses.ChunkedFrames | wpm/https.c:520-525 | with one field naming the chunked coding the body is decoded as chunks |
| Responses.CloseFrames | wpm/https.c:591-607 | without either the body is all up to the end of the stream, complete only if the peer announced it |
| Https.Sink.Write | wpm/https.c:609-613 | a write appends all bytes without overflow of the count, or fails with a part of them |
| Https.Copy | wpm/https.c:589-619 | the copy loop writes what the bound allows of the bytes, in whatever pieces they come |
| Https.Body | wpm/https.c:551-624 | while every write succeeds, success and output depend only on the bytes and on how the stream ends; a failing write ends the body with a prefix of that output |
| Https.ChunkedRoundTrip | wpm/https.c:561-623 | decoding any encoded chunk sequence writes exactly the payload |
| Https.LengthIsPrefix | wpm/https.c:591-619 | with a length exactly that prefix is written, or the body fails |

## Left out

- Win32 handles, reparse and link checks, locks, retries and the exclusive publication lock: a file operation is one step that may fail, and nothing else writes meanwhile.
- libsodium, zlib-ng, minizip and Mbed TLS: hash, signature check, zip lookup and decrypted stream are parameters.  Zip lookup is any lookup that finds an entry of the asked name up to separators and case.
- Console output, progress bars, event texts, help and command-line parsing.
- `parse_index` on malformed package objects: `Links` takes the packages and links of an index as given.
- Calls on an inactive plan inside the phase drivers: `Drivers` models the plan-driven mode; the single calls in `Operations` cover both.
- Drivers.Dispatch: which packages a command selects is left open, in each of the two dispatches.
- Operations.Operation.Publish: the directory guard, the identity test of the existing record and the atomic replacement are one step that may fail before or after the record is durable.
- Journal.PrintRecord: the time stamps are arguments; that a record's size stays under the reader's 64 KiB limit is not claimed.
- RoundTrip.RecordRoundTrip: that redaction keeps each printed text is a condition, as the source promises the round trip only for such texts.
- Evidence.RecordsAreReadBack: for the package name and the three paths of a plan that condition remains; for all other texts of a record it is proved.
- Https.ChunkedRoundTrip: white space between a chunk size and its extension, which the code refuses, is outside the encoded form.
- Redaction.RedactionProtects: that the final text holds no URI user information is false in general, because the field pass runs after the URI pass (Credentials.MaskingCanJoin); it is proved for messages without an equals sign.
- Semver.ReadVersion: exact acceptance of SemVer 2.0.0 is not claimed, because of the trailing dot.
- Publication.AddPackage: validation of listed archives is a parameter, and `index_file` signatures beside the catalogue are not part of this model.
- The repository and prerelease configuration files, the recovery audit reader, cache refresh and the self-upgrade staging are not part of this model.
