# Cached GPP Password check, modelled in Dafny

This project models the `CachedGPPPassword` check of SharpUp. The check looks in the local Group
Policy history cache for Group Policy Preference XML files (`Groups.xml`, `Services.xml`,
`Scheduledtasks.xml`, `DataSources.xml`, `Printers.xml`, `Drives.xml`). For each named file whose text
contains `cpassword`, it sets the vulnerable flag, recovers the password and records one detail
line, until the first exception ends the scan. The password is
encrypted with AES-256 under a key that Microsoft published, so anyone can decrypt it.

The model follows the C# class:

- `Outcomes`: `Option`, `Result`, and the exceptions reading a record can raise (`Fault`).
- `Strings`: ordinal `String.Contains`, plus lemmas about occurrences across a join.
- `SchemaRegistry`: the name filter and the first-match branch chain (`Classify`). It also holds the
  per-schema XPaths and attribute names (`DescriptorOf`).
- `CipherDecoder`: the padding repair of `DecryptGPP` (`FixPadding`), the fixed key and IV, and
  the decode/decrypt pipeline. Base64, AES-CBC and UTF-16LE decoding are parameters.
- `ExtractionEngine`: node selection, the attribute `foreach` loops as methods with loop
  invariants, the `[BLANK]` sentinel, and conditional decryption. `ReadRecord` is proved equal to
  the function `ExtractRecord`.
- `ResultAggregator`: the detail-line format, and a reader that inverts it for records whose
  fields contain no `|`.
- `CachedGppPasswordCheck`: the scan root, the per-file outcome, and the scan as a state
  machine (`Step`/`Run`). It also has a file-by-file reference reading (`Scan`) and the class
  `CachedGppPassword`, whose constructor runs the loop. The loop invariant ties the fields to
  `Run` over the files done so far, and the constructor's postcondition ties them to `Check`.

Three behaviours of the code shape the model:

- One `try`/`catch` wraps the whole loop (CachedGPPPassword.cs:18-233), so the first exception
  ends the scan: a load failure, a missing node, a base64 failure or an AES failure. Details
  already added are kept, and `_isVulnerable` stays set if that file had already raised it.
  `ScanFailureTruncates` and `LoadFailureHidesLaterFiles` state this.
- The kind is chosen with `Contains` anywhere in the path, not by the path's ending.
- The password field is not covered by the `[BLANK]` rule: a non-empty `cpassword` that decrypts
  to empty text shows as an empty field (`EmptyPlaintextShowsEmpty`). The user name, the new name
  and the timestamp are never empty.

Outside code is given as parameters:

- the `ALLUSERSPROFILE` value, as an `Option` (`None` when it is unset);
- `FindFiles`, as a function from root and pattern to a file list;
- `XmlDocument.Load`, as a function from path to an optional document;
- the crypto routines, in `CryptoLib`.

The `VulnerabilityCheck` base class is not part of this model. The model assumes it starts with
`_isVulnerable` false and `_details` empty.

## Model

| member | source | states |
|---|---|---|
| `SchemaRegistry.IsCandidate` | SharpUp/Checks/CachedGPPPassword.cs:33-35 | a path passes the filter iff the name of one of the six kinds occurs in it |
| `SchemaRegistry.NamedPathHasKind` | SharpUp/Checks/CachedGPPPassword.cs:33-35 | the six names the filter tests are exactly the names of the six kinds |
| `SchemaRegistry.Dispatch` | SharpUp/Checks/CachedGPPPassword.cs:54-200 | the chosen branch's name occurs in the path unless it is the Drives fall-through, and a path naming `Groups.xml` always takes the Groups branch |
| `CachedGppPasswordCheck.ScanRoot` | SharpUp/Checks/CachedGPPPassword.cs:20-26 | the root starts with the profile value and ends with `\Microsoft\Group Policy\History`; `\Application Data` comes in between exactly when the profile lacks `ProgramData` |
| `CachedGppPasswordCheck.ScanRootKeepsProgramData` | SharpUp/Checks/CachedGPPPassword.cs:20-26 | the root contains `ProgramData` if and only if the profile value does |
| `SchemaRegistry.Classify` | SharpUp/Checks/CachedGPPPassword.cs:33-37 | a path is skipped iff none of the six exact names occurs in it; otherwise the chosen kind's name occurs and no earlier kind's name does |
| `SchemaRegistry.DispatchIsFirstMatch` | SharpUp/Checks/CachedGPPPassword.cs:54-200 | the branch chain picks kind k iff every earlier kind's name is absent and, unless k is the Drives fall-through, k's name is present |
| `SchemaRegistry.DispatchNameOccurs` | SharpUp/Checks/CachedGPPPassword.cs:54-200 | the chosen branch's name occurs (except for Drives) and all earlier names are absent |
| `SchemaRegistry.SoleNameDecides` | SharpUp/Checks/CachedGPPPassword.cs:33-200 | a path containing only one kind's file name is classified as that kind |
| `SchemaRegistry.GroupsBeatsPrinters` | SharpUp/Checks/CachedGPPPassword.cs:54-81 | a path containing both `Printers.xml` and `Groups.xml` is handled as Groups |
| `SchemaRegistry.DescriptorOf` | SharpUp/Checks/CachedGPPPassword.cs:54-200 | each schema selects the first `Properties` node under any of its entry nodes and, independently, the first entry node (which need not be that node's parent); the `Properties` path is the entry path plus `/Properties`, and only Groups has a rename attribute |
| `ExtractionEngine.SelectSingleNode` | SharpUp/Checks/CachedGPPPassword.cs:56-57 | an XPath selects a null node iff the document has no such node, and otherwise that node's attributes |
| `ExtractionEngine.LastValue` | SharpUp/Checks/CachedGPPPassword.cs:58-79 | a field read by the attribute loop is either "" or the value of some attribute with exactly its name |
| `ExtractionEngine.LastValueAbsent` | SharpUp/Checks/CachedGPPPassword.cs:58-79 | a field stays "" when no attribute has exactly its name |
| `ExtractionEngine.LastValueIsLastMatch` | SharpUp/Checks/CachedGPPPassword.cs:58-79 | otherwise the field holds the value of the last attribute with that name |
| `ExtractionEngine.ReadProperties` | SharpUp/Checks/CachedGPPPassword.cs:58-72 | one pass over the `Properties` attributes leaves each of `cPassword`, the identity field and (Groups only) `NewName` equal to the last value under its exact name, or "" |
| `ExtractionEngine.ReadChanged` | SharpUp/Checks/CachedGPPPassword.cs:73-79 | the pass over the entry node leaves `Changed` equal to the last `changed` value, or "" |
| `ExtractionEngine.ReadRecord` | SharpUp/Checks/CachedGPPPassword.cs:54-225 | node selection, the loops, normalisation and decryption give exactly `ExtractRecord`, including `NullNode` for a missing node and the decryption's faults |
| `ExtractionEngine.ExtractRecord` | SharpUp/Checks/CachedGPPPassword.cs:54-225 | a missing entry or `Properties` node raises the null-node fault; a decryption fault arises only for a non-empty `cpassword`; a produced record has non-empty user name, new name and timestamp |
| `ExtractionEngine.ExtractedIdentity` | SharpUp/Checks/CachedGPPPassword.cs:54-200 | the user name is read from `userName`, `accountName`, `runAs` or `username` according to the kind, the Groups new name from `newName`, both in the first `Properties` node, and `changed` from the first entry node |
| `ExtractionEngine.Blank` | SharpUp/Checks/CachedGPPPassword.cs:202-225 | an empty value becomes `[BLANK]`, and a non-empty value passes through unchanged, so the result is never empty |
| `ExtractionEngine.MissingFieldsShowBlank` | SharpUp/Checks/CachedGPPPassword.cs:58-225 | a user-name or `changed` attribute that its node does not carry shows as `[BLANK]` |
| `ExtractionEngine.NewNameBlankOutsideGroups` | SharpUp/Checks/CachedGPPPassword.cs:68-210 | for every kind but Groups the new name is `[BLANK]` |
| `ExtractionEngine.PasswordDecryptedIffPresent` | SharpUp/Checks/CachedGPPPassword.cs:213-220 | an empty `cpassword` gives `[BLANK]` whatever the crypto library does; a non-empty one gives a record iff `DecryptGpp` succeeds, holding its result |
| `ExtractionEngine.EmptyPlaintextShowsEmpty` | SharpUp/Checks/CachedGPPPassword.cs:213-220 | a non-empty `cpassword` that decrypts to empty text shows as an empty password field |
| `CipherDecoder.FixPadding` | SharpUp/Checks/CachedGPPPassword.cs:238-253 | the length becomes a multiple of 4; remainder 0 leaves the text unchanged; remainder 1 drops exactly the last character; remainders 2 and 3 keep the text as a prefix followed only by `=` |
| `CipherDecoder.FixPaddingIdempotent` | SharpUp/Checks/CachedGPPPassword.cs:238-253 | repairing twice is repairing once |
| `CipherDecoder.FixPaddingRestoresPadding` | SharpUp/Checks/CachedGPPPassword.cs:238-253 | stripping 0 to 2 trailing `=` from a padded base64 text and repairing it gives back the original |
| `CipherDecoder.DecryptGpp` | SharpUp/Checks/CachedGPPPassword.cs:236-268 | decryption fails only with a base64 or an AES fault: the base64 fault exactly when the repaired text does not decode, the AES fault exactly when AES under `GppKey` and `ZeroIv` rejects the decoded bytes; a success is the UTF-16 decoding of that AES output |
| `CipherDecoder.DecryptGppUsesFixedKeyAndIv` | SharpUp/Checks/CachedGPPPassword.cs:255-268 | two crypto libraries that agree on decoding the repaired text, on AES under the fixed key and IV, and on UTF-16 decoding give the same result |
| `CipherDecoder.DecryptGppSeesRepairOnly` | SharpUp/Checks/CachedGPPPassword.cs:236-268 | decryption depends only on the repaired text: fields with the same repair decrypt alike |
| `CipherDecoder.CipherConstants` | SharpUp/Checks/CachedGPPPassword.cs:259-262 | the key is 32 bytes and the IV is 16 zero bytes |
| `ResultAggregator.FormatLine` | SharpUp/Checks/CachedGPPPassword.cs:227 | the line is the four fields plus 48 characters of labels, and starts with `UserName: ` followed by the user name |
| `ResultAggregator.ParseFormatRoundTrip` | SharpUp/Checks/CachedGPPPassword.cs:227 | a detail line in the fixed four-field format reads back as its record when no field contains the bar separator |
| `ResultAggregator.FormatLineInjective` | SharpUp/Checks/CachedGPPPassword.cs:227 | two bar-free records with the same line are equal |
| `CachedGppPasswordCheck.ProcessFile` | SharpUp/Checks/CachedGPPPassword.cs:33-227 | a file the filter rejects is skipped; a named file that does not load fails before the flag is set; a named, loaded file whose `InnerXml` lacks `cpassword` is skipped, so it neither raises the flag nor ends the scan; a line or a failure after the flag needs a loaded document whose text contains `cpassword`; conversely such a named, loaded file always raises the flag, and emits exactly when its record is extracted, the line being `FormatLine` of that record |
| `CachedGppPasswordCheck.Step` | SharpUp/Checks/CachedGPPPassword.cs:31-233 | after an exception nothing changes; otherwise one iteration keeps the old lines as a prefix, adds at most one, and never lowers the flag |
| `CachedGppPasswordCheck.Run` | SharpUp/Checks/CachedGPPPassword.cs:31-233 | the loop keeps the lines it started with as a prefix, adds at most one line per file, and never lowers the flag |
| `CachedGppPasswordCheck.Scan` | SharpUp/Checks/CachedGPPPassword.cs:31-233 | there are no more detail lines than files, and any detail line means the flag is set |
| `CachedGppPasswordCheck.Check` | SharpUp/Checks/CachedGPPPassword.cs:15-234 | an unset profile reports nothing and not vulnerable; a set profile reports the scan, with the check's own file processing, of the `*.xml` files found under `ScanRoot` of the profile; any detail line means the flag is set |
| `CachedGppPasswordCheck.AbortedRunIsFinal` | SharpUp/Checks/CachedGPPPassword.cs:230-233 | once an exception has ended the scan, further files change nothing |
| `CachedGppPasswordCheck.RunSplit` | SharpUp/Checks/CachedGPPPassword.cs:31-228 | scanning a prefix and then the rest is scanning the whole list |
| `CachedGppPasswordCheck.RunExtend` | SharpUp/Checks/CachedGPPPassword.cs:31-228 | one more file is one more loop iteration |
| `CachedGppPasswordCheck.RunStopsAtAbort` | SharpUp/Checks/CachedGPPPassword.cs:18-233 | if the scan aborts within the first i files, the files after them are ignored |
| `CachedGppPasswordCheck.RunMatchesScan` | SharpUp/Checks/CachedGPPPassword.cs:31-228 | the loop's state machine and the file-by-file reference give the same flag and the same lines |
| `CachedGppPasswordCheck.ScanConcat` | SharpUp/Checks/CachedGPPPassword.cs:31-228 | lines come in file order: if no file of `a` fails, the lines for `a + b` are `a`'s lines followed by `b`'s |
| `CachedGppPasswordCheck.ScanFailureTruncates` | SharpUp/Checks/CachedGPPPassword.cs:18-233 | the first failing file keeps the earlier lines and drops all later ones; the flag stays raised if an earlier file raised it or the failure came after line 49 |
| `CachedGppPasswordCheck.EmittedLineIsRecord` | SharpUp/Checks/CachedGPPPassword.cs:202-227 | a line a file emits is the formatted form of a record with non-empty user name, new name and timestamp |
| `CachedGppPasswordCheck.RaisingFileIsReported` | SharpUp/Checks/CachedGPPPassword.cs:31-233 | a file that emits or fails after raising the flag, with no failure before it, leaves the report vulnerable, and its emitted line is in the report |
| `CachedGppPasswordCheck.ReachedFileIsReported` | SharpUp/Checks/CachedGPPPassword.cs:31-227 | a named, loaded file whose `InnerXml` contains `cpassword`, with no failure before it, makes the check vulnerable, and its line is reported when its record is extracted |
| `CachedGppPasswordCheck.ScanLinesAreEmitted` | SharpUp/Checks/CachedGPPPassword.cs:31-228 | if every line a file can emit is a formatted normalised record, so is every line of the report |
| `CachedGppPasswordCheck.ScanLinesComeFromFiles` | SharpUp/Checks/CachedGPPPassword.cs:31-228 | every line of the report is the line emitted by some file of the list |
| `CachedGppPasswordCheck.ScanLinesPassedFilters` | SharpUp/Checks/CachedGPPPassword.cs:31-227 | every detail line comes from a listed file that passed the name filter, loaded, and whose `InnerXml` contains `cpassword` |
| `CachedGppPasswordCheck.ScanFlagHasCause` | SharpUp/Checks/CachedGPPPassword.cs:31-49 | the flag is raised only if some file emitted a line or failed after setting the flag |
| `CachedGppPasswordCheck.ScanLinesAreRecords` | SharpUp/Checks/CachedGPPPassword.cs:202-227 | every detail line is such a formatted record |
| `CachedGppPasswordCheck.SkippedFileChangesNothing` | SharpUp/Checks/CachedGPPPassword.cs:33-38 | a file that fails the name filter leaves the flag and the details unchanged |
| `CachedGppPasswordCheck.FileOutcomeConditions` | SharpUp/Checks/CachedGPPPassword.cs:33-49 | a line is emitted only for a named, loaded file whose `InnerXml` contains `cpassword`; a failure after the flag is set leaves the flag raised and no new line |
| `CachedGppPasswordCheck.LoadFailureHidesLaterFiles` | SharpUp/Checks/CachedGPPPassword.cs:40-41 | a named file that fails to load, as the first file, ends the scan with nothing reported whatever follows |
| `CachedGppPasswordCheck.UnmarkedFileChangesNothing` | SharpUp/Checks/CachedGPPPassword.cs:43-46 | a named, loaded file whose `InnerXml` lacks `cpassword` leaves the flag, the details and the scan's progress unchanged |
| `CachedGppPasswordCheck.NothingFoundIsClean` | SharpUp/Checks/CachedGPPPassword.cs:31-46 | if every file is skipped, the check reports not vulnerable with no details |
| `CachedGppPasswordCheck.UnrelatedFilesAreClean` | SharpUp/Checks/CachedGPPPassword.cs:33-38 | a folder with none of the six names is clean |
| `CachedGppPasswordCheck.CachedGppPassword.ScanFile` | SharpUp/Checks/CachedGPPPassword.cs:31-228 | one iteration sets the flag before extracting and appends the formatted line; the new fields are one `Step` of the old ones |
| `CachedGppPasswordCheck.CachedGppPassword.constructor` | SharpUp/Checks/CachedGPPPassword.cs:15-234 | the name is `Cached GPP Password`; the flag and details are those of `Check`: nothing for an unset profile, otherwise the scan of the files found under the root |

## Left out

- XML parsing and XPath are not modelled. A loaded document is its `InnerXml` text plus, for each
  XPath, the attributes of the first node it selects. A load failure is a `None` from the loader.
- The directory walk `FindFiles` and the `ALLUSERSPROFILE` read are I/O. Both are parameters.
- Base64 decoding, AES-256-CBC decryption and UTF-16LE decoding are library code. They are opaque
  functions in `CryptoLib`, so nothing is proved about the plaintext.
- `allUsers` is a static field that the constructor extends. A second construction would add the
  suffix again. The model computes the root from the profile value on each construction and does
  not model this.
- The `VulnerabilityCheck` base class and the framework that reads `_name`, `_isVulnerable` and
  `_details` are not part of this model.
- The commented-out `Console.WriteLine` calls are not modelled.
- `FixPadding`: a Dafny `string` is a sequence of Unicode scalar values, while `cpassword.Length`,
  `Substring` and `String.Contains` count UTF-16 code units. The model differs on text holding a
  character outside the Basic Multilingual Plane, and the outcomes can differ. For `AAAA` followed
  by an emoji, the model sees length 5 and drops the whole emoji, leaving the valid base64 `AAAA`;
  .NET sees length 6, appends `==` after the surrogate pair, and `Convert.FromBase64String` throws.
  So a `cpassword` that is valid base64 followed by one such character can, in the model, decrypt,
  emit a line and let the scan go on, while the code aborts the whole scan at its `catch`.
  `Contains` on paths and document text is likewise per scalar value; it agrees with the code-unit
  search whenever the searched word, as all of them here, is ASCII.
