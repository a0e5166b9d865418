# A verified model of Rabta / Omnibus

This project models the parts of the workspace-capsule application where a mistake is silent: a text or
an archive that does not read back, a window emptied by focus mode, a continuation command that arrives
after the capsule it belonged to was replaced, a merge that loses a row. `dafny verify dfyconfig.toml`
checks it.

The model keeps the source's form. Code that changes state step by step is a class or a method with loops,
proved equal to a function of the old state; code made of expressions is functions. The properties are
then proved of those functions, for every input, every run or every reachable state.

| files | what they model |
|---|---|
| `Calculator`, `CalculatorGrammar`, `CalculatorPrecedence` | the recursive-descent calculator over an abstract number domain, its grammar, what binds how tightly |
| `CalculatorText`, `CalculatorLexing` | its tokenizer, and which texts are numbers and tokens |
| `Csv`, `CsvGrammar`, `CsvErrors`, `CsvRoundTrip`, `CsvJson` | the quote-aware CSV reader, the grammar it accepts and its complaints, the printer with its formula guard, the two JSON conversions |
| `Crc`, `CrcBits`, `CrcLaws`, `CrcDivision` | CRC-32 and the division of polynomials that defines it |
| `Zip`, `ZipLayout`, `ZipReader` | the ZIP STORE writer over byte arrays, and an independent strict reader, which checks with the division |
| `Html`, `HtmlEntities` | the HTML encoder and decoder |
| `CapsuleProtocol`, `CapsuleOutcomes`, `CapsuleRestores` | locks, generations, how operations end, the pending restore and how its continuation carries it out |
| `Session` | the session meter |
| `Json`, `Focus`, `FocusLaws` | pin merging and the focus-mode diff |
| `Tabs`, `FocusRun`, `Editor`, `Versions` | what the browser and the editor report and close, and which connector versions can |
| `FocusPhase`, `FocusSafety`, `FocusReports`, `FocusAccounts` | the reconcile of an activation over both, with failing commands, what it may close, that reports and reasons are true, and that the receipt is complete |
| `Hub`, `HubLiveness`, `HubProtocol`, `HubDelivery` | the connector registry, pending requests and pairings; the connection loop's liveness counters; what is delivered |
| `Records`, `RecordsSteps`, `RecordsLaws`, `RecordsHistory`, `RecordsFacts`, `RecordsRevisions`, `RecordStore` | the project, task, resource and pin tables with tombstones, revisions and order; what they remember and what they count |
| `PathRewrite`, `Bundle`, `BundleLaws`, `BundleArrivals`, `BundleFates` | the path rewrite over JSON and the transactional bundle merge into the record tables |
| `BundleCounts` | the counts of a merge against its review |
| `MergedRuns`, `MergedMemory`, `PinMoves`, `MergedPins` | runs that mix merges with the other record operations; what a merge does to remembered tasks and to pins |
| `Clipboard`, `ClipboardService`, `ClipboardSettings`, `ClipboardProtocol` | eviction, settings, and the revision-guarded clipboard worker |
| `ClipboardOrigins`, `ClipboardConsent` | where the texts in the history come from, and when it is collected at all |
| `Watchers`, `WatchersLaws` | the per-process auto-quit rule and the music block |
| `Reconnect` | the reconnect loops of the browser extension and of the connector library |
| `LineReader` | the streaming line reader of the agent socket |
| `Common` | options, decimals, ASCII case, JavaScript text |

## How the concurrent parts are modelled

`CapsuleProtocol`, `HubProtocol`, `ClipboardProtocol` and `Reconnect` are state machines. A step is what
happens between two points where the source awaits or takes or releases a lock; `Can` says when a step is
possible, `Do` what it does, and a run is any list of possible steps, so a theorem about all runs is about
all interleavings. Logs in the state record commits, sends, takes and outcomes; nothing else in a step
depends on them.

The classes beside them are the code of the steps. `HubState`, `History`, `Connection` and `Connector` are
proved equal to the functions the steps use. The sections of `Capsules` take several steps of the protocol
each, since the lock is waited for and taken in between: `CommittedTo`, `Abandoned` and `TakenFrom` say what
a section does, the methods are proved equal to them, and `CapsuleProtocol.CommitSection`,
`FailedCommitSection`, `RemovalSection` and `TakeSection` prove the steps equal to them too.
Outcomes the code does not decide, such as a failing write, a refused send or a timeout, are parameters of
the step and therefore arbitrary.

## Where the code and its promises differ

- A CSV grid whose last row is one empty cell loses that row, and a leading U+FEFF is not read back
  (`packages/mcp/src/utility-core.ts:106` and `:142`). `CsvRoundTrip.RoundTripExact` gives the exact
  condition; `CsvRoundTrip.BlankLastRowIsLost` and `CsvJson.LastEmptyObjectIsLost` show the loss.
- A row of CSV holds what its object inherits under a column it lacks: of `[{"constructor":"a"},{"b":"c"}]` the
  second row begins with the text of a function, and a lacking `__proto__` is refused as nested.
  `CsvJson.InheritedIsPrinted`; `CsvJson.OwnTableExactly` gives the exact condition.
- An activation can return an error after its commit, when reading the pins fails
  (`apps/desktop/src-tauri/src/capsules.rs:739-746`). `CapsuleProtocol.FailureNeutrality` says that this is
  the only way; `CapsuleProtocol.ErrorAfterCommit` is such a run.
- An archive or a deletion bumps the generation without the continuation lock, so one command may still
  end after it returned. `CapsuleProtocol.AtMostOneFinishes` and `CapsuleProtocol.OneFinishesLate`.
- The separator in a terminal's identity is a NUL that "cannot occur in either field"
  (`apps/desktop/src-tauri/src/capsules.rs:1383-1386`). JSON strings can hold one:
  `FocusLaws.TerminalIdentityExact` says that exactly those terminals have an identity of their own
  which hold none; `FocusLaws.NulConfuses` shows two that share one.
- Focus mode is never to close on a guess (`apps/desktop/src-tauri/src/capsules.rs:953-956`), but when
  reading the pins fails it goes on as if there were none, and closes what is pinned:
  `FocusSafety.UnreadPinsProtectNothing`.
- A merge moves a pin's identity as one text and its payload string by string
  (`crates/omnibus-db/src/bundle_apply.rs:372-384`), so a pinned terminal whose directory moves keeps the
  identity of the old one. Captured in its new place it is then opened twice, and a live terminal that carries
  the pinned identity can be closed. `PinMoves.PinKeepsExactly` says exactly which pins part,
  `PinMoves.ShellOpensTwice` and `PinMoves.PinnedShellIsTargeted` show it, and `MergedPins.AlwaysOwnExactly`
  says which runs are free of it. The laws of focus mode hold for such pins too: what counts is what an added
  pin opens.
- What an activation has just opened is protected under the url it was opened with: a page that redirects has
  another one and can be closed (`apps/desktop/src-tauri/src/capsules.rs:910-918` records this).
- A terminal that is a bare string in the list of live terminals has no name, so the command meant for it
  can answer for another: `FocusLaws.PinnedAnswersExactly`. The editor's own reports have none
  (`FocusSafety.TerminalKey`).
- The connector library guards its reconnect loop against ports that are no positive integers
  (`packages/connector-sdk/src/index.ts:90-99`), not against those above 65535, where the socket
  constructor throws: the loop then has neither a timer nor a socket. `Reconnect.SdkStrandedExactly`,
  `Reconnect.PortTooHighStrands`.
- `create_task` and `add_task_resource` accept a tombstoned parent. `RecordsLaws.SoundExactly` says that
  they are the only operations that can break the parent invariant, and exactly when.
- "Keep both" replaces a live local project that has the incoming project's id, since rows are inserted
  with `INSERT OR REPLACE`. `BundleLaws.KeepBothProjectExact`.
- A clip recorded while pinned entries fill the history is evicted at once, silently: the pinned ones are
  never given up for it. `ClipboardProtocol.RecordedStays`.
- A bundle that can be read is refused as a whole if a project in it that is not skipped has a negative
  position or active time, which nothing checks before the tables do. `BundleLaws.KeepBothSucceeds`,
  `BundleLaws.NegativePositionFails`.
- The review before a merge counts the tasks and resources of projects that are then skipped, and no paths
  in pins. `BundleCounts.ReviewExact` says exactly when its numbers are those of the merge;
  `BundleCounts.OnePinMoves` is a case where they are not.
- A merge takes over which task the sender's projects remember, also when that task does not come along, as in
  a bundle without capsules (`crates/omnibus-db/src/bundle.rs:299-305`). `MergedMemory.RememberedExactly`.
- A merge takes over the sender's positions, so two active projects may tie afterwards.
  `MergedRuns.MergedPositionsExact`, `MergedRuns.ReorderRepairs`.
- Rewriting paths there and back is not the identity on values that already held a path under the target
  home. `PathRewrite.RestoreExact`.

## Model

| member | source | states |
|---|---|---|
| `Calculator.Calculate` | packages/mcp/src/utility-core.ts:269-329 | The closures over the shared cursor and depth, run on any token list, end and return exactly the outcome of the recursive parser, including which error comes first |
| `Calculator.Parser.Sum` | packages/mcp/src/utility-core.ts:316-324 | The loop over + and - folds to the left, leaves the cursor on the first token it does not own, and leaves the depth as it found it unless it fails |
| `Calculator.Parser.Product` | packages/mcp/src/utility-core.ts:305-315 | The loop over * and / folds to the left; the right operand is parsed before a zero divisor is refused |
| `Calculator.Parser.Unary` | packages/mcp/src/utility-core.ts:298-304 | A sign applies to everything a further unary expression takes, so it is looser than ^ |
| `Calculator.Parser.Power` | packages/mcp/src/utility-core.ts:290-297 | ^ takes a unary expression on its right, so it groups to the right and its exponent may be signed |
| `Calculator.Parser.Atom` | packages/mcp/src/utility-core.ts:271-289 | A number or a parenthesized sum with its percent signs; the depth is counted up before anything is read, so the fortieth pair of parentheses is refused |
| `CalculatorGrammar.SumComplete` | packages/mcp/src/utility-core.ts:316-324 | Completeness: the printed tokens of any sum tree, followed by anything that cannot extend a product, parse to that tree's value in every algebra, and fail if the tree nests too deep |
| `CalculatorGrammar.SumSound` | packages/mcp/src/utility-core.ts:269-324 | Soundness: whenever the parser accepts a prefix of a token list, that prefix is the printing of a tree of the grammar with the value returned |
| `CalculatorGrammar.CalculateExact` | packages/mcp/src/utility-core.ts:261-329 | Tokens are accepted with value v if and only if they print a tree of the grammar nested less than 40 deep whose value, after the finiteness check and the rounding, is v |
| `CalculatorGrammar.CalculateTree` | packages/mcp/src/utility-core.ts:269-329 | Every printed tree gets exactly the reference answer, its error included, if it nests at most 39 pairs of parentheses, and an error otherwise |
| `CalculatorGrammar.PrintingKeepsTheExpression` | packages/mcp/src/utility-core.ts:290-324 | Every notation-free expression has a printing that needs the right parentheses and no more structure: reading its tree back gives the same expression |
| `CalculatorGrammar.CalculateExpression` | packages/mcp/src/utility-core.ts:269-329 | The calculator computes the meaning of every expression tree from its printed tokens |
| `CalculatorPrecedence.GroupingExact` | packages/mcp/src/utility-core.ts:290-324 | Three numbers and two operators: multiplication and division bind tighter than addition and subtraction, powers tighter than those; equally tight ones group from the left, powers from the right |
| `CalculatorPrecedence.SignExact` | packages/mcp/src/utility-core.ts:298-304 | A sign before a number applies to the whole power that the number begins, and otherwise to the number only |
| `CalculatorPrecedence.PercentExact` | packages/mcp/src/utility-core.ts:285-288 | A percent sign applies to the number before it only, also behind any operator |
| `CalculatorText.CalculateText` | packages/mcp/src/utility-core.ts:261-268 | Length limit, removal of white space, replacement of the typographic signs, tokenizing, then the parser |
| `CalculatorText.NumberThen` | packages/mcp/src/utility-core.ts:265-266 | Maximal munch: a numeral followed by an operator, a parenthesis or the end is matched entirely and no further |
| `CalculatorText.LexJoin` | packages/mcp/src/utility-core.ts:265-268 | Tokenizing the joined tokens gives the same tokens back |
| `CalculatorText.JoinLex` | packages/mcp/src/utility-core.ts:267-268 | Joining the tokens of an accepted text gives that text: nothing was skipped |
| `CalculatorText.TextOfExpression` | packages/mcp/src/utility-core.ts:261-329 | From characters to value: any spacing of an expression's text is worth the reference answer, or is refused if longer than 500 characters or nested too deep |
| `CalculatorText.OwnText` | packages/mcp/src/utility-core.ts:262-264 | An expression's own text, printed without spacing, is one of those |
| `CalculatorText.AcceptedText` | packages/mcp/src/utility-core.ts:261-329 | Conversely, a text with a value spells, spacing aside, some tree of the grammar worth that value |
| `CalculatorLexing.NumberExactly` | packages/mcp/src/utility-core.ts:265-266 | What the pattern takes as a number is the longest there is at that place, a number being digits with a point before, among or behind them or none, and perhaps an exponent with or without a sign; and it takes none only if there is none |
| `CalculatorLexing.LexExactly` | packages/mcp/src/utility-core.ts:265-268 | A text splits into these tokens if and only if each in turn is the longest number there, or where no number starts one of the eight signs |
| `CalculatorLexing.MissingOperatorExactly` | packages/mcp/src/utility-core.ts:325-326 | An operator is called missing exactly if the tokens begin with a sum of the grammar, shallow enough and with a value, and a number or a parenthesis follows it |
| `CalculatorLexing.RefusedExactly` | packages/mcp/src/utility-core.ts:261-268 | A text is too long exactly above 500 characters, and otherwise called wrong exactly if it is blank or splits into no tokens; the missing operator likewise |
| `Csv.ParseCsv` | packages/mcp/src/utility-core.ts:104-144 | The reader with its field, row and quoted flags, for every text: the grid or the error of the reference state machine |
| `CsvGrammar.ReadsText` | packages/mcp/src/utility-core.ts:118-143 | Every well-formed text, with any of the three line ends and any choice of quoting, is read as the cells it spells |
| `CsvGrammar.FindsText` | packages/mcp/src/utility-core.ts:118-143 | Every text the loop gets through, without being left inside quotes, is well formed: the lemma computes its cells, quoting and line ends |
| `CsvGrammar.ScanExact` | packages/mcp/src/utility-core.ts:107-143 | A grid is read from a text if and only if the text spells it: a stray quote, text behind a closing quote and an open quote are refused, and nothing else is |
| `CsvGrammar.ParseExact` | packages/mcp/src/utility-core.ts:104-144 | The same for the whole function with its limit and the stripped U+FEFF |
| `CsvErrors.ErrorsExactly` | packages/mcp/src/utility-core.ts:104-143 | Which complaint it is: more than 200,000 characters; a quote left open, if and only if the text would be accepted with a quote behind it; junk behind a quote, if and only if no text that begins with this one is accepted |
| `CsvRoundTrip.ScanGrid` | packages/mcp/src/utility-core.ts:118-143 | The reader on the printed text of any grid without empty rows gives that grid, less a final row that is one empty cell |
| `CsvRoundTrip.RoundTripExact` | packages/mcp/src/utility-core.ts:104-144 | Reading what was printed gives the grid back if and only if no row is empty, the last row is not one empty cell, the text does not start with U+FEFF, and the text is within the limit |
| `CsvRoundTrip.PrintedGridExact` | packages/mcp/src/utility-core.ts:172-185 | The same equivalence for the printer with its formula guard: the grid of guarded cells comes back |
| `CsvRoundTrip.GuardedSurvival` | packages/mcp/src/utility-core.ts:179-181 | The formula guard neither creates nor removes a lost last row |
| `CsvRoundTrip.BlankLastRowIsLost` | packages/mcp/src/utility-core.ts:142 | A final row that is one empty cell is dropped: the grid without it comes back |
| `CsvRoundTrip.GuardedCellIsNoFormula` | packages/mcp/src/utility-core.ts:180-182 | A guarded cell never begins, white space aside, with =, +, - or @; it is the cell itself unless that does, and then the cell behind an apostrophe |
| `CsvRoundTrip.NoFormulaSurvives` | packages/mcp/src/utility-core.ts:178-185 | No cell read back from printed text is a formula |
| `CsvRoundTrip.AcceptedTextNormalizes` | packages/mcp/src/utility-core.ts:104-144 | For any accepted text, printing its grid and reading again gives the same grid, exactly under the stated condition on the last row, the mark and the limit |
| `CsvJson.ReturnedCell` | packages/mcp/src/utility-core.ts:172-186 | In the object that comes back, the guarded column name holds the guarded text of the object's value, own or inherited, and there is no other key |
| `CsvJson.TableConverts` | packages/mcp/src/utility-core.ts:145-162 | A table with good headers is converted row by row to objects |
| `CsvJson.ColumnsExactly` | packages/mcp/src/utility-core.ts:171 | A name is a column if and only if some object has it as its own key; no column is repeated; and they stand in the order of their first appearance |
| `CsvJson.ObjectsRoundTrip` | packages/mcp/src/utility-core.ts:145-186 | Objects without nested cells written as CSV, from a JSON text of at most 200,000 characters, and converted back, where headers and table survive: as many objects, and in each every value of its own, guarded, under its guarded key; under the other columns what it inherits, or the empty text |
| `CsvJson.UnwrittenExactly` | packages/mcp/src/utility-core.ts:145-170 | Why objects are not written: more than 200,000 characters of JSON, none at all, or a nested value, their own or one inherited under a key that another has; each if and only if |
| `CsvJson.ObjectsExactly` | packages/mcp/src/utility-core.ts:145-162 | The reader's complaint, if it has one; no header row, an empty one or a blank name is the next, a repeated name the third, a row of another width the last; otherwise each row is an object with exactly its cells under the header names |
| `CsvJson.LastEmptyObjectIsLost` | packages/mcp/src/utility-core.ts:142-186 | With one column, a last object whose cell is empty disappears |
| `CsvJson.OwnTableExactly` | packages/mcp/src/utility-core.ts:172-185 | The table is that of the objects' own values if and only if no object lacks a column of which it inherits anything but the empty text |
| `CsvJson.InheritedIsPrinted` | packages/mcp/src/utility-core.ts:172-185 | Of two objects the second lacks a name that objects inherit, such as constructor: the inherited value's text is printed, or, if it is an object as for __proto__, the conversion is refused |
| `Crc.ComputeCrc32` | packages/mcp/src/utility-core.ts:495-502 | The byte loop with its eight shifts computes the recursively defined CRC-32 of any byte sequence |
| `CrcLaws.ShiftInjective` | packages/mcp/src/utility-core.ts:499 | One shift step is injective on 32-bit states |
| `CrcLaws.StateInjective` | packages/mcp/src/utility-core.ts:497-500 | Absorbing the same bytes keeps different states different |
| `CrcLaws.Crc32Concat` | packages/mcp/src/utility-core.ts:495-502 | The CRC of a concatenation is the CRC of the first part carried through the second |
| `CrcLaws.StateIsSerial` | packages/mcp/src/utility-core.ts:497-500 | The byte-wise loop agrees with the register that takes one message bit at a time, least significant first |
| `CrcDivision.DivisionExact` | packages/mcp/src/utility-core.ts:499 | The division used below is that of polynomials over GF(2): p is the generator times q, plus r of degree below 32, if and only if q and r are its quotient and remainder |
| `CrcDivision.Crc32IsDivision` | packages/mcp/src/utility-core.ts:495-502 | The checksum is the one section 4.4.7 of PKWARE APPNOTE.TXT names: the complemented remainder of the message, its first 32 coefficients complemented and times x^32, by the generator with the powers 32, 26, 23, 22, 16, 12, 11, 10, 8, 7, 5, 4, 2, 1 and 0; defined without machine words, the reflected constant or the shifting step |
| `CrcDivision.CheckValue` | packages/mcp/src/utility-core.ts:495-502 | The bytes of 123456789 give 0xCBF43926 |
| `CrcLaws.BurstDetected` | packages/mcp/src/utility-core.ts:495-502 | Two inputs that differ only within a window of at most four bytes have different CRCs |
| `CrcLaws.OneByteDetected` | packages/mcp/src/utility-core.ts:495-502 | Changing exactly one byte changes the CRC |
| `Zip.WriteLocalHeader` | packages/mcp/src/utility-core.ts:513-525 | The writes into the buffer produce the local header of section 4.3.7 of APPNOTE.TXT, field by field |
| `Zip.WriteCentralHeader` | packages/mcp/src/utility-core.ts:526-539 | The writes produce the central directory header of section 4.3.12, with the offset of the local header |
| `Zip.WriteEndRecord` | packages/mcp/src/utility-core.ts:545-551 | The writes produce the end record of section 4.3.16 |
| `Zip.Concatenate` | packages/mcp/src/utility-core.ts:552-557 | The copy loop with its running position fills the result with all parts in order and exactly |
| `Zip.AddFile` | packages/mcp/src/utility-core.ts:540-542 | Each turn of the loop appends header and bytes to the local parts, the entry to the central ones, and moves the offset by what it appended |
| `Zip.Assemble` | packages/mcp/src/utility-core.ts:544-558 | The central size is the sum of the entries, and the result is local parts, central parts and end record |
| `Zip.ZipFiles` | packages/mcp/src/utility-core.ts:504-558 | More than 100 files are refused; otherwise the archive of the files in order |
| `ZipReader.LocalFields` | packages/mcp/src/utility-core.ts:514-525 | Every byte of the written local header is as set, from the signature to the name, the extra length 0: no later write overlaps an earlier one |
| `ZipReader.CentralFields` | packages/mcp/src/utility-core.ts:526-539 | The same for the central header, both versions, flags and dates included, where the fields left unset read 0 |
| `ZipReader.EndFields` | packages/mcp/src/utility-core.ts:544-551 | The same for the end record, with its disk numbers and comment length 0 |
| `ZipReader.NextPart` | packages/mcp/src/utility-core.ts:540-542 | The offset stored for file i, the length of all local pieces before it, is where its own header and data start in the output |
| `ZipReader.ReadsEntry` | packages/mcp/src/utility-core.ts:504-558 | The reader at the i-th directory entry follows its offset to the i-th file, with equal sizes, names and CRC, and stops where the next entry starts |
| `ZipReader.ReadsDirectory` | packages/mcp/src/utility-core.ts:504-558 | Walking the whole directory yields all files in order |
| `ZipReader.RoundTrip` | packages/mcp/src/utility-core.ts:504-558 | For at most 100 files of any size, a reader going from end record to directory to local headers, checking every signature, size and CRC, recovers exactly the names and bytes in order if and only if every name is shorter than 2^16 bytes and the headers and data before the directory are shorter than 2^32 bytes together |
| `Html.RoundTrip` | packages/mcp/src/utility-core.ts:223-255 | Decoding the encoded text gives every text back |
| `Html.EncodedIsInert` | packages/mcp/src/utility-core.ts:223-234 | Encoded text holds none of < > " and ', and every & in it begins an entity |
| `Html.DecimalEntity` | packages/mcp/src/utility-core.ts:235-255 | A decimal reference decodes to its code point if it is a scalar value, and stays as written otherwise |
| `Html.HexEntity` | packages/mcp/src/utility-core.ts:235-255 | The same for a hexadecimal reference |
| `Html.DecodeShrinks` | packages/mcp/src/utility-core.ts:235-255 | Decoding never lengthens a text |
| `HtmlEntities.NamedEntity` | packages/mcp/src/utility-core.ts:235-246 | The five named entities, in any case, are decoded to their characters |
| `HtmlEntities.NumericEntity` | packages/mcp/src/utility-core.ts:235-253 | A numeric entity, decimal or hexadecimal with x and digits in either case and any leading zeros, is the character with that number, if it is between 1 and U+10FFFF and no surrogate; otherwise it stays as it is |
| `HtmlEntities.NothingElse` | packages/mcp/src/utility-core.ts:237 | Nothing else is taken for an entity |
| `HtmlEntities.OtherTextStays` | packages/mcp/src/utility-core.ts:235-253 | Every other character, and an ampersand with no entity behind it, stays as it is |
| `CapsuleProtocol.Invariant` | apps/desktop/src-tauri/src/capsules.rs:638-746 | Over every interleaving of heartbeat, activation, archive, deletion and continuation: lock ownership, slot generations, fencing, late commands, single consumption and failure neutrality all hold |
| `CapsuleProtocol.LockedStep` | apps/desktop/src-tauri/src/capsules.rs:643-746 | Each critical section is entered only by the holder of its lock, and every step keeps that |
| `CapsuleProtocol.SlottedStep` | apps/desktop/src-tauri/src/capsules.rs:1071-1081 | Whoever fills or empties the pending slot keeps its generation equal to the current one, except between the bump and the emptying of a commit |
| `CapsuleProtocol.FencedStep` | apps/desktop/src-tauri/src/capsules.rs:679-733 | The continuation lock keeps every check-and-send pair on one side of a commit |
| `CapsuleProtocol.ContinuationIsFenced` | apps/desktop/src-tauri/src/capsules.rs:1134-1179 | After an activation committed, no command of an older restore starts or ends, and none is in flight at the commit |
| `CapsuleProtocol.LateStep` | apps/desktop/src-tauri/src/capsules.rs:509-519 | Each step keeps the count of commands that may still start or end after a bump at one at most |
| `CapsuleProtocol.AtMostOneFinishes` | apps/desktop/src-tauri/src/capsules.rs:498-529 | After an archive or deletion bumped the generation, at most one older command starts and at most one ends |
| `CapsuleProtocol.OneFinishesLate` | apps/desktop/src-tauri/src/capsules.rs:537-575 | That bound is reached: a run in which a command ends after the removal returned |
| `CapsuleProtocol.RestoresAreTakenOnce` | apps/desktop/src-tauri/src/capsules.rs:1341-1351 | No two takes in a run concern the same pending restore |
| `CapsuleRestores.PendingWasParked` | apps/desktop/src-tauri/src/capsules.rs:1071-1081 | In every run what waits in the slot, and what the continuation works on, was parked by a step of the run: kind and commands as they are, for the generation that was current then |
| `CapsuleRestores.TakenExactly` | apps/desktop/src-tauri/src/capsules.rs:1341-1351 | A reconnecting editor is given a restore if and only if one waits that was parked for its kind, and then the slot is empty; otherwise nothing changes |
| `CapsuleRestores.RestoreIsCarriedOut` | apps/desktop/src-tauri/src/capsules.rs:1134-1179 | What the log holds between a take and the return to listening: the commands started and the commands ended are the same, in order, a front part of those the restore was parked with; they are all of them if and only if neither after the settling nor before any command a newer generation was seen, or there were none |
| `CapsuleProtocol.PendingIsNotAhead` | apps/desktop/src-tauri/src/capsules.rs:1071-1081 | The pending slot, and the restore in the continuation's hands, never carry a generation above the current one |
| `CapsuleProtocol.FailureNeutrality` | apps/desktop/src-tauri/src/capsules.rs:694-746 | A failing activation leaves active task, generation and slot as they were, consumption by the continuation aside, if and only if it did not fail reading the pins after its commit |
| `CapsuleProtocol.ErrorAfterCommit` | apps/desktop/src-tauri/src/capsules.rs:739-746 | The exception occurs: an activation that commits and then returns an error |
| `CapsuleProtocol.RemovalNeutrality` | apps/desktop/src-tauri/src/capsules.rs:580-632 | A removal leaves the shared state untouched if and only if it returns before clearing the active task |
| `CapsuleProtocol.SomeoneCanGoOn` | apps/desktop/src-tauri/src/capsules.rs:638-746 | In no reachable state of the transition, continuation and session locks, and of the task-resources lock of captured items, is everybody blocked |
| `CapsuleProtocol.EachStepIsProgress` | apps/desktop/src-tauri/src/capsules.rs:638-746 | Every step that carries on what was begun lowers a rank |
| `CapsuleProtocol.EverythingFinishes` | apps/desktop/src-tauri/src/capsules.rs:638-746 | From any reachable state, running what was begun ends with no operation open and all locks free: no deadlock |
| `CapsuleOutcomes.ActivationExactly` | apps/desktop/src-tauri/src/capsules.rs:640-746 | In every interleaving an activation that is over has returned success if and only if reading the target, both writes and reading the pins went well; its task is active and the generation one further if and only if the first three did, and otherwise both are as when it began |
| `CapsuleOutcomes.RemovalExactly` | apps/desktop/src-tauri/src/capsules.rs:580-632 | In every interleaving an archive or delete that is over has returned success if and only if writing the session and changing the rows went well; then, if the active task belonged to it and only then, nothing is active, no restore waits and the generation is one further; otherwise generation and active task are as when it began |
| `CapsuleProtocol.CommitSection` | apps/desktop/src-tauri/src/capsules.rs:694-732 | The steps from taking the transition lock to its release leave active task, slot and generation as Session.Capsules.CommitActivation does |
| `CapsuleProtocol.FailedCommitSection` | apps/desktop/src-tauri/src/capsules.rs:694-713 | When the durable write fails they leave all three alone and release the lock |
| `CapsuleProtocol.RemovalSection` | apps/desktop/src-tauri/src/capsules.rs:503-529 | The last section of an archive or deletion of what is active leaves them as Session.Capsules.ClearActive does |
| `CapsuleProtocol.TakeSection` | apps/desktop/src-tauri/src/capsules.rs:1341-1351 | A take in the protocol is Session.Capsules.TakePendingFor: the slot is emptied exactly when the kind matches, and its content goes to the continuation |
| `Session.Capsules.FlushSessionLocked` | apps/desktop/src-tauri/src/capsules.rs:318-358 | One flush: elapsed time capped at 30 s is added under the focus that held, whole seconds are written, and subtracted only if the write succeeded |
| `Session.Capsules.SessionUpdate` | apps/desktop/src-tauri/src/capsules.rs:361-374 | The flush comes first and under the previous focus; the new focus is set even when the flush failed |
| `Session.Capsules.CommitActivation` | apps/desktop/src-tauri/src/capsules.rs:694-732 | The commit section: a failed flush or begin leaves the shared state alone; success resets the meter and commits active task, slot and generation as the protocol does |
| `Session.Capsules.ClearActive` | apps/desktop/src-tauri/src/capsules.rs:509-526 | What archive and deletion reset |
| `Session.Capsules.TakePendingFor` | apps/desktop/src-tauri/src/capsules.rs:1341-1351 | The slot is emptied if and only if the kind matches, and its content is what is returned |
| `Session.SessionStore.AddActiveSeconds` | crates/omnibus-db/src/records.rs:619-640 | The seconds saturate at the largest signed 64-bit value |
| `Session.FlushBalances` | apps/desktop/src-tauri/src/capsules.rs:318-358 | A flush, failed or not, conserves stored seconds plus remainder up to the eligible time it adds; it fails if and only if a session has a whole second to write and the write fails |
| `Session.Conservation` | apps/desktop/src-tauri/src/capsules.rs:318-374 | Over every run: persisted seconds plus remainder plus what archive or deletion dropped equals the sum, taken from the calls alone, of min(elapsed, 30 s) over the intervals in which the last update said focused and not idle and a task was active, since the last commit; and never exceeds the time since then |
| `Session.MeterFollows` | apps/desktop/src-tauri/src/capsules.rs:318-374 | In every run the meter is what the calls have said: attended if and only if the last update said focused and not idle, active if and only if the last commit or clear said so, its last tick the last reading, and what it counted the eligible time of the calls |
| `Session.RemainderIsSmall` | apps/desktop/src-tauri/src/capsules.rs:337-357 | After a successful flush less than one second is unpersisted |
| `Session.ArchiveDropsLittle` | apps/desktop/src-tauri/src/capsules.rs:498-526 | An archive that flushes successfully first drops less than a second |
| `Session.NothingAccrues` | apps/desktop/src-tauri/src/capsules.rs:328-333 | After any run whose last update was unfocused or idle, or that is between sessions, a heartbeat changes neither the total nor what is due |
| `Json.FindPut` | apps/desktop/src-tauri/src/capsules.rs:1444 | Writing a key of an object changes what that key reads and no other |
| `Focus.MergePins` | apps/desktop/src-tauri/src/capsules.rs:1405-1466 | The two loops with their seen sets build the merged payload for any connector reply, whatever its shape |
| `Focus.AppendPins` | apps/desktop/src-tauri/src/capsules.rs:1434-1443 | Captured items first, then each pin of this list whose identity was not seen yet, once |
| `Focus.FindCloseTargets` | apps/desktop/src-tauri/src/capsules.rs:1481-1545 | The collected commands are the targets of each list the kind has |
| `Focus.CollectTargets` | apps/desktop/src-tauri/src/capsules.rs:1502-1540 | One list's loop: live items outside the wanted identities, less dirty files and busy terminals |
| `FocusLaws.TerminalIdentityTells` | apps/desktop/src-tauri/src/capsules.rs:1394-1396 | Two terminals whose names hold no NUL have the same identity if and only if name and directory agree |
| `FocusLaws.TerminalIdentityExact` | apps/desktop/src-tauri/src/capsules.rs:1383-1396 | A terminal shares its identity with no other name and directory if and only if neither of its own holds a NUL |
| `FocusLaws.NulConfuses` | apps/desktop/src-tauri/src/capsules.rs:1396 | With a NUL in a name two different terminals share an identity |
| `FocusLaws.MergedIds` | apps/desktop/src-tauri/src/capsules.rs:1429-1443 | The identities in a merged list are those captured and those of the payloads of the pins that are added; a pin is added if its stored identity was neither captured nor that of an earlier pin of the list. Nothing is asked of the pins |
| `FocusLaws.MergedList` | apps/desktop/src-tauri/src/capsules.rs:1405-1466 | Each list of the merged object is the captured list with its own pins: terminal pins only among terminals, file pins only among files |
| `FocusLaws.MergeKeepsTheRest` | apps/desktop/src-tauri/src/capsules.rs:1423-1444 | Every other field of the payload is as captured |
| `FocusLaws.MergeListTwice` | apps/desktop/src-tauri/src/capsules.rs:1434-1443 | Merging the same pins again changes nothing if and only if the first merge kept the stored identity of each of them |
| `FocusLaws.MergeKeepsDistinct` | apps/desktop/src-tauri/src/capsules.rs:1429-1443 | A merge introduces no duplicate identity if and only if what the added pins open is new to the list and different from pin to pin |
| `FocusLaws.MadePinsAreKept` | apps/desktop/src-tauri/src/lib.rs:331-351 | If the pins of a list carry their payload's identity, as pinning makes them, then exactly what is captured or pinned is kept, and a merge introduces no duplicate |
| `FocusLaws.ListTargetsExact` | apps/desktop/src-tauri/src/capsules.rs:1488-1540 | An item is targeted if and only if something was captured or pinned for its list and it is live, identified, unwanted, and neither dirty nor busy |
| `FocusLaws.IdentifiesExactly` | apps/desktop/src-tauri/src/capsules.rs:1387-1396 | The identity of an item, from its fields: the url of a page, the text of a file, name, NUL and directory of a terminal, the directory being empty where none is named |
| `FocusLaws.TargetedExactly` | apps/desktop/src-tauri/src/capsules.rs:1481-1545 | In the terms of the payloads alone: a command is sent if and only if its list has something to keep and a live item is to go, since nothing kept has its identity and it is neither an unsaved file nor a busy terminal; and the command names it in its arguments and reports it under its name |
| `FocusLaws.BelongsExactly` | apps/desktop/src-tauri/src/capsules.rs:1405-1443 | The list of tabs takes the pins of the browser; of the pins of the editor those with a name go to the terminals, the others to the files |
| `FocusLaws.EmptyCaptureClosesNothing` | apps/desktop/src-tauri/src/capsules.rs:1488-1500 | A list for which nothing is wanted closes nothing |
| `FocusLaws.PinnedIsNeverTargeted` | apps/desktop/src-tauri/src/capsules.rs:1405-1545 | An item with a pin's stored identity is never in the way, whatever is live, if and only if that identity was captured or is that of what an added pin opens |
| `FocusLaws.PinnedAnswersExactly` | apps/desktop/src-tauri/src/capsules.rs:1481-1545 | While its identity is kept, a live item with a pin's stored identity answers to one of the close commands if and only if it is among the terminals and a superfluous item yields the same command, one of the two being a bare string: for tabs, files and terminals with a name, never. If its identity is not kept, it answers unless it is dirty or busy |
| `FocusLaws.TargetIsNotKept` | apps/desktop/src-tauri/src/capsules.rs:1481-1545 | Each target, whatever is live and stored, comes from a live item that was neither captured nor is opened by an added pin |
| `PinMoves.TerminalKeepsExact` | crates/omnibus-db/src/bundle_apply.rs:117-165 | A terminal's identity moves as one text, its name and directory each on their own: these agree if and only if, the home being no longer than the name, the directory stays and the name moves exactly if it lies strictly under the home; and otherwise the directory stays, unless the home holds a NUL |
| `PinMoves.PinKeepsExactly` | crates/omnibus-db/src/bundle_apply.rs:372-384 | A pin stored under its payload's identity is so after a merge if and only if the two move alike: for a url or a file, unless it is under the home without being an absolute path; for a terminal, as above |
| `PinMoves.AbsoluteHome` | crates/omnibus-db/src/bundle_apply.rs:372-384 | Under an absolute home, pages and files always keep it, and a terminal if and only if its directory does not move |
| `PinMoves.MovedShellParts` | crates/omnibus-db/src/bundle_apply.rs:372-384 | A pinned shell in /a/x, moved from /a to /b: its payload opens /b/x and its identity is still that of /a/x |
| `PinMoves.ShellOpensTwice` | apps/desktop/src-tauri/src/capsules.rs:1446-1463 | Captured in /b/x, it is in the merged list twice |
| `PinMoves.PinnedShellIsTargeted` | apps/desktop/src-tauri/src/capsules.rs:1481-1545 | With nothing captured, the live shell that carries the pinned identity is among the targets |
| `MergedPins.MergedPin` | crates/omnibus-db/src/bundle_apply.rs:372-384 | The pins after a merge are those of before whose id and identity no incoming pin takes, and of those the last for each |
| `MergedPins.MergeKeepsOwn` | crates/omnibus-db/src/bundle_apply.rs:270-421 | A merge leaves every live pin stored under its payload's identity if and only if each incoming pin that lasts is so once moved |
| `MergedPins.OwnPinsArriveExactly` | crates/omnibus-db/src/bundle_apply.rs:372-384 | From a sender whose pins are so, if and only if each that lasts moves alike |
| `MergedPins.AlwaysOwnExactly` | crates/omnibus-db/src/records.rs:991-1057 | Over any run that mixes record operations with merges, all live pins are so throughout if and only if every pin made is, as pinning makes it, and every merge is as above |
| `MergedPins.OwnPinsAreKept` | crates/omnibus-db/src/records.rs:1086-1113 | While they are, what focus mode keeps for a task is exactly what is captured or pinned |
| `Tabs.SnapshotTabs` | connectors/chrome/src/tabs.ts:29-38 | The loop with its seen set |
| `Tabs.SnapshotExact` | connectors/chrome/src/tabs.ts:29-38 | A url is captured if and only if some tab that is not incognito shows it and it is http or https; each url once |
| `Tabs.ClosePlan` | connectors/chrome/src/tabs.ts:115-135 | The two passes over the matches give all ids or the first reason to keep |
| `Tabs.CountPerWindow` | connectors/chrome/src/tabs.ts:124-127 | The counting loop yields, for exactly the windows of the matches, how many matches each holds |
| `Tabs.Browser.TabsClose` | connectors/chrome/src/background.ts:83-112 | One close request: the tabs afterwards are those of the plan, and the reply is "no longer open", the plan's first reason, or closed |
| `FocusRun.PlanExact` | connectors/chrome/src/tabs.ts:115-135 | A url closes if and only if none of its tabs is pinned, incognito, not http(s) or without id, and each of their windows keeps a tab of another url |
| `FocusRun.CloseExact` | connectors/chrome/src/background.ts:83-112 | All or nothing: either every tab of the url goes and no other, or none |
| `FocusRun.ReplyIsTrue` | connectors/chrome/src/background.ts:83-112 | The reply says closed if and only if the url was open and no tab shows it any more, which is when it may close; and "no longer open" if and only if no tab showed it |
| `FocusRun.CloseAllExact` | apps/desktop/src-tauri/src/capsules.rs:1005-1022 | Any sequence of close requests removes whole urls among those asked for, no pinned or incognito tab, and empties no window that was there |
| `Editor.TerminalClosePlan` | connectors/vscode/src/state.ts:86-95 | The loop keeps all terminals of one name and directory if any of them is running something |
| `Editor.Window.CloseFile` | connectors/vscode/src/extension.ts:213-237 | A path closes in all its tabs or, if one is unsaved or none is open, in none; a tab the editor does not close is reported |
| `Editor.Window.DisposeTerminal` | connectors/vscode/src/extension.ts:238-254 | All terminals of a name and directory go, or none |
| `Editor.ReplyIsTrue` | connectors/vscode/src/extension.ts:213-254 | The reply says closed if and only if something answered to the path or terminal and nothing does any more, and "no longer open" if and only if nothing did |
| `Editor.CloseAllExact` | connectors/vscode/src/extension.ts:213-254 | After any sequence of closes, what is left is the panes in order without those under exactly the keys asked for under which nothing is unsaved or running |
| `Versions.WrittenVersion` | apps/desktop/src-tauri/src/capsules.rs:31-50 | A version written with three numbers supports focus mode if and only if it is 0.2.0 or later, whatever pre-release or build suffix follows; a number above 2^32 - 1 counts as 0 |
| `Versions.ReleaseExactly` | apps/desktop/src-tauri/src/capsules.rs:31-50 | Decimal releases a.b.c, a.b and a, suffixed or not, support focus mode if and only if they are 0.2.0 or later, missing numbers and those beyond 32 bits counting as 0; no version supports nothing |
| `FocusPhase.Desk.SendTargets` | apps/desktop/src-tauri/src/capsules.rs:1005-1022 | The loop over the targets, which skips what this activation opened and notes each answer |
| `FocusPhase.Desk.ReconcileKind` | apps/desktop/src-tauri/src/capsules.rs:977-1003 | No resource, no connector, an old connector or an unanswered state query each end the kind in their own way; otherwise the targets are sent |
| `FocusPhase.Desk.Reconcile` | apps/desktop/src-tauri/src/capsules.rs:939-1024 | The reconcile of browser and editor, whatever becomes of each command: unread resources close nothing, unread pins count as none |
| `FocusPhase.Desk.FocusPhase` | apps/desktop/src-tauri/src/capsules.rs:857-878 | Nothing is sent unless focus mode is on and the opening ended without error and without a pending restore |
| `FocusSafety.TerminalKey` | apps/desktop/src-tauri/src/capsules.rs:1383-1396 | The terminals the editor disposes for a target are those whose identity the desktop meant |
| `FocusSafety.FocusIsSafe` | apps/desktop/src-tauri/src/capsules.rs:939-1024 | End to end, whatever is stored and whatever becomes of each command: browser and editor show what they showed, in order, without whole urls and keys, each of them due: not captured, not opened by an added pin, not under a url just opened, of a kind restored by a connector that can close. No pinned or incognito tab goes, no window is emptied, nothing unsaved or running is closed |
| `FocusSafety.ProtectedStays` | apps/desktop/src-tauri/src/capsules.rs:939-1024 | Each tab and each pane that is not due, or that its connector protects, is still there |
| `FocusSafety.ReceiptIsTrue` | apps/desktop/src-tauri/src/capsules.rs:1011-1022 | The receipt is true at the end: what it calls closed or no longer open is not shown, what it calls kept is shown and would be refused again, and all that went is called closed or has a failed command |
| `FocusSafety.StaysExactly` | apps/desktop/src-tauri/src/capsules.rs:939-1024 | A page stays on every screen if and only if it is not due or not http(s) |
| `FocusSafety.KeptExactly` | apps/desktop/src-tauri/src/capsules.rs:939-1024 | A file or terminal stays on every screen if and only if it is not due |
| `FocusSafety.UnreadPinsProtectNothing` | apps/desktop/src-tauri/src/capsules.rs:967-976 | A page pinned under its own url always stays if the pins were read; if that read failed, a pinned page stays if and only if it would without its pin |
| `FocusReports.RestorableExactly` | connectors/chrome/src/tabs.ts:19-25 | Captured and closed are exactly the urls with the scheme http or https, in any case |
| `FocusReports.TabReasonIsTrue` | connectors/chrome/src/tabs.ts:46-135 | Whatever reason the browser gives for keeping a url is true: it is not open, or one of its tabs is incognito, pinned, no web page, without id, or in a window that shows nothing else |
| `FocusReports.PaneReasonIsTrue` | connectors/vscode/src/state.ts:65-118 | The same for the editor: not open, unsaved changes, a running command, or a tab that it would not close |
| `FocusReports.FilesReported` | connectors/vscode/src/state.ts:43-58 | The editor reports exactly the paths of its open files, each once, and as unsaved exactly those of them that are |
| `FocusReports.TerminalsReported` | connectors/vscode/src/state.ts:43-58 | The editor reports exactly its open terminals, each with its name, its directory or none, and whether a command runs |
| `FocusReports.OtherTabsStay` | connectors/vscode/src/extension.ts:213-252 | No tab that shows anything else than a file of the disk is ever closed by focus mode |
| `FocusReports.ReportNamesThePane` | connectors/vscode/src/extension.ts:213-252 | The command that the desktop makes of a reported file or terminal names that file or terminal to the editor, an unknown directory included |
| `FocusReports.NothingPassedOver` | apps/desktop/src-tauri/src/capsules.rs:939-1003 | A captured kind is reconciled or the receipt says that it was not, if and only if; and an unreadable capsule is reported, and nothing happens |
| `FocusAccounts.ReceiptIsComplete` | apps/desktop/src-tauri/src/capsules.rs:939-1022 | The receipt is complete, whatever becomes of the commands: it names a page, file or terminal, as closed, kept or failed, if and only if that was due and the connector, asked for its state, had it, unsaved files and busy terminals excepted |
| `Hub.HubState.SendCommand` | crates/omnibus-hub/src/hub.rs:266-298 | Lookup, send and insertion under one lock: the pending entry exists if and only if the command was queued |
| `Hub.HubState.RemovePending` | crates/omnibus-hub/src/hub.rs:557-558 | Taking an entry reports whether it was there and removes only it |
| `Hub.HubState.Cleanup` | crates/omnibus-hub/src/hub.rs:709-727 | The connector and exactly its own pending entries are removed, and those are the callers that are failed |
| `Hub.HubState.Park` | crates/omnibus-hub/src/hub.rs:649-670 | A pairing is parked if and only if none with its name and kind is |
| `Hub.HubState.Unpark` | crates/omnibus-hub/src/hub.rs:255-263 | Resolving removes the entry and says whether it was there |
| `HubProtocol.Invariant` | crates/omnibus-hub/src/hub.rs:266-315 | Every reachable state satisfies all invariants below |
| `HubProtocol.OwnedStep` | crates/omnibus-hub/src/hub.rs:272-294 | Each pending entry names a registered connector and a caller who has not been told, and a response in some connection's hands belongs to nobody else |
| `HubProtocol.ReachableStep` | crates/omnibus-hub/src/hub.rs:292-301 | Every waiting caller is pending or its answer is in hand: a response cannot arrive before its waiter is stored, nor be lost |
| `HubProtocol.OneOutcome` | crates/omnibus-hub/src/hub.rs:301-314 | What a caller was told never changes in any continuation of the run |
| `HubProtocol.DoneLeavesNothing` | crates/omnibus-hub/src/hub.rs:301-314 | A caller that has its outcome left no pending entry |
| `HubProtocol.ResponseArrives` | crates/omnibus-hub/src/hub.rs:556-578 | A response to a pending request reaches the waiting caller with its own verdict |
| `HubDelivery.FramesArriveInOrder` | crates/omnibus-hub/src/hub.rs:289-296 | In every run the requests whose frames a connector was handed are the first of those sent to it, in the order of the sends, and while it is connected those in its queue are the rest: none is lost, none invented |
| `HubDelivery.FramesArriveOnce` | crates/omnibus-hub/src/hub.rs:289-296 | No request is handed over twice |
| `HubDelivery.SendTells` | crates/omnibus-hub/src/hub.rs:266-298 | A send is told at once that the connector is unknown or that its channel is closed, if and only if so; otherwise its request waits, stored for that connector |
| `HubDelivery.ToldBy` | crates/omnibus-hub/src/hub.rs:556-727 | A caller is told an outcome by exactly the step that brings it: a response, a disconnection, a timeout or a failed send |
| `HubDelivery.HeldBy` | crates/omnibus-hub/src/hub.rs:556-578 | What a connection holds for a caller is the verdict of the response it read, if that was still awaited |
| `HubProtocol.CleanupAnswers` | crates/omnibus-hub/src/hub.rs:709-727 | A disconnect answers each of its pending callers and removes their entries |
| `HubProtocol.EveryCallerCanEnd` | crates/omnibus-hub/src/hub.rs:301-314 | From every state each caller has its next step: its answer, or the timeout that also removes its entry |
| `HubProtocol.EachStepIsProgress` | crates/omnibus-hub/src/hub.rs:266-315 | Every step that carries on a request, a response, a disconnect or a pairing lowers a rank |
| `HubProtocol.SomeoneCanGoOn` | crates/omnibus-hub/src/hub.rs:266-315 | While anything is under way, some such step is possible |
| `HubProtocol.EverythingEnds` | crates/omnibus-hub/src/hub.rs:266-315 | From every reachable state, carrying on ends with every caller told, every disconnect cleaned up, every pairing settled and both maps empty |
| `HubProtocol.NothingGoesOnForever` | crates/omnibus-hub/src/hub.rs:266-315 | In any order: no more such steps follow one another than the rank counts |
| `HubProtocol.OneParkedPerConnector` | crates/omnibus-hub/src/hub.rs:649-670 | At most one pairing is parked per name and kind |
| `HubDelivery.PairExactly` | crates/omnibus-hub/src/hub.rs:649-670 | A pairing is parked if and only if none with its name and kind is, and otherwise refused |
| `HubDelivery.PairGoesOn` | crates/omnibus-hub/src/hub.rs:255-263 | A parked pairing goes on exactly as it is resolved, or expires, and ends accordingly |
| `HubProtocol.ResolvesOnce` | crates/omnibus-hub/src/hub.rs:255-263 | No pairing id is resolved with true twice |
| `HubProtocol.ApprovalsAreResolved` | crates/omnibus-hub/src/hub.rs:677-683 | A pairing ends approved only if it was resolved |
| `HubLiveness.ConnectionLoop.Handle` | crates/omnibus-hub/src/hub.rs:542-621 | One turn of the connection loop updates the unanswered pings and strikes |
| `HubLiveness.OpenExact` | crates/omnibus-hub/src/hub.rs:536-621 | A connection is open if and only if over its whole history it never let two pings pass unanswered until a third tick, has fewer than three strikes, and saw no close or send failure |
| `RecordStore.CopyTitle` | crates/omnibus-db/src/records.rs:679-691 | The search ends after at most as many failed probes as there are live titles, with the first free candidate |
| `RecordStore.CandidatesDiffer` | crates/omnibus-db/src/records.rs:679-691 | No two candidate titles coincide |
| `RecordStore.Store.NextPosition` | crates/omnibus-db/src/records.rs:199-204 | The new position is one above the highest, 0 for none |
| `RecordStore.Store.CreateProject` | crates/omnibus-db/src/records.rs:193-248 | Refused exactly when the name is taken, leaving the tables alone; otherwise the row with that name and path is placed after every project there is |
| `RecordStore.Store.RenameProject` | crates/omnibus-db/src/records.rs:277-301 | Succeeds exactly for a nonempty free name of a live project |
| `RecordStore.Store.ArchiveProject` | crates/omnibus-db/src/records.rs:332-356 | The revision moves only on the transition |
| `RecordStore.Store.UnarchiveProject` | crates/omnibus-db/src/records.rs:359-388 | The project returns after every unarchived one |
| `RecordStore.Store.DeleteProject` | crates/omnibus-db/src/records.rs:460-495 | The four updates in their order tombstone the project, its live tasks and their live resources and pins |
| `RecordStore.Store.DeleteTask` | crates/omnibus-db/src/records.rs:782-814 | Tombstones the task and its children and clears it from live projects that remember it |
| `RecordStore.Store.CheckOrder` | crates/omnibus-db/src/records.rs:414-436 | The set comparisons accept a list if and only if it lists each active project once |
| `RecordStore.Store.ReorderProjects` | crates/omnibus-db/src/records.rs:408-455 | The loop over positions; a refused list changes nothing |
| `RecordStore.Store.BeginProjectSession` | crates/omnibus-db/src/records.rs:554-579 | Succeeds if and only if the task is live and its project not archived; the project then remembers the task, its active seconds are 0 and its revision is up by one |
| `RecordStore.Store.CreateTask` | crates/omnibus-db/src/records.rs:498-528 | Fails only if the project row does not exist |
| `RecordStore.Store.AddTaskResource` | crates/omnibus-db/src/records.rs:817-838 | Fails only if the task row does not exist |
| `RecordStore.Store.ReplaceTaskResources` | crates/omnibus-db/src/records.rs:918-976 | Purge, insert and revision together, or not found and nothing |
| `RecordStore.Store.AddTaskPin` | crates/omnibus-db/src/records.rs:991-1057 | The upsert for a live task, nothing otherwise |
| `RecordStore.Store.RemoveTaskPin` | crates/omnibus-db/src/records.rs:1067-1083 | True if and only if a live pin was there |
| `RecordStore.Store.DuplicateTask` | crates/omnibus-db/src/records.rs:670-752 | The copy has a title no live task of the project has, and a copy of each live resource; failure changes nothing |
| `RecordsLaws.SoundExactly` | crates/omnibus-db/src/records.rs:460-528 | An operation preserves "every row has its parent, and live ones a live parent" if and only if it does not create a task or resource under a tombstoned parent |
| `RecordsLaws.RememberedKept` | crates/omnibus-db/src/records.rs:460-579 | Every operation keeps the remembered task of each live project a live task of that project |
| `RecordsLaws.ChangesAreCounted` | crates/omnibus-db/src/records.rs:193-1083 | A row that an operation changes has its revision raised by exactly one; no other row changes |
| `RecordsRevisions.RevisionsExactly` | crates/omnibus-db/src/records.rs:283-1083 | The exact revision of every row after every operation: one more if and only if the operation is of the kind that counts for it, such as archiving what is not archived, a new position in a reorder or a delete of a live row, otherwise the same; and 0 for a new row |
| `RecordsLaws.OnlyRecapturePurges` | crates/omnibus-db/src/records.rs:956-962 | The only rows that ever vanish are resources of the recaptured task and kind |
| `RecordsLaws.RecaptureExact` | crates/omnibus-db/src/records.rs:918-976 | After a recapture one resource of that task and kind exists, live, with the new payload; the task's revision is up by one; every other resource is untouched |
| `RecordsLaws.DuplicateExact` | crates/omnibus-db/src/records.rs:670-752 | The copy's live resources are exactly the copies of the original's: same kind, type and payload under the new task, live, with revision 0; and nothing else changed |
| `RecordsLaws.PinsStayUnique` | crates/omnibus-db/src/records.rs:1024-1046 | One row per task, kind and identity, after every operation |
| `RecordsLaws.PinExact` | crates/omnibus-db/src/records.rs:991-1057 | After pinning exactly one row has that identity, live, with the new payload, and a revision one higher if it existed |
| `RecordsLaws.PinAgain` | crates/omnibus-db/src/records.rs:991-1083 | Unpinning and pinning again revives the same row |
| `RecordsLaws.NamesStayUnique` | crates/omnibus-db/src/records.rs:193-301 | Project names stay unique |
| `RecordsLaws.PositionsStayDistinct` | crates/omnibus-db/src/records.rs:199-204 | Every operation keeps the positions of active projects pairwise distinct |
| `RecordsLaws.OneListing` | crates/omnibus-db/src/records.rs:251-265 | While positions are distinct the listing by position is unique: ties by name or id do not arise |
| `RecordsLaws.ReorderExact` | crates/omnibus-db/src/records.rs:408-455 | After an accepted reorder the list reads back as requested and only so; exactly the rows whose position changed have their revision raised by one; repeating it is a no-op |
| `RecordsLaws.RunsKeep` | crates/omnibus-db/src/records.rs:193-1083 | Pin uniqueness, name uniqueness and distinct positions hold after every run of these operations from the empty store |
| `RecordsLaws.CarefulRunsAreSound` | crates/omnibus-db/src/records.rs:193-1083 | A run that never creates under a tombstoned parent keeps the parent invariant throughout, and that a live project remembers only a live task of its own |
| `RecordsLaws.RevisionsNeverFall` | crates/omnibus-db/src/records.rs:193-1083 | Project, task and pin rows are never lost and their revisions never fall, over any continuation of any run |
| `RecordsFacts.SeenExactly` | crates/omnibus-db/src/records.rs:193-1083 | Over every run: name, path, archiving, remembered task and seconds of a live project, project, title and status of a live task, the contents of a live resource and of a live pin are what the last call that concerns them said, and that they are there at all too; a call concerns them as its documentation says, by conditions on the call and on which rows are live |
| `RecordsHistory.DeletedProjectLeaves` | crates/omnibus-db/src/records.rs:460-495 | Deleting a project leaves live exactly the tasks, resources and pins that were live and not under it, all unchanged, and every other project as it was |
| `RecordsHistory.DeletedTaskLeaves` | crates/omnibus-db/src/records.rs:782-814 | Deleting a task leaves live exactly the other tasks and their resources and pins, unchanged; only projects that remember the task change, and they forget it |
| `RecordsHistory.ProjectDeletedTwice` | crates/omnibus-db/src/records.rs:460-495 | Deleting a project again changes no row and no revision |
| `RecordsHistory.TaskDeletedTwice` | crates/omnibus-db/src/records.rs:782-814 | Deleting a task again changes no row and no revision |
| `RecordsHistory.ArchivedListing` | crates/omnibus-db/src/records.rs:332-356 | Archiving takes the project out of the listing and keeps the order of the others |
| `RecordsHistory.DeletedListing` | crates/omnibus-db/src/records.rs:460-495 | Deleting takes the project out of the listing and keeps the order of the others |
| `RecordsHistory.UnarchivedListing` | crates/omnibus-db/src/records.rs:359-388 | A restored project is listed last, behind the others in their order |
| `RecordsHistory.CreatedListing` | crates/omnibus-db/src/records.rs:193-265 | A new project is listed last |
| `RecordsHistory.ArchiveAndBack` | crates/omnibus-db/src/records.rs:332-388 | Archiving and restoring gives the same store but for the project's position, now the last, and two counted changes |
| `RecordsHistory.TombstonesLast` | crates/omnibus-db/src/records.rs:193-1083 | In no run does a deleted project or task come back |
| `RecordsHistory.NothingBelowTombstones` | crates/omnibus-db/src/records.rs:460-495 | Over careful runs nothing live is ever again under a project that was once deleted |
| `PathRewrite.RewritePathsInJson` | crates/omnibus-db/src/bundle_apply.rs:141-169 | The walk that edits the value and the counter, on any JSON value |
| `PathRewrite.UnderExact` | crates/omnibus-db/src/bundle_apply.rs:124-130 | The prefix test holds if and only if the segments of the home are a prefix of the segments of the path |
| `PathRewrite.MoveSegments` | crates/omnibus-db/src/bundle_apply.rs:117-132 | A moved path has the target's segments followed by the remaining ones, unchanged |
| `PathRewrite.RemapExactly` | crates/omnibus-db/src/bundle_apply.rs:117-132 | A path is moved if and only if the segments of the source home are a prefix of its own, and then to the segments of the target home followed by the remaining ones; otherwise it stays |
| `PathRewrite.MoveBack` | crates/omnibus-db/src/bundle_apply.rs:117-132 | Moving back restores the path |
| `PathRewrite.RestoreExact` | crates/omnibus-db/src/bundle_apply.rs:141-169 | For any homes, rewriting there and back restores the whole value if and only if no string in it is foreign: for homes that are absolute paths, no string that was under the target home without being under the source home |
| `PathRewrite.RewriteKeepsShape` | crates/omnibus-db/src/bundle_apply.rs:141-169 | Only strings change; keys, nesting, order and other leaves are kept |
| `PathRewrite.RewriteExactly` | crates/omnibus-db/src/bundle_apply.rs:141-169 | The rewritten value is the one that agrees with the old in everything but that each string under the source home has the target segments followed by its remaining ones |
| `PathRewrite.CountsExactly` | crates/omnibus-db/src/bundle_apply.rs:141-169 | The count is the number of strings in the value that are under the source home |
| `PathRewrite.CountsChanges` | crates/omnibus-db/src/bundle_apply.rs:141-169 | The count is zero if and only if nothing changed |
| `PathRewrite.PreviewExact` | crates/omnibus-db/src/bundle_apply.rs:171-181 | For one payload the previewed count equals the performed count if and only if there is a target different from the source, or nothing was to be moved anyway |
| `Bundle.FindUniqueName` | crates/omnibus-db/src/bundle_apply.rs:441-460 | The probing loop returns the first free candidate, or after 999 the one with a new id |
| `Bundle.Db.Projects` | crates/omnibus-db/src/bundle_apply.rs:285-327 | The loop over projects with its id map and counters; a negative position or active time refuses the row and ends it |
| `Bundle.Db.Tasks` | crates/omnibus-db/src/bundle_apply.rs:329-350 | The loop over tasks; a failing insert ends it |
| `Bundle.Db.Resources` | crates/omnibus-db/src/bundle_apply.rs:359-370 | The loop over resources |
| `Bundle.Db.Pins` | crates/omnibus-db/src/bundle_apply.rs:372-384 | The loop over pins |
| `Bundle.Db.ApplyBundle` | crates/omnibus-db/src/bundle_apply.rs:270-421 | All or nothing: the store is the result of all loops, or untouched if the bundle cannot be read or any row is refused |
| `BundleLaws.InsertProjectSound` | crates/omnibus-db/src/bundle_apply.rs:462-492 | Replacing a row under its id or its name drops the conflicting projects with all they own, which keeps every row's parent |
| `BundleLaws.AppliedIsSound` | crates/omnibus-db/src/bundle_apply.rs:270-421 | From a sound store the result has every imported task under its project, every imported resource and pin under its task, unique names and unique pins. It fails if and only if the bundle cannot be read or its project loop or its task loop fails: resources and pins never do |
| `BundleCounts.OutcomeAddsUp` | crates/omnibus-db/src/bundle_apply.rs:270-421 | All five reported numbers: added plus replaced plus skipped is the number of projects; capsules is the number of tasks that come along; paths is the number of moved project paths plus the moved paths in resources and in pins of tasks that come along |
| `BundleLaws.KeepBothProjectExact` | crates/omnibus-db/src/bundle_apply.rs:315-326 | Under "keep both" a live local project is as it was if and only if no incoming project has its id |
| `BundleLaws.KeepBothKeeps` | crates/omnibus-db/src/bundle_apply.rs:270-421 | With ids disjoint from the live local ones, "keep both" and "skip" keep every live local project, task, resource and pin exactly |
| `BundleLaws.ReplaceExact` | crates/omnibus-db/src/bundle_apply.rs:305-314 | With disjoint ids, "replace" takes away exactly the live local projects whose names come along and what they own, and keeps every other live local row exactly |
| `BundleLaws.ProjectsArrive` | crates/omnibus-db/src/bundle_apply.rs:285-327 | Under "keep both" with distinct ids every project of the bundle arrives, its path moved and its name kept or extended |
| `BundleArrivals.EverythingArrives` | crates/omnibus-db/src/bundle_apply.rs:329-384 | Whatever the merge, field by field of the incoming rows: a task whose project came along is there under it, live, with its title, and done if and only if its status is "done"; a resource of such a task with its kind and type, an opaque payload as it was, and a parsed one with each string under the source home moved, segment by segment, and all else equal; a pin likewise, with its identity moved as one path |
| `BundleFates.FatesExactly` | crates/omnibus-db/src/bundle_apply.rs:270-330 | The three counts one by one, where no ids overlap: keeping both adds every project; the others replace, or skip, exactly those whose name is that of a live project or of an earlier row, and add the rest; and the tasks that come along are exactly those of projects not skipped |
| `BundleFates.NamesGiven` | crates/omnibus-db/src/bundle_apply.rs:441-460 | Keeping both, a project keeps its name if and only if no live project has it when its turn comes; otherwise it gets the first free of the numbered names |
| `BundleLaws.KeepBothSucceeds` | crates/omnibus-db/src/bundle_apply.rs:270-421 | Under "keep both" with distinct project ids the merge succeeds if and only if the bundle can be read, no project has a negative position or active time, and every task that comes along has an allowed status; then every project arrives |
| `BundleLaws.ProjectsSucceed` | crates/omnibus-db/migrations/002_track_b_core.sql:5-10 | Under "keep both" and "replace" the project loop gets through if and only if no row has a negative position or active time |
| `BundleLaws.NegativePositionFails` | crates/omnibus-db/src/bundle_apply.rs:462-492 | A readable bundle with one project whose position is -1 and nothing else is refused |
| `BundleCounts.ReviewExact` | crates/omnibus-db/src/bundle_apply.rs:186-206 | The reviewed number of paths is the performed one: given another home to move to, if and only if as many moved paths are in pins that come along as in resources that stay behind; otherwise if and only if nothing was to move. The reviewed capsules are the performed ones if and only if every task comes along |
| `BundleCounts.PinsAreNotForeseen` | crates/omnibus-db/src/bundle_apply.rs:194-206 | With paths in pins and none in resources, the merge moves more than the review said |
| `BundleCounts.OnePinMoves` | crates/omnibus-db/src/bundle_apply.rs:372-376 | One pin under the old home: the merge moves one path |
| `BundleCounts.NothingPromised` | crates/omnibus-db/src/bundle_apply.rs:194-206 | The review of that bundle promises none |
| `MergedRuns.MixedRunsAreIntact` | crates/omnibus-db/src/bundle_apply.rs:270-421 | Over every run that mixes careful record operations with merges, live rows keep live parents and names and pins stay unique |
| `MergedMemory.MergedTask` | crates/omnibus-db/src/bundle_apply.rs:329-350 | The tasks after a merge are those of before whose id no incoming task takes, and of those the last for each id |
| `MergedMemory.RememberedExactly` | crates/omnibus-db/src/bundle_apply.rs:462-492 | A "keep both" merge of disjoint ids leaves every live project remembering a live task of its own if and only if each incoming project brings the task it remembers |
| `MergedRuns.MergedPositionsExact` | crates/omnibus-db/src/bundle_apply.rs:462-492 | A "keep both" merge of disjoint ids keeps active positions distinct if and only if the incoming unarchived ones are distinct among themselves and from those in use |
| `MergedRuns.DistinctUntilMerged` | crates/omnibus-db/src/records.rs:193-455 | Once distinct, positions stay so in every run until the next merge |
| `MergedRuns.ReorderRepairs` | crates/omnibus-db/src/records.rs:408-455 | After any run with merges, an accepted reorder makes positions distinct, and they stay so until the next merge |
| `Clipboard.Prune` | apps/desktop/src-tauri/src/utility-clipboard.rs:51-58 | The retention filter and the eviction loop terminate for any entries |
| `Clipboard.RetainedExact` | apps/desktop/src-tauri/src/utility-clipboard.rs:52-53 | An entry is retained if and only if it is younger than the retention |
| `Clipboard.BytesExact` | apps/desktop/src-tauri/src/utility-clipboard.rs:54 | A text takes as many bytes as its characters, each the fewest whose payload bits hold it |
| `Clipboard.VictimExact` | apps/desktop/src-tauri/src/utility-clipboard.rs:55-56 | One eviction takes the oldest unpinned entry, and the oldest pinned one only when no unpinned is left |
| `Clipboard.StopsAtTheFirst` | apps/desktop/src-tauri/src/utility-clipboard.rs:54-57 | The loop stops at the first state within both bounds |
| `Clipboard.EvictionOrder` | apps/desktop/src-tauri/src/utility-clipboard.rs:54-57 | Unpinned survivors are the newest unpinned ones, pinned survivors the newest pinned ones, and pinned are all there if any unpinned is |
| `Clipboard.EvictionKeepsOrder` | apps/desktop/src-tauri/src/utility-clipboard.rs:54-57 | The survivors keep their order |
| `Clipboard.NewestSurvives` | apps/desktop/src-tauri/src/utility-clipboard.rs:54-57 | The newest unpinned entry survives eviction if and only if it fits beside all pinned ones |
| `ClipboardService.Normalize` | apps/desktop/src-tauri/src/utility-clipboard.rs:41-50 | Bounds, trimming, lower case, first occurrences and validation |
| `ClipboardService.DedupIds` | apps/desktop/src-tauri/src/utility-clipboard.rs:45-47 | The filter with its seen set keeps first occurrences |
| `ClipboardService.ProtectedStay` | apps/desktop/src-tauri/src/utility-clipboard.rs:46-47 | Every built-in exclusion is in every accepted setting |
| `ClipboardService.NormalizeTwice` | apps/desktop/src-tauri/src/utility-clipboard.rs:41-50 | Accepted settings sent back unchanged are accepted unchanged |
| `ClipboardSettings.CleanExactly` | apps/desktop/src-tauri/src/utility-clipboard.rs:46 | An excluded id is taken without the white space around it and in lower case |
| `ClipboardSettings.AcceptedExactly` | apps/desktop/src-tauri/src/utility-clipboard.rs:29-50 | Settings are accepted if and only if they list at most 400 ids, the retention is 1, 8 or 24 hours, every cleaned id has 1 to 255 letters, digits, dots and hyphens, and at most 100 different ones are not protected; what is excluded then are the cleaned and the protected ids, each once, in the order of their first appearance |
| `ClipboardProtocol.History.Revoke` | apps/desktop/src-tauri/src/utility-clipboard.rs:79-104 | Disabling or pausing bumps the revision and takes effect whether or not the preferences are valid |
| `ClipboardProtocol.History.FinishEnable` | apps/desktop/src-tauri/src/utility-clipboard.rs:110-118 | Enabling applies only if no revision passed since and the service is not stopping; a missing baseline still bumps the revision |
| `ClipboardProtocol.History.Record` | apps/desktop/src-tauri/src/utility-clipboard.rs:65-71 | What is recorded: not blank, not too long, of an application that is not excluded, not a repetition of the newest |
| `ClipboardProtocol.History.BeginTurn` | apps/desktop/src-tauri/src/utility-clipboard.rs:124-130 | The worker ends, skips, or reads |
| `ClipboardProtocol.History.EndTurn` | apps/desktop/src-tauri/src/utility-clipboard.rs:132-142 | A read is used only if its revision is current and collection still on |
| `ClipboardProtocol.History.Clear` | apps/desktop/src-tauri/src/utility-clipboard.rs:151-159 | Clearing bumps the revision and pauses if the baseline cannot be refreshed |
| `ClipboardProtocol.History.Stop` | apps/desktop/src-tauri/src/utility-clipboard.rs:177-179 | Stopping clears, disables and bumps |
| `ClipboardProtocol.RecordedStays` | apps/desktop/src-tauri/src/utility-clipboard.rs:65-71 | A text worth recording is kept, as the newest unpinned one, if and only if the pinned entries that are not too old leave room for it; otherwise no unpinned entry is left |
| `ClipboardProtocol.Invariant` | apps/desktop/src-tauri/src/utility-clipboard.rs:76-179 | Every reachable state satisfies the invariants below |
| `ClipboardProtocol.RevokingMarks` | apps/desktop/src-tauri/src/utility-clipboard.rs:81 | Pausing, disabling, clearing and stopping each leave a revision in the log |
| `ClipboardProtocol.NothingStale` | apps/desktop/src-tauri/src/utility-clipboard.rs:131-134 | A read that began before a revision and is used after it needs at least 2^64 revisions in between: nothing read before a pause, clear, disable or stop is recorded after it |
| `ClipboardProtocol.SoloStep` | apps/desktop/src-tauri/src/utility-clipboard.rs:117-126 | There is at most one live worker, and the flag says whether there is |
| `ClipboardProtocol.AlwaysKept` | apps/desktop/src-tauri/src/utility-clipboard.rs:51-71 | In every run at most one worker lives, both bounds are met after each step, and a disabled or stopped history is empty |
| `ClipboardProtocol.StoppedForGood` | apps/desktop/src-tauri/src/utility-clipboard.rs:177-179 | After a stop the entries are empty in every continuation |
| `ClipboardOrigins.RecordableExactly` | apps/desktop/src-tauri/src/utility-clipboard.rs:65-68 | What is worth recording: some character that is not white space, at most 32,768 bytes, a known application that no excluded id equals up to the case of letters, and another text than the newest |
| `ClipboardOrigins.NothingMadeUp` | apps/desktop/src-tauri/src/utility-clipboard.rs:65-179 | In every run each text in the history, with its application, was brought by a read that was still wanted when it came back and was worth recording then, since the history was last cleared, turned off or stopped |
| `ClipboardOrigins.NothingExpired` | apps/desktop/src-tauri/src/utility-clipboard.rs:60-179 | After each look at the history, action, accepted change of settings and turn of the worker nothing is left, pinned or not, that is older than the history is kept |
| `ClipboardOrigins.NothingProtected` | apps/desktop/src-tauri/src/utility-clipboard.rs:5-8 | With settings as configure normalizes them, nothing in the history of any run is from one of the six password managers, in whatever case, and no text is blank or over 32,768 bytes |
| `ClipboardConsent.TrueExactly` | apps/desktop/src-tauri/src/utility-clipboard.rs:76-179 | In every run: collection is on if and only if it was granted and since then neither revoked nor stopped, cleared without a baseline or left by a failed read; the last count, the retention and the exclusions are what was said last |
| `ClipboardConsent.CallsAreOpen` | apps/desktop/src-tauri/src/utility-clipboard.rs:76-179 | At any time the history can be cleared, revoked and stopped, and unless it was stopped, collection can be turned on, with the settings asked for |
| `ClipboardConsent.ReadOnlyWhileCollecting` | apps/desktop/src-tauri/src/utility-clipboard.rs:124-142 | The clipboard is read exactly while collection is on, and an answer is taken exactly if it is then on and no revision has passed |
| `ClipboardConsent.ActionsExactly` | apps/desktop/src-tauri/src/utility-clipboard.rs:147-174 | Pinning turns over the pin of the first entry with the id, deleting takes that entry, if it has not expired; nothing else changes but by pruning |
| `ClipboardConsent.ArrivalIsRecorded` | apps/desktop/src-tauri/src/utility-clipboard.rs:131-142 | A wanted answer that is worth recording is the newest entry, if it fits beside what is pinned |
| `Watchers.WatcherState.Step` | apps/desktop/src-tauri/src/utility-watchers.rs:56-84 | The pass that mutates the tracks while looping over the snapshot, with its actions in order |
| `Watchers.WatcherState.Configure` | apps/desktop/src-tauri/src/utility-watchers.rs:98-102 | New settings, once accepted: turning auto-quit off forgets the tracks, turning the block off forgets whether Music was seen |
| `Watchers.WatcherState.Consider` | apps/desktop/src-tauri/src/utility-watchers.rs:61-72 | One application's turn |
| `Watchers.PassByProcess` | apps/desktop/src-tauri/src/utility-watchers.rs:61-72 | A pass acts on each process by its own sightings alone |
| `Watchers.RunByProcess` | apps/desktop/src-tauri/src/utility-watchers.rs:56-102 | Over any run of passes and changes of settings the track of a process and the number of quits it got depend on its own history only |
| `WatchersLaws.AsksExact` | apps/desktop/src-tauri/src/utility-watchers.rs:64-71 | A quit is asked for at a sighting if and only if the process showed windows before, has shown none at any eligible sighting since, the first of these is at least the grace period ago, and none before this one was |
| `WatchersLaws.OncePerStretch` | apps/desktop/src-tauri/src/utility-watchers.rs:65-70 | Between two quits of a process it showed windows again |
| `Ascii.FoldsExactly` | apps/desktop/src-tauri/src/utility-watchers.rs:62-74 | Folding case makes two texts equal if and only if they differ in the case of the letters A to Z only |
| `WatchersLaws.SightExact` | apps/desktop/src-tauri/src/utility-watchers.rs:62-66 | Which looks count: an application that may not be quit is skipped, any other is seen with windows or without |
| `WatchersLaws.QuitsAreEligible` | apps/desktop/src-tauri/src/utility-watchers.rs:63-70 | Each auto-quit names an application of the snapshot, by process and name, without windows, with a bundle id, of the regular kind; not the program itself, none of the nine system parts and own builds by their ids, and none that is excluded, in any case |
| `WatchersLaws.InForceExactly` | apps/desktop/src-tauri/src/utility-watchers.rs:98-102 | The settings of a pass are those configured last |
| `WatchersLaws.OffAtFirst` | apps/desktop/src-tauri/src/utility-watchers.rs:28-44 | Before any are configured, both watchers are off |
| `WatchersLaws.RunQuitsExactly` | apps/desktop/src-tauri/src/utility-watchers.rs:56-102 | Over any run of passes and changes of settings, by the actions of its passes, a process is asked to quit exactly as often as its history has such sightings, each with the grace period then set; while auto-quit is off it has none, and what was seen before is forgotten |
| `WatchersLaws.MusicExact` | apps/desktop/src-tauri/src/utility-watchers.rs:74-102 | Of the actions of a pass, those about Music: one, for the first Music in the snapshot, if and only if the block is on and has been since a last pass, which saw none, this one does, and no allowance is active; otherwise none |
| `Reconnect.Connection.Dial` | connectors/chrome/src/connection.ts:121-170 | A closed connection does nothing; a bad port or a throwing socket is a scheduled redial; otherwise one new socket |
| `Reconnect.Connection.ScheduleRedial` | connectors/chrome/src/connection.ts:246-253 | One timer at the current wait, and the wait doubled up to 30 s |
| `Reconnect.Connection.Close` | connectors/chrome/src/connection.ts:100-108 | Closed, timer cleared, socket closing |
| `Reconnect.Connection.OnWelcome` | connectors/chrome/src/connection.ts:201-205 | A welcome resets the wait |
| `Reconnect.Connection.OnClose` | connectors/chrome/src/connection.ts:145-155 | A closed socket leads to a redial unless closed for good |
| `Reconnect.Connector.Dial` | packages/connector-sdk/src/index.ts:76-119 | The same for the connector: an unreadable discovery file, a missing or a nonpositive port is a scheduled redial; a port above 65535 makes the socket constructor throw out of dial with nothing scheduled |
| `Reconnect.Connector.ScheduleRedial` | packages/connector-sdk/src/index.ts:179-186 | The same wait |
| `Reconnect.Connector.Close` | packages/connector-sdk/src/index.ts:49-56 | The same close |
| `Reconnect.Connector.OnFatalError` | packages/connector-sdk/src/index.ts:156-175 | A version mismatch or failed authentication closes for good |
| `Reconnect.OneAtATime` | connectors/chrome/src/connection.ts:100-170 | In every interleaving there is at most one armed timer or unclosed socket; while started and not closed exactly one, or none if and only if a dial threw; and no timer once closed |
| `Reconnect.BrowserIsNeverStranded` | connectors/chrome/src/connection.ts:137-167 | The browser catches every exception of a dial, so its loop always has exactly one timer or socket while it runs |
| `Reconnect.SdkStrandedExactly` | packages/connector-sdk/src/index.ts:76-119 | A started, unclosed connector has neither timer nor socket if and only if one of its dials read a port above 65535 |
| `Reconnect.PortTooHighStrands` | packages/connector-sdk/src/index.ts:76-105 | Port 65536 in the discovery file: started, not closed, and nothing armed or open |
| `Reconnect.WaitsDouble` | connectors/chrome/src/connection.ts:246-253 | Every timer is armed with min(1000 * 2^k, 30000) ms after k failures since the last welcome |
| `Reconnect.NeverDialsOnceClosed` | packages/connector-sdk/src/index.ts:49-119 | After the close no socket is made and no timer armed |
| `Reconnect.ClosedExactly` | connectors/chrome/src/connection.ts:100-175 | A client is closed if and only if it was closed or refused for good |
| `Reconnect.CloseShutsEverything` | connectors/chrome/src/connection.ts:100-108 | Once closed, no socket of the client is open, in any continuation |
| `Reconnect.CloseAnyTime` | connectors/chrome/src/connection.ts:100-108 | A client can be closed at any time, also before it is started |
| `Reconnect.DialExactly` | packages/connector-sdk/src/index.ts:76-119 | A dial with a port from 1 to 65535 opens one socket and does nothing else; with none, or one below, it arms the next wait; with one above, it does nothing |
| `LineReader.Reader.OnData` | packages/mcp/src/ipc.ts:60-74 | The loop over the buffer |
| `LineReader.Reader.Next` | packages/mcp/src/ipc.ts:87-97 | A queued line, a refusal once closed, or a waiter |
| `LineReader.CutExact` | packages/mcp/src/ipc.ts:61-73 | The segments with their newlines, and the rest, are the text |
| `LineReader.LinesHaveNoNewline` | packages/mcp/src/ipc.ts:63-65 | No line and no rest holds a newline, so the cut is the only one |
| `LineReader.LinesAppend` | packages/mcp/src/ipc.ts:60-74 | Cutting chunk by chunk with a carried rest equals cutting the whole |
| `LineReader.LinesInOrder` | packages/mcp/src/ipc.ts:52-98 | In every interleaving of chunks, close and one-at-a-time calls, the lines delivered followed by those queued are the lines of the stream; a waiter is there only while the queue is empty |
| `LineReader.CallsAreAnswered` | packages/mcp/src/ipc.ts:87-97 | Every call got one line, was refused, or is the one that waits |
| `LineReader.ClosedExactly` | packages/mcp/src/ipc.ts:76-97 | The reader is closed exactly if the socket was, whenever that came, and then no call waits: each got a line or was refused |
| `LineReader.ChunkingDoesNotMatter` | packages/mcp/src/ipc.ts:60-74 | Two runs over the same stream that delivered equally many lines delivered the same ones and hold the same rest |

## Left out

The codecs:

- Floating point, `Number`, `**` and `toPrecision`: the calculator's theorems hold in every algebra of the operators, so rounding is not described.
- UTF-8 encoding of archive names and of HTML text: names are bytes, texts are UTF-16 code units as JavaScript has them.
- `JSON.parse`, `JSON.stringify` and `String`: an object is its list of keys and already converted values, and what objects inherit is a parameter.
- Base64, URL, SHA, colour, unit and line tools: single expressions or library calls.

The orchestrator and focus mode:

- The content of captured workspaces, the restore commands sent during an activation itself, the payload `remove_captured_item` writes (its lock is in `CapsuleProtocol`), git, and the warnings collected on the way.
- The wrap of the 64-bit generation, cancelled futures, and panics of `Instant` and `Duration`.
- Session.Conservation: for sessions below 2^63 seconds, where the stored total does not saturate.
- Session.ArchiveDropsLittle: for a removal whose flush succeeded, since one whose flush fails returns without clearing anything; time between the flush and the clearing is not metered by the code.
- FocusPhase.Desk.Reconcile: nobody else opens or closes anything meanwhile; a command is carried out altogether or not at all, so a browser call that fails midway is not described; and a disposed terminal is gone at once, while the editor's own list is updated a little later. Each kind's items are one list of the connector that the restore used.
- Tabs.Browser.TabsClose: as one step, without tabs that change between its two queries and the removal; a tab that navigates in between may be closed under its new address.

The hub:

- Handshake, authentication, tokens, ping frames on the wire, and broadcast events with their exact number.
- Whether the connection that answers is the one that was asked: the code does not check it, and the model lets any serving connection answer any request.
- HubProtocol.EverythingEnds: that what was begun can be carried on, and only so often; when the runtime takes a step is up to its scheduler and timers.

The store:

- SQLite: tables are maps, a transaction is a function to a new state or the old one. Timestamps, icons, install ids and error texts of rows are not kept; names and titles are taken as already trimmed.
- New ids are parameters that are not in use, as random UUIDs are taken to be.
- Failing database writes other than by a constraint.
- `rename_task`, `set_task_status`, `set_project_icon` and the list queries as methods: single-row updates and selections; the first two are operations of the laws about all operations. `add_active_seconds` is part of `Session`, not of these laws.
- Aliasing of JSON values: the rewrite in place returns the new value and count.
- BundleLaws.KeepBothKeeps: for a new id whose name suffix is not taken, which only matters after 999 taken names.
- BundleFates.FatesExactly: for bundles without a repeated project id, and, where names decide, without a project that is live here under the same id.
- Connectors and events of a bundle: the code inserts them after the rows modelled here, and counts a pairing even when its row changed nothing.
- Bundle parsing, and of the review before a merge its lists of name collisions and of applications.

Clipboard and watchers:

- The native clipboard and application calls, persistence of settings, error texts, and the display order of a snapshot.
- ClipboardProtocol.NothingStale: up to 2^64 revisions during one read, after which the 64-bit revision comes round again.
- Clock readings below a second: entries carry whole seconds of the monotonic clock.
- The check of new watcher settings, the events, and the worker around `step`, which drops a snapshot taken under older settings.

The peers:

- Frames, pairing tokens, alarms that wake the browser's worker, and `emit`.
- LineReader.LinesInOrder: `next` is called one at a time, as its only caller does, and no data arrives after the close.
