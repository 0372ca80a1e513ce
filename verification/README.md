# Aedifex evidence kernel: models and proofs

Aedifex reads construction documents, keeps what they state as facts with provenance, decides which fact
governs, computes from it, and lets people review the conclusions. This project models the deterministic
core of that pipeline and proves what it promises. `dafny verify dfyconfig.toml` checks everything.

Code that updates things step by step is modelled by classes and methods with loops, each proved equal to
a specification function; the promises are then proved of the specification over all inputs, runs and
interleavings. Code that is an expression is modelled by functions.

| file | what it models |
|---|---|
| `RowArithmetic.dfy`, `Decimals.dfy`, `MoneyText.dfy` | printed figures, and whether a bill row's three figures can agree |
| `Spreadsheet.dfy` | reading a sheet, and which of its cells the table of facts keeps |
| `BillReader.dfy`, `LineLayout.dfy`, `BillDocument.dfy` | the two bill-of-quantities layouts and the choice between them |
| `Json.dfy`, `Conclusions.dfy`, `Findings.dfy` | the canonical text of a conclusion, evidence citations, reviews and their staleness |
| `Selection.dfy`, `Calculation.dfy` | which fact governs, and the values derived from the governing facts |
| `Supersession.dfy`, `CurrentEvidence.dfy` | histories of supersession decisions, and what they do to derived values |
| `PageBudget.dfy`, `Transcription.dfy` | character budgets, and concurrent transcription with a deadline |
| `Tables.dfy`, `Keys.dfy`, `Projects.dfy`, `WorkItems.dfy` | the idempotent grouping and linking passes and their normalised keys |
| `FactStore.dfy`, `DerivedFacts.dfy`, `Withdrawal.dfy` | storing, withdrawing and deriving facts over re-runs |
| `Audit.dfy` | the traceability walk with its cache of verdicts |
| `Content.dfy`, `Disposition.dfy` | content identity whatever the chunking, format resolution, header parameters |
| `Lifecycle.dfy` | the per-URL and per-document state machines, and the crawl queue with crashes |
| `Provisions.dfy` | band choice, and the amount a clause requires |
| `Options.dfy`, `Ordering.dfy`, `Sequences.dfy`, `Text.dfy` | missing values, total orders and sorting, sequence and string laws |

## What stands for what

- `Decimal` is a coefficient and an exponent with a view to `real`. Arithmetic is exact: Python's 28-digit
  context is out of reach of bill figures.
- Regular expressions are abstract classifications of one line (`Grammar`, `RowGrammar`); every result about
  the readers holds for any of them. The pattern for a money line, and the parser of one, are concrete.
- SHA-256, UUIDv5 and the text of an identifier are injective functions. Upper-casing is any map of
  characters to strings that keeps the separators and the digit zero; ASCII's is shown to be one.
- A table is a map from its natural key, which stands for its unique constraint. Row order where the
  database chooses it is an arbitrary sequence. `extractor_version` is compared as a string.
- The OCR engine, page images, fetching, the object store and the clock are arbitrary functions, inputs or
  nondeterministic steps. A worker that crashes, or raises out of its transaction, leaves what was committed.

## Where the code differs from what is written about it

- A heading's figures are counted once for every sub-item below it that prints fewer than three of its own;
  each borrows exactly what it lacks (`BillReader.SharedFigureIff`, `BillReader.FiguresComeFromOwnTailFirst`).
- A review is said to go stale when a citation changes. The digest is taken only when the finding itself is
  persisted; a cited row rewritten since then leaves the review current over figures nobody accepted
  (`Findings.CurrentMeansSameConclusionIff`, `Findings.AcceptanceOutlivesItsFigure`).
- `ocr_document` returns early for a document without page images and reports it complete; its docstring says
  `truncated` is set whenever a bound stopped the read (`Transcription.TruncationHonestIff`).
- `ReconcileOutcome` and `LinkOutcome` say they are all zeroes on a second run. Documents without a key and
  facts without an item are counted again every time (`Projects.SecondReportZeroIff`,
  `WorkItems.SecondReportZeroIff`), and linking one of two projects that share a document takes its facts from
  the other (`WorkItems.SharedFactsAreRelinkedIff`).
- With a source filter, documents without a key are counted once per arrival
  (`Projects.FilteredCountIsExactIff`).
- A work item keeps recording the match of the run that created it, whatever spellings join or leave it later
  (`WorkItems.MatchIsHonestIff`, `WorkItems.TwoSpellingsMislead`).
- Linking reads every extractor version, in an order that ties the facts of one row, which matters exactly when
  a row states different item numbers (`WorkItems.TieOrderIsHarmlessIff`). It reads withdrawn facts too, which
  only adds them to the count of facts without an item (`Withdrawal.WithdrawalNeverReachesAnItem`).
- Facts are said to be stored for each line of a table; their key has no column, so two columns that mean the
  same overwrite each other (`Spreadsheet.HeaderLosesNothingIff`, `Spreadsheet.QuantityTwice`).
- Mutual supersession is said to leave both documents unknown; the last decision to write a document decides
  (`Supersession.LastRewriteDecides`, `Supersession.MixedStandingDependsOnOrder`), and longer cycles are not
  noticed at all (`Supersession.ThreeCycleLeavesNothingCurrent`).
- Splitting a header is said never to cut a quoted name in half. A quote inside a name is written with a
  backslash, which the splitting does not know (`Disposition.EscapedNameComesBackIff`,
  `Disposition.QuotedSemicolonIsCut`).
- A bill total below the sum of the rows is said to total a part; a missed rebate has the same effect
  (`LineLayout.WholeTotalAdoptedIff`).
- A block with two complete triples is said to be refused; only the one directly before the last is looked at
  (`BillReader.TripleMissedIff`).
- `ContentAccumulator.update` says it raises before the chunk is counted as stored; the size reported later includes it
  (`Content.IdentityIsFaithfulIff`).
- A cancelled retry is put back as discovered, not where it was (`Lifecycle.CancellationRestoresIff`).
- Recovery of expired leases is said to protect against a URL that kills its worker. The crawl runner begins
  and finishes a URL in one transaction, so a crash leaves no row in the state recovery looks for, and such a
  URL is retried without end (`Lifecycle.PoisonIsSetAsideIff`, `Lifecycle.NothingIsEverReclaimed`).
- A lease is said never to expire under a request. One lease covers a whole batch and is not looked at again,
  so a URL can be tried by more than one worker and fail more often than allowed
  (`Lifecycle.AllowanceIsKeptIff`).
- A page that was read is said to be left as discovered; one that failed first stays failed
  (`Lifecycle.ReadPageIsDiscoveredIff`).
- `select_provision` raises for a document that arrived more than once, even from one source
  (`Provisions.AnsweredIffArrivedOnce`).
- The audit compares a provision's bytes when a finding cites it, not when a calculation applied it
  (`Audit.AppliedBytesMatterIff`, `Audit.AppliedProvisionBytesAreNotCompared`).
- A quantity without a unit agrees with any other, so one work item's results can be in different units
  (`Calculation.ResultsMixUnitsIff`).
- A value withdrawn and then read again under the same extractor version stays withdrawn
  (`FactStore.ReextractionDoesNotRestore`).

## Model

| member | source | states |
|---|---|---|
| RowArithmetic.ReviewIffUnexplained | src/aedifex/calculation/row_arithmetic.py:132-182 | A row is in review exactly when no true rate, and no amount computed from it, could both have been printed as this row prints them; for every sign and for zero quantity |
| RowArithmetic.ThreeVerdicts | src/aedifex/calculation/row_arithmetic.py:146-182 | A row is exact exactly when its product is its amount, and explained by display rounding exactly when it is not but a hidden rate and amount could have been printed so |
| RowArithmetic.PlacesAreReported | src/aedifex/calculation/row_arithmetic.py:118-168 | The amount as stated, the places rate and amount were printed to, the unit of the last place of the rate, and how far the implied rate is from the stated one |
| RowArithmetic.ClosesIffWithinEnvelope | src/aedifex/calculation/row_arithmetic.py:146-177 | The verdict as one inequality: the amount is within half a printed place of the amount plus quantity times half a printed place of the rate |
| RowArithmetic.HonestRowsAlwaysClose | src/aedifex/calculation/row_arithmetic.py:169-182 | A bill that prints a true rate and its true product, each rounded to its own places, is never sent to review |
| RowArithmetic.BillTotalWithinEnvelope | src/aedifex/extraction/pdf_boq.py:259-261 | Over any bill without a row in review the total differs from the sum of exact products by at most the sum of the row envelopes |
| RowArithmetic.WindowIsExact | src/aedifex/calculation/row_arithmetic.py:155-158 | The reported minimum and maximum are attained, and bound exactly the amounts a hidden rate can produce; the signed difference completes the product to the amount |
| RowArithmetic.MorePlacesNeverExcuse | src/aedifex/calculation/row_arithmetic.py:118-129 | Printing the same values to more places never turns a reviewed row into an accepted one |
| RowArithmetic.NormalisingExcusesIff | src/aedifex/calculation/row_arithmetic.py:118-125 | Normalising the rate would excuse a reviewed row exactly when the amount is off by more than the envelope as printed and by no more than the envelope of the shorter rate |
| RowArithmetic.NormalisingExcusesSomeIff | src/aedifex/calculation/row_arithmetic.py:118-125 | Why parsing must keep the exponent: normalising would excuse some amount exactly when the quantity is not zero and the rate was printed with a trailing zero decimal |
| RowArithmetic.ImpliedRateMeaning | src/aedifex/calculation/row_arithmetic.py:160-164 | The implied rate is the amount per unit to half of the tenth decimal, and is absent exactly for a zero quantity |
| Decimals.NormaliseIsNumericEquality | src/aedifex/extraction/selection.py:112-116 | Normalised decimals are equal exactly when they are the same number, so 500 and 500.00 are one value and nothing else is merged |
| Decimals.QuantiseIsNearest | src/aedifex/extraction/store.py:393-397 | Quantising lands on the column scale within half of its last place |
| MoneyText.MoneyLineMeaning | src/aedifex/extraction/pdf_boq.py:264-279 | A line the money pattern accepts can be read exactly when its brackets match, and then means its digits in hundredths, negative inside brackets, wherever the commas stand |
| MoneyText.BracketsNegate | src/aedifex/extraction/pdf_boq.py:267-270 | Bracketing an amount negates its value |
| MoneyText.MoneyLineIff | src/aedifex/extraction/pdf_boq.py:181 | A money line is digits and commas, a point and two digits, with or without a bracket on either side |
| MoneyText.DigitsMean | src/aedifex/extraction/pdf_boq.py:264-279 | What a run of digits writes, digit by digit |
| MoneyText.FigureMeaning | src/aedifex/extraction/pdf_boq.py:264-279 | Any figure of digits is read as a whole number, or with as many places as stand behind its point |
| BillReader.SequentialItemStarts | src/aedifex/extraction/pdf_boq.py:318-339 | The loop over the lines computes the greedy run of consecutive item numbers |
| BillReader.StartsAreNumbered | src/aedifex/extraction/pdf_boq.py:318-339 | The starts are strictly increasing lines numbered exactly 1..k |
| BillReader.GreedyIsOptimal | src/aedifex/extraction/pdf_boq.py:318-339 | No selection of lines numbered 1..k in order is longer, and none reaches any number earlier |
| BillReader.PrefixStarts | src/aedifex/extraction/pdf_boq.py:677-679 | The starts of any prefix are the full starts below the cut, which filtering relies on |
| BillReader.FirstStartIsFirst | src/aedifex/extraction/pdf_boq.py:664-665 | The first start is the first line numbered 1, and there is none exactly when no line is |
| BillReader.CutAtTotal | src/aedifex/extraction/pdf_boq.py:664-679 | The bill is cut at the first total label after the first item, with its item starts and its stated total |
| BillReader.TotalIsStatedAfterItsLabel | src/aedifex/extraction/pdf_boq.py:624-631 | The bill states the first readable money line after its total label, where and as it is printed, and nothing exactly when there is no label or no such line |
| BillReader.ItemBlocksConserve | src/aedifex/extraction/pdf_boq.py:661-691 | From the first item to the total row the item blocks are consecutive, disjoint pieces that lose no line; piece i opens with the line numbered i+1 and no later line of the table is a total label |
| BillReader.SplitSubItems | src/aedifex/extraction/pdf_boq.py:716-743 | The splitting loop computes the sub-blocks of a block |
| BillReader.SubItemsConserve | src/aedifex/extraction/pdf_boq.py:732-743 | Every line after the first marker is in exactly one sub-block, in order, under the repeated heading, and markers open sub-blocks and appear nowhere else |
| BillReader.FiguresComeFromOwnTailFirst | src/aedifex/extraction/pdf_boq.py:365-388 | A sub-item prices itself with its own last figures, borrowing from the repeated heading exactly as many as it is short of three |
| BillReader.SharedFigureIff | src/aedifex/extraction/pdf_boq.py:736-743 | Two priced sub-items of one block report a common printed heading figure exactly when each prints fewer than three of its own, and then which ones; both report one printed amount exactly when neither prints any |
| BillReader.HeadingCountedTwice | src/aedifex/extraction/pdf_boq.py:736-743 | For example: a heading that prints three figures over two sub-items that print none yields two rows with the same figures |
| BillReader.ReadItems | src/aedifex/extraction/pdf_boq.py:683-701 | The loop over items accepts and refuses the sub-blocks of every item in order |
| BillReader.ReadHeadingLayout | src/aedifex/extraction/pdf_boq.py:658-713 | The imperative reader computes the specified rows, refusals, first page and stated total |
| BillReader.EveryPricedSubBlockIsARow | src/aedifex/extraction/pdf_boq.py:696-701 | Rows are numbered 1..n, one from each priced sub-block, in the order of the bill |
| BillReader.RowsAreNumbered | src/aedifex/extraction/pdf_boq.py:387-400 | Each row has its own position as number and its own sub-block's identifier, page and last three figures: no row is invented |
| BillReader.UnitIsStated | src/aedifex/extraction/pdf_boq.py:342-355 | A unit is a whole line of the block, or failing any such line the last word of one; it is missing exactly when there is neither |
| BillReader.EachLineDescribes | src/aedifex/extraction/pdf_boq.py:383-386 | A row is described by the lines of its block that are neither money nor a unit, all of them and in order |
| BillReader.RowIsDescribed | src/aedifex/extraction/pdf_boq.py:393-402 | The description is those lines joined by spaces, stripped and cut to 2000 characters, beside the unit the block states |
| BillReader.EveryRefusalIsReported | src/aedifex/extraction/pdf_boq.py:379-385 | Every sub-block whose last three figures stand directly behind a complete triple is reported with its figures, in order, and nothing else is |
| BillReader.TripleMissedIff | src/aedifex/extraction/pdf_boq.py:373-388 | A block that holds another complete triple is accepted all the same, reporting only its last three figures, exactly when that triple does not stand directly before them |
| BillReader.ItemVanishesIff | src/aedifex/extraction/pdf_boq.py:692-701 | An item leaves neither a row nor a refusal exactly when it runs over the line limit, whatever it prints, or no sub-block of it prints three figures |
| BillDocument.FindTablePage | src/aedifex/extraction/pdf_boq.py:297-315 | The first page carrying heading and both column headers, or none |
| BillDocument.CollectLines | src/aedifex/extraction/pdf_boq.py:647-656 | The nested loops collect the bill's lines with their pages |
| BillDocument.BillLinesExact | src/aedifex/extraction/pdf_boq.py:647-656 | The collected lines are exactly the non-blank, non-marker lines of the pages from the table's page on |
| BillDocument.TableStartsFirst | src/aedifex/extraction/pdf_boq.py:297-315 | The table starts on the first page that opens one |
| BillDocument.EachPageRead | src/aedifex/extraction/pdf_boq.py:647-656 | A page from the one of the table on adds its lines in order, and one before it nothing |
| BillDocument.EachLineKept | src/aedifex/extraction/pdf_boq.py:651-656 | A line is kept with its page unless it is blank or a page marker |
| BillDocument.ReadPdfBoq | src/aedifex/extraction/pdf_boq.py:634-713 | The line layout is read only when no page opens a table; otherwise the result is that of the heading layout |
| BillDocument.RowsStartAtTheTable | src/aedifex/extraction/pdf_boq.py:297-315 | No row is placed before the page the table starts on, however often the bill is mentioned earlier |
| LineLayout.ReadLineLayout | src/aedifex/extraction/pdf_boq.py:528-621 | The reader's loops compute the fold of one-line steps, report no refusals, and choose the first covering total |
| LineLayout.ReadPage | src/aedifex/extraction/pdf_boq.py:540-611 | One page of lines advances every variable the reader carries as the step function says |
| LineLayout.EachRowIsOneLine | src/aedifex/extraction/pdf_boq.py:544-611 | Each row is one line's figures as printed, no line gives two, and rows are numbered 1..n down the document |
| LineLayout.BareTripleFollowsUnit | src/aedifex/extraction/pdf_boq.py:560-600 | A row without a unit of its own stands directly under a line that is only a unit, and takes that unit |
| LineLayout.LineMeans | src/aedifex/extraction/pdf_boq.py:544-590 | Which lines price a row and with which figures, and which state an item number |
| LineLayout.RowIsDescribed | src/aedifex/extraction/pdf_boq.py:576-604 | What a row is called and described by, in which unit, and in which place |
| LineLayout.ContextStands | src/aedifex/extraction/pdf_boq.py:562-572 | Which lines stand above a row as its description: those since the last row or item number, up to a limit |
| LineLayout.CandidatesAreTotals | src/aedifex/extraction/pdf_boq.py:545-554 | The candidates for the total of the bill are the skipped lines that state a readable figure above nothing, all of them and in order |
| LineLayout.LinesAreThePages | src/aedifex/extraction/pdf_boq.py:540-543 | The pages are read one after another, each line on its own page |
| LineLayout.IdentifierIsNearest | src/aedifex/extraction/pdf_boq.py:544-605 | The identifier in force is the item number stated nearest above; before any it is empty |
| LineLayout.BillTotal | src/aedifex/extraction/pdf_boq.py:498-525 | The first total in document order not smaller than the sum of the rows, or none when every candidate is smaller |
| LineLayout.WholeTotalAdoptedIff | src/aedifex/extraction/pdf_boq.py:498-525 | When every total before it falls short, the total of the whole bill is adopted exactly when the rows missed do not add up to less than nothing |
| Conclusions.CanonicalIffSame | src/aedifex/domain/review.py:100-106 | The canonical text is injective: two conclusions encode alike exactly when rule, verdict, values, the stringified detail mapping and the nested evidence lists are equal, None apart from the empty string |
| Conclusions.FingerprintIffSame | src/aedifex/domain/review.py:100-107 | So is the digest, and iteration order alone never changes it |
| Conclusions.PayloadMembers | src/aedifex/domain/review.py:100-105 | The members of the object that is digested, in the order of their names |
| Json.ParsePrinted | src/aedifex/domain/review.py:106 | A parser inverts the canonical printer on every value, whatever text follows |
| Json.PrintInjective | src/aedifex/domain/review.py:106 | No two values print alike |
| Findings.CiteInjective | src/aedifex/infrastructure/database/models.py:805-844 | No two evidence links of different content, of whatever kinds, are cited alike |
| Findings.CitationLists | src/aedifex/infrastructure/database/models.py:817-844 | What a citation of each kind lists, entry by entry |
| Findings.EvidenceIffSameCitations | src/aedifex/infrastructure/database/models.py:805-844 | The evidence part says which citations there are, and nothing about their order or the ids of the rows they come from |
| Findings.EvidenceIffSameContents | src/aedifex/infrastructure/database/models.py:805-844 | Links left alone show the same evidence exactly when every row they point to holds the same content |
| Findings.Finding.Persist | src/aedifex/extraction/store.py:256-307 | Re-analysis overwrites the verdict, rebuilds the links and takes the digest last, over the cited rows as they are then; reviews are kept |
| Findings.Finding.Rewrite | src/aedifex/extraction/store.py:133-152 | A re-read overwrites a cited row where it stands and touches nothing of the finding |
| Findings.Finding.RecordReview | src/aedifex/review/__init__.py:39-104 | A blank note or reviewer is refused and changes nothing; otherwise one review is appended, capturing the three columns from the finding |
| Findings.Finding.CurrentReview | src/aedifex/infrastructure/database/models.py:855-892 | The newest review whose three columns are the present ones, or none exactly when no review has them |
| Findings.RunsAreValid | src/aedifex/extraction/store.py:305-307 | Through any run of re-analyses, rewritten rows, hand-made updates and reviews the stored digest is that of the conclusion last persisted, over the rows as they were then |
| Findings.DigestCoversTheConclusion | src/aedifex/extraction/store.py:268-307 | The digest taken at a persist covers rule, version, outcome, what was expected and observed, detail and the cited rows |
| Findings.ShownAsStored | src/aedifex/infrastructure/database/models.py:805-854 | A reader is shown the columns of the finding and its links followed to the rows as they are |
| Findings.ColumnsDecideMatch | src/aedifex/infrastructure/database/models.py:884-892 | Comparing the three stored columns decides whether outcome, rule version and digested conclusion agree, both ways |
| Findings.CurrentMeansSameConclusionIff | src/aedifex/infrastructure/database/models.py:855-892 | A review that counts as current was made of the conclusion now shown exactly when the cited rows show what they showed then: for a review of a finding as persisted, exactly when no cited row changed since the finding was last persisted |
| Findings.CurrentOverRunsIff | src/aedifex/infrastructure/database/models.py:855-892 | The same over every run, for the review recorded at any step: in general by what the cited rows show, and by what changed since the last persist if nothing had changed at the review |
| Findings.RewritingGoesUnnoticed | src/aedifex/extraction/store.py:393-409 | Rewriting a row leaves every review as current as it was, and changes what is shown exactly when the finding cites the row and the content differs |
| Findings.AcceptanceOutlivesItsFigure | src/aedifex/infrastructure/database/models.py:862-866 | At a run where a cited 520 is accepted and then read again as 900, the acceptance is still current over the 900 |
| Selection.ReadNewestPerClaim | src/aedifex/extraction/selection.py:72-103 | The dictionary loop keeps, for each (document, row), the newest reading, sorted by claim |
| Selection.KeptIffNewest | src/aedifex/extraction/selection.py:92-103 | Under the table's unique keys exactly the newest reading of each claim is kept |
| Selection.NewestIgnoresOrder | src/aedifex/extraction/selection.py:98-103 | Any two orders of the same rows keep the same facts, listed alike |
| Selection.ComparableIffAgree | src/aedifex/extraction/selection.py:106-116 | Two facts are one claim exactly when they are the same number (or the same words when neither is one) in the same unit and currency |
| Selection.SelectOne | src/aedifex/extraction/selection.py:131-223 | The selection loop computes the specified decision, with considered and excluded facts and the reason |
| Selection.ChoosesIffAgreed | src/aedifex/extraction/selection.py:145-223 | A fact is chosen exactly when the active newest claims are non-empty and all agree; conflict is reported exactly when two of them do not |
| Selection.ChosenIsLive | src/aedifex/extraction/selection.py:131-145 | What is chosen is unretracted, from a current document, and the newest reading of its claim |
| Selection.SelectionMeans | src/aedifex/extraction/selection.py:72-222 | In the columns of the facts: what is considered and in which order, what is left out, what is chosen and when it conflicts |
| Selection.ReasonMeans | src/aedifex/extraction/selection.py:119-222 | Why: nothing stated, only evidence left out and for which reasons, one fact, agreement or conflict among how many documents or rows |
| Ordering.LessIff | src/aedifex/extraction/selection.py:96 | A version string is older than another exactly when it is a proper beginning of it, or has the lower character where they first differ |
| Selection.SelectionIgnoresOrder | src/aedifex/extraction/selection.py:119-223 | Every permutation of the facts gives the same choice, considered list, conflict flag and reason, and the same multiset of excluded facts |
| Selection.SelectFacts | src/aedifex/extraction/selection.py:226-240 | There is an entry for every type seen, the unresolved ones included |
| Calculation.AnalyseWorkItem | src/aedifex/extraction/runner.py:741-760 | Selections, the chosen facts, and calculations on the chosen facts only |
| Calculation.WithdrawnEvidenceDoesNotInterfere | src/aedifex/extraction/runner.py:751-760 | Chosen facts and derived values depend on the active evidence alone |
| Calculation.EditingWithdrawnFacts | src/aedifex/extraction/selection.py:131-145 | Editing retracted facts, or facts of documents that are not current, leaves the active evidence as it was |
| Calculation.CalculationsReadSettledFacts | src/aedifex/extraction/runner.py:752-760 | Every input of every calculation is a chosen, live fact of a type whose candidates do not conflict |
| Calculation.ComputeForWorkItem | src/aedifex/calculation/engine.py:386-410 | The four calculations in order on the newest fact of each type, the last consuming the first |
| Calculation.ResultsMean | src/aedifex/calculation/engine.py:231-328 | Each result in the figures the facts state: claim over measurement, contract left over claim, claimed rate over contracted rate; with its currency and the facts it cites |
| Calculation.ResultsPresentIff | src/aedifex/calculation/engine.py:231-383 | Which of the four results there are, by the numbers and units the facts state |
| Calculation.ExposureMeaning | src/aedifex/calculation/engine.py:303-328 | Unsupported amount is zero unless the claim exceeds the measurement and is then their difference times the contract rate; it is never computed from quantities that cannot be compared |
| Calculation.ComparableThroughIff | src/aedifex/calculation/engine.py:347-383 | Comparability does not depend on order, and passes through a third quantity unless that one states no unit and the outer two state different ones |
| Calculation.ResultsMixUnitsIff | src/aedifex/calculation/engine.py:356-359 | The two quantities computed for one work item are in different units exactly when the claim states none while contract and measurement state different ones |
| Calculation.BillSumReadsOneExtraction | src/aedifex/calculation/engine.py:155-177 | The bill total adds exactly the newest extraction's line amounts, in row order, and is absent exactly when there are none |
| Calculation.SumsAdd | src/aedifex/calculation/engine.py:155-190 | Sums add up: of nothing there is nothing, of one row its amount, of two lists the two sums |
| Calculation.BillSumIgnoresOrder | src/aedifex/calculation/engine.py:171-177 | The sum and its inputs do not depend on the order rows were read in |
| PageBudget.ExtractText | src/aedifex/extraction/pdftext.py:107-146 | The page loop keeps what the budget allows and reports truncation; limits below one are refused |
| PageBudget.KeptIsPrefix | src/aedifex/extraction/pdftext.py:126-146 | The kept text is exactly the beginning of the offered text, as much as the budget allows |
| PageBudget.KeptPagesInOrder | src/aedifex/extraction/pdftext.py:118-139 | Pages are kept from the first on, each whole but the last |
| PageBudget.NeverOverspent | src/aedifex/extraction/pdftext.py:127-144 | The budget is never overspent |
| PageBudget.TruncatedExactly | src/aedifex/extraction/pdftext.py:128-146 | Not truncated exactly when all pages fit both limits with budget left before the last page, and then every page is there in full |
| Transcription.Assemble | src/aedifex/extraction/ocr.py:441-459 | Ordered aggregation spends the budget in page order over whatever was transcribed |
| Transcription.TranscribeSerially | src/aedifex/extraction/ocr.py:423-478 | The serial path yields the ordered result of what it read before the clock ran out |
| Transcription.RunsAreSound | src/aedifex/extraction/ocr.py:400-422 | In every interleaving of starting, finishing, collecting and the deadline sweep, each text held is the engine's reading of that very page |
| Transcription.WorkersAreEnough | src/aedifex/extraction/ocr.py:400-419 | No more pages are read at once than there are workers, and the sweep counts exactly the pages it cancels |
| Transcription.NothingStaysQueued | src/aedifex/extraction/ocr.py:411-421 | The sweep leaves no page queued behind it, and none at all by the end |
| Transcription.FinishedInTimeIsKept | src/aedifex/extraction/ocr.py:411-421 | A page finished when the deadline fired is in the result when the pool closes |
| Transcription.SomeEventIsEnabled | src/aedifex/extraction/ocr.py:400-422 | No interleaving gets stuck before the pool is closed |
| Transcription.EveryInterleavingGivesTheSerialResult | src/aedifex/extraction/ocr.py:395-478 | A run the deadline does not cut off gives exactly the serial result, whatever the completion order |
| Transcription.HarmlessDeadlineGivesTheSerialResult | src/aedifex/extraction/ocr.py:441-478 | A deadline that cost no page changes nothing either |
| Transcription.EveryRunStaysInBudget | src/aedifex/extraction/ocr.py:441-459 | In every run the text kept is a prefix of what was transcribed, within the character budget |
| Transcription.DeadlinePagesAreNotLost | src/aedifex/extraction/ocr.py:442-478 | With at least one page image, a result not marked truncated holds every page 1..n with its full transcription, even if the deadline fired |
| Transcription.TruncationHonestIff | src/aedifex/extraction/ocr.py:386-387 | The truncation flag can be trusted exactly when there is a page image to read or no page at all |
| Transcription.UnreadScanLooksComplete | src/aedifex/extraction/ocr.py:386-387 | A five-page scan without extractable images is reported as whole and empty |
| Supersession.Corpus.RecordSupersession | src/aedifex/extraction/supersede.py:83-159 | The four refusals in order change nothing; otherwise the row is added if absent and the states written as specified, filed under a shared project |
| Supersession.EveryHistoryIsSound | src/aedifex/extraction/supersede.py:83-159 | After any calls: no self or duplicate edge, both ends known and sharing a project, and every standing explained by the rows |
| Supersession.ActiveIffNothingSupersedesIt | src/aedifex/extraction/supersede.py:135-159 | A document is current exactly when no row supersedes it |
| Supersession.HistoryOnlyGrows | src/aedifex/extraction/supersede.py:124-133 | Rows are only added and a document once superseded never becomes current again |
| Supersession.RowsAreTheAcceptedDecisions | src/aedifex/extraction/supersede.py:83-133 | The rows are exactly the accepted decisions |
| Supersession.RowsAreFiledOnce | src/aedifex/extraction/supersede.py:116-134 | Each row is filed as the first decision of its kind: under that project and by that person |
| Supersession.RefusalMeans | src/aedifex/extraction/supersede.py:78-111 | Why a decision is refused, in the order it is checked |
| Supersession.CurrentIgnoresOrder | src/aedifex/extraction/supersede.py:135-159 | Which documents are current does not depend on the order, or repetition, of the decisions |
| Supersession.StaysUnknownIff | src/aedifex/extraction/supersede.py:145-159 | An unknown document is still unknown after a decision unless that decision replaces it by a document it never replaced |
| Supersession.LastRewriteDecides | src/aedifex/extraction/supersede.py:138-159 | Over every history a document ends unknown exactly when the last accepted decision that writes it finds its opposite among the earlier ones, and superseded exactly when that one does not |
| Supersession.MixedStandingDependsOnOrder | src/aedifex/extraction/supersede.py:145-159 | For example the same three decisions in two orders leave one document superseded and unknown |
| Supersession.EveryChainHasAHead | src/aedifex/extraction/supersede.py:83-159 | Without a cycle every superseded document leads back to a current one |
| Supersession.SomeoneIsOrphanedIffHeadless | src/aedifex/extraction/supersede.py:135-143 | Some document is led to by no current one exactly when some non-empty group is replaced only from within, every member of it |
| Supersession.ThreeCycleLeavesNothingCurrent | src/aedifex/extraction/supersede.py:135-159 | Three documents replacing each other in turn are all superseded, none current and none contradicted |
| CurrentEvidence.DecisionOrderNeverReachesAFigure | src/aedifex/extraction/runner.py:751-760 | Two histories of the same supersession decisions choose the same facts and derive the same values |
| CurrentEvidence.SupersededEvidenceIsNeverUsed | src/aedifex/extraction/selection.py:138-143 | No input of a derived value comes from a document a recorded decision supersedes |
| CurrentEvidence.OnlyCurrencyMatters | src/aedifex/extraction/selection.py:134-143 | Of a document's version state only whether it is current reaches a figure |
| Keys.ProjectKeyIff | src/aedifex/extraction/projects.py:94-107 | Two references are one key exactly when they are the same words in the same order, up to case |
| Keys.ProjectKeyIdempotent | src/aedifex/extraction/projects.py:94-107 | Normalising a project key again changes nothing |
| Keys.ItemIsItsSegments | src/aedifex/extraction/work_items.py:66-77 | Folding separators, upper-casing, splitting and trimming zeros amounts to cutting at the separators |
| Keys.SameItemIff | src/aedifex/extraction/work_items.py:66-77 | Two item numbers normalise alike exactly when their segments are equal up to case and leading zeros |
| Keys.NormaliseItemIdempotent | src/aedifex/extraction/work_items.py:66-77 | Normalising an item number again changes nothing |
| Keys.AsciiIsACaseMap | src/aedifex/extraction/work_items.py:75 | The hypotheses on case mapping hold of the ASCII one |
| Projects.Place | src/aedifex/extraction/projects.py:151-157 | The loop keeps one row for each document, and the order documents were first met |
| Projects.PlacedByStrongest | src/aedifex/extraction/projects.py:151-157 | A document is placed by its strongest identifier, and by the first row stating one that strong |
| Projects.TenderNumberWins | src/aedifex/extraction/projects.py:66-70 | A document is placed by the first row that states a tender number, and by the first that states a project reference exactly when none does |
| Projects.MemberIff | src/aedifex/extraction/projects.py:152-196 | After a run a document is a member where it was, and of the project named by the source and the normal form of the reference in its placing row |
| Projects.RelationshipMeans | src/aedifex/extraction/projects.py:198-205 | Two documents share a tender exactly if they did or some group of a tender number holds both, and a contract exactly if they did or some group of a project reference holds both |
| Projects.GroupKeyIff | src/aedifex/extraction/projects.py:159-162 | The key of a group is a tender number exactly when the first of its documents to appear states one |
| Projects.ProjectsAddedIff | src/aedifex/extraction/projects.py:168-185 | A run adds a project for every reference some document is placed by, and no other |
| Projects.MakeGroups | src/aedifex/extraction/projects.py:158-161 | The grouping loop files each placed document under its source and normalised reference, and keeps the first document's key fact |
| Projects.GroupHolds | src/aedifex/extraction/projects.py:158-184 | A group holds exactly the documents whose placing row has its source and reference, in ascending order |
| Projects.MembershipIsEvidence | src/aedifex/extraction/projects.py:128-161 | A grouped document states the group's reference in an unretracted fact and came from the group's own source, so no group spans two sources |
| Projects.PlacedOnce | src/aedifex/extraction/projects.py:150-161 | Every placed document is in exactly one group |
| Projects.KindFitsIff | src/aedifex/extraction/projects.py:62-64 | The kind of a group is that of the key fact of the first of its documents to appear, and fits them all exactly when they were placed by the same kind of fact |
| Projects.Database.LinkDocuments | src/aedifex/extraction/projects.py:227-264 | The nested loops add a relationship for each pair that has none, and count those added |
| Projects.Database.ReconcileProjects | src/aedifex/extraction/projects.py:110-224 | The pass leaves exactly the specified projects, memberships and relationships, and reports how many it added and how many candidates are unplaced |
| Projects.SecondRunAddsNothing | src/aedifex/extraction/projects.py:113-115 | A second run over the same rows changes nothing |
| Projects.SecondReportZeroIff | src/aedifex/extraction/projects.py:74-80 | A second report is all zeroes exactly when every candidate document was in a project before the first run or has an unretracted key fact and an allowed arrival |
| Projects.KeylessIsCountedAgain | src/aedifex/extraction/projects.py:74-80 | For example one document without a key is counted on every run |
| Projects.PutsExact | src/aedifex/extraction/projects.py:148-162 | The plan puts a document in the project its placing row names, and in no other |
| Projects.OrderIsHarmlessIff | src/aedifex/extraction/projects.py:132-162 | The query orders nothing: where documents are placed is independent of the order of its rows exactly when the strongest rows of each document all name one project |
| Projects.NothingIsRemoved | src/aedifex/extraction/projects.py:113-116 | No project, membership or relationship is removed or rewritten |
| Projects.RelatedIff | src/aedifex/extraction/projects.py:244-263 | A relationship exists afterwards exactly if it existed before or relates two documents of one group |
| Projects.OneRelationshipPerPair | src/aedifex/extraction/projects.py:227-264 | Every group of n documents ends with exactly n(n-1)/2 relationships of its kind, one for each pair, lower document first |
| Projects.UnfilteredCountIsExact | src/aedifex/extraction/projects.py:288-314 | Without a filter the report counts each analysed document outside every project once |
| Projects.FilteredCountIsExactIff | src/aedifex/extraction/projects.py:301-314 | With a source filter it counts documents exactly when no unplaced one arrived from that source more than once |
| Projects.OneDocumentCountedTwice | src/aedifex/extraction/projects.py:301-314 | One unplaced document both fetched and uploaded is reported as two |
| WorkItems.Database.LinkWorkItems | src/aedifex/extraction/work_items.py:80-182 | The pass leaves exactly the specified items and links and reports items created, facts linked and facts without an item |
| WorkItems.TallyAll | src/aedifex/extraction/work_items.py:113-131 | The grouping loop fills its dictionaries with the members, first spelling, first description and first unit of each item number |
| WorkItems.ClaimedByLast | src/aedifex/extraction/work_items.py:106-111 | A row is claimed by its last item number |
| WorkItems.FirstGiven | src/aedifex/extraction/work_items.py:128-131 | An item's description is the first a member gives and its unit the first a member states |
| WorkItems.NewItemMeans | src/aedifex/extraction/work_items.py:114-162 | A new item is named as the first fact on it spells its number, described by the first description and measured in the first unit any fact on it gives |
| WorkItems.OnlyDescriptionsAreAdded | src/aedifex/extraction/work_items.py:163-165 | An existing item only takes a description it lacked; nothing else about it changes |
| WorkItems.LinkedCounts | src/aedifex/extraction/work_items.py:166-169 | The count of links is the number of facts that point elsewhere than before |
| WorkItems.ExactIffSpelledAlike | src/aedifex/extraction/work_items.py:146-160 | A new item's match is exact exactly when every row spells its number alike |
| WorkItems.AnchoredFactsAreAttached | src/aedifex/extraction/work_items.py:106-171 | Every fact sharing a row with an item number points at that number's item in this project |
| WorkItems.OtherFactsKeepTheirLink | src/aedifex/extraction/work_items.py:119-127 | Every other fact keeps whatever link it had |
| WorkItems.ShareAnItemIff | src/aedifex/extraction/work_items.py:106-171 | Two rows share a work item exactly when their item numbers have equal segments |
| WorkItems.SecondRunChangesNothing | src/aedifex/extraction/work_items.py:87-88 | A second run over the same facts creates no item, links no fact and changes nothing |
| WorkItems.SecondReportZeroIff | src/aedifex/extraction/work_items.py:52-58 | The second report repeats the first count of facts without an item, and is all zeroes exactly when every fact shares its row with an item number |
| WorkItems.DocumentFactIsCountedAgain | src/aedifex/extraction/work_items.py:124-126 | For example one fact about its document as a whole is counted on every run |
| WorkItems.SharedFactsAreRelinkedIff | src/aedifex/extraction/work_items.py:167-170 | Linking one project, another, and the first again links nothing exactly when no item-scoped fact belongs to both |
| WorkItems.MatchIsThatOfTheFirstRun | src/aedifex/extraction/work_items.py:138-165 | Over every history of runs, whatever the projects, there is an item exactly for the numbers some run stated, and it records exact or normalised as the first of these runs spelled the number |
| WorkItems.MatchIsHonestIff | src/aedifex/extraction/work_items.py:146-162 | What an item records holds of a later run exactly when both or neither of that run and the first to state the number spell it in one way |
| WorkItems.TwoSpellingsMislead | src/aedifex/extraction/work_items.py:146-162 | Any two spellings of one number give two pairs of runs after which the record is wrong, once each way |
| WorkItems.SevenMisleads | src/aedifex/extraction/work_items.py:70-82 | For example a number first written 7 and later also 07 |
| WorkItems.TieOrderIsHarmlessIff | src/aedifex/extraction/work_items.py:98-111 | However the facts tied by the ordering are ordered a row is read alike, exactly when all item numbers on it are |
| WorkItems.WithdrawnAreOnlyCounted | src/aedifex/extraction/work_items.py:98-127 | If only facts of no row are withdrawn the pass plans what it would without them, and counts each of them as a fact without an item |
| Withdrawal.RunsWithdrawOnlyUnscoped | src/aedifex/extraction/store.py:220-236 | Through any run of analyses and withdrawals every withdrawn fact is one of no row |
| Withdrawal.WithdrawalNeverReachesAnItem | src/aedifex/extraction/work_items.py:98-127 | So after any run linking leaves what it would without the withdrawn facts, and its report differs from that only in counting them |
| WorkItems.LinkIgnoresTiesIff | src/aedifex/extraction/work_items.py:166-169 | Which item a fact is linked to is independent of the order of ties exactly when all item numbers on its row normalise alike |
| FactStore.Store.PersistFacts | src/aedifex/extraction/store.py:107-160 | The loop writes one row per field under its natural key and returns every row, and the document-scoped ones by type |
| FactStore.RowAfterwards | src/aedifex/extraction/store.py:123-157 | No row disappears; an unwritten row is unchanged; a written one keeps its id and work item and carries the last field written under its key |
| FactStore.NewRowStartsUnlinked | src/aedifex/extraction/store.py:135-155 | A new row has an id none had and belongs to no work item yet |
| FactStore.HistoryIsUntouched | src/aedifex/extraction/store.py:9-12 | Rows of other documents and other extractor versions do not change |
| FactStore.PersistingTwiceIsPersistingOnce | src/aedifex/extraction/store.py:3-7 | Analysing again with the same result changes nothing |
| FactStore.NoFieldLostIff | src/aedifex/extraction/store.py:123-150 | Every field read is in the table afterwards exactly when no two of one name and row number differ |
| Spreadsheet.FindHeader | src/aedifex/extraction/spreadsheet.py:441-466 | The first row that names an item column and a value column, with the kind of every recognised column |
| Spreadsheet.ReadRow | src/aedifex/extraction/spreadsheet.py:480-545 | One row gives its item number and a field for every filled column, or nothing |
| Spreadsheet.ReadSheet | src/aedifex/extraction/spreadsheet.py:361-416 | The reader computes the fields of every item row of the clipped first sheet, numbered as the sheet numbers them |
| Spreadsheet.RowFieldsExact | src/aedifex/extraction/spreadsheet.py:493-545 | The fields of an item row are its item number and one for each filled column that is read, and none when no column is filled |
| Spreadsheet.HeadingsMean | src/aedifex/extraction/spreadsheet.py:79-105 | Which kind of fact each heading means; a rate is the claimed one on a running bill and the contracted one elsewhere |
| Spreadsheet.HeaderIsFirst | src/aedifex/extraction/spreadsheet.py:441-466 | The header is the first row naming an item column and a column of a quantity or a rate |
| Spreadsheet.RowMeans | src/aedifex/extraction/spreadsheet.py:480-545 | A row states its item number, which has to look like one, and what the cells beside it state; alone it states nothing |
| Spreadsheet.UnitMeans | src/aedifex/extraction/spreadsheet.py:477-499 | The unit of a row is what stands in its first unit column |
| Spreadsheet.SheetMeans | src/aedifex/extraction/spreadsheet.py:380-404 | A sheet states what the rows below its header do, numbered as the sheet numbers them, up to 5000 rows of 64 columns |
| Spreadsheet.NoCellLostIff | src/aedifex/extraction/store.py:123-150 | Everything read from a sheet is in the table afterwards exactly when no item row fills two columns of one kind |
| Spreadsheet.HeaderLosesNothingIff | src/aedifex/extraction/spreadsheet.py:79-100 | A header loses nothing, whatever stands below it, exactly when no two of its columns that are read mean the same kind of fact |
| Spreadsheet.QuantityTwice | src/aedifex/extraction/spreadsheet.py:82-84 | At a sheet headed item no, qty and quantity, of a row stating 10 and 20 the table keeps 20 and the 10 is lost |
| FactStore.ByTypeIsLast | src/aedifex/extraction/store.py:98-104 | A type is answered by the last document-scoped field of that name, never by a table row |
| FactStore.Store.PersistRetractions | src/aedifex/extraction/store.py:163-253 | Exactly the stale rows are withdrawn, with the reason given |
| FactStore.HiddenExactly | src/aedifex/extraction/store.py:216-229 | Withdrawing hides exactly the document's own document-scoped rows of the given types |
| FactStore.WithdrawnOnce | src/aedifex/extraction/store.py:182-187 | Withdrawing again withdraws nothing, and earlier reasons are kept |
| FactStore.SuppressedTypesStayHidden | src/aedifex/extraction/runner.py:285-325 | After a run, in either order of its two writes, nothing of a suppressed type is visible for the document as a whole |
| FactStore.ReextractionDoesNotRestore | src/aedifex/extraction/store.py:123-157 | Re-reading a withdrawn value under the same version leaves it withdrawn |
| DerivedFacts.Store.PersistDerivedFacts | src/aedifex/extraction/store.py:352-420 | Without exactly one subject nothing is written; otherwise each value's row is written with its rebuilt links, and returned by type |
| DerivedFacts.StoredAsComputed | src/aedifex/extraction/store.py:393-417 | Each value is stored within half of the tenth decimal and its links are exactly this run's inputs |
| DerivedFacts.StoredUnderItsSubject | src/aedifex/extraction/store.py:376-407 | Each value is in the table under the very document or project given, its type behind the number of its item, with its expression and the digest of what fed it |
| DerivedFacts.LinksAreInputs | src/aedifex/extraction/store.py:411-416 | The links of a stored value are its inputs by role and its provisions by prefixed role, and nothing else |
| DerivedFacts.ToldByType | src/aedifex/extraction/store.py:374-420 | The caller is told, for each type, the row of the last value of it |
| DerivedFacts.RecomputingChangesNothing | src/aedifex/extraction/store.py:361-366 | Computing the same values again changes nothing |
| DerivedFacts.SameRowIff | src/aedifex/extraction/store.py:371-385 | Two values share a row exactly when they are of one document or project, one work item, one type and one version |
| DerivedFacts.OtherItemsAreUntouched | src/aedifex/extraction/store.py:370-377 | Storing one item's values leaves every other item's rows, and the project's own, as they were |
| DerivedFacts.OtherSubjectsAreUntouched | src/aedifex/extraction/store.py:378-385 | Storing values of one subject leaves every row of any other document or project as it was |
| DerivedFacts.LeftFromEarlierIff | src/aedifex/extraction/store.py:366-407 | A derived row outlives a run untouched exactly when it was there and no value computed now has its type and version: rows no longer computed are not removed |
| DerivedFacts.FingerprintIffSameInputs | src/aedifex/extraction/store.py:52-72 | Two calculations have one fingerprint exactly when the same facts and provisions filled the same roles |
| Audit.Auditor.Run | scripts/audit_traceability.py:250-292 | With its cache of verdicts the walk reports exactly what it would report comparing every digest afresh |
| Audit.Auditor.VisitArtifact | scripts/audit_traceability.py:234-247 | The store is asked once for each key, and the cached verdict stays that of a fresh comparison |
| Audit.AuditIsExact | scripts/audit_traceability.py:250-330 | Fatal exactly when some pass, fail or review finding does not trace to stored evidence; no break exactly when every finding traces; exit code 1 exactly when fatal |
| Audit.EveryBreakIsReal | scripts/audit_traceability.py:95-330 | Every break reported names a row that has exactly the flaw it is reported with |
| Audit.WalkIsCounted | scripts/audit_traceability.py:66-67 | The walk counts every finding, every link, and every provision, derived value and fact it follows them through |
| Audit.AppliedBytesMatterIff | scripts/audit_traceability.py:173-177 | The verdict equals that of an audit that also compares the bytes of applied provisions exactly when there is no store, or the audit fails anyway, or every provision applied behind a conclusive finding is unchanged |
| Audit.AppliedProvisionBytesAreNotCompared | scripts/audit_traceability.py:173-177 | For example: a value computed from one provision traces whatever its bytes; the provision cited directly only if they match |
| Content.ContentAccumulator.Update | src/aedifex/acquisition/content.py:127-144 | A chunk is accepted exactly when the running total stays within the cap; a refused one is in the size and nowhere else |
| Content.ContentAccumulator.Finish | src/aedifex/acquisition/content.py:146-163 | Refused exactly when nothing was counted; otherwise the identity of the digested bytes with the counted size |
| Content.HashStream | src/aedifex/acquisition/content.py:166-179 | Chunking never matters: the outcome depends on the concatenated payload and the cap alone |
| Content.HashMeans | src/aedifex/acquisition/content.py:166-184 | What hashing reports for every limit and payload, and which identity it gives |
| Content.FeedAll | src/aedifex/acquisition/content.py:127-144 | Feeding chunk after chunk, refused ones included, reaches the specified counters |
| Content.RefusedIffPastCap | src/aedifex/acquisition/content.py:137-141 | A chunk is refused exactly when the running total including it passes the cap, and so is every later one |
| Content.DigestedIsPrefix | src/aedifex/acquisition/content.py:137-144 | What is digested is the concatenation of the chunks before the first refusal |
| Content.IdentityIsFaithfulIff | src/aedifex/acquisition/content.py:135-163 | Finishing describes the digested bytes exactly when no chunk was refused |
| Content.OneDocumentIffSameBytes | src/aedifex/acquisition/content.py:92-100 | Two payloads are one document exactly when they are the same bytes |
| Content.PrefixIsConclusive | src/aedifex/domain/files.py:128-129 | Sniffing the buffered prefix is sniffing the whole payload |
| Content.SniffMeans | src/aedifex/domain/files.py:117-126 | Which first bytes are recognised as which format |
| Content.SignaturesExcludeEachOther | src/aedifex/domain/files.py:112-125 | A payload starts with at most one signature, so the order of the table is immaterial |
| Content.StoredFormatFitsTheBytes | src/aedifex/acquisition/download.py:283-314 | A download is stored only under an allowed format its bytes begin as, and no recognisable binary is stored as text |
| Content.ResolutionMeans | src/aedifex/acquisition/content.py:187-268 | When a download is stored and as which format, by its two declarations, its bytes and what is allowed |
| Content.HonestDownloadIsAccepted | src/aedifex/acquisition/content.py:187-267 | A download that truthfully names an allowed format is accepted as that format |
| Disposition.Parameters | src/aedifex/acquisition/download.py:375-394 | The character loop computes the split at unquoted semicolons |
| Disposition.SplittingInvertsJoining | src/aedifex/acquisition/download.py:375-394 | Joining parameters with semicolons and splitting again gives them back: a quoted semicolon never cuts one |
| Disposition.JoiningInvertsSplitting | src/aedifex/acquisition/download.py:375-394 | For any header whatever, the parts joined again are the header |
| Disposition.PartsAreParameters | src/aedifex/acquisition/download.py:375-394 | Every semicolon left in a part is inside quotes, and only the last part can leave one open |
| Disposition.EscapedNameComesBackIff | src/aedifex/acquisition/download.py:346-372 | A name quoted and escaped as a quoted string is written comes back as it was exactly when it holds neither a quote nor a backslash |
| Disposition.FilenameComesBackIff | src/aedifex/acquisition/download.py:346-372 | The same of the whole function, under every decoding of the extended form |
| Disposition.ExtendedFormIsRead | src/aedifex/acquisition/download.py:360-368 | A header that gives the extended form is read from it, the encoding in any case |
| Disposition.QuotedSemicolonIsCut | src/aedifex/acquisition/download.py:375-394 | At the name a";b, which is cut at its semicolon |
| Lifecycle.FrontierRow.Acquire | src/aedifex/acquisition/pipeline.py:271-333 | What an acquisition returns or raises, every field of the row it leaves, and every state it passes through |
| Lifecycle.NeverLeftDownloading | src/aedifex/acquisition/pipeline.py:271-333 | A returned acquisition never leaves its row downloading; one begun and ended by a conflict or an uncaught exception does, and then every later acquisition is refused |
| Lifecycle.StuckIff | src/aedifex/acquisition/pipeline.py:271-333 | Over every history a row is stuck downloading exactly when some begun acquisition of it ended in a conflict or an uncaught exception |
| Lifecycle.MovesAreEdges | src/aedifex/domain/documents.py:226-245 | The states an acquisition passes through follow the transition table exactly when it was not cancelled |
| Lifecycle.TableMeans | src/aedifex/domain/documents.py:226-245 | What the transition table allows, state by state |
| Lifecycle.CancellationRestoresIff | src/aedifex/acquisition/pipeline.py:291-295 | A cancellation leaves the row as it was exactly when the row was not a retry, and never charges an attempt |
| Lifecycle.HistoryInvariant | src/aedifex/acquisition/pipeline.py:271-333 | Over every history a URL names a document exactly when it is downloaded, and has attempts and an error exactly as its state says |
| Lifecycle.RowRecordsWhatHappened | src/aedifex/acquisition/pipeline.py:306-333 | Over every history a downloaded row records the document, status and requests of the download that made it so, and a failed or quarantined one its last failure |
| Lifecycle.SettledForGood | src/aedifex/acquisition/pipeline.py:272-287 | Once downloaded or quarantined a URL is never changed again |
| Lifecycle.AttemptsCountFailures | src/aedifex/acquisition/pipeline.py:433-434 | Until a download overwrites them, attempts count the failures |
| Lifecycle.HistoriesAreConsistent | src/aedifex/acquisition/crawl/runner.py:386-440 | In every history of claims, refusals, downloads, page reads, returned and dropped URLs and lapsed leases no committed row is mid-download, exactly a downloaded one names a document, and attempts count the recorded failures while the URL can be tried |
| Lifecycle.SetAsideIff | src/aedifex/acquisition/crawl/runner.py:681-702 | A URL is set aside exactly when robots.txt forbade it, its page was read, or it failed as often as allowed |
| Lifecycle.LastEventIsWritten | src/aedifex/acquisition/crawl/runner.py:386-513 | What the last thing that happened to a queued URL wrote down |
| Lifecycle.RecoversIff | src/aedifex/acquisition/crawl/frontier.py:288-312 | Recovery fails and charges exactly the rows mid-download under a lapsed lease |
| Lifecycle.ReadPageIsDiscoveredIff | src/aedifex/acquisition/crawl/runner.py:687-690 | A page that was read is left as discovered exactly when reading it never failed before |
| Lifecycle.RecordedFailuresAreBounded | src/aedifex/acquisition/crawl/frontier.py:245-259 | The failures recorded exceed those allowed by at most one for each lease that lapsed under a worker, which deals with the URL all the same |
| Lifecycle.BoundIsAttained | src/aedifex/acquisition/crawl/runner.py:398-440 | For any number of such lapses some history reaches that bound, on documents and on pages |
| Lifecycle.AllowanceIsKeptIff | src/aedifex/acquisition/crawl/frontier.py:61-66 | So the allowance is kept in all histories exactly as long as no lease lapses under a worker |
| Lifecycle.NothingIsEverReclaimed | src/aedifex/acquisition/crawl/frontier.py:275-318 | Recovery of lapsed leases never finds a row to recover |
| Lifecycle.PoisonIsSetAsideIff | src/aedifex/acquisition/crawl/frontier.py:283-286 | A URL that kills its worker every time is set aside, after exactly the allowed rounds, if and only if the begun download is committed before the crash |
| Lifecycle.PoisonUrlIsNeverSetAside | src/aedifex/acquisition/crawl/runner.py:398-440 | The runner does not commit it, so in its histories such a URL is charged nothing and stays claimable after any number of rounds |
| Lifecycle.DocumentRow.Advance | src/aedifex/extraction/runner.py:434-451 | Where an advance leaves the document, through which states, and when it is skipped or refused |
| Lifecycle.DocumentRow.RecordAnalysisFailure | src/aedifex/extraction/runner.py:454-479 | The state moves to failed exactly when the table allows it, and whether it did is returned |
| Lifecycle.AnalysisMovesAreEdges | src/aedifex/extraction/runner.py:434-479 | However steps, failures and re-reads follow each other, every move is an edge of the transition table |
| Lifecycle.StepsMean | src/aedifex/extraction/runner.py:434-479 | What each step does to a document, wherever earlier steps left it |
| Lifecycle.ProcessedForGood | src/aedifex/extraction/runner.py:463-467 | A processed document stays processed: a failed re-read never demotes it |
| Lifecycle.FailureIsRecordedIff | src/aedifex/extraction/runner.py:469-479 | A failure is recorded exactly for a document being worked on and not already failed, and a failed document can begin again |
| Provisions.AnsweredIffArrivedOnce | src/aedifex/extraction/applicability.py:58-76 | Selection answers exactly when the document has not arrived more than once |
| Provisions.AuthorityIff | src/aedifex/extraction/applicability.py:58-76 | The authority over a document is the source of its one arrival, and unrecorded exactly without one |
| Provisions.ReasonIff | src/aedifex/extraction/applicability.py:104-167 | Why nothing or something was applied, each reason by its condition |
| Provisions.AppliedIffOnlyOneGoverns | src/aedifex/extraction/applicability.py:107-167 | A provision is applied exactly when it alone governs; the considered ones are exactly those that govern |
| Provisions.TilingResolvesAllButSeams | src/aedifex/extraction/applicability.py:79-83 | Bands that tile the line resolve every value except the shared endpoints, each of which is refused as lying in two |
| Provisions.TwoGoverningAreRefused | src/aedifex/extraction/applicability.py:142-153 | Two governing rows are refused and both are reported, whatever they require |
| Provisions.SecondDocumentUnsettlesAll | src/aedifex/extraction/applicability.py:128-153 | When a second document of the authority states the same bands no value is resolved |
| Provisions.RequiredWithinBand | src/aedifex/calculation/engine.py:193-217 | The lesser of share and cap, which never falls as the cost rises |
| Provisions.MonotoneIffSeamsRise | src/aedifex/calculation/engine.py:206-217 | Over tiling bands the requirement is monotone exactly when at each shared endpoint the upper band asks no less than the lower |
| Provisions.ScheduleIsMonotone | src/aedifex/extraction/policy.py:6-10 | For clause 4.14.1 the bands agree at each shared endpoint and the requirement is monotone over all costs |

## Left out

- HTTP, S3, PostgreSQL, SQLAlchemy sessions and migrations as code; only keys and check constraints are used.
- The API, the CLI, the React frontend, logging and configuration.
- `pypdf`, `openpyxl`, RapidOCR and Pillow, and the regular expressions and language patterns of
  `tender_notice.py`, `policy.py`, `quantities.py` and `classification`.
- The rules that produce verdicts (`verification/`): a verdict is an input of `Findings.Finding.Persist`.
- `compute_bid_security_share`, `persist_project_finding`, `persist_work_item_finding` and
  `persist_provisions`: they repeat the shape of members that are modelled.
- `safe_filename`, `canonical_url`, `url_digest`, the media-type and extension tables, `workflow.py`,
  `catalog.py`.
- Queue order, limits, backoff, enqueueing, and the links a listing page offers: the queue is modelled one URL
  at a time.
- Lifecycle.RecordedFailuresAreBounded: two workers' transactions on one URL follow each other; overlapping
  ones, which can lose a count, are not modelled.
- Findings.Finding.Persist: a role whose fact was not stored is dropped before the links reach it.
- Findings.Finding.Rewrite: which run rewrites a row, and rows nobody cites, are left to the caller.
- Calculation.ComputeForWorkItem: the expression strings of calculated values are not modelled.
- DerivedFacts.Store.PersistDerivedFacts: kind, currency, unit and the names of calculation and software are
  not modelled; they are copied.
- FactStore.Store.PersistFacts: the copied columns of a fact are one value, `content`.
- Selection.SelectOne: the reason is a datatype, not the sentence shown to a reader.
- Audit.Auditor.Run: counts and breaks name rows rather than print descriptions of them.
- Lifecycle.FrontierRow.Acquire: timestamps, and the truncation of error text, are not modelled.
- Spreadsheet.ReadSheet: the project reference line, which no column repeats, and opening the workbook are not
  modelled, nor are its messages; a cell is its text and the number it can be read as.
- Disposition.FilenameComesBackIff: percent-decoding of the extended form is an arbitrary function.
- Projects.Database.ReconcileProjects: names, roles and timestamps of the rows are not modelled.
