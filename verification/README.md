# Zhiqing RAG: a verified model

This project models the parts of the repository in which a small slip would be hard to see, and
proves what they promise. Text is `string`, JSON an abstract value compared structurally, and
everything outside the code (language models, the database, the graph, Redis, the network, the
clock) is a function or a reply that may be anything. Where a loop or a class changes state in the
source, the model has a loop or a class too, proved against a specification; the lemmas are about
the specification.

| part | modules | what is proved |
|---|---|---|
| Answer stream | `EventStream`, `EventWire`, `AnswerStream` | The browser's parser gives the same result however the network cuts the stream, exactly unless a line ends in a carriage return at the size limit. What the server emits for a response is accepted and returned unchanged, end to end over the wire. |
| Answer pipeline | `AnswerPipeline`, `DraftChecks`, `EvidencePaths`, `AnswerDelivery` | Whatever the repository, the graph and the models answer at each wait: every payload is about the question, within the token limit, and holds only evidence and paths that were confirmed just before; a repair is asked for with the code of the check that its draft failed; what is published was written by a model, approved by the reviewing model, and quotes current evidence; and if nothing is, status and code have their stated cause. The client accepts exactly the published responses it can show. |
| Quotes and units | `LineBreaks`, `PathQuotes`, `SourceUnits` | Restored quotes are the only matching slice. Widened quotes complete a path and lose nothing. Source units are slices at their offsets; a character that is no white space, closing mark or bar is in a unit exactly if it is in none of the places that the code leaves out, which are named one by one. |
| Chunker | `TextSplitting`, `Chunking` | Nothing is lost or duplicated by splitting, overlap, table grouping and merging; chunks stay within the token limit, with no monotonicity assumed of the token counter. |
| Tables | `TableText`, `TableCheck`, `TableAgreement` | The Markdown printer of the chunker and the parser of the answering side agree cell by cell, exactly for the tables whose cells hold no other line end than `\n`; when the parser accepts a printed table, exactly. |
| Session client | `AuthState`, `AuthClient`, `AuthRuns` | In every interleaving of logins, refreshes, logouts, cancellations and requests nothing crosses from one session into another, a logout that is answered late without an exclusive lock excepted; what was cancelled is never sent again, and who was logged out stays so. |
| Metadata filters | `CalendarPeriods`, `MetadataFilters`, `TimeVerdicts`, `StoredDocuments`, `MetadataVerdicts` | Calendar words meet without gap or overlap. A refused conjunction compiles to SQL that is true of no row, and which other conjunctions select no document as it can be stored is stated exactly, for all filters. |
| Evaluation | `Pairing`, `Matching` | The three-level greedy matcher is optimal at every level at once; the greedy recall counter counts the multiset intersection. |
| Retrieval and embedding | `PathSelection`, `Facets`, `Embedding` | Paths are selected whole within a chunk budget. Every facet's best candidates are covered. Each chunk gets its own vector through batches, reordering and a forgetful cache. |

Some promises turned out to hold only under a condition. The code is modelled as it is, with the
exact condition and a concrete input that shows the failure where one is short:

- A line that ends in a carriage return exactly at the frame size limit makes the outcome depend on
  how the network cuts the stream (`ChunkIndependenceExactly`, `CutCanMatter`).
- Expanding quotes for a path re-validates the whole draft. That fails exactly if a quote the path
  does not touch grew beyond 2000 characters when its line breaks were restored
  (`WidenedIsWellFormed`), and then no error code is given (`OverlongQuoteFails`, `QuoteOver2000`).
- The chunker looks for column names in the raw cells, the answering side in the escaped ones. A
  line feed between an instruction's keyword and its colon makes them disagree
  (`WholeTableVerdict`, `BrokenInstruction`).
- A printed table reads as its rows exactly if every row has a cell and no cell holds a line end
  other than `\n` (`TableReadsExactly`); otherwise rows fall apart (`BrokenRow`).
- `_validate_conjunction` knows nothing of what is stored: it takes time to be dense and without
  end, and does not look at `contains`, at which statuses and types there are, nor at which names
  and codes an upload accepts. A conjunction that it accepts selects nothing exactly if the limits
  of a field in time leave no point that is not excluded; or every status is excluded; or codes are
  demanded or searched and none that can be stored passes; or the same is true of names, each with
  the type that its suffix gives it; or no stored type passes (`RefusesExactly`). Where texts are
  demanded only they need be looked at (`DemandedDecide`); a text longer than its column is searched
  for in vain, and short printable ones are always found (`TooLongToFind`, `ShortCodeIsFound`,
  `ShortNameIsFound`). One input for each: `AcceptedBetweenPoints`, `AcceptedBeforeCalendar`,
  `AcceptedWithoutStatus`, `AcceptedWithoutType`, `AcceptedUnstoredCode`, `AcceptedUnstoredName`,
  `AcceptedOtherType`, `AcceptedWithoutSubstring`.
  For a field in time the verdict is wrong exactly if the limits do not cross and yet leave nothing
  (`TimeVerdictExactly`); without `neq`, exactly between two points that follow each other or off
  the calendar (`BetweenPointsExactly`). Of these, `resolve_date` makes `gt` for exact upload times
  only, which count microseconds; for days it makes `gte`, `lt` and `range`.
- A table row keeps all its characters as source units exactly if a bar closes it (`RowIsWhole`);
  otherwise the text behind its last bar is lost (`RowKeeps`, `UnclosedRow`).
- The server strips other characters than the client trims. A statement that the server accepts
  is blank to the client exactly if it is all white space to it, as a zero width no-break space is
  (`BlankExactly`, `InvisibleStatement`); the client accepts a published response exactly if there
  is none (`ClientAcceptsHonest`).
- A logout clears whatever session there is when it is answered. It is the one it was sent under
  exactly if the session key has not changed (`EveryRunIsSafe`). Under the exclusive lock that
  `frontend/src/services/auth.ts:4-8` installs where the browser has locks, it is always its own
  session or there is none (`LockedLogoutClearsItsOwn`); with the lock that lets everybody through,
  which is the default and what is left without `navigator.locks`, another one can be cleared if it
  was installed while the logout was under way (`LateLogoutClearsAnother`).

## Model

| member | source | states |
|---|---|---|
| EventStream.TakeLines | frontend/src/services/query.ts:551-571 | The inner loop over complete lines is one drain of the buffer, a carriage return at its end held back until more arrives. |
| EventStream.ReadStream | frontend/src/services/query.ts:546-575 | The whole reader loop does what reading all chunks one after the other means, including the size check after each chunk and the error at the end of the stream. |
| EventStream.ClosingInterprets | frontend/src/services/query.ts:554-571 | Draining a complete text is splitting it at LF, CR and CRLF and interpreting line after line: an independent definition of the event stream format. |
| EventStream.ChunkIndependence | frontend/src/services/query.ts:545-575 | For every way of cutting a stream into chunks the client ends in the same state with the same result as with the whole text at once, unless a line ends in a carriage return at the limit. |
| EventStream.ChunkIndependenceExactly | frontend/src/services/query.ts:554-573 | A stream that succeeds uncut succeeds alike under all cuts if and only if no line of it ends in a carriage return exactly at the size limit. |
| EventStream.CutCanMatter | frontend/src/services/query.ts:556-573 | At every limit there is such a stream: read at once it delivers a frame, cut after the carriage return it is refused. |
| EventWire.SplitInvertsWrite | frontend/src/services/query.ts:551-559 | Splitting a written stream gives back the lines written, with any of the three line ends. |
| EventWire.ItemArrives | frontend/src/services/query.ts:560-570 | A written message reaches the dispatcher with its event name and data lines; a written comment changes nothing. |
| EventWire.WireDelivers | frontend/src/services/query.ts:545-575 | Any sequence of messages and comments, written with any line end and cut in any way, reaches the dispatcher as if handed over directly. |
| AnswerStream.SendResult | src/zhiqing_rag/query_answering/streaming.py:51-63 | A result is sent as its cumulative previews and then `done`. |
| AnswerStream.AnswerEvents | src/zhiqing_rag/query_answering/streaming.py:22-67 | Whatever the scheduler does with the producer, the consumer and the queue of one place, the same events are sent: progress in order, then the result or one error. |
| AnswerStream.PrefixValid | frontend/src/services/query.ts:438-460 | Each partial answer of a response that the client accepts is acceptable and has the same metadata key. |
| AnswerStream.Composition | src/zhiqing_rag/query_answering/streaming.py:49-67 | Every event sequence the server emits for acceptable work is accepted by the client, which reports progress, shows the statements one by one and returns exactly the response, or fails with exactly the error. |
| AnswerStream.AcceptKeepsPace | frontend/src/services/query.ts:499-543 | The client's counters keep step with what it has shown. |
| AnswerStream.AcceptKeepsFaithful | frontend/src/services/query.ts:520-542 | Whatever arrives, the answers shown so far are growing prefixes of one list with one metadata key. |
| AnswerStream.ShownIsReturned | frontend/src/services/query.ts:499-543 | In any accepted sequence, honest or not, the displayed statement lists grow one by one into the returned list, and metadata never changes. |
| AnswerStream.HeartbeatsAreSilent | frontend/src/services/query.ts:500 | Comments anywhere between events change nothing. |
| AnswerStream.WrittenReplays | frontend/src/services/query.ts:499-543 | Dispatching the encoded events is replaying the events. |
| AnswerStream.EndToEnd | src/zhiqing_rag/query_answering/streaming.py:18-67 | From the server's task to the browser's caller, over any cut, line end and heartbeats: the caller gets exactly the reviewed response or error, having seen it grow. |
| LineBreaks.RestoredIsTheOnlySlice | src/zhiqing_rag/query_answering/service.py:586-596 | A restored quote is a slice of the content that equals the quote but for line breaks, begins and ends with a kept character, and is the only such slice. |
| LineBreaks.NothingRestored | src/zhiqing_rag/query_answering/service.py:586-596 | Nothing is restored exactly if the quote has fewer than 8 characters besides line breaks, or none or several slices match. |
| LineBreaks.WholeIsRestored | src/zhiqing_rag/query_answering/service.py:586-596 | From all the characters of a content but its line breaks the whole content is restored, line breaks included. |
| PathQuotes.CompactKeepsContains | src/zhiqing_rag/query_answering/support.py:66-68 | Compaction preserves the substring relation. |
| PathQuotes.CollectSpans | src/zhiqing_rag/query_answering/support.py:520-541 | The spans to cover are collected exactly if every source of the path is the current slice of its chunk. |
| PathQuotes.FindSmallestHull | src/zhiqing_rag/query_answering/support.py:550-557 | The search finds the smallest slice that covers the span and some occurrence of the quote, the earliest among equals, and nothing exactly if the quote does not occur. |
| PathQuotes.ExpandSelectedPathQuotes | src/zhiqing_rag/query_answering/support.py:507-571 | The loops choose the first path that is selected, still stands and stays short, and widen the draft for it. |
| PathQuotes.ExpandOnlyWidens | src/zhiqing_rag/query_answering/support.py:542-571 | No statement, citation id or duplicate is added, every old quote is inside a new one with its id, and every new quote is an old one or a slice of the evidence. |
| PathQuotes.ExpandCompletesPath | src/zhiqing_rag/query_answering/support.py:396-410 | After the expansion every source of a path that requires its sources' chunks is cited, so the completeness check holds. |
| PathQuotes.WidenedIsWellFormed | src/zhiqing_rag/query_answering/support.py:558-570 | The re-validated draft is well formed if and only if no quote outside the path's spans is too long. |
| DraftChecks.ValidateCitations | src/zhiqing_rag/query_answering/service.py:561-583 | The loops check every citation in order and stop at the first failure with its code. |
| DraftChecks.CheckedIsVerbatim | src/zhiqing_rag/query_answering/service.py:561-583 | A draft that passes has only verbatim quotes of known, complete evidence, and says the same but for line breaks. |
| DraftChecks.VerbatimPasses | src/zhiqing_rag/query_answering/service.py:561-583 | Conversely a verbatim draft passes unchanged. |
| DraftChecks.WidenedStaysVerbatim | src/zhiqing_rag/query_answering/service.py:538-559 | Widening a verbatim draft for a path keeps it verbatim. |
| DraftChecks.ValidateDraft | src/zhiqing_rag/query_answering/service.py:538-559 | A draft is returned if and only if the checked and widened draft passes every guard. Otherwise it is raised with which code it fails: that of its first citation that is not in order, or that of the first guard that the widened draft fails; without a code exactly when the widened draft is malformed. |
| DraftChecks.FailsExactly | src/zhiqing_rag/query_answering/service.py:538-583 | A draft fails with one code at most, and with one if and only if it cannot be submitted or what is submitted does not pass every guard. |
| DraftChecks.OverlongQuoteFails | src/zhiqing_rag/query_answering/service.py:538-559 | A well-formed draft whose citations check out, with a quote that grows beyond 2000 characters next to a selected path over another chunk, cannot be built again once it is widened. |
| DraftChecks.QuoteOver2000 | src/zhiqing_rag/query_answering/service.py:538-559 | On a quote of 2000 characters over two lines the check fails with no code of its own. |
| AnswerPipeline.Revalidate | src/zhiqing_rag/query_answering/service.py:362-413 | One read of the repository: refused outside the scope or when the read fails, else exactly the items that a current row in scope confirms. |
| AnswerPipeline.NothingDropped | src/zhiqing_rag/query_answering/service.py:382-405 | Evidence of unchanged length consists of the same chunks. |
| EvidencePaths.MergePaths | src/zhiqing_rag/query_retrieval/paths.py:7-52 | The loops over all candidates and their paths, with the dictionary by id and the set of conflicts, keep exactly the paths that `CompletePathsExactly` describes. |
| EvidencePaths.CompletePathsExactly | src/zhiqing_rag/query_retrieval/paths.py:7-52 | Kept are exactly the paths that some candidate carries, that are whole, and whose id no different carried path has; in strict order of their ids, each once. |
| EvidencePaths.CompleteStay | src/zhiqing_rag/query_retrieval/paths.py:7-52 | Paths in that order that are carried and whole are kept as they are: completing a second time changes nothing. |
| AnswerPipeline.RevalidatePaths | src/zhiqing_rag/query_answering/service.py:454-535 | The graph is asked about all sources of the paths; what is kept are paths in order of their ids whose required chunks its reply names and that are complete, source by source, over the evidence of the last read. |
| AnswerPipeline.Recheck | src/zhiqing_rag/query_answering/service.py:109-123 | After a wait the run goes on only with the same chunks, authorised now. |
| AnswerPipeline.Generate | src/zhiqing_rag/query_answering/service.py:105-163 | The call is made with a payload about the question, within the token limit, of evidence and paths confirmed just before, and the draft it goes on with is the model's reply. |
| AnswerPipeline.Repair | src/zhiqing_rag/query_answering/service.py:164-223 | At most one repair, of a draft the model wrote, for the code with which that draft failed its checks on the retrieval read last before, if that code allows it, with a payload authorised anew and within the limit; the draft is the model's reply. |
| AnswerPipeline.ReviewDraft | src/zhiqing_rag/query_answering/service.py:239-308 | The reviewing model is asked about the very draft that passed the checks, within the limit, and only a draft whose every statement its reply supports goes out, with the same chunks read again after it. |
| AnswerPipeline.Execute | src/zhiqing_rag/query_answering/service.py:52-333 | For every behaviour of the world: every event tells the world's reply at that moment; calls come in order, each with a payload about the question, within the token limit, of evidence that the wait just before read and of complete paths that the graph confirmed just before; a repair carries the repairable code of the check that its draft failed; what is answered a model wrote and the reviewing model approved; whatever is returned without an answer has its cause (no evidence, the model or the review declined, a payload too large, fewer chunks readable, or an exception whose code is that of the failed check or reply), and so has every denial; every retrieval that goes out is fresh, but for questions that were skipped or not supported; and with a world that withdraws nothing and approves, the draft is the answer, with paths or without. |
| AnswerPipeline.PublishedQuotesAreEvidence | src/zhiqing_rag/query_answering/service.py:269-308 | Every quote of a published answer is a slice of the evidence item it names, in the retrieval published with it, which the last read confirmed; and its statements are those a model wrote and the reviewing model approved. |
| AnswerDelivery.BlankExactly | frontend/src/services/query.ts:455 | A statement that the server accepts is blank to the client exactly if all its characters are white space there, and then it begins and ends with U+FEFF. |
| AnswerDelivery.InvisibleStatement | frontend/src/services/query.ts:455 | The text U+FEFF is a statement that the server accepts, and no client accepts a response with it. |
| AnswerDelivery.ClientAcceptsHonest | frontend/src/services/query.ts:438-460 | The client accepts a response that `execute` returned if and only if the rest of it is in order and no statement is blank to the client. |
| AnswerDelivery.ReportsAreOrdered | src/zhiqing_rag/query_answering/router.py:65-80 | The stages reported in any run come in the order the client insists on. |
| AnswerDelivery.WhatIsReadWasAuthorised | src/zhiqing_rag/query_answering/router.py:105-121 | From `execute` to the browser: it ends with exactly the outcome of the run, and each quote it shows is in evidence that the last authorisation read confirmed. |
| AuthRuns.CancelledNeverSends | frontend/src/services/auth-client.ts:104-107 | Whatever happens before and after: once requests are cancelled, or the session is cleared, no request that had started is ever sent again. |
| AuthRuns.ClearedNeverReturns | frontend/src/services/auth-client.ts:109-117 | Once the session is cleared nobody is logged in, and no login or refresh that was asked for before is ever installed, whatever follows. |
| AuthClient.AuthClient.SetSession | frontend/src/services/auth-client.ts:119-133 | A session is installed whole or refused, and pending requests are cancelled when the user or tenant changes. |
| AuthClient.AuthClient.RefreshAnswered | frontend/src/services/auth-client.ts:170-187 | A refresh installs its session only in its own epoch, and clears it only on a 401 in its own epoch. |
| AuthClient.AuthClient.BodyArrived | frontend/src/services/auth-client.ts:216-225 | Nothing happens once its signal has fired; else an expired token waits for a refresh, or retries at once if another request has refreshed already, and a second or different 401 clears the session. |
| AuthRuns.NextKeeps | frontend/src/services/auth-client.ts:104-228 | Every block between two awaits keeps the invariant that ties pending calls to the session they belong to. |
| AuthRuns.EveryRunIsSafe | frontend/src/services/auth-client.ts:104-228 | In every interleaving, with the session cancelled and cleared from outside at any time: token and identity are both set or both absent, at most one refresh is under way, no request is sent more than twice and only with a token of the session it started in, a session is installed only in the epoch that asked for it, a late 401 never clears a newer session, and a logout clears the session it was sent under exactly if that has not ended. |
| AuthRuns.LockedLogoutClearsItsOwn | frontend/src/services/auth.ts:4-8 | In every run that an exclusive lock allows, a logout clears the session it was sent under, or there is none. |
| AuthRuns.LateLogoutClearsAnother | frontend/src/services/auth-client.ts:86 | With the lock that lets everybody through there is a run in which a logout clears a session that was installed after it was sent; an exclusive lock does not allow that run. |
| AuthRuns.RetryFindsToken | frontend/src/services/auth-client.ts:222-225 | In no interleaving does a request that may go on after a refresh find the token missing: the login-required exit there is never taken. |
| TextSplitting.PiecesWithSeparator | src/zhiqing_rag/document_processing/chunking.py:84-94 | The pieces are not empty, concatenate to the text, and all but the last end with the separator. |
| TextSplitting.SplitAnywhere | src/zhiqing_rag/document_processing/chunking.py:129-147 | Cutting by binary search gives fitting pieces that concatenate to the text, or fails because some single character does not fit. |
| TextSplitting.RecursiveSplit | src/zhiqing_rag/document_processing/chunking.py:149-191 | It ends, its pieces concatenate to the text and are each within the budget, and it fails only if some single character exceeds the budget; nothing is assumed of the token counter. |
| TextSplitting.CannotCutLargeCharacter | src/zhiqing_rag/document_processing/chunking.py:172-191 | Conversely, if characters count no more than texts they are in, no cutting could help such a text. |
| TextSplitting.WithOverlap | src/zhiqing_rag/document_processing/chunking.py:217-229 | A piece with overlap fits, ends with the piece and begins with an end of the previous one. |
| TextSplitting.SplitText | src/zhiqing_rag/document_processing/chunking.py:193-230 | Apart from white space every character of the text is in exactly one piece's new part; with a counter that stripping never raises all pieces fit. |
| Chunking.GroupRows | src/zhiqing_rag/document_processing/chunking.py:320-348 | The row groups follow each other without gap or overlap, a group of two or more rows is within the budget, and a group only ends because its next row would not fit. |
| Chunking.EveryRowOnce | src/zhiqing_rag/document_processing/chunking.py:320-348 | Every data row is in exactly one group. |
| Chunking.PlanBlocks | src/zhiqing_rag/document_processing/chunking.py:277-374 | Every element is emitted exactly once and in order, but for headings followed by something; gathered paragraphs share page and heading and fit together. |
| Chunking.Emit | src/zhiqing_rag/document_processing/chunking.py:232-275 | New chunks carry the emitted text, and the over-limit guard is unreachable if stripping never raises a count. |
| Chunking.MergedHoldsBoth | src/zhiqing_rag/document_processing/chunking.py:376-436 | A merged chunk contains both contents and exactly their references. |
| Chunking.MergeSmall | src/zhiqing_rag/document_processing/chunking.py:376-436 | Every chunk is held by one merged chunk, in order, and merged chunks are within the limit. |
| Chunking.ChunkDocument | src/zhiqing_rag/document_processing/chunking.py:97-437 | All of this for a whole document, with indices 0 to n-1. |
| TableText.RowReads | src/zhiqing_rag/query_answering/providers.py:291-297 | Reading a printed row gives its cells, whatever bars and backslashes they hold. |
| TableText.TableReads | src/zhiqing_rag/document_processing/chunking.py:44-51 | Reading the printed Markdown of a clean table gives every escaped cell in its place, with the separator after the first row. |
| TableText.TableReadsExactly | src/zhiqing_rag/query_answering/providers.py:291-298 | For trimmed cells the printed table reads as its rows if and only if every row has a cell and no cell holds a line end other than `\n`. |
| TableText.BrokenRow | src/zhiqing_rag/query_answering/providers.py:298 | A row of two columns whose second cell holds such a line end is read as two lines that are no rows. |
| TableCheck.BlocksFine | src/zhiqing_rag/query_answering/providers.py:306-315 | The first loop accepts exactly if every maximal run of table rows with several columns has a separator. |
| TableCheck.CheckTable | src/zhiqing_rag/query_answering/providers.py:321-347 | One table passes exactly if its header names two columns or a sparse preface leads to a row that names all. |
| TableCheck.TableContextComplete | src/zhiqing_rag/query_answering/providers.py:286-348 | The method decides exactly the declarative predicate on the rows read. |
| TableAgreement.EscapedInstruction | src/zhiqing_rag/query_answering/providers.py:335-339 | Escaped, an instruction is recognised exactly if no line feed stands between keyword and colon. |
| TableAgreement.WholeTableVerdict | src/zhiqing_rag/document_processing/chunking.py:54-67 | A sheet's table printed whole is accepted if and only if its first row has two values, or the chunker finds its column names further down and the instruction has no such line feed. |
| TableAgreement.GroupVerdict | src/zhiqing_rag/document_processing/chunking.py:320-348 | Every row group under a header with two values is accepted. |
| TableAgreement.FoundHeaderNamesColumns | src/zhiqing_rag/document_processing/chunking.py:54-67 | A header found behind a preface names at least two columns, so its groups are accepted. |
| TableAgreement.BrokenInstruction | src/zhiqing_rag/query_answering/providers.py:335-347 | A four-row table whose column names the chunker finds and the reader does not. |
| SourceUnits.Clauses | src/zhiqing_rag/query_answering/support.py:47-63 | The loop yields the clauses between boundaries, without headings. |
| SourceUnits.CutLines | src/zhiqing_rag/query_answering/support.py:83-103 | The loop over lines yields buffered prose as clauses and table rows as cells, each moved to its place. |
| SourceUnits.SourceUnits | src/zhiqing_rag/query_answering/support.py:76-103 | The generator yields the units of every clause in turn. |
| SourceUnits.SourceUnitsDivide | src/zhiqing_rag/query_answering/support.py:47-103 | Units are trimmed, non-blank slices at their offsets, in order and disjoint; every character outside them is white space, a closing mark, a bar, or left out: in the heading over an actual clause, in a heading of the prose of a clause with rows, or behind the last bar of an actual row of such a clause. |
| SourceUnits.SourceUnitsExactly | src/zhiqing_rag/query_answering/support.py:47-103 | A character of the text that is no white space, closing mark or bar is in a unit if and only if it is not left out. |
| SourceUnits.LeftOutIsLost | src/zhiqing_rag/query_answering/support.py:47-103 | Whatever is left out, headings included, is in no unit at all. |
| SourceUnits.RowKeeps | src/zhiqing_rag/query_answering/support.py:94-101 | A character of a row, white space and bars between cells aside, is in a unit if and only if it is not behind the last bar. |
| SourceUnits.RowIsWhole | src/zhiqing_rag/query_answering/support.py:94-101 | A row keeps all these characters if and only if a bar that is not escaped closes it. |
| SourceUnits.UnclosedRow | src/zhiqing_rag/query_answering/support.py:76-103 | A row of two cells without a closing bar has one unit: the first cell. |
| SourceUnits.NumberDropped | src/zhiqing_rag/query_answering/support.py:188-208 | After a number is dropped from the start of a unit the slice still is the text: the assertion never fires. |
| CalendarPeriods.NextMonthIsMonthLater | src/zhiqing_rag/query_metadata/resolver.py:33-36 | The next month begins as many days later as the month has, over the end of a year too. |
| CalendarPeriods.StartsBeforeItEnds | src/zhiqing_rag/query_metadata/resolver.py:39-70 | No period is empty. |
| CalendarPeriods.RelativesMeet | src/zhiqing_rag/query_metadata/resolver.py:40-55 | Yesterday, last week, last month and last year end where today, this week, this month and this year begin, with the right lengths in leap years. |
| CalendarPeriods.TodayIsNow | src/zhiqing_rag/query_metadata/resolver.py:40-55 | Today lies in this week, month and year, and weeks begin on Mondays. |
| CalendarPeriods.OperatorsPartition | src/zhiqing_rag/query_metadata/resolver.py:73-113 | For any period less-than, equal and greater-than divide all instants into three; the weak comparisons are their unions. |
| MetadataFilters.NumberTellsApart | src/zhiqing_rag/query_metadata/models.py:45-49 | Two department ids in the accepted form with one number are one text. |
| MetadataFilters.CompileFilters | src/zhiqing_rag/query_metadata/compiler.py:24-47 | The loop compiles every filter to a predicate and its parameters in order, and refuses exactly if some filter is invalid. |
| MetadataFilters.CompiledFilterMeans | src/zhiqing_rag/query_metadata/compiler.py:27-46 | One compiled filter with its parameters is true of a row exactly if the filter holds of a value the row has; NULL satisfies nothing. |
| MetadataFilters.CompiledMeans | src/zhiqing_rag/query_metadata/compiler.py:23-47 | With three-valued logic and positional parameters the compiled conjunction is true of exactly the rows of which every filter holds. |
| MetadataFilters.ValuesConflict | src/zhiqing_rag/query_metadata/resolver.py:121-131 | A categorical field is refused exactly if values are demanded and none is left. |
| MetadataFilters.CrossedIsExact | src/zhiqing_rag/query_metadata/resolver.py:159-164 | The final comparison of limits is true exactly if no instant lies between them outside the excluded points. |
| MetadataFilters.TimesConflict | src/zhiqing_rag/query_metadata/resolver.py:133-164 | A field in time is refused exactly if no instant satisfies all its conditions. |
| MetadataFilters.GroupByField | src/zhiqing_rag/query_metadata/resolver.py:118-120 | Grouping keeps every field's filters in order. |
| MetadataFilters.ValidateConjunction | src/zhiqing_rag/query_metadata/resolver.py:116-164 | It refuses exactly if some field is in conflict, and names one that is. |
| StoredDocuments.NameOfType | src/zhiqing_rag/document_processing/format_validation.py:30-48 | Each of the six types has file names: a printable stem with the suffix of a type is accepted and stored with that type. |
| MetadataVerdicts.RefusedSelectsNothing | src/zhiqing_rag/query_metadata/resolver.py:116-164 | A refused conjunction compiles to a predicate that is true of no row. |
| MetadataVerdicts.RefusesExactly | src/zhiqing_rag/query_metadata/resolver.py:116-164 | For all filters that a query can carry (at most 40): no document that can be stored is selected if and only if the conjunction is refused, or the limits of a field in time leave no point, or every status is excluded, or no code that can be stored passes what is demanded or searched, or no file name with its type does, or no type does. |
| MetadataVerdicts.DemandedDecide | src/zhiqing_rag/query_metadata/resolver.py:121-131 | Where a code or a name is demanded, none is left if and only if none of the values demanded by one filter can be stored and passes the others. |
| MetadataVerdicts.TooLongToFind | src/zhiqing_rag/query_metadata/resolver.py:121-131 | A text longer than any code or name is searched for in vain. |
| MetadataVerdicts.ShortCodeIsFound | src/zhiqing_rag/query_metadata/resolver.py:121-131 | Printable texts that are short together are found in some code that can be stored, whatever codes are excluded. |
| MetadataVerdicts.ShortNameIsFound | src/zhiqing_rag/query_metadata/resolver.py:121-131 | Likewise in some file name of a type that passes, if there is such a type. |
| MetadataVerdicts.PlainVerdictIsRight | src/zhiqing_rag/query_metadata/resolver.py:116-164 | For filters without `contains`, with the operators the resolver makes of calendar phrases, some status and some type left, and demanded codes, names and days that can be stored, a conjunction is refused if and only if no document is selected. |
| TimeVerdicts.NoPointExactly | src/zhiqing_rag/query_metadata/resolver.py:133-164 | No whole point in time, day of the calendar or microsecond, satisfies the conditions exactly if their limits leave no point that is not excluded. |
| TimeVerdicts.TimeVerdictExactly | src/zhiqing_rag/query_metadata/resolver.py:133-164 | The verdict on a field in time is wrong if and only if the computed limits do not cross and yet every point between them and on the calendar is excluded, or there is none. |
| TimeVerdicts.BetweenPointsExactly | src/zhiqing_rag/query_metadata/resolver.py:133-164 | Without `neq` it is wrong if and only if the tightest lower limit is after one point, the tightest upper before the next, and both are strict; or the limits do not cross and are off the calendar. |
| MetadataVerdicts.AcceptedBetweenPoints | src/zhiqing_rag/query_metadata/resolver.py:144-164 | After one point in time and before the next is accepted and selects nothing, for upload times and for days. |
| MetadataVerdicts.AcceptedBeforeCalendar | src/zhiqing_rag/query_metadata/resolver.py:144-164 | Before the first day of the calendar is accepted and selects nothing. |
| MetadataVerdicts.AcceptedWithoutSubstring | src/zhiqing_rag/query_metadata/resolver.py:121-131 | Any name equal to one text and containing another that is not in it is accepted and selects nothing. |
| MetadataVerdicts.AcceptedWithoutType | src/zhiqing_rag/query_metadata/resolver.py:19-24 | Not PDF, not DOCX, not Excel, not TXT and not Markdown, as resolved, is accepted and selects nothing. |
| MetadataVerdicts.AcceptedUnstoredCode | src/zhiqing_rag/query_metadata/resolver.py:121-131 | A demanded code that cannot be stored, as one of 101 characters, is accepted and selects nothing. |
| MetadataVerdicts.AcceptedUnstoredName | src/zhiqing_rag/query_metadata/resolver.py:121-131 | A demanded file name that no upload accepts, as one without a known suffix, is accepted and selects nothing. |
| MetadataVerdicts.AcceptedOtherType | src/zhiqing_rag/query_metadata/resolver.py:121-131 | A file name together with a type that is not that of its suffix is accepted and selects nothing. |
| MetadataVerdicts.AcceptedWithoutStatus | src/zhiqing_rag/query_metadata/resolver.py:121-131 | Unequal to all five statuses is accepted and selects nothing. |
| Pairing.NoneAgreesMore | scripts/evaluate_graph_quality.py:526-543 | No injective matching has more pairs within their class than the sum of the smaller class counts. |
| Pairing.SaturatedIsBest | scripts/evaluate_graph_quality.py:526-543 | A matching that leaves no pair of a class to be made reaches that number. |
| Matching.FirstFree | scripts/evaluate_graph_quality.py:530-543 | The inner loop takes the first free prediction that the level accepts. |
| Matching.MatchLevel | scripts/evaluate_graph_quality.py:527-543 | A level's pass only adds pairs within the level's classes and leaves none to be made. |
| Matching.MatchRelations | scripts/evaluate_graph_quality.py:525-543 | The result is one-to-one and at all three levels at once has as many agreeing pairs as the class counts allow and as any other injective matching. |
| Matching.AnalyzeRecall | scripts/prepare_graph_holdout_review.py:335-404 | Greedy hits, of entities and of relations, number as many as the intersections of the gold and predicted counters have elements; an entity counts as not extracted exactly if no predicted one has its name, and a missed relation names exactly the missing endpoints. |
| Matching.HitsAreCommon | scripts/replay_graph_zero_chunks.py:103-110 | Hits counted one by one are the size of the counter intersection, for keys of any kind. |
| PathSelection.SelectPaths | src/zhiqing_rag/query_retrieval/graph.py:944-1053 | Selected paths have distinct keys and fit the chunk budget together; unless there are enough, every pair that could still make a new path within the budget has been taken. |
| PathSelection.AssembleHits | src/zhiqing_rag/query_retrieval/graph.py:1056-1075 | All chunks of all paths are among at most `limit` distinct hits, each with exactly the paths that need it; one-hop hits follow while there is room. |
| PathSelection.Paths | src/zhiqing_rag/query_retrieval/graph.py:1054-1077 | Without a path the one-hop result stands; else all of the above. |
| PathSelection.HopsAreShown | src/zhiqing_rag/query_retrieval/graph.py:1046-1049 | If each assertion has one row, each hop's relation is shown by the hit of its chunk, whatever the hit showed before. |
| Embedding.OrderBatch | src/zhiqing_rag/document_processing/embedding.py:168-180 | A reply is accepted exactly if it has an item for each place, none twice and all valid; then each place has its own vector, in whatever order they came. |
| Embedding.EmbedBatches | src/zhiqing_rag/document_processing/embedding.py:152-181 | One call for every ten inputs, all or nothing; from an honest service every text gets its vector. |
| Embedding.GetMany | src/zhiqing_rag/document_processing/embedding_cache.py:59-80 | Found are exactly the texts with a valid stored vector. |
| Embedding.EmbedWithCache | src/zhiqing_rag/document_processing/embedding.py:107-129 | Only texts the store does not have are computed, each distinct one once; with an agreeing store and an honest service each chunk gets its own vector, in order. |
| Facets.CoverFacets | src/zhiqing_rag/query_retrieval/facets.py:47-65 | The result is the first `limit` different candidates tried, as ranked by the whole question. |
| Facets.TopOfEveryFacet | src/zhiqing_rag/query_retrieval/facets.py:51-64 | With room for the best candidate, the anchors and j of every facet, the best j of every facet are chosen. |
| Facets.BestFirst | src/zhiqing_rag/query_retrieval/facets.py:54-64 | The best candidate comes first. |
| Facets.AnchorsChosen | src/zhiqing_rag/query_retrieval/facets.py:54-64 | With room for them the anchors are chosen. |
| Facets.FilledUp | src/zhiqing_rag/query_retrieval/facets.py:54-65 | As many distinct candidates are chosen as limit and ranking allow. |

## Left out

- Language model, embedding and rerank calls, PostgreSQL, Neo4j, Redis, MinIO and HTTP: they are replies that may be anything.
- Tokenisation, SHA-256, UTF-8 decoding and float32 rounding: abstract functions; the length of a text counts characters, where JavaScript counts UTF-16 units.
- The regular expressions for wording (state judgements, confirmation phases, source scope, identity denial, path triggers): opaque predicates; the expressions for boundaries, headings, table cells and instructions are modelled exactly.
- Aborts and timeouts of the stream reader, the timing of heartbeats, and the clean-up when a client disconnects.
- The `run` event and session checks that frontend/src/services/chat.ts adds to the same reader loop.
- `emit` and the listeners of the session client, and its login call before a tenant is selected: they do not change the fields modelled.
- Token usage, times and messages of an answer, and bounding boxes, row numbers and digests in chunk metadata: nothing depends on them.
- `select_path_bundles`, and of `complete_paths` how the ends and relations of two hops must meet: a parameter of the pipeline; merging, conflicts, order and the checks of the sources are modelled.
- How `materialize_repair` turns selected candidates into a draft: a repaired draft may be anything.
- `compare_gold` apart from its counters, adjudication, freezing, seeding and report rendering.
- The score arithmetic of `fuse_candidates` and `fuse_facet_rankings`: facet rankings are given.
- Exact timestamps and the matching of phrases in `resolve_date`: an upload time given as a timestamp is compared as it is; a phrase arrives read.
- How pydantic strips a text: it is taken to be Python's `str.strip`.
- MetadataVerdicts.TooLongToFind: takes lower case to go character by character, one for one, as do `ShortCodeIsFound` and `ShortNameIsFound`; nothing else does.
- Rows that something else than uploads and edits writes: a stored document has one of the five statuses, a name and code as uploads and edits check them, the type of the name's suffix, and dates of the calendar; when it was uploaded is any microsecond.
- TableAgreement.WholeTableVerdict: states the verdict for tables without a caption, as the sheet parser makes them, with cells whose only line end is a line feed.
- PathSelection.HopsAreShown: a hit's relations are a map by assertion; their order is not modelled.
- CalendarPeriods.StartsBeforeItEnds: today is between the years 2 and 9998, as the words for the year before and after need both.
