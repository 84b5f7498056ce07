# Verified models of Ordin's small engines

Ordin decides whether an agent's action may run. Around that decision sit several small engines that
are easy to state and hard to get right: a one-use approval protocol, a byte budget over aliased JSON,
an incremental event-stream reader, an injective request encoding, a GraphQL selector, a capability
subset check, and three cores that must hold over whole runs. This project models them in Dafny and
proves what they promise. `dafny verify dfyconfig.toml` checks everything.

Each engine is a few modules. Code that changes state step by step is a class or a method with loops,
proved equal to a function of the old state; what the engine promises is then proved about that
function, for all inputs, all interleavings or all reachable states.

| engine | modules |
|---|---|
| one-use approvals | `ApprovalState`, `ApprovalInvariant`, `ApprovalRuns`, `ApprovalTheorems`, `ApprovalHistory`, `ApprovalIssuer` |
| JSON preflight | `Powers`, `JsonText`, `JsonValues`, `JsonPreflight`, `JsonTrees` |
| server-sent events and request bodies | `SseLines`, `SseEvents`, `SseData`, `SseClient`, `SseCuts`, `SseStream`, `ChunkedBody` |
| request commitments | `CommitmentNumbers`, `CommitmentTree`, `CommitmentTheorems`, `RequestCommitment`, `CommitmentLimits`, `RpcCommitment`, `RpcMessages` |
| GraphQL selection | `GraphqlSyntax`, `GraphqlGrammar`, `GraphqlSelections`, `GraphqlDefinitions`, `GraphqlPrinting`, `GraphqlParser`, `GraphqlExpansion`, `GraphqlDocument`, `GraphqlAcceptance`, `GraphqlVariables`, `GraphqlMeaning` |
| capability boundary | `RuntimeCapability`, `RuntimeBoundary`, `RuntimePlaces`, `BoundaryVerifier`, `CapabilityDelta` |
| contract discovery, audit log, command lookup | `ContractObserver`, `ContractRuns`, `AuditChain`, `AuditSinks`, `PathLookup` |

## How the models read

- **Approvals.** A step is one section under the issuer's lock. Between the sections of one call any other
  steps may happen, in any number and order, with any clock readings and any answers of the lifecycle
  verifier. Theorems are about every run from a fresh issuer. The log of a run decides what may happen next:
  `ApprovalHistory` says of every section, over the issue, grant, begin, finish and fence events before it, exactly
  when it goes ahead (`Reached` is what every run keeps, by `RunTold`).
- **JSON preflight.** A value is an object graph with sharing and possibly cycles. The traversal keeps an
  explicit stack, a bounded least-recently-used memo and a byte count; it is compared with a recursive
  measure and with the tree the graph unfolds to. What can be sent is said of that tree, and what is charged of the
  bytes it is written as; a quoted text is bytes that a reader of JSON strings turns back into the text.
- **Event streams.** Which data an event carries is said of the lines between two blank lines, and of what a sender
  wrote. A source hands out its bytes in pieces of any size. Lines, messages and the size verdict
  are stated about the whole stream, so they cannot depend on the pieces. What is written, what is observed and
  how the response ends is `Play`, a function of the stream and of the places where reads ended. The observer's
  answer may depend on all messages before.
- **Commitments.** Strings are their UTF-8 bytes and the hash is left off: the model is the byte stream that
  is hashed. A float is the decimal its `repr` spells.
- **GraphQL.** The input is the token sequence. The last word is about the document as it is written: its fields with
  alias and arguments, spreads replaced by their fragments, variables as they stand in the tokens. A tuple of
  arguments sorted by distinct names, which is only compared for equality, is a finite map.
- **Boundaries.** Contracts and boundaries denote sets of concrete accesses. Where a contract is silent it may
  need anything, where a boundary is silent it grants nothing. Sets are walked in any order. A path also leads to a
  place, segment by segment, and a request target to the place where it is served once its escapes are decoded.
- **Audit.** The hash is a parameter; only the theorems about equal heads assume that it has no collisions.
  The file's signature is a version that changes whenever the content does.

## What the code does not promise

Some natural expectations are false of the code. Each has a proof of when it fails and when it holds.

- A successful `begin` decides which executor and job run exactly when it names a job. With a missing job
  handle the lease can be bound again while the verifier is being asked (`BeginDecidesExactlyWithJob`).
- "settled" is not final: a run reaches a second `finish` that makes it "canceled" (`SettledIsNotFinal`). In
  every run a settled lease stays settled exactly as long as its operator does not finish it again, whatever
  else happens, a fence included (`SettledStep`, `SettledLasts`).
- What becomes of a response depends on how it is cut. For every response of any size, fitting or refused, what
  is written and observed and how it ends are the same wherever reads end exactly if no line decides
  (`OutcomesIff`; the condition is `Decides`, a function of the bytes), and where one decides, two deliveries of
  these bytes do come to different things (`Differing`, and `TwoDeliveries`, which runs the reader on them).
  - If the response fits, only bytes can differ, and only at a rewritten event whose blank line is CR LF, which
    gains an LF if the cut falls between the two, or at such an event of a terminal reply that is not rewritten,
    which loses one (`FittingIff`). The usual answer to a request is of this kind (`AnsweredDecides`).
  - If it is refused for its size, a comment or completed event matters whose LF alone breaks the limit: it is
    forwarded if it is cut there (`LongCommentDecides`); so does one whose LF is lost because the next line is
    too long (`LostLfDecides`).
  - Of a response beyond the limit on streams the read that exceeds it is dropped whole, so how much is forwarded
    depends on where the read before it ended (`ManyCommentsDecide`).
- A client need not read what the observer passed on. Comments are forwarded at once and fields with their event, so
  a data line that ends in CR, a comment, and a blank line that is LF are forwarded with one line end where there
  were two: the client is sent the data but no blank line (`FusedIsHeld`). A client is up to date, whenever a response
  has come this far, exactly if no event with data is fused so (`UpToDateIff`); then it reads exactly the messages that
  were passed on, as they were or rewritten, however the response is cut (`ClientSees`).
- The boundary result cannot always be built: its constructor refuses more than 128 unsupported codes, and a
  contract may list 128 of its own (`CrowdedContract`). The codes are a function of contract and boundary
  (`Raised`), and no result is returned exactly if there are more than 128 of them; only where so many
  comparisons are needed that they may run out does the count depend on their order, between two bounds (`Verify`).
- "Exceeds the boundary" can be wrong when a boundary splits a directory into the directory itself and a prefix
  with a trailing slash (`ExcessNotReal`). Of a contract that is contained and not blocked it is said exactly
  then (`Verify`): an unmatched capability is granted if and only if it is split so (`UnmatchedCoveredIff`).
- The documentation says that a `/**` pattern matches descendants only. The code also matches the prefix with a
  trailing slash (`SlashIsMatched`), which every pattern of a boundary admits as a candidate
  (`PatternAdmitsDirectory`); of every other candidate the documentation is right (`PatternMatches`).
- The PATH prefilter misses a command that a directory resolves without listing it, such as a Windows short
  name (`AliasMissed`). It finds what the full lookup finds exactly if the current directory has the command, or
  the first hit on the path is what the first directory that may list it finds, or none may list it and the
  first directory, which is then kept, has it (`FilterIff`).

## Model

| member | source | states |
|---|---|---|
| ApprovalTheorems.RunKeeps | ordin/approval.py:292-649 | every interleaving of calls, fences and clock readings keeps the protocol invariant: tables within the limit, one proof per resolution identity, one lease per proof, used proofs exactly those that began |
| ApprovalTheorems.RunEvolves | ordin/approval.py:486-649 | between any two moments of a run the state only evolves: scopes and proofs stay, leases move forward, generation, clock and used set grow |
| ApprovalTheorems.OneLeaseEver | ordin/approval.py:486-528 | leases of one satisfaction seen at any two moments of a run are the same lease |
| ApprovalTheorems.PhasesNeverReentered | ordin/approval.py:564-649 | a lease never returns to reserved or to forwarding, and its executor and job are fixed once it left reserved |
| ApprovalTheorems.OneBegin | ordin/approval.py:581-610 | in any run at most one begin succeeds and at most one lease is granted for a satisfaction |
| ApprovalTheorems.InOrder | ordin/approval.py:292-649 | any two events of a run stand in an allowed order, whichever calls they came from |
| ApprovalTheorems.ExecutionsAgree | ordin/approval.py:612-633 | every verified execution follows a begin for the same lease, and all executions of one satisfaction name the same lease, executor and job |
| ApprovalTheorems.NeverAliveAgain | ordin/approval.py:424-439 | once a proof was found not alive it is never found alive again and nothing is granted in its name |
| ApprovalTheorems.NoIssueAcrossFence | ordin/approval.py:337-396 | an issue call that a fence overtakes while the lock is dropped does not succeed |
| ApprovalTheorems.FenceEndsEarlierProofs | ordin/approval.py:643-649 | after a fence no earlier proof is found alive and nothing is granted in its name |
| ApprovalTheorems.TablesBounded | ordin/approval.py:337-396 | in every run the tables stay within the limit and one resolution identity is fulfilled at most once |
| ApprovalTheorems.BeginDecidesExactlyWithJob | ordin/approval.py:564-610 | in all runs the executor and job that a begin names are the ones that execute, if and only if it names a job |
| ApprovalTheorems.BegunIsExecuted | ordin/approval.py:581-633 | a begin that names a job and an execution of the same lease name the same executor and job |
| ApprovalTheorems.OvertakenRun | ordin/approval.py:564-610 | a run in which a begin without a job is overtaken by a second binding and another job executes |
| ApprovalTheorems.SettledIsNotFinal | ordin/approval.py:635-641 | a run in which a settled lease is finished again and becomes canceled |
| ApprovalTheorems.SettledStep | ordin/approval.py:635-649 | one step leaves a settled lease settled exactly if it is not the operator's finish of that lease, which cancels it |
| ApprovalTheorems.SettledLasts | ordin/approval.py:635-649 | in every run a lease that was settled is settled exactly if it was not finished again since, and otherwise canceled or fenced for good |
| ApprovalHistory.RunTold | ordin/approval.py:292-649 | in every run the tables, the waiting calls and every grant are what the log of events says |
| ApprovalHistory.GrantsAreVouched | ordin/approval.py:441-633 | in every run whatever succeeds was approved before: a verification by an issue of that proof for the same scope and the same action, review, configuration and contract digests; a receipt and a lease's contract by the issue; a binding or begin by a grant to the same broker; an execution by a begin that has not ended, with the handles bound last |
| ApprovalHistory.AliveIff | ordin/approval.py:424-439 | a proof is alive exactly if no fence came since its issue, it is not expired, the clock does not run backwards, and the lease it began has not ended |
| ApprovalHistory.VerifyIff | ordin/approval.py:441-459 | a verification goes on exactly if a live approval was issued for this very scope and claim |
| ApprovalHistory.ReceiptIff | ordin/approval.py:467-478 | a receipt check goes on exactly for the receipt recorded with a live approval |
| ApprovalHistory.IssueIff | ordin/approval.py:303-349 | an issue goes on exactly if the operator asks, within the maximum, for a new identity, a lifetime of at most 300 seconds and the contract of a known scope |
| ApprovalHistory.ScopeIff | ordin/approval.py:253-266 | a scope is created exactly for the operator, in the host's epoch and under its maximum, while there is room, and holds what was asked for |
| ApprovalHistory.ReserveIff | ordin/approval.py:486-506 | a reservation goes on exactly if the operator asks for the approved contract, with nothing waived, of a live approval that has no lease |
| ApprovalHistory.BindIff | ordin/approval.py:564-579 | a lease is bound exactly if the operator asks, it waits, is held by this broker for a live approval, and no job is bound |
| ApprovalHistory.BeginIff | ordin/approval.py:581-599 | a begin goes on exactly if the operator asks, for a waiting lease held by this broker and the handles bound last |
| ApprovalHistory.ExecutionIff | ordin/approval.py:612-627 | an execution is checked further exactly for a lease that began and has not ended, and the handles bound last |
| ApprovalHistory.AnswerIff | ordin/approval.py:354-633 | an answered call of any kind succeeds, with the operands it was started with, exactly if what it was let in for still holds |
| ApprovalHistory.OutsiderChangesNothing | ordin/approval.py:266-649 | a step by anyone but the operator changes nothing |
| ApprovalRuns.StepKeeps | ordin/approval.py:292-649 | one locked section of any call, with any operands, keeps the invariant and evolves the state |
| ApprovalRuns.AdmissibleIsCompatible | ordin/approval.py:424-439 | an event that the current state admits does not contradict any event justified before |
| ApprovalState.SpentForever | ordin/approval.py:424-439 | a proof that is stale, expired or used up stays so in every later state |
| ApprovalState.EvaluateSound | ordin/approval.py:424-439 | liveness is true only for a proof of this generation that is unexpired and unused or still forwarding; false only for a spent one |
| ApprovalInvariant.FenceSound | ordin/approval.py:643-649 | a fence keeps the invariant and evolves the state: every lease that is not settled is fenced, the generation grows |
| ApprovalInvariant.BeginCommitSound | ordin/approval.py:602-610 | the second section of begin keeps the invariant: the proof becomes used together with its one forwarding lease |
| ApprovalInvariant.ReserveCommitSound | ordin/approval.py:509-528 | the second section of reserve_lease keeps the invariant: a second lease for the proof is impossible |
| ApprovalIssuer.ApprovalSource.Now | ordin/approval.py:228-233 | the clock is read monotonically; a reading that fails or runs backwards is refused and changes nothing |
| ApprovalIssuer.ApprovalSource.IsAlive | ordin/approval.py:424-439 | evaluates liveness as specified and records the clock reading |
| ApprovalIssuer.ApprovalSource.CreateScope | ordin/approval.py:253-266 | the whole new state when a scope is created, or none |
| ApprovalIssuer.ApprovalSource.IssueStart | ordin/approval.py:303-349 | the first section starts an issue exactly when operator, identity, lifetime, authority, scope and capacity allow it, and remembers the generation |
| ApprovalIssuer.ApprovalSource.IssueCommit | ordin/approval.py:354-396 | the second section issues a proof only in the same generation, and the whole new state |
| ApprovalIssuer.ApprovalSource.VerifyCheck | ordin/approval.py:441-459 | the first section of verify: liveness, scope and claim, and the stage to ask about |
| ApprovalIssuer.ApprovalSource.ReceiptCheck | ordin/approval.py:467-478 | the first section of the receipt check |
| ApprovalIssuer.ApprovalSource.Recheck | ordin/approval.py:462-484 | the second section evaluates liveness again on the same row |
| ApprovalIssuer.ApprovalSource.ReserveCheck | ordin/approval.py:486-506 | the first section of reserve_lease: operator, liveness, contract and absence of a lease |
| ApprovalIssuer.ApprovalSource.ReserveCommit | ordin/approval.py:509-528 | the second section reserves the one lease after evaluating again |
| ApprovalIssuer.ApprovalSource.BindJob | ordin/approval.py:564-579 | binds executor and job of a reserved lease of this broker, once per handle |
| ApprovalIssuer.ApprovalSource.BeginCheck | ordin/approval.py:581-599 | the first section of begin |
| ApprovalIssuer.ApprovalSource.BeginCommit | ordin/approval.py:602-610 | the second section begins only if still alive, unused and reserved, and marks the proof used |
| ApprovalIssuer.ApprovalSource.ExecutionCheck | ordin/approval.py:612-627 | the first section of verify_execution: a forwarding lease with these handles |
| ApprovalIssuer.ApprovalSource.ExecutionRecheck | ordin/approval.py:630-633 | the second section finds the same lease still forwarding and alive |
| ApprovalIssuer.ApprovalSource.Finish | ordin/approval.py:635-641 | forwarding becomes settled, anything else becomes canceled |
| ApprovalIssuer.ApprovalSource.Fence | ordin/approval.py:643-649 | the loop over all leases fences every one that is not settled and raises the generation |
| ApprovalIssuer.ApprovalAuthority.FenceAll | ordin/approval.py:692-712 | every enrolled issuer is fenced, whatever the order |
| ApprovalIssuer.ApprovalAuthority.Enroll | ordin/approval.py:692-712 | enrollment fences all issuers already enrolled and the new one, or is refused and touches nothing; it is refused exactly if a binding digest fails or operator, barrier, maximum, identity or capacity do not fit |
| ApprovalIssuer.EnrollmentEndsProofs | ordin/approval.py:692-712 | after an enrollment no earlier proof of an affected issuer is alive at any clock reading in any state reached from there |
| JsonPreflight.ValidateJsonDepth | ordin/mcp_proxy.py:693-773 | the memoised stack traversal terminates on every graph and accepts exactly the acceptable payloads, whatever the memo forgot; what it spent is the expanded size |
| JsonPreflight.Memo.Remember | ordin/mcp_proxy.py:713-718 | remembering drops only the oldest entries once the table is full |
| JsonPreflight.Memo.Touch | ordin/mcp_proxy.py:729-735 | a hit moves the entry to the end and keeps the table |
| JsonPreflight.UseMemo | ordin/mcp_proxy.py:729-735 | a remembered extent is charged at the current depth as if the object were traversed again |
| JsonPreflight.OpenContainer | ordin/mcp_proxy.py:736-749 | opening a container charges its brackets, marks it active and descends, or refuses only what is not acceptable |
| JsonPreflight.MeasureLeaf | ordin/mcp_proxy.py:750-754 | strings and scalars are charged their least rendering |
| JsonPreflight.Return | ordin/mcp_proxy.py:756-773 | a finished child moves its parent to the next child or finishes it, and separators are charged |
| JsonPreflight.AcceptableHere | ordin/mcp_proxy.py:693-773 | wherever the traversal stands in an acceptable payload, the current value measures, is no ancestor of itself, and fits what is left of the budget |
| JsonPreflight.MemoTells | ordin/mcp_proxy.py:729-735 | a remembered extent decides the value at any other depth |
| JsonTrees.AcceptedIffTree | ordin/mcp_proxy.py:643-773 | a payload is acceptable exactly when it unfolds to a finite tree that is no deeper than the limit, whose texts and names are Unicode scalar values, whose floats are finite, whose integers have no more digits than the limit, and whose charge is within the byte limit |
| JsonTrees.ChargedAtMostWritten | ordin/mcp_proxy.py:643-673 | the charge never exceeds the bytes the value is written as, and is exactly their number where there are no numbers |
| JsonTrees.SizeIsCharge | ordin/mcp_proxy.py:643-773 | a tree has a size exactly if it can be sent, and the size is its charge |
| JsonText.QuotedReads | ordin/mcp_proxy.py:643-650 | a text of scalar values, quoted with the escapes that cannot be avoided and in UTF-8, is read back |
| JsonText.SurrogateUnreadable | ordin/mcp_proxy.py:647-650 | what would be written for a surrogate is no UTF-8 |
| JsonValues.QuotedIsCharged | ordin/mcp_proxy.py:643-650 | a text can be charged exactly if it has no surrogates, and is charged the number of bytes it is quoted as |
| JsonValues.EstimateIsClose | ordin/mcp_proxy.py:655-666 | the estimate is at most two digits short of the number of decimal digits, and one more for every 3999 |
| JsonValues.RoomOnlyLimitsHeight | ordin/mcp_proxy.py:729-735 | the extent of a value does not depend on where it is met, except that it must fit the depth left |
| JsonValues.EstimateIsLowerBound | ordin/mcp_proxy.py:655-666 | the bit-length estimate never exceeds the number of decimal digits |
| JsonValues.IntegerGuardExact | ordin/mcp_proxy.py:655-666 | for a positive digit limit the two-part test refuses exactly the integers of at least 10 to the limit |
| Powers.ThousandBits | ordin/mcp_proxy.py:655-666 | the bound behind the estimate: 10 to the 301 is at most 2 to the 1000 |
| SseLines.SseReader.Next | ordin/mcp_http.py:49-119 | resuming the reader yields the first line of the rest of the stream, or an owed LF, or its end, whatever pieces arrive; every read asks for at least one byte |
| SseLines.SseReader.Fill | ordin/mcp_http.py:105-119 | one read never overfills the buffer and reports the stream limit exactly when it is exceeded |
| SseLines.SseReader.TakeLine | ordin/mcp_http.py:83-95 | cuts the first line at CR LF, CR or LF and remembers a CR whose LF may follow |
| SseLines.SseReader.SkipBom | ordin/mcp_http.py:70-76 | one leading byte order mark is dropped once enough bytes are there |
| SseLines.SseReader.SkipLateLf | ordin/mcp_http.py:65-69 | an LF that belongs to a reported CR is dropped and counted |
| SseStream.ReadLines | ordin/mcp_http.py:49-119 | for every way the stream is cut the lines are those of the whole stream after one optional mark, and the counted bytes are all of it unless it is only a mark |
| SseStream.Stream | ordin/mcp_http.py:1007-1086 | what is written and observed and how it ends is that of the whole stream for the places where reads ended, refused responses included, and the same for every delivery if no line decides; a stream whose messages pass is forwarded to its end exactly if it fits and refused for size exactly if not, however it is cut; it ends without result exactly if one was awaited and no complete event had an identifier; observed messages are a prefix of those of the stream |
| SseCuts.OutcomesIff | ordin/mcp_http.py:1007-1086 | for every response, fitting or refused, of any size: what is written and observed and how it ends are the same wherever reads may end, exactly if no line decides |
| SseCuts.Differing | ordin/mcp_http.py:1007-1086 | where a line decides, two sets of read ends that differ: at one place only, or in the end of the last read |
| SseCuts.Unaffected | ordin/mcp_http.py:1018-1082 | from any point of any response on, if no line decides then any two ways to read agree |
| SseCuts.FittingIff | ordin/mcp_http.py:1035-1080 | a response that fits comes to the same for all places where reads end exactly if no rewritten event and no verbatim terminal event ends in CR LF |
| SseCuts.PlaceIsFree | ordin/mcp_http.py:105-119 | the place that decides is never one where the reader is forced to stop |
| SseCuts.LongCommentDecides | ordin/mcp_http.py:1018-1040 | a comment whose LF alone breaks the limit is forwarded up to its CR or not at all |
| SseCuts.LostLfDecides | ordin/mcp_http.py:59-104 | a late LF is forwarded or not when the line after it is too long |
| SseCuts.ManyCommentsDecide | ordin/mcp_http.py:105-119 | a stream of small comments beyond the stream limit is forwarded as far as the last read within it went |
| SseCuts.PassedUnchanged | ordin/mcp_http.py:1035-1080 | if a response fits and every message passes as it is, comments and complete events are forwarded byte for byte, however the stream is cut |
| SseEvents.LateLfIgnored | ordin/mcp_http.py:1049-1067 | a late LF of the blank line changes neither the metadata lines of an event nor its identifier |
| SseData.WrittenAreObserved | ordin/mcp_http.py:1035-1062 | messages written as data lines in any parts, with or without a space, with any comments and other fields between and any one line end, are exactly the messages observed |
| SseData.ObservedIsBlock | ordin/mcp_http.py:1035-1062 | a message is observed exactly if the data lines between two blank lines say it, joined by LF |
| SseData.RewrittenLines | ordin/mcp_http.py:1062-1076 | a rewritten event has its own fields without data, in order, and then one data line with the new message |
| SseData.RewrittenCarries | ordin/mcp_http.py:1062-1076 | a rewritten event is read as exactly the new message |
| SseData.ResumesIff | ordin/mcp_http.py:1050-1054 | the stream can be resumed exactly if some line between two blank lines gives an identifier |
| SseData.FitsIff | ordin/mcp_http.py:1018-1050 | a response fits exactly if it is no longer than the limit on streams and each line, as received, is within the limit on messages together with the lines of its event before it, comments aside |
| SseClient.ClientSees | ordin/mcp_http.py:1018-1082 | unless an event with data is fused with its blank line, a client reads from the bytes forwarded exactly the messages that the observer passed on, rewritten or not, for any cuts, sizes and ends |
| SseClient.UpToDateIff | ordin/mcp_http.py:1035-1080 | a client has read, whenever a response has come this far, exactly what was passed on and holds nothing more, if and only if no event with data is fused |
| SseClient.FusedIsHeld | ordin/mcp_http.py:1035-1080 | a data line that ends in CR, a comment and a blank LF: the message is observed, and the client is sent no blank line after it |
| SseStream.TwoDeliveries | ordin/mcp_http.py:1007-1086 | for every response in which a line decides, two deliveries of the same bytes come to different things |
| SseStream.AnsweredDecides | ordin/mcp_http.py:1043-1080 | the usual response, one event that holds the answer, is forwarded with or without its last LF |
| SseStream.ItemResumes | ordin/mcp_http.py:1050-1054 | whether some complete event has an identifier is decided by this item or by what remains |
| SseStream.CheckSize | ordin/mcp_http.py:1018-1034 | a late LF is charged to the line it ends and the next line to its event |
| SseStream.AddLine | ordin/mcp_http.py:1035-1082 | a line is a comment, a field or the end of an event, and what is sent and written follows |
| SseStream.ItemBudget | ordin/mcp_http.py:1018-1050 | the size verdict on the rest of the stream is the two checks on this item and the verdict on what remains, also when a CR LF is split |
| SseStream.ItemPlay | ordin/mcp_http.py:1018-1082 | what is still to be written and observed is what this item yields and what is due afterwards, or ends with it |
| SseStream.ItemCourse | ordin/mcp_http.py:1018-1082 | for all cuts that agree with the reads so far, one item carries the outcome of the whole response on or decides it |
| SseStream.ItemMessages | ordin/mcp_http.py:1035-1082 | the messages still due are what this item completes and the messages due afterwards |
| ChunkedBody.RequestStream.ReadBody | ordin/mcp_http.py:672-698 | the loop decodes what the grammar decodes and leaves the rest unread |
| ChunkedBody.AcceptedIff | ordin/mcp_http.py:672-698 | a chunked body is accepted exactly when the stream starts with a message of the grammar within the bounds, and then it is its contents |
| ChunkedBody.MessageDecodes | ordin/mcp_http.py:676-697 | whatever a sender writes within the bounds is decoded to what it meant |
| ChunkedBody.DecodedIsMessage | ordin/mcp_http.py:676-697 | whatever is decoded was a message of the grammar within the bounds |
| ChunkedBody.OneFraming | ordin/mcp_http.py:676-697 | a stream is framed in one way only |
| ChunkedBody.SizeLineOf | ordin/mcp_http.py:679-687 | hexadecimal digits in either case, padded with white space, with or without an extension, are read as the number they spell |
| CommitmentNumbers.WriteDecimal | ordin/_request_commitment.py:21-38 | the stripping loop gives the token of the normal form, within the digit and exponent limits |
| CommitmentNumbers.NormalFormIff | ordin/_request_commitment.py:29-35 | two decimals have the same normal form exactly when coefficient times power of ten is equal |
| CommitmentNumbers.DecimalTokenIff | ordin/_request_commitment.py:21-38 | decimal tokens are equal exactly for equal signs and magnitudes, and none is the beginning of another |
| CommitmentNumbers.IntegerTokenPrefix | ordin/_request_commitment.py:99-104 | integer tokens are injective and none is the beginning of another |
| CommitmentNumbers.BitGuardIsRedundant | ordin/_request_commitment.py:99-103 | the bit-length guard refuses nothing that the digit limit allows |
| CommitmentTheorems.EncodingUnique | ordin/_request_commitment.py:90-133 | equal streams come from equivalent values followed by equal rests |
| CommitmentTheorems.EquivalentEncodes | ordin/_request_commitment.py:90-133 | equivalent values are written alike: member order and decimal spelling do not matter |
| CommitmentTheorems.EncodingIff | ordin/_request_commitment.py:61-139 | the encoding is prefix-free and injective up to member order and decimal spelling |
| CommitmentTree.IncreasingUnique | ordin/_request_commitment.py:118-125 | the sorted order of names is determined by the set of names |
| CommitmentTree.SortIncreases | ordin/_request_commitment.py:118-125 | sorting by UTF-8 bytes orders distinct names strictly |
| RequestCommitment.CommitIff | ordin/_request_commitment.py:61-139 | two accepted values have the same commitment exactly when they are equivalent |
| RequestCommitment.Committer.Walk | ordin/_request_commitment.py:90-133 | the walk accepts exactly the values within all limits, from any running totals, and appends their encoding |
| RequestCommitment.Committer.Write | ordin/_request_commitment.py:77-82 | writing stops exactly at the byte limit |
| RequestCommitment.RequestBytes | ordin/_request_commitment.py:61-139 | the bytes hashed for a value, or a refusal |
| CommitmentLimits.CommitsIff | ordin/_request_commitment.py:84-133 | a value is accepted exactly when all values and names in it are plain and at most 32 levels deep, and their number and the bytes written are within the limits |
| CommitmentLimits.DecimalIff | ordin/_request_commitment.py:21-38 | a decimal is accepted exactly when it is finite, has at most 1024 digits and an exponent within the limit, and is zero or no multiple of ten to the power beyond the limit |
| RpcCommitment.RpcCommitIff | ordin/_request_commitment.py:142-179 | equal RPC commitments mean the same single or batch shape and pairwise equal kind, method, presence of params and params |
| RpcCommitment.AcceptedCarries | ordin/_request_commitment.py:147-179 | every accepted body is made of messages that carry an authority |
| RpcMessages.MessageIff | ordin/_request_commitment.py:155-176 | a mapping is a message exactly if it can be committed to and holds, in any order, version 2.0, a method of 1 to 128 visible characters without asterisk, and at most a scalar or null id and structured or null params |
| RpcMessages.BodyIff | ordin/_request_commitment.py:145-152 | a body is committed to exactly if it is a message or a batch of 1 to 128 messages and both it and what it projects to are within the limits |
| RpcCommitment.ProjectedEquivalent | ordin/_request_commitment.py:157-179 | projections are equivalent exactly for the same authority; correlation ids play no part |
| GraphqlGrammar.ValueSound | ordin/_graphql_authority.py:78-101 | a value that is read was written so, within depth, without repeated names, and without variables if constant |
| GraphqlGrammar.ValueComplete | ordin/_graphql_authority.py:78-101 | a value within the limits is read back and its tokens consumed exactly |
| GraphqlSelections.SetSound | ordin/_graphql_authority.py:169-200 | a selection set that is read was written so and is within the limits |
| GraphqlSelections.SetComplete | ordin/_graphql_authority.py:169-200 | printing any selection tree within the limits and parsing it gives the tree back and consumes just its tokens |
| GraphqlSelections.SetIff | ordin/_graphql_authority.py:62-200 | the parser accepts exactly the printed trees, so no token sequence has two readings |
| GraphqlSelections.DirectivesComplete | ordin/_graphql_authority.py:123-127 | directives are read back whatever follows them in a selection |
| GraphqlParser.Parser.ParseValue | ordin/_graphql_authority.py:78-101 | the method advances over one value and keeps its variables |
| GraphqlParser.Parser.ParseArgumentList | ordin/_graphql_authority.py:103-121 | arguments are kept by name with the tokens of their values; an empty list is refused |
| GraphqlParser.Parser.ParseField | ordin/_graphql_authority.py:187-196 | name, response name, arguments, directives and children of a field, and the variables inside |
| GraphqlParser.Parser.ParseSelections | ordin/_graphql_authority.py:174-197 | the loop over selections reads what the grammar reads |
| GraphqlParser.Parser.ParseSet | ordin/_graphql_authority.py:169-200 | a selection set in braces, not empty, within depth |
| GraphqlParser.Parser.ParseVariables | ordin/_graphql_authority.py:143-167 | declared variables and those that must be supplied |
| GraphqlParser.Parser.ParseDocument | ordin/_graphql_authority.py:202-227 | all definitions: fragments by name, operations in order, each with the variables it references |
| GraphqlPrinting.DocumentIff | ordin/_graphql_authority.py:129-227 | a token sequence is read as these definitions exactly if it is their written form, they are within the limits and no fragment is defined twice; an anonymous query may be written without its keyword |
| GraphqlPrinting.TypeComplete | ordin/_graphql_authority.py:129-141 | a written type within the nesting limit is read back and its tokens consumed exactly |
| GraphqlPrinting.VarDefComplete | ordin/_graphql_authority.py:143-163 | a written variable definition with type, default and directives is read back |
| GraphqlPrinting.OperationSound | ordin/_graphql_authority.py:212-227 | an operation that is read was written so, in full or as its selections alone |
| GraphqlExpansion.Expander.Expand | ordin/_graphql_authority.py:244-265 | the recursive expansion terminates and gathers exactly the visits of the selection, within the visit and nesting limits |
| GraphqlExpansion.VisitedIsMet | ordin/_graphql_authority.py:244-265 | whatever is visited is in the selection with every spread replaced by its fragment |
| GraphqlExpansion.MetIsVisited | ordin/_graphql_authority.py:244-265 | whatever is in the inlined selection is visited |
| GraphqlExpansion.ReachedIsAcyclic | ordin/_graphql_authority.py:260-265 | a fragment that is reached is defined and does not lead back to itself |
| GraphqlExpansion.ExpandsIff | ordin/_graphql_authority.py:244-265 | apart from the limits, a selection expands exactly when every fragment it leads to is defined and acyclic |
| GraphqlExpansion.Gathered | ordin/_graphql_authority.py:246-265 | gathering records every path, signature, used fragment and its variables, and nothing else |
| GraphqlDocument.AcceptedMeans | ordin/_graphql_authority.py:228-287 | acceptance means: the fields are the dotted paths of the inlined operation, equal response keys mean equal fields, variables are declared, every fragment is reached and none is recursive |
| GraphqlAcceptance.AcceptedIff | ordin/_graphql_authority.py:228-287 | a request is accepted exactly if required variables are supplied, every operation resolves its spreads without cycles, nests within the limit, agrees on response keys and declares its variables, every fragment is used, and all expansions together fit the node count |
| GraphqlAcceptance.GatherIff | ordin/_graphql_authority.py:244-265 | an expansion fails only for two different fields under one response key or for a limit |
| GraphqlAcceptance.CheckOpIff | ordin/_graphql_authority.py:270-277 | one operation passes exactly if it is sound and its nodes still fit the count |
| GraphqlDocument.ExpansionMeans | ordin/_graphql_authority.py:244-277 | what one successful expansion leaves behind |
| GraphqlDocument.Selector.Choose | ordin/_graphql_authority.py:267-287 | every operation is checked before the selected one is expanded alone |
| GraphqlDocument.FindOperation | ordin/_graphql_authority.py:235-237 | exactly one operation must match the name |
| GraphqlDocument.TitlesDistinct | ordin/_graphql_authority.py:228-230 | operation names are distinct, and an operation without a name is alone |
| GraphqlMeaning.SelectFromTokens | ordin/_graphql_authority.py:202-287 | tokens are accepted exactly if they are a written document whose chosen operation is accepted as written, and the fields returned are the dotted names along it |
| GraphqlMeaning.SelectWritten | ordin/_graphql_authority.py:174-287 | of a written document: accepted exactly if required variables are supplied, every operation's spreads resolve without cycles, nesting and count are within limits with fragments inlined, fields under one response key (alias, else name) have the same name and arguments, and every variable in the tokens of an operation and the fragments it reaches is declared; and the fields are exactly the dotted field names, never aliases |
| GraphqlMeaning.OccursIsMet | ordin/_graphql_authority.py:187-265 | every field that stands in the written selection, spreads replaced, is met under its own name and response key |
| GraphqlMeaning.MetOccurs | ordin/_graphql_authority.py:187-265 | and nothing else is met |
| GraphqlMeaning.AgreeWrittenIff | ordin/_graphql_authority.py:103-121 | response keys agree in what is kept exactly if written fields under one key have the same name and the same arguments, written alike in any order |
| GraphqlVariables.DefinitionMentions | ordin/_graphql_authority.py:75-101 | the variables kept of a definition are exactly those that its tokens mention, apart from declarations |
| GraphqlMeaning.CountWrittenIff | ordin/_graphql_authority.py:244-250 | the count of visits is the number of written selections, fragments counted as often as they are spread |
| GraphqlMeaning.NestingWrittenIff | ordin/_graphql_authority.py:244-250 | nesting is the number of fields and fragments around a written selection |
| RuntimeCapability.BelowTransitive | ordin/runtime_boundary.py:225-232 | prefix scopes nest: what is below a directory below a boundary's directory is below that one |
| RuntimeCapability.FreshBelow | ordin/runtime_boundary.py:225-232 | a new name in a directory is below a prefix only if that is the same directory or the directory is below it as well |
| RuntimeBoundary.MatchCovers | ordin/runtime_boundary.py:208-234 | a matching maximum grants every access of a filesystem capability |
| RuntimeBoundary.UnmatchedCoveredIff | ordin/runtime_boundary.py:235-243 | without a match or a doubt, everything a filesystem capability needs is still granted exactly if the boundary grants the directory itself and, by a prefix with more slashes, what is below it |
| RuntimeBoundary.PatternMatches | ordin/runtime_boundary.py:157-160 | a terminal pattern stands for what is strictly below its directory and for the directory with its slash; the documented rule is right of every other candidate |
| RuntimePlaces.SafePathIff | ordin/runtime_contract.py:284-291 | a path passes exactly if it is absolute, has none of the refused characters, and leads to the place that its named segments spell |
| RuntimePlaces.TargetIff | ordin/runtime_boundary.py:147-154 | a request target passes exactly if it has no odd characters or empty segments and leads to the place that it spells |
| RuntimePlaces.CoveredReaches | ordin/runtime_boundary.py:199-243 | where every access that is spelt is granted, every place that the capability may mean is granted |
| RuntimePlaces.PlacesCoveredIff | ordin/runtime_boundary.py:208-234 | the places a capability needs are granted exactly if one maximum with the right reaches all of them, however it is spelt |
| RuntimePlaces.TargetReached | ordin/runtime_boundary.py:147-160 | a target that an allowed path matches is served, escapes decoded, at a place that the path reaches |
| RuntimeBoundary.PatternAdmitsDirectory | ordin/runtime_boundary.py:147-160 | for every pattern a boundary may hold, the directory with its slash is a legal candidate and is matched |
| RuntimeBoundary.PatternIff | ordin/runtime_boundary.py:147-154 | a boundary may hold plain targets and directories of plain targets with two asterisks, and nothing else |
| RuntimeBoundary.DoubtIff | ordin/runtime_boundary.py:276-314 | a maximum at the endpoint leaves doubt exactly if it does not say what it allows, or allows what is asked for by paths of which one is no legal pattern |
| RuntimeCapability.RightsIff | ordin/runtime_boundary.py:25-32 | an access gives the right it is named after; reading a file also gives its metadata, and writing to a peer reading |
| RuntimeBoundary.SlashIsMatched | docs/runtime-boundaries.md:25-26 | the documented rule fails of /a/ against /a/** |
| RuntimeBoundary.PairsCover | ordin/runtime_boundary.py:315-344 | requests may each be covered by a different grant |
| RuntimeBoundary.CoverPairs | ordin/runtime_boundary.py:315-343 | in any order of comparison, all requests covered, some not, or more comparisons than the limit allows, and the last only if there are that many |
| BoundaryVerifier.JudgeNetwork | ordin/runtime_boundary.py:245-353 | a network capability is covered, or exceeds the boundary, or is not fully modelled, and the code it raises is the one its input determines unless comparisons run out |
| BoundaryVerifier.SortMaxima | ordin/runtime_boundary.py:276-314 | what the maxima at the endpoint offer: everything, requests, or doubt |
| BoundaryVerifier.UncoveredPairExceeds | ordin/runtime_boundary.py:345-353 | a request that no grant covers is an access the boundary does not grant |
| BoundaryVerifier.Verifier.CheckFilesystem | ordin/runtime_boundary.py:199-243 | no finding means that all filesystem needs are granted; the codes raised are those of the input; an overlooked split grant is reported as an excess |
| BoundaryVerifier.Verifier.CheckNetwork | ordin/runtime_boundary.py:245-353 | the same for network needs, with the codes between those certain and those possible when comparisons may run out |
| BoundaryVerifier.Verifier.CheckProcess | ordin/runtime_boundary.py:359-382 | the same for executables and child processes, with exactly the codes of the input |
| BoundaryVerifier.Verifier.Worst | ordin/runtime_boundary.py:408-412 | the verdict is the first finding of the highest priority |
| BoundaryVerifier.Verifier.Verify | ordin/runtime_boundary.py:163-421 | within_boundary means that every concrete access of the contract is granted, and that every place its paths lead to and every place its requests are served at is one that the boundary grants; a contained, unblocked contract is said to exceed exactly if a split grant is overlooked; for fully modelled input the verdict is within exactly if the contract is not blocked, contained and not split; the unsupported codes are those the input raises, and there is no result exactly for more than 128 of them |
| BoundaryVerifier.WithinEverywhere | ordin/runtime_boundary.py:147-243 | what is contained access by access is contained place by place, for files and for requests |
| BoundaryVerifier.AllStated | ordin/runtime_boundary.py:163-407 | what is within the boundary leaves nothing open: every access, path, endpoint, request, program, child process and privilege that the check needs is stated |
| BoundaryVerifier.AllGuaranteed | ordin/runtime_boundary.py:219-234 | what is within the boundary is granted at the very paths it names, unless the boundary reads prefixes as directories and the runtime guarantees that |
| BoundaryVerifier.CrowdedCodes | ordin/runtime_boundary.py:108-129 | the codes of a contract with 128 different unknown codes and one more open question are more than a result may hold |
| BoundaryVerifier.CrowdedContract | ordin/runtime_boundary.py:108-129 | so the check returns no result for it |
| BoundaryVerifier.PartsOverlooked | ordin/runtime_boundary.py:208-243 | for every safe path, reading it and what is below it is overlooked by the check if the boundary grants it in two parts |
| BoundaryVerifier.PartsContained | ordin/runtime_boundary.py:208-243 | yet the boundary grants all of it |
| BoundaryVerifier.ExcessNotReal | ordin/runtime_boundary.py:163-421 | so the check reports an excess for a contract that the boundary contains |
| CapabilityDelta.Propose | ordin/capability_delta.py:123-295 | the objections in their order; a proposal is a double narrowing: needed before and granted by the boundary; it exists only if every unknown is one this denial refines, and for modelled requests exactly if the request is contained, no split grant is overlooked and the backend accepts |
| CapabilityDelta.ProposalNarrower | ordin/capability_delta.py:141-250 | nothing is requested that the contract did not already need |
| CapabilityDelta.RequestIsDenied | ordin/capability_delta.py:144-226 | what is requested is exactly what was denied: the one file and its rights, the one request and its program, the tool or the credential |
| CapabilityDelta.FileRequestIff | ordin/capability_delta.py:144-172 | a denied file operation can be requested exactly if it names one safe path that the contract reaches with that access |
| CapabilityDelta.NetworkRequestIff | ordin/capability_delta.py:173-207 | a denied request can be made exactly if it is stated in full, the contract needs it, and a program the contract knows makes it where it runs any |
| CapabilityDelta.SessionMatchesIff | ordin/capability_delta.py:125-132 | a denial must be of the session that the last session review of the provenance names; without one, any session will do |
| CapabilityDelta.KeptUnknowns | ordin/capability_delta.py:230-250 | only refinable unknowns of the denied domain are dropped; decision and privilege stay |
| ContractRuns.CompleteIsOneDiscovery | ordin/mcp_contracts.py:398-470 | in every run a complete inventory is the union of the pages of one discovery: started without a cursor, each cursor followed once, first replies to its own requests, no change announced since, and no name twice over all the pages |
| ContractRuns.CollectedIff | ordin/mcp_contracts.py:446-453 | pages can be collected exactly if no name occurs twice over all of them and they are within the limit |
| ContractRuns.RunKeeps | ordin/mcp_proxy.py:399-423 | after any events the observer holds what some discovery brought, or nothing |
| ContractRuns.ReservedStep | ordin/mcp_proxy.py:503-542 | a request that was passed on keeps its id reserved until it is answered |
| ContractRuns.CallsStay | ordin/mcp_proxy.py:399-427 | in every run a tool call that was passed on keeps its id until a reply settles it |
| ContractRuns.RunLimited | ordin/mcp_proxy.py:515-520 | in every run at most 32 requests wait beside tool calls, and cursors that are followed have 1 to 4096 characters |
| ContractRuns.ForwardedIsFresh | ordin/mcp_proxy.py:515-528 | a request is passed on only under an id that no unanswered request uses, so late replies are never counted |
| ContractRuns.CollectedTools | ordin/mcp_contracts.py:446-453 | the collected tools are exactly those on the pages, within the limit |
| ContractObserver.MCPContractObserver.Request | ordin/mcp_contracts.py:419-433 | the whole new state of a listing request, and when it is refused |
| ContractObserver.MCPContractObserver.Response | ordin/mcp_contracts.py:435-470 | the whole new state after a response, counted only if it answers the request in flight |
| ContractObserver.MCPContractObserver.CheckTool | ordin/mcp_contracts.py:472-487 | a tool matches exactly on a complete inventory that lists it with the pinned digest |
| ContractObserver.MCPProxy.ClientRequest | ordin/mcp_proxy.py:503-542 | which requests are passed on, and the id tables afterwards |
| ContractObserver.MCPProxy.ServerMessage | ordin/mcp_proxy.py:399-427 | replies release ids and reach the observer only for listings |
| AuditChain.VerifyStream | ordin/audit.py:270-336 | the loop computes the verdict, head and count of the stream, of rejected logs too: it stops at a line that is too long or no JSON and goes on after one that is no object |
| AuditChain.VerifyIff | ordin/audit.py:270-336 | a log verifies exactly when it is a linked chain within the size limit, and then its head is reported |
| AuditChain.HeadDeterminesChain | ordin/audit.py:33-38 | with a collision-free hash the head of a chain determines all its events |
| AuditChain.SameLastHash | ordin/audit.py:240-267 | two logs that verify with the same last hash hold the same events |
| AuditSinks.JsonlAuditSink.Record | ordin/audit.py:199-237 | the whole new state of file and sink after one call, for every way the write may end |
| AuditSinks.JsonlAuditSink.Open | ordin/audit.py:188-197 | a sink opens an existing log only if it verifies |
| AuditSinks.RecordKeeps | ordin/audit.py:199-237 | one call keeps the log a chain, appends what it returns, and writes nothing after a torn line |
| AuditSinks.RecordedIff | ordin/audit.py:199-237 | if nothing fails an event is recorded exactly if the log with it verifies |
| AuditSinks.RunKeeps | ordin/audit.py:166-237 | in every run of any sinks the file is a verified chain, with at most one torn last line |
| AuditSinks.NothingAfterTorn | ordin/audit.py:199-237 | once a line is torn no call of any sink changes the file |
| AuditSinks.LogOnlyGrows | ordin/audit.py:199-237 | in every run lines are only added |
| PathLookup.BisectLeft | ordin/_path_lookup.py:88-89 | the first position whose name is not below the command |
| PathLookup.FirstNotBelowDecides | ordin/_path_lookup.py:88-89 | the name at the bisection point starts with the command exactly when some name does |
| PathLookup.SelectionKeepsFirstHit | ordin/_path_lookup.py:79-96 | dropping the other directories keeps the first hit exactly if the first directory that may list the command finds the same |
| PathLookup.FilterIff | ordin/_path_lookup.py:76-96 | the filtered lookup agrees with the whole one exactly if the current directory has the command, or the first hit is listed, or nothing seems possible and the first directory has it |
| PathLookup.AliasMissed | ordin/_path_lookup.py:87-96 | a directory that resolves a short name it does not list is dropped |
| PathLookup.Lookup.MayHold | ordin/_path_lookup.py:81-92 | a directory is listed once and kept exactly when it may hold the command |
| PathLookup.Lookup.Which | ordin/_path_lookup.py:76-96 | the lookup probes the kept directories in order, and agrees with the resolver exactly if the filter is not used or does no harm |

## Left out

- Approvals: host, profile and maximum configuration do not change; digests of lease and satisfaction payloads are part of their identity; a clock reading too large for a float is not modelled.
- Approvals: describe, scope_for, witnessed and the other read-only accessors, which would add easy members.
- JSON preflight: `default` hooks of the encoder and the text of messages; a float carries only the least size of its text.
- SseClient.ClientSees: the theorem is about the bytes forwarded; of a stream that begins with two byte order marks one is dropped and the other forwarded, and a client that drops a mark itself reads the first line without it.
- Event streams: deadlines, and the deletion of sessions after a stream. The observer stands for parsing, observing and matching a message; JSON text of a rewritten message is given.
- Request bodies: headers, and bodies with a content length, which are read in one piece.
- Commitments: SHA-256 is not modelled, and text is given as its UTF-8 bytes; a cyclic value is one that no finite tree describes, and the depth limit alone refuses it.
- commitment_json: parsing of JSON text and its duplicate-name check are not modelled.
- GraphQL: the lexer with its string and number rules, and the sorting of the resulting field list.
- GraphqlAcceptance.AcceptedIff: Python's limit on nested calls is not modelled; a request within the limits whose fragments nest about 33 levels each, in a chain of 32 fragments, meets the condition and is refused by the interpreter.
- Boundary check: digests, as_dict and the value part of the counterexample; method names are plain strings.
- Audit: JSON text, file permissions, the lock and its timeout. A line is an event, another JSON value, junk, or an unfinished last line, with its size.
- BoundaryVerifier.Verifier.Verify: where comparisons may run out, how many are made depends on the order of sets, and the number of codes is only bounded.
- CapabilityDelta.Propose: whether the contract is the one derived from the review and whether the denial belongs to the reviewed action are given; a contract that matches its review names no tool identity, because derivation never sets one.
- Contract discovery: canonical form and digest of a tool contract; a tool is its name and digest.
- ContractObserver.MCPProxy.ClientRequest: whether the review admits a tool call is an input.
- ContractObserver.MCPProxy.ServerMessage: whether a reply to a tool call is well-formed and accepted by the session, and so settles it, is an input.
- Path lookup: environment changes between lookups, which the code detects afterwards; the file system does not change during a lookup.
- Sessions, temporal rules, policy merging, hooks, command lines and reports: not part of this model.
