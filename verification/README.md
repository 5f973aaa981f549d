# The adns resolver: a verified model

This project models the asynchronous DNS resolver in `adns/` and proves properties of it. It has three layers.

- **Names, text and messages.** `Names` is the cursor over compressed names and, beside it, the meaning of RFC 1035
  section 4.1.4; `Texts` and `RoundTrips` print and read names; `Scans` is the same reading of names in memory, where
  bytes stand behind them; `Parse`, `Vbufs`, `Records` and `Queries` are the buffer and cursor code, method by method;
  `Parsers` reads the data of records; `Headers` is the header of a message; `Reverses` reads the address off a PTR
  question; `Mailboxes` prints RFC 822 local parts.
- **The life of a query.** `LifeCycle` has the queries, the four queues, the family links and the invariant (`Inv`).
  `Steps`, `Submission`, `Answers` and `Replies` say what completing, failing, sending, searching, submitting and
  answering do to the state; `Runs` puts them together as events and whole runs, `Conservation` counts over runs,
  `Deadlines` shows that timeout processing ends, `Rooms` that the names kept for asking again fit their reservation,
  `Checks` that the run-time checks of the source hold, `Guards` when a reply can be read to its end, and `Searches`
  what a search does with a CNAME. What all this means to those who ask is said without the functions that bring it
  about: `Endings` how queries, and children to their parents, report; `Outcomes` what a reply leads to, by its header
  and the records in it; `Aliases` what CNAME records do; `Contents` that the records of an answer say what the datagram
  does; `Frames` which queries an event leaves alone. `Resolvers` is the same as the source performs it: a class whose
  methods change the queries and the pointers of the queues and sibling lists in place, each verified against the
  functions above. `Dlists` are the intrusive lists it keeps them in; `Families` and `Deliveries` hold the lemmas that
  relate its single steps to the functions. `Witnesses`, `Redirects` and `Escapes` are replies, runs and names on which
  the source does not do what it is meant to.
- **Beside them.** `Timevals` (deadlines), `Streams` (TCP reassembly), `Isorts` (the stable sort and the sortlist) and
  `Allocs` (interim, preserved and final memory of an answer).

A state is written `St`; while a query is being processed it is on no queue and named in the set `off` of the invariant.
The clock, the bytes received, the results of `sendto` and `read`, and the addresses of new queries are inputs. Time is
counted in microseconds except in `Timevals`. Statuses are those of `adns.h`; `Stuck` and `Endless` in `Replies` stand
for a failed assertion of the source, or a write behind a table, and for a loop of compression pointers. The last fields
of a query (`sent`, `resetAt`, `aliased`, `confirmed`, `asked`, `first`) are history that only the specification reads.

## What was found

- `adns.h:164-173` promises escapes as in RFC 1035 section 5.1. Labels are printed with octal escapes (`parse.c:47`) and
  read with decimal ones (`transmit.c:117-119`). Text and wire form undo each other exactly when every byte is 33 to 126
  or below 8: `RoundTrips.QuotedRoundTrip`, with `RoundTrips.SpaceIsMisread` as an example.
- The limit of 255 is applied to the printed name, so names of up to 257 bytes on the wire are accepted where RFC 1035
  section 2.3.4 allows 255. `Queries.LongNameIsAccepted` is such a name; by `Queries.WireLimit` a decoded name obeys the
  limit if and only if its labels and dots make at most 253 bytes.
- A search keeps its name without a terminator (`query.c:294`) and at last asks for it as it is (`query.c:215`). When
  the name ends inside an escape, as `a\` does with `adns_qf_quoteok_query`, the scan steps over its end, no later test
  `p != pe` stops it (`transmit.c:104-106`), and what stands behind the name goes into a buffer reserved for the name
  alone (`Escapes.WritesBehind`; `Escapes.SearchEndsInside` is the search that gets there). The scan is as meant,
  whatever stands behind a name, if and only if the name does not end so (`Scans.ScansOnlyTheName`), and over a search
  if and only if no candidate does (`Submission.SealedIsInside`). Names that are not searched for are always read as
  meant (`Scans.TerminatedStays`).
- The assertion `nrrs == wantedrrs` (`reply.c:455`) fails for answers in which a record of the final name stands before
  the CNAME that leads to it. `Answers.SecondPassCount` says exactly when more are accepted than counted, and
  `Replies.StuckOnlyOnAmbiguity` when reading them gives out: when all parse, or one is stored behind the table, which
  is rounded up to eight bytes. `Witnesses.EarlyReply` is a whole reply on which it does, and its neighbour on which the
  query is failed in time.
- The room that `adns__mkquery_frdgram` reserves, the length of the whole datagram (`transmit.c:179`), suffices for all
  names whose labels do not overlap (`Queries.DisjointIsRoomy`), and not for all others (`Queries.OverlapIsNotRoomy`).
- A compression pointer to itself is followed for ever (`Names.SelfPointerDiverges`); with pointers that point backward,
  as RFC 1035 wants them, decoding names and reading replies ends (`Names.BackwardTerminates`, `Guards.ReadingEnds`).
  The names in the data of SOA and RP records can loop like any other (`Witnesses.SoaLoops`).
- The numbers of SOA records are put together in an `int` of 32 bits (`types.c:1362`), so that those from 0x80000000 on
  get another 32 bits in front of them, all set, where `unsigned long` has 64 (`Parsers.NumbersExactly`).
- With `adns_qf_quotefail_cname` a CNAME to a name that is no hostname should give `adns_s_answerdomaininvalid`
  (`adns.h:176-180`). It does if and only if the first label of the name is a host label (`Answers.NoHostIsReported`);
  otherwise it counts as truncation (`reply.c:270-276`), as in `Witnesses.NoHostIsNotReported`. If a CNAME was followed
  before, and only then, `cname_begin` is left pointing into the wrong datagram (`Answers.CnameErrors`,
  `Redirects.CnameIsLost`).
- A search keeps the CNAME it followed for an earlier candidate, and matches the answers to later candidates against it
  (`query.c:168-221`). `Searches.AsksForItsCname` says exactly when the name asked for is the one matched, and
  `Searches.MatchesAnotherName` is a run in which a query asks for a.b and looks for records of c.
- `pap_mailbox822` does not look at the status of the first label (`types.c:1213`). When that is an error, the outcome
  depends on an uninitialised variable (`Mailboxes.StrayDecides`) and can be success (`Mailboxes.UnknownFormatIsLost`);
  and a name that is cut off becomes the empty string (`Mailboxes.EmptyIsCutOff`).
- The code that reads the address off a PTR question accepts labels that no address is printed as: 999 is read as 231,
  and -5 as 251 (`Reverses.NotOnlyDecimals`; `Reverses.OctetIsDecimal` says which labels are read as they are meant).
- Strings of TXT records are measured again when the answer is finalised (`query.c:747-759`), so one with a zero byte
  loses what stands behind it: `Allocs.StringSurvives`.

## Model

| member | source | states |
|---|---|---|
| `Names.DecodesExactly` | adns/parse.c:84-145 | decoding succeeds, with these labels and this end, if and only if RFC 1035 section 4.1.4 gives the offset these labels, they print within 255 characters, and the part before the first pointer ends there, within `max` |
| `Names.EndIsLocal` | adns/parse.c:84-145 | the end reported for a name depends only on the bytes from its start to that end |
| `Names.BackwardTerminates` | adns/parse.c:91-110 | where pointers lead to earlier offsets only, every name decodes or fails in finitely many steps |
| `Names.SelfPointerDiverges` | adns/parse.c:91-110 | in every datagram and at every offset, a pointer to itself is followed without end |
| `Texts.PrintsTheName` | adns/parse.c:160-213 | printing succeeds exactly on names that decode to acceptable labels, and prints those labels |
| `Parse.FindLabelState.Next` | adns/parse.c:84-145 | the cursor's step, in place, finds the label, the end, truncation or error that the specification of names gives, and leaves the cursor where it says, on errors too, whenever following pointers ends at all |
| `Parse.AppendQuoted1035` | adns/parse.c:33-65 | the buffer grows by exactly the quoted label |
| `Parse.CheckHost` | adns/parse.c:197-205 | accepts exactly labels of letters, digits and hyphens that do not start with a hyphen |
| `Parse.AppendLabel` | adns/parse.c:177-209 | the buffer grows by the separating dot and the printed label, or by the dot alone when the label is refused |
| `Parse.ParseDomainMore` | adns/parse.c:160-213 | the rest of a name is appended with a terminating zero; truncation empties the buffer; an error leaves at least what was there, and exactly that if nothing was printed |
| `Parse.ParseDomain` | adns/parse.c:147-158 | succeeds exactly on names that decode and whose labels are allowed, with their print and their end |
| `Vbufs.Vbuf.Ensure` | adns/general.c:154-167 | the buffer has the room wanted, never less than it had, and no more; the contents are the same |
| `Vbufs.Vbuf.AppendQ` | adns/general.c:169-174 | appends in place within room already reserved |
| `Vbufs.Vbuf.Append` | adns/general.c:176-201 | appends, whatever room there is |
| `RoundTrips.HostnameRoundTrip` | adns/transmit.c:85-167 | a hostname that the encoder accepts is reproduced exactly, up to one trailing dot, by decoding its wire form and printing it |
| `RoundTrips.HostnameExactly` | adns/transmit.c:104-155 | without quoting, a name is read as given labels if and only if they are hostname labels within the limits of the encoder, and the name is them joined by dots, with or without one at the end |
| `RoundTrips.QuotedRoundTrip` | adns/parse.c:45-48 | reading the quoted print of a name gives the same labels if and only if every byte is 33 to 126 or below 8 |
| `RoundTrips.SpaceIsMisread` | adns/transmit.c:112-121 | the space prints as \040 and is read back as an opening parenthesis |
| `Records.RecordAdvances` | adns/parse.c:281-306 | a record found takes at least 11 bytes, ends inside the datagram, has a capped TTL, and matches exactly the owners that equal its name up to ASCII case |
| `Records.RecordReads` | adns/parse.c:281-306 | wherever a record stands as a server writes it, it is read as its type, class, time to live up to the cap, and data, and matches exactly the owners that equal its name |
| `Records.SameUpToCase` | adns/parse.c:258-273 | labels are the same if and only if they are equal byte by byte, or one letter in its two cases |
| `Records.LabelsMismatch` | adns/parse.c:258-273 | the comparison loop tells exactly whether two labels differ apart from ASCII case |
| `Records.MatchOwner` | adns/parse.c:235-279 | walking two compressed names side by side finds a mismatch if and only if the decoded label lists differ apart from ASCII case, and reports the end of the first |
| `Records.FindRRAnychk` | adns/parse.c:215-306 | finds the record, the truncation or the error that the datagram has at the offset, and whether the owner matches |
| `Queries.MessageAsksForName` | adns/transmit.c:45-83 | a message has at most 273 bytes, which UDP always takes, and the name in its question decodes to the labels it was made from |
| `Queries.MessageFields` | adns/transmit.c:45-83 | identifier, type and class of a message are where a server reads them |
| `Queries.MessageHeader` | adns/transmit.c:45-66 | read as a reply is, the header of a message is that of a standard query that wants recursion, with one question and nothing else |
| `Queries.MessagePoses` | adns/transmit.c:45-83 | a message is a standard query of at most 512 bytes with one question, of its type and class IN, behind whose name nothing else stands |
| `Headers.HeaderReads` | adns/reply.c:55-76 | a header that a server has written, field by field, is read as those fields |
| `Scans.ScansOnlyTheName` | adns/transmit.c:104-155 | whatever bytes stand behind a name, the scan comes to what is meant if and only if the name does not end inside an escape that the scan gets to |
| `Scans.IntendedReads` | adns/transmit.c:104-155 | what is meant are the labels of the text, or the status that says why there are none |
| `Scans.IntendedFits` | adns/transmit.c:95-97 | the room reserved for the name and two bytes more suffices for what is meant |
| `Scans.TerminatedStays` | adns/query.c:273-290 | a C string, and one whose final dot has been taken off, is scanned as it is meant |
| `Escapes.WritesBehind` | adns/transmit.c:104-155 | the name `a\` ends inside an escape, and with a dot and a label behind it the rest of that label is put into the message; with more than five bytes of it the reservation is too small |
| `Escapes.SearchEndsInside` | adns/query.c:202-217 | a search for `a\` with the suffix b asks for the label `a.b` first and has `a\` itself as its next candidate |
| `Queries.ScanLabel` | adns/transmit.c:106-146 | the inner scan, over memory that goes on behind the name, stops where its specification does: at the end of the name if it meets that, or behind a dot |
| `Queries.TakeLabel` | adns/transmit.c:106-155 | one label of the name, after the checks of its length |
| `Queries.Mkquery` | adns/transmit.c:85-167 | the buffer holds the message for the labels scanned, header, question and footer as `Queries.MessagePoses` reads them, or the status says why there are none, wherever these fit the reservation, as they do for every name whose scan stays inside it |
| `Queries.WireLimit` | adns/parse.c:116-131 | a decoded name obeys the limit of 255 wire bytes if and only if its labels and dots make at most 253 |
| `Queries.LongNameIsAccepted` | adns/parse.c:116-131 | four labels of 63 bytes, 257 bytes on the wire, are asked for and decoded |
| `Queries.MkqueryFrDgram` | adns/transmit.c:169-205 | the buffer holds such a message for the labels of a compressed name, whenever the buffer, with what is reserved, has room for it |
| `Queries.DisjointIsRoomy` | adns/transmit.c:179 | the reservation suffices for every name whose labels do not share bytes of the datagram |
| `Queries.OverlapIsNotRoomy` | adns/transmit.c:179 | six bytes whose labels overlap and need seven |
| `Queries.FrDgramKeepsName` | adns/transmit.c:169-205 | decoding the message made from a compressed name gives the labels of that name, within 273 bytes |
| `Queries.HostnameThroughMessage` | adns/transmit.c:85-167 | decoding and printing the name in a message made from a hostname gives the hostname back |
| `Reverses.ReadReverse` | adns/types.c:1081-1122 | the loops over the labels of a question find the address that the specification reads off them, or that there is none |
| `Reverses.ReverseRoundTrip` | adns/query.c:383-424 | the name submitted for an address is read into labels, asked for, and read back off the question as that address |
| `Reverses.ReverseExactly` | adns/types.c:1081-1122 | of names whose first four labels are decimal forms of bytes, exactly the one that an address is submitted as spells that address |
| `Reverses.OctetIsDecimal` | adns/types.c:1093-1104 | a label that is accepted is the decimal form of the byte it is read as if and only if it is digits that make less than 256 |
| `Reverses.NotOnlyDecimals` | adns/types.c:1093-1104 | 999 and -5 are accepted, although no byte is printed so |
| `Answers.SecondPassReads` | adns/reply.c:432-438 | where the first pass got through, the second meets no error and no truncation, and ends at the same offset |
| `Answers.SecondPassCount` | adns/reply.c:432-455 | the second pass accepts at least the records counted by the first, and exactly those if and only if none of the wanted type owned by the final name precedes the last CNAME followed |
| `Answers.CnameErrors` | adns/reply.c:259-296 | an error in the name of a CNAME fails the query with its status if and only if the first label is acceptable, and otherwise counts as truncation; the offset kept from it belongs to another datagram if and only if a CNAME was followed before |
| `Answers.NoHostIsReported` | adns/reply.c:265-276 | a name that is to be refused because it is no hostname gives AnswerDomainInvalid if and only if its first label is a host label |
| `Answers.FirstPassKeepsValid` | adns/reply.c:259-296 | the name of a followed CNAME can always be matched with and asked for again |
| `Answers.ReadAnswer` | adns/reply.c:203-307 | one turn of the first pass does to its variables what its specification says, including which errors count as truncation |
| `Answers.ReadAnswers` | adns/reply.c:198-307 | the loop of the first pass ends as its specification says, for every answer section that can be decoded |
| `Answers.ReadAuthority` | adns/reply.c:319-352 | the loop over the authority section stops at the first SOA record of class IN and notes NS records before it |
| `Steps.FinishKeeps` | adns/query.c:686-737 | completing a query keeps the invariant, whatever the callback of a child decides |
| `Steps.RunCallbackKeeps` | adns/types.c:606-629 | the callbacks of address children leave a valid state, whether the parent goes on waiting, finishes or fails |
| `Steps.FilledKeeps` | adns/types.c:614-619 | what a child has found is written into its record of the answer, and the invariant stays |
| `Steps.FailKeeps` | adns/query.c:739-745 | failing a query keeps the invariant, its parent's callback included |
| `Steps.SendKeeps` | adns/transmit.c:295-349 | sending keeps the invariant, round robin over the servers and spacing included |
| `Steps.TimeoutAfterAllServers` | adns/transmit.c:318-322 | sending fails with Timeout exactly when the retries are used up, and then every server has been asked, also for a query that comes from a search and is on no queue |
| `Steps.TimeoutComesLate` | adns/event.c:268-276 | for a query that expires on the UDP queue with its retries used up and is not searching, more than five retry times have passed since the first datagram after the last reset |
| `Submission.SearchOrder` | adns/query.c:168-205 | a search tries the name as given first or last, by its dots, and every suffix once in list order |
| `Submission.SettlesAtFirstUsable` | adns/query.c:145-158 | one call passes over overlong candidates only, ends at the first other one, and leaves those behind it for later |
| `Submission.SearchNextSettles` | adns/query.c:137-221 | the recursion of search and encoding does just that, taking one identifier a name, and fails with NXDOMAIN exactly when no usable candidate is left |
| `Submission.KidWaits` | adns/types.c:667-691 | a child query is at most 273 bytes and has never been sent, so its submission always leaves it waiting |
| `Submission.SealedIsInside` | adns/query.c:168-221 | over a whole search every scan comes to what is meant, whatever stands behind the names, if and only if no candidate ends inside an escape |
| `Submission.SubmitKeeps` | adns/query.c:241-332 | submitting keeps the invariant for every name that is read as it is meant, every type and all flags |
| `Submission.SubmitKidsKeep` | adns/types.c:681-687 | submitting children keeps the invariant of the parent being processed and changes nothing of it but its children |
| `Submission.DeliverKeeps` | adns/reply.c:408-508 | whatever a reply comes to, acting on it keeps the invariant |
| `Runs.ApplyKeeps` | adns/check.c:129-195 | every submission, timeout, reply, collection and cancellation keeps the invariant |
| `Runs.EveryRun` | adns/internal.h:233-284 | in every state of every run each query is on exactly the queue of its state, a query that waits for children has one that points back at it and itself waits, finished queries have no family and no allocations |
| `Checks.ConsistencyHolds` | adns/check.c:75-195 | none of the assertions about the fields of queries fails in any state of any run |
| `Resolvers.Resolver.CheckConsistency` | adns/check.c:129-244 | the walks along the pointers of all queues meet every live query, nothing they assert fails, and the query of the handle is found on the queue of its state |
| `Resolvers.Resolver.CheckQueue` | adns/check.c:129-195 | the walk along one queue meets its queries in order, pointers and queries being as asserted |
| `Resolvers.Resolver.CheckOne` | adns/check.c:75-179 | a query is as its queue asks, its children are linked and point back at it, and it is found among the children of its parent |
| `Runs.ChildwWaits` | adns/check.c:161-179 | behind every query that waits for children there is a child that waits for the network |
| `Runs.ServersInTurn` | adns/transmit.c:324-346 | servers are taken in turn, `udpsent` is exactly the set of those contacted, and at most UDPMAXRETRIES datagrams have gone out since the query last started again |
| `Runs.WaitingAsks` | adns/transmit.c:45-83 | over every run, what a waiting query has sent is a standard query with its identifier that wants recursion and holds one question, for its type in class IN: at first, for candidates of a search, for a CNAME and for children |
| `Runs.ChildAsks` | adns/types.c:667-691 | over every run, a child waits and asks for addresses; it was submitted to ask about the host or the name in its record of its parent's answer, and may be told of an alias only where the parent allows it |
| `Runs.OwnerIsAsked` | adns/query.c:696-705 | over every run, an owner is given with an answer only if it is wanted, and is the name that was asked for last, unless the query has started again at a CNAME |
| `Runs.PtrIsConfirmed` | adns/types.c:919-958 | over every run, a PTR query that ended well has for each name stored a child that was submitted to ask about this very name, and whose answer held the address that the question of the query spells |
| `Runs.AnswersAreConclusive` | adns/adns.h:289-379 | over every run, an answer that can be collected has records if and only if its status is Ok, and each of its hosts has a positive number of addresses, 0 or -1 as its own status is Ok, a permanent or a temporary failure |
| `Runs.NothingOutstanding` | adns/event.c:884-897 | nothing to collect and nothing to wait for means that nothing at all is outstanding |
| `Runs.FinishedById` | adns/event.c:899-903 | the identifier of a query is negative exactly when it is on the output queue |
| `Conservation.NothingIsLost` | adns/query.c:595-629 | over every run the submitted queries are the live parentless ones, the collected ones and the cancelled ones, and these do not overlap |
| `Deadlines.ExpireShrinks` | adns/event.c:268-276 | acting on an expired query makes the set of expired ones strictly smaller, callbacks included |
| `Replies.StuckOnlyOnAmbiguity` | adns/reply.c:408-456 | more records are accepted than counted if and only if one of the final name precedes the last CNAME followed; reading them gives out if and only if, besides, all of them parse, or as many parse as the table has room for and the next one gets as far as storing something |
| `Replies.PlacesInTable` | adns/reply.c:410-411 | the table, rounded up to eight bytes, has room for the records counted, and for one more address when their number is odd |
| `Replies.ReadingIsPossible` | adns/reply.c:130-477 | whatever is read off a datagram is a verdict that a run can go on with |
| `Replies.ReplyEventEnabled` | adns/reply.c:55-122 | every datagram that can be read is nothing at all or an enabled event of a run |
| `Guards.ReadingEnds` | adns/parse.c:91-110 | a reply whose names of records, and names in their data, those of SOA and RP records included, decode through backward pointers is read without an endless loop |
| `Guards.BackwardIsRead` | adns/parse.c:91-110 | so is every datagram in which all pointers lead backward |
| `Guards.StuckExactly` | adns/reply.c:130-508 | reading gives out in exactly three cases: a truncated reply is to be started again at an offset that has no name in the datagram of the CNAME followed, as far as that and the length of the reply reach; NXDOMAIN arrives for a search over TCP; or a surplus record parses with all others, or is stored behind the table |
| `Guards.ProperReply` | adns/reply.c:35-508 | a reply with backward pointers, names that fit, no second CNAME cut off and no wanted record before its CNAME is an event that its query can go on with |
| `Guards.ProperRuns` | adns/reply.c:35-508 | every run into which only names that fit have come ends in a state as that asks |
| `Endings.FinishReports` | adns/query.c:686-737 | a query that is done can be collected with its status and records; the parent of a child is told of them, and goes on waiting if it has other children and has not ended itself |
| `Endings.FailReports` | adns/query.c:739-745 | a query that fails is reported so, with that status and without records |
| `Endings.HostCallbackTells` | adns/types.c:606-629 | the record of a host gets the status, the addresses and their number, or 0 or -1, that its child has ended with; the others stay |
| `Endings.PtrCallbackTells` | adns/types.c:919-958 | a PTR query goes on if and only if its child has found the address; otherwise it ends with Inconsistent if and only if the child ended with NxDomain, NoData, Inconsistent, or without the address, and else with the status of the child, temporary exactly when that is |
| `Endings.ExpiryReports` | adns/event.c:268-276 | an expired query is sent again, unchanged, or, over TCP or with its retries used up, ends with Timeout |
| `Endings.SubmitReports` | adns/query.c:273-317 | an empty name, an overlong one and one that cannot be read end a query with the status that says so; any other is asked for, under a new identifier; of a search the first name that is not too long is, with the name as given in front if it has at least as many dots as asked, and last otherwise |
| `Endings.SearchReports` | adns/query.c:168-221 | a search tries the first of the names left that is not too long, and ends with NxDomain if there is none |
| `Endings.KidsNumbered` | adns/types.c:667-691 | children are given the identifiers that follow, in their order |
| `Outcomes.ReachesItsQuery` | adns/reply.c:80-127 | a datagram reaches a query if and only if it is a reply with one question, has the identifier and the question of the query, comes from a server that has been asked, and is for none before it on the queue |
| `Outcomes.RcodeDecides` | adns/reply.c:133-170 | each response code but success and NXDOMAIN ends the query with its status |
| `Outcomes.NegativeDecides` | adns/reply.c:317-406 | a reply without wanted records: NXDOMAIN ends a query that is not searching with NxDomain; without it, a SOA record or no NS record in the authority section ends it with NoData; a referral behind a CNAME of this reply makes it start again at that, and any other ends it with NoRecurse if recursion is not available, and InvalidResponse if it is |
| `Outcomes.BreakDecides` | adns/reply.c:325-336 | an authority section that breaks off before any SOA record ends the query, with the status of the bad name, or with InvalidResponse |
| `Outcomes.SearchDecides` | adns/reply.c:356-370 | NXDOMAIN makes a search try the first of the names left that is not too long |
| `Outcomes.AnswerDecides` | adns/reply.c:468-508 | an error in the answer section ends the query with its status; where that is cut off, the query ends with InvalidResponse, or, if the reply says so, starts again over TCP at the name it asked for, the last CNAME followed, or what stands where a later one was to be read |
| `Outcomes.WantedName` | adns/reply.c:203-224 | records are wanted for the name that the last CNAME followed leads to, and otherwise for the one asked for |
| `Outcomes.AnsweredEnds` | adns/reply.c:446-466 | records that have been read end the query with them, or leave it waiting for its children with them; an error ends it without |
| `Outcomes.CnameReported` | adns/reply.c:277-288 | an answer that is not searched for gives the canonical name that its CNAME records have led to |
| `Aliases.NoAliasCounts` | adns/reply.c:203-307 | without an alias of the name asked for, the first pass counts exactly the wanted records, by their positions |
| `Aliases.AliasDecides` | adns/reply.c:235-288 | the first alias of the name fails a query that forbids aliases or has met a second one before; behind a wanted record it is ignored; otherwise it is followed, and its name and the print of that are kept |
| `Aliases.ForbiddenDecides` | adns/reply.c:238-252 | such an alias ends the query with ProhibitedCname |
| `Contents.AcceptedAt` | adns/reply.c:432-453 | the records that the second pass accepts are those of class IN, the wanted type and the name wanted, by their positions, each once and in order |
| `Contents.RecordIsSaid` | adns/types.c:284-1366 | a record that is read without error says, for each type, what the bytes and the names of the datagram at its place are |
| `Contents.RecordIsWrong` | adns/types.c:284-1142 | a record that is not read has the fault that the status names |
| `Contents.GlueIsKnown` | adns/types.c:554-604 | the addresses of a host are the bytes of the first A records of its name that stand together in the authority section, or, if there are none, in the additional one |
| `Contents.PositiveDecides` | adns/reply.c:408-466 | a reply with wanted records ends the query with an error that one of them has, or ends it, or leaves it waiting for children, with a record for each of them, in their order, that says what it does |
| `Contents.AddressesDecide` | adns/types.c:284-293 | for addresses, the answer is the four bytes of the datagram of each wanted record, in their order, if all have four, and InvalidData otherwise |
| `Frames.OthersStay` | adns/internal.h:233-284 | an event leaves all queries as they are but the one it is about, its parent and the children of these; a submission leaves all |
| `Witnesses.EarlyReply` | adns/reply.c:432-456 | on a reply with an A record of b, the alias from a to b, and an A record of b, a query for a gives out if the last has four bytes of data, and is failed as InvalidData otherwise |
| `Witnesses.ShortReplyMatches` | adns/reply.c:97-122 | the replies given as examples belong to the queries they are given for |
| `Witnesses.NoHostIsNotReported` | adns/reply.c:265-276 | a query that wants AnswerDomainInvalid for an alias to no hostname gets InvalidResponse |
| `Witnesses.SoaLoops` | adns/types.c:1338-1349 | a record wanted for a SOA query whose data start with a pointer to itself is never read to its end |
| `Redirects.CnameIsLost` | adns/reply.c:259-288 | a run in which a query starts again at an alias that a truncated reply has told, and then meets a truncated reply whose unreadable alias makes it look for a name behind the end of the first |
| `Searches.AsksForItsCname` | adns/query.c:168-221 | over every run, a waiting query with a CNAME asks for the name it leads to if and only if it is not searching, has started again at a CNAME since it chose its candidate, or the candidate is that name |
| `Searches.MatchesAnotherName` | adns/query.c:168-221 | a run in which a query asks for a.b and matches records of c |
| `Parsers.PapDomain` | adns/types.c:473-498 | the name in a record is read with its end and its text is in the buffer, truncation being invalid data |
| `Parsers.PapMailbox` | adns/types.c:1275-1286 | a mailbox is read as a name, or as an RFC 822 mailbox, with its end |
| `Parsers.PapQstring` | adns/types.c:85-116 | a string of TXT and HINFO records is read with its end, if the data reach that far |
| `Parsers.StringsExactly` | adns/types.c:201-239 | the data of a TXT record are read as given strings if and only if they are these strings, each behind its length |
| `Parsers.CountStrings` | adns/types.c:212-220 | the first loop finds whether the data are made up of strings, and of how many |
| `Parsers.PaTxt` | adns/types.c:201-239 | the strings are those that make up the data; the second loop never fails, and the assertion behind it holds |
| `Parsers.PaHinfo` | adns/types.c:1174-1192 | two strings that fill the data, or invalid data |
| `Parsers.PaDomain` | adns/types.c:515-548 | one name that fills the data, or why there is none |
| `Parsers.PaMxRaw` | adns/types.c:805-825 | a preference and a name that fill the data, or why there are none |
| `Parsers.PaRp` | adns/types.c:1298-1315 | a mailbox and, where that ends, a name, which fill the data, or why there are none |
| `Parsers.PaSoa` | adns/types.c:1338-1366 | a name, a mailbox where that ends, and five numbers, which fill the data, or why there are none |
| `Parsers.NumbersExactly` | adns/types.c:1358-1363 | a number of a SOA record is the one in the datagram if and only if that is below 0x80000000; its lower 32 bits always are |
| `Parsers.ParseFlat` | adns/types.c:1425-1454 | the parser of each type that submits no child and reads no address |
| `Deliveries.FindAddresses` | adns/types.c:554-591 | the loop finds the addresses of the owner that stand together, in order, and where it stopped; `Contents.GlueIsKnown` says which bytes they are |
| `Deliveries.FindHost` | adns/types.c:649-666 | the two searches find the addresses of a host in the authority section, or behind where that search stopped |
| `Rooms.RepliesAreRoomy` | adns/reply.c:259-296 | when the names in the data of its answers fit the reservation, only such names are kept and asked for |
| `Rooms.RunsStayRoomy` | adns/transmit.c:179 | so over every run all names kept fit it |
| `Rooms.RunsStaySealed` | adns/query.c:200-217 | over every run no candidate of any search ends inside an escape, if none did when it was submitted |
| `Rooms.RunsWithoutTcp` | adns/transmit.c:304-311 | over every run no query comes to wait for TCP |
| `Resolvers.Resolver.UnlinkFrom` | adns/dlist.h:42-48 | unlinking a query from the queue it is on takes it off that queue alone |
| `Resolvers.Resolver.LinkTo` | adns/dlist.h:50-56 | linking a query that is on no queue puts it on the tail of one |
| `Resolvers.Resolver.UnlinkChild` | adns/dlist.h:42-48 | unlinking a child takes it off the list of its parent alone |
| `Resolvers.Resolver.LinkChild` | adns/dlist.h:50-56 | linking a query that is nobody's child makes it the last child of its parent |
| `Resolvers.Resolver.CancelChildren` | adns/query.c:555-565 | the children of the query are gone from every queue and list, and nothing else has changed |
| `Resolvers.Resolver.Cancel` | adns/query.c:595-629 | the query and its children are gone from every queue and list, and nothing else has changed |
| `Resolvers.Resolver.QueryDone` | adns/query.c:686-737 | the state afterwards is that of completion, the parent's callback included, and valid |
| `Resolvers.Resolver.Callback` | adns/query.c:720-729 | a child that is done leaves its parent waiting, finished or failed as specified, in a valid state |
| `Resolvers.Resolver.HostCallback` | adns/types.c:606-629 | what the child has found is written into the record of the host that it was submitted for; the parent goes on waiting, or is done |
| `Resolvers.Resolver.PtrCallback` | adns/types.c:919-958 | a name is confirmed if the child has found the address, and the parent goes on waiting or is done; otherwise it fails, as `Endings.PtrCallbackTells` says |
| `Resolvers.Resolver.QueryFail` | adns/query.c:739-745 | the state afterwards is that of failure and valid; cancelling the children first makes no difference |
| `Resolvers.Resolver.QuerySend` | adns/transmit.c:295-349 | the query is handed to the next server in turn and waits, or fails by its size or its retries |
| `Resolvers.Resolver.QuerySimple` | adns/query.c:137-166 | a name in memory whose scan stays inside it is encoded and asked for, or the search goes on, or the query fails |
| `Resolvers.Resolver.QuerySubmit` | adns/query.c:94-113 | the message becomes that of the query, which is sent |
| `Resolvers.Resolver.SearchNext` | adns/query.c:168-221 | the next candidate is tried, or the query fails with NXDOMAIN |
| `Resolvers.Resolver.AllocQuery` | adns/query.c:42-92 | a new query on no queue that may be sent |
| `Resolvers.Resolver.SubmitQuery` | adns/query.c:241-332 | the state afterwards is that of submission, with the new query's handle; an unknown type changes nothing |
| `Resolvers.Resolver.SubmitString` | adns/query.c:285-317 | a final dot that is not escaped is taken off and ends the search |
| `Resolvers.Resolver.SubmitOwner` | adns/query.c:292-317 | a search starts with its candidates by the number of dots; otherwise the name is asked for as given |
| `Resolvers.Resolver.SubmitChild` | adns/types.c:667-691 | a child asks for the addresses of a name in a reply (`Runs.WaitingAsks`, `Runs.ChildAsks`), waits, and is linked to its parent, which stays valid; the buffer of the parent has to have room for the name |
| `Resolvers.CountDots` | adns/query.c:301 | the loop counts all dots |
| `Resolvers.Resolver.TimeoutsQueue` | adns/event.c:247-280 | ends although it starts again at the head of the queue; it is a run of timeouts, and no deadline before `now` is left on the queue |
| `Resolvers.Resolver.ActOnExpired` | adns/event.c:268-276 | an expired query is sent again or fails |
| `Resolvers.Resolver.Timeouts` | adns/event.c:357-365 | afterwards no waiting query has a deadline before `now` |
| `Resolvers.Resolver.DeadlinesOn` | adns/event.c:247-280 | the deadlines that the walk along a queue meets, in order |
| `Resolvers.Resolver.FirstTimeout` | adns/event.c:367-375 | the caller's wait is cut down to the first deadline of any query that waits and of the connection: it is no longer than the time until any of them, and one of these times if it has changed at all |
| `Resolvers.Resolver.InternalCheck` | adns/event.c:876-911 | ESRCH if and only if there is no handle and no query at all; success exactly for a query on the output queue, which alone disappears, with its answer |
| `Resolvers.Resolver.ParseHostAddr` | adns/types.c:631-691 | reading a host makes its record, finds its addresses in the reply or submits a child for them, and does what the specification says |
| `Resolvers.Resolver.FindGlueOrAsk` | adns/types.c:649-691 | the addresses go into the record, or a child is submitted for them |
| `Resolvers.Resolver.ParsePointer` | adns/types.c:1057-1142 | reading a PTR record makes its record, reads the address asked about off the question, and submits a child for the name |
| `Resolvers.Resolver.NoteAddress` | adns/types.c:1081-1122 | the address that the question spells is noted once, or there is none |
| `Resolvers.Resolver.ParseRecord` | adns/reply.c:443-446 | what one accepted record of any type does to the query and its family, and the record it makes, which says what `Contents.RecordIsSaid` has it say |
| `Resolvers.Resolver.TakeNext` | adns/reply.c:434-453 | one turn of the second pass takes the next record if it is accepted, and passes over it if not |
| `Resolvers.Resolver.TakeAnswers` | adns/reply.c:432-455 | the second pass stores, in order, exactly the records the specification makes, submits their children, and stops at the first that fails |
| `Resolvers.Resolver.ConcludeAnswer` | adns/reply.c:446-466 | the query fails, waits for its children, or is done |
| `Resolvers.Resolver.ReadPositives` | adns/reply.c:408-466 | wanted records lead to the verdict the specification reads off them, in a valid state |
| `Resolvers.Resolver.ReadNegatives` | adns/reply.c:317-406 | without wanted records the query does what `Outcomes.NegativeDecides`, `Outcomes.BreakDecides` and `Outcomes.SearchDecides` say |
| `Resolvers.Resolver.TruncatedReply` | adns/reply.c:468-477 | without the truncation bit the query fails, with it it starts again, at the name that cname_begin then tells |
| `Resolvers.Resolver.RestartQuery` | adns/reply.c:479-508 | the query asks for its name, or for that of the CNAME it followed, with no retries counted |
| `Resolvers.Resolver.ReadTheReply` | adns/reply.c:130-508 | a reply to a waiting query does what its verdict says, in a valid state |
| `Resolvers.Resolver.ActOnPass` | adns/reply.c:308-508 | behind the first pass a reply does what its verdict says |
| `Resolvers.Resolver.FindQuery` | adns/reply.c:97-122 | the loop finds the first query of the queue that the reply belongs to |
| `Resolvers.Resolver.ProcDgram` | adns/reply.c:35-508 | a datagram changes nothing, or is exactly the event of the run that it amounts to |
| `Dlists.Lists.LinkTail` | adns/dlist.h:50-56 | in a family of well-formed lists with one link per query, the macro appends a query that is on none of them to one list and leaves the others |
| `Dlists.Lists.Unlink` | adns/dlist.h:42-48 | the macro removes a query from the list it is on, leaves the others, and the query keeps its own pointers |
| `Dlists.Lists.AssertOn` | adns/check.c:55-62 | a query that is on a list is found before the list ends |
| `Dlists.Lists.Check` | adns/check.c:44-53 | the assertions of the walk hold, and it meets every query of the list once, in order |
| `Timevals.TimevalAdd` | adns/tvarith.h:33-41 | a normalised time stays normalised and is later by so many milliseconds |
| `Timevals.InterImmed` | adns/event.c:186-201 | the wait becomes zero |
| `Timevals.InterMaxto` | adns/event.c:203-224 | the wait becomes the shorter of the two |
| `Timevals.InterMaxtoabs` | adns/event.c:226-245 | the wait becomes the shorter of what it was and the time until the deadline, which is zero when that has passed |
| `Timevals.TimeoutsQueue` | adns/event.c:247-280 | the wait becomes the shortest of what it was and the times until all deadlines of the queue, although the loop may stop early |
| `Timevals.ShortestIsLeast` | adns/event.c:247-280 | that wait is one of them, and none is shorter |
| `Timevals.ExpiredMeansNow` | adns/event.c:262-267 | with an expired deadline the wait is zero |
| `Timevals.Connection.Events` | adns/event.c:282-355 | what the connection adds to the wait in each of its states; an idle one gets its deadline |
| `Timevals.Connection.FirstTimeout` | adns/event.c:367-375 | the caller's wait is cut down to the first deadline of any query or of the connection, and to zero if TCP needs action |
| `Streams.FramesRoundTrip` | adns/event.c:446-456 | datagrams framed one behind the other are delivered as those datagrams, wherever the stream is cut off behind them |
| `Streams.CutsDoNotMatter` | adns/event.c:440-508 | what is delivered and what is left over depend on the stream only, not on how it is cut into reads |
| `Streams.Receiver.Compact` | adns/event.c:467-476 | unread bytes move to the front, nothing is skipped, and there is room for a read |
| `Streams.Receiver.ReadMore` | adns/event.c:477-503 | bytes read come behind those kept; a broken connection empties the buffer |
| `Streams.Receiver.ProcessReadable` | adns/event.c:440-508 | afterwards exactly the complete frames of all bytes read have been delivered, the buffer holds the incomplete rest, and nothing is skipped |
| `Isorts.Isort` | adns/general.c:408-429 | the array is the insertion sort of what it was, in place, for any comparison |
| `Isorts.SortPermutes` | adns/general.c:408-429 | whatever the comparison, nothing is lost or added |
| `Isorts.SortByRank` | adns/general.c:408-429 | sorting by a rank puts elements in ascending order, those of equal rank in the order they had |
| `Isorts.OneStableOrder` | adns/general.c:408-429 | there is only one such order |
| `Isorts.SearchSortlist` | adns/types.c:307-317 | the first entry of the sortlist that an address belongs to |
| `Isorts.NeedswapAddresses` | adns/types.c:319-331 | two addresses are swapped exactly when the second belongs to an earlier entry |
| `Isorts.SortAddresses` | adns/query.c:707-718 | addresses are permuted into the order of the sortlist and otherwise stay as they came |
| `Mailboxes.BareIsDotAtom` | adns/types.c:1221-1233 | a label without control characters is printed bare if and only if it is non-empty atoms joined by dots |
| `Mailboxes.EscapesFit` | adns/types.c:1235-1249 | the escapes fit the room that the counting scan found |
| `Mailboxes.LocalPartRoundTrip` | adns/types.c:1235-1256 | reading the printed local part of a mailbox gives back the bytes of the label |
| `Mailboxes.CountQuotes` | adns/types.c:1221-1233 | the scan refuses exactly labels with control characters, and counts |
| `Mailboxes.AppendLocal` | adns/types.c:1221-1256 | the buffer holds the local part, and is never written behind its room |
| `Mailboxes.PapMailbox822` | adns/types.c:1198-1273 | the string is the mailbox of the name, or the status says why there is none; when the first label is in error that depends on what stands in its variables |
| `Mailboxes.StrayDecides` | adns/types.c:1213 | the outcome does not depend on the uninitialised variables if and only if the first label is not in error |
| `Mailboxes.ErrorsAreLost` | adns/types.c:1213-1218 | with zero in the length every such error comes out as success |
| `Mailboxes.UnknownFormatIsLost` | adns/types.c:1213-1218 | a name of unknown format is returned as the root |
| `Mailboxes.EmptyIsCutOff` | adns/types.c:1263-1273 | the string is empty, with success, if and only if the name is cut off |
| `Allocs.Allocations.Alloc` | adns/query.c:465-506 | the counters stay the sums of the live and of the preserved blocks |
| `Allocs.Allocations.Transfer` | adns/query.c:514-535 | both counters stay right when a block moves between queries |
| `Allocs.Allocations.Adopt` | adns/types.c:606-629 | the address table of a child becomes part of the parent's answer, and is counted there |
| `Allocs.Allocations.SetCname` | adns/reply.c:277-288 | the canonical name is in a preserved block of its own |
| `Allocs.Allocations.SaveOwner` | adns/query.c:223-239 | the owner is in a preserved block of its own |
| `Allocs.Allocations.AddPiece` | adns/types.c:85-116 | a string or table of a record is in an interim block of its own |
| `Allocs.Allocations.Reset` | adns/query.c:567-575 | the records are forgotten, the names are kept, and both counters are equal |
| `Allocs.Allocations.MakeFinal` | adns/query.c:643-684 | after any of these operations finalisation never overdraws the counter, and copies every string and table unchanged to places of its own inside the one block |
| `Allocs.CountedSuffices` | adns/query.c:537-553 | what is counted always suffices for what is copied |
| `Allocs.StringSurvives` | adns/query.c:747-760 | a string with its length beside it keeps all its bytes if and only if none is zero |

## Left out

- ProcDgram: asks that the reply can be read to its end, and that the names asked for fit the room reserved for them. `Guards.StuckExactly` and `Guards.ReadingEnds` say when the first holds, and `Guards.ProperReply` gives both from conditions on the datagram. It also asks that the uninitialised variables of `pap_mailbox822` stay inside the datagram, and that no search is for a name that ends inside an escape, which `Rooms.RunsStaySealed` gives for every run.
- SubmitKeeps: a search with a candidate that ends inside an escape goes on as if a zero byte stood behind that; what the source does depends on the memory there. Runs into which such a search is submitted are left out.
- QuerySimple: asks for a name whose scan stays inside it.
- SearchNext: asks for a search none of whose names ends inside an escape.
- Mkquery: asks that what is scanned fits the reservation, as it does for every name whose scan stays inside it; where it does not, the source writes behind its buffer.
- MkqueryFrDgram: asks for a name that can be decoded, as internal.h:384-387 does, and for a buffer that, with what the source reserves, has room for it.
- ParseHostAddr: starts from an empty buffer, so the room that earlier use of a query's buffer has left it is not counted.
- ParsePointer: starts from an empty buffer, as ParseHostAddr does.
- RestartQuery: starts from an empty buffer, as ParseHostAddr does.
- ParseRecord: asks for room in an empty buffer, as ParseHostAddr does, and for uninitialised variables as PapMailbox822 does.
- TakeNext: asks for all records of the pass what ParseRecord asks for one.
- TakeAnswers: asks for what TakeNext asks.
- ReadPositives: asks for a verdict that can be read off the answer, and for what TakeAnswers asks.
- ReadNegatives: asks for a verdict that can be read off the reply, for a CNAME that fits, and for no search whose names end inside an escape.
- TruncatedReply: asks for a name to start again at that is there and fits.
- ActOnPass: asks for what ProcDgram asks of the reply and of the query that it is for.
- ReadTheReply: asks for what ActOnPass asks.
- PapMailbox822: asks that the uninitialised length and start stay inside the datagram and the buffer.
- PaMxRaw: what a parser that fails has written before is not stated; whether it has written anything is.
- FindAddresses: without the sorting of several addresses at its end, which is `Isorts.SortAddresses` by itself.
- FindHost: its addresses are in the order of the reply and not in that of the sortlist, for the same reason.
- QueryDone: a child is freed before its record is handed to the callback instead of right after it; sorting the records, and the time at which the answer expires, are not part of it.
- FirstTimeout: `act` clear only; the deadlines of a queue are collected first and looked at then; asks for a clock past the first second of 1970, since a zero deadline means none.
- MakeFinal: the pointers inside a copied table are not bytes of the model; the list of pieces stands for them. `sizeof(adns_answer)` is taken to be 56 and the alignment 8.
- Adopt: the address table of a child has the size that was allocated for it, which holds where `nrrs == wantedrrs` does.
- ReadReverse: `strtoul` is modelled for the strings of at most three bytes it is given, in the C locale.
- ReverseRoundTrip: the address family is IPv4 and the zone in-addr.arpa; the buffer that the name is printed into is not modelled.
- ConsistencyHolds: the global part of the checks (sockets, sort list, TCP state) is not part of it.
- CheckConsistency: the list of allocations of a query is a number here, so the walks along it (`checkc_query_alloc`) are missing, also from CheckQueue and CheckOne.
- SubmitQuery: asks of a search that none of its names ends inside an escape; the system calls that end it (`adns__autosys`) are further events of the run.
- QuerySend: `sendto` never reports EMSGSIZE; its other results make no difference.
- TCP sending and connecting, and so how queries come to wait for TCP: the source compiles its entry out (transmit.c:304-311). Only reception and the deadline are modelled.
- `adns_globalsystemfailure`, `adns__rereadconfig`, `adns_finish`, `adns_forallqueries_next`, reading the configuration, sockets and `select`.
- The time to live of answers (`expires`), sorting by `dip_hostaddr`, the printing of records and statuses, IPv6.
- Failing allocation, logging. Addresses of queries are never reused; `udpsent` is a set and not a bit mask.
- Sizes and alignments are those of a machine with pointers and `unsigned long` of 64 bits.
- The IRC server around the resolver.
