# Group key delivery and its measurements, modelled in Dafny

The repository adds two ways of delivering group keys to Kerberos, and a controller that measures
them. This project models the parts with behaviour of their own and proves what they promise.

**The KM2 key delivery protocol.** A client asks the KDC for a service ticket with the MIKEY option
set. Before replying, the KDC seals the session key and a connection record for the group key server
(GCKS) and sends it there. The GCKS opens the message with its keytab key, takes the session key out
of it, seals a MIKEY offer with that key (the pre-shared key mode, section 3.1 of RFC 3830) and
connects to the client, again and again until the client listens. The client opens the offer with the
key in its ticket (the TGS exchange, section 3.3 of RFC 4120).

- `Km2.dfy`: the protocol as a labelled transition system over any number of clients, a serial KDC, a
  serial GCKS and a bounded accept queue.
- `Km2Nodes.dfy`: the sequential code of the KDC and the GCKS, tied to the steps of that system.
- `ConnInfo.dfy`: the connection record, printed into 1024 bytes and split in place.
- `FramedReply.dfy`: KM1's reply, with its length in front, and the client that reads it in pieces.

**The measurement controller.**

- `RunningStats.dfy`: the running mean and variance, with readings retried and rolled back.
- `Shuffle.dfy`: the Fisher-Yates shuffle and the scaled `rand()` that drives it.
- `SampleLog.dfy`: the log of readings, rejection of the last line, and the total.
- `Elapsed.dfy`: the elapsed time that each client logs.
- `Rotation.dfy`: the rotating assignment of groups.

**Algorithms in the Kerberos patch.**

- `HostPort.dfy`: two in-place splitters of host and port.
- `FailCount.dfy`: the failed-login counter in an LDAP directory.
- `LeftPad.dfy`: the left-padding of a Diffie-Hellman result.

`CStrings.dfy` and `Counting.dfy` hold what several of these share.

## Findings

- KM2 delivers everything it forwards, in every run that can do no more, **if and only if** no two MIKEY
  clients share an address (`Km2.AllDeliveredIff`). The port is fixed, so with a shared address one
  client takes the offer meant for another that cannot bind, and the run constructed by
  `Km2.SharedAddressStrands` ends with a message that no continuation delivers (`Km2.StrandsIff`). Key
  agreement, conservation and the bound on the work hold with shared addresses too.
- Sharing is harmless where clients take turns, as scripts that run them one after another on one host do: if
  at each address at most one MIKEY client at a time waits for its offer, nobody fails to bind, every
  delivery goes to its owner, and everyone whose message was forwarded is served (`Km2.EveryoneServed`).
  Such a run serves any set of clients (`Km2.OneAfterAnother`).
- A connection record survives exactly when its fields are non-empty, hold no `|`, and
  fit (`ConnInfo.RoundTrip`). A record that does not fit comes back as `ConnInfo.PrintedThenParsed` says:
  the group name is cut, or, when no byte of it is left, the splitter runs out of fields.
- `locate_kdc` and `parse_admin_server_port` differ exactly on entries without brackets whose host part
  holds a blank (`HostPort.AgreeIff`).
- `rand()` scaled as the test programs do it reaches every permutation of distinct elements exactly
  when, at every step, `(m - 1) * (RAND_MAX / m + 1) <= RAND_MAX`
  (`Shuffle.EveryPermutationDrawnIff`).
- The filter on logged times keeps a reading if and only if the run did not cross a second and its time
  modulo 2^32 ns is below 101 ms or within the last millisecond (`Elapsed.KeptIff`). A kept reading is
  exact if and only if the run took at most 2^32 ns less one millisecond (`Elapsed.ExactIff`); the log is
  exact if and only if no longer run slipped in (`SampleLog.LogIsExactIff`).
- The KM1 client fails if and only if the stream ends by its second byte or announces an empty body
  (`FramedReply.FailsIff`); a body cut short after its first byte is not noticed
  (`FramedReply.EarlyEndNoticedIff`).
- The variance recurrence skips the second reading, so the variance is below the sample variance by
  `(y2 - y1)^2 / 2` over the count less one (`RunningStats.RunClosedForm`), and still never negative.
- The failed-login request that the patch replaces loses what it overwrites. In any mix of patched and
  unpatched KDCs the count is right if and only if every overwriting request meets a count of 0
  (`FailCount.CountIsRightIff`); patched KDCs alone never lose an update (`FailCount.CountIsSuccesses`).

## Hypotheses

- KM2: the channel is honest and delivers whole messages. MIKEY is symbolic: opening a seal succeeds
  exactly when the keys are equal. A client asks once, with a fresh credential cache. `WellFormed` says
  that the keytab key is the key the KDC holds for the GCKS, that the accept queue has room for at least
  one connection, that the fields of the records are non-empty and free of `|`, that a byte of the group
  name fits into the record, and that addresses have fewer than 30 characters. `DistinctAddresses` says
  that no two MIKEY clients share an address, and `ReachableInTurn` that a run got there in which, at
  every moment, no two MIKEY clients at one address wait for their offers. Each lemma names those it
  needs.
- Where the programs print a message and go on after a failed authentication, the model records the
  outcome and claims key agreement for clients whose authentication succeeded.
- Elapsed times: `int` has 32 bits and `long` 64, and both wrap.
- Statistics: doubles are reals, readings are non-negative integers, and coefficients of variation are
  compared by their squares.
- The failed-login counter: the attribute has at most one value, a KDC that read no attribute holds a
  count of 0, and nobody resets the counter.
- `rand()`, the client runs, the clock and the socket's reads are inputs: sequences of what they will
  produce.

## Model

| member | source | states |
|---|---|---|
| Km2.InvStep | krb5.patch:1075-1117 | every step of every node keeps the invariant: keys issued once and to their client, each forwarded at most once and in order, the pipeline equal to what was forwarded, offers traceable to deliveries |
| Km2.RunOk | krb5.patch:1075-1117 | the invariant holds after every run from a state that has it |
| Km2.KeyAgreement | kmtools/gcks2.cxx:139-247 | in every reachable state, a client that authenticated its offer holds the session key issued to it; the GCKS sealed the offer with that key and had it only from opening the message the KDC sealed for that client |
| Km2.AuthenticatesIffAddressed | kmtools/sclient2.cxx:439-442 | a client's authentication succeeds if and only if the offer it took came from the message forwarded for it |
| Km2.PipelineOnlyGrows | kmtools/gcks2.cxx:344-425 | forwarding appends one message to delivered + in process + queued, and no other step changes that sequence |
| Km2.Conservation | kmtools/gcks2.cxx:344-425 | in every reachable state, delivered + in process + queued is exactly the sequence of forwarded messages, each of a different client |
| Km2.Pairing | kmtools/gcks2.cxx:379-413 | the name, address, port and key used in one delivery are those of one and the same client, and the group is a prefix of its group |
| Km2.DeliverableParses | krb5.patch:1269-1281 | a record whose header leaves room parses, with exact name, address and port |
| Km2.ListenSucceedsIff | kmtools/sclient2.cxx:302-321 | binding and listening succeed if and only if no client is listening at the same address, whoever used it before, and change nothing else |
| Km2.KdcNeverRefuses | krb5.patch:1001-1078 | a client may always ask; an idle KDC takes any request, forwards if and only if the accept queue has room, and always replies |
| Km2.GcksNeverRefuses | kmtools/gcks2.cxx:344-390 | an idle GCKS accepts whatever waits, and can open and parse whatever it accepted |
| Km2.ConnectsIff | kmtools/gcks2.cxx:228-239 | the GCKS tries again if and only if nobody listens at the address in the message |
| Km2.DeliveredToOwner | kmtools/gcks2.cxx:219-247 | where clients take turns, a delivery reaches the client the message was forwarded for |
| Km2.ProgressStep | krb5.patch:1075-1117 | where clients take turns, every step keeps: each undelivered message's client is about to be answered, about to listen or listening, deliveries went to their owners, and no client failed to bind |
| Km2.ReachableProgresses | kmtools/sclient2.cxx:278-342 | so all that holds after every run in turn |
| Km2.DeadlockFree | kmtools/gcks2.cxx:228-239 | after every run in turn with an undelivered message, a step that moves messages on is enabled |
| Km2.MeasureFalls | kmtools/gcks2.cxx:332-425 | every step but the GCKS's retry lowers the measure, and a retry changes nothing |
| Km2.WorkBound | kmtools/gcks2.cxx:332-425 | the steps of a run that are not retries number at most what the measure fell by |
| Km2.BoundedWork | kmtools/gcks2.cxx:228-239 | no run takes more than eleven steps per client besides retries, whatever the addresses |
| Km2.NothingUndelivered | kmtools/gcks2.cxx:344-425 | where those who asked have nothing left to do but retries and failed forwards, everything forwarded is delivered and both servers are idle |
| Km2.EveryoneServed | kmtools/sclient2.cxx:278-447 | there, each client that asked holds its own key, and each client whose message was forwarded has authenticated it; addresses may be shared in turn |
| Km2.OneAfterAnother | kmtools/sclient2.cxx:278-447 | whatever the addresses, a run in turn serves every client: those with the option have authenticated their offers, the others hold tickets |
| Km2.ReachCrossed | kmtools/sclient2.cxx:307-316 | two MIKEY clients with one address can reach the state in which one listens for the other's offer and the other could not bind |
| Km2.ParkAll | krb5.patch:1001-1078 | from there every other client can be served without its message reaching the GCKS, and ends where it listens at another address or not at all |
| Km2.CrowdedMisleads | kmtools/sclient2.cxx:439-442 | the listener then takes the offer meant for the other and rejects it |
| Km2.MisledStrands | kmtools/gcks2.cxx:223-229 | its own offer then finds nobody: nothing but retries is enabled, and no run from there changes anything |
| Km2.NeverStranded | kmtools/gcks2.cxx:228-239 | after every run in turn with an undelivered message, some continuation changes something |
| Km2.StrandsIff | kmtools/sclient2.cxx:307-316 | some run strands a forwarded message for good, whatever happens next, if and only if two MIKEY clients share an address |
| Km2.AllDeliveredIff | kmtools/sclient2.cxx:307-316 | every run that can do no more has delivered all it forwarded if and only if no two MIKEY clients share an address |
| Km2Nodes.TicketServer.DoGcksReq | krb5.patch:1220-1375 | appends to the GCKS's input the session key and printed record, sealed under the GCKS key, if the connection succeeds, else nothing |
| Km2Nodes.TicketServer.ProcessTgsReq | krb5.patch:1001-1078 | one request is the protocol's Take, Forward or ForwardFails if the option is set, and Reply, in that order; issued keys and queue match the protocol's state afterwards |
| Km2Nodes.KeyServer.ProcessMikeyMessage | kmtools/gcks2.cxx:139-185 | yields the session key in the message, and the four fields of the record in it |
| Km2Nodes.KeyServer.SendMikeyMessage | kmtools/gcks2.cxx:187-247 | connections are tried one by one until the first that meets a listening client, and then exactly one offer is sent, to the given address, under the given key, for the given name |
| Km2Nodes.KeyServer.ServeOne | kmtools/gcks2.cxx:349-413 | the oldest connection is answered with the name, address and key of that same message |
| Km2Nodes.KeyServer.Serve | kmtools/gcks2.cxx:344-425 | all waiting connections are answered, once each, in order, whatever the refusals |
| Km2Nodes.DeliveriesAreServed | kmtools/gcks2.cxx:344-425 | in every reachable state, the i-th delivery is what the service loop sends for the i-th forwarded message |
| ConnInfo.AtoiOfDecimal | kmtools/gcks2.cxx:88 | reading a printed port returns it, whatever its sign |
| ConnInfo.AtoiReads | kmtools/gcks2.cxx:88 | a number is read up to the first character that is not a digit |
| ConnInfo.NoLeadingZero | krb5.patch:1269 | numbers are printed without leading zeros |
| ConnInfo.SkipsSeparator | kmtools/gcks2.cxx:73 | separators in front are skipped |
| ConnInfo.ParseTakesFour | kmtools/gcks2.cxx:73-94 | name, address, port and group are read in this order, and whatever follows is ignored |
| ConnInfo.PrefixTokens | kmtools/gcks2.cxx:73-91 | a prefix of n separated fields never splits into more than n tokens |
| ConnInfo.PrintedThenParsed | krb5.patch:1267-1270 | the complete truncation law: with room for a byte of the group, name, address and port are exact and the group is the prefix that fits; with none, parsing fails |
| ConnInfo.RoundTrip | kmtools/gcks2.cxx:68-97 | the four fields come back unchanged if and only if they are non-empty, hold no separator and fit |
| ConnInfo.ParsedFieldsAreGood | kmtools/gcks2.cxx:73-94 | whatever is parsed, from any text, is non-empty and holds no separator |
| ConnInfo.PrintRecord | krb5.patch:1269 | the buffer holds name, address, port and group, each followed by a bar, cut to 1023 characters and terminated |
| ConnInfo.StrTok | kmtools/gcks2.cxx:73-91 | one step on the buffer: the token, where it stood, and that only the separator behind it was overwritten |
| ConnInfo.StepScans | kmtools/gcks2.cxx:73-91 | such a step returns the first token of the text ahead, and leaves the rest of it ahead, untouched by the write |
| ConnInfo.ParseRecord | kmtools/gcks2.cxx:68-97 | four steps in place yield what parsing the original text yields |
| FramedReply.FrameRoundTrip | kmtools/gcks1.cxx:375-388 | a frame is the length, most significant byte first, then the body, and comes back whole with the bytes behind it left over |
| FramedReply.CTextIs | kmtools/gcks1.cxx:375-376 | the text in a buffer is everything up to the first zero |
| FramedReply.ClipIsText | kmtools/gcks1.cxx:367 | what a reply carries is the longest zero-free prefix of at most BUFSIZ - 1 bytes |
| FramedReply.ReplyServer.Fill | kmtools/gcks1.cxx:306-367 | the buffer holds the clipped message and zeros, and nothing of an earlier reply |
| FramedReply.ReplyServer.Reply | kmtools/gcks1.cxx:375-388 | the bytes written are the frame of the clipped message |
| FramedReply.FilledOn | kmtools/sclient.cxx:175-179 | a chunk written right behind a chunk is one longer chunk, and nothing else changes |
| FramedReply.NetRead | kmtools/sclient.cxx:157-182 | exactly the bytes taken off the socket are written, never past the length; the call fails if and only if a read fails other than by an interrupt, and with the first that does; else it returns all that was asked for, or all there is |
| FramedReply.ReadReply | kmtools/sclient.cxx:438-467 | for every stream and every sequence of short, interrupted and failing reads: failure if a read fails; else when the client fails, that the text starts with what arrived of the body, that a complete body gives exactly its text, and what is left on the socket |
| FramedReply.FailsIff | kmtools/sclient.cxx:438-463 | then the client fails if and only if the stream has at most two bytes or announces an empty body |
| FramedReply.EarlyEndNoticedIff | kmtools/sclient.cxx:457-463 | an incomplete frame is noticed if and only if no byte of its body arrived |
| FramedReply.UnderstoodComplete | kmtools/sclient.cxx:438-467 | for a complete frame that leaves one outcome: the text of its body, or failure if it is empty |
| FramedReply.ServeAll | kmtools/gcks1.cxx:367-388 | every client in turn rebuilds the clipped text of its own message |
| RunningStats.OneMoreReading | test_suite/test1.c:173-190 | exactly which readings complete: the first, and each that is at most a tenth above the last one that did |
| RunningStats.CompletedSteps | test_suite/test1.c:173-190 | completed readings grow by at most a tenth per step |
| RunningStats.RetryBound | test_suite/test1.c:159-190 | over a run, 10^t * y_t <= 11^t * y_0, including readings that are rolled back |
| RunningStats.TotalsAdd | test_suite/test1.c:198-203 | sum, sum of squares and spread of joined lists are the sums of those of the parts |
| RunningStats.SpreadOfOneMore | test_suite/test1.c:198-203 | one more reading raises the sum of squared deviations about the mean by the recurrence's product |
| RunningStats.ClosedFormStep | test_suite/test1.c:198-215 | one iteration, kept or rolled back, keeps the closed form of mean and variance |
| RunningStats.RunClosedForm | test_suite/test1.c:170-225 | over any run, mean times count is the sum, and (count - 1) * variance is the sum of squared deviations less (y2 - y1)^2 / 2 plus the variance at entry |
| RunningStats.VarianceNotNegative | test_suite/test1.c:201-205 | under the closed form the variance is never negative |
| RunningStats.CoefficientIsNumber | test_suite/test1.c:205-206 | after a positive first reading every coefficient computed is a number |
| RunningStats.JudgeOne | test_suite/test1.c:208-214 | past starting_k a reading is rolled back, restoring mean, variance and coefficient, or lowers the coefficient strictly |
| RunningStats.CoefficientFalls | test_suite/test1.c:208-214 | over any stretch past starting_k, the statistics are untouched or the coefficient is strictly lower |
| RunningStats.KeptLowersCoefficient | test_suite/test1.c:170-214 | the same for every reading of every run from the default statistics with a positive first reading |
| RunningStats.KeptIff | test_suite/test1.c:200-223 | in closed form over the readings alone: past starting_k one is kept if and only if the variance over the squared mean of the kept readings with it is strictly below that without it (or is 0/0), and the loop breaks if and only if starting_k is reached and the result is below target |
| RunningStats.RunChooses | test_suite/test1.c:170-225 | over a run, that rule alone determines which readings are kept and whether it stopped early |
| RunningStats.RunLength | test_suite/test1.c:170 | unless it breaks, the loop goes through max_k readings, or all there are |
| RunningStats.EarlyExit | test_suite/test1.c:220-223 | the break happens only on a reading that was kept, with the coefficient below target and k the number of readings kept; without it k keeps its value |
| RunningStats.WholeRun | test_suite/test1.c:159-226 | from the default statistics and any raw readings: closed form, non-negative variance, and k |
| RunningStats.Recorder.Measure | test_suite/test1.c:305-319 | after setting the defaults and measuring, mean, variance and coefficient are the closed form of the completed readings that the rule of KeptIff chooses, and k is their number if the run stopped early |
| RunningStats.Recorder.ReadOne | test_suite/test1.c:173-190 | takes raw readings until one is at most 1.1 times the bound, and leaves the rest |
| RunningStats.Recorder.Update | test_suite/test1.c:191-215 | the statistics and the count after one reading; past starting_k it is kept if and only if its coefficient is strictly below the old one |
| RunningStats.Recorder.RunTest1 | test_suite/test1.c:159-226 | the fields afterwards are those of the specified run over the completed readings |
| Shuffle.ScaleInRange | test_suite/test1.c:86 | a draw r <= R scales into [0, m) |
| Shuffle.DrawsAre | test_suite/test1.c:86 | exactly which draws give a value |
| Shuffle.DrawnIff | test_suite/test1.c:86 | every value is drawn by some r if and only if (m - 1) * (R / m + 1) <= R |
| Shuffle.EqualShares | test_suite/test1.c:86 | if m * (m - 1) <= R, every value but the last has exactly R / m + 1 draws, and the last at least one and no more |
| Shuffle.ShuffledPermutes | test_suite/test1.c:81-88 | every run yields a permutation |
| Shuffle.ChoicesReach | test_suite/test1.c:85-88 | every permutation has choices that lead to it |
| Shuffle.ChoicesUnique | test_suite/test1.c:85-88 | on distinct elements no two choice vectors lead to the same permutation |
| Shuffle.Bijection | test_suite/test1.c:81-88 | choice vectors and permutations are in bijection |
| Shuffle.SelectionDistinct | test_suite/test3.c:75-84 | the first elements of a shuffle are distinct elements of the original |
| Shuffle.FisherYates | test_suite/test1.c:85-88 | the result comes from the original by exchanging, in step l, the element at l with the one `rs[l] / (bound / (n - l) + 1)` behind it, all others staying put; it is also the shuffle that the scaled draws specify |
| Shuffle.FollowsOnlyOne | test_suite/test1.c:85-88 | those exchanges determine every intermediate order |
| Shuffle.LostPermutation | test_suite/test1.c:86 | if some step cannot draw its largest offset, a permutation is never produced |
| Shuffle.EveryPermutationDrawnIff | test_suite/test1.c:85-88 | every permutation can be drawn if and only if every offset can, at every step |
| Shuffle.RandMaxSuffices | test_suite/test3.c:77-81 | with 31-bit draws every order of up to 46341 elements can come up |
| SampleLog.KeptInRange | test_suite/test1.c:113 | the lines that should be in the log are all in 0..100 |
| SampleLog.LinesAndRuns | test_suite/test1.c:91-127 | lines plus accepted silent runs equals accepted runs; without silent runs there is a line for each |
| SampleLog.SumAdds | test_suite/test1.c:140 | the total of joined lists of lines is the sum of their totals |
| SampleLog.SumOfOne | test_suite/test1.c:140 | the total of one line is that line |
| SampleLog.Total | test_suite/test1.c:134-143 | reading the log back adds up the first lines, at most so many |
| SampleLog.SumBounds | test_suite/test1.c:132-145 | the sum of lines in range lies between 0 and 100 times their number |
| SampleLog.MeasureClient | test_suite/test1.c:91-127 | after the loop the log holds exactly the in-range readings in order, as many runs were accepted as were assigned, the last of them just now; a failed run aborts with fewer |
| SampleLog.RunTest | test_suite/test1.c:75-145 | over all clients the accepted runs number clients times assignments, or fewer on an abort; without silent runs the log has a line for each; the total is the sum of every line, at most 100 times their number |
| SampleLog.LogOfRuns | test_suite/test1.c:111-126 | over any runs the log counts the short ones that did not cross a second and the wrongly kept ones |
| SampleLog.LogIsExactIff | test_suite/test1.c:111-126 | the log holds the true milliseconds of the short runs that did not cross a second, all of them, in order, and nothing else, if and only if no run is wrongly kept |
| SampleLog.Deal | test_suite/test3.c:75-84 | fill with consecutive numbers, exchange as the scaled draws say, take the front: distinct numbers of the range |
| SampleLog.Assign | test_suite/test4.c:80-87 | the groups asked for are the rotation's: the first is the one behind the client's number, each next one follows around the ring, all distinct and in 1..group_count |
| Elapsed.BorrowRejected | kmtools/sclient.cxx:61-64 | every reading through the borrow branch is outside 0..100, however long the run |
| Elapsed.DirectSum | kmtools/sclient.cxx:547-548 | without the borrow, the sum that is divided is the true time modulo 2^32, as a signed number |
| Elapsed.DirectReading | kmtools/sclient.cxx:545-549 | without the borrow, every run of less than three seconds is logged as its whole milliseconds |
| Elapsed.BorrowedReading | kmtools/sclient.cxx:61-64 | with it, the value logged for a run of less than a second |
| Elapsed.KeptIff | kmtools/sclient.cxx:545-549 | for every run, the filter keeps the reading if and only if the run did not borrow and its time modulo 2^32 ns is below 101 ms or above 2^32 ns less a millisecond |
| Elapsed.KeptValue | kmtools/sclient.cxx:547-549 | what is kept is that remainder's whole milliseconds, or 0 |
| Elapsed.ExactIff | kmtools/sclient.cxx:547-549 | a kept reading is the true one if and only if the run took at most 2^32 ns less a millisecond |
| Elapsed.KeptExactlyIff | kmtools/sclient.cxx:545-549 | a reading is kept and true if and only if the run took at most 100 whole milliseconds and did not cross a second |
| Elapsed.ExactBelowIff | kmtools/sclient.cxx:547-549 | all kept readings of the runs below a bound are exact if and only if the bound is at most that one |
| Rotation.RowDistinct | test_suite/test4.c:83-85 | one client's groups are distinct and in 1..group_count |
| Rotation.RowFollowsRing | test_suite/test4.c:83-85 | a client starts behind its own number, and each next group follows around the ring |
| Rotation.HitsOfRound | test_suite/test4.c:84-85 | group_count consecutive numbers meet each remainder exactly once |
| Rotation.ChosenByColumn | test_suite/test4.c:72-87 | counting by client and counting by position agree |
| Rotation.Balanced | test_suite/test4.c:72-87 | with as many clients as groups, or a multiple, every group is chosen assigned_group_count times per round |
| Rotation.AskedEqually | test_suite/test4.c:72-87 | in the list of everything asked for, each group occurs assigned_group_count times per round |
| HostPort.AgreeIff | krb5.patch:2305-2328 | the two splitters give the same host and port text if and only if the entry is bracketed or has no blank before its first colon |
| HostPort.StripMaster | krb5.patch:3395-3400 | in place, an entry of the master list becomes the same normal form as one of the host list |
| HostPort.NormalFormStable | krb5.patch:3395-3400 | stripping a stripped entry changes nothing |
| HostPort.BracketsProtect | krb5.patch:3461-3465 | an address in brackets comes back whole from both, with a port if and only if a colon stands right behind the bracket, and is compared without it |
| HostPort.AdminPlain | krb5.patch:2316-2321 | a setting without brackets splits at its first colon, and has no port without one |
| HostPort.LocatePlain | krb5.patch:3430-3436 | an entry without brackets ends at its first colon or blank, has a port if and only if that is a colon, and is compared up to it |
| HostPort.NoPortWithoutColon | krb5.patch:2319-2324 | a host without colon or blank has no port in either |
| HostPort.PortGivenIff | krb5.patch:2312-2324 | a setting has a port if and only if it holds a colon, or, in brackets, one right behind them |
| HostPort.CutHost | krb5.patch:3430-3436 | in place, the host becomes the normal form and the port's text is what followed the colon |
| HostPort.StripBrackets | krb5.patch:3461-3465 | in place, the host without its brackets |
| HostPort.SplitEntry | krb5.patch:3430-3465 | both together leave the host and port of the specification |
| HostPort.ParseAdminServerPort | krb5.patch:2305-2328 | in place, with an overlapping move, the host and the optional port number of the specification; a port is given if and only if the text holds a colon, or, in brackets, one right behind them |
| FailCount.BuildRequest | krb5.patch:3872-3892 | the list as built, sent to any directory: accepted without the attribute only if none was read, leaving one more than was read; accepted against a count only as an increment or by naming it, leaving one more |
| FailCount.OutcomeIfAbsent | krb5.patch:3880-3892 | against a missing attribute only a KDC that saw it missing succeeds |
| FailCount.OutcomeIfPresent | krb5.patch:3872-3892 | against a stored count an increment succeeds, an exchange succeeds if it names that count, a bare add fails |
| FailCount.StepCounts | krb5.patch:3814-3901 | one step raises the count by one if it is an accepted request, less the count it overwrites if it is an unpatched one that read 0 |
| FailCount.CountIsSuccesses | krb5.patch:3814-3901 | for any interleaving of any number of patched KDCs the count rises by exactly the number of accepted requests |
| FailCount.CountIsSuccessesLessLost | krb5.patch:3814-3901 | for any mix of patched and unpatched KDCs it rises by that number less every count overwritten |
| FailCount.AcceptedMeansUndisturbed | krb5.patch:3880-3892 | an accepted exchange or first add proves that no other request was accepted since its snapshot |
| FailCount.FreshRequestAccepted | krb5.patch:3872-3892 | a request sent before any other is always accepted |
| FailCount.OldCountsIff | krb5.patch:3833-3863 | an accepted request of the replaced form adds one if and only if it increments, read a count other than 0, or finds 0 stored |
| FailCount.CountIsRightIff | krb5.patch:3833-3863 | over any run with unpatched KDCs the count is right if and only if every overwriting request finds 0 stored |
| FailCount.OldRequestLostUpdates | krb5.patch:3840-3850 | a run for any two unpatched KDCs: both read no failures, both are accepted, and one failure is stored |
| LeftPad.ValueOfParts | krb5.patch:3940 | the value of joined bytes: the front counts 256 times for each byte behind it |
| LeftPad.ZerosInFront | krb5.patch:3945 | leading zeros leave the big-endian value unchanged |
| LeftPad.WidthAndValue | krb5.patch:3935-3947 | bytes of one width are determined by their value |
| LeftPad.MoveUp | krb5.patch:3944 | the overlapping move leaves the original bytes at the end |
| LeftPad.Pad | krb5.patch:3935-3947 | the buffer is the only one of its width with the value of the original bytes |

## Left out

- MIKEY encoding, message authentication and key derivation, ASN.1 and Kerberos encryption: they belong
  to libmikey and libkrb5, which are not part of this model; seals are symbolic.
- Sockets, keytab and credential cache access, user ids, `system()` calls, logging and time measurement
  inside the servers.
- The GCKS after a message it cannot open or a record with fewer than four fields: the program prints a
  message and goes on, or passes a null pointer on. `Km2` has no step for either; `WellFormed` rules them
  out.
- Errors in the KDC before it forwards (looking up the GCKS, decrypting its key): they end the request.
- Lost, repeated or forged messages, retransmitted requests, a client's second connection waiting in its
  own accept queue, and the offer's size limits.
- Km2Nodes.TicketServer.DoGcksReq: strings with embedded NULs are excluded; C strings have none.
- Km2Nodes.KeyServer.Serve: serves the connections waiting at the start; arrivals in between are steps of
  `Km2`.
- Km2Nodes.KeyServer.SendMikeyMessage: when an address listens is an input, and it must listen at some later
  attempt; `Km2.Retry` has no such bound.
- ConnInfo.ParseRecord: returns the tokens as values instead of fresh copies, and numbers are unbounded,
  so the overflow of `atoi` is not modelled.
- FramedReply.ReadReply: what is left on the socket after a failed read, where the program exits.
- RunningStats.RunClosedForm: no claim about floating-point rounding.
- RunningStats.Recorder.RunTest1: ends when the raw readings run out, where the program would take another;
  std_dev is not stored, since it is the root of the variance.
- RunningStats.Recorder.Measure: the runs before the first reading, whose results are discarded.
- SampleLog.RunTest: client runs are given by their outcomes; which group a line belongs to is not recorded.
- SampleLog.Deal: shuffles the numbers; forming client and group names from them is left out.
- SampleLog.Assign: models the assignment of test4; its final averaging is left out.
- Elapsed.BorrowRejected: clock readings have seconds between 0 and 2^48 and valid nanoseconds.
- FailCount.CountIsSuccesses: explicit resets and the initial value written with a new entry are left out.
- The mapping of groups to servers, rekeying and rejoining: only comments describe them.
- test2 and its log loop, which repeat test1's; the setters and forwarding code around libmikey; scripts.
