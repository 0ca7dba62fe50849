# Smart seats, feeds and reminders of the campus back end

This project models four parts of the campus services and proves what they promise.

* **Smart seats** (`be-library/service/smartSeat.go`): covering a time window with as few seats as possible, ranking the
  plans, reading a plan back from a client, booking it whole or not at all, and cancelling it as a group.
* **Feed pipeline** (`be-feed`): scheduled broadcasts into Kafka, the consumer that commits only handled messages, and the
  push deliveries that retry under one stored identifier.
* **Reminders** (`be-library/service/reminder*.go`): the per-student task gate, the away episodes with their jobs and
  outbox rows, the invitation request limiter, and the transaction that records team invitations.
* **Small algorithms**: two UTF-8 truncators, the in-place de-duplication and the two readers of week lists, and the paged
  history reader.

Code that changes state is modelled by classes and loops, and proved against functions or predicates that are written
without reference to the loop. Protocols are runs of atomic steps: one step per transaction, statement or lock-protected
section, in any order; a class that carries a `trace` is proved to be such a run at every moment, and where a theorem needs
a discipline (`Allowed`), every step the class takes is proved to keep it. What the school, Kafka, the database and the
push service answer is arbitrary: an operation that reports an error may have taken effect or not. Where a contract speaks
of such an answer, the answer is an input of the operation: the school's replies to bookings, listings and cancellations
(`SmartSeatBooking.School`; one that lists truthfully always exists, `SmartSeatBooking.SomeSchoolIsTruthful`), its answers
at each point of a trace (`AwaySender`), the allow-list as a function of time (`PushDelivery.Env`). Methods called
`Meanwhile` stand for everything else that may happen between two statements; callers use their postcondition only. Where
an operation also has to get somewhere, it takes a flag `healthy`, for a world in which nothing fails, or `alone`, for one
in which nobody else acts.

A function that an operation and its contract share is tied down by a lemma in other terms: what the school must have
answered (`AwaySender.JudgeIff`), what "too late" means (`PushDelivery.ExpiredIff`), who is notified
(`TeamInvitations.DecisionIsRight`), which texts are numbers, times and characters (`Decimal.AtoiIff`,
`Minutes.ParseMinuteIff`, `Utf8Truncation.ValidIffEncoded`).

| file | part |
|---|---|
| `Text.dfy`, `Minutes.dfy` | numerals, splitting and joining, string order; minutes of the day |
| `SmartSeatPlanner.dfy`, `SmartSeatPlans.dfy` | relays, the greedy chain and its variants; assembling and ranking plans |
| `SmartSeatSegments.dfy`, `SmartSeatMatching.dfy`, `SmartSeatBooking.dfy` | reading a plan back; matching records; booking, rollback and cancellation |
| `FeedBroadcast.dfy`, `FeedConsumer.dfy`, `PushDelivery.dfy` | scheduler and broadcast; consumer; push delivery |
| `TaskGate.dfy`, `InvitationLimiter.dfy`, `TeamInvitations.dfy` | task gate; request limiter; invitation transaction |
| `AwayEpisodes.dfy`, `AwayReminders.dfy`, `AwaySender.dfy` | the table of departures; jobs, outbox and all their transactions; scan and sender |
| `Utf8Truncation.dfy`, `WeekMasks.dfy`, `HistoryPages.dfy` | the small algorithms |

## What turned out different from what one might expect

* Minute 1440 is printed as "24:00", which no parser accepts. A plan that ends at midnight can therefore be offered but
  never sent back or booked (`SmartSeatSegments.RoundTrip` gives the exact condition).
* A group whose cancellation failed for some of its segments cannot be cancelled as a group again, as long as the school
  lists exactly what is live and nothing is booked anew: the segments already cancelled are missing from then on, and a
  missing segment stops everything (`SmartSeatBooking.PartlyCancelledForGood`).
* A library message whose student has switched library messages off is committed although it was neither stored nor
  dropped (`FeedConsumer.SwitchedOffIsPassed`; `FeedConsumer.StoredIffAccepted` says exactly which ones are lost).
* The last local check of an away reminder and its publication are two steps, so a reminder can go out after its departure
  ended and even during a later one (`AwayReminders.CheckThenPublishRace`). It is still in place exactly if no transaction
  in between closed the episode (`AwayReminders.StillOpenIff`); once a departure is closed, no row of it passes the claim
  check again (`AwayReminders.OnlyOpenCanSend`, `AwayReminders.NeverReopens`).
* A rollback whose unconfirmed cancellation did take effect leaves a group behind that cannot be cancelled
  (`SmartSeatBooking.ResidueLostAtOnce`).
* With several dispatchers a stale list can make two failed attempts share one number, so that more than ten failures are
  needed to end a delivery (`PushDelivery.StaleViewLosesCount`). The attempts count the failures exactly when nobody records
  a failure from a stale list (`PushDelivery.CountedIffFresh`), which one dispatcher never does
  (`PushDelivery.Delivery.DispatchAlone`).
* The two truncators cut some invalid texts differently (`Utf8Truncation.DifferOnInvalidText`). They agree on a text exactly
  when what comes before its last rune start within the limit is valid and no whole character follows there within the limit
  (`Utf8Truncation.AgreeIffCutAlike`), which every valid text meets.
* The loop that lists the weeks of a mask never ends if week 63 is set (`WeekMasks.EndlessExactlyAtWeek63`).

## Model

| member | source | states |
|---|---|---|
| Minutes.ParseOfFormat | be-library/crawler/seat.go:329-351 | printing a minute of the day and parsing it gives it back, except for the closing minute 1440, which does not parse |
| Minutes.ParseMinuteIff | be-library/crawler/seat.go:329-346 | read as a minute of the day are exactly the numerals from 0 to 1440 and the clock times, each as its minute |
| Minutes.FormatInjective | be-library/crawler/seat.go:348-351 | different minutes print differently, so comparing printed times compares minutes |
| SmartSeatPlanner.GreedyChain | be-library/service/smartSeat.go:523-563 | succeeds exactly when some relay of at most twelve picks covers the window (from the given first seat, if any), and then returns one with the fewest picks of all |
| SmartSeatPlanner.BestInterval | be-library/service/smartSeat.go:565-580 | the free interval of the seat that covers the minute and reaches furthest, or none exactly if none covers it |
| SmartSeatPlanner.BestOfAll | be-library/service/smartSeat.go:540-553 | the interval over all seats that covers the minute and reaches furthest |
| SmartSeatPlanner.OneMorePick | be-library/service/smartSeat.go:534-559 | if no n picks get beyond a point, no n + 1 picks get beyond the furthest interval that covers that point: the exchange step of the optimality proof |
| SmartSeatPlanner.OrderIrrelevant | be-library/service/smartSeat.go:338-372 | the number of picks does not depend on the order in which the timelines were collected |
| SmartSeatPlanner.BuildChains | be-library/service/smartSeat.go:489-520 | at most six chains with different keys, the first one shortest of all, every other one shortest among those that begin on its seat; empty exactly when no relay of twelve picks exists; unless the list is full, every seat that can begin a relay is represented |
| SmartSeatPlanner.AsPlainRelay | be-library/service/smartSeat.go:510-518 | a variant is an ordinary relay too, so if the unconstrained greedy fails every variant fails |
| SmartSeatPlans.SingleSeatPlans | be-library/service/smartSeat.go:201-257 | one-seat plans are exactly seats free throughout the window, all of them unless three were found first |
| SmartSeatPlans.FreeIffRelay | be-library/service/smartSeat.go:201-257 | a seat is free throughout exactly when it is a relay by itself |
| SmartSeatPlans.Dedupe | be-library/service/smartSeat.go:602-617 | keeps one chain per key and loses no key |
| SmartSeatPlans.RankPlans | be-library/service/smartSeat.go:192-197 | at most three plans with different keys in ranking order, the first with no more segments than any chain offered |
| SmartSeatPlans.RankedByRoom | be-library/service/smartSeat.go:619-641 | among plans of one length those that begin in a listed room come first, in the order of the list, and within a room the keys ascend |
| SmartSeatPlans.KeyTextInjective | be-library/service/smartSeat.go:594-600 | printed keys are equal exactly when rooms, seats and times are, unless an identifier contains a separator |
| SmartSeatPlans.BuildPlans | be-library/service/smartSeat.go:176-198 | at most three different ranked plans, ordered by segment count and then by the list of rooms, each a relay of at most twelve picks over the offered seats; a one-seat plan comes first if any seat is free throughout; otherwise, in a window of more than half an hour, there is a plan exactly when a relay exists, and the first is a shortest |
| SmartSeatSegments.Normalize | be-library/service/smartSeat.go:643-681 | the imperative validation computes the accepted list |
| SmartSeatSegments.AcceptedIsChain | be-library/service/smartSeat.go:643-681 | whatever is accepted is one to twelve segments on named seats, ordered, gap-free, not overlapping, and a permutation of the input |
| SmartSeatSegments.AcceptedIffSomeOrderingIsChain | be-library/service/smartSeat.go:643-681 | a request is accepted exactly when its segments all parse and some ordering of them is such a chain, and then in that ordering |
| SmartSeatSegments.RoundTrip | be-library/service/smartSeat.go:154-171 | every relay of the planner, printed and sent back, is accepted with the same seats and minutes in the same order exactly when it ends before minute 1440 |
| SmartSeatMatching.SameTextIsSameKey | be-library/service/smartSeat.go:884-895 | the comparison of printed times is equality of (seat, date, begin, end) |
| SmartSeatMatching.FindUnused | be-library/service/smartSeat.go:877-903 | finds a free record of the segment's key whenever there is one |
| SmartSeatMatching.MatchRecords | be-library/service/smartSeat.go:872-907 | matched keys are the multiset intersection of record keys and segment keys, missing keys the difference; no record position is used twice; every segment is matched or missing |
| SmartSeatBooking.StoredReadsBack | be-library/service/smartSeat.go:922-963 | a saved group reads back as the segments it was saved with |
| SmartSeatBooking.WantedIsMatched | be-library/service/smartSeat.go:819-823 | against an exact listing every live booking of a requested segment is matched |
| SmartSeatBooking.RollbackIsExact | be-library/service/smartSeat.go:815-835 | with an exact listing and one booking per segment, the wanted bookings go exactly as the school replies, the residue names exactly the unconfirmed ones with seat, times, room and label, and the others are untouched |
| SmartSeatBooking.SeatService.ReserveSeat | be-library/crawler/seat.go:490-530 | times that do not parse are refused without effect; otherwise the booking exists unless the request failed before taking effect, and a failure is reported exactly unless the school confirmed |
| SmartSeatBooking.SeatService.Rollback | be-library/service/smartSeat.go:815-835 | without a listing nothing is cancelled and an error reported; otherwise the records of the listing that match a segment are cancelled, with the effects the school replies, and the residue has one segment for each unconfirmed one, in order, with its seat, times, room and label; from an exact listing no other booking is touched, and with one booking per segment those gone are exactly those whose cancellation took effect, the residue names exactly the unconfirmed ones, and an error means there is one |
| SmartSeatBooking.ResidueCanBeCancelled | be-library/service/smartSeat.go:745-849 | the group that a failed booking leaves behind is refused exactly when a booking whose cancellation was not confirmed is no longer there |
| SmartSeatBooking.ResidueLostAtOnce | be-library/service/smartSeat.go:815-835 | cancelled right away it is refused exactly when an unconfirmed cancellation did take effect |
| SmartSeatBooking.BackToBase | be-library/service/smartSeat.go:712-733 | after a rollback from an exact listing everything booked before is untouched, what is left is in the residue, and without an error the bookings are exactly those from before |
| SmartSeatBooking.SeatService.Reserve | be-library/service/smartSeat.go:684-742 | the outcome is determined by the school: nothing is requested before every segment was found free in a timeline of its seat; success exactly when every request is confirmed, with one new booking per segment; rejection changes nothing; a failure names the first request that did not succeed and rolls back what was booked until then, as `Rollback` says; without a listing all of it stays; with a truthful listing and none of the segments booked before, all bookings and groups are restored, even if the failing request took effect, or everything left is in the saved residue, which cannot happen if all cancellations are confirmed |
| SmartSeatBooking.CancelKeepsSpec | be-library/service/smartSeat.go:784-809 | a group is refused exactly when one of its bookings is gone; otherwise its bookings go exactly as the school replies, the cancellation is complete exactly if all are confirmed, and no other booking is touched |
| SmartSeatBooking.SeatService.Cancel | be-library/service/smartSeat.go:745-812 | one missing segment means nothing is cancelled and the group stays; otherwise one listed record per segment is cancelled, with the effects the school replies, and the group is deleted only if every one was confirmed |
| SmartSeatBooking.PartlyCancelledForGood | be-library/service/smartSeat.go:786-809 | with exact listings and one booking per segment: once any cancellation of a group took effect, every later attempt to cancel the group is refused, as long as nothing is booked anew |
| Utf8Truncation.ValidPrefix | be-feed/service/pushDelivery.go:343-351 | a prefix of a valid text is valid exactly when it ends where a character starts (RFC 3629, sections 3 and 4) |
| Utf8Truncation.ValidIffEncoded | be-library/service/reminder.go:1760-1769 | valid are exactly the encodings of sequences of characters (RFC 3629, section 3) |
| Utf8Truncation.StepBack | be-feed/service/pushDelivery.go:343-351 | stops at the last rune start within the limit |
| Utf8Truncation.TrimBack | be-library/service/reminder.go:1760-1769 | stops at the first valid text met while dropping bytes |
| Utf8Truncation.AgreeIffCutAlike | be-library/service/reminder.go:1760-1769 | on every text, valid or not, both leave the same exactly when it is no longer than the limit, or the part before the last rune start is valid and no character that starts there ends within the limit |
| Utf8Truncation.TruncatorsAgree | be-library/service/reminder.go:1760-1769 | on every valid text and limit both return the longest valid prefix within the limit, at most three bytes below it when cut |
| Utf8Truncation.DifferOnInvalidText | be-feed/service/pushDelivery.go:343-351 | some invalid texts are cut differently: a concrete one |
| WeekMasks.DedupInPlace | be-classlist/crawler/crawler_3.go:306-314 | the pass that overwrites the array it compares against computes the de-duplication of the original contents, sorted or not |
| WeekMasks.DedupedAscends | be-classlist/crawler/crawler_3.go:306-314 | of a sorted list it leaves a strictly increasing one |
| WeekMasks.DedupedKeepsElements | be-classlist/crawler/crawler_3.go:306-314 | it keeps exactly the elements |
| WeekMasks.ReadWeeks | be-classlist/crawler/crawler_3.go:279-317 | the newer crawler accepts exactly the texts whose parts are all well formed, and returns their weeks in strictly increasing order |
| WeekMasks.MaskOf | be-classlist/crawler/crawler_3.go:222-225 | the loop computes the mask of the list |
| WeekMasks.MaskHas | be-classlist/crawler/crawler_3.go:222-225 | bit w - 1 is set exactly for the listed weeks, for every week that fits |
| WeekMasks.SameWeeksSameMask | be-classlist/crawler/crawler_2.go:306-323 | a mask depends on which weeks are listed, not on order or repetition |
| WeekMasks.ParseNumbers | be-classlist/crawler/crawler_2.go:326-334 | all numbers of a text in order, whatever stands between them |
| WeekMasks.OneNumber | be-classlist/crawler/crawler_2.go:326-334 | a numeral, leading zeros or not, is read as its number, and as the largest one if it has no room in 64 bits |
| WeekMasks.ParseMask | be-classlist/crawler/crawler_2.go:306-323 | the older crawler's mask is that of the weeks its sections name; week 0 panics |
| WeekMasks.SamePart | be-classlist/crawler/crawler_2.go:306-334 | a part that the newer crawler accepts names the same weeks to the older one |
| WeekMasks.CrawlersAgree | be-classlist/crawler/crawler_2.go:306-334 | every text the newer crawler accepts gives both the same mask, with exactly the listed weeks set |
| WeekMasks.WrittenListsAreAccepted | be-classlist/crawler/crawler_3.go:279-303 | every list of weeks and ranges, written the usual way, is accepted with exactly its weeks |
| WeekMasks.EndlessExactlyAtWeek63 | be-classlist/pkg/tool/tool.go:27-38 | for a positive mask the listing loop never ends exactly when week 63 is set |
| WeekMasks.WeeksOf | be-classlist/pkg/tool/tool.go:27-38 | otherwise it lists exactly the weeks of the mask, in order |
| WeekMasks.MaskReadsBack | be-classlist/pkg/tool/tool.go:27-38 | a mask made from an ascending list up to week 62 reads back as that list and no other |
| HistoryPages.TakeUntilIs | be-library/crawler/reminder.go:308-316 | rows read without meeting a stop are a prefix of what the read is for, and all of it at a stop or at the end |
| HistoryPages.KeptIsRecent | be-library/crawler/reminder.go:289-316 | kept are the rows from the cut-off date on, down to the watermark or to the first row of an earlier date |
| HistoryPages.RecentHistory | be-library/crawler/reminder.go:289-323 | the answer is always a prefix of the rows above the watermark and cut-off; with the right count it is all of them, and it is reported incomplete exactly when the page cap ended the read before that was settled; it fails only if one of the pages is unreadable, and with the right count exactly if that page comes before any stop or end |
| TaskGate.Gate.Start | be-library/service/reminder.go:102-134 | grants or refuses a run, and records exactly that |
| TaskGate.Gate.Finish | be-library/service/reminder.go:118-134 | the finish callback's whole effect |
| TaskGate.NextGrant | be-library/service/reminder.go:100-135 | in every run with a clock that does not go back, while the version is unchanged: the next grant comes after the previous one finished, at least an interval after it began and after any failure it reported |
| TaskGate.NextGrantIff | be-library/service/reminder.go:100-135 | the next request after a grant is granted exactly if its version is another one, or the granted run has finished and one interval has passed since it began and since any failure |
| TaskGate.FirstGrant | be-library/service/reminder.go:100-117 | the first request of a key is granted |
| TaskGate.StaleFinish | be-library/service/reminder.go:118-124 | the finish callback of an older generation changes nothing |
| TaskGate.GenerationsGrow | be-library/service/reminder.go:110-115 | generations of a key grow exactly at its grants |
| InvitationLimiter.Limiter.Allow | be-library/service/reminder_invitation.go:42-63 | purge loop, window and count, as one function of the old map |
| InvitationLimiter.RequestsAreLimited | be-library/service/reminder_invitation.go:42-63 | in every run with a clock that does not go back: at most twice the limit in any 60 seconds, never more than 10000 windows, and each open window counts exactly its grants |
| InvitationLimiter.WindowIsLimited | be-library/service/reminder_invitation.go:50-61 | every one-minute window, open or long over, has granted at most the limit |
| InvitationLimiter.RefusedForAReason | be-library/service/reminder_invitation.go:50-59 | an operator is refused only if the map is full or its own grants of the last minute reach the limit |
| TeamInvitations.Normalize | common/tool/library_invitation.go:25-42 | accepts exactly the well-formed requests and returns the recipients once each, in order |
| TeamInvitations.AddInvitation | be-library/service/reminder_invitation.go:196-223 | adding one decided invitation keeps one row per team and recipient, the daily quota, the deadlines and the outbox in step |
| TeamInvitations.DecisionIsRight | be-library/service/reminder_invitation.go:196-212 | an invitation is enqueued exactly when the recipient has reminders switched on and fewer enqueued ones than the limit from midnight to midnight in UTC+8 |
| TeamInvitations.RecordedIsNotPending | be-library/service/reminder_invitation.go:244-262 | whoever has an invitation of this operator for the team needs nothing more |
| TeamInvitations.InvitationService.Transaction | be-library/service/reminder_invitation.go:169-225 | writes all decisions of a request together with their outbox entries, stamped with a time during the transaction, or nothing; a recipient is notified exactly if reminders are switched on and the limit of the day in UTC+8 is not reached, under the version of that subscription; having written, every recipient has an invitation by this operator; a mismatching operator never writes; a lost acknowledgement is an error that may have written |
| TeamInvitations.InvitationService.Enqueue | be-library/service/reminder_invitation.go:166-241 | at most three transactions, of which at most one writes, all of the request, with the first observation and deadline, only for recipients who had no invitation before; every answer but success and internal error means nothing was written |
| TeamInvitations.InvitationService.Check | be-library/service/reminder_invitation.go:141-166 | what the school must have said; the observation is the time of the check cut to seconds, and the deadline is the delivery age after it or the expiry of the team, whichever comes first, cut to seconds |
| TeamInvitations.InvitationService.Notify | be-library/service/reminder_invitation.go:76-242 | accepted means every recipient has an invitation by this operator; every other answer but an internal error writes nothing, and that one everything or nothing; a mismatching operator never writes; every row written is for a pending member of the inviting team of the operator, is stamped with a time during the call and expires at its deadline; notified are exactly the recipients that have reminders switched on and are below the limit of the day; a request that is already recorded is not refused |
| AwayEpisodes.CurrentIffOpen | be-library/service/reminder.go:746-759 | the check of the latest episode is exact: it passes exactly when this very episode is open |
| AwayEpisodes.DepartIsSound | be-library/service/reminder.go:761-778 | an away observation continues the open episode or opens the next number, and leaves the table sound |
| AwayEpisodes.CloseIsSound | be-library/service/reminder.go:733-739 | closing keeps the table sound and leaves no episode of the student open |
| AwayReminders.StepKeepsInv | be-library/service/reminder.go:623-744 | every transaction keeps: at most one open episode, numbers 1, 2, 3, ... per reservation, unfinished jobs and rows only for the open one; departure times never move, closed episodes never reopen |
| AwayReminders.RunKeepsInv | be-library/service/reminder.go:623-778 | so this holds in every run |
| AwayReminders.RunEvolves | be-library/service/reminder.go:761-778 | between any two points of a run no departure time moves and no closed episode changes |
| AwayReminders.CloseKeepsInv | be-library/service/reminder.go:733-741 | closing an episode leaves no unfinished job or row at all |
| AwayReminders.AbsenceSchedules | be-library/service/reminder.go:683-709 | an observed absence belongs to one open departure, which began that many minutes ago if it is new, and its two reminders are put up for 60 and 80 minutes after it began, each only if its feature is on and it is new, cancelled, dropped for another reason or due earlier now |
| AwayReminders.RunMoves | be-library/repository/dao/reminder.go:509-570 | between any two points of a run, until it is cleaned up: a job that is done stays done, a row that was sent or dropped stays as it is, and a job is claimed only under a new number |
| AwayReminders.LostClaim | be-library/repository/dao/reminder.go:604-690 | a claim that was lost never holds again |
| AwayReminders.StepKeepsClaims | be-library/repository/dao/reminder.go:604-690 | a job begins to run only under the preference it was made for, only the report of the holder ends it under the same number, and no unfinished job is removed |
| AwayReminders.RowsComeFromJobs | be-library/repository/dao/reminder.go:658-670 | a row appears exactly when the holder of the job completes it, under the preference of the job, and no waiting row is removed |
| AwayReminders.JobClaimAndBack | be-library/repository/dao/reminder.go:42-72 | given back or recovered, the attempt of a job does not count; put off, it waits for the new time |
| AwayReminders.RowClaimAndBack | be-library/repository/dao/reminder.go:691-760 | given back, the attempt of a row does not count; recovered, it has failed |
| AwayReminders.NothingAfterSwitchingOff | be-library/repository/dao/reminder.go:113-132 | switching off leaves nothing to do, takes every claim away and changes no departure |
| AwayReminders.NothingAfterCancelling | be-library/repository/dao/reminder.go:545-556 | a cancelled reservation has nothing left to do, and other reservations are untouched |
| AwayReminders.NothingStaleWaits | be-library/repository/dao/reminder.go:604-611 | dropping stale work leaves waiting exactly what was made for the current preference |
| AwayReminders.ClosesExactly | be-library/service/reminder.go:623-744 | an open episode stays open through a transaction exactly when the transaction is not one of the closing ones |
| AwayReminders.StillOpenIff | be-library/service/reminder.go:1207-1236 | from check to publication an episode is still open exactly when no transaction in between closed it |
| AwayReminders.NeverReopens | be-library/service/reminder.go:713-744 | a closed departure is never the open one again |
| AwayReminders.OnlyOpenCanSend | be-library/repository/dao/reminder.go:762-769 | the claim check passes only for rows of the open episode |
| AwayReminders.CheckThenPublishRace | be-library/service/reminder.go:1207-1236 | check and publication are not atomic: a concrete run in which departure 1 is announced during departure 2 |
| AwaySender.ReminderStore.ApplyActiveObservation | be-library/service/reminder.go:606-709 | the statements of the scan perform exactly the observation transaction |
| AwaySender.ReminderStore.EndAwayEpisode | be-library/service/reminder.go:713-744 | closes the episode that was observed, with all its work, or changes nothing |
| AwaySender.ReminderStore.AwayEpisodeCurrent | be-library/service/reminder.go:746-759 | true exactly when this episode is open |
| AwaySender.JudgeIff | be-library/service/reminder.go:1177-1215 | the answer of the school means "still away" exactly if it names this reservation, not finished, with the expected end still to come, away, and for 60 or 80 minutes if that is known; it means the departure ended exactly if nothing is left of the reservation, and that the student returned exactly if it runs on without absence |
| AwaySender.ReminderStore.SendRow | be-library/service/reminder.go:1146-1236 | before a publication, in this order: the school names this very reservation, running to the expected end, with the student away for 60 or 80 minutes if that is known; claim and subscription are found current; the departure of the row is open as the latest of the reservation; at publication that holds exactly if nothing closed it since. Any other answer prevents the publication; the departure is closed as ended or as returned exactly if the answer says so. If nothing else happens, the school is asked only about a row that may be sent, and a row that is not published is dropped unless the school cannot be reached |
| FeedBroadcast.AfterIsSuffix | be-feed/repository/dao/userFeedConfig.go:143-170 | the cursor query returns exactly the rows not yet visited |
| FeedBroadcast.KeysAreOwn | be-feed/cron/muxi.go:90-91 | two plans share a key exactly if they are the same plan, and no plan shares one with a random key |
| FeedBroadcast.SentAfterLookUp | be-feed/service/feedEvent.go:184-209 | in every run: behind each attempt to send stands a look-up of at most fifty students, among them this one, that did not find the message, and no other look-up comes in between |
| FeedBroadcast.FeedService.SendPage | be-feed/service/feedEvent.go:184-209 | success means everybody addressed on the page has the message stored or in Kafka; the same holds of its sends and its own look-up |
| FeedBroadcast.FeedService.Broadcast | be-feed/service/feedEvent.go:170-213 | success means everybody addressed who is registered by then has the message stored or in Kafka; whatever is sent, sent successfully or not, had been looked up during the broadcast and not found by the latest look-up, and each look-up is of at most one page; if nothing fails it succeeds |
| FeedBroadcast.FeedService.PublishOne | be-feed/service/feedEvent.go:215-230 | a stored message is a duplicate and nothing is sent; a send follows a look-up that did not find the message; anything but failure leaves it stored or in Kafka |
| FeedBroadcast.FeedService.PublishPlan | be-feed/cron/muxi.go:88-146 | a plan leaves the queue only broken, or with everybody it owed served by a message that belongs to this plan and to no other, now and after any later runs |
| FeedBroadcast.FeedService.Tick | be-feed/cron/muxi.go:76-149 | one scheduler run: only due plans go, every plan that is gone has a record of its delivery or of why it can never be delivered, and if nothing fails no due plan is left |
| FeedConsumer.StepKeepsInv | be-feed/events/feedEventConsumer.go:109-161 | every step of producers, commits and restarts, and every step of a consumer that acknowledges only what was stored and drops only at the threshold, keeps the safety of the offsets |
| FeedConsumer.CommittedIsHandled | be-feed/events/feedEventConsumer.go:109-207 | in every run, an offset below the committed one was stored, or dropped after at least five permanent failures, or is a library message its student had switched off; nothing is stored twice |
| FeedConsumer.StoredIffAccepted | be-feed/repository/dao/feedEvent.go:133-179 | an item is stored exactly when some delivery of it found the preference on or needed none |
| FeedConsumer.SwitchedOffIsPassed | be-feed/repository/dao/feedEvent.go:139-155 | a concrete run that commits a message neither stored nor ever failed |
| FeedConsumer.StoredOnceForAll | be-feed/domain/feed.go:82-86 | however often an offset is delivered again, once its item is stored it has exactly one entry from then on; two offsets share an item only if the producer gave both messages the same key |
| FeedConsumer.Consumer.RecordFailure | common/pkg/saramax/skip.go:101-120 | the skipper's count and its reset at the size limit |
| FeedConsumer.FailuresAdd | common/pkg/saramax/skip.go:101-120 | as long as nothing clears it the counter counts every failure, in any session, so that after five of them the message can be dropped |
| FeedConsumer.Consumer.DropPermanentMessage | be-feed/events/feedEventConsumer.go:147-161 | below the threshold the position stays, at the threshold the message is passed |
| FeedConsumer.Consumer.ConsumeMessage | be-feed/events/feedEventConsumer.go:163-208 | at most four storage steps in the run; only successful storage is acknowledged; only a message that can never be stored fails for good; if nothing fails a message is acknowledged unless it can never be stored |
| FeedConsumer.Consumer.ConsumeClaim | be-feed/events/feedEventConsumer.go:109-143 | the message loop takes no step outside that discipline, whatever fails or panics |
| FeedConsumer.Consumer.RunConsumer | common/pkg/saramax/retry.go:40-69 | any number of sessions and restarts keep every committed offset handled |
| PushDelivery.RunKeepsInv | be-feed/repository/dao/pushDelivery.go:58-137 | in every run, with any number of workers and stale lists: every push used the one stored identifier, was permitted and was in time; only a pushed delivery is marked sent; attempts never exceed ten, and the row has failed exactly with its tenth |
| PushDelivery.FinalIsFinal | be-feed/repository/dao/pushDelivery.go:92-137 | sent, suppressed and failed are never left and the identifier is never replaced |
| PushDelivery.FinalByMark | be-feed/repository/dao/pushDelivery.go:92-137 | a delivery counts as sent, or as suppressed, exactly once a worker that held it has marked it so |
| PushDelivery.ExpiredIff | be-feed/service/pushDelivery.go:280-300 | too late are exactly the library events of a timely kind, in any case and with any space around, whose field (expires_at, start_at or end_at) does not hold a positive number still to come |
| PushDelivery.CountedIffFresh | be-feed/service/pushDelivery.go:250-262 | at every moment of a run the attempts are the recorded failures, exactly when every failure is recorded with the attempts as they are |
| PushDelivery.AttemptsAreCounted | be-feed/service/pushDelivery.go:250-262 | then the tenth recorded failure, and no earlier one, ends the delivery |
| PushDelivery.StaleViewLosesCount | be-feed/service/pushDelivery.go:250-262 | with several dispatchers two failures can be recorded as one attempt |
| PushDelivery.Delivery.SendPrepared | be-feed/service/pushDelivery.go:207-238 | a push follows, during the call, an allow-list read that permits the type and then a check that a timely reminder names a deadline still to come in the field of its kind, with the stored identifier; alone, it is the only push |
| PushDelivery.Delivery.DispatchOne | be-feed/service/pushDelivery.go:161-276 | so does the push of a whole attempt, at most one per attempt if no other worker interferes; every step keeps the discipline that the run theorems need, and with one dispatcher no failure is recorded from a stale list; with a database that works the attempt ends sent, suppressed or with one more attempt counted, and a reminder that is too late already is suppressed |
| PushDelivery.Delivery.DispatchAlone | be-feed/service/pushDelivery.go:65-95 | over any number of runs of one dispatcher the recorded attempts are the recorded failures, at most ten, and the delivery has failed exactly with the tenth |
| PushDelivery.DispatchBatch | be-feed/service/pushDelivery.go:97-120 | deliveries are handed out once and in order, all of them unless a group fails or is cancelled, and an error is reported exactly then |
| PushDelivery.DispatchDue | be-feed/service/pushDelivery.go:65-95 | at most 2000 deliveries, handed out once and in order: full batches up to the first that is not full, cut off only by an error |

## Left out

- HTTP, HTML and JSON handling, headers, signatures and key caches: foreign calls without a checkable core here.
- Wiring, configuration, gRPC adapters, logging, metrics and error texts: no effect on the modelled state.
- The database, Redis, Kafka and the push service are abstract stores; their contracts are the postconditions of the methods that stand for them.
- Goroutines: every transaction, statement or lock-protected section is one step; timeouts and sleeps are steps that may happen at any time.
- Chain keys and SHA-256 keys are tuples; that the digests do not collide is assumed.
- Smart seats: how candidate seats and timelines are collected (sampling of sub-windows, clipping, caching) is the input of the planner; an error while combining seats, after which only one-seat plans remain, is not modelled. The window is non-empty, as the request check ensures.
- Smart seats: the validity of a date depends on the clock and is a parameter; the expiry of stored groups is an unsuccessful load.
- SmartSeatBooking.SeatService.Reserve: that a failure leaves the bookings from before untouched is stated only if none of the segments was booked by the student before and the school lists what is live; the rollback matches by seat and time, so it may cancel an older booking of the same segment. What is cancelled from a listing that is not exact, `Rollback` says.
- SmartSeatPlans.BuildPlans: does not say that every seat free throughout appears among the plans; repeated candidates can take up the room. `SingleSeatPlans` and `RankPlans` say what holds.
- Week lists: numbers at the upper end of 64 bits, for which the loops of both crawlers would overflow; weeks above 64 have no bit and are covered. Weekday and section parsing are left out.
- TaskGate.NextGrant: intervals are positive; with an interval of zero the finish callback deletes the entry and nothing is limited.
- Student identifiers are checked as ASCII text (the validity of their encoding is not modelled); case and surrounding space are those of ASCII wherever texts are compared without regard to them.
- TeamInvitations: the outbox only grows here; sending and cleaning up its rows is not modelled. A commit without acknowledgement is an internal error, after which the rows may or may not be there. Discussion tokens, the concurrency limit and the availability switches are parameters.
- AwayReminders: the start and end reminders share tables with the away reminders but have their own keys, and are left out; so are the payload and time-window checks of the sender, which can only suppress a row. Which rows are due or stale is a choice of the run.
- Reminders of away rows are not guaranteed to be sent: switching notifications off and on during an absence suppresses the row for good, since its key is taken. Only what may be sent is modelled.
- FeedBroadcast: the library preference check of a single publication is left out, because scheduled messages are not library messages; a missing key of a single publication, which gets a random one, likewise. Users are never deleted from the table and appear in the order of their ids; a registration that commits late with a smaller id, behind the cursor, would be missed.
- FeedConsumer: one partition; the skip entries of the others are a number that can change at any time. A message is sound or not; the individual checks of its fields are not modelled.
- PushDelivery: one delivery and its event; loading of targets and the choice of due rows are arbitrary. Which deliveries are due when the list is read is an input.
