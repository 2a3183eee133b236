# Car-service booking bot: a verified model of its scheduling core

This project models the part of a Telegram booking bot for a car workshop that
decides when a customer can be booked and what is written when they are. It
covers three pieces.

1. **The free-slot generator.** `get_free_slots` in `bot.py` looks at the 14 days from
   tomorrow 00:00, keeps Monday to Friday, walks the half hours 08:00 … 17:30
   of each day, and keeps a slot that overlaps no busy interval of the
   calendar. It stops after 10 slots. The older generator in
   `calendar_test.py` has the same loop, with three differences. It starts
   at today 08:00 and runs through the eighth day inclusive. It writes the
   overlap test the other way round. It has no cap.
2. **The booking negotiation.** `slot_selected` repeats the free/busy query
   for the chosen half hour. On an overlap it sends the customer back to
   choose again and writes nothing. Otherwise it inserts the calendar event
   and then appends one nine-cell row to the ledger sheet. The append, the
   operator message and the confirmation are outside the handler's `try`. When
   one of them raises, the conversation stays in the slot choice.
3. **The dialogue.** The handlers `get_auto`, `get_year`, `get_vin`,
   `get_telefon` and `get_opis` each validate one answer. On success they
   store it and move to the next state. On refusal they stay in their
   state. `conv_handler` routes the updates.

Timestamps are whole minutes since 1970-01-01 00:00 on the Warsaw wall
clock, already normalised. Day `d` covers minutes `[1440·d, 1440·(d+1))`,
and day 0 was a Thursday. The clock, the calendar API, the spreadsheet and
the date formatting are parameters:

- a free/busy answer is `Ok(entries)` or `Fail`;
- an entry whose timestamp does not parse is `None`;
- whether each remote call of the booking goes through (the overlap
  reply, the insert, the append, and the operator message with the
  confirmation) is a boolean;
- the two formatted times of the ledger row are strings.

Modules:

- `Wrappers`: `Option`.
- `Text`: `str.strip`, `str.upper`, `isdigit`/`int` and `str(n)`.
- `Slots`: the calendar arithmetic and the reference list of free slots `FreeDays`, with its properties.
- `FreeSlots`: the bot's generator, as methods with loops proved against `FreeDays`.
- `CalendarTest`: the older generator.
- `Booking`: the revalidation, the negotiation, and the calendar and ledger as a `Backend` object the booking method writes to.
- `Validators`: the four input checks.
- `Dialogue`: routing and handlers as functions, with the invariant "the stored answers passed their checks and the state's earlier answers are there". A `Session` class holds `state` and `user_data` and has one method per handler.

Where the design of the system and the code disagree, the model follows the
code. The design has three points the code does not follow.

- **Fail-safe revalidation.** The design says a booking must never be
  committed without a successful revalidation. The code only logs an
  exception from the repeated query or from reading its answer. It then
  appends the ledger row and ends the conversation. An exception from the
  calendar insert, or from sending the overlap reply, is treated the same
  way. `Booking.FailureStillBooks` and `Booking.EffectWrites` state this
  behaviour.
- **Offered slots only.** The design says the selected slot must be one of
  those offered. The code accepts any button data that starts like an ISO
  date (`^\d{4}-\d{2}-\d{2}T`). `Dialogue.Route` states this.
- **Error kinds.** The design has separate error kinds for a failed commit
  and a failed ledger write. The code has no such kinds. A ledger append
  that raises escapes the handler after the event may have been written.
  The calendar then has an event with no row, and the conversation stays in
  the slot choice. `Booking.VerdictAndWrites` states this.

## Model

| member | source | states |
|---|---|---|
| Slots.WorkingDaysRepeatWeekly | calendar_test.py:19-20 | a day is a working day (weekday() < 5) exactly when the same day a week later is; counted from its Monday, the first five days of every week are working days and the last two are not |
| Slots.FreeDays | bot.py:794-810 | every slot of the window's list is free; `FreeDaysMembers`, `FreeDaysSorted` and `FreeDaysListsAll` state which slots it holds and in what order |
| Slots.WorkingDayFree | bot.py:795-809 | a day that contributes a slot is Monday–Friday, and the slots it contributes are free; `WorkingDayFreeMembers` states which |
| Slots.DayFree | bot.py:799-809 | every slot of the day's list is free; `DayFreeMembers` and `DayFreeSorted` state which slots it holds and in what order |
| Slots.Take | bot.py:607 | `slots[:10]` is a prefix of the list, of length 10 or the whole list when shorter |
| Slots.IsFreeCons | bot.py:800-803 | a slot is free of `[b] + rest` iff it does not conflict with b and is free of rest (the `any` over the busy list) |
| Slots.RulesAgree | bot.py:659-662 | for non-empty intervals the revalidation's crossing test and the generator's `max < min` test agree |
| Slots.TouchingIsNoConflict | bot.py:799-805 | a busy interval that only touches a slot at an endpoint is no conflict under either rule, so the slot is kept |
| Slots.DegenerateBusyIntervalSplitsRules | calendar_test.py:47-50 | an empty or inverted busy interval (its end not after its start) lying within a slot blocks it under the crossing test but not under `max < min` |
| Slots.DayFreeMembers | bot.py:799-809 | a slot is among a day's free slots up to a boundary iff it is one of that day's half-hour boundary slots inside 08:00–18:00, ends by the boundary, and is free |
| Slots.DayFreeSorted | bot.py:799-809 | a day's free slots come out in strictly increasing start order |
| Slots.WorkingDayFreeMembers | bot.py:795-809 | a day contributes a slot iff the day is Monday–Friday and the slot is one of its free boundary slots |
| Slots.FreeDaysMembers | bot.py:794-810 | a slot is in the window's list iff it is a candidate of the window (working day in range, 30 minutes, on a boundary, in 08:00–18:00) and free |
| Slots.FreeDaysSorted | bot.py:794-810 | the window's list is strictly increasing across days |
| Slots.DayFreeStep | bot.py:799-809 | moving the day's boundary on by 30 minutes appends exactly the next slot when it is free, and nothing otherwise |
| Slots.DayFreePrefix | bot.py:799-809 | scanning a day further only extends its list |
| Slots.FreeDaysPrefix | bot.py:794-810 | scanning more days only extends the window's list |
| Slots.FreeDaysListsAll | bot.py:794-810 | the window's list holds only free candidates, in order, and every free candidate of the window |
| Slots.TakeFreeDaysIsFirst | bot.py:794-810 | the first m of the window's list are at most m free candidates, in order, with no free candidate missing before the last one (none at all when fewer than m) |
| Slots.DayFreeNoBusy | calendar_test.py:42-55 | with no busy interval the first k boundaries of a day give exactly the first k slots |
| Slots.SlotsOfDayConflict | bot.py:801 | two boundary slots of one day conflict iff they are the same slot |
| Slots.DayFreeOneBusySlot | calendar_test.py:42-55 | with one busy boundary slot j < k, scanning k boundaries gives the k−1 other slots in order |
| Slots.DayFreeBefore | calendar_test.py:42-55 | a busy slot at or after the k-th boundary leaves the first k slots all free |
| Slots.WorkingDayScenarios | calendar_test.py:39-55 | an empty busy list gives exactly the 20 slots 08:00 … 17:30 of a working day; a busy 09:00–09:30 removes exactly that one |
| FreeSlots.ParseBusyMembers | bot.py:770-788 | an interval is among the parsed busy intervals iff an entry with both timestamps parseable gives it |
| FreeSlots.SkipUnparsable | bot.py:787-788 | an entry with an unparsable timestamp is skipped and the parse carries on |
| FreeSlots.ParseBusyLength | bot.py:770-788 | parsing never adds entries, and keeps them all iff every timestamp parses |
| FreeSlots.ParseIntervals | bot.py:769-788 | the parsing loop yields the parsed busy list |
| FreeSlots.ScanStopped | bot.py:807-808 | stopping the day's scan once 10 slots are found gives the first 10 of the list the full scan would have made |
| FreeSlots.ScanDay | bot.py:796-809 | the inner loop appends the day's free slots until 10 are held: the result is the first 10 of the old list followed by the day's free slots |
| FreeSlots.GetFreeSlots | bot.py:744-812 | a failed query gives []; otherwise the result is the first 10 of the free slots of days tomorrow … tomorrow+13, and so at most 10 free candidates, in order, with none missed before the last |
| CalendarTest.WalkDay | calendar_test.py:42-55 | the inner loop appends exactly the day's free slots under the crossing test and leaves the cursor at 18:00 |
| CalendarTest.GetFreeSlots | calendar_test.py:32-58 | the result is the free slots of today … today+7 under the crossing test with no cap: only free candidates, in order, and all of them |
| CalendarTest.StartsAtEightToday | calendar_test.py:33-40 | on a working day with an empty calendar the first slot is today 08:00, whatever the time of day now is |
| Booking.EventFor | bot.py:634-646 | the event starts at the parsed slot start and lasts 30 minutes; its title holds the phone number, and its description holds the vehicle, the year, the VIN and the problem |
| Booking.Revalidate | bot.py:659-662 | when every timestamp parses, the revalidation does not raise; `RevalidateParsed` and `SkipsLaterEntries` state its answer |
| Booking.Negotiate | bot.py:656-678 | a conflict needs a successful query and a sent overlap reply, and an event needs a successful query and insert; the lemmas below state every case |
| Booking.VerdictOf | bot.py:664-710 | the customer chooses again exactly on a conflict, and the conversation ends only when the append, the operator message and the confirmation all go through |
| Booking.LedgerRow | bot.py:680-686 | the row has 9 cells: the creation time second, the slot text eighth and "Nowe" last; `LedgerRowShape` states the rest |
| Booking.Effect | bot.py:664-686 | the handler only appends: earlier events, rows and writes stay, and at most one event and one row are added; `EffectWrites` states which |
| Booking.RevalidateParsed | bot.py:659-662 | when every timestamp parses, the revalidation reports an overlap iff some busy interval crosses the slot |
| Booking.SkipsLaterEntries | bot.py:660 | an entry starting at or after the slot's end is passed over without reading its end |
| Booking.RevalidationTestIsGeneratorTest | bot.py:659-662 | the written test `b_start < slot_end and b_end > slot_start` is the generator's `max < min` test on non-empty intervals |
| Booking.FreeAtGenerationIsCommitted | bot.py:656-675 | a slot the generator found free passes a revalidation whose answer is drawn from the same busy set, and is committed, with an event exactly when the insert goes through |
| Booking.OverlapIsConflict | bot.py:659-672 | an entry crossing the slot, with every entry before it parseable, makes the negotiation a conflict when the overlap reply is sent, and a commit without an event when sending it raises |
| Booking.FailureStillBooks | bot.py:656-686 | a failed query, a revalidation that raises, or an overlap reply that raises still commits the booking, without a calendar event |
| Booking.EventWrittenIff | bot.py:656-678 | the event is written iff the query succeeded, found no overlap and the insert went through; a conflict iff the query succeeded, found an overlap and the reply was sent |
| Booking.LedgerRowShape | bot.py:680-686 | the row has 9 cells: the earlier row count as a decimal string that reads back as that count, the creation time, the five answers, the slot text and "Nowe" |
| Booking.EffectWrites | bot.py:664-686 | on a conflict nothing is written; otherwise the earlier rows and writes stay, the event (when written) is inserted first, and the row is appended as the last write exactly when the append goes through |
| Booking.VerdictAndWrites | bot.py:664-710 | choosing again writes nothing; ending the conversation means exactly one row was appended; when an exception escapes, the row is missing exactly when the append raised, and an event written before it stays |
| Booking.Backend.constructor | bot.py:675-686 | the calendar and ledger start with the given contents and no writes |
| Booking.Backend.InsertEvent | bot.py:675 | the event is appended to the calendar and logged; the ledger is unchanged |
| Booking.Backend.AppendRow | bot.py:680-686 | the row is appended to the ledger and logged; the calendar is unchanged |
| Booking.SelectSlot | bot.py:631-710 | the verdict is the handler's outcome for the negotiation and the remote calls (choose again, end, or an exception that escapes), and the calendar and ledger become exactly the negotiation's effect |
| Validators.CheckVehicle | bot.py:459-492 | an accepted vehicle is a letters-only make and a letters-or-digits model; `VehicleSound`, `VehicleAccepted` and the refusal lemmas state the rest |
| Validators.FirstSpace | bot.py:463 | the index is the first white-space position, or the length when there is none |
| Validators.SplitOnce | bot.py:463 | `split(maxsplit=1)` gives at most two parts |
| Validators.SplitOnceOf | bot.py:463 | a word, white space and a rest that starts with non-space split into exactly that word and that rest |
| Validators.SplitOnceOneWord | bot.py:463-471 | a single padded word strips to itself and splits into one part |
| Validators.SplitOnceTwoParts | bot.py:463-473 | when a stripped input splits in two, it is the first part, a run of white space, and the second part |
| Validators.VehicleAccepted | bot.py:459-493 | a padded letters-only make, white space and a letters-or-digits model are accepted as that make and model |
| Validators.OneWordRefused | bot.py:463-471 | a single word is refused as not two words |
| Validators.MakeRefused | bot.py:475-482 | a make with a non-letter is refused for the make |
| Validators.ModelRefused | bot.py:484-491 | a letters-only make with a model holding anything but letters and digits is refused for the model |
| Validators.VehicleSound | bot.py:459-493 | an accepted vehicle is a letters-only make and a letters-or-digits model, and the stripped input is exactly make, white space, model |
| Validators.StoredVehicleAccepted | bot.py:493 | the stored "make model" is accepted again as the same make and model |
| Validators.VehicleExampleAccepted | bot.py:463-493 | "Audi A4", with any padding and separator, is accepted |
| Validators.VehicleExampleOneWord | bot.py:463-471 | "Audi" alone is refused as one word |
| Validators.VehicleExampleBadMake | bot.py:475-482 | "Audi4 A4" is refused for the make |
| Validators.VehicleExampleBadModel | bot.py:484-491 | "Audi A-4" is refused for the model |
| Validators.CheckYear | bot.py:508-518 | an accepted year is four digits worth at least 1990, no longer than the message; `CheckYearIff` states both directions |
| Validators.YearIsNumberFrom1990 | bot.py:511 | an accepted year is a number from 1990 to 9999 written without a leading zero |
| Validators.NumberFrom1990IsYear | bot.py:511 | every number from 1990 to 9999, written out, is an accepted year |
| Validators.CheckYearIff | bot.py:508-520 | the year is accepted iff the stripped input is four digits worth at least 1990, and the stripped input is what is stored |
| Validators.YearExamples | bot.py:511 | "2015" is accepted; "89", "1980" and "20155" are refused |
| Validators.CheckVin | bot.py:531-541 | an accepted VIN is 17 VIN characters with no lower-case letter; `VinAccepted`, `VinRefusesIOQ` and `VinIdempotent` state the rest |
| Validators.VinCharIff | bot.py:534 | `[A-HJ-NPR-Z0-9]` is the upper-case letters and the digits without I, O and Q |
| Validators.VinRefusesIOQ | bot.py:531-541 | an input holding I, O or Q in either case is refused |
| Validators.VinIdempotent | bot.py:531-543 | the stored VIN is valid and is accepted again as itself |
| Validators.VinAccepted | bot.py:531-543 | a padded input whose upper case is 17 VIN characters is accepted as its upper case |
| Validators.VinExample | bot.py:531-543 | "1hgcm82633a004352" is accepted and stored as "1HGCM82633A004352" |
| Validators.CheckPhone | bot.py:577-587 | an accepted number matches `^\+?\d{9,15}$` and is no longer than the message; `PhoneShape` and `PhoneAccepted` state the pattern |
| Validators.PhoneShape | bot.py:580 | `^\+?\d{9,15}$`: 9–15 digits, or a plus sign and then 9–15 digits |
| Validators.PhoneAccepted | bot.py:580 | 9–15 digits are accepted with and without a leading plus |
| Validators.PhoneExamplesAccepted | bot.py:580 | "+48123456789" and "123456789" are accepted |
| Validators.PhoneExamplesRefused | bot.py:580 | 8 digits, 16 digits, a lone plus and a number with spaces are refused |
| Text.Strip | bot.py:460 | `strip()` never lengthens its input; `StripPadded`, `StripIsTrimmed` and `StripTrimmedIsIdentity` state what it removes |
| Text.StripPadded | bot.py:460 | stripping removes exactly the white-space padding around a trimmed core |
| Text.StripIsTrimmed | bot.py:460 | a stripped string has no white space at either end |
| Text.StripTrimmedIsIdentity | bot.py:460 | stripping a string with no white space at either end changes nothing |
| Text.Upper | bot.py:531 | upper-casing keeps the length and leaves no lower-case letter; each lower-case letter becomes the upper-case letter at the same place in the alphabet, and every other character stays |
| Text.UpperIdempotent | bot.py:531 | upper-casing twice is upper-casing once |
| Text.NatToStringRoundTrip | bot.py:681 | `str(n)` is a digit string without a superfluous leading zero that reads back as n |
| Text.DigitsValueRoundTrip | bot.py:511 | a digit string without a leading zero is what `str` prints for its value |
| Dialogue.Route | bot.py:978-989 | the entry handler takes exactly a "zapis" press outside the conversation; the booking handler takes exactly a press in the selection state whose data starts like an ISO date; the text handlers take only messages that are not commands |
| Dialogue.StoredAnswersValid | bot.py:493-600 | every value a handler stores (lines 493, 520, 543, 589 and 600) passes the check its field needs |
| Dialogue.OnAuto | bot.py:459-501 | `get_auto` either refuses and changes nothing, or moves to the year question with the vehicle stored; no other answer changes |
| Dialogue.OnYear | bot.py:507-528 | `get_year` either refuses and changes nothing, or moves to the VIN question with the year stored; no other answer changes |
| Dialogue.OnVin | bot.py:530-551 | `get_vin` either refuses and changes nothing, or moves to the phone question with the VIN stored; no other answer changes |
| Dialogue.OnTelefon | bot.py:576-597 | `get_telefon` either refuses and changes nothing, or moves to the problem question with the number stored; no other answer changes |
| Dialogue.Offered | bot.py:601-607 | at most 10 slots are offered |
| Dialogue.OnOpis | bot.py:599-617 | the message is stored as it came, no other answer changes, and the slot choice follows exactly when some slot is offered (the conversation ends otherwise) |
| Dialogue.OnSlot | bot.py:631-710 | the booking never changes the answers; a change of state is the end of the conversation, after a parsed press whose append, operator message and confirmation went through |
| Dialogue.Next | bot.py:978-989 | an update no handler takes changes nothing, and the slot choice is reached only from the problem question |
| Dialogue.OnAutoKeepsInvariant | bot.py:459-501 | `get_auto` keeps the invariant |
| Dialogue.OnYearKeepsInvariant | bot.py:507-528 | `get_year` keeps the invariant |
| Dialogue.OnVinKeepsInvariant | bot.py:530-551 | `get_vin` keeps the invariant |
| Dialogue.OnTelefonKeepsInvariant | bot.py:576-597 | `get_telefon` keeps the invariant |
| Dialogue.OnOpisKeepsInvariant | bot.py:599-617 | `get_opis` keeps the invariant, whether it ends or offers slots |
| Dialogue.OnSlotKeepsInvariant | bot.py:631-710 | `slot_selected` keeps the invariant |
| Dialogue.NextKeepsInvariant | bot.py:978-989 | every update, however routed, keeps the invariant |
| Dialogue.BookedRequestValid | bot.py:637-686 | in the selection state the request to be booked has an accepted vehicle, year, VIN and phone |
| Dialogue.RefusalAsksAgain | bot.py:459-597 | a refused vehicle, year, VIN or phone leaves state and answers exactly as they were |
| Dialogue.UnroutedIsIgnored | bot.py:978-989 | a command, or a press no handler takes, changes nothing |
| Dialogue.AnswersReachSlotChoice | bot.py:459-617 | five accepted answers in a row lead from the vehicle question to the slot choice with exactly those answers stored, when a slot is free |
| Dialogue.SlotChoiceEnds | bot.py:631-710 | a parsed slot press ends the conversation exactly when the negotiation is no conflict and the append, the operator message and the confirmation go through; otherwise nothing changes |
| Dialogue.PatternExamples | bot.py:979-986 | an ISO timestamp matches the slot pattern; "zapis" does not, but is the entry press, and "zapisz" is not |
| Dialogue.Session.constructor | bot.py:978-989 | a new session is outside the conversation with no answers |
| Dialogue.Session.GetAuto | bot.py:459-501 | state and answers become `get_auto`'s outcome and the invariant holds |
| Dialogue.Session.HandleZapis | bot.py:503-505 | the entry press runs `get_auto` on the text of the menu message that carries the button |
| Dialogue.Session.GetYear | bot.py:507-528 | state and answers become `get_year`'s outcome and the invariant holds |
| Dialogue.Session.GetVin | bot.py:530-551 | state and answers become `get_vin`'s outcome and the invariant holds |
| Dialogue.Session.GetTelefon | bot.py:576-597 | state and answers become `get_telefon`'s outcome and the invariant holds |
| Dialogue.Session.GetOpis | bot.py:599-617 | the raw text is stored; the conversation ends when the generator returns nothing, else the starts of at most 10 generated slots, in order, are offered |
| Dialogue.Session.SlotSelected | bot.py:631-710 | an unparsable callback changes nothing; otherwise the backend receives exactly the negotiation's effect, and the conversation ends exactly when `OnSlot` says |
| Dialogue.Session.Step | bot.py:978-989 | one update moves the session as `Next` says; only the booking handler writes to the calendar or ledger, and for a parsed slot press they receive exactly the negotiation's effect (nothing when the press does not parse) |

## Left out

- Telegram plumbing is not modelled: menus, keyboards, `start`, the language choice, `button_handler`, and the bot commands and app wiring. It is user interface and transport. The reply texts and the `lang` key of `user_data` are dropped with it.
- The spreadsheet and subscriber glue is not modelled: subscriptions, promotions, contacts and news. None of it takes part in booking.
- The AI diagnostic chat proxy and `reset_command` are not modelled. They are calls to a foreign model, and the reset touches only the assistant's state.
- The content of the operator notification (bot.py:688-700) and of the confirmation (bot.py:702-709) is not modelled; whether they go through is one boolean of the remote calls. The model does not tell a missing `ADMIN_CHAT_ID` from a message that went through, nor an `int(ADMIN_CHAT_ID)` that raises from a failed send.
- Time zones are not modelled. All timestamps are already-normalised wall-clock minutes, and every day has 1440 minutes (no daylight-saving change).
- The pytz offset that `datetime.combine(..., tz)` attaches (bot.py:796-797) is not reproduced, and neither are naive/aware comparison errors. In the revalidation such an error is caught by the handler's `except` (bot.py:676-677). The model has it as a revalidation that gives no answer, and the booking then goes on without an event (`Booking.FailureStillBooks`). In `calendar_test.py` the busy list is given already parsed.
- `calendar_test.py`'s `get_busy_slots` is not modelled. It is a network call, so the older generator takes its busy intervals as a parameter.
- The earlier `slot_selected` stub (bot.py:80-88) and the first `get_telefon` (bot.py:553-574) are not modelled. Python's redefinition replaces them; the second `get_telefon` validates in the same way.
- The race between revalidation and insert across concurrent customers is not modelled. It is concurrency, and the code does nothing against it.
- The clock, `strftime` and `isoparse` are parameters. Today's day number, the creation time, the slot's text and the parsed callback (absent when parsing raises) are given.
- Booking.EventFor: the event's start and end are the slot's minutes, not ISO strings with a time zone.
- Dialogue.Session.GetOpis: the buttons are represented by the slot starts, without their `%d.%m %H:%M` labels and `isoformat()` data.
- Booking.SelectSlot: an insert that raises writes no event, and an append that raises writes no row. Whether the remote service kept a partial write is not modelled. `get_all_values` failing is folded into the append failing.
- Dialogue.OnSlot: a failure of `query.answer()` (bot.py:633) is folded into an unparsable callback; both leave the state as it is.
- Dialogue.Session.HandleZapis: the entry press's `query.answer()` (bot.py:504) is taken to go through. When it raises, `get_auto` never runs and the state stays as it was; the model always applies `get_auto`.
- Dialogue.Next: the replies after a stored answer (bot.py:500, 527, 550, 596, 603 and 616) are taken to go through. When one raises, the code keeps the stored answer but not the new state; the model does not capture that.
- Text.Upper: digits, `isdigit` and `upper` are the ASCII ones; the Unicode digits and case mappings Python also accepts are not modelled.
- Dialogue.IsCommand: `filters.COMMAND` is approximated as a message starting with `/`, and `filters.TEXT` as every text message.
- Dialogue.Route: the `/start` fallback is treated as leaving the state as it is.
- The `user_data` keys other than the five answers (the language, the assistant history) are not modelled.
