# Client bookings: a verified model of the page rules

This project models, in Dafny, the rules underneath the pages of a small
bookings application for a beauty or health studio: a day view that shows
the booked and free parts of a work day, a booking form, a service
catalogue, a statistics page and a client list, plus the hour/minute time
picker they share. The pages talk to a hosted database; the model takes
what the database returns as an input (a list of rows, or a success or
failure reply) and proves what the pages do with it.

The modules follow the program:

- `TimeText`: JavaScript's handling of time strings. This covers
  `split(":")`, `Number` on a field, `slice(0, 5)`, `padStart(2, "0")`,
  the day view's `toMin`, `lt` and `diffMin`, the booking page's `toSec`,
  and the statistics page's `diffMinutes`.
- `TimeField`: the time picker's parse, its option arrays and its two
  `onChange` handlers.
- `DaySchedule`: the `slots` computation of the day view. It is a
  specification function plus the imperative loop proved against it, with
  times as integer minutes.
- `OverlapGuard`: the half-open overlap filter the day view and the
  booking page both send to the database.
- `DayView`, `Booking`, `SettingsServices`, `Stats` and `Clients`: one
  module per page.
  - Pure rules are functions.
  - Page state that handlers update in place is a class: the day view's
    `items`, the booking form, the catalogue's create form and list, and
    the client page.
- Shared helpers:
  - `Strings`: `trim`, `norm`, truthiness, `includes`, lower-casing.
  - `PriceText`: `Number` on a price field and `String` of a price.
  - `Lists`: `map`/`filter`/`reduce`/`findIndex` and id de-duplication.
  - `Sorting`: `Array.prototype.sort` with a comparator, modelled as a
    stable insertion sort.
  - `OrderedMaps`: a JavaScript `Map`, with insertion order and distinct
    keys.
  - `Records`: the database rows.
  - `Optional`: `null`/`undefined`.

The model follows the code, including these behaviours a reader may not
expect:

- `byStart` compares start times only; there is no tie-break by end time,
  and appointments with the same start keep their order.
- `toMin` yields NaN for an hour field that does not read as a number,
  instead of failing; a minute field that does not read becomes 0
  (`m || 0`); neither range is checked.
- A failed overlap query lets the day view's add and edit through.
  `overlaps || []` treats it as an empty answer. The booking page refuses
  the write instead.
- `slots` also accepts an empty or inverted work day, and then emits no
  gap.
- The overlap rejection carries only a message, not the conflicting
  interval.

## Model

| member | source | states |
|---|---|---|
| TimeText.Split | src/components/TimeField.jsx:5 | `split(":")` always yields at least one field |
| TimeText.SplitJoin | src/components/TimeField.jsx:5 | splitting loses nothing: joining the fields with ":" gives the text back, and no field contains a colon |
| TimeText.SplitConcat | src/components/TimeField.jsx:5 | a colon between two texts separates their fields: the split of `a:b` is the split of `a` followed by the split of `b` |
| TimeText.T5 | src/pages/DayView.jsx:24 | `t5` keeps at most the first five characters |
| TimeText.T5OfHhMmSs | src/pages/DayView.jsx:24 | `t5` of a database time "HH:MM:SS" is the picker's "HH:MM" |
| TimeText.ToMinOfHhMm | src/pages/DayView.jsx:25-28 | `toMin` reads "HH:MM" and "HH:MM:SS" as `h*60+m`, ignoring the seconds |
| TimeText.ToMinHourOnly | src/pages/DayView.jsx:27 | a missing minute field counts as 0: "H" reads as `h*60` |
| TimeText.ToMinWithSeconds | src/pages/DayView.jsx:335 | appending ":00" before a write does not change what `toMin` reads |
| TimeText.DiffMin | src/pages/DayView.jsx:30 | `diffMin` is a number exactly when both ends are, and then equals `toMin(b) - toMin(a)` |
| TimeText.ToSecOfHhMm | src/pages/Booking.jsx:28-32 | `toSec` reads "HH:MM" as `h*3600+m*60` |
| TimeText.DiffMinutes | src/pages/Stats.jsx:16-21 | 0 when a bound is missing or empty; a numeric result is never negative |
| TimeText.DiffMinutesOfHhMmSs | src/pages/Stats.jsx:16-21 | over two database times, the result is the non-negative minute difference of their "HH:MM" prefixes (0 if the end is earlier) |
| TimeText.Decimal | src/components/TimeField.jsx:10 | `String(n)` of a natural number is a non-empty digit string |
| TimeText.DecimalValue | src/components/TimeField.jsx:10 | the digits of `String(n)` read back as `n` |
| TimeText.Pad2 | src/components/TimeField.jsx:11 | a zero-padded number is all digits and holds no colon |
| TimeText.Pad2Value | src/components/TimeField.jsx:11 | zero padding does not change the number read back |
| TimeText.Pad2Order | src/pages/DayView.jsx:33-34 | two padded numbers below 100 compare as text as they compare as numbers |
| TimeText.HhMmSsOrder | src/pages/DayView.jsx:33-34 | `byStart`'s string comparison orders "HH:MM:SS" times by hour, then minute, then second |
| TimeText.ByStartAgreesWithMinutes | src/pages/DayView.jsx:33-34 | for times the pages write, the text order is the order of the minute values `toMin` gives, so integer minutes model `byStart` |
| TimeText.TextLessConcat | src/pages/DayView.jsx:33-34 | text comparison of same-length prefixes decides first, then the rest |
| TimeField.Parse | src/components/TimeField.jsx:5 | an absent value reads as hour 0, minute 0; a present value always has an hour field |
| TimeField.ParseHhMm | src/components/TimeField.jsx:5 | a value the picker wrote reads back as its own hour and minute |
| TimeField.EmptyValueMinute | src/components/TimeField.jsx:5 | an empty (not absent) value has hour 0 and no minute. Its hour select then emits the text of `undefined` as the minute |
| TimeField.HoursAreADay | src/components/TimeField.jsx:6 | the hour options are exactly 0 to 23, each once, ascending |
| TimeField.CeilDiv60Bounds | src/components/TimeField.jsx:7 | `ceil(60/step)` steps reach 60, and one fewer does not |
| TimeField.MinutesFacts | src/components/TimeField.jsx:7 | the minute options are `0, step, 2*step, …`. They ascend, all are below 60, and there are `ceil(60/step)` of them, so every multiple of `step` below 60 is offered |
| TimeField.HourChangeKeepsMinute | src/components/TimeField.jsx:10 | changing the hour keeps the minute (0 with no value); the result is "HH:MM", two padded fields that `toMin` reads as `hour*60+m` |
| TimeField.MinuteChangeKeepsHour | src/components/TimeField.jsx:14 | changing the minute keeps the hour, with the same "HH:MM" shape |
| DaySchedule.ByStart | src/pages/DayView.jsx:33-34 | the comparator's sign is the order of the start times |
| DaySchedule.StartLeTotal | src/pages/DayView.jsx:415 | the start-time order is total, so the sorted copy is sorted |
| DaySchedule.SameStartKeepsOrder | src/pages/DayView.jsx:33-34 | appointments with the same start come out of the sort in their loaded order, as `byStart` has no tie-break |
| DaySchedule.Slots | src/pages/DayView.jsx:411-439 | the loop computes the segment list the specification defines; an empty day gives one gap `[start, end)` when start < end, and nothing otherwise |
| DaySchedule.WalkSorted | src/pages/DayView.jsx:423-437 | the loop over the sorted appointments, moving the cursor to each end, yields the specified segments |
| DaySchedule.AfterLeadStep | src/pages/DayView.jsx:426-434 | one loop turn emits the appointment and then the gap before the next one |
| DaySchedule.LoopStep | src/pages/DayView.jsx:426-434 | one loop turn keeps the invariant "emitted so far, then what remains" |
| DaySchedule.GapsPositive | src/pages/DayView.jsx:420 | every emitted gap has `from < to`: no zero-length or inverted gap |
| DaySchedule.WalkGapsPositive | src/pages/DayView.jsx:433 | the loop's gaps all have `from < to` |
| DaySchedule.BookingsAppend | src/pages/DayView.jsx:426 | the appointments of a joined segment list are those of the parts, in order |
| DaySchedule.WalkBookings | src/pages/DayView.jsx:426-427 | the loop emits each sorted appointment once, in order |
| DaySchedule.EachAppointmentOnce | src/pages/DayView.jsx:415 | the booked segments are a permutation of the day's appointments, in ascending start order |
| DaySchedule.WalkLinked | src/pages/DayView.jsx:428-434 | every gap ends where the next segment starts, and a gap follows a booking at the booking's end |
| DaySchedule.GapBetweenBookings | src/pages/DayView.jsx:428-434 | a gap separates two consecutive bookings exactly when the first ends strictly before the second starts. It is then `[end, start)`, and back-to-back bookings are adjacent |
| DaySchedule.WalkCovers | src/pages/DayView.jsx:423-437 | for chained appointments, the loop's segments run from the cursor to the work-day end without a hole or an overlap |
| DaySchedule.Coverage | src/pages/DayView.jsx:411-439 | for non-overlapping appointments inside `[start, end)`, the segments partition the work day exactly: they start at `start`, end at `end`, meet end to start, and none is empty |
| OverlapGuard.OverlapRows | src/pages/DayView.jsx:327-334 | the query returns exactly the rows, other than the excluded id, with `start_time < end` and `end_time > start` |
| OverlapGuard.FreeIff | src/pages/DayView.jsx:335 | the guard lets a write through exactly when no considered row conflicts |
| OverlapGuard.ConflictIffSharedMinute | src/pages/Booking.jsx:217-223 | for non-empty intervals, a conflict is sharing a minute of `[start, end)` |
| OverlapGuard.BackToBack | src/pages/Booking.jsx:217-223 | an interval that starts at another's end, or ends at its start, does not conflict |
| OverlapGuard.NoConflictIsDisjoint | src/pages/DayView.jsx:510-511 | not conflicting with the candidate is being disjoint from it |
| OverlapGuard.AddKeepsDisjoint | src/pages/DayView.jsx:504-514 | adding an appointment the guard accepted (nothing excluded) keeps a day without overlaps free of overlaps |
| OverlapGuard.EditKeepsDisjoint | src/pages/DayView.jsx:327-338 | replacing the edited appointment (its own id excluded) keeps the day free of overlaps when ids are unique |
| DayView.WorkBound | src/pages/DayView.jsx:173-174 | the work bound is the fallback or a non-empty text of at most five characters |
| DayView.WorkBoundOfDb | src/pages/DayView.jsx:173-174 | a stored "HH:MM:SS" gives its "HH:MM"; a missing or empty one gives the fallback |
| DayView.ValidTimeRangeOfHhMm | src/pages/DayView.jsx:311-314 | on picker values the range check is "start strictly before end"; an empty end is refused |
| DayView.ValidAdd | src/pages/DayView.jsx:484-494 | the client, category, time range and price are checked in that order, and the first failing check is the reason (each reason as an if-and-only-if) |
| DayView.ValidEdit | src/pages/DayView.jsx:318-325 | the time range is checked first, then the price |
| DayView.SaveAdd | src/pages/DayView.jsx:496-534 | the first failing check is the reason and stops the add before the query. A valid add is inserted exactly when no row of the date conflicts or the overlap query failed; an overlap refusal names a conflicting row. The payload carries the times with ":00", the price as a number or null, and status "scheduled" |
| DayView.SaveAddKeepsDayDisjoint | src/pages/DayView.jsx:504-514 | an add the guard let through leaves a day without overlaps free of overlaps |
| DayView.AddProceedsOnFailedQuery | src/pages/DayView.jsx:511 | a failed overlap query is read as no conflict: a valid add is inserted |
| DayView.SaveEdit | src/pages/DayView.jsx:316-348 | the first failing check stops the edit. A valid edit is sent exactly when no other row of the date conflicts or the overlap query failed; an overlap refusal names a conflicting row with another id. Its payload carries the date, both times with ":00", the price as a number or null, the note as typed, the category or null and the service id or null; no client or status |
| DayView.EditIgnoresItself | src/pages/DayView.jsx:332 | an edit never collides with the appointment being edited |
| DayView.SaveEditKeepsDayDisjoint | src/pages/DayView.jsx:327-338 | an edit the guard let through keeps a day without overlaps free of overlaps |
| DayView.EditedItemsFacts | src/pages/DayView.jsx:360-362 | after an edit the list is sorted by start and is a permutation of the mapped list. Other entries stay, and the saved row replaces exactly the entries with that id |
| DayView.AddedItemsFacts | src/pages/DayView.jsx:538 | after an add the list is sorted by start and is the old list plus the new row |
| DayView.WithStatusFacts | src/pages/DayView.jsx:393 | a status change touches only the status of the entries with that id |
| DayView.DayItems.constructor | src/pages/DayView.jsx:204 | the list starts as the loaded rows |
| DayView.DayItems.ApplyEdit | src/pages/DayView.jsx:360-363 | the list becomes the re-sorted edited list |
| DayView.DayItems.ApplyAdd | src/pages/DayView.jsx:538 | the list becomes the re-sorted list with the new row |
| DayView.DayItems.Remove | src/pages/DayView.jsx:373-388 | a cancelled confirmation changes nothing; once confirmed, the entries with the id are dropped, and a failed delete restores the previous list |
| DayView.DayItems.SetStatus | src/pages/DayView.jsx:390-408 | the status of the id changes; a failed update restores the previous list |
| DayView.SanitizeDays | src/pages/DayView.jsx:181-183 | the kept days are exactly the stored integers from 1 to 7; a missing array gives none |
| DayView.DaysFrom | src/pages/DayView.jsx:182 | the filter keeps exactly the integers from 1 to 7 |
| DayView.SanitizeCity | src/pages/DayView.jsx:178-184 | a missing name is empty, a missing colour is the default grey, and every kept day is from 1 to 7 |
| DayView.SanitizeCities | src/pages/DayView.jsx:176-185 | a non-array gives no cities; otherwise there is one sanitised city per stored entry |
| DayView.CityForIsoDay | src/pages/DayView.jsx:229-230 | a city is found exactly when some city lists the day, and it is the first such city |
| DayView.NoCityOutsideWeek | src/pages/DayView.jsx:182 | after sanitising, a day outside 1..7 belongs to no city |
| DayView.CurrentCityColor | src/pages/DayView.jsx:235 | the colour is never empty; it is the city's colour when that is set |
| DayView.ColorForAppt | src/pages/DayView.jsx:243-250 | the colour is never empty |
| DayView.ColorPriority | src/pages/DayView.jsx:243-250 | a coloured joined service wins; otherwise the first category row of the category decides, its colour or the grey when it has none, and with no such row the grey |
| DayView.ColorSource | src/pages/DayView.jsx:243-250 | the colour comes from the joined service, from a category row of the catalogue, or is the default |
| Booking.IsEmptyNameNormalised | src/pages/Booking.jsx:10-14 | normalising first changes nothing; an absent or all-blank name is empty |
| Booking.GetDefaultPrice | src/pages/Booking.jsx:15-27 | a default price is always some service's price: the selected sub-service's, or that of the category's unnamed row |
| Booking.DefaultPriceOrder | src/pages/Booking.jsx:15-27 | the first service with the selected id wins when it has a price. Failing that, the first unnamed row of the trimmed category decides: when it has no price there is no default, even if a later such row has one |
| Booking.NoSelectionNoPrice | src/pages/Booking.jsx:26 | with neither a sub-service nor a category there is no default |
| Booking.TimeRangeAgainstDayView | src/pages/Booking.jsx:28-33 | on picker values both pages accept the same ranges, but an empty start with a later end passes here and not in the day view |
| Booking.ValidateAppointment | src/pages/Booking.jsx:201-207 | client, category, time range, price, in that order; each reason as an if-and-only-if |
| Booking.SameVerdictAsDayView | src/pages/Booking.jsx:201-207 | on picker times the booking form and the day view's add form give the same verdict |
| Booking.AcceptedTimesRead | src/pages/Booking.jsx:28-33 | a range the page accepts reads as two numbers of minutes once ":00" is appended, an empty start included |
| Booking.Book | src/pages/Booking.jsx:209-245 | a failed check refuses with its reason; a failed overlap query refuses. A valid booking whose times parse is inserted exactly when no row of the date conflicts, with the payload built from the form; an overlap refusal means a row of the date conflicts |
| Booking.BookKeepsDayDisjoint | src/pages/Booking.jsx:217-232 | an inserted booking keeps a day without overlaps free of overlaps |
| Booking.NewClientPayload | src/pages/Booking.jsx:166-172 | the name is trimmed; phone and email are trimmed, or null when blank; the gender is kept |
| Booking.MergeClientFacts | src/pages/Booking.jsx:184-188 | after the merge no id appears twice, the new client's id is present, every old id stays, nothing new appears, and the list is sorted by name |
| Booking.MergeKeepsOldRows | src/pages/Booking.jsx:184-188 | an id the list already had keeps its old row; the returned client enters only with a new id |
| Booking.SortKeepsDistinct | src/pages/Booking.jsx:187 | sorting keeps distinct ids distinct |
| Booking.BookingForm.constructor | src/pages/Booking.jsx:46-84 | the initial form: 09:15 to 10:00 on the given day, no price, no client, no category |
| Booking.BookingForm.SelectCategory | src/pages/Booking.jsx:365-368 | choosing a category clears the sub-service and the price and marks the price unedited |
| Booking.BookingForm.SelectService | src/pages/Booking.jsx:390-394 | choosing a sub-service (empty is null) clears the price and marks it unedited |
| Booking.BookingForm.EditPrice | src/pages/Booking.jsx:443-444 | typing a price marks it edited |
| Booking.BookingForm.AutoPrice | src/pages/Booking.jsx:153-158 | with a workspace and an unedited price, a default price is written as `String(p)`; otherwise nothing changes |
| Booking.BookingForm.CreateAppointment | src/pages/Booking.jsx:209-262 | after a successful insert only the price, the note and the edited flag are reset; the date, times, client and category stay |
| Booking.BookingForm.Adopt | src/pages/Booking.jsx:184-192 | the merged list is taken, the new client selected, and the search and form cleared |
| Booking.BookingForm.CreateClient | src/pages/Booking.jsx:161-199 | a blank name is refused before any write. A created client is merged in and selected; a failed insert changes nothing |
| Booking.AutoPriceReadsBack | src/pages/Booking.jsx:157 | an auto-filled price, written with `String`, is sent as the same amount (the same cents) and is refused exactly when negative |
| PriceText.UnsignedValue | src/pages/Booking.jsx:205 | an unsigned decimal never reads as a negative amount |
| PriceText.UnsignedOfDecimal | src/pages/Booking.jsx:205 | digits, and digits with a point and a fraction, read as their value |
| PriceText.NumberOfUnpadded | src/pages/Booking.jsx:205 | a text without surrounding white space is read sign first |
| PriceText.MinusOf | src/pages/Booking.jsx:205 | a minus sign before a number negates it |
| PriceText.NumberOfDecimalText | src/pages/Booking.jsx:205 | `Number` of "i" and "i.f" is `i` and `i` plus the fraction |
| PriceText.NumberOfMinusDecimalText | src/pages/Booking.jsx:205 | `Number` of "-i" and "-i.f" is the negated value |
| PriceText.CentsOf | src/pages/SettingsServices.jsx:441 | a whole number of cents found in an amount is that amount times 100 |
| PriceText.CentsTextValue | src/pages/Booking.jsx:157 | `String(c / 100)` reads back as `c / 100` |
| PriceText.CentsTextUnpadded | src/pages/Booking.jsx:157 | `String(c / 100)` is non-empty and has no surrounding white space |
| PriceText.NumberOfCentsText | src/pages/Booking.jsx:157 | a price written with `String` reads back as the same amount and the same cents, and is negative exactly when the price is |
| PriceText.NegativeFractionRefused | src/pages/Booking.jsx:205 | "-2.5" is a negative price and is refused |
| PriceText.FractionSent | src/pages/Booking.jsx:242 | "35.50" is sent as 35.5 |
| PriceText.NegativeHasMinus | src/pages/Booking.jsx:205 | only a text whose trimmed form starts with "-" is negative |
| PriceText.BlankIsZero | src/pages/Booking.jsx:205 | a blank but non-empty price is 0: it passes the check and is stored as 0 |
| PriceText.NoSpaceDigits | src/pages/Booking.jsx:205 | a digit string contains no white space |
| SettingsServices.ValidHexIsNormal | src/pages/SettingsServices.jsx:148-150 | a valid colour has no surrounding white space, so checking the normalised text gives the same answer |
| SettingsServices.DefaultGrayValid | src/pages/SettingsServices.jsx:7 | the default grey passes the colour check |
| SettingsServices.ValidHexShape | src/pages/SettingsServices.jsx:148-150 | a valid non-empty colour is "#" followed by 3 or 6 characters; without the "#" or with one more digit it is refused |
| SettingsServices.KeysTotal | src/pages/SettingsServices.jsx:152-162 | for any comparator, one of two rows may precede the other |
| SettingsServices.CatalogueOrder | src/pages/SettingsServices.jsx:152-162 | the order is total. Within a category the unnamed row comes first; different categories are ordered by their lower-cased trimmed names |
| SettingsServices.Filtered | src/pages/SettingsServices.jsx:235-242 | the kept rows are exactly those whose lower-cased category or name contains the lower-cased query |
| SettingsServices.EmptyQueryKeepsAll | src/pages/SettingsServices.jsx:235-242 | an empty query keeps the list as it is |
| SettingsServices.RemoveAt | src/pages/SettingsServices.jsx:259 | only the row at index `i` is dropped, the others keep their order; an index outside the list changes nothing |
| SettingsServices.PatchAt | src/pages/SettingsServices.jsx:262 | only row `i` takes the patch |
| SettingsServices.CreateForm.constructor | src/pages/SettingsServices.jsx:245-251 | the form starts with empty fields and one empty row |
| SettingsServices.CreateForm.Reset | src/pages/SettingsServices.jsx:245-251 | reset leaves empty fields, an unchecked flag and one empty row |
| SettingsServices.CreateForm.AddRow | src/pages/SettingsServices.jsx:252-254 | one empty row is appended; nothing else changes |
| SettingsServices.CreateForm.RemoveRow | src/pages/SettingsServices.jsx:255-260 | after confirmation only row `i` is dropped; without it nothing changes |
| SettingsServices.CreateForm.SetRow | src/pages/SettingsServices.jsx:261-263 | only row `i` changes |
| SettingsServices.NormRows | src/pages/SettingsServices.jsx:327-332 | each row is normalised field by field, in place |
| SettingsServices.SubNames | src/pages/SettingsServices.jsx:294-296 | the sub-names are the names of the normalised named rows, in order |
| SettingsServices.SubNameFrom | src/pages/SettingsServices.jsx:294-296 | every sub-name is non-empty and is some row's normalised name |
| SettingsServices.NameInSubNames | src/pages/SettingsServices.jsx:294-296 | every row with a non-empty normalised name contributes it |
| SettingsServices.SubNamesOf | src/pages/SettingsServices.jsx:294-296 | the sub-names are exactly the non-empty normalised names |
| SettingsServices.DuplicateFromFacts | src/pages/SettingsServices.jsx:297 | the search from position `i` finds nothing exactly when no later name repeats an earlier one |
| SettingsServices.FirstDuplicateFacts | src/pages/SettingsServices.jsx:297 | no duplicate is reported exactly when the names are distinct; a reported name occurs at two positions |
| SettingsServices.FirstRowProblem | src/pages/SettingsServices.jsx:303-310 | no problem exactly when every row passes; a problem is a bad row colour or a negative row price |
| SettingsServices.ValidateCreate | src/pages/SettingsServices.jsx:282-313 | the loop with early returns computes the verdict: category name, colour, price, duplicates, then the rows |
| SettingsServices.RowProblemNone | src/pages/SettingsServices.jsx:303-310 | the rows pass exactly when every row has a valid colour and an acceptable price |
| SettingsServices.CreateVerdictOk | src/pages/SettingsServices.jsx:282-313 | a category is accepted exactly when the name is non-blank, the colour valid, the price acceptable, the sub-names distinct, and every row fine |
| SettingsServices.SubNamesNonEmpty | src/pages/SettingsServices.jsx:296 | every sub-name is non-empty |
| SettingsServices.DuplicateFound | src/pages/SettingsServices.jsx:297-300 | the duplicate found is a non-empty name that two rows share |
| SettingsServices.DuplicateVerdictName | src/pages/SettingsServices.jsx:297-300 | a duplicate verdict reports the name the search found |
| SettingsServices.DuplicateReported | src/pages/SettingsServices.jsx:297-300 | a reported duplicate is a non-empty name two rows share |
| SettingsServices.RowBadPriceIsBadPrice | src/pages/SettingsServices.jsx:307 | the row price check agrees with the forms' general price check |
| SettingsServices.InheritedColor | src/pages/SettingsServices.jsx:351 | a sub-service's own colour wins, then the category colour, then null |
| SettingsServices.BuildPayloads | src/pages/SettingsServices.jsx:325-355 | without named rows, one unnamed row for the category; otherwise one row per named row, in order. Every row carries the category and the stats flag |
| SettingsServices.PushSubPayloads | src/pages/SettingsServices.jsx:345-354 | one payload per sub-row, in order, each carrying the category and the flag |
| SettingsServices.SubPayloadFacts | src/pages/SettingsServices.jsx:346-353 | each sub-service row carries its own name, its price or null, and its colour or the inherited one |
| SettingsServices.ValidateEdit | src/pages/SettingsServices.jsx:414-425 | category, colour, price in that order; each reason as an if-and-only-if |
| SettingsServices.EditPayloadOf | src/pages/SettingsServices.jsx:438-444 | an empty name, price or colour becomes null; the others are normalised |
| SettingsServices.Merge | src/pages/SettingsServices.jsx:453 | merging the payload keeps the row's id |
| SettingsServices.SaveEdit | src/pages/SettingsServices.jsx:427-444 | no id, nothing happens; a failed check refuses; otherwise the update carries the payload for that id |
| SettingsServices.TextFieldRoundTrip | src/pages/SettingsServices.jsx:386-394 | an optional text opened with `|| ""` and saved with `|| null` comes back unchanged |
| SettingsServices.PriceFieldRoundTrip | src/pages/SettingsServices.jsx:391 | a price opened with `?? ""` and saved with `Number` comes back unchanged |
| SettingsServices.ColorFieldRoundTrip | src/pages/SettingsServices.jsx:392 | a stored valid colour passes the check when reopened and is saved back unchanged |
| SettingsServices.MergeSame | src/pages/SettingsServices.jsx:453 | a payload of the row's own values changes nothing |
| SettingsServices.OpenAndSaveIsIdentity | src/pages/SettingsServices.jsx:386-456 | opening a normal-form row and saving it unchanged is accepted and leaves the row as it was |
| SettingsServices.ListUpdatesFacts | src/pages/SettingsServices.jsx:363-367 | after a create or an edit the list is in catalogue order. It is a permutation of the old list plus the new rows, or of the mapped list |
| SettingsServices.ServiceList.constructor | src/pages/SettingsServices.jsx:215 | the list starts as the loaded rows |
| SettingsServices.ServiceList.AddCreated | src/pages/SettingsServices.jsx:363-367 | the created rows join the list in catalogue order |
| SettingsServices.ServiceList.SaveEditOf | src/pages/SettingsServices.jsx:427-458 | only an accepted and successful update changes the list, to the re-sorted edited list |
| SettingsServices.ServiceList.RemoveService | src/pages/SettingsServices.jsx:468-485 | the rows with that id are dropped; a failed delete restores the previous list |
| Stats.ApptCategory | src/pages/Stats.jsx:99 | the linked service's category wins, then the appointment's own; empty exactly when neither is set |
| Stats.IsExcluded | src/pages/Stats.jsx:101-112 | excluded exactly when the linked service is excluded, or when there is no link and the first unnamed row of the appointment's category is excluded |
| Stats.LinkedServiceDecides | src/pages/Stats.jsx:102 | for a linked appointment the catalogue rows are not consulted |
| Stats.BaseMonth | src/pages/Stats.jsx:115-118 | exactly the appointments that are not excluded |
| Stats.Filtered | src/pages/Stats.jsx:120-122 | exactly those of the gender and category selected; an empty select lets everything through |
| Stats.AttendedOf | src/pages/Stats.jsx:124 | exactly the attended appointments |
| Stats.MinutesSum | src/pages/Stats.jsx:129 | the sum is a number exactly when every duration is, and then it is never negative |
| Stats.ClientIds | src/pages/Stats.jsx:130 | every attended appointment's client is counted, and there are never more clients than visits |
| Stats.ClientIdsOnly | src/pages/Stats.jsx:130 | the set holds only client ids of the appointments |
| Stats.NoShowPct | src/pages/Stats.jsx:134 | 0 when there is nothing to count; otherwise `noShow*100/okPlusNoShow`, between 0 and 100 |
| Stats.SettledSplits | src/pages/Stats.jsx:133 | every settled appointment is attended or a no-show |
| Stats.FilteredIsSelected | src/pages/Stats.jsx:120-122 | the two selects applied in turn are one filter by both |
| Stats.VisitsOfMonth | src/pages/Stats.jsx:115-125 | the month, the selects and the attended filter keep exactly the visits, in order |
| Stats.ClientIdsOfFilter | src/pages/Stats.jsx:130 | the client set of the visits is the set of their client ids |
| Stats.ComputeKpis | src/pages/Stats.jsx:127-134 | the visit count, revenue, minutes and distinct clients are those of the month's visits (not excluded, matching both selects, attended); the no-show count and its base count the month's unexcluded no-shows and settled appointments whatever the selects; the percentage is NoShowPct of the two. Also unique clients ≤ visits ≤ appointments, minutes never negative, and the percentage between 0 and 100 |
| Stats.DayRevenueSnoc | src/pages/Stats.jsx:144-147 | one more appointment adds its price to its day only |
| Stats.Dates | src/pages/Stats.jsx:145 | the dates of the appointments, in order |
| Stats.DayStepKeys | src/pages/Stats.jsx:146 | one `set` keeps the keys distinct and adds only the appointment's date |
| Stats.DayStepRevenue | src/pages/Stats.jsx:146 | after one `set` each day holds its revenue so far |
| Stats.DayStepSum | src/pages/Stats.jsx:146 | after one `set` the values add up to the revenue so far |
| Stats.DayStep | src/pages/Stats.jsx:144-147 | one `forEach` step keeps the map invariant and the days in front |
| Stats.ZeroMap | src/pages/Stats.jsx:143 | the initial map has every day of the month at 0, in order |
| Stats.PerDay | src/pages/Stats.jsx:142-149 | each day of the month and each attended date gets an entry, holding that day's attended revenue; the values add up to the total. The days come first in order, and there are no other entries when every date is in the month |
| Stats.ComputeDayStats | src/pages/Stats.jsx:167-173 | the tooltip is for that day; its visits and no-shows together are at most the appointments; minutes are never negative |
| Stats.FilterDisjoint | src/pages/Stats.jsx:168-169 | two filters that never both hold keep at most the whole list |
| Stats.DayStatsMatchBar | src/pages/Stats.jsx:167-173 | the tooltip agrees with the bar: its revenue is the day's entry of the per-day map over the same appointments |
| Stats.Cats | src/pages/Stats.jsx:197 | the categories of the appointments, in order |
| Stats.CatSnoc | src/pages/Stats.jsx:200 | one more appointment adds to its own category only |
| Stats.PriceSnoc | src/pages/Stats.jsx:198 | one more appointment adds its price to the total |
| Stats.AggStepKeys | src/pages/Stats.jsx:200 | one `set` keeps the keys distinct, and adds only the category |
| Stats.AggStepEntries | src/pages/Stats.jsx:199-200 | after one `set` each category holds its revenue and count so far |
| Stats.AggStepSums | src/pages/Stats.jsx:199-200 | one `set` adds 1 to the counts and the price to the revenues |
| Stats.AggStep | src/pages/Stats.jsx:196-201 | one `forEach` step keeps the aggregate invariant |
| Stats.AggValues | src/pages/Stats.jsx:202 | each value of the map is its key's aggregate |
| Stats.CategoryMap | src/pages/Stats.jsx:193-201 | each category holds its revenue and count, and the running total is the attended revenue, which the revenues add up to |
| Stats.CategoryAgg | src/pages/Stats.jsx:192-204 | the table is sorted by revenue from the largest, with one entry per category met, each correct. The counts add up to the visits and the revenues to the total |
| Stats.SortedAggFacts | src/pages/Stats.jsx:202 | the sorted copy of the map's values is the category table |
| Stats.SameRevenueKeepsOrder | src/pages/Stats.jsx:202 | categories with equal revenue keep the order of the map's values after the sort |
| Stats.AggEntries | src/pages/Stats.jsx:202 | the values are the aggregates of distinct categories |
| Stats.SortedEntries | src/pages/Stats.jsx:202 | any reordering of the values holds the same correct aggregates |
| Stats.SortedCovers | src/pages/Stats.jsx:202 | any reordering of the values has an entry for every category met |
| Stats.SortedDescending | src/pages/Stats.jsx:202 | in the sorted table an earlier entry has at least the revenue of a later one |
| Stats.TopCats | src/pages/Stats.jsx:206 | the first six entries, or all of them when there are fewer |
| Stats.TopCatsAreLargest | src/pages/Stats.jsx:206 | on the sorted table the top entries have at least the revenue of every entry left out |
| Clients.PageRange | src/pages/Clients.jsx:134-136 | the range starts at 0 on a reset and after the shown rows otherwise, and spans exactly PAGE_SIZE rows |
| Clients.AfterLoad | src/pages/Clients.jsx:155-163 | rows replace the list on a reset and are appended otherwise. `hasMore` is true exactly when a full page came back; an error empties the list on a reset and keeps it otherwise |
| Clients.LoadAllFacts | src/pages/Clients.jsx:132-164 | scrolling shows every row of every reply once, in order. `hasMore` follows the last page, and after full pages the next range follows on |
| Clients.OpenEdit | src/pages/Clients.jsx:229-240 | the dialog opens on the client's fields; a missing phone or email is empty, and the gender is never empty |
| Clients.FormPayload | src/pages/Clients.jsx:246-251 | the trimmed name, trimmed phone and email or null, and the gender with "female" as the default |
| Clients.OpenAndSaveWritesClient | src/pages/Clients.jsx:229-251 | saving an opened client unchanged writes its own fields back |
| Clients.SameRowAsBooking | src/pages/Clients.jsx:324-330 | creating a client here writes the same row as the booking form, except for the gender default |
| Clients.DeleteErrorText | src/pages/Clients.jsx:298-302 | the linked-reservations text exactly when the lower-cased message contains "foreign key" or the details contain "violates"; otherwise the message, or the generic text |
| Clients.ForeignKeyAnyCase | src/pages/Clients.jsx:299 | "FOREIGN KEY" or "Foreign key" in the message also gives the linked-reservations text |
| Clients.ViolatesAnyCase | src/pages/Clients.jsx:300 | "VIOLATES" or "Violates" in the details also gives it |
| Clients.AfterEditFacts | src/pages/Clients.jsx:264-268 | the list stays sorted by name and keeps its length; as a multiset it is the list with each row of the edited id replaced by the saved row, position by position, so every other row stays as many times as before |
| Clients.AfterDeleteFacts | src/pages/Clients.jsx:289 | every row with that id leaves and the others stay; without such a row the list is unchanged |
| Clients.ClientsPage.constructor | src/pages/Clients.jsx:79-107 | nothing loaded, more to load, no message, dialogs closed, empty forms |
| Clients.ClientsPage.LoadPage | src/pages/Clients.jsx:132-164 | without a workspace nothing happens. Otherwise the range is requested, the list and flag become the reply's, an error is shown, and nothing else changes |
| Clients.ClientsPage.ResetAndLoad | src/pages/Clients.jsx:125-130 | without a workspace the list is emptied; otherwise the first page replaces the list |
| Clients.ClientsPage.OpenEditFor | src/pages/Clients.jsx:229-240 | the dialog opens on the client's fields |
| Clients.ClientsPage.ShowSaved | src/pages/Clients.jsx:264-275 | the patched list, the selected client refreshed if it was the edited one, the success message, and the dialog closed |
| Clients.ClientsPage.SaveEdit | src/pages/Clients.jsx:242-280 | nothing without an id; a blank name is refused before any write. On success the list is updated and re-sorted; on failure only the error message changes |
| Clients.ClientsPage.DeleteClient | src/pages/Clients.jsx:282-305 | nothing without confirmation. A failed delete restores the list and shows the classified error; a successful one drops the id, closes the history of that client and the edit dialog |
| Clients.ClientsPage.ShowCreated | src/pages/Clients.jsx:336-344 | the merged list, the message, the form reset and closed, and the new client opened |
| Clients.ClientsPage.CreateClient | src/pages/Clients.jsx:321-350 | a blank name is refused before any write. On success the client joins the de-duplicated name-ordered list and is opened; on failure only the message changes |
| Lists.UpdateByKey | src/pages/DayView.jsx:361 | the records with the key are replaced, the others kept, position by position |
| Lists.RemoveByKey | src/pages/DayView.jsx:377 | the result is never longer |
| Lists.RemoveByKeyContents | src/pages/DayView.jsx:377 | exactly the records with the key leave, the others keep their order (the result is `filter` by a different key); without any the list is unchanged |
| Lists.Filter | src/pages/Stats.jsx:116 | never longer; every record kept has the property, and every record with it is kept |
| Lists.FilterAll | src/pages/Stats.jsx:121 | when every record has the property the list is kept |
| Lists.FilterAppend | src/pages/Stats.jsx:124 | filtering a concatenation filters each part |
| Lists.FilterFilter | src/pages/Stats.jsx:168 | two filters in a row keep what both keep |
| Lists.SumByAppend | src/pages/Stats.jsx:128 | the total of a concatenation is the sum of the totals |
| Lists.SumByUpdate | src/pages/Stats.jsx:146 | replacing one record changes the total by the difference |
| Lists.Count | src/pages/DayView.jsx:377 | never more than the records |
| Lists.FindIndex | src/pages/Clients.jsx:337 | the first position with the key, or -1 when there is none |
| Lists.Find | src/pages/Booking.jsx:17 | the first position with the property, or -1 when there is none |
| Lists.DedupeFromOrigin | src/pages/Clients.jsx:337 | every kept record is the first with its key |
| Lists.DedupeFromKeeps | src/pages/Clients.jsx:337 | the first record with each key is kept |
| Lists.DedupeFromDistinct | src/pages/Clients.jsx:337 | no two kept records share a key |
| Lists.DedupeByKeyFacts | src/pages/Booking.jsx:186 | after de-duplication no key appears twice, nothing new appears, and every key is still present by its first record |
| Sorting.Insert | src/pages/DayView.jsx:415 | inserting keeps the elements and adds the new one |
| Sorting.SortBy | src/pages/DayView.jsx:415 | the sorted copy is a permutation of the input |
| Sorting.InsertSorted | src/pages/DayView.jsx:415 | inserting into a sorted list keeps it sorted |
| Sorting.SortBySorted | src/pages/DayView.jsx:415 | with a total comparator the copy is sorted |
| Sorting.InsertTies | src/pages/DayView.jsx:415 | an inserted element goes before every element of a class whose members may all precede each other |
| Sorting.SortByStable | src/pages/DayView.jsx:415 | the sort is stable: the members of such a class come out in their input order |
| Sorting.SortByPairwise | src/pages/Booking.jsx:187 | sorting keeps a symmetric relation that held between all pairs |
| Sorting.SortBySum | src/pages/Stats.jsx:202 | sorting does not change a total over the entries |
| OrderedMaps.IndexOf | src/pages/Stats.jsx:146 | the key's position, or -1 when absent |
| OrderedMaps.Values | src/pages/Stats.jsx:202 | the values in entry order |
| OrderedMaps.GetAt | src/pages/Stats.jsx:202 | with distinct keys each entry is what `get` finds for its key |
| OrderedMaps.PutFacts | src/pages/Stats.jsx:146 | `set` makes `get` answer the new value and leaves other keys. It keeps the keys distinct and appends a new key at the end |
| OrderedMaps.PutSum | src/pages/Stats.jsx:200 | a total over the values after `set` changes by the new value minus the old |
| Strings.Trim | src/pages/Booking.jsx:10 | the trimmed text is the original without a white-space prefix and a white-space suffix, and itself neither starts nor ends with white space (which fixes it); it occurs in the original |
| Strings.TrimIdempotent | src/pages/Booking.jsx:10 | trimming twice is trimming once |
| Strings.TrimUnpadded | src/pages/Booking.jsx:10 | a text without surrounding white space is its own trim |
| Strings.TrimBlank | src/pages/Booking.jsx:10 | a text of white space trims to the empty text |
| Strings.OrNull | src/pages/Booking.jsx:170 | an empty or missing text becomes null; others stay |
| Strings.TextOrNull | src/pages/Booking.jsx:170 | the empty text becomes null; others stay |
| Strings.Lower | src/pages/SettingsServices.jsx:236 | lower-casing keeps the length and maps each character |
| Strings.LowerContains | src/pages/Clients.jsx:299 | an occurrence survives lower-casing |
| Strings.ContainsEmpty | src/pages/SettingsServices.jsx:239 | every text contains the empty text |

## Left out

- Network I/O (database reads and writes, authentication) is not modelled. A query is an input list or an error, and a write is a success or failure reply.
- The race between the overlap query and the insert is not modelled, since it is concurrency. The guard is a predicate over the rows the query returned.
- Debounce timers, message auto-dismissal, focus handling, the infinite-scroll observer, and the loading and "saving" flags are left out. Their only effect is timing, or ignoring a second click while a write runs.
- The server-side name search (`ilike`) is left out. The client pages take its result as the reply.
- Lithuanian `localeCompare` is a comparator parameter, because it is a foreign collation. `toLocaleLowerCase` and `toLowerCase` are ASCII lower-casing, since Unicode case mapping is not modelled.
- Floating point is not modelled. `Number` on a price field gives the exact value of the decimal text, with an optional leading "-" or "+" and an optional fraction; binary rounding is not modelled, and exponents, hex and "Infinity" read as NaN. Prices kept in rows are whole numbers of cents, and `String(price)` is the shortest decimal of that amount. The no-show percentage is a real, and `toFixed` and currency formatting are left out.
- SettingsServices.StoredPrice: an amount finer than a cent, which the price fields' step of 0.01 does not offer, becomes null in the page's row, because row prices are whole cents here.
- TimeText.ToNumber: `Number` on a field of a time string reads only plain digit strings (the empty field is 0); a sign, a surrounding space, a decimal point or an exponent gives NaN here, where JavaScript would read a number. The time picker and the database only ever produce "HH:MM" and "HH:MM:SS" with plain digits, where the two agree.
- The month's list of days comes from a date library and is a parameter.
- Also left out: the month grid of the day view, the date field, the SVG chart geometry (`maxY`, `yScale`, bar sizes), the filter option lists and the messages' markup, because they are calendar arithmetic or rendering.
- DayView's `startEdit`, its two auto-price effects and its `createClient` are not modelled. They repeat the booking page's rules with small differences; only the booking page's versions are modelled.
- The client page's history loading (`openHistory`) is not modelled. A created client is recorded as the selected one.
- The optimistic intermediate list of `deleteClient`, `remove`, `removeService` and `setStatus`, which the page shows until the reply, leaves no trace in the model: the methods state the final list only.
- Stored values of the wrong type are not modelled: a non-string city name or colour, or a numeric price read back as text. Only missing values and the types the pages write are.
- The catalogue's edit form holds the price as text. A number kept there by `openEdit` is modelled as its `String` form.
- A NaN price that the catalogue sends is stored as null in the model, as the database does.
