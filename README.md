# Event dashboard core, modelled in Dafny

A model of the non-visual core of a community organisation's event dashboard (a
single-page React application): the event and participant records and the three
operations that produce new event snapshots, the two form validators with the phone-number
pattern they use, the reminder/feedback selection of the notification scheduler, the phone
normalisation applied before a number is put into a chat link, and the count/sum part of
the feedback statistics.

Modules, one per component of `src/App.js`:

- `Wrappers` — `Option`, used for keys a JavaScript object may lack; `Overlay` is one key
  of an object spread; `Truthy` is the truthiness of an optional flag.
- `Text` — `String.prototype.trim` (ECMAScript white space and line terminators) and the
  `!s?.trim()` blank test of the validators.
- `Phone` — `validatePhone` as a hand-written matcher for
  `^(\+972|0)([23489]|5[0248]|77)[1-9]\d{6}$`, proved equal to the pattern's language
  written as a union of concatenations; the phone normalisation of `sendWhatsAppMessage`.
- `Domain` — `PRICE_TYPES` as a four-constructor datatype; `Participant`, `Event` and the
  partial event `EventFields`; `createEvent`, `updateEvent`, `addParticipant` as pure
  functions of their inputs and the clock reading `now` (milliseconds).
- `Validation` — `validateEventForm` and `validateParticipantForm` as methods that build
  the field→message map by conditional assignments, as the source does.
- `Notifications` — `scheduleNotifications` as a method with the source's nested loops,
  proved equal to the specification function `Dispatches`, whose meaning is proved in
  `DispatchesExactly`.
- `Feedback` — the count and rating sum of `getFeedbackStats`.

Decisions worth knowing when reading the model:

- A JavaScript object key that is absent is `None`. A participant's `phone` is a required
  string: it is the key of the roster.
- Time is integer milliseconds. The source compares `hoursDiff = (date − now) / 3600000`
  (a floating-point quotient) against whole numbers; for integer millisecond differences
  that comparison is exact, so the windows are stated on milliseconds.
- The feedback window is what the code's comparisons `hoursDiff <= -12 && hoursDiff > -13`
  make it: from exactly 12 hours after the event (included) to 13 hours after it
  (excluded). The comment above that test reads "Send feedback request 12 hours after
  event" (src/App.js:752); the model takes the bounds from the comparison at
  src/App.js:753, and `FeedbackScenario` proves both ends.
- The scheduler keeps no record of what it has sent. Every call made while an event is in
  a window dispatches to the same participants again (`RemindersRepeat`,
  `ReminderScenario`); the model adds no deduplication because the code has none. Within
  one call each qualifying roster entry gets exactly one message (`DispatchesCount`).
- Rosters are deduplicated by the phone as typed (`p.phone === participant.phone`), but
  messages go to the normalised number. One number entered once as `0501234567` and once
  as `+972501234567` is two entries, and one call sends it the same reminder twice
  (`TwoSpellingsScenario`).
- `validateParticipantForm` tests the pattern on the untrimmed phone, so a number with a
  leading space is reported invalid rather than missing (`ParticipantFormExamples`).
- `validateEventForm` lets through a non-empty date string that `Date` cannot parse,
  because a NaN time compares false with the clock (`DateInput.Unparsable`).

## Model

| member | source | states |
|---|---|---|
| `Text.TrimStart` | src/App.js:770 | the result is the suffix of the input left after its leading white space; everything dropped is white space and the result does not start with any |
| `Text.TrimEnd` | src/App.js:770 | the result is the prefix left after the trailing white space; everything dropped is white space and the result does not end with any |
| `Text.Trim` | src/App.js:770 | `trim` yields the infix of the input left after its leading and its trailing white space: everything before and after it is white space, it neither starts nor ends with white space, and it is empty exactly when every character of the input is white space |
| `Text.BlankExactly` | src/App.js:770-794 | `!s?.trim()` holds exactly when the key is absent or every character of its value is white space |
| `Phone.ValidatePhone` | src/App.js:646-649 | an accepted number is at least 9 characters long, starts with `0` or `+972`, and ends with a subscriber number `[1-9]\d{6}` |
| `Phone.NationalNumberIffAreaCode` | src/App.js:647 | the part after the trunk prefix is accepted exactly when it is one of the ten area codes followed by a subscriber number `[1-9]\d{6}` |
| `Phone.ValidatePhoneInPattern` | src/App.js:646-649 | every string `validatePhone` accepts is `+972` or `0`, then an area code, then a subscriber number |
| `Phone.PatternValidatesPhone` | src/App.js:646-649 | every such concatenation is accepted |
| `Phone.ValidatePhoneIffInPattern` | src/App.js:646-649 | `validatePhone` accepts exactly the strings of its regular expression: `+972` or `0`, one of 2, 3, 4, 8, 9, 50, 52, 54, 58, 77, a digit 1-9, six digits |
| `Phone.ValidPhoneShape` | src/App.js:646-649 | an accepted number is 9, 10, 12 or 13 characters long, starts with `+` or `0`, and is all digits after its first character |
| `Phone.ValidatePhoneAccepts` | src/App.js:646-649 | "0501234567" and "+972501234567" are accepted |
| `Phone.ValidatePhoneRejects` | src/App.js:646-649 | "12345" and "0101234567" are rejected |
| `Phone.NormalizePhone` | src/App.js:652-654 | a number starting with `+` is kept; any other loses its first character (none, if empty) and gets `+972` in front; the result always starts with `+` |
| `Phone.NormalizePhoneIdempotent` | src/App.js:652-654 | normalising twice is normalising once |
| `Phone.NormalizeValidPhone` | src/App.js:646-654 | a valid number normalises to a valid number spelt with `+972`, and the local and international spellings of a number normalise to the same string |
| `Domain.PriceCode` | src/App.js:253-258 | every tier is stored as one of the four codes |
| `Domain.ParsePriceCode` | src/App.js:253-258 | a string is a tier exactly when it is one of the four codes |
| `Domain.PriceCodeRoundTrip` | src/App.js:253-258 | codes and tiers correspond one to one, in both directions |
| `Domain.MergeParticipant` | src/App.js:717-719 | `{...p, ...participant}`: each key the incoming record has wins, each key it lacks (`addedAt` among them) keeps the stored value |
| `Domain.CreateEvent` | src/App.js:693-701 | the new event has an empty roster and both timestamps from the clock, whatever the data says; the data's `id` wins over the clock-derived one; the other fields are the data's |
| `Domain.UpdateEvent` | src/App.js:703-709 | every key present in the updates is taken from them, every absent key is kept from the event, and `updatedAt` is always the clock |
| `Domain.UpdateWithNoFields` | src/App.js:703-709 | an update without keys changes only `updatedAt` |
| `Domain.UpdatesCompose` | src/App.js:703-709 | two updates in a row equal one update with the merged keys, stamped by the later clock |
| `Domain.UpdateOfCreatedEvent` | src/App.js:693-709 | updating a new event (without touching roster or creation time) is creating it from the merged data |
| `Domain.UpdatedAtNeverDecreases` | src/App.js:703-709 | with a clock that does not run backwards an update never moves `updatedAt` back |
| `Domain.FindByPhone` | src/App.js:712-714 | `find` returns nothing exactly when no participant has the phone, otherwise the first participant that has it |
| `Domain.FirstMatchIsFound` | src/App.js:712-714 | the participant at the first index with the phone is what `find` returns |
| `Domain.MergeMatching` | src/App.js:717-719 | the roster `map` keeps the roster's length |
| `Domain.AddParticipant` | src/App.js:711-731 | only the roster and `updatedAt` change; a known phone keeps count and order, overlays the matching entries and leaves the others untouched; a new phone appends the record stamped with `addedAt` after the old roster |
| `Domain.FindAfterAddParticipant` | src/App.js:711-731 | afterwards a lookup by the phone finds the old entry overlaid with the record, or the record stamped with `addedAt` when the phone was new |
| `Domain.OtherPhonesUntouched` | src/App.js:711-731 | lookups by any other phone give what they gave before |
| `Domain.FindUnaffected` | src/App.js:712-719 | a lookup is unaffected by changes that keep phones and leave the entries with the looked-up phone as they were |
| `Domain.AddParticipantKeepsPhonesUnique` | src/App.js:711-731 | a roster without duplicate phones stays without them, and grows by one exactly when the phone is new |
| `Domain.AddParticipantTwice` | src/App.js:711-731 | adding the same record (without `addedAt`) twice gives the roster of adding it once |
| `Domain.ReAddKnownPhone` | src/App.js:715-723 | re-adding a record for a known phone leaves the roster as the first add left it |
| `Domain.MergeMatchingTwice` | src/App.js:717-719 | overlaying the same record a second time changes nothing |
| `Domain.ReAddNewPhone` | src/App.js:724-731 | re-adding a record that was just appended leaves the roster as it was |
| `Validation.DateAccepted` | src/App.js:775-777 | a date passes exactly when it is present and not strictly before the clock (an unreadable date is never "before") |
| `Validation.ValidateEventForm` | src/App.js:767-785 | only `name`, `date`, `location` can be keys; `name`/`location` are reported exactly when blank after trimming; `date` exactly when it is missing (the "required" message) or strictly before the clock (the "past" message); the map is empty exactly when all three pass |
| `Validation.ValidateParticipantForm` | src/App.js:787-801 | only `name` and `phone` can be keys; `name` is reported exactly when blank; `phone` gets the "required" message when blank, otherwise the "invalid" message when `validatePhone` fails; the map is empty exactly when the name is not blank and the phone is valid |
| `Validation.ValidPhoneIsNotBlank` | src/App.js:794-797 | a valid phone never takes the "required" branch |
| `Validation.EventFormExamples` | src/App.js:767-785 | an empty form gets all three errors with the "required" date message; a filled form dated a day ahead, or exactly at the clock, gets none |
| `Validation.PaddedPhone` | src/App.js:646-649 | a phone with a leading space is not blank but fails the pattern |
| `Validation.ParticipantFormExamples` | src/App.js:787-801 | a named participant whose phone has a leading space gets only the "invalid phone" message |
| `Notifications.InReminderWindow` | src/App.js:738-744 | the millisecond test is exactly the source's `23 < hoursDiff <= 24` on the exact quotient `(date − now) / 3600000`; an event without a date is outside |
| `Notifications.InFeedbackWindow` | src/App.js:738-753 | the millisecond test is exactly the source's `-13 < hoursDiff <= -12` on the exact quotient; an event without a date is outside |
| `Notifications.Recipients` | src/App.js:745-755 | the filter of a roster is no longer than the roster |
| `Notifications.RecipientsExactly` | src/App.js:745-757 | the filter keeps exactly the confirmed participants (reminders) or those who attended (feedback requests) |
| `Notifications.RecipientsCount` | src/App.js:745-757 | the filter keeps each qualifying entry exactly as many times as the roster holds it, and no other entry |
| `Notifications.RecipientsPrefix` | src/App.js:745-757 | filtering a prefix of the roster gives a prefix of the filtered roster |
| `Notifications.RecipientsPosition` | src/App.js:745-757 | the filter keeps roster order: a qualifying entry stands in the result right after the filtered entries that precede it in the roster |
| `Notifications.NotifyParticipants` | src/App.js:744-761 | one inner `forEach` dispatches, in roster order, one message of its kind to each participant that qualifies, addressed to the normalised phone |
| `Notifications.EventDispatches` | src/App.js:738-762 | every dispatch for an event names that event and falls in the window of its kind, and an event sends no more messages than it has roster entries |
| `Notifications.Dispatches` | src/App.js:735-764 | every dispatch of a call names an event of the list that is in the window of the dispatch's kind |
| `Notifications.ScheduleNotifications` | src/App.js:735-764 | the nested loops dispatch exactly `Dispatches(events, now)`: per event, reminders when 23h < date − now ≤ 24h, then feedback requests when −13h < date − now ≤ −12h |
| `Notifications.SendsToRecipients` | src/App.js:744-761 | one `forEach` dispatches exactly to the participants that qualify for its kind |
| `Notifications.EventDispatchesExactly` | src/App.js:738-762 | an event's dispatches are exactly those owed to its participants at that instant |
| `Notifications.CountDue` | src/App.js:744-761 | the number of roster entries owed a dispatch is at most the roster's length |
| `Notifications.SendsCount` | src/App.js:744-761 | inside the window of its kind, one `forEach` sends a dispatch exactly once per roster entry owed it |
| `Notifications.NotDueOutsideWindow` | src/App.js:744-761 | outside the window of its kind no roster entry is owed a dispatch |
| `Notifications.EventDispatchesCount` | src/App.js:738-762 | an event sends each dispatch exactly once per roster entry owed it |
| `Notifications.DispatchesCount` | src/App.js:735-764 | one call sends each dispatch exactly as many times as there are roster entries, over all events, owed it: nothing doubled, nothing dropped |
| `Notifications.DispatchesExactly` | src/App.js:735-764 | a dispatch is sent exactly when some event is in the matching window and one of its participants qualifies (confirmed for reminders, attended for feedback); nothing else is sent |
| `Notifications.OneKindPerEvent` | src/App.js:744-762 | the two windows are disjoint, so an event gets only one kind of message per call, and none outside both windows |
| `Notifications.RemindersRepeat` | src/App.js:735-764 | with no record of what was sent, a confirmed participant is reminded at every call made while the event is in the window |
| `Notifications.ReminderScenario` | src/App.js:735-764 | an event 23.5 hours ahead with one confirmed participant: one reminder to "+972501234567", sent again on the next tick a minute later |
| `Notifications.FeedbackScenario` | src/App.js:735-764 | an event 12.5 hours past: only the participant who attended is asked for feedback; 12 hours after is inside the window, 13 hours after is not |
| `Notifications.TwoSpellingsScenario` | src/App.js:744-750 | a roster holding one number in its local and its international spelling has no duplicate phone, yet one call sends that number the same reminder twice |
| `Feedback.RatingSum` | src/App.js:499 | with ratings from 1 to 5 the left-fold sum lies between the count and five times the count |
| `Feedback.FeedbackStatsOf` | src/App.js:497-504 | the count is the number of feedbacks and the sum is the rating sum; no feedback gives zero and zero; with ratings from 1 to 5 the average `sum / count` lies between 1 and 5 |
| `Feedback.RatingSumAppend` | src/App.js:499 | the rating sum of a concatenation is the sum of the parts' sums |
| `Feedback.FeedbackStatsExamples` | src/App.js:497-504 | ratings 4 and 5 give sum 9 over 2 (average 4.5); no feedback gives 0 and 0 |

## Left out

- The React and MUI view code (theme, right-to-left cache, styled components, logo,
  snackbar, admin login, feedback dialog rendering, landing page, view switching): no
  logic to model.
- The `NotificationSystem` component: its one-minute `setInterval`, its `storage` listener
  and their teardown are timer and browser-event plumbing, and the functions it calls are
  not defined in the code. The model is the selection one call of `scheduleNotifications`
  makes at a given clock reading.
- `saveToLocalStorage`, `loadFromLocalStorage` and the other `localStorage` reads: browser
  storage and JSON I/O.
- `window.open`, `encodeURIComponent`, `formatDate` (`toLocaleDateString`) and the Hebrew
  message templates: a dispatch records the event id, the normalised phone and the kind of
  message, not the message text.
- The admin-code comparison against a configuration value and the unused `ADMIN_CODE`
  constant: string equality only.
- Parsing of date strings: event dates are milliseconds (`None` when absent or unreadable,
  which the scheduler's NaN comparisons treat as outside both windows), and the form's
  date is the three-way `DateInput`.
- `Domain.CreateEvent`: reads the clock once; the source reads it separately for `id`,
  `createdAt` and `updatedAt`, so there those may differ by a millisecond or so.
- `Domain.AddParticipant`: reads the clock once for `addedAt` and `updatedAt`, which the
  source reads separately.
- `Feedback.FeedbackStatsOf`: keeps the exact rating sum instead of the one-decimal
  average string `(sum / count).toFixed(1)`, which is floating point and formatting.
- Ratings are modelled as integers. They are written by `./components/FeedbackForm`, which
  is not part of this model, and the rating display (src/App.js:527, `precision={0.1}`)
  allows fractional stars; half-star ratings are not modelled.
- Timestamps: the source stores `createdAt`, `updatedAt` and `addedAt` as
  `toISOString()` strings (src/App.js:698-699, 707, 721, 728, 730); the model keeps them as
  integer milliseconds, so `Domain.UpdatedAtNeverDecreases` compares numbers where the
  source would hold ISO strings (which order the same way for years 0000-9999).
- Keys whose value is `undefined` but present (they override in a spread, unlike an
  absent key), event keys and participant keys beyond those of the data model
  (`name`, `phone`, `confirmed`, `attended`, `addedAt` for a participant), and participant
  records without a phone (two of them would match each other, and the scheduler would
  throw on one).
- Non-boolean values of `confirmed` and `attended`: the source's `filter((p) => p.confirmed)`
  keeps any truthy value, while the model's flags are optional booleans and only `true`
  qualifies.
- Exceptions: an event without a `participants` array makes the source throw part-way
  through a scan; every modelled event has a roster.
- `src/index.js`: the rendering bootstrap only.
