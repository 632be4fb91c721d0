# Productivity app core, in Dafny

A model of the behaviour behind the screens of a React Native productivity
app (`App.js`). The app has four pieces of logic, plus the daily picks:

- **Focus timer** (`focus_timer.dfy`, module `FocusTimer`). The Pomodoro timer
  has two state slots: the seconds left (25 minutes at start) and a running
  flag. One effect drives both. While the timer runs with time left, the
  effect arms a one-second interval that takes a second off. When it sees
  0 seconds left, it stops the timer, raises the "Pomodoro Complete!" alert
  and puts the full 25 minutes back. The Start/Pause button only negates the
  running flag.
  - The pure step functions are `TickStep` and `ToggleStep`. A tick is one
    firing of the interval followed by the effect run it provokes.
  - The class `PomodoroTimer` holds the two slots as fields. Its methods
    `Tick` and `Toggle` change them in place and are proved against the step
    functions.
  - The alert is recorded as a counter, `completionAlerts`.
- **Clock face** (`time_format.dfy`, module `TimeFormat`). `formatTime`
  renders floor minutes and JavaScript-remainder seconds with `toString()`,
  pads each with `padStart(2, '0')` and joins them with a colon.
  - `ParseTime` reads a display back.
  - The lemmas give the exact `MM:SS` form below 100 minutes and a
    round trip for every non-negative input. At 100 minutes and beyond the
    minutes field grows.
- **Habit tracker** (`habit_tracker.dfy`, module `HabitTracker`).
  `toggleHabit` rebuilds the list with every habit of the pressed id flipped.
  It shows a reward ad when the first habit with that id was not yet
  completed. The screen also shows the completed count.
- **Mood quote** (`quote_generator.dfy`, module `QuoteGenerator`).
  `generateCustomQuote` refuses a mood that is blank after `trim()`, with an
  alert, and leaves the shown quote alone. Otherwise it looks up the
  lower-cased but untrimmed mood in a table of four fixed quotes plus a
  `default` template that quotes the mood as typed. A missing or empty entry
  falls back to that template. An ad follows each generated quote.
- **Daily picks** (`daily_content.dfy`, module `DailyContent`). The quote and
  the tip of the day are both `day of month % catalogue length`. The day of
  the month is an input. The app reads it for the quote once at start and for
  the tip at every render.

## Model

| member | source | states |
|---|---|---|
| FocusTimer.TickStep | App.js:115-127 | one second: running with more than 1 second left takes exactly one off and keeps running; running with 1 second left stops, resets to 1500 and raises one alert; a paused timer is unchanged; the 1..1500 range is preserved; an alert is raised iff the timer was running on its last second; a tick never starts the timer |
| FocusTimer.ToggleStep | App.js:319 | the button negates only the running flag; seconds left and the alert count stay the same |
| FocusTimer.Decrement | App.js:118-120 | the interval callback takes exactly one second off while running with time left, changes nothing otherwise, never touches the running flag or the alerts, and never makes the time negative |
| FocusTimer.Settle | App.js:117-125 | the effect leaves every state with time left alone; on 0 it stops the timer, resets to 1500 and raises one alert |
| FocusTimer.RunStaysConsistent | App.js:101-102 | for any sequence of seconds and button presses from a consistent state, the time left between events stays within 1..1500 and the alert count grows by at most one per event |
| FocusTimer.CountdownPrefix | App.js:117-120 | while running, each of the first k seconds before the end takes exactly one second off |
| FocusTimer.CountdownCompletesOnce | App.js:117-124 | a running session left alone raises no alert before its last second, then exactly one alert, and rests paused at 1500 |
| FocusTimer.TicksSplit | App.js:118-120 | m + n seconds are m seconds followed by n seconds |
| FocusTimer.FullSession | App.js:101-102 | from application start, one press and 1500 seconds give one alert and the start state back |
| FocusTimer.PausedTimerFrozen | App.js:115-127 | a paused timer ignores any number of seconds: no reset and no drift |
| FocusTimer.ToggleTwiceRestores | App.js:319 | two presses with no second between them restore the state exactly |
| FocusTimer.OnlyTheButtonStarts | App.js:115-127 | seconds alone never start a paused timer |
| FocusTimer.PomodoroTimer.constructor | App.js:101-102 | the timer starts with 1500 seconds, paused, no alert |
| FocusTimer.PomodoroTimer.Tick | App.js:115-127 | updates the fields in place to `TickStep` of the old state: decrement while running, then the completion reset on 0 |
| FocusTimer.PomodoroTimer.Toggle | App.js:319 | updates the fields in place to `ToggleStep` of the old state: only the running flag is negated |
| FocusTimer.PomodoroTimer.Display | App.js:315 | the timer's face is always five characters with a colon in the middle, and it reads back as the minutes and seconds left |
| TimeFormat.NatToString | App.js:174 | `toString()` of a non-negative integer is a non-empty string of decimal digits with no leading zero |
| TimeFormat.NatToStringLength | App.js:174 | one digit below 10, at most two below 100, and conversely |
| TimeFormat.NatToStringValue | App.js:174 | reading the digits back gives the number |
| TimeFormat.IntToString | App.js:174 | a non-negative number gives its digits; a negative one gives a minus sign followed by the digits of its absolute value, and only negatives start with a minus |
| TimeFormat.PadStart | App.js:174 | the result has length max(length, target), ends with the original string and has only fill characters before it: it never truncates |
| TimeFormat.Minutes | App.js:172 | `Math.floor(seconds / 60)`: q * 60 <= seconds < q * 60 + 60 |
| TimeFormat.Seconds | App.js:173 | the truncating `%`: it differs from the input by a multiple of 60, equals the Euclidean remainder for non-negative input and lies in (-60, 0] for negative input, which makes it the truncated remainder |
| TimeFormat.TwoDigitField | App.js:174 | `toString()` behind just enough zeros to make two characters, never cut |
| TimeFormat.FormatTime | App.js:171-175 | the display is never shorter than `MM:SS`, for any integer input |
| TimeFormat.LeadingZerosValue | App.js:174 | zero padding on the left keeps the digits and the value |
| TimeFormat.TwoDigitFieldExact | App.js:174 | below 100 a padded field is exactly its tens digit and its units digit |
| TimeFormat.PaddedFieldValue | App.js:174 | a padded field is all digits and reads back as its number |
| TimeFormat.FieldShape | App.js:174 | a padded field has at least two digits, and exactly two below 100 |
| TimeFormat.FormatTimeShape | App.js:171-175 | for any non-negative input the display is at least two digits, a colon, and exactly two digits |
| TimeFormat.FormatTimeExact | App.js:171-175 | for 0 <= s < 6000 the display is exactly `MM:SS` with MM = s / 60 and SS = s % 60, digit by digit |
| TimeFormat.FormatTimeExamples | App.js:171-175 | 0 gives "00:00", 65 gives "01:05" and 1500 gives "25:00" |
| TimeFormat.LongMinutesField | App.js:172-174 | from 6000 seconds on, the minutes field grows to three or more digits: the display is longer than five characters |
| TimeFormat.IndexOfColon | App.js:174 | the reader of the display built on this line, part of `ParseTime`: finds the first colon, or reports that there is none |
| TimeFormat.SplitAtColon | App.js:174 | a colon after a field of digits is the first colon, so splitting there gives both fields back |
| TimeFormat.FormatParseRoundTrip | App.js:171-175 | reading the display back gives k = s % 60 < 60 and m = s / 60 with m * 60 + k == s |
| HabitTracker.FlipMatching | App.js:130-134 | keeps length, order, ids and names; negates `completed` of every habit with the id; leaves every other habit equal |
| HabitTracker.FirstWithId | App.js:136 | `find` lands on the first habit with the id |
| HabitTracker.FlipIfMatching | App.js:131-133 | one habit keeps its id and name, and its completed flag is negated exactly when its id matches |
| HabitTracker.ToggleHabit | App.js:129-138 | at most one ad, whose message is the habit reward message; the new list flips exactly the matching habits and keeps unique ids unique; the ad shows iff the first matching habit was incomplete, which with unique ids is iff the pressed habit was incomplete; an ad always means some habit went from incomplete to complete |
| HabitTracker.ToggleTwiceRestores | App.js:130-134 | flipping the same id twice gives the original list back |
| HabitTracker.ToggleHabitTwice | App.js:129-138 | pressing a habit twice gives back the original list, and exactly one of the two presses shows the ad |
| HabitTracker.CompletedHabits | App.js:260 | the filter holds exactly the completed habits of the list: each kept habit is completed and in the list, and every completed habit is kept |
| HabitTracker.CompletedCount | App.js:260 | the completed count is the number of positions holding a completed habit, and at most the number of habits |
| HabitTracker.CompletedCountIsCardinality | App.js:260 | the length of the filtered list equals the number of positions holding a completed habit |
| HabitTracker.CompletedHabitsConcat | App.js:260 | filtering a concatenation filters each part |
| HabitTracker.PositionsGrow | App.js:260 | a habit added at the end adds one completed position exactly when it is completed |
| HabitTracker.UnmatchedUnchanged | App.js:130-134 | a list with no habit of the id is left unchanged |
| HabitTracker.PositionsAfterFlip | App.js:130-134 | with unique ids, flipping one habit adds its position to the completed positions if it was incomplete, removes it if it was complete, and changes no other position |
| HabitTracker.FlipOnlyAt | App.js:130-134 | when no other habit shares the id at a position, flipping that id changes the completed positions at that position alone, in the direction of its old flag |
| HabitTracker.ToggleChangesCountByOne | App.js:130-134 | with unique ids, flipping one habit raises the completed count by one if it was incomplete and lowers it by one if it was complete |
| HabitTracker.ToggleHabitCount | App.js:129-138 | with unique ids a press shows the ad exactly when the completed count goes up by one, and otherwise the count goes down by one |
| HabitTracker.InitialHabitsFacts | App.js:95-99 | the start list has distinct ids and nothing completed |
| QuoteGenerator.LeadingBlanks | App.js:142 | counts exactly the leading white space: every character before the count is white space and the character at the count, if any, is not |
| QuoteGenerator.TrimEnd | App.js:142 | drops exactly the trailing white space: the result is a prefix that does not end with white space |
| QuoteGenerator.Trim | App.js:142 | the trimmed mood is the slice of the mood that starts right after its leading white space and is followed by white space only; it neither starts nor ends with white space, and is empty exactly when every character is JavaScript white space |
| QuoteGenerator.TrimmedSlice | App.js:142 | cutting the leading white space and then the trailing white space leaves a slice of the original, followed by white space only, that is empty exactly when the original is blank |
| QuoteGenerator.LowerChar | App.js:156 | lower-casing maps each upper-case letter to the lower-case letter at the same place in the alphabet, keeps lower-case letters, and leaves every other character alone |
| QuoteGenerator.Lower | App.js:156 | lower-casing keeps the length and works character by character |
| QuoteGenerator.MoodQuotes | App.js:148-154 | the table has the four moods with their fixed quotes and a `default` entry holding the template for this mood, and no other key |
| QuoteGenerator.QuoteFor | App.js:156 | a lower-cased mood that is one of the four moods gets that mood's quote; anything else, including `default` itself, gets the template with the mood as typed |
| QuoteGenerator.DefaultQuote | App.js:153 | the template is its fixed prefix, the mood exactly as typed, and its fixed suffix |
| QuoteGenerator.GenerateCustomQuote | App.js:141-161 | a blank mood raises the "Please enter your mood" alert and keeps the shown quote; otherwise the ad follows, with the fixed quote for one of the four moods in any letter case and the template otherwise |
| QuoteGenerator.FixedMoodsAreWords | App.js:148-152 | the four table keys are non-empty words of lower-case letters |
| QuoteGenerator.LetterEndsUntrimmed | App.js:142 | a string that starts and ends with a letter is its own trim and is not blank |
| QuoteGenerator.MatchHasNoSurroundingSpace | App.js:142-156 | a mood that matches the table has no white space around it and is not blank, so the lookup sees no untrimmed match |
| QuoteGenerator.MatchingMoodGetsItsQuote | App.js:141-161 | every letter-case spelling of one of the four moods gets its quote and the ad, never the alert |
| QuoteGenerator.MixedCaseExamples | App.js:156 | "Tired" gets the tired quote and "HAPPY" gets the happy quote |
| QuoteGenerator.UntrimmedExample | App.js:142-156 | " tired" passes the blank check but misses the table and gets the template |
| QuoteGenerator.DefaultKeyExample | App.js:153-156 | typing "Default" gets the template, as a miss does |
| DailyContent.DailyIndex | App.js:110 | the day-of-month index is always a valid position in the catalogue, and is the day itself while the day is one |
| DailyContent.DailyQuoteIndex | App.js:109-110 | the quote of the day is one of the five quotes |
| DailyContent.DailyTipIndex | App.js:199 | the tip of the day is one of the five tips |
| DailyContent.EveryEntryHasADay | App.js:109-110 | every entry of a catalogue of at most 31 items is picked on some day numbered no later than the catalogue length, so for up to 28 items on some day of every month |
| DailyContent.QuoteAndTipAgree | App.js:110 | for the same day of the month, the equal catalogue lengths give the quote and the tip the same position |
| DailyContent.FiveDayCycle | App.js:110 | five days later in the same month, the same quote comes back |

## Left out

- Rendering is not modelled: the JSX, the style sheet, `ImageBackground`, `StatusBar` and navigation through `currentView`. They have no behaviour to state.
- Timing is not modelled. A `Tick` is one full second of uninterrupted running. The app clears its interval on every state change (App.js:126) and a new Start arms a fresh one (App.js:118), so the part of a second already run when the timer is paused is lost. The model has no such partial seconds.
- `showRewardAd` is not modelled: its modal and its 3-second `setTimeout` before the "Ad Complete" alert. The model records each call by its message: a `Notice` for the mood quote and the list of ad messages of a habit press.
- `Alert.alert` is a foreign UI call. The completion alert is a counter, and the mood alert is a `Notice` value.
- The reel index (App.js:280) is not modelled, because it is a floating-point division by the screen height.
- The ad buttons on the home, reel and timer screens are not modelled, because they only call `showRewardAd`.
- `new Date().getDate()` is not modelled as a clock. The day of the month is an input in 1..31.
- The catalogues of quotes and tips are modelled only by their lengths (five each). The reels are not modelled at all. The start habits are modelled in full.
- DailyContent.QuoteAndTipAgree: it takes one shared day for both picks. The app reads the quote's day once, in the mount effect (App.js:108-112), and shows the first quote until that effect runs (App.js:94). It reads the tip's day again at every render (App.js:199). So once the date changes with the app open, the tip moves and the quote does not.
- JavaScript object lookup through the prototype chain is not modelled: `moodQuotes["constructor"]` is a function, which is truthy. The table is a finite map of its five own keys.
- `Lower` changes only the letters A to Z. Full Unicode lower-casing affects other characters too, but the lookup result is the same. The only character outside A to Z that lower-cases to a single ASCII letter is the Kelvin sign, which becomes `k`, and no key contains `k`. The template quotes the mood as typed, so no other result depends on the lower-cased form.
- `IntToString` and `FormatTime` treat numbers as unbounded integers. JavaScript numbers lose integer precision beyond 2^53, and `toString()` switches to exponent notation from 10^21. The timer never leaves 0..1500.
- `FormatTime` is defined for every integer, with the floor division and the truncating remainder written out. Its lemmas cover only non-negative input, because the timer never shows a negative time.
- HabitTracker.ToggleHabit: the press of an id absent from the list is a precondition. There `find` returns `undefined` and reading `.completed` throws. The app only passes ids of habits on screen.
- HabitTracker.ToggleHabit: with duplicate ids every matching habit flips, and the ad follows the first of them. The count lemmas assume unique ids, which the start list has.
- HabitTracker.CompletedHabits: the contract states membership both ways, and `CompletedCountIsCardinality` states the length. Neither states the order of the kept habits. The count is what the screen shows.
- DailyContent.DailyIndex: the contract states the range and the first cycle, not the remainder for every day. `FiveDayCycle` gives the periodicity within a month.
- FocusTimer.TickStep: when the last second is taken off, the app renders "00:00" once before its effect stops and resets the timer. The model folds that effect run into the same tick, so this transient render is not one of its states.
- FocusTimer.PomodoroTimer.Toggle: it assumes a consistent state. The effect run after a press then finds time left, so it only arms or clears the interval. A state with 0 seconds left is settled by the effect before any press can happen.
