# GymSite front-end logic, modelled in Dafny

GymSite is a static gym website whose pages share a handful of browser
scripts. This project models the logic under those scripts:

- the toast notifications and the confirm dialog that replace the
  browser's `alert` and `confirm`;
- the loading spinners (page, button and inline);
- the theme switcher (auto, light, dark);
- the page controllers that read and write local storage: class booking
  and the "c/t spots" counters, the community feed, the member dashboard,
  nutrition tracking, the animated stat counters, and the home page's
  menu, registration form and booking buttons.

The DOM is a `Dom.Element` class with the fields the scripts touch:
`innerHTML`, `disabled`, classes, `dataset`, attributes and inline style.
Text content is `innerHTML` with tags removed. Local storage is a
`Storage.LocalStorage` class with one typed list per JSON key and a map
for the plain string keys. A missing list reads as empty, as
`JSON.parse(getItem(k) || '[]')` does. Time is integer milliseconds, and
the local time zone is a fixed offset. "Now", the system's dark
preference, the window width and form field values are inputs.

Pending `setTimeout` callbacks of the toast system are an explicit timer
queue. `Toast.ToastNotification.RunNextTimer` plays the event loop: it
fires the earliest timer, so a toast's lifecycle (mounted, shown, hiding,
removed) and a dialog's (pending, answered, removed) follow the order the
browser would run them in. Elsewhere a delayed step (the 600 ms booking
save, the 150 ms menu close) is a separate method, applied in its place
in the sequence of events.

Where a script does something its authors probably did not mean, the
model does what the code does, and a lemma states the consequence. For
example:

- cancelling a booking does not wait for the answer, because the
  `confirm` replacement returns a promise, which is truthy;
- `resetBookingButton` never finds the booking it looks for;
- a second button-spinner hide re-enables the button;
- each confirm dialog closed by a click leaves its Escape listener behind;
- any stat text containing "g", "glasses" included, gets the "g" suffix;
- `parseValue("Rs.500")` is 0.5;
- the streak counts workouts, not days.

Files, one module each: `wrappers`, `strings`, `seqs`, `calendar`, `dom`
and `storage` are shared helpers. `toast`, `loading_spinner`,
`dark_mode`, `spots`, `classes`, `community`, `dashboard`, `nutrition`,
`animated_counters` and `index_page` follow the scripts.

## Model

| member | source | states |
|---|---|---|
| Toast.KindDefaultMs | toast.js:76-99 | every shorthand's default duration is positive (success 5000, error 7000, warning 6000, info 5000) |
| Toast.FindEarliest | toast.js:56-67 | the timer that fires next is the earliest due, and the first registered among equals |
| Toast.ToastNotification.constructor | toast.js:7-10 | a fresh notifier has an empty container, no dialogs or listeners, and exactly one toast container in the document |
| Toast.ToastNotification.Init | toast.js:12-21 | a container is created only when none exists, so repeated init never adds a second one |
| Toast.ToastNotification.Show | toast.js:30-71 | appends exactly one toast at the end of the container and returns its index; schedules `show` after 100 ms, and auto-hide after `duration` only when duration > 0; the whole new state is `WithToast` of the old one |
| Toast.WithToast | toast.js:30-71 | showing a toast changes nothing but the toast list, the container and the timer queue: the old toasts stay as a prefix, one id is appended to the container, and one timer is added when duration <= 0, two otherwise |
| Toast.WithDialog | toast.js:109-171 | opening a confirmation changes nothing but the dialogs, the Escape handlers and the timers: one pending dialog in the body, its handler, and the overlay's show timer at 100 ms |
| Toast.ToastNotification.ShowKind | toast.js:76-99 | success/error/warning/info is `show` with the kind's default when no duration is given: the mount timer at 100 ms and an auto-hide timer at the default, which is always scheduled |
| Toast.ToastNotification.Loading | toast.js:176-178 | an info toast with duration 0, for which no auto-hide timer is scheduled |
| Toast.ToastNotification.Alert | toast.js:210-212 | `alert` becomes an info toast titled 'Notice' whose only timers are the mount at 100 ms and the auto-hide at 5000 ms |
| Toast.ToastNotification.CloseClicked | toast.js:47 | the close button removes exactly that toast from the container |
| Toast.ToastNotification.Hide | toast.js:64-67 | the toast gets `hide` and its removal is scheduled 300 ms later |
| Toast.ToastNotification.Clear | toast.js:183-189 | every toast in the container gets `hide`, and one removal per toast is scheduled 300 ms later, in container order |
| Toast.ToastNotification.Confirm | toast.js:109-171 | adds one pending dialog with the given or default button texts, registers its Escape handler, schedules the overlay's show at 100 ms (the whole new state is `WithDialog` of the old one) and returns the dialog's index |
| Toast.ToastNotification.ConfirmOverride | toast.js:214-216 | `confirm` returns the pending promise, which is truthy, instead of a boolean; the new state is `WithDialog` with title 'Confirmation' and the default buttons, so the overlay's show timer at 100 ms and its Escape handler are stated |
| Toast.ToastNotification.Settle | toast.js:138-151 | cleanup, then resolve: the first answer sticks and the overlay's removal is scheduled |
| Toast.Answered | toast.js:138-151 | an answered dialog is hidden and settled: a pending one takes the answer, a settled one keeps its first answer, and nothing else about it changes |
| Toast.ToastNotification.Click | toast.js:143-159 | the confirm button answers true, the cancel button and the backdrop answer false: the dialog is hidden, a pending one is resolved, every other dialog stays, and exactly the overlay removal at now + 300 ms is queued; a click inside the box changes no dialog and no timer; the Escape handler stays registered |
| Toast.ToastNotification.KeyDown | toast.js:162-169 | Escape answers false to each dialog with a registered handler (hidden, resolved if still pending), leaves every other dialog as it was, queues one overlay removal at now + 300 ms per handler in registration order, and unregisters all of them; other keys change nothing |
| Toast.ToastNotification.RunNextTimer | toast.js:56-67 | fires the earliest timer, the first registered among equals, and takes exactly it out of the queue; the toasts, container and dialogs become what its callback makes of them, and only an auto-hide registers a new timer, the removal 300 ms later; a toast starts hiding only at `createdAt + duration` with duration > 0 |
| Toast.ToastNotification.Dequeue | toast.js:56 | the fired timer leaves the queue and the clock moves to its due time |
| Toast.ToastNotification.Fire | toast.js:56-67 | each callback has its own effect: the mount adds `show`, the auto-hide adds `hide` and schedules the removal, the removal takes the toast out of the container, the overlay timers show it or take it out of the body; nothing else changes |
| Toast.ToastNotification.MarkShown | toast.js:56 | the mounted toast gets `show` and keeps the lifecycle invariants |
| Toast.ToastNotification.SetDialog | toast.js:132-140 | showing an overlay or taking it out of the body keeps its outcome and the invariants |
| Toast.ToastNotification.Wait | toast.js:56 | the clock moves forward without overtaking a pending timer |
| Toast.RemoveId | toast.js:47 | `element.remove()` drops exactly that id and keeps the container duplicate-free |
| Toast.HideAll | toast.js:183-189 | marking the listed toasts keeps the toast count |
| Toast.HideAllMarks | toast.js:183-189 | exactly the listed toasts are hiding afterwards; the others are unchanged |
| Toast.RemovalTimers | toast.js:186-188 | one removal timer per listed toast, in order |
| Toast.ToastLifecycle | toast.js:56-67 | a toast's callbacks in order: shown, then hiding with the other toasts untouched, then the scheduled removal takes it and only it out of the container |
| LoadingSpinner.Created | loading-spinner.js:9-34 | creating the container is idempotent: an existing one is returned unchanged |
| LoadingSpinner.Shown | loading-spinner.js:37-58 | the text is the message, `active` is added, the body overflow is 'hidden', and size/type classes accumulate |
| LoadingSpinner.Hidden | loading-spinner.js:67-76 | nothing before the first show; otherwise only the base class is left and the overflow is '' |
| LoadingSpinner.HideIdempotent | loading-spinner.js:67-76 | a second `hideSpinner` leaves the same state as one |
| LoadingSpinner.ShowTwice | loading-spinner.js:43-57 | a second show replaces the message and keeps the first show's classes |
| LoadingSpinner.BoolString | loading-spinner.js:87 | the saved `originalDisabled` reads 'true' exactly when the button was disabled |
| LoadingSpinner.ShowButton | loading-spinner.js:79-97 | saves `innerHTML` and `disabled` in `dataset`, disables the button, adds `loading` |
| LoadingSpinner.HideButton | loading-spinner.js:106-117 | restores the saved content (or the text content), the saved flag (or enabled), removes `loading` and the saved fields |
| LoadingSpinner.ShowThenHideRestores | loading-spinner.js:79-117 | show then hide gives back the content and the `disabled` flag |
| LoadingSpinner.SecondHide | loading-spinner.js:109-113 | a second hide sets the content to its text and enables the button |
| LoadingSpinner.SecondHideEnables | loading-spinner.js:109-113 | so a second hide is not a no-op: a disabled button comes back enabled |
| LoadingSpinner.ShowInline | loading-spinner.js:121-132 | the element's content is the inline spinner with the message, and it has `has-spinner` |
| LoadingSpinner.HideInline | loading-spinner.js:141-144 | `has-spinner` is removed, every other class stays, and the content, disabled flag, dataset, attributes and style are kept, so the spinner markup is not taken out |
| LoadingSpinner.InlineHideKeepsSpinner | loading-spinner.js:131-143 | hiding an inline spinner leaves its markup in place |
| LoadingSpinner.ErrorText | loading-spinner.js:172 | the error toast shows `error.message`, or 'An error occurred' when it is empty |
| LoadingSpinner.Spinners.constructor | loading-spinner.js:5-6 | no spinner container exists before the first show |
| LoadingSpinner.Spinners.CreateContainer | loading-spinner.js:9-34 | at most one container is ever appended |
| LoadingSpinner.Spinners.Show | loading-spinner.js:37-64 | the page state becomes `Shown` with the message, default 'Loading...' |
| LoadingSpinner.Spinners.Hide | loading-spinner.js:67-76 | the page state becomes `Hidden` |
| LoadingSpinner.Spinners.WithSpinner | loading-spinner.js:147-156 | the outcome, result or exception, is passed on unchanged, and the spinner is hidden either way |
| LoadingSpinner.ShowButtonSpinner | loading-spinner.js:79-103 | a missing button gives null; otherwise the button becomes `ShowButton` of its old state |
| LoadingSpinner.HideButtonSpinner | loading-spinner.js:106-118 | the button becomes `HideButton` of its old state |
| LoadingSpinner.ShowInlineSpinner | loading-spinner.js:121-138 | a missing element gives null; otherwise the element becomes `ShowInline` |
| LoadingSpinner.HideInlineSpinner | loading-spinner.js:141-144 | the element becomes `HideInline` |
| LoadingSpinner.WrappedClick | loading-spinner.js:159-177 | the button is shown and hidden whatever happens; a failure adds one error toast with `ErrorText` and a 7000 ms auto-hide when toasts are loaded (`WithToast` of the old state), and a success leaves the notifier's state unchanged; only the notifier's toasts, container and timers may change |
| LoadingSpinner.FormSubmitted | loading-spinner.js:181-196 | an opted-in form shows 'Processing...' on its submit button, or on the page spinner when it has none; other forms change nothing |
| DarkMode.StoredOrAuto | dark-mode.js:184-186 | the stored preference, or 'auto' when missing or empty |
| DarkMode.NextTheme | dark-mode.js:150-163 | auto goes to light, light to dark, anything else to auto, in both directions |
| DarkMode.ThreeTogglesCycle | dark-mode.js:150-163 | three toggles from a valid preference come back to it |
| DarkMode.Effective | dark-mode.js:39-48 | for a valid preference the effective theme is dark exactly when it is dark, or auto with a dark system |
| DarkMode.ThemedClasses | dark-mode.js:51-52 | the root keeps its other classes and carries exactly one of light/dark, the effective one |
| DarkMode.IconFor | dark-mode.js:122-142 | sun for dark, moon for light, adjust for anything else |
| DarkMode.ThemeManager.constructor | dark-mode.js:7-11 | the manager starts with no switcher in the document |
| DarkMode.ThemeManager.EffectiveTheme | dark-mode.js:189-191 | the root's `data-theme`, or 'light' when missing or empty |
| DarkMode.ThemeManager.UpdateButton | dark-mode.js:114-143 | icon and tooltip follow the preference, and nothing changes while there is no button |
| DarkMode.ThemeManager.ApplyTheme | dark-mode.js:37-58 | root classes, `data-theme` and `data-theme-preference` follow the requested preference |
| DarkMode.ThemeManager.CreateSwitcher | dark-mode.js:61-111 | nothing when a switcher exists or there is no nav; otherwise exactly one switcher, with the moon icon |
| DarkMode.ThemeManager.Init | dark-mode.js:14-34 | the stored preference is applied: classes, `data-theme` = the effective theme and `data-theme-preference` = the preference, every other attribute kept; an existing switcher gets the preference's icon and title; otherwise a switcher is created with the moon icon and no title when there is a nav, and nothing changes when there is none |
| DarkMode.ThemeManager.Toggle | dark-mode.js:146-181 | the next preference is stored; the root's `data-theme` becomes the effective theme and `data-theme-preference` the preference; an existing switcher gets the preference's icon and title, and without one they stay; the notifier's new state is `WithToast` of an info toast naming the preference, with its 5000 ms default, and only its toasts, container and timers may change |
| DarkMode.ThemeManager.SetTheme | dark-mode.js:196-201 | only light, dark and auto are stored and applied: the classes, `data-theme`, `data-theme-preference` (other attributes kept) and an existing switcher's icon and title follow the theme; any other value changes nothing |
| DarkMode.ThemeManager.SystemPreferenceChanged | dark-mode.js:27-32 | with an auto preference, the classes, `data-theme` (the new system theme) and `data-theme-preference` are re-applied, other attributes kept, and an existing switcher shows the auto icon and title; with any other preference the root, icon and title are unchanged |
| Spots.DigitRun | classes.js:263 | the length of the digit run at a position, maximal |
| Spots.MatchAt | classes.js:263 | a match at a position has a non-empty run of digits as its first group |
| Spots.FindMatch | classes.js:263 | a match found has a non-empty run of digits in both groups |
| Spots.FindMatchLeftmost | classes.js:263 | the match found is the one at the leftmost position where the pattern matches |
| Spots.FindMatchNone | classes.js:263 | nothing is found exactly when the pattern matches at no position |
| Spots.FindMatchAt | classes.js:263 | a match at a position with no match before it is the one found |
| Spots.NoDigitsNoMatch | classes.js:263 | text without digits starts no match, so a counter behind it is the first match |
| Spots.MatchAtIntro | classes.js:263 | digit runs of the pattern's shape at a position make a match there, with those runs as groups |
| Spots.MatchOfParts | classes.js:263 | `prefix c/t<suffix> rest` with no match in the prefix yields the groups c and t |
| Spots.CounterRoundTrip | classes.js:263-267 | the pattern finds `c` and `t` again in a printed "c/t<suffix>", wherever it stands in the text, when no match starts before it |
| Spots.Decrement | classes.js:263-266 | a matched counter goes down by one and is never below -1 |
| Spots.DecrementCounter | classes.js:263-267 | a printed "c/t<suffix>" anywhere in the text, with no match before it, decrements to (c-1, t) |
| Spots.AfterBooking | classes.js:259-275 | text without the word or the pattern is left alone; otherwise the content becomes the decremented counter, or at 0 the 'Class Full' text in red; classes, dataset, attributes and `disabled` never change |
| Spots.UpdateAvailableSpots | classes.js:259-275 | the spots element, when there is one, becomes `AfterBooking` of its old state |
| Spots.MatchAtPos | classes.js:263 | a printed "c/t" followed by the suffix at a position matches there with groups c and t |
| Spots.WordCounter | classes.js:259-266 | a text holding a printed counter followed by the word, with no match before it, contains the word and decrements to (c-1, t) |
| Spots.AfterWordCounter | classes.js:259-272 | such a counter becomes "(c-1)/t" with the style kept; the last spot becomes the red 'Class Full' text |
| Spots.AfterCounterBehindText | classes.js:259-272 | the same for a counter behind any text without digits, such as the icon's space |
| Classes.VisibleByDay | classes.js:25 | 'all' shows every column; any other filter shows exactly the columns of that day |
| Classes.SelectDay | classes.js:16-30 | only the clicked button is active, and each column is shown or hidden by `Visible` |
| Classes.MarkActive | classes.js:19-20 | `active` is removed from every filter button and added to the clicked one only |
| Classes.ShowDay | classes.js:23-29 | each column is shown exactly when it is visible for the selected day, its other styles kept |
| Classes.BookingKeepsUnique | classes.js:67-101 | appending a booking that passed the duplicate check keeps every class booked at most once |
| Classes.BookClick | classes.js:49-81 | logged out: only a login prompt; already booked: only a warning toast with its 6000 ms default; otherwise a confirmation; each branch states the notifier's whole new state (`WithDialog` / `WithToast`), keeping the bookings read at click time; storage is not written |
| Classes.LoginAnswered | classes.js:58-62 | a confirmed login prompt redirects to the registration form, a declined one does not |
| Classes.BookedButton | classes.js:105-108 | the button reads 'Booked!', is disabled and turns green |
| Classes.SpinnerLeavesNoTrace | classes.js:84-108 | the button spinner during the save leaves no trace on the booked button but the removed `loading` class |
| Classes.NewBooking | classes.js:89-97 | the new record carries the clicked class and the booking instant as its id |
| Classes.BookingAnswered | classes.js:81-118 | declined: nothing changes, the notifier included; confirmed: exactly one record appended to the bookings read at click time, button booked, counter down, and the notifier's new state is `WithToast` of the success toast with its 5000 ms default |
| Classes.MarkBooked | classes.js:84-108 | the button goes through the spinner (when loaded) and ends up booked |
| Classes.KeptBookings | classes.js:162 | no booking with the id is left, and every other booking stays |
| Classes.FindBooking | classes.js:179 | the booking found has that id and is the first booking with it; none found means none has it |
| Classes.FindAfterCancel | classes.js:162-179 | after the filter, `find` for the same id finds nothing |
| Classes.FirstWithClass | classes.js:182 | the first button whose `data-class` is the class, if any |
| Classes.ResetButton | classes.js:184-187 | the button reads 'Book' and is enabled again |
| Classes.Reset | classes.js:184-187 | the button found for the cancelled booking becomes `ResetButton` of its old state |
| Classes.ResetBookingButton | classes.js:177-190 | resets the first button of the stored booking's class, and only when storage still holds that booking |
| Classes.CancelBooking | classes.js:157-174 | the bookings with the id are removed before the question is answered; the question stays open, and the notifier's new state is `WithDialog` of it, so its Escape handler and show timer are stated; no button changes |
| Classes.SimulateLogin | classes.js:278-282 | sets the login flag; the notifier's new state is `WithToast` of the 'Notice' toast of `alert`, with its 5000 ms auto-hide |
| Classes.ScheduleCounterDecrements | classes.js:259-268 | "c/t spots" anywhere in the card's text, with no match before it, becomes "(c-1)/t spots" with the total unchanged |
| IndexPage.MenuStep | index.js:8-48 | open sets display flex and right 0; every other handler leaves display alone and sets right to -60% exactly when its rule closes the menu |
| IndexPage.OnceOpenedStaysFlex | index.js:8-15 | once opened, the menu stays displayed whatever handlers run |
| IndexPage.NeverOpenedNeverShown | index.js:8-48 | without an open click, the menu's display never changes |
| IndexPage.OpenThenEscape | index.js:44-48 | after opening, Escape closes the menu on any window width |
| IndexPage.HandleMenuEvent | index.js:5-48 | the menu's style becomes `MenuStep` of its old style |
| IndexPage.FirstNameOrMember | index.js:92 | the first name, or 'Member' when it is empty |
| IndexPage.Register | index.js:84-98 | shows the message, sets the login flag and name, empties the four lists, and writes no other key |
| IndexPage.HomeBookClick | index.js:113-143 | logged out: a login prompt; logged in: the booking question; each is stated as the notifier's whole new state (`WithDialog`); storage is only read |
| IndexPage.ShowBookingSuccess | index.js:162-169 | a success toast with duration 4000: the notifier's new state is `WithToast` of it, so the container entry, the mount timer and the 4000 ms auto-hide are stated |
| IndexPage.HomeBookingAnswered | index.js:143-156 | a confirmed booking marks the button, shows the 4000 ms success toast (`WithToast`) and lowers the counter, but writes nothing to storage; a declined one leaves the notifier unchanged |
| IndexPage.HomeCounterDecrements | index.js:171-180 | "c/t spots available" anywhere in the card's text, with no match before it, becomes "(c-1)/t spots available" |
| IndexPage.LastSpotFillsClass | index.js:177-185 | a "1/t spots available" counter, with no match before it, turns into 'Class Full - Join Waitlist' in red |
| Community.NewPost | community.js:449-460 | a new post is the member's own, with no likes or comments and not liked |
| Community.CreatePost | community.js:440-469 | blank content is refused with a warning (`WithToast`, 6000 ms) and the feed is unchanged; otherwise exactly one post is prepended and the notifier is unchanged |
| Community.WarnContentRequired | community.js:443-446 | blank content gives one 'Content Required' warning toast and nothing else: the notifier's new state is `WithToast` of it with the 6000 ms default |
| Community.PhotoCaption | community.js:694 | a photo post always has some text |
| Community.PhotoCaptionChoice | community.js:685-694 | a non-blank caption is posted trimmed; a blank one gets 'Shared a progress photo!' |
| Community.SharePhoto | community.js:684-711 | exactly one photo post is prepended |
| Community.WorkoutMessage | community.js:716-734 | never empty; a non-blank message is posted trimmed, and a blank one gets the generated workout text |
| Community.FindWorkout | community.js:725 | the workout found has an id equal, under `==`, to the selected value |
| Community.ShareWorkout | community.js:714-752 | no selection gives a warning (`WithToast`, 6000 ms); a found workout is posted at the head; an unknown one changes nothing; with a selection the notifier is unchanged |
| Community.OfferedWorkoutIsFound | community.js:770-773 | every workout offered in the picker is found again from its value |
| Community.FindWorkoutAt | community.js:725 | the first workout whose id matches is the one found |
| Community.BlankSelectionMatchesZero | community.js:725 | `" " == 0` in JavaScript, so a blank value finds a workout with id 0 |
| Community.Toggled | community.js:477-483 | the like flips and the count moves by one in the matching direction; nothing else changes |
| Community.FirstPost | community.js:474 | the first post with that id, if any |
| Community.ToggleLike | community.js:472-488 | only the first post with that id changes; an unknown id changes nothing |
| Community.ToggleTwiceRestores | community.js:472-488 | two toggles give the feed back exactly |
| Community.FirstPostUnique | community.js:474 | `find` returns the first post with the id |
| Community.FindRequest | community.js:625 | the request found has that id |
| Community.FindRequestFirst | community.js:625 | `find` returns the first request with that id: none before it has the id |
| Community.OtherRequests | community.js:638 | no request with the id is left and every other request stays |
| Community.AcceptFriendRequest | community.js:621-646 | a found request becomes one new offline friend and its requests go; an unknown id changes nothing |
| Community.DeclineFriendRequest | community.js:649-656 | the requests with that id go; friends are untouched |
| Community.AnsweredRequestIsGone | community.js:638-653 | no request with an answered id remains |
| Community.FilterBuddies | community.js:516-522 | no more buddies than stored, each a stored buddy that matches the lower-cased term |
| Community.FilterBuddiesKeeps | community.js:516-522 | a buddy is kept exactly when the lower-cased term occurs in its name, level or a goal |
| Community.EmptySearchKeepsAll | community.js:516-522 | an empty search keeps every buddy |
| Community.SearchIgnoresCase | community.js:516-522 | terms equal up to case give the same result |
| Community.FilterBuddiesByTime | community.js:567-576 | 'all' keeps everyone; any other filter keeps exactly the buddies whose time matches ignoring case |
| Community.CapitalAllIsAFilter | community.js:568 | 'All' is not 'all': it filters by a time called 'all' |
| Community.AgeOf | community.js:798-807 | hours are between 1 and 23, days at least 1 |
| Community.FormatTimestamp | community.js:795-808 | 'Just now' under an hour, and text ending in ' ago' from an hour on |
| Community.AgeBuckets | community.js:795-808 | 'Just now' under an hour, hours under a day, whole days after that |
| Community.FutureIsJustNow | community.js:798-801 | a timestamp in the future reads 'Just now' |
| Community.ChallengeClicked | community.js:258-268 | 'Join Challenge' becomes 'Joined!' and anything else becomes 'Join Challenge' |
| Community.JoinThenLeave | community.js:258-268 | joining then leaving brings the button text back |
| Community.JoinChallengeClicked | community.js:254-269 | the button becomes `ChallengeClicked`, and the notice names the challenge joined or left |
| Dashboard.StreakFrom | dashboard.js:69-79 | the streak never exceeds the number of workouts |
| Dashboard.SortNewestFirst | dashboard.js:67 | the array is sorted newest first in place |
| Dashboard.CalculateCurrentStreak | dashboard.js:59-82 | 0 for no workouts; the caller's array is left sorted; the result is `StreakFrom` of the sorted workouts and at most their number |
| Dashboard.CurrentStreak | dashboard.js:59-82 | the streak of a list of workouts is at most its length |
| Dashboard.SameDayWorkoutsEachCount | dashboard.js:69-79 | three workouts on the same day make a streak of 3 |
| Dashboard.FutureWorkoutCounts | dashboard.js:71-74 | a workout dated in the future still counts |
| Dashboard.GapEndsStreak | dashboard.js:71-78 | a two-day gap stops the streak |
| Dashboard.StartOfWeek | dashboard.js:87-89 | the week starts on the local Sunday at midnight, at most 7 days before now |
| Dashboard.WorkoutsThisWeek | dashboard.js:85-95 | the week's count is at most the number of workouts |
| Dashboard.LoggedWorkoutCountsThisWeek | dashboard.js:85-95 | a workout logged now adds one to this week's count |
| Dashboard.ConsistencyProgress | dashboard.js:251-266 | between 0 and 100, and 0 for no workouts |
| Dashboard.ConsistencyFull | dashboard.js:258-265 | 100 exactly when at least 12 workouts fall in the last 30 days |
| Dashboard.AchievementsOf | dashboard.js:269-298 | the ten-workout badge implies the first-workout badge, and the 30-day streak badge implies the ten-workout badge |
| Dashboard.StreakImpliesCounts | dashboard.js:273-298 | the 30-day streak badge implies the workout badges |
| Dashboard.CountAchievementsMonotone | dashboard.js:273-298 | more workouts or bookings never lock a count badge |
| Dashboard.AchievementDetail | dashboard.js:318-327 | every id gets a message, unknown ones 'Achievement details not found.' |
| Dashboard.ShowAchievementDetails | dashboard.js:318-327 | one info toast titled 'Achievement Details': the notifier's new state is `WithToast` of it with the 5000 ms default |
| Dashboard.WorkoutIcon | dashboard.js:162-172 | unknown workout types get the running icon |
| Dashboard.Activities | dashboard.js:100-125 | one activity per workout and per booking |
| Dashboard.RecentActivity | dashboard.js:126-128 | at most 5 activities, fewer only when there are fewer, newest first, each one of the workouts' or bookings' activities and none repeated more often than it occurs (a sub-multiset) |
| Dashboard.RecentIsNewest | dashboard.js:126-128 | an activity left out is not newer than any one shown |
| Dashboard.UpcomingClasses | dashboard.js:179 | the first 3 bookings, or all when fewer; the length is exactly min(3, number of bookings) |
| Dashboard.CommunityActivity | dashboard.js:513-516 | at most 3 posts, newest first, a sub-multiset of the posts by the member and friends |
| Dashboard.CommunityActivityFromCircle | dashboard.js:513-516 | each post shown is the member's own or a friend's |
| Dashboard.CircleShownUnlessOutdated | dashboard.js:513-516 | a post from the circle left out is not newer than any post shown |
| Dashboard.Preview | dashboard.js:537 | up to 50 characters unchanged; longer text becomes its first 50 characters and '...' |
| Dashboard.SocialStatsOf | dashboard.js:549-562 | the friends total is the number of friends |
| Dashboard.NewPostKeepsTotals | dashboard.js:554-557 | a new post with no likes or comments leaves the totals as they were |
| Dashboard.OthersPostsIgnored | dashboard.js:554-557 | posts of other users do not count toward the totals |
| Dashboard.LogWorkout | dashboard.js:379-396 | exactly one workout appended, its duration read with `parseInt` |
| Dashboard.StoredWeight | dashboard.js:405 | a weight of 0 or one that did not parse is stored as null |
| Dashboard.SaveProgressPhoto | dashboard.js:399-415 | exactly one photo record appended |
| Dashboard.SetGoal | dashboard.js:418-436 | exactly one goal appended |
| Nutrition.InitializeNutritionPage | nutrition.js:11-41 | logged out: redirect, goals untouched; logged in: default goals written only when none are stored |
| Nutrition.ProteinSumAppend | nutrition.js:68 | the protein total is additive over meals |
| Nutrition.TodayTotals | nutrition.js:52-70 | with no meal dated today the calorie and protein totals are 0, and with no water entry dated today the water total is 0 |
| Nutrition.LoggedMealCountsToday | nutrition.js:58-70 | a meal logged now adds its calories (0 when missing) and protein to today's totals |
| Nutrition.OtherDayMealIgnored | nutrition.js:58-70 | a meal from another day leaves today's totals unchanged |
| Nutrition.LoggedWaterCountsToday | nutrition.js:64-70 | water logged now adds its amount to today's total |
| Nutrition.GoalOr | nutrition.js:100-102 | a stored non-zero goal is used, otherwise the fallback; never 0 |
| Nutrition.Progress | nutrition.js:100-102 | at most 100, exactly 100 when the total reaches the goal, non-negative for non-negative totals |
| Nutrition.ProgressBars | nutrition.js:82-107 | every bar is at most 100; without stored goals a bar is full exactly when today's total reaches 2000 calories, 150 g of protein or 8 glasses |
| Nutrition.EightGlassesFillWaterBar | nutrition.js:100-102 | 8 glasses fill the water bar with the default or missing goals |
| Nutrition.GoalUnit | nutrition.js:166 | 'glasses' exactly for water, 'cal' exactly for calories, 'g' otherwise |
| Nutrition.DefaultGoalUnits | nutrition.js:32-41 | the units of the five default goals |
| Nutrition.GetWeekDates | nutrition.js:201-213 | seven dates, the i-th moved from the given date by i minus its weekday days |
| Nutrition.WeekDatesCoverWeek | nutrition.js:201-213 | day i of the week is weekday i, Sunday first, and the given date is among them |
| Nutrition.DayShift | nutrition.js:208-209 | moving by k days moves the local day by k |
| Nutrition.NewMeal | nutrition.js:273-286 | calories read with `parseInt`; a missing macro becomes 0 |
| Nutrition.LogMeal | nutrition.js:271-291 | exactly one meal appended |
| Nutrition.LogWater | nutrition.js:294-310 | exactly one water entry appended, its amount read with `parseInt` |
| Nutrition.SearchRecipes | nutrition.js:355-394 | an empty limit keeps every recipe; otherwise exactly the recipes within the limit, from the fixed list |
| Nutrition.UnparsableLimitFindsNothing | nutrition.js:388-392 | a limit that does not parse keeps no recipe |
| Nutrition.DietTypeIgnored | nutrition.js:355-394 | the diet type does not change the result |
| Nutrition.ThreeHundredCalories | nutrition.js:360-393 | a limit of 300 finds only the 250-calorie recipe |
| Nutrition.ParseThreeHundred | nutrition.js:388 | '300' reads as 300 |
| AnimatedCounters.Cleaned | animated-counters.js:26 | only digits and points remain, never more characters than the input |
| AnimatedCounters.CleanedAppend | animated-counters.js:26 | removing non-number characters works piecewise |
| AnimatedCounters.CleanedOfUnit | animated-counters.js:26 | a text without digits or dots cleans to nothing |
| AnimatedCounters.CleanedDigits | animated-counters.js:26 | digits are kept as they are |
| AnimatedCounters.CleanedKeepsAll | animated-counters.js:26 | a text of digits and points is left unchanged by the cleaning |
| AnimatedCounters.ParseDecimal | animated-counters.js:27 | empty text is NaN; text starting with a digit always reads as a number; a number read is never negative |
| AnimatedCounters.FractionDigits | animated-counters.js:27 | `parseFloat` reads only digits after the point |
| AnimatedCounters.DecimalValue | animated-counters.js:27 | the value read is never negative |
| AnimatedCounters.ParseValue | animated-counters.js:22-30 | the value of any text is non-negative, 0 when nothing parses |
| AnimatedCounters.CommaIgnored | animated-counters.js:26 | commas do not change the value |
| AnimatedCounters.RupeeTextReadsAsHalf | animated-counters.js:26-27 | 'Rs.500' reads as 0.5, because the dot of 'Rs.' is kept |
| AnimatedCounters.CleanedRupee | animated-counters.js:26 | 'Rs.500' cleans to '.500' |
| AnimatedCounters.ParseHalf | animated-counters.js:27 | '.500' reads as 0.5 |
| AnimatedCounters.ToFixed | animated-counters.js:34 | digits on both sides of the point, exactly `decimals` after it, negative exactly for negative numbers |
| AnimatedCounters.Pow10Written | animated-counters.js:27 | the place value 10^k is the number written as a one followed by k zeros |
| AnimatedCounters.ToFixedValue | animated-counters.js:34 | the printed digits are the rounded value |
| AnimatedCounters.Group | animated-counters.js:38 | three digits or fewer are left ungrouped |
| AnimatedCounters.CleanedGroup | animated-counters.js:38 | removing the commas gives the digits back |
| AnimatedCounters.FractionIsGrouped | animated-counters.js:38 | with five decimals the fraction gets a comma too, after its second digit |
| AnimatedCounters.CleanedBody | animated-counters.js:32-42 | cleaning a formatted number gives back its digits and point |
| AnimatedCounters.FormatNumber | animated-counters.js:32-42 | the prefix, then a non-empty number, then the suffix |
| AnimatedCounters.ParseFormatted | animated-counters.js:22-42 | reading a formatted non-negative number gives its rounded value, when the affixes hold no digit or dot |
| AnimatedCounters.WholeNumberRoundTrip | animated-counters.js:22-42 | a whole number formatted with no decimals reads back as itself |
| AnimatedCounters.AnimatedCounter.constructor | animated-counters.js:10-20 | options fall back to 2000 ms, no delay, no decimals and no affixes; the counter starts unanimated |
| AnimatedCounters.AnimatedCounter.Animate | animated-counters.js:44-54 | runs once: a later call changes nothing |
| AnimatedCounters.AnimatedCounter.Complete | animated-counters.js:69-72 | the final text is the formatted target, and `animating` is replaced by `counted` |
| AnimatedCounters.DetectAffixes | animated-counters.js:126-139 | 'g' first, then ' cal', then the 'Rs.' prefix; the 'glasses' branch adds nothing |
| AnimatedCounters.GlassesMeansGrams | animated-counters.js:127-135 | a text with 'glasses' gets the 'g' suffix |
| AnimatedCounters.RupeePrefixDetected | animated-counters.js:136-138 | 'Rs.' without 'g' or 'cal' gets the prefix |
| AnimatedCounters.TargetText | animated-counters.js:114-117 | a non-empty `data-target` wins over the trimmed text |
| AnimatedCounters.ContainerVisible | animated-counters.js:102-106 | a stat container gets `visible`, other elements are left alone |
| AnimatedCounters.ClaimStatNumber | animated-counters.js:109-149 | an element already claimed is left alone; otherwise it is claimed once and animated with the detected affixes and a delay of 100 ms per position |
| AnimatedCounters.AnimateCounter | animated-counters.js:190-196 | a missing element does nothing; otherwise a counter is built from the options and started |
| Strings.ParseInt | nutrition.js:276 | no number exactly when no digit follows the leading spaces and sign |
| Strings.ParseIntOfPrinted | nutrition.js:276 | `parseInt` reads a printed integer back, whatever follows it |
| Strings.ParseNonNegative | nutrition.js:276 | `parseInt` of a printed natural number reads it back |
| Strings.ParseNegative | nutrition.js:276 | `parseInt` of a minus sign and a printed number reads back its negation |
| Strings.IntegerTextOfPrinted | community.js:725 | the number a printed integer id converts to under `==` is that id |
| Strings.Lower | community.js:519 | `toLowerCase` keeps the length and lowers each letter |
| Strings.Trim | community.js:441 | `trim` gives a text no longer than the input that neither starts nor ends with white space |
| Strings.TrimDropsOnlySpace | community.js:441 | the trimmed text is a slice of the input with only white space before and after it |
| Strings.TrimEmptyIffBlank | community.js:441-446 | trimming gives '' exactly for blank text |
| Strings.ContainsIffOccurs | classes.js:261 | `includes` holds exactly when the text occurs at some position |
| Strings.ContainsMiddle | classes.js:261 | a text includes every piece it was built around |
| Seqs.Filter | classes.js:162 | `filter` keeps exactly the elements that pass: each kept one passes and each passing one is kept |
| Seqs.SortByKeyDesc | dashboard.js:67 | sorting newest first keeps the same elements |
| Seqs.Insert | dashboard.js:67 | inserting into a newest-first list keeps it ordered and adds exactly the one element |
| Seqs.Take | dashboard.js:128 | `slice(0, n)` is the first n elements, or all when fewer, and a sub-multiset of the input |
| Seqs.SortedPrefixMembers | dashboard.js:126-128 | every element of the first n of a newest-first sort is one of the sorted elements |
| Storage.LocalStorage.MemberName | community.js:448 | the stored member name, or 'Member'; never empty |
| Storage.LocalStorage.SetItem | index.js:93-98 | writes exactly the given key |
| Calendar.MidnightBounds | dashboard.js:87-89 | local midnight of a day is at most the instant and less than a day before it |

## Left out

- scroll-to-top.js is not part of this model: it is scroll-event plumbing.
- Elapsed-time behaviour is not modelled: animations, the easing curve and progress-bar transitions. The `setTimeout` delays outside the toast system are modelled only as the order of events. These are the 600 ms booking save, the 150 ms menu close, the 2000 ms community redirect and the 300 ms counter start.
- HTML is not modelled as such; the model keeps the data shown. This covers the feed, buddies, friends, bookings, meals, calendar grids and achievement lists. It also covers the three `showSuccessNotification` copies, their messages and the injected style blocks.
- Floating point is not modelled: numbers are exact reals. `toFixed` is modelled for any size, without its switch to exponent form at 1e21. Form fields read with `parseFloat` are given as `Option<real>` inputs.
- `calculateWeightProgress` (dashboard.js:232-248) is left out because neither branch computes progress. For weight loss the start weight works out to the target, so the divisor `startWeight - target` is always 0. For muscle gain the numerator `current - goal.current` is 0 whenever the stored current weight is plain number text, so the result is 0, or NaN when the target equals the current weight.
- `Dashboard.Preview`: counts Unicode characters, while `length` and `substring` (dashboard.js:537) count UTF-16 code units. Text with characters outside the Basic Multilingual Plane, such as emoji, is cut at a different place, and the source can split a surrogate pair.
- `Seqs.SortByKeyDesc`: the order among elements with equal keys is not stated. The sort keeps the same elements and orders them by key, and nothing more.
- Dates are not modelled in full. The local time zone is a fixed offset with no daylight saving, so `setDate` is a move by whole days.
- `Strings.Lower`: `toLowerCase` is modelled for ASCII letters only.
- `Strings.ParseInt`: the `0x` hexadecimal prefix is not modelled.
- `Strings.IntegerText`, used for `==` between an option value and a numeric id, covers integer text only.
- Two bookings confirmed close together can lose one, because the click reads the bookings and the save writes them later. That interleaving is outside this sequential model.
- The booking handler's DOM lookups (`closest`, `querySelector`) are inputs, the `Slot` and the spots element. The `data-class` attribute is taken as present.
- Methods that update several elements require those elements to be distinct, where the DOM guarantees it.
- The sample data of community.js (lines 40-136) is left out. So is the page initialisation that loads it: `initializeCommunityPage`, `initializeTabs`, `updateCommunityStats` and `initializeDashboard`.
- Placeholder actions are left out: the 'Coming Soon' toasts, `sendBuddyRequest`, `sendFriendRequest`, `addRecipeToPlan`, and the previous/next week calendars.
- Host effects are left out: `window.location` redirects beyond the returned target, `scrollIntoView`, form `reset`, modal open/close and `window.onclick`. Also left out: the hiding of the registration message after 5000 ms, and the nutrition page's login alert.
- `IntersectionObserver`, `observe` and `unobserve` are left out. A counter is claimed when its container becomes visible.
- `AnimatedCounters.AnimateCounter`: the target is taken as text. A number passed by a script goes through `parseFloat` directly, which is not modelled.
- `Dashboard.WorkoutIcon` does not model a type that names a prototype member, such as "toString".
- The dashboard's `formatTimestamp` is the same as the community's and is modelled once, as `Community.FormatTimestamp`.
