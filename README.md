# Wedding invitation: a verified model of its interactive components

This project models, in Dafny, the client-side logic of a single-page wedding
invitation built with React. It covers seven components:

- **Guestbook**: a dialog form that inserts a message into a remote
  `guestbook` table, a newest-first listing of that table, and a
  password-checked delete.
- **WeddingCalendar**: the six-week month grid and the `YYYY.MM.DD WDY`
  header.
- **AudioPlayer**: play/mute toggles over an `<audio>` element, a
  remembered "has interacted" flag in local storage, and a play prompt.
- **AnimatedSection**: reveal-on-scroll sections driven by an init timer,
  a reveal timer and an intersection observer.
- **Gallery**: a 20-photo grid that shows six photos until expanded, plus a
  full-screen dialog opened on one photo.
- **Account**: two collapsible boxes of gift accounts with relationship
  labels.
- **MainContent**: the cover image table and the sections rendered from it.

Modules:

- Each component is one module.
- `Text` holds JavaScript's `trim`, `includes` and UTF-16 `length`.
- `Decimal` holds `String(n)` and `padStart`.
- `Wrappers` holds `Option`.

Modelling choices:

- State the components update in place becomes a class whose methods
  change its fields. Examples: the guestbook controller and table, the
  player with its element and storage, a revealed section, the gallery
  and the account boxes.
- What the components compute becomes functions, and the properties become
  lemmas about those functions.
- Every remote call takes an `Outcome` argument that the environment
  chooses: the call delivers data, delivers `data: null`, or fails.
- The remote table is a map from row id to row.
- The listing is proved to be every row, exactly once, newest first.
- Browser decisions become arguments: whether `play()` is allowed, where
  the element sits, and whether the observer's entry intersects.
- Timers and observer callbacks become explicit event methods.

After a successful insert or delete, the code does not edit the local list:
it reloads the whole table (`Guestbook.jsx:85` and `:109`), and the model
does the same.

## Model

| member | source | states |
|---|---|---|
| Text.TrimSpec | src/components/Guestbook.jsx:69 | `trim()` gives a text no longer than its input. The result is empty exactly when the input is all whitespace, has no whitespace at either end, and is a contiguous stretch of the input with only whitespace cut from each side. |
| Text.TrimOf | src/components/MainContent.jsx:21 | Trimming whitespace placed around a core whose ends are not whitespace gives back exactly that core. |
| Text.Utf16Length | src/components/Guestbook.jsx:69 | `password.length` counts UTF-16 code units: at least one and at most two per character, and exactly one per character when all lie in the Basic Multilingual Plane. |
| Text.Contains | src/components/Account.jsx:152 | `includes` is true exactly when the pattern occurs at some position of the text. |
| Text.MissingCharacter | src/components/Account.jsx:152 | A text lacking one of the pattern's characters does not include the pattern. |
| Decimal.NatToString | src/components/WeddingCalendar/index.jsx:58-59 | `String(n)` of a non-negative integer is all digits with no leading zero. It has one digit exactly when n < 10 and two exactly when 10 <= n < 100. |
| Decimal.NatToStringRoundTrip | src/components/WeddingCalendar/index.jsx:58-59 | Reading back the digits of `String(n)` gives n. |
| Decimal.NatToStringInjective | src/components/Guestbook.jsx:115 | Different numbers have different decimal texts. |
| Decimal.IntToString | src/components/WeddingCalendar/index.jsx:66 | `String(n)` of an integer: the digits of n, or a minus sign followed by the digits of -n. |
| Decimal.PadStart | src/components/WeddingCalendar/index.jsx:58-59 | `padStart(width, fill)` has length max(width, input length), ends with the input, and has only the fill character before it. |
| Decimal.TwoDigits | src/components/WeddingCalendar/index.jsx:58-59 | A number below 100 padded to two digits with "0" is two digits that read back as the number. |
| Guestbook.InsertNewestFirst | src/components/Guestbook.jsx:58 | Inserting an entry with a fresh id into a newest-first list keeps it newest first with distinct ids. The result holds exactly the old entries plus the new one. |
| Guestbook.ListingShowsEveryRowOnce | src/components/Guestbook.jsx:55-60 | A listing of the table shows each stored row once: as many entries as rows, and an entry for every row id. |
| Guestbook.GuestbookTable.Insert | src/components/Guestbook.jsx:75 | A failed insert changes nothing. Otherwise the row is stored under a fresh id, with `created_at` set to the current time, and that id is returned. |
| Guestbook.GuestbookTable.SelectAll | src/components/Guestbook.jsx:55-58 | `select("*").order("created_at", desc)` returns an error exactly on failure and `null` exactly on a null answer. Otherwise it returns a list of every row exactly once, newest first. |
| Guestbook.GuestbookTable.SelectPassword | src/components/Guestbook.jsx:92-96 | The `.single()` lookup yields a password exactly when the call is delivered and the id exists, and that password is the row's. A missing id is an error. |
| Guestbook.GuestbookTable.Delete | src/components/Guestbook.jsx:104 | A failed delete changes nothing. Otherwise exactly that id's row is removed. |
| Guestbook.ValidSubmissionMeans | src/components/Guestbook.jsx:69 | The local check passes exactly when author and message each contain a non-whitespace character and the password has at least four UTF-16 units. Four characters always suffice, and a passing password has at least two characters. |
| Guestbook.FormatDateInjective | src/components/Guestbook.jsx:113-116 | The unpadded `y.m.d` date text never prints two different dates alike. |
| Guestbook.ListAreaShowsTable | src/components/Guestbook.jsx:194-249 | After a delivered reload, the list area shows every stored row as a card, exactly once and newest first. When the table is empty it shows the "no messages yet" notice. |
| Guestbook.GuestbookController.constructor | src/components/Guestbook.jsx:44-51 | Initial state: dialog closed, empty list and form, no deletion chosen, not submitting, loading. |
| Guestbook.GuestbookController.FetchMessages | src/components/Guestbook.jsx:53-62 | After a reload, the list is unchanged on error and empty on `data: null`; otherwise it is every row exactly once, newest first. Loading ends and nothing else changes. |
| Guestbook.GuestbookController.SaveMessage | src/components/Guestbook.jsx:64-73 | The save is ignored exactly while another is in flight. The insert is issued exactly when the form passes the local check, and it carries the form values as typed. A rejected or ignored save changes nothing. Every in-flight submission passes the check (invariant). |
| Guestbook.GuestbookController.InsertAnswered | src/components/Guestbook.jsx:75-87 | On failure, table, form, dialog and list are unchanged. On success exactly the in-flight submission is stored under a fresh id, the form is cleared, the dialog closes and the list is reloaded. In both cases submitting ends. |
| Guestbook.GuestbookController.DeleteMessage | src/components/Guestbook.jsx:90-111 | Nothing is attempted without both an id and a password. A failed or null lookup, or a missing id, is a lookup failure. A stored password that differs is a mismatch. A deletion happens exactly when the lookup succeeds, the passwords are equal and the delete call succeeds. It then removes exactly that row, resets the choice and reloads the list. Any other outcome leaves table, choice and list unchanged. |
| Guestbook.GuestbookController.ChooseForDeletion | src/components/Guestbook.jsx:215 | The trash button sets the chosen id, keeps the typed password and changes nothing else. |
| Guestbook.GuestbookController.TypeDeletePassword | src/components/Guestbook.jsx:231 | Typing in the delete dialog sets the password, keeps the chosen id and changes nothing else. |
| Guestbook.GuestbookController.TypeForm | src/components/Guestbook.jsx:147-171 | The form inputs set author, message and password and change nothing else. |
| Guestbook.GuestbookController.SetOpen | src/components/Guestbook.jsx:133 | The dialog's `onOpenChange` sets `isOpen` and changes nothing else. |
| WeddingCalendar.GenerateCalendar | src/components/WeddingCalendar/index.jsx:26-52 | The loop builds 6 rows of 7 cells. The cell at row-major position p holds day p - firstDay + 1 when that is a day of the month and is blank otherwise. This includes blanks before the 1st and after the last day. |
| WeddingCalendar.CalendarListsEachDayOnce | src/components/WeddingCalendar/index.jsx:26-52 | For every weekday of the 1st and every month length up to 31, the non-blank cells read row-major are exactly 1..daysInMonth, in order, each once. |
| WeddingCalendar.HighlightedExactlyOnce | src/components/WeddingCalendar/index.jsx:94 | Exactly one cell is highlighted: the one at row-major position firstDay + day - 1, which lies inside the grid. |
| WeddingCalendar.FormattedDateFields | src/components/WeddingCalendar/index.jsx:57-66 | The header is the year's digits, a dot, two digits reading as the 1-based month, a dot, two digits reading as the day, a space and the weekday name. |
| AudioPlayer.AudioElement.Play | src/components/AudioPlayer.jsx:33 | `play()` starts playback when the browser allows it. A rejected play leaves the element as it was. |
| AudioPlayer.AudioElement.Pause | src/components/AudioPlayer.jsx:30 | `pause()` leaves the element paused and otherwise unchanged. |
| AudioPlayer.Storage.SetItem | src/components/AudioPlayer.jsx:44 | `setItem` sets that key and keeps every other key. |
| AudioPlayer.Player.constructor | src/components/AudioPlayer.jsx:7-23 | After mount nothing plays and nothing is muted. `hasInteracted` is true exactly when storage holds "true", and the prompt shows exactly when it is false. The `ended` listener is attached and storage is unchanged. |
| AudioPlayer.Player.MarkInteracted | src/components/AudioPlayer.jsx:43-47 | The first interaction writes "true" to storage and hides the prompt for good. Later ones leave storage unchanged. |
| AudioPlayer.Player.TogglePlay | src/components/AudioPlayer.jsx:26-50 | Without an element, nothing changes. With one, it pauses when playing, otherwise asks to play, and flips `isPlaying` whether or not the play was allowed. It records the interaction; the flags only latch forward. |
| AudioPlayer.Player.ToggleMute | src/components/AudioPlayer.jsx:53-65 | Without an element, nothing changes. With one, the element's mute and the shown mute flip together and stay equal (invariant), and the interaction is recorded. |
| AudioPlayer.Player.DismissPlayPrompt | src/components/AudioPlayer.jsx:68-70 | Hides the prompt and changes nothing else. |
| AudioPlayer.Player.HandleEnded | src/components/AudioPlayer.jsx:78-84 | On `ended`, the element rewinds to 0 and is asked to play, and the player shows as playing. Mute and the latches are unchanged. |
| AudioPlayer.Player.Unmount | src/components/AudioPlayer.jsx:90-93 | Cleanup detaches the `ended` listener and pauses the element. |
| AudioPlayer.BlockedFirstPlay | src/components/AudioPlayer.jsx:29-49 | Counterexample: a first play the browser blocks leaves `isPlaying` true over a paused element. |
| AnimatedSection.UnknownKindFadesIn | src/components/AnimatedSection.jsx:71-92 | An animation kind other than the four named ones gets exactly the "fade-in" classes, both hidden and visible. |
| AnimatedSection.ClassListJoin | src/components/AnimatedSection.jsx:97-99 | Joining two strings with a separator, as the template does with spaces, joins their class lists: no class name runs across the join and none is lost. |
| AnimatedSection.ClassNameLists | src/components/AnimatedSection.jsx:97-99 | The class list reads as: the caller's classes, the kind's hidden classes, the visible classes exactly when revealed, `opacity-0` exactly when uninitialised, then `w-full`. |
| AnimatedSection.TransitionDelay | src/components/AnimatedSection.jsx:100 | `transitionDelay` is the delay's decimal text followed by "ms". |
| AnimatedSection.Reveal.constructor | src/components/AnimatedSection.jsx:11-20 | A section mounts hidden and uninitialised, with the init timer armed and nothing scheduled. |
| AnimatedSection.Reveal.InitTimerFired | src/components/AnimatedSection.jsx:20-63 | The init timer always initialises. Without an element nothing else happens. A top less than `innerHeight + 300` (at most 300 px below the viewport) schedules one reveal timer; otherwise one observer is added. |
| AnimatedSection.Reveal.RevealTimerFired | src/components/AnimatedSection.jsx:35-37 | The reveal timer makes the section visible. |
| AnimatedSection.Reveal.ObserverReports | src/components/AnimatedSection.jsx:43-47 | An intersecting entry reveals the section and that observer stops. A non-intersecting one changes nothing. Visibility never goes back. |
| AnimatedSection.Reveal.Unmount | src/components/AnimatedSection.jsx:65-67 | Cleanup clears only the init timer. Pending reveals and observers remain. |
| AnimatedSection.Reveal.DelayChanged | src/components/AnimatedSection.jsx:15-20 | A new delay hides the section and re-arms the init timer. Earlier reveals and observers are not cancelled. |
| AnimatedSection.Reveal.Rendered | src/components/AnimatedSection.jsx:94-101 | The rendered class list for the section's current state, as in `ClassNameLists`. |
| Gallery.ImagePathNumber | src/components/Gallery.jsx:17 | Each photo path is `/gallery/gallery_`, the 1-based number and `.jpeg`, and the number reads back. |
| Gallery.ImagePathsDistinct | src/components/Gallery.jsx:17 | Different positions have different paths. |
| Gallery.Images | src/components/Gallery.jsx:17 | Twenty paths, the i-th being the path of photo i + 1. |
| Gallery.VisibleImages | src/components/Gallery.jsx:28 | All twenty photos when expanded and six otherwise; always a prefix of the full list. |
| Gallery.VisibleImagesDistinct | src/components/Gallery.jsx:55-57 | The grid's keys (the paths) are distinct. |
| Gallery.ToggleLabelTellsState | src/components/Gallery.jsx:89 | The button's two texts differ, so the label tells the state. |
| Gallery.GalleryState.constructor | src/components/Gallery.jsx:20-21 | Starts collapsed with no active photo. |
| Gallery.GalleryState.ToggleExpand | src/components/Gallery.jsx:30 | Flips the expansion and leaves the active photo alone. |
| Gallery.GalleryState.OpenModal | src/components/Gallery.jsx:31 | Makes the given index active, which opens the dialog. |
| Gallery.GalleryState.CloseModal | src/components/Gallery.jsx:32 | Clears the active photo, which closes the dialog. |
| Gallery.GalleryState.ClickGridImage | src/components/Gallery.jsx:64 | Clicking grid position i opens the dialog on the same photo of the full list. |
| Gallery.GalleryState.OnOpenChange | src/components/Gallery.jsx:93 | A close request closes the dialog; an open request leaves the dialog and the active photo as they were. |
| Gallery.GalleryState.SlideChanged | src/components/Gallery.jsx:25 | The active photo follows the slider's position, and the dialog is open. |
| Account.Relationship | src/components/Account.jsx:103-111 | Position 0 is the bride or the groom, by side. Position 1 is the father. Every other position is the mother. Each label is given exactly in its case. |
| Account.TitlesTellSides | src/components/Account.jsx:152 | The bride's box title contains "신부" and the groom's does not. |
| Account.RenderRows | src/components/Account.jsx:133-176 | A collapsed box has no rows. An expanded box has one row per account, in order, with its label, name, "bank number" text, and a copy request for that account's number and holder. |
| Account.BoxLabels | src/components/Account.jsx:209-220 | In the page's two boxes, row 0 is the bride or the groom, row 1 the father and the rest the mother. |
| Account.AccountBoxes.constructor | src/components/Account.jsx:87-88 | Both boxes start expanded. |
| Account.AccountBoxes.ToggleGroom | src/components/Account.jsx:119 | A click on the groom's header flips that box only. |
| Account.AccountBoxes.ToggleBride | src/components/Account.jsx:119 | A click on the bride's header flips that box only. |
| MainContent.SpacingShape | src/components/MainContent.jsx:19-21 | The spacing is empty exactly when all four fields are absent or whitespace. Otherwise it has no whitespace at either end, and it is always one stretch of the joined template. |
| MainContent.TableSpacings | src/components/MainContent.jsx:6-21 | The spacing of each of the six entries. The last entry yields "pb-24" only: its `paadingTop` key is never read. |
| MainContent.Render | src/components/MainContent.jsx:18-28 | One section per entry, in order. Each is keyed by and showing its path, with the layout classes plus its spacing, alt text "청첩장 이미지 " + (i + 1), and a delay of i tenths of a second. |
| MainContent.AltTextsDistinct | src/components/MainContent.jsx:28 | Different positions get different alt texts. |
| MainContent.SourcesDistinct | src/components/MainContent.jsx:6-13 | The six image paths are distinct. |
| MainContent.TableRendersDistinctKeys | src/components/MainContent.jsx:18-24 | The table renders six sections in table order with distinct keys. |

## Left out

- Remote database client, network transport and toasts: the table is a map, and each call's success, null data or failure is an argument. Error and success notifications are not modelled.
- The form inputs' HTML `required` attribute: it is enforced by the browser, before `saveMessage` runs.
- Guestbook.GuestbookController.InsertAnswered: the reload after a successful insert is not awaited in the code. It is modelled as finishing within the same step, so a reload that completes after a later event is not captured.
- Guestbook.GuestbookController.FetchMessages: the fetch, with its `await` at `Guestbook.jsx:55-58`, is one step. `isLoading` is true only before the first load, so the spinner that each refresh shows while its request is pending is not captured. Events during the await, including two overlapping refreshes, are not captured either.
- Guestbook.GuestbookController.DeleteMessage: the password lookup (`Guestbook.jsx:92-96`), the delete (`:104`) and the un-awaited reload after it (`:109`) all happen in one step. No event can occur between them, and the reload finishes before the method returns.
- Guestbook.GuestbookController.SaveMessage: the in-flight guard reads React state. A second submit dispatched before the re-render would see the old `false`. The model treats the flag as updated at once.
- React batching, stale closures and state updates after unmount are not modelled.
- The model takes row ids to be positive integers, because the table's schema is not in the code. So `!deleteInfo.id` at `Guestbook.jsx:91` is only the missing-id case.
- Date parsing, time zones and the `Date` API (`new Date(...)`, `getDay`, the day-0 month-length trick). The calendar takes the weekday of the 1st, the month length and the date parts as inputs. `formatDate` takes the year, month index and day.
- WeddingCalendar.GenerateCalendar: requires the weekday of the 1st to be in 0..6, which is all `getDay` returns.
- WeddingCalendar.CalendarListsEachDayOnce: stated for months of at most 31 days, which is all `getDate` on day 0 returns.
- Decimal.IntToString: JavaScript's exponent form for numbers of 10^21 and above is not modelled.
- Actual audio playback and the `play()` promise: whether the browser allows a play is an argument, and a rejected play is swallowed as in the code. The `loop` attribute's automatic restart is not modelled; only the `ended` listener is.
- `localStorage` is an in-memory string map.
- Real timers and `IntersectionObserver`: the init timer, the reveal timer and observer reports are explicit event methods. The element's position and the viewport height are integers in pixels.
- The cleanup returned by the init timer's callback is discarded by the code, and the reveal timer is never cleared. The model keeps both running rather than claiming any cancellation.
- Floating-point values: `idx * 0.1` is an integer count of tenths, and framer-motion durations and delays are not modelled.
- The slider library's behaviour beyond its `slideChanged` callback, the gallery's enter and exit animations, and the `initial` slide.
- Clipboard writes in the account boxes: a row's copy button is modelled as the request it makes (text and name).
- The static account data (names, banks, numbers, payment links).
- The map, share buttons, generic section wrapper, page layout, fonts and styling are not part of this model.
