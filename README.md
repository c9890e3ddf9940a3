# FAQR website: a Dafny model of its client-side logic

The site's behaviour layer is two browser scripts. `script.js` renders the
weekly prayer (namaz) timetable, guards the contact form, highlights
navigation links and drives the mobile menu and language buttons.
`foundation-gallery.js` runs the photo gallery's lightbox. This project models
the parts of them that decide something and proves what they promise:

- `Timetable` (Timetable.dfy). The month picks the summer or winter schedule
  and its label. The host weekday index is mapped to a day name. Seven rows
  are built, Monday first: Friday gets the Friday times, every other day the
  default times, and the matching row is flagged as today. The month and the
  weekday are parameters rather than clock reads. The output is a label plus
  row records, not HTML.
- `ContactForm` (ContactForm.dfy). The submit guard. The regular expression
  `^[^\s@]+@[^\s@]+\.[^\s@]+$` is modelled twice: as what it matches (some
  `@` and some later `.` split the string into three non-empty runs without
  white space or `@`) and as a direct scan. The two are proved equal.
- `Navigation` (Navigation.dfy). The mobile menu's flags as a class, the
  single-selection language buttons, the current-page link rule and the
  scroll-driven section link. Per-element `active` classes are boolean arrays.
- `Gallery` (Gallery.dfy). The lightbox as a class with the image count `n`,
  the current index, the open flag, the shown image and the nav-button
  display. Wrap-around navigation is proved cyclic.
- `Options` (Options.dfy). An `Option` type that stands for JavaScript's
  `undefined`.

Notes on the code's behaviour:
- The day-name lookup is one fixed Sunday-first table.
- The test `month >= 3 && month <= 8` is total: any other integer, inside
  0..11 or not, gives winter.
- A weekday index outside 0..6 reads past the array and gives `undefined`.
  The model returns `None`, so no row is flagged. The host never produces
  such an index.

## Model

| member | source | states |
|---|---|---|
| Timetable.SeasonFor | script.js:424-430 | the summer schedule and the label "Summer Schedule (April - September)" are chosen iff 3 <= month <= 8; every other month gets the winter schedule and "Winter Schedule (October - March)" |
| Timetable.DayName | script.js:446-450 | a name is found iff the index is in 0..6 (0 = Sunday); the name is the day at position (index + 6) % 7 of the Monday-first table |
| Timetable.RowFor | script.js:453-455 | one day's row: the Friday set on Friday and the default set otherwise; flagged today iff the day equals the looked-up day name (never for `undefined`) |
| Timetable.BuildRows | script.js:452-467 | the forEach loop emits exactly the rows of the function WeekRows |
| Timetable.Render | script.js:424-469 | the handler's label and rows equal TableFor(month, weekday) |
| Timetable.RowsInWeekOrder | script.js:411 | there are always 7 rows, in Monday..Sunday order, whatever today is |
| Timetable.FridayRowUsesFridayTimes | script.js:453-454 | the Friday row (position 4) carries the Friday set and every other row the default set |
| Timetable.ExactlyOneRowToday | script.js:439-455 | for a weekday index in 0..6, row i is today iff i == (index + 6) % 7, and that row's day is the looked-up day name |
| Timetable.NoRowTodayOutsideWeek | script.js:446-455 | an index outside 0..6 yields `undefined` and no row is flagged |
| Timetable.FridayDiffersOnlyInDhuhr | script.js:414-422 | in both seasons the Friday set is the default set with only dhuhr changed: 1:30 PM to 1:45 PM in summer, 1:30 PM to 2:00 PM in winter |
| Timetable.WorkedExamples | script.js:414-430 | July on a Wednesday, December on a Friday and the April/October boundaries give the expected labels, rows and flags |
| ContactForm.Validate | script.js:147-157 | a missing field is reported iff some field is empty; an invalid email is reported iff all are filled and the email does not match the pattern; the form is sent iff all are filled and it matches |
| ContactForm.IsSpace | script.js:153 | the ECMAScript `\s` class (WhiteSpace, the Unicode space separators and LineTerminator); no printable ASCII character other than space belongs to it |
| ContactForm.IsValidEmail | script.js:153-154 | the test `Validate` runs; when it accepts, the first `@` and the first `.` after the domain's first character split the address as the regular expression requires |
| ContactForm.ValidEmailIffPattern | script.js:153-154 | the direct scan accepts exactly the strings the email regular expression matches |
| ContactForm.MatchedEmailShape | script.js:153 | a matched address is local@domain.tld with all three parts non-empty, exactly one `@` and no white space |
| ContactForm.Find | script.js:153 | the first occurrence of a character at or after a position, or the length when there is none |
| ContactForm.AcceptsPlainAddress | script.js:153-154 | "a@b.c" passes |
| ContactForm.RejectsTwoAts | script.js:153-154 | "a@@b.c" is rejected |
| Navigation.MobileMenu.constructor | script.js:4-6 | the menu starts closed, with both classes and the icon in agreement |
| Navigation.MobileMenu.Toggle | script.js:8-23 | both `active` classes flip; the icon follows the menu's class; agreement is preserved |
| Navigation.MobileMenu.Close | script.js:26-46 | both classes are removed and the plain icon is drawn |
| Navigation.MobileMenu.Click | script.js:8-47 | after one click (element listener, then document listener) the menu is flipped by the toggle, closed by a link or an outside click, and unchanged by a click inside the menu |
| Navigation.SelectLanguage | script.js:95-101 | after a click exactly the clicked language button is active |
| Navigation.LastSegment | script.js:235 | the last path segment contains no `/` and is no longer than the path |
| Navigation.LastSegmentIsSuffix | script.js:235 | the last segment is the suffix of the path that follows its last `/` (or the whole path) |
| Navigation.LastSegmentOfPath | script.js:235 | for a name without `/`, the last segment of dir + "/" + name is name |
| Navigation.PageName | script.js:235-242 | the page name is never empty (an empty segment becomes "index.html") and holds no `/` |
| Navigation.LinkIsActive | script.js:239-246 | the highlighting condition as written, with its three alternatives over the link's and the current page's names |
| Navigation.LinkActiveIffSamePage | script.js:238-251 | the three-way highlighting condition holds iff the link's page name equals the current page name |
| Navigation.HighlightCurrentPage | script.js:238-251 | each link is active iff it names the current page |
| Navigation.LastReached | script.js:257-266 | the selected section is the last in document order with offset >= top - 100; none is selected iff no section qualifies |
| Navigation.CurrentSection | script.js:257-266 | the loop leaves `current` at the id of the last reached section, or "" |
| Navigation.LaterReachedSectionWins | script.js:259-265 | any reached section at or after position j makes the selection at least j |
| Navigation.HighlightSection | script.js:269-279 | with an empty id nothing changes; otherwise every `#` link is active iff it is `#current`, and other links keep their state |
| Navigation.OnScroll | script.js:256-280 | the scroll listener: no reached section, or a reached section with an empty id, leaves all links untouched; otherwise the `#` links follow the selected id |
| Gallery.Next | foundation-gallery.js:56-58 | the next index stays in [0, n) and wraps from n - 1 to 0 |
| Gallery.Prev | foundation-gallery.js:50-53 | the previous index stays in [0, n) and wraps from 0 to n - 1 |
| Gallery.PrevUndoesNext | foundation-gallery.js:50-58 | prev after next and next after prev restore the index |
| Gallery.Forward | foundation-gallery.js:56-58 | any number of next presses stays in [0, n) |
| Gallery.ForwardWithoutWrap | foundation-gallery.js:57 | presses that do not pass the last image add to the index |
| Gallery.ForwardSplit | foundation-gallery.js:57 | a + b presses are a presses followed by b presses |
| Gallery.ForwardFullCircle | foundation-gallery.js:57 | n presses of next return to the starting image |
| Gallery.ForwardPeriodic | foundation-gallery.js:57 | n + k presses land where k presses do |
| Gallery.Lightbox.constructor | foundation-gallery.js:14-15 | the lightbox starts closed at index 0 over n images |
| Gallery.Lightbox.OpenLightbox | foundation-gallery.js:26-41 | an index outside [0, n) changes nothing; otherwise the box opens on that image with the buttons updated |
| Gallery.Lightbox.UpdateNavigationButtons | foundation-gallery.js:62-70 | the prev/next buttons are displayed iff n > 1 |
| Gallery.Lightbox.CloseLightbox | foundation-gallery.js:44-47 | the box is closed; the index and the shown image stay |
| Gallery.Lightbox.ClickItem | foundation-gallery.js:18-23 | clicking item i sets the index to i and opens the box on image i |
| Gallery.Lightbox.ShowPreviousImage | foundation-gallery.js:50-53 | the index becomes Prev(index) and the box is open on it |
| Gallery.Lightbox.ShowNextImage | foundation-gallery.js:56-59 | the index becomes Next(index) and the box is open on it |
| Gallery.Lightbox.ClickModal | foundation-gallery.js:78-82 | a click on the backdrop closes the box; a click on its content does not |
| Gallery.Lightbox.KeyDown | foundation-gallery.js:85-95 | keys do nothing while closed; while open Escape closes, ArrowLeft goes back, ArrowRight goes forward and any other key changes nothing |

## Left out

- DOM and styling: class lists are boolean flags, the hamburger bars are one "crossed" flag, and table rows are records. Inline styles, `innerHTML` markup and `body.style.overflow` are not modelled.
- The host clock (`getMonth`, `getDay`) is replaced by parameters. The scroll offset and section tops are parameters too, in whole pixels, although browsers give fractional numbers.
- The network and timers: the `fetch` POST, the handling of its reply, the submit button's loading state and the five-second auto-hide of messages. The model stops at the decision to send.
- `localStorage`: the stored language preference and the restoring of it on load. The console messages for the language switch.
- Browser-only effects: smooth scrolling, the navbar shadow, the fade-in IntersectionObserver, the scroll-to-top button, lazy image loading, WhatsApp link targets and the form-field focus classes.
- server.js is not part of this model. It is an Express wrapper that logs the form and sends a canned reply.
- ContactForm.Validate: a form field that is absent altogether (`undefined` rather than "") is not modelled. The four fields are always strings, and an empty one stands for both cases.
- Gallery.Lightbox.ShowPreviousImage: requires n > 0. With no images the source computes `% 0` and stores NaN; that case is not modelled.
- Gallery.Lightbox.ShowNextImage: requires n > 0, for the same reason.
- Gallery.Next and Gallery.Prev require 0 <= i < n, the range the lightbox keeps. Inside it Dafny's `%` agrees with JavaScript's. For negative operands they differ, and that case is not modelled.
- The image source, alt text and caption are one "shown image" index. The caption fallback from title to alt text is not modelled.
- Navigation.MobileMenu.constructor: assumes the page starts with the menu closed. The markup that would say so is not part of this model.
- Gallery.Lightbox.constructor: assumes the page starts with the modal closed (no `active` class), for the same reason. The initial display of the prev/next buttons comes from the stylesheet and is not modelled; it is fixed from the first opening on.
- The texts that `showMessage` displays for the two rejections are not modelled. The verdicts MissingField and InvalidEmail stand for them.
- Navigation.HighlightCurrentPage, Navigation.HighlightSection and Navigation.OnScroll: a link without an `href` attribute is not modelled. The source would fail on its `null`, in `split` and in `startsWith` alike.
