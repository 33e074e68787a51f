# Therapy platform front end: a verified model of its page logic

This project models, in Dafny, the rules that the web front end of an online
therapy platform applies on its own before anything reaches the server.

- **Weekly availability editor** (`ManageSlots`). A therapist edits a week of
  fifty-minute sessions. The model covers the clock arithmetic of start and
  end times, the collision check between sessions of one day, the guard run
  while a start time is picked, and the submit-time validation with its
  first failing rule. It also covers the editor's state: the saved schedule,
  the day objects being edited, and the handlers that change them in place.
- **Job-application review** (`JobApplicationDetail`). An administrator
  rejects an application with a reason. The model covers the ordered rules a
  reason must pass and the reject dialog's state.
- **One-time-password form** (`OtpForm`). The model covers the four digit
  cells, typing and pasting, the sixty-second resend countdown and its
  `m:ss` text.
- **Therapist profile** (`Profile`). The model covers the edit form filled
  from the server's profile, the specialization and language tags, the
  certificate carousel and the approval badge.
- **Earnings page** (`Wallet`). The model covers the transaction query built
  from filters and explicit overrides, page navigation, and the "Showing X
  to Y" label.
- **Reviews page** (`Review`). The model covers how server records become
  reviews, the filtered and sorted list, the rating counts and the star row.
- **Therapist dashboard** (`Dashboard`). The model covers today's and the
  next three sessions, the client and session counts, and the notification
  list with relative times.
- **Booking flow** (`BookingFlow`). The model covers the suggested
  therapists, the budget and availability preferences, the Complete Booking
  guard with its session fee, and the steps of the flow. As written, the
  selected therapist id is never set and no handler enters the preferences
  step, so the flow never leaves its first step.
- **Admin user view** (`UserDetail`). The model covers initials, age,
  rating label and stars, colour lookups and the status badge.
- **Chat list** (`ConversationList`). The model covers the time-ago text,
  the unread badge, the message preview and the highlighted row.
- **Dashboard frame** (`DashboardLayout`). The model covers the role read
  from the address, the sidebar chosen for it, and the collapse toggle.

Where the source changes state (the availability editor's day objects, the
reject dialog, the OTP form, the profile page, the wallet page, the booking
flow, the layout), the model is a class whose methods have `modifies`
clauses. Everything else is functions on values, with lemmas relating them
to independent statements of what they mean. Two helper modules hold what
several pages share. `Text` has JavaScript's `trim`, ASCII case mapping,
decimal rendering and character (code point) string order. `Collections` has `filter`,
sorting with a comparator, counting and `Set` size. A third, `Elapsed`, holds
the minute/hour/day bucketing shared by the dashboard and the chat list.

Paths in the table are relative to the repository root.

## Model

| member | source | states |
|---|---|---|
| SlotTime.TimeToMinutes | frontend/src/pages/therapist/ManageSlots.tsx:172-175 | a picker value "HH:MM" is 60·HH + MM minutes, always under one day |
| SlotTime.Clock | frontend/src/pages/therapist/ManageSlots.tsx:297-304 | the zero-padded "HH:MM" of a minute count is a picker value naming that count modulo one day |
| SlotTime.ClockRoundTrip | frontend/src/pages/therapist/ManageSlots.tsx:172-175 | converting a picker value to minutes and back gives the same string |
| SlotTime.TimeToMinutesInjective | frontend/src/pages/therapist/ManageSlots.tsx:172-175 | two picker values have equal minute counts exactly when they are equal |
| SlotTime.DayArithmetic | frontend/src/pages/therapist/ManageSlots.tsx:299-302 | splitting minutes into hours mod 24 and minutes is the count modulo one day |
| SlotTime.CalculateEndTime | frontend/src/pages/therapist/ManageSlots.tsx:297-304 | "" stays ""; otherwise the end is the start plus 50 minutes, wrapped past midnight |
| SlotTime.EndTimeSameDay | frontend/src/pages/therapist/ManageSlots.tsx:297-304 | a session ends on its own day exactly when it starts before 23:10 |
| SlotTime.DisplayHour | frontend/src/pages/therapist/ManageSlots.tsx:288-295 | `hour % 12 \|\| 12` is between 1 and 12 |
| SlotTime.DisplayHourInverse | frontend/src/pages/therapist/ManageSlots.tsx:288-295 | the 12-hour reading and the AM/PM half give back the hour |
| SlotTime.FormatTime | frontend/src/pages/therapist/ManageSlots.tsx:288-295 | "" gives "", and only "" does |
| SlotTime.FormatTimeReadBack | frontend/src/pages/therapist/ManageSlots.tsx:288-295 | the "h:MM AM/PM" label loses nothing: reading it back gives the picker value |
| Overlap.SortedCloseStarts | frontend/src/pages/therapist/ManageSlots.tsx:177-200 | in an ascending list two starts collide exactly when two neighbours are under 50 minutes apart |
| Overlap.CloseStartsPermutation | frontend/src/pages/therapist/ManageSlots.tsx:177-200 | whether two starts collide does not depend on the order of the slots |
| Overlap.NeighboursInOriginal | frontend/src/pages/therapist/ManageSlots.tsx:185-197 | colliding neighbours of the sorted copy are two different slots of the day |
| Schedule.StartMinutes | frontend/src/pages/therapist/ManageSlots.tsx:180-183 | one minute count per slot, in slot order |
| Schedule.SortedMinutes | frontend/src/pages/therapist/ManageSlots.tsx:180-183 | sorting keeps the length and keeps whether two starts collide |
| Schedule.NeighboursReportPair | frontend/src/pages/therapist/ManageSlots.tsx:185-197 | the reported neighbours are the start times of two different slots |
| Schedule.CheckTimeSlotOverlap | frontend/src/pages/therapist/ManageSlots.tsx:177-200 | reports no overlap exactly when no two slots start under 50 minutes apart; a reported pair is two real slots, and the first pair of sorted neighbours that collide |
| Schedule.ValidateDay | frontend/src/pages/therapist/ManageSlots.tsx:210-252 | passes exactly the acceptable enabled days; an error names that day and describes its first failing rule; never the duplicate error |
| Schedule.ValidateSchedule | frontend/src/pages/therapist/ManageSlots.tsx:202-256 | accepts exactly when some day is enabled and every enabled day is acceptable; an error explains the first failure |
| Schedule.EnabledDaysEmpty | frontend/src/pages/therapist/ManageSlots.tsx:203-208 | the enabled-day list is empty exactly when no day is enabled |
| Schedule.DuplicateCheckSubsumed | frontend/src/pages/therapist/ManageSlots.tsx:242-252 | a day whose sessions are apart has distinct start times, so the duplicate check never fires |
| Schedule.ExplainedIsUnacceptable | frontend/src/pages/therapist/ManageSlots.tsx:202-256 | every reported error is a real reason to refuse the schedule |
| Schedule.DuplicateNeverExplained | frontend/src/pages/therapist/ManageSlots.tsx:248-252 | the duplicate-start message describes no schedule |
| Schedule.GuardOverlapIsTooClose | frontend/src/pages/therapist/ManageSlots.tsx:129-136 | the three-disjunct interval test is the same as starts under 50 minutes apart |
| Schedule.CheckStartTime | frontend/src/pages/therapist/ManageSlots.tsx:117-145 | refuses a start whose session passes midnight, refuses one colliding with another timed slot, and allows the rest |
| Schedule.WithStart | frontend/src/pages/therapist/ManageSlots.tsx:152-156 | storing a start changes only that slot's start |
| Schedule.GuardKeepsDayApart | frontend/src/pages/therapist/ManageSlots.tsx:117-156 | a start the guard allows keeps the day's timed slots pairwise apart |
| Schedule.TimedApartNoCloseStarts | frontend/src/pages/therapist/ManageSlots.tsx:177-200 | a fully timed day whose slots are apart passes the overlap check |
| Schedule.GuardAgreesWithOverlapCheck | frontend/src/pages/therapist/ManageSlots.tsx:117-145 | on a day whose other slots are timed and apart (slot k itself may be unset, as a new slot is), the guard refuses a start for collision exactly when the save-time overlap check would refuse the day with it |
| Schedule.ToggleMode | frontend/src/pages/therapist/ManageSlots.tsx:159-170 | the toggled mode changes membership, every other mode keeps it |
| Schedule.ToggleModeTwice | frontend/src/pages/therapist/ManageSlots.tsx:159-170 | toggling twice gives back the same set of modes |
| Schedule.ToggleModeDistinct | frontend/src/pages/therapist/ManageSlots.tsx:159-170 | toggling never repeats a mode |
| SlotEditor.FindDay | frontend/src/pages/therapist/ManageSlots.tsx:84 | `find` by day name: None exactly when no day has that name, else a day object of the list with that name |
| SlotEditor.DaysDistinct | frontend/src/pages/therapist/ManageSlots.tsx:32 | the seven day names are pairwise different |
| SlotEditor.Edited | frontend/src/pages/therapist/ManageSlots.tsx:152-156 | an edit changes only the named field of the slot |
| SlotEditor.SlotManager.ReceiveSchedule | frontend/src/pages/therapist/ManageSlots.tsx:58-65 | the reply becomes the saved schedule in new day objects; editing is untouched |
| SlotEditor.SlotManager.InitializeNewSchedule | frontend/src/pages/therapist/ManageSlots.tsx:71-79 | the editor opens on seven new disabled, empty days, Sunday to Saturday |
| SlotEditor.SlotManager.EditableCopy | frontend/src/pages/therapist/ManageSlots.tsx:81-90 | one day per name of the week: the saved day or a disabled empty one |
| SlotEditor.SlotManager.StartEditingScheduleAsWritten | frontend/src/pages/therapist/ManageSlots.tsx:81-90 | as written: the editor shows the saved days and holds the saved day objects themselves |
| SlotEditor.SlotManager.StartEditingSchedule | frontend/src/pages/therapist/ManageSlots.tsx:81-90 | corrected: the same values in new day objects, detached from the saved schedule |
| SlotEditor.SlotManager.ToggleDay | frontend/src/pages/therapist/ManageSlots.tsx:92-96 | flips only that day's enabled flag; a detached editor leaves the saved schedule alone |
| SlotEditor.SlotManager.AddSlotToDay | frontend/src/pages/therapist/ManageSlots.tsx:98-106 | appends {'' start, video, price 0} to that day only |
| SlotEditor.SlotManager.RemoveSlotFromDay | frontend/src/pages/therapist/ManageSlots.tsx:108-112 | deletes exactly the slot at the index and keeps the day's timed slots apart |
| SlotEditor.SlotManager.UpdateSlot | frontend/src/pages/therapist/ManageSlots.tsx:114-157 | refuses starts past midnight, colliding starts and negative prices; otherwise changes only the named field of the one slot |
| SlotEditor.SlotManager.ToggleSlotMode | frontend/src/pages/therapist/ManageSlots.tsx:159-170 | toggles the mode of that one slot and nothing else |
| SlotEditor.SlotManager.Cancel | frontend/src/pages/therapist/ManageSlots.tsx:510-513 | leaves editing and keeps the saved schedule's values |
| SlotEditor.SlotManager.SaveSchedule | frontend/src/pages/therapist/ManageSlots.tsx:258-286 | refuses exactly the unacceptable schedules; otherwise sends only the enabled days, creating or updating, and a reply ends editing |
| SlotEditor.SharedDayAfterCancel | frontend/src/pages/therapist/ManageSlots.tsx:81-96 | as written: enabling a saved Monday and pressing Cancel leaves the saved Monday enabled |
| SlotEditor.DetachedDayAfterCancel | frontend/src/pages/therapist/ManageSlots.tsx:81-96 | corrected: the same steps leave the saved Monday as it was |
| RejectReason.WordCountSpace | frontend/src/pages/admin/JobApplicationDetail.tsx:144-148 | splitting on runs of white space gives two or more words exactly when there is white space |
| RejectReason.RepetitiveHasRunOfFive | frontend/src/pages/admin/JobApplicationDetail.tsx:133-153 | a repetitive reason of ten or more characters also has a run of five |
| RejectReason.ValidateRejectReason | frontend/src/pages/admin/JobApplicationDetail.tsx:115-157 | the message is that of the first rule, in checking order, the trimmed reason breaks, and none when it breaks none; "required" exactly for blank reasons, "too short" exactly under 10, "too long" exactly over 500 |
| RejectReason.CheckTrimmedAccepts | frontend/src/pages/admin/JobApplicationDetail.tsx:118-156 | the ordered checks pass exactly the trimmed texts of 10 to 500 characters with a letter, two words and no run of five |
| RejectReason.ValidateRejectReasonAccepts | frontend/src/pages/admin/JobApplicationDetail.tsx:115-157 | validation passes exactly the acceptable reasons |
| RejectReason.ValidateTrimmed | frontend/src/pages/admin/JobApplicationDetail.tsx:116 | the verdict depends only on the trimmed reason |
| RejectReason.TextAreaNeverTooLong | frontend/src/pages/admin/JobApplicationDetail.tsx:613 | a reason the 500-character text area admits is never too long |
| RejectReason.ConfirmDisabled | frontend/src/pages/admin/JobApplicationDetail.tsx:584 | disabled exactly when the trimmed reason is blank or a validation error is shown |
| RejectReason.ConfirmEnabledForUncheckedReason | frontend/src/pages/admin/JobApplicationDetail.tsx:584 | the button can be enabled for a reason that fails the rules until it is checked |
| RejectReason.ActionsEnabled | frontend/src/pages/admin/JobApplicationDetail.tsx:342 | Approve and Reject are enabled exactly while the status is 'Requested' and nothing is being submitted |
| RejectReason.RejectDialog.Validate | frontend/src/pages/admin/JobApplicationDetail.tsx:115-157 | records the verdict as the error and returns whether it passed |
| RejectReason.RejectDialog.OnChange | frontend/src/pages/admin/JobApplicationDetail.tsx:602-608 | replaces the reason and re-checks it only while an error is shown |
| RejectReason.RejectDialog.OnBlur | frontend/src/pages/admin/JobApplicationDetail.tsx:609 | leaving the text area records the verdict on the reason |
| RejectReason.RejectDialog.Close | frontend/src/pages/admin/JobApplicationDetail.tsx:569-573 | closing empties the reason and the error |
| RejectReason.RejectDialog.HandleReject | frontend/src/pages/admin/JobApplicationDetail.tsx:221-252 | without an id nothing happens; otherwise the reason is checked, and an acceptable one is sent trimmed |
| Otp.EmptyCells | frontend/src/components/auth/OtpForm.tsx:14 | four empty cells |
| Otp.JoinLength | frontend/src/components/auth/OtpForm.tsx:162 | the joined code's length is the number of filled cells |
| Otp.FilledAll | frontend/src/components/auth/OtpForm.tsx:162 | every cell is counted as filled exactly when none is empty |
| Otp.VerifyEnabledIffFilled | frontend/src/components/auth/OtpForm.tsx:162 | with valid cells, Verify is enabled exactly when all four cells are filled |
| Otp.Changed | frontend/src/components/auth/OtpForm.tsx:31-36 | an accepted value replaces only cell `index`; a refused one changes nothing |
| Otp.ChangeKeepsCellsValid | frontend/src/components/auth/OtpForm.tsx:31-36 | typing keeps every cell empty or one digit |
| Otp.PastedPrefix | frontend/src/components/auth/OtpForm.tsx:50 | the first four characters of the clipboard text |
| Otp.PasteInto | frontend/src/components/auth/OtpForm.tsx:53-56 | cell i takes pasted character i for each pasted character; later cells are kept |
| Otp.PasteKeepsCellsValid | frontend/src/components/auth/OtpForm.tsx:48-57 | a digit paste keeps every cell empty or one digit |
| Otp.FullPasteEnablesVerify | frontend/src/components/auth/OtpForm.tsx:48-57 | pasting four digits enables Verify |
| Otp.FocusAfterPaste | frontend/src/components/auth/OtpForm.tsx:59-60 | the focused cell is min(pasted length, 3) |
| Otp.PadStartOfNumber | frontend/src/components/auth/OtpForm.tsx:81 | `padStart(2, '0')` of a number under 100 is its two-digit form |
| Otp.FormatTime | frontend/src/components/auth/OtpForm.tsx:78-82 | the text has a colon before two second digits |
| Otp.FormatTimeReadBack | frontend/src/components/auth/OtpForm.tsx:78-82 | the countdown text reads back as exactly the number of seconds |
| Otp.FormatTimeExamples | frontend/src/components/auth/OtpForm.tsx:78-82 | 60 seconds read "1:00" and 5 read "0:05" |
| Otp.OtpForm.HandleChange | frontend/src/components/auth/OtpForm.tsx:31-40 | the cells become `Changed`, focus moves on after a digit in cells 0 to 2 |
| Otp.OtpForm.HandleKeyDown | frontend/src/components/auth/OtpForm.tsx:42-46 | Backspace in an empty cell other than the first moves focus back |
| Otp.OtpForm.HandlePaste | frontend/src/components/auth/OtpForm.tsx:48-61 | a non-digit paste changes nothing; a digit paste fills the leading cells and moves focus |
| Otp.OtpForm.Tick | frontend/src/components/auth/OtpForm.tsx:19-29 | the countdown drops by one while positive, and Resend is offered exactly at zero |
| Otp.OtpForm.HandleResend | frontend/src/components/auth/OtpForm.tsx:63-69 | nothing unless Resend is offered; otherwise empty cells, 60 seconds, Resend withdrawn |
| Otp.ResendOfferedAfterCountdown | frontend/src/components/auth/OtpForm.tsx:19-29 | sixty ticks after the form opens, Resend is offered |
| TherapistProfile.AddTag | frontend/src/pages/therapist/Profile.tsx:178-203 | the trimmed input is appended and the box cleared, or nothing changes |
| TherapistProfile.AddTagAddsNew | frontend/src/pages/therapist/Profile.tsx:179 | a tag is added exactly when the trimmed input is non-empty and new |
| TherapistProfile.AddTagKeepsDistinct | frontend/src/pages/therapist/Profile.tsx:178-203 | adding never repeats a tag |
| TherapistProfile.RemoveTag | frontend/src/pages/therapist/Profile.tsx:188-210 | the result holds exactly the other tags |
| TherapistProfile.RemoveTagCounts | frontend/src/pages/therapist/Profile.tsx:188-210 | the removed tag occurs 0 times, every other tag as often as before |
| TherapistProfile.RemoveTagAppend | frontend/src/pages/therapist/Profile.tsx:188-210 | removing distributes over concatenation, so the remaining tags keep their order |
| TherapistProfile.RemoveAbsentTag | frontend/src/pages/therapist/Profile.tsx:188-210 | removing an absent tag changes nothing, order included |
| TherapistProfile.RemoveUndoesAdd | frontend/src/pages/therapist/Profile.tsx:178-210 | removing the tag just added gives back the list |
| TherapistProfile.FormDataOf | frontend/src/pages/therapist/Profile.tsx:97-106 | each text field is the profile's value or '' when missing; each list the profile's or [] when missing |
| TherapistProfile.FormSurvivesReload | frontend/src/pages/therapist/Profile.tsx:97-106 | a stored form comes back unchanged after a reload |
| TherapistProfile.MissingIsEmpty | frontend/src/pages/therapist/Profile.tsx:98 | any profile fills the form as the same profile with every missing field made empty |
| TherapistProfile.ShownCertificates | frontend/src/pages/therapist/Profile.tsx:113-125 | exactly the fetched URLs are shown; failed fetches are dropped |
| TherapistProfile.ShownCertificatesOne | frontend/src/pages/therapist/Profile.tsx:113-124 | one fetch shows its URL when it succeeded with a non-empty one, else nothing |
| TherapistProfile.ShownCertificatesAppend | frontend/src/pages/therapist/Profile.tsx:113-124 | results are shown in fetch order, duplicates kept |
| TherapistProfile.AllFetchedShown | frontend/src/pages/therapist/Profile.tsx:113-125 | when every fetch succeeds, every certificate is shown in its place |
| TherapistProfile.CarouselSteps | frontend/src/pages/therapist/Profile.tsx:263-273 | next and previous stay in the list, wrap around, and undo each other |
| TherapistProfile.NextPastTheEnd | frontend/src/pages/therapist/Profile.tsx:263-266 | from past the end, next moves further out |
| TherapistProfile.ApprovalBadge | frontend/src/pages/therapist/Profile.tsx:305-337 | Approved, Requested and Rejected have their own badges; everything else is Pending |
| TherapistProfile.ProfilePage.HandleAddSpecialization | frontend/src/pages/therapist/Profile.tsx:178-186 | the list and box become `AddTag`'s; no repeats appear |
| TherapistProfile.ProfilePage.HandleRemoveSpecialization | frontend/src/pages/therapist/Profile.tsx:188-193 | the list becomes `RemoveTag`'s; nothing else changes |
| TherapistProfile.ProfilePage.HandleAddLanguage | frontend/src/pages/therapist/Profile.tsx:195-203 | the list and box become `AddTag`'s; no repeats appear |
| TherapistProfile.ProfilePage.HandleRemoveLanguage | frontend/src/pages/therapist/Profile.tsx:205-210 | the list becomes `RemoveTag`'s; nothing else changes |
| TherapistProfile.ProfilePage.NextCertificate | frontend/src/pages/therapist/Profile.tsx:263-267 | the carousel takes the next index, keeping it in the list |
| TherapistProfile.ProfilePage.PreviousCertificate | frontend/src/pages/therapist/Profile.tsx:269-273 | the carousel takes the previous index, keeping it in the list |
| TherapistProfile.ProfilePage.SelectCertificate | frontend/src/pages/therapist/Profile.tsx:527 | an indicator dot selects its certificate |
| TherapistProfile.ProfilePage.ReceiveProfileAsWritten | frontend/src/pages/therapist/Profile.tsx:97-125 | as written: the form and certificates reload while the carousel index stays |
| TherapistProfile.ProfilePage.ReceiveProfile | frontend/src/pages/therapist/Profile.tsx:97-125 | corrected: a reload of the certificates moves the carousel to the first one, so it always shows one |
| TherapistProfile.CarouselAfterReloadAsWritten | frontend/src/pages/therapist/Profile.tsx:124 | as written: on the third of three certificates, a reload to two and "next" reach position 3 of 2 |
| TherapistProfile.CarouselAfterReload | frontend/src/pages/therapist/Profile.tsx:124 | corrected: the same events end on the second of the two |
| Wallet.Sent | frontend/src/pages/therapist/Wallet.tsx:66-68 | an empty filter is not sent; any other is sent as it is |
| Wallet.Query | frontend/src/pages/therapist/Wallet.tsx:59-69 | each override given, even '', wins over the page's state; the limit is the page's |
| Wallet.ClearedQueryIgnoresState | frontend/src/pages/therapist/Wallet.tsx:103-108 | Clear Filters asks for the unfiltered first page whatever the fields still hold |
| Wallet.EmptyOverrideLikeEmptyField | frontend/src/pages/therapist/Wallet.tsx:59-68 | an explicit '' override and an empty field send the same query |
| Wallet.TargetPage | frontend/src/pages/therapist/Wallet.tsx:110-114 | the neighbouring page when it lies in 1..totalPages, otherwise nothing |
| Wallet.ButtonsMatchPageChange | frontend/src/pages/therapist/Wallet.tsx:358-368 | on a page in range, a button is enabled exactly when pressing it requests a page |
| Wallet.NextThenPrevious | frontend/src/pages/therapist/Wallet.tsx:110-114 | Next then Previous comes back to the same page |
| Wallet.Merge | frontend/src/pages/therapist/Wallet.tsx:73-78 | the reply's page, page count and total replace the old ones; the limit stays |
| Wallet.RangeLabel | frontend/src/pages/therapist/Wallet.tsx:354 | the first position of the page, and the page end capped at the total |
| Wallet.RangeLabelBounds | frontend/src/pages/therapist/Wallet.tsx:354 | on a non-empty page the label names 1 to `limit` transactions, none beyond the total |
| Wallet.RangeLabelsAdjacent | frontend/src/pages/therapist/Wallet.tsx:354 | the next page's label starts right after this one's ends |
| Wallet.WalletPage.HandleApplyFilters | frontend/src/pages/therapist/Wallet.tsx:99-101 | the first page with the current filters |
| Wallet.WalletPage.HandleClearFilters | frontend/src/pages/therapist/Wallet.tsx:103-108 | the filters are emptied and the unfiltered first page requested |
| Wallet.WalletPage.HandlePageChange | frontend/src/pages/therapist/Wallet.tsx:110-114 | a request exactly when the target page is in range, with the current filters |
| Wallet.WalletPage.ReceiveWalletData | frontend/src/pages/therapist/Wallet.tsx:73-78 | the reply's pagination is merged in; the filters stay |
| Reviews.ResponseTime | frontend/src/pages/therapist/Review.tsx:57-59 | "Today" exactly for 0 or fewer days, "1 day ago" exactly for 1, else "N days ago" |
| Reviews.ResponseTimeDistinguishes | frontend/src/pages/therapist/Review.tsx:58-59 | different day counts from one on never share a label |
| Reviews.PatientName | frontend/src/pages/therapist/Review.tsx:51-53 | the name is never empty |
| Reviews.PatientNameFallback | frontend/src/pages/therapist/Review.tsx:51-53 | 'Client' when both names are blank, else the trimmed full name |
| Reviews.MapReview | frontend/src/pages/therapist/Review.tsx:47-74 | id and date kept; the name is `PatientName`'s; missing rating is 0, missing or empty issue 'Therapy Session', missing comment ''; the label follows the day count |
| Reviews.BeforeIsTotalPreorder | frontend/src/pages/therapist/Review.tsx:106-109 | both sort orders are total preorders |
| Reviews.FilteredReviews | frontend/src/pages/therapist/Review.tsx:98-109 | exactly the reviews matching the rating and the search, ordered by the chosen key |
| Reviews.FilteredReviewsCounts | frontend/src/pages/therapist/Review.tsx:98-105 | each matching review appears as often as in the full list, others not at all |
| Reviews.FilteredReviewsKeepTies | frontend/src/pages/therapist/Review.tsx:98-109 | reviews with the same rating (or date) are listed in the server's order, as the stable sort keeps them |
| Reviews.NoFilterShowsAll | frontend/src/pages/therapist/Review.tsx:98-105 | no rating filter and an empty search list every review |
| Reviews.FiveStarCount | frontend/src/pages/therapist/Review.tsx:93 | never more than the number of reviews |
| Reviews.RatingDistribution | frontend/src/pages/therapist/Review.tsx:111-115 | five bars for ratings 5 to 1, each counting the reviews with that rating |
| Reviews.DistributionWithinTotal | frontend/src/pages/therapist/Review.tsx:111-115 | the bars together count each review at most once |
| Reviews.FiveStarIsTopBar | frontend/src/pages/therapist/Review.tsx:93-115 | the five-star card and the top bar agree |
| Reviews.Stars | frontend/src/pages/therapist/Review.tsx:126-133 | star k is filled exactly when k ≤ rating |
| Reviews.StarsShowRating | frontend/src/pages/therapist/Review.tsx:126-133 | filled stars come first and number the rating clamped to 0..5 |
| Elapsed.Bucket | frontend/src/pages/therapist/Dashboard.tsx:107-116 | under a minute, whole minutes under an hour, hours under a day, days under a week, else a date |
| Elapsed.BucketMonotone | frontend/src/components/chat/ConversationList.tsx:22-32 | an older timestamp is never described as more recent |
| TherapistDashboard.FormatRelativeTime | frontend/src/pages/therapist/Dashboard.tsx:104-117 | "just now" exactly under a minute; "N min ago", "N h ago", "N d ago" with N the whole units elapsed |
| TherapistDashboard.MapAppointment | frontend/src/pages/therapist/Dashboard.tsx:134-148 | phone sessions exactly for mode 'phone'; other fields are copied |
| TherapistDashboard.Todays | frontend/src/pages/therapist/Dashboard.tsx:150-152 | exactly the mapped appointments dated today |
| TherapistDashboard.TodaysAppend | frontend/src/pages/therapist/Dashboard.tsx:150-152 | the server's order is kept |
| TherapistDashboard.TodaysOne | frontend/src/pages/therapist/Dashboard.tsx:150-152 | one appointment is kept, mapped, exactly when it is dated today |
| TherapistDashboard.TodaysLength | frontend/src/pages/therapist/Dashboard.tsx:150-152 | as many entries as appointments dated today |
| TherapistDashboard.AptLeIsTotalPreorder | frontend/src/pages/therapist/Dashboard.tsx:156-166 | the date-then-time comparator is a total preorder |
| TherapistDashboard.UpcomingSorted | frontend/src/pages/therapist/Dashboard.tsx:154-166 | a permutation of the appointments later than today, each as often as in the input, ordered by date and time |
| Collections.SortByKeepsTies | frontend/src/pages/therapist/Dashboard.tsx:155-166 | the sort is stable: elements the comparator ties keep their relative order |
| TherapistDashboard.UpcomingKeepsServerOrder | frontend/src/pages/therapist/Dashboard.tsx:154-166 | appointments booked for the same later date and time keep the server's order, as the stable sort keeps them |
| TherapistDashboard.Upcoming | frontend/src/pages/therapist/Dashboard.tsx:154-168 | the first three (or fewer) of `UpcomingSorted`, mapped, in that order |
| TherapistDashboard.UpcomingAreEarliest | frontend/src/pages/therapist/Dashboard.tsx:154-168 | any later appointment left out comes no earlier than each shown one |
| TherapistDashboard.TotalClients | frontend/src/pages/therapist/Dashboard.tsx:184-185 | the number of distinct names, leaving out the empty one |
| TherapistDashboard.TotalClientsDistinctNames | frontend/src/pages/therapist/Dashboard.tsx:184-185 | that is the number of distinct non-empty client names |
| TherapistDashboard.TotalSessions | frontend/src/pages/therapist/Dashboard.tsx:173-180 | the server's `all`, or the number of appointments without counts |
| TherapistDashboard.MapNotification | frontend/src/pages/therapist/Dashboard.tsx:219-225 | 'system' becomes 'message', other kinds stay; id, text and read flag kept; the time is `FormatRelativeTime` of the age |
| TherapistDashboard.Notifications | frontend/src/pages/therapist/Dashboard.tsx:218-226 | the first four notifications, mapped in order |
| TherapistDashboard.NotificationKinds | frontend/src/pages/therapist/Dashboard.tsx:218-226 | no shown notification is 'system'; every other kind is shown as sent |
| Booking.Primary | frontend/src/components/client/BookingFlow.tsx:33 | the first suggestion, absent exactly for an empty list |
| Booking.Alternatives | frontend/src/components/client/BookingFlow.tsx:34 | the second and third suggestions that exist, at most two |
| Booking.PrimaryNotAlternative | frontend/src/components/client/BookingFlow.tsx:33-34 | with distinct ids the primary is never an alternative |
| Booking.ToggleAvailability | frontend/src/components/client/BookingFlow.tsx:49-56 | the toggled window changes membership, every other keeps it |
| Booking.ToggleAvailabilityTwice | frontend/src/components/client/BookingFlow.tsx:49-56 | ticking twice gives back the same windows |
| Booking.ToggleAvailabilityDistinct | frontend/src/components/client/BookingFlow.tsx:49-56 | toggling never ticks a window twice |
| Booking.GuardImpliesComplete | frontend/src/components/client/BookingFlow.tsx:58-75 | the booking guard is the button's condition plus a selected therapist; with none it never passes |
| Booking.LeadingDigits | frontend/src/components/client/BookingFlow.tsx:66 | the longest run of digits at the start |
| Booking.FirstField | frontend/src/components/client/BookingFlow.tsx:66 | `split('_')[0]`: the prefix before the first '_' |
| Booking.ParseInt | frontend/src/components/client/BookingFlow.tsx:66 | text starting with a letter is not a number |
| Booking.ParseIntOfDigits | frontend/src/components/client/BookingFlow.tsx:66 | a string of digits parses to its decimal value |
| Booking.SessionFee | frontend/src/components/client/BookingFlow.tsx:66 | the fee is never 0 |
| Booking.SessionFeeReadsLeadingNumber | frontend/src/components/client/BookingFlow.tsx:66 | "n_…" with n > 0 is charged n |
| Booking.SessionFeeOfWordFallsBack | frontend/src/components/client/BookingFlow.tsx:66 | a value starting with a letter is charged 1500 |
| Booking.EveryBudgetCosts1500 | frontend/src/components/client/BookingFlow.tsx:66 | each of the three budget values offered (under_1500, 1500_2000, over_2000) is charged 1500 |
| Booking.ViewOf | frontend/src/components/client/BookingFlow.tsx:283 | the success view exactly when on success with booking data; nothing on success without |
| Booking.TherapistName | frontend/src/components/client/BookingFlow.tsx:61-63 | the selected therapist's name, or 'Therapist' when none has the id |
| Booking.TherapistNameFirstMatch | frontend/src/components/client/BookingFlow.tsx:61-63 | the first therapist with the id gives the name (or 'Therapist' when it is empty) |
| Booking.BookingFlow.SelectBudget | frontend/src/components/client/BookingFlow.tsx:216 | only the budget changes |
| Booking.BookingFlow.ToggleWindow | frontend/src/components/client/BookingFlow.tsx:249 | only the availability changes, by `ToggleAvailability` |
| Booking.BookingFlow.Back | frontend/src/components/client/BookingFlow.tsx:265 | back from preferences returns to confirmation |
| Booking.BookingFlow.CompleteBooking | frontend/src/components/client/BookingFlow.tsx:58-71 | goes ahead exactly when the guard holds, then shows success with the therapist's name, mode 'video' and the fee; otherwise changes nothing |
| Booking.StepsFromStart | frontend/src/components/client/BookingFlow.tsx:20-71 | from the first render any actions leave the flow on confirmation with no booking data |
| UserDetail.Initials | frontend/src/pages/admin/UserDetail.tsx:75-79 | one initial per non-empty name, at most two: the upper-case first letter of the first name, then of the last name |
| UserDetail.InitialsIgnoreCase | frontend/src/pages/admin/UserDetail.tsx:75-79 | initials do not depend on capitalisation |
| UserDetail.Age | frontend/src/pages/admin/UserDetail.tsx:81-94 | 'N/A' exactly without a date of birth; otherwise the number of birthdays reached |
| UserDetail.AgeUnique | frontend/src/pages/admin/UserDetail.tsx:81-94 | only one number of years fits the last birthday reached |
| UserDetail.AgeOnBirthday | frontend/src/pages/admin/UserDetail.tsx:81-94 | on the n-th birthday the age is n |
| UserDetail.AgeMonotone | frontend/src/pages/admin/UserDetail.tsx:81-94 | the age never goes down as time passes |
| UserDetail.RatingLabel | frontend/src/pages/admin/UserDetail.tsx:558-561 | 5 to 2 have their own labels; anything else is 'Poor' |
| UserDetail.SessionStarsLikeReviewStars | frontend/src/pages/admin/UserDetail.tsx:549-553 | star i is filled when i < rating, the reviews page's rule, so the rating clamped to 0..5 are filled |
| UserDetail.ModeColor | frontend/src/pages/admin/UserDetail.tsx:182-189 | grey exactly for modes other than video, audio and in-person |
| UserDetail.ModeColorsDistinct | frontend/src/pages/admin/UserDetail.tsx:182-189 | the three known modes have different colours |
| UserDetail.IssueColor | frontend/src/pages/admin/UserDetail.tsx:191-198 | grey exactly when the lower-cased issue is none of the three known |
| UserDetail.IssueColorIgnoresCase | frontend/src/pages/admin/UserDetail.tsx:191-198 | capitalisation never changes an issue's colour |
| UserDetail.StatusBadge | frontend/src/pages/admin/UserDetail.tsx:360-365 | green exactly for lower-cased 'active'; the text is the status, or 'Unknown' when it is missing or empty |
| UserDetail.StatusBadgeIgnoresCase | frontend/src/pages/admin/UserDetail.tsx:360-364 | capitalisation never changes the badge colour |
| ConversationList.FormatTimeAgo | frontend/src/components/chat/ConversationList.tsx:19-33 | "just now" exactly under a minute; "Nm ago", "Nh ago", "Nd ago" with N the whole units elapsed |
| ConversationList.TimeAgoNamesWholeUnits | frontend/src/components/chat/ConversationList.tsx:28-30 | the number in the label reads back as the whole units elapsed |
| ConversationList.UnreadCount | frontend/src/components/chat/ConversationList.tsx:84 | a missing count is 0 |
| ConversationList.RowOf | frontend/src/components/chat/ConversationList.tsx:83-115 | name kept; the last message or 'No messages yet' as preview; a time exactly with a last message time, as `FormatTimeAgo`; a badge exactly for unread; highlighted exactly when selected |
| ConversationList.AtMostOneHighlighted | frontend/src/components/chat/ConversationList.tsx:91 | with one conversation per client at most one row is highlighted, none without a selection |
| DashboardLayout.PrefixesExclusive | frontend/src/layouts/DashboardLayout.tsx:15-19 | no address starts with both '/admin' and '/therapist' |
| DashboardLayout.RoleFromPath | frontend/src/layouts/DashboardLayout.tsx:15-19 | '/admin…' is admin, and the therapist role belongs to exactly the '/therapist…' addresses |
| DashboardLayout.ConfigFor | frontend/src/layouts/DashboardLayout.tsx:22 | the therapist sidebar exactly for the therapist role |
| DashboardLayout.SidebarMargin | frontend/src/layouts/DashboardLayout.tsx:24 | 'lg:ml-16' exactly when collapsed, else 'lg:ml-64' |
| DashboardLayout.Layout.ToggleCollapse | frontend/src/layouts/DashboardLayout.tsx:32 | flips the collapsed flag only |
| DashboardLayout.Layout.OpenSidebar | frontend/src/layouts/DashboardLayout.tsx:39 | opens the sidebar only |
| DashboardLayout.Layout.CloseSidebar | frontend/src/layouts/DashboardLayout.tsx:30 | closes the sidebar only |
| DashboardLayout.ToggleTwiceRestoresMargin | frontend/src/layouts/DashboardLayout.tsx:24-32 | collapsing and expanding again restores the margin |

## Left out

- Network, storage and authentication are left out: every service call, the pre-signed URL fetches, uploads, and navigation. Server replies are parameters (`reply`, `certificates`, `PageReply`), and a failed request is `None`.
- The 409-style recheck of the application status before a reject, the approve flow, and the reload after it are server round-trips and are left out. `RejectReason.RejectDialog.HandleReject` models the local part of the handler.
- Timers are modelled as explicit steps: the OTP countdown's interval is `Otp.OtpForm.Tick`. Conversation polling, toasts and `setTimeout` delays are left out.
- The clock is a parameter. Elapsed milliseconds, the review's day count and date, today's date, and the birth and current dates are inputs, not read from `Date`.
- Locale formatting is left out (`toLocaleDateString`, `toLocaleString`, `toISOString`). A relative time of a week or more is the empty string in `TherapistDashboard.FormatRelativeTime` and `ConversationList.FormatTimeAgo`.
- Floating point display is left out: the average rating, the percentages, the match score, and `toFixed` prices. Prices are `real`.
- Malformed time strings (NaN in `timeToMinutes`) are excluded by a precondition that start times are "" or picker values "HH:MM".
- The approval-status gate of the availability editor depends on a remote value and is left out.
- The JSX rendering, icons, toast wording and modal glue are left out, except where a rule decides what is shown.
- `Text.ToLower` and `Text.Trim`'s white space are exact for the source's comparisons. Case mapping covers ASCII letters only: JavaScript's full Unicode `toLowerCase`/`toUpperCase` are not modelled.
- `UserDetail.Initials`: an initial is one character (code point). JavaScript's `charAt(0)` of a name starting outside the Basic Multilingual Plane gives a lone surrogate, and `toUpperCase` can turn one character into two (for example 'ß'); neither is modelled.
- String lengths are counted in code points, not UTF-16 code units. The 10 and 500 bounds of the reject reason and the 4-character paste prefix differ from the source's for text outside the Basic Multilingual Plane.
- `TherapistDashboard.UpcomingSorted`: `localeCompare` is modelled as code-point order (`Text.LexLe`), which agrees with it on `YYYY-MM-DD` dates and `HH:MM` times.
- `Text.LexLe`: compares code points. It differs from JavaScript's code-unit `<` and from `localeCompare` on text with characters above U+FFFF or outside ASCII; every use in the model compares dates or times.
- `RejectReason.CheckTrimmedAccepts`: the run-of-five check and the length bounds work on code points, while the source's `/(.)\1{4,}/` has no `u` flag and works on UTF-16 code units. For example "nice work 😀😀😀😀😀" is accepted by the source and rejected by the model.
- `Reviews.MapReview`: `Number(rating) || 0` is modelled for integer ratings or a missing or non-numeric one (0). Fractional ratings are not modelled.
- `Booking.ParseInt`: its contract states the two cases the budgets need (letters give NaN, digits give their value). Leading signs and white space are in the body only; a "0x" prefix, read as hexadecimal by `parseInt` without a radix, is not modelled.
- `Booking.BookingFlow`: the appointment time (a week from the clock) and the `onBookingComplete` and `onCancel` callbacks are left out. `CompleteBooking` reports the callback as `completed`.
- `UserDetail.Age`: parsing the date string and time zones are left out; an unparseable date (NaN) is not modelled.
- `TherapistProfile.ProfilePage.ReceiveProfile`: when the reloaded profile has no certifications, the certificate list keeps its old value, as the source does.
- Profile form submission and file upload (`handleSubmit`, image and resume upload) are I/O and are left out. `TherapistProfile.FormSurvivesReload` states the round trip a submit and a reload complete.
- Wallet statistics and transaction rows are displayed as received and are left out.

## Findings

| source | as written | input that shows it | evidently intended | confidence | as-written member | corrected member |
|---|---|---|---|---|---|---|
| frontend/src/pages/therapist/ManageSlots.tsx:81-96 | `startEditingSchedule` puts the saved schedule's own day objects into the editor, and `toggleDay` mutates them in place, so Cancel does not discard edits | saved schedule with a disabled Monday; Edit, toggle Monday, Cancel: the saved Monday is now enabled | editing works on copies, so Cancel leaves the saved schedule unchanged | not executed | SlotEditor.SharedDayAfterCancel | SlotEditor.DetachedDayAfterCancel |
| frontend/src/pages/therapist/Profile.tsx:124 | reloading the certificates does not reset `currentCertIndex`, and `nextCertificate` only wraps at exactly the last index | on the third of three certificates, a reload returns two; "next" moves to position 3 of a two-element list | a reload moves the carousel back to a certificate that exists | not executed | TherapistProfile.CarouselAfterReloadAsWritten | TherapistProfile.CarouselAfterReload |
