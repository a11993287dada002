# Trip Wise packing list — a Dafny model of its core

Trip Wise asks an AI gateway for a packing list for a trip. The list is built
from a destination, two dates, an age group and a travel style. The app turns
the list into a checklist that the traveller can tick, trim, extend, reset,
copy and download. This project models the logic behind that, in Dafny:

- **The checklist screen** (`PackingChecklistComponent`, with `ChecklistItems`,
  `ChecklistExport`, `TripForm` and `TabSwipe`):
  - the rows built from a generated list;
  - the progress figure and the grouping by category;
  - the row updates: toggle, delete, add a custom task, reset;
  - the check made before a list is requested;
  - the plain-text export and the name of the downloaded file;
  - the swipe between tabs.
- **The generation endpoint** (`GeneratePackingList`):
  - the pre-flight answer;
  - the trip duration;
  - the mapping of the gateway's failures to responses;
  - the removal of code fences from the model's text;
  - the conversion of every error into a 500 response.
- **The feedback loop** (`FeedbackAutomationHook`, `FeedbackPanel`):
  - the list of the ten latest entries, kept by refreshes and realtime inserts;
  - the feedback prompt;
  - the form that sends a rating and a message;
  - the rolling average rating.
- **Two small state machines:**
  - pull to refresh (`PullToRefreshHook`);
  - the install prompt of the web app (`PwaInstallHook`).

Components and hooks that keep state become classes. Their setters become
fields that the methods assign. A handler that awaits a call is split at the
`await` into a `Start…` and a `Finish…` method. The call's result is an input
of the second one.

The pure list transforms are functions. Lemmas about them state what the
screen relies on:

- regrouping the flattened rows gives each category back;
- toggling twice is no change;
- reset is idempotent;
- the export has as many ticked boxes as the list has checked rows.

The loops of the source are methods proved against those functions:

- the nested `forEach` of the flatten effect;
- the `reduce` that groups rows;
- the `forEach` that writes the export.

The JavaScript built-ins the code uses are written out in `JsText` and
`IsoDate`:

- `trim()` and the `\s` class, with the full JavaScript set of white-space
  characters;
- `replace(/\s+/g, …)`;
- decimal printing and reading of numbers;
- `new Date` on a "YYYY-MM-DD" string, as V8 reads it: the day is checked
  only against 1 to 31, and a day past the end of its month rolls over.

`Wrappers` holds `Option` and `Result`.

## Model

| member | source | states |
|---|---|---|
| ChecklistItems.NewItem | src/components/PackingChecklist.tsx:116-121 | a built row carries the item as its text and the category's name, unchecked |
| ChecklistItems.Flattened | src/components/PackingChecklist.tsx:106-125 | one row per (category, item) pair: the number of rows is the total number of items |
| ChecklistItems.FlattenedAt | src/components/PackingChecklist.tsx:109-121 | item `j` of category `k` is the row right after the earlier categories' rows and the earlier items of `k`, with id `name-item-token`, the item as text, the category's name, unchecked: category order, then item order |
| ChecklistItems.FlattenCategories | src/components/PackingChecklist.tsx:108-124 | the nested push loops build exactly `Flattened` of the categories |
| ChecklistItems.FlattenedUnchecked | src/components/PackingChecklist.tsx:119 | a freshly built checklist has nothing checked and 0% progress |
| ChecklistItems.CategoryItemsTexts | src/components/PackingChecklist.tsx:110-122 | the rows built for one category carry its items as their texts, in order |
| ChecklistItems.RegroupFlattened | src/components/PackingChecklist.tsx:133-139 | with distinct category names, regrouping the flattened rows gives each category its own rows, whose texts are its items in their original order |
| ChecklistItems.RegroupUnknown | src/components/PackingChecklist.tsx:133-139 | a name that no category carries gets no rows |
| ChecklistItems.ItemsIn | src/components/PackingChecklist.tsx:134-137 | a category's rows all carry that category and are no more than the list's rows |
| ChecklistItems.ItemsInAppend | src/components/PackingChecklist.tsx:134-138 | the rows of a category in a concatenation are its rows in each part, in order |
| ChecklistItems.GroupByCategory | src/components/PackingChecklist.tsx:133-139 | the `reduce` yields a key exactly for the categories that have rows, and each key maps to that category's rows in list order |
| ChecklistItems.CheckedCount | src/components/PackingChecklist.tsx:129 | the number of checked rows never exceeds the number of rows |
| ChecklistItems.CheckedCountAll | src/components/PackingChecklist.tsx:129 | the checked count equals the length exactly when every row is checked |
| ChecklistItems.CheckedCountNone | src/components/PackingChecklist.tsx:129 | the checked count is 0 exactly when no row is checked |
| ChecklistItems.RatioBounds | src/components/PackingChecklist.tsx:130 | a share times 100 lies in [0, 100], is 100 exactly for a full share and 0 exactly for none |
| ChecklistItems.Progress | src/components/PackingChecklist.tsx:127-131 | progress lies in [0, 100]; it is 100 exactly when the list is non-empty and all checked; it is 0 exactly when nothing is checked, which includes the empty list |
| ChecklistItems.Toggle | src/components/PackingChecklist.tsx:191-197 | same length and order; rows with another id are unchanged; rows with the id keep id, text and category and have `checked` flipped |
| ChecklistItems.ToggleTwice | src/components/PackingChecklist.tsx:193-196 | toggling the same id twice restores the list |
| ChecklistItems.ToggleUniqueCount | src/components/PackingChecklist.tsx:193-196 | with one row carrying the id, the checked count moves by exactly one, in the direction of the flip |
| ChecklistItems.TogglePassive | src/components/PackingChecklist.tsx:193-196 | toggling an id that no row carries changes nothing |
| ChecklistItems.Delete | src/components/PackingChecklist.tsx:204 | `filter`: no kept row carries the id, and the list does not grow |
| ChecklistItems.DeleteRemovesExactly | src/components/PackingChecklist.tsx:203-204 | no surviving row carries the id; every row with another id keeps its number of occurrences |
| ChecklistItems.DeleteAppend | src/components/PackingChecklist.tsx:204 | deletion distributes over concatenation, so the kept rows stay in their relative order |
| ChecklistItems.DeleteAbsent | src/components/PackingChecklist.tsx:204 | deleting an id that no row carries changes nothing |
| ChecklistItems.Reset | src/components/PackingChecklist.tsx:227-228 | every row unchecked; ids, texts, categories and length kept |
| ChecklistItems.ResetIdempotent | src/components/PackingChecklist.tsx:227-228 | resetting twice equals resetting once, and a reset list is at 0% progress |
| ChecklistItems.ResetAfterToggle | src/components/PackingChecklist.tsx:191-197 | a reset erases any earlier toggle |
| ChecklistItems.CustomItem | src/components/PackingChecklist.tsx:214-219 | the id is "custom-" followed by digits that read back as the clock reading; the text is the task as typed; unchecked; category "Custom" |
| ChecklistItems.AddThenDelete | src/components/PackingChecklist.tsx:214-221 | deleting a just-added custom row by its id gives back the earlier list, when no earlier row shared that id |
| ChecklistItems.CustomItemLastInGroup | src/components/PackingChecklist.tsx:214-221 | the added row is the last row of the "Custom" group |
| ChecklistExport.ItemLine | src/components/PackingChecklist.tsx:265-266 | one row's line; its shape is stated by `ItemLineShape` |
| ChecklistExport.ItemLineShape | src/components/PackingChecklist.tsx:265-266 | the line is ☑ for a checked row and ☐ otherwise, a space, the row's text unchanged, and one line break |
| ChecklistExport.ItemLines | src/components/PackingChecklist.tsx:264-267 | the lines are empty exactly when there are no rows, and otherwise end in a line break |
| ChecklistExport.ExportHeader | src/components/PackingChecklist.tsx:258-261 | the header starts with "PACKING LIST FOR " and ends with a blank line |
| ChecklistExport.ExportDocument | src/components/PackingChecklist.tsx:256-267 | the document starts with "PACKING LIST FOR " and is the bare header exactly when there are no rows |
| ChecklistExport.WriteItemLines | src/components/PackingChecklist.tsx:264-267 | the loop appends exactly the item lines (☑ or ☐, a space, the text, a line break) for every row, in list order, to the header text |
| ChecklistExport.ExportFileName | src/components/PackingChecklist.tsx:291 | the name starts with "packing-list-" and ends with ".txt"; the middle is stated by `FileNameOfSingleWord` and `FileNameJoinsWords` |
| ChecklistExport.FileNameHasNoWhitespace | src/components/PackingChecklist.tsx:291 | the download name never contains white space |
| ChecklistExport.FileNameOfSingleWord | src/components/PackingChecklist.tsx:291 | a destination without white space only has its letters lowered |
| ChecklistExport.LowerStaysPlain | src/components/PackingChecklist.tsx:291 | lowering case adds no white space |
| ChecklistExport.FileNameJoinsWords | src/components/PackingChecklist.tsx:291 | two white-space-free words with a run of white space of any length between them give the lowered words joined by exactly one "-" |
| ChecklistExport.FileNameForNewYork | src/components/PackingChecklist.tsx:291 | "New  York" is downloaded as "packing-list-new-york.txt" |
| ChecklistExport.TickedInLine | src/components/PackingChecklist.tsx:264-267 | a row's line holds one ☑ when the row is checked and none otherwise, if its text holds none |
| ChecklistExport.TickedLinesMatchProgress | src/components/PackingChecklist.tsx:264-267 | when no text contains ☑, the export has as many ☑ as the list has checked rows |
| TripForm.ValidateTrip | src/components/PackingChecklist.tsx:141-159 | a request goes out exactly when all five fields are non-empty and the end date is not before the start date; the missing-fields rejection is reported exactly when a field is empty; the body carries the five fields |
| TripForm.SameDayAccepted | src/components/PackingChecklist.tsx:150 | equal start and end dates are accepted |
| TripForm.AcceptedDatesOrdered | src/components/PackingChecklist.tsx:150-153 | an accepted request whose dates are both valid has its end on or after its start |
| TabSwipe.IndexOf | src/components/PackingChecklist.tsx:355 | `findIndex`: the first position of the key, or -1 exactly when it is absent |
| TabSwipe.SwipeTab | src/components/PackingChecklist.tsx:353-362 | no change unless the travel exceeds 60 either way; the result is always a tab; leftward travel goes one tab on and rightward travel one tab back, clamped to the first and last tab |
| TabSwipe.SwipeGesture.constructor | src/components/PackingChecklist.tsx:346-347 | both positions start at 0 |
| TabSwipe.SwipeGesture.OnTouchStart | src/components/PackingChecklist.tsx:350-352 | touch start records the start position only |
| TabSwipe.SwipeGesture.OnTouchMove | src/components/PackingChecklist.tsx:364-366 | touch move records the end position only |
| TabSwipe.SwipeGesture.OnTouchEnd | src/components/PackingChecklist.tsx:353-363 | touch end yields `SwipeTab` of the travel between the two positions |
| TabSwipe.TapAsWritten | src/components/PackingChecklist.tsx:345-368 | as written, a tap without a move more than 60 pixels from the left edge on "plan" opens "pack" |
| TabSwipe.SwipeGesture.OnTouchStartAnchored | src/components/PackingChecklist.tsx:350-352 | corrected touch start: both positions start at the touch |
| TabSwipe.GestureAnchored | src/components/PackingChecklist.tsx:345-368 | corrected: a tap never changes the tab; a gesture changes it by `SwipeTab` of its real travel |
| PackingChecklistComponent.PackingChecklist.constructor | src/components/PackingChecklist.tsx:70-78 | the screen starts on "plan" with empty fields, no list and no rows |
| PackingChecklistComponent.PackingChecklist.StartGenerate | src/components/PackingChecklist.tsx:141-155 | the validation's verdict is returned; `loading` is turned on only when a request goes out |
| PackingChecklistComponent.PackingChecklist.FinishGenerate | src/components/PackingChecklist.tsx:161-176 | on success the data is stored and the rows are rebuilt from it; a falsy `data` (such as the reply `null`) is stored as no list and keeps the old rows, because the effect at src/components/PackingChecklist.tsx:106-107 returns early; either success opens "pack" on a first generation and keeps the tab on a refresh; a failure keeps the data, rows and tab; `loading` ends off |
| PackingChecklistComponent.PackingChecklist.OnPullRefresh | src/components/PackingChecklist.tsx:181-189 | a pull regenerates only when a list exists |
| PackingChecklistComponent.PackingChecklist.ToggleItem | src/components/PackingChecklist.tsx:191-197 | the rows become `Toggle` of the old rows |
| PackingChecklistComponent.PackingChecklist.DeleteItem | src/components/PackingChecklist.tsx:203-206 | the rows become `Delete` of the old rows |
| PackingChecklistComponent.PackingChecklist.AddCustomTask | src/components/PackingChecklist.tsx:208-225 | a blank task changes nothing; otherwise exactly one unchecked "Custom" row with the untrimmed text and id "custom-<now>" is appended, and the input is cleared |
| PackingChecklistComponent.PackingChecklist.ResetChecklist | src/components/PackingChecklist.tsx:227-230 | the rows become `Reset` of the old rows |
| PackingChecklistComponent.PackingChecklist.CopyToClipboard | src/components/PackingChecklist.tsx:256-268 | nothing without a list; otherwise the header (destination in capitals, dates, weather, tips) followed by the item lines |
| PackingChecklistComponent.PackingChecklist.DownloadChecklist | src/components/PackingChecklist.tsx:274-291 | nothing without a list; otherwise the same document, under the download name |
| PackingChecklistComponent.CopyAndDownload | src/components/PackingChecklist.tsx:256-295 | copy and download on the same state both produce a text or both produce nothing, and the texts are identical |
| PackingChecklistComponent.PackingChecklist.SelectTab | src/components/PackingChecklist.tsx:631 | the chosen tab becomes active |
| PackingChecklistComponent.PackingChecklist.EndSwipe | src/components/PackingChecklist.tsx:353-363 | the active tab follows the swipe and stays one of the four tabs |
| GeneratePackingList.CeilDiv | supabase/functions/generate-packing-list/index.ts:26 | the least integer not below the quotient |
| GeneratePackingList.DurationDays | supabase/functions/generate-packing-list/index.ts:24-26 | the number of days brackets the time span: (days-2) full days < span ≤ (days-1) full days |
| GeneratePackingList.WholeDaysDuration | supabase/functions/generate-packing-list/index.ts:26 | an end `k` whole days after the start gives `k + 1`, for any integer `k` |
| GeneratePackingList.SameDayAndDayBefore | supabase/functions/generate-packing-list/index.ts:26 | the same day gives 1; an end one day before the start gives 0, not a rejection |
| GeneratePackingList.TripDays | supabase/functions/generate-packing-list/index.ts:24-26 | a duration exists exactly when both dates are valid |
| GeneratePackingList.DayStampsDuration | supabase/functions/generate-packing-list/index.ts:24-26 | midnights `s` and `e` days after the epoch are `e - s + 1` days apart, both ends counted |
| GeneratePackingList.TripDaysInclusive | supabase/functions/generate-packing-list/index.ts:24-26 | for valid dates the duration is the difference in days plus one |
| GeneratePackingList.ThreeDayTrip | supabase/functions/generate-packing-list/index.ts:24-26 | 2024-05-01 to 2024-05-03 is three days |
| GeneratePackingList.UpstreamMessagesDistinct | supabase/functions/generate-packing-list/index.ts:80-94 | the rate-limit and credits messages differ, and the generic message differs from both; the generic message is "AI gateway error: " followed by the status in decimal, which reads back as the status, so different statuses give different messages |
| GeneratePackingList.RemoveToken | supabase/functions/generate-packing-list/index.ts:103 | the global replacement never lengthens the text |
| GeneratePackingList.StripFences | supabase/functions/generate-packing-list/index.ts:103 | the cleaned text has no white space at either end |
| GeneratePackingList.StripJsonFence | supabase/functions/generate-packing-list/index.ts:103 | "```json\n" + x + "\n```" becomes x, for a backtick-free trimmed x |
| GeneratePackingList.StripPlain | supabase/functions/generate-packing-list/index.ts:103 | backtick-free text with no surrounding white space is returned unchanged |
| GeneratePackingList.RemoveFenceLeavesNone | supabase/functions/generate-packing-list/index.ts:103 | after the second replacement no run of three backticks is left |
| GeneratePackingList.StripFencesLeavesNoFence | supabase/functions/generate-packing-list/index.ts:103 | the cleaned text contains no code fence |
| GeneratePackingList.HandleRequest | supabase/functions/generate-packing-list/index.ts:8-121 | OPTIONS: status 200, CORS headers, no body, nothing else done. An unreadable body or missing key gives 500 with the error's message or "LOVABLE_API_KEY is not configured". A failed fetch gives 500. For a status that is not OK the body is read first, and a failed read gives 500 with its message whatever the status; otherwise 429 and 402 give their own status and message, and any other status gives 500 "AI gateway error: <status>". An unreadable reply or a parse failure gives 500 with the message, or "An unknown error occurred" for a non-Error. Otherwise status 200 with CORS and JSON headers and the parsed cleaned text, unchanged |
| FeedbackAutomationHook.PrependCapped | src/hooks/use-feedback-automation.ts:73 | the new entry first, then the earlier entries in order, `min(n + 1, 10)` entries in all |
| FeedbackAutomationHook.InsertAllKeepsNewest | src/hooks/use-feedback-automation.ts:71-74 | after any run of realtime inserts on a list of at most ten, the list is the latest ten: the arrivals newest first, then the earlier list |
| FeedbackAutomationHook.NewestFirst | src/hooks/use-feedback-automation.ts:73 | of two inserts in a row, the later one ends first and the earlier one second |
| FeedbackAutomationHook.FeedbackAutomation.constructor | src/hooks/use-feedback-automation.ts:29-33 | no entries, not loading, no error, prompt closed, never prompted; the automation is inactive |
| FeedbackAutomationHook.FeedbackAutomation.AutomationActive | src/hooks/use-feedback-automation.ts:119 | active while loading or once there is an entry |
| FeedbackAutomationHook.FeedbackAutomation.StartRefresh | src/hooks/use-feedback-automation.ts:36-38 | loading on and error cleared before the query, so the automation is active |
| FeedbackAutomationHook.FeedbackAutomation.FinishRefresh | src/hooks/use-feedback-automation.ts:39-53 | rows replace the list (null gives an empty list); a failure keeps the list and sets the error's message or "Unable to fetch feedback"; loading ends in both cases; afterwards the automation is active exactly when the list is non-empty |
| FeedbackAutomationHook.FeedbackAutomation.RealtimeInsert | src/hooks/use-feedback-automation.ts:71-74 | the list becomes `PrependCapped` of the old list; the automation is active |
| FeedbackAutomationHook.FeedbackAutomation.SubmitFeedback | src/hooks/use-feedback-automation.ts:83-102 | success exactly when the insert reported no error; success closes the prompt and stamps the time; failure leaves the prompt and the stamp unchanged and returns the message or "Unknown error" |
| FeedbackAutomationHook.FeedbackAutomation.RegisterTripGeneration | src/hooks/use-feedback-automation.ts:104-107 | the prompt opens and is stamped with the time |
| FeedbackAutomationHook.FeedbackAutomation.SetPromptOpen | src/hooks/use-feedback-automation.ts:32 | the prompt takes the given state |
| FeedbackPanel.AverageRating | src/components/feedback/FeedbackAutomationPanel.tsx:39-43 | 0 for no entries; otherwise the value that, times the number of entries, gives the sum of the ratings |
| FeedbackPanel.RatingSumWithin | src/components/feedback/FeedbackAutomationPanel.tsx:41 | with every rating in [lo, hi], the sum lies between lo·n and hi·n |
| FeedbackPanel.AverageWithin | src/components/feedback/FeedbackAutomationPanel.tsx:39-43 | the average is 0 for no entries and otherwise lies between the lowest and highest bound of the ratings |
| FeedbackPanel.ProgressBarValue | src/components/feedback/FeedbackAutomationPanel.tsx:98 | the bar is 0 exactly when the average is 0 (falsy); it is the average as a share of 5, in percent; an average from 0 to 5 gives a value from 0 to 100 |
| FeedbackPanel.ProgressBarBounds | src/components/feedback/FeedbackAutomationPanel.tsx:98 | with ratings from 1 to 5 the bar is 0 for no entries, otherwise between 20 and 100, and 100 when every rating is 5 |
| FeedbackPanel.RatingNumber | src/components/feedback/FeedbackAutomationPanel.tsx:53 | `Number(rating)` of a select value is a number from 1 to 5 that prints back as that value |
| FeedbackPanel.Payload | src/components/feedback/FeedbackAutomationPanel.tsx:52-56 | the payload's rating is a number from 1 to 5 that prints back as the select value |
| FeedbackPanel.PayloadNormalised | src/components/feedback/FeedbackAutomationPanel.tsx:52-56 | the payload's rating prints back as the select value; its message is trimmed and no longer than the typed one; its contact is absent exactly when the typed contact is blank, and otherwise non-empty and trimmed |
| FeedbackPanel.PayloadIdempotent | src/components/feedback/FeedbackAutomationPanel.tsx:52-56 | normalising a normalised payload gives it back |
| FeedbackPanel.FeedbackForm.constructor | src/components/feedback/FeedbackAutomationPanel.tsx:34-37 | the form starts at rating "5", empty message and contact, not submitting |
| FeedbackPanel.FeedbackForm.SetRating | src/components/feedback/FeedbackAutomationPanel.tsx:117 | the select's value becomes the rating |
| FeedbackPanel.FeedbackForm.StartSubmit | src/components/feedback/FeedbackAutomationPanel.tsx:45-56 | a blank message is refused with no payload and nothing changes; otherwise `submitting` goes on and the payload is built |
| FeedbackPanel.FeedbackForm.FinishSubmit | src/components/feedback/FeedbackAutomationPanel.tsx:58-67 | `submitting` ends whatever the outcome; success resets to "5" with an empty message and contact; failure keeps the fields |
| FeedbackPanel.HandleSubmit | src/components/feedback/FeedbackAutomationPanel.tsx:45-68 | a blank message changes neither the form nor the hook; otherwise the built payload is sent, `submitting` ends off, and success resets the form and closes the prompt while failure keeps both |
| PullToRefreshHook.PullToRefresh.constructor | src/hooks/use-pull-to-refresh.ts:8-14 | the threshold defaults to 68; the pull starts disarmed with no start and no container |
| PullToRefreshHook.PullToRefresh.SetRef | src/hooks/use-pull-to-refresh.ts:48-65 | the container is attached or detached |
| PullToRefreshHook.PullToRefresh.OnTouchStart | src/hooks/use-pull-to-refresh.ts:16-26 | arms at the touch's height exactly when a container is attached and scrolled to the top; otherwise no change |
| PullToRefreshHook.PullToRefresh.OnTouchMove | src/hooks/use-pull-to-refresh.ts:28-41 | fires exactly when armed with a start and the downward distance strictly exceeds the threshold; firing disarms and clears the start; otherwise no change |
| PullToRefreshHook.PullToRefresh.Reset | src/hooks/use-pull-to-refresh.ts:43-46 | touch end disarms and clears the start |
| PullToRefreshHook.Gesture | src/hooks/use-pull-to-refresh.ts:16-46 | one gesture from rest fires at most one refresh, exactly when it was armed and some move went beyond the threshold, and it ends at rest; an armed pull always has a start |
| PwaInstallHook.PwaInstall.constructor | src/hooks/use-pwa-install.ts:16-17 | no stored prompt and not installed, so installation cannot be offered |
| PwaInstallHook.PwaInstall.CanInstall | src/hooks/use-pwa-install.ts:51 | installation can be offered exactly while a prompt is stored |
| PwaInstallHook.PwaInstall.HandleBeforeInstall | src/hooks/use-pwa-install.ts:20-23 | the event is stored, so installation can be offered |
| PwaInstallHook.PwaInstall.HandleInstalled | src/hooks/use-pwa-install.ts:25-28 | installed, and the stored prompt is dropped, so installation cannot be offered |
| PwaInstallHook.PwaInstall.StartPromptInstall | src/hooks/use-pwa-install.ts:39-45 | up to the `await`: the stored prompt is the one shown, and nothing changes, so installation can still be offered while the user decides; no prompt means the result is false at once |
| PwaInstallHook.PwaInstall.FinishPromptInstall | src/hooks/use-pwa-install.ts:45-47 | after the choice: whatever prompt is stored by then is dropped, and the result is true exactly when the user accepted |
| PwaInstallHook.PwaInstall.PromptInstallWithNewEvent | src/hooks/use-pwa-install.ts:20-46 | a `beforeinstallprompt` event that arrives while the user decides is dropped with the answered prompt |
| PwaInstallHook.PwaInstall.PromptInstall | src/hooks/use-pwa-install.ts:39-48 | the two halves with no event between them: without a stored prompt: false and no change; with one: that prompt is shown and dropped, and the result is true exactly when the user accepted |
| JsText.TrimStart | src/components/PackingChecklist.tsx:209 | the result is a suffix; what was dropped is white space; the result does not start with white space |
| JsText.TrimEnd | src/components/PackingChecklist.tsx:209 | the result is a prefix; what was dropped is white space; the result does not end with white space |
| JsText.Trim | src/components/feedback/FeedbackAutomationPanel.tsx:54 | the result is no longer than the input and has no white space at either end |
| JsText.TrimIdempotent | src/components/feedback/FeedbackAutomationPanel.tsx:54-55 | trimming twice equals trimming once |
| JsText.BlankIffAllWhitespace | src/components/PackingChecklist.tsx:209 | a task or message is refused as blank exactly when it is all white space |
| JsText.TrimIsInfix | src/components/feedback/FeedbackAutomationPanel.tsx:54 | the trimmed text is a contiguous piece of the input with only white space dropped at either end |
| JsText.IsBlank | src/components/PackingChecklist.tsx:209 | `!s.trim()`: the trimmed text is empty; `BlankIffAllWhitespace` states when |
| JsText.ToUpper | src/components/PackingChecklist.tsx:258 | same length; each lower-case ASCII letter becomes its capital, every other character is kept |
| JsText.ToLower | src/components/PackingChecklist.tsx:291 | same length; each capital ASCII letter becomes lower case, every other character is kept |
| JsText.ToLowerConcat | src/components/PackingChecklist.tsx:291 | lowering case works character by character, so it distributes over concatenation |
| JsText.ReplaceWhitespaceRuns | src/components/PackingChecklist.tsx:291 | `replace(/\s+/g, rep)`; its behaviour is stated by the lemmas below |
| JsText.ReplaceWhitespaceRunsJoin | src/components/PackingChecklist.tsx:291 | one maximal run of white space, of any length, becomes exactly one copy of the replacement, and the text on each side is replaced on its own |
| JsText.RunsFromAppend | src/components/PackingChecklist.tsx:291 | text that does not end in white space closes every run it holds, so what follows it is replaced independently |
| JsText.RunsFromSkipsRun | src/components/PackingChecklist.tsx:291 | the rest of a run whose start was already replaced adds nothing |
| JsText.RunsFromOpensRun | src/components/PackingChecklist.tsx:291 | a run followed by text that does not start with white space becomes one copy of the replacement |
| JsText.ReplaceWhitespaceRunsLeavesNone | src/components/PackingChecklist.tsx:291 | replacing every white-space run with a white-space-free string leaves no white space |
| JsText.ReplaceWhitespaceRunsKeepsPlain | src/components/PackingChecklist.tsx:291 | a string without white space is unchanged |
| JsText.NatToString | supabase/functions/generate-packing-list/index.ts:94 | a non-empty digit string with no leading zero unless the number is 0 |
| JsText.ParseNatToString | src/components/PackingChecklist.tsx:215 | reading back a printed number gives the number |
| JsText.NatToStringInjective | src/components/PackingChecklist.tsx:215 | different clock readings give different custom ids |
| IsoDate.ParseIsoDate | src/components/PackingChecklist.tsx:150 | a date is valid exactly when the string has the "YYYY-MM-DD" shape, its month is 1 to 12 and its day 1 to 31, whatever the month; the day number is then that of the year, month and day, so a day past the end of its month rolls over |
| IsoDate.NextDayInMonth | src/components/PackingChecklist.tsx:150 | consecutive days of a month have consecutive day numbers |
| IsoDate.EpochIsDayZero | supabase/functions/generate-packing-list/index.ts:24 | 1970-01-01 is day 0 |
| IsoDate.MonthRollsOver | src/components/PackingChecklist.tsx:150 | the day after a month's last day is the first day of the next month, and after 31 December comes 1 January |
| IsoDate.MarchYearLength | src/components/PackingChecklist.tsx:150 | the year from 1 March has 366 days exactly in a leap year |
| IsoDate.LeapDayRollsOver2023 | src/components/PackingChecklist.tsx:150 | 2023-02-29 is a valid date: day 19417, which is 2023-03-01 |
| IsoDate.FirstOfMarch2023 | src/components/PackingChecklist.tsx:150 | 2023-03-01 is day 19417 |
| IsoDate.NoThirtySecondDay | src/components/PackingChecklist.tsx:150 | 2024-01-32 is an invalid date |

## Left out

- Network calls and storage are inputs. These are `supabase.functions.invoke`, the feedback table's query and insert, the realtime channel's wiring, and the AI gateway's `fetch`. Each appears as the outcome it produces.
- `JSON.parse`, `req.json()`, `response.text()`, `response.json()` and reading `choices[0].message.content` are inputs that either succeed or throw. The text of the two prompts sent to the model is not modelled. The duration is computed but only feeds that text.
- The `details` field of the 500 response, which holds the error's stack, is not modelled. Nor is the log output.
- Toasts, haptics, the clipboard write and the Blob download are left out. Copy and download are modelled as returning the text and the file.
- Geolocation, the notification permission, the online and offline listeners and `setReminder` are left out. `setReminder` depends on the clock and on local-time `setDate`.
- Random ids: the tokens from `crypto.randomUUID` or `Math.random` are an input, laid out like the categories. The clock reading for custom ids is an input too. Nothing in the model claims ids are unique, because the code does not ensure it.
- Timers are left out: the 60-second feedback poll and the 5-minute re-prompt. So is any interleaving of a poll with realtime inserts.
- The service worker and the presentation-only components are left out.
- Rounding for display (`Math.round`, `toFixed(1)`) is left out. Progress and averages are reals, not floating-point numbers.
- ChecklistItems.GroupByCategory: uses a map. The source uses a plain object, which breaks on a category named like an `Object.prototype` member, such as "constructor". A map also has no key order. The object keeps its keys in first-seen order, except that integer-like names come first in ascending order, and `src/components/checklist/ChecklistResults.tsx:135` renders the groups in that order. The model does not state the order of the groups.
- ChecklistExport.ExportFileName: its own contract states only the prefix and the suffix. The middle is stated by `FileNameOfSingleWord`, `FileNameJoinsWords` and `JsText.ReplaceWhitespaceRunsJoin`, which cover one word and two words around one run. No lemma states a general destination of many words in one clause.
- JsText.ToLower: lowers ASCII capitals only. `toLowerCase` maps all of Unicode, so a destination with a non-ASCII capital such as "Île de France" keeps that capital in the model's file name.
- JsText.ToUpper: changes ASCII letters only. `toUpperCase` and `toLowerCase` map all of Unicode.
- IsoDate.ParseIsoDate: follows V8, which checks the day only against 1 to 31; other engines may reject a day past the end of its month. The model accepts only the "YYYY-MM-DD" form. `new Date` also accepts other forms, which the date inputs never produce. Dates carry no time of day: both ends of the code read such a string as midnight UTC, so the edge function's times are whole days in milliseconds.
- TabSwipe.SwipeGesture: one gesture object stands for the handlers of one render. A re-render between touch events would start a new one at 0.
- FeedbackAutomationHook.FeedbackAutomation.FinishRefresh: the query's `limit(10)` is not enforced. The list takes whatever rows the query returned.
- FeedbackAutomationHook.FeedbackAutomation.SubmitFeedback: the insert itself is an input. The payload is not stored.
- PwaInstallHook.PwaInstall.PromptInstall: reads the current stored prompt, not the one captured by the last render. The split into `StartPromptInstall` and `FinishPromptInstall` lets events come between the two halves; `PromptInstall` itself is the case where none do.
- PackingChecklistComponent.PackingChecklist.FinishGenerate: a successful reply is taken to be either a packing list or a falsy value. The endpoint can also answer 200 with any other JSON value. For a truthy value without a `categories` array, `setChecklistData` still stores it and the effect then throws at src/components/PackingChecklist.tsx:109 during rendering, which the model does not represent. A `categories` array whose entries lack `name` or `items` is not represented either.

## Findings

| source | as written | input that shows it | evidently intended | confidence | as-written member | corrected member |
|---|---|---|---|---|---|---|
| src/components/PackingChecklist.tsx:346-365 | `endX` starts at 0 and only `onTouchMove` sets it, so a touch without a move measures its travel as `0 - startX` | a tap with no move at x = 100 on the "plan" tab: travel -100 counts as a leftward swipe and "pack" opens | a touch without a move has no travel, so `endX` starts where the touch does | not executed | TabSwipe.TapAsWritten | TabSwipe.GestureAnchored |
