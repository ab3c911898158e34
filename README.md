# RetroQuest board and cards, modelled in Dafny

RetroQuest is a web app for running team retrospectives. A board has three
thought columns (happy, confused, unhappy) and an action-item column. This
project models the user-visible behaviour of the board's core pieces:

- **Thought card** (`RetroItemCard`). The card has a mode: default, editing, or
  confirming a delete. The model covers which controls react, given the
  thought's `discussed` flag and the board's `readOnly` flag, and which
  thought-service calls each click, keystroke or overlay answer issues. The card
  is a class; its log of calls is a field its methods append to.
- **Upvote button** (`UpvoteButton`) and **action-item card** (`ActionItemCard`).
  These are pure renderings of flags from props. The action-item card also
  forwards column-item events to its optional callbacks.
- **Expanded view** (`RetroItemModal`). Its one piece of state,
  `creatingActionItem`, decides whether the "Add Action Item" button or the add
  form is shown.
- **Column header** (`ColumnHeader`). It covers the sort toggle and what it
  reports, and the title, which Enter or blur commits, Escape abandons, and a
  character counter accompanies while it is edited.
- **Board** (`Board`, `ColumnOrder`, `ActionInput`, `CsvExport`):
  - thoughts and action items are created, changed by the calls their cards
    emit, and deleted;
  - each column is shown unresolved cards first, then resolved cards, each group
    in arrival order;
  - typed action text `task @assignee` is split on '@' as JavaScript's `split`
    does, and the task part is trimmed;
  - the archive dialog: "Nope" sends nothing; "Yes!" records the board and
    clears the thoughts, and moves completed items into the action-item archive;
  - the CSV download's header line and its file name.
- **Password field** (`InputPassword`). It covers the strength rule, the
  `validateInput` switch, and the `isValidPassword` state updated on change and
  on focus.

The test scenarios and the two end-to-end journeys are replayed as methods.
Each method drives the classes through the steps of one scenario and states the
scenario's expectations as postconditions.

## Model

| member | source | states |
|---|---|---|
| RetroItemCard.Enabled | ui/src/App/Team/Retro/ThoughtColumn/RetroItem/RetroItem.spec.tsx:153-293 | While editing only the edit button reacts. With the delete overlay up nothing reacts. An undiscussed card on a live board reacts to everything. A discussed card reacts only to delete and the checkbox. A read-only card only opens its expanded view, and only for an undiscussed thought. |
| RetroItemCard.RetroItem.ShownText | ui/src/App/Team/Retro/ThoughtColumn/RetroItem/RetroItem.spec.tsx:129-151 | Outside editing the card shows the thought's own message. |
| RetroItemCard.RetroItem.TextReadOnly | ui/src/App/Team/Retro/ThoughtColumn/RetroItem/RetroItem.spec.tsx:241-244 | The text box is writable only on a live board and an undiscussed thought. |
| RetroItemCard.RetroItem.DeleteOverlayShown | ui/src/App/Team/Retro/ThoughtColumn/RetroItem/RetroItem.spec.tsx:283-284 | The delete overlay never shows on a read-only card. |
| RetroItemCard.RetroItem.UpvoteView | ui/src/App/Team/Retro/ThoughtColumn/RetroItem/RetroItem.spec.tsx:236-239 | The card's upvote button is disabled exactly when an upvote click would issue no call. It carries the read-only class of the board and the thought's hearts. |
| RetroItemCard.RetroItem.constructor | ui/src/App/Team/Retro/ThoughtColumn/RetroItem/RetroItem.spec.tsx:101-112 | A new card starts in default mode with no calls and its expanded view closed. |
| RetroItemCard.RetroItem.ClickRetroItem | ui/src/App/Team/Retro/ThoughtColumn/RetroItem/RetroItem.spec.tsx:114-118 | Clicking the text opens the expanded view exactly when the select control is enabled. The form state and the requests are unchanged. |
| RetroItemCard.RetroItem.ClickUpvote | ui/src/App/Team/Retro/ThoughtColumn/RetroItem/RetroItem.spec.tsx:120-127 | An enabled upvote appends exactly one upvote call with the team and thought id. Otherwise nothing is sent. |
| RetroItemCard.RetroItem.ClickEdit | ui/src/App/Team/Retro/ThoughtColumn/RetroItem/RetroItem.spec.tsx:129-151 | Clicking edit while editing abandons the edit. From default mode, when enabled, it starts an edit holding the message. Otherwise the card is unchanged. No call is sent. |
| RetroItemCard.RetroItem.EditText | ui/src/App/Team/Retro/ThoughtColumn/RetroItem/RetroItem.spec.tsx:297-301 | Typing replaces the draft only while editing. |
| RetroItemCard.RetroItem.PressEnter | ui/src/App/Team/Retro/ThoughtColumn/RetroItem/RetroItem.spec.tsx:167-176 | Enter while editing sends one message update with the typed text verbatim and ends the edit. Otherwise nothing happens. |
| RetroItemCard.RetroItem.PressEscape | ui/src/App/Team/Retro/ThoughtColumn/RetroItem/RetroItem.spec.tsx:178-184 | Escape returns the card to default mode with the original message, and sends no call. |
| RetroItemCard.RetroItem.ClickDelete | ui/src/App/Team/Retro/ThoughtColumn/RetroItem/RetroItem.spec.tsx:186-190 | An enabled delete opens the overlay. Otherwise the mode is unchanged. No call is sent. |
| RetroItemCard.RetroItem.ClickNo | ui/src/App/Team/Retro/ThoughtColumn/RetroItem/RetroItem.spec.tsx:186-194 | "No" closes the overlay without a delete. |
| RetroItemCard.RetroItem.ClickYes | ui/src/App/Team/Retro/ThoughtColumn/RetroItem/RetroItem.spec.tsx:196-203 | "Yes" on the overlay sends exactly one delete call with the team and thought id. |
| RetroItemCard.RetroItem.ClickCheckbox | ui/src/App/Team/Retro/ThoughtColumn/RetroItem/RetroItem.spec.tsx:205-217 | An enabled checkbox sends one discussion update asking for the opposite of the current flag. |
| RetroItemCard.UpvoteFreshCard | ui/src/App/Team/Retro/ThoughtColumn/RetroItem/RetroItem.spec.tsx:120-127 | On an undiscussed card, one upvote click yields exactly one upvote call. |
| RetroItemCard.StartAndCancelEditing | ui/src/App/Team/Retro/ThoughtColumn/RetroItem/RetroItem.spec.tsx:129-151 | The text shown at each of the seven steps: original, original, typed, original, original, typed, original. No call is sent. |
| RetroItemCard.EditingDisablesOtherButtons | ui/src/App/Team/Retro/ThoughtColumn/RetroItem/RetroItem.spec.tsx:153-165 | While editing, the text is writable. Upvote, delete and the checkbox do nothing, and no overlay opens. |
| RetroItemCard.EditThought | ui/src/App/Team/Retro/ThoughtColumn/RetroItem/RetroItem.spec.tsx:167-176 | Edit, type, Enter: exactly one message update with the typed text. |
| RetroItemCard.CancelDeletion | ui/src/App/Team/Retro/ThoughtColumn/RetroItem/RetroItem.spec.tsx:178-194 | The overlay opens, and either Escape or "No" closes it with no delete. |
| RetroItemCard.ConfirmDeletion | ui/src/App/Team/Retro/ThoughtColumn/RetroItem/RetroItem.spec.tsx:196-203 | Delete, then "Yes": exactly one delete call, whether or not the thought is discussed. |
| RetroItemCard.ToggleDiscussed | ui/src/App/Team/Retro/ThoughtColumn/RetroItem/RetroItem.spec.tsx:205-264 | The checkbox asks for true on an undiscussed thought and false on a discussed one. |
| RetroItemCard.DiscussedCard | ui/src/App/Team/Retro/ThoughtColumn/RetroItem/RetroItem.spec.tsx:220-255 | On a discussed thought, upvote sends nothing, edit leaves the text read-only and the expanded view stays closed. Delete still opens its overlay. |
| RetroItemCard.ReadOnlyCard | ui/src/App/Team/Retro/ThoughtColumn/RetroItem/RetroItem.spec.tsx:267-294 | On a read-only card, upvote, edit, delete and the checkbox do nothing, but the expanded view opens. |
| UpvoteButton.Render | ui/src/react/components/retro-item/upvote-button/UpvoteButton.tsx:30-43 | Disabled iff `disabled` or `readOnly` is true, both defaulting to false. The readonly class iff `readOnly`. The count is the votes. A read-only button is always disabled. |
| ActionItemCard.Render | ui/src/react/components/action-item/ActionItem.tsx:42-78 | The completed class and the checkbox follow `completed`. The date is disabled iff (completed, editing or deleting) and not read-only. The assignee is read-only iff the board is read-only or the item is completed. |
| ActionItemCard.Forward | ui/src/react/components/action-item/ActionItem.tsx:43-72 | Each item event calls at most one parent callback. It calls none when that callback was not given. Otherwise it calls exactly one, carrying the card's action and the event's text unchanged. |
| RetroItemModal.AddButtonShown | ui/src/react/components/retro-item-modal/RetroItemModal.tsx:76-86 | The button and the form are never shown together. On an editable modal one of them is shown. A read-only modal never shows the button. |
| RetroItemModal.FormShown | ui/src/react/components/retro-item-modal/RetroItemModal.tsx:86 | The add form is rendered exactly while `creatingActionItem` is on. Its meaning is stated by the AddButtonShown and NextCreating contracts: never together with the button, and reached only by the button. |
| RetroItemModal.NextCreating | ui/src/react/components/retro-item-modal/RetroItemModal.tsx:52-86 | Only a click on a visible "Add Action Item" button turns the form on. Hide, cancel and confirm all turn it off. Showing the modal keeps it as it was. |
| RetroItemModal.ReadOnlyNeverCreates | ui/src/react/components/retro-item-modal/RetroItemModal.tsx:76-86 | No sequence of events ever brings up the add form on a read-only modal. |
| RetroItemModal.ItemModal.constructor | ui/src/react/components/retro-item-modal/RetroItemModal.tsx:42 | The form starts off, and no action has been requested. |
| RetroItemModal.ItemModal.Open | ui/src/react/components/retro-item-modal/RetroItemModal.tsx:61-66 | Showing the modal keeps the form state (`creatingActionItem` is unchanged) and the requests. |
| RetroItemModal.ItemModal.Close | ui/src/react/components/retro-item-modal/RetroItemModal.tsx:64 | Hiding resets the form. |
| RetroItemModal.ItemModal.ClickAddActionItem | ui/src/react/components/retro-item-modal/RetroItemModal.tsx:76-81 | The form turns on iff it was on, or the modal is shown and editable. |
| RetroItemModal.ItemModal.CancelActionItem | ui/src/react/components/retro-item-modal/RetroItemModal.tsx:52-54 | Cancel closes the form with no request. |
| RetroItemModal.ItemModal.ConfirmActionItem | ui/src/react/components/retro-item-modal/RetroItemModal.tsx:56-59 | Confirm closes the form and appends one `onAction(task, assignee)` with the same arguments. |
| RetroItemModal.AddActionFromModal | ui/src/react/components/retro-item-modal/RetroItemModal.tsx:56-86 | Open, add, confirm: the form was shown, the button is back, and there is one request with the typed arguments. |
| ColumnHeader.SortEmissions | ui/src/react/components/column-header/ColumnHeader.spec.tsx:32-40 | The n-th sort click reports true for even n and false for odd n, counting from zero. |
| ColumnHeader.Header.constructor | ui/src/react/components/column-header/ColumnHeader.spec.tsx:32-40 | The header starts unsorted and not editing, with no reports. |
| ColumnHeader.Header.EditButtonShown | ui/src/react/components/column-header/ColumnHeader.spec.tsx:42-52 | The edit button is rendered only on an editable header. Its meaning is stated by ColumnHeader.ReadOnlyHeader and by Header.ClickEdit, which opens nothing on a read-only header. |
| ColumnHeader.Header.Counter | ui/src/react/components/column-header/ColumnHeader.spec.tsx:66-88 | The counter is shown iff the title is being edited, and then shows the characters left. |
| ColumnHeader.Header.ClickSort | ui/src/react/components/column-header/ColumnHeader.spec.tsx:32-40 | Each click flips the sort flag and reports the new value once. The title state is unchanged. |
| ColumnHeader.Header.ClickEdit | ui/src/react/components/column-header/ColumnHeader.spec.tsx:42-88 | On an editable header the input opens holding the title. On a read-only header nothing opens. |
| ColumnHeader.Header.EditInput | ui/src/react/components/column-header/ColumnHeader.spec.tsx:99-100 | Typing sets the draft only while the input is open. |
| ColumnHeader.Header.Commit | ui/src/react/components/column-header/ColumnHeader.spec.tsx:90-138 | Enter or blur makes the draft the title and reports it once. |
| ColumnHeader.Header.PressEscape | ui/src/react/components/column-header/ColumnHeader.spec.tsx:140-155 | Escape closes the input, keeps the title and reports nothing. |
| ColumnHeader.SortTwice | ui/src/react/components/column-header/ColumnHeader.spec.tsx:32-40 | Two sort clicks report true, then false. |
| ColumnHeader.ReadOnlyHeader | ui/src/react/components/column-header/ColumnHeader.spec.tsx:42-52 | A read-only header shows no edit button, and no input opens. |
| ColumnHeader.RenameColumn | ui/src/react/components/column-header/ColumnHeader.spec.tsx:77-138 | Editing "Change This" shows 5 left. Committing "Something Else" closes the input, shows the new title and reports it once. |
| ColumnHeader.AbandonRename | ui/src/react/components/column-header/ColumnHeader.spec.tsx:140-155 | Escape after typing keeps "No Change" and reports nothing. |
| InputPassword.Matches | ui/src/Common/InputPassword/InputPassword.tsx:38-39 | A single-class regular-expression search succeeds iff some character is in the class. |
| InputPassword.Utf16Length | ui/src/Common/InputPassword/InputPassword.tsx:44 | The length lies between the character count and twice it, and equals the character count for text in the Basic Multilingual Plane. |
| InputPassword.Utf16LengthConcat | ui/src/Common/InputPassword/InputPassword.tsx:44 | The length of a concatenation is the sum of the lengths. |
| InputPassword.Utf16LengthOfChar | ui/src/Common/InputPassword/InputPassword.tsx:44 | One character counts 1 code unit up to U+FFFF and 2 (a surrogate pair) beyond. With the sum rule, this fixes `length` for every text. |
| InputPassword.ValidatePasswordString | ui/src/Common/InputPassword/InputPassword.tsx:41-48 | A password is valid iff it has at least 8 code units, an A-Z letter and a 0-9 digit. The empty text, a short one, one without an upper-case letter and one without a digit are each rejected. |
| InputPassword.CheckValidityOfPassword | ui/src/Common/InputPassword/InputPassword.tsx:61-63 | With `validateInput` false every text is accepted. Otherwise (the default is true) the answer is exactly the strength rule. |
| InputPassword.PasswordField.constructor | ui/src/Common/InputPassword/InputPassword.tsx:70 | A new field starts valid, with nothing reported. |
| InputPassword.PasswordField.ShownInvalid | ui/src/Common/InputPassword/InputPassword.tsx:88 | The input is shown invalid when the `invalid` prop is set or the last check failed. Its value after each handler is stated by PasswordField.OnChange and PasswordField.OnFocus. |
| InputPassword.PasswordField.OnChange | ui/src/Common/InputPassword/InputPassword.tsx:79-88 | A change stores the new text's check and reports the text with that verdict, exactly once. Afterwards the input is shown invalid iff the `invalid` prop is set or the new text fails the check. |
| InputPassword.PasswordField.OnFocus | ui/src/Common/InputPassword/InputPassword.tsx:85-88 | Focus re-checks the current `password` prop and reports nothing. Afterwards the input is shown invalid iff the `invalid` prop is set or that prop fails the check. |
| InputPassword.TypeWeakPassword | ui/src/Common/InputPassword/InputPassword.tsx:70-88 | A fresh field is shown valid. Typing a text shorter than 8 makes it shown invalid and reports that text with `false`. |
| ColumnOrder.DisplayOrder | ui/cypress/e2e/retro-facilitator-journey.spec.ts:50-56 | The column as displayed keeps its number of cards. DisplayOrderIsStablePartition states its meaning: a permutation with the unresolved cards above the resolved ones, each group in arrival order. |
| ColumnOrder.DisplayOrderIsStablePartition | ui/cypress/e2e/retro-facilitator-journey.spec.ts:50-56 | A displayed column is a permutation of its cards. Every unresolved card is above every resolved one. Each group keeps arrival order. |
| ColumnOrder.AllActiveKeepsOrder | ui/cypress/e2e/retro-facilitator-journey.spec.ts:41-43 | A column with no resolved card is shown in arrival order. |
| ColumnOrder.ResolvedCardMovesToBottom | ui/cypress/e2e/retro-facilitator-journey.spec.ts:47-51 | Resolving one card of an all-active column moves exactly that card to the bottom and keeps the others in order. |
| ColumnOrder.LastResolvedIff | ui/cypress/e2e/retro-facilitator-journey.spec.ts:50-56 | The bottom card is resolved iff some card of the column is. |
| ColumnOrder.ResolvingFirstOfThree | ui/cypress/e2e/retro-facilitator-journey.spec.ts:47-51 | In a column of three arrivals, resolving the first shows it below the other two. |
| ActionInput.IndexOf | ui/cypress/e2e/retro-facilitator-journey.spec.ts:139 | The result is the first position of the character, and None iff it does not occur. |
| ActionInput.Split | ui/cypress/e2e/retro-facilitator-journey.spec.ts:139 | `split('@')` yields at least one part. No part holds '@'. Joining the parts with '@' gives back the text. |
| ActionInput.SplitJoin | ui/cypress/e2e/retro-facilitator-journey.spec.ts:139 | Splitting the '@'-join of '@'-free parts gives back exactly those parts. |
| ActionInput.SplitIsWhole | ui/cypress/e2e/retro-facilitator-journey.spec.ts:139-141 | A text yields a single part iff it holds no '@', so the assignee is absent iff there is no '@'. |
| ActionInput.SplitParts | ui/cypress/e2e/retro-facilitator-journey.spec.ts:139-141 | Without a separator, `split` gives the text as its one part. Otherwise the first part is the text before the first separator, and the second is the text after it up to the next separator. |
| ActionInput.TrimStart | ui/cypress/e2e/retro-facilitator-journey.spec.ts:140 | The result is a suffix of the text that does not start with whitespace, and every dropped character is whitespace. |
| ActionInput.TrimEnd | ui/cypress/e2e/retro-facilitator-journey.spec.ts:140 | The result is a prefix of the text that does not end with whitespace, and every dropped character is whitespace. |
| ActionInput.Trim | ui/cypress/e2e/retro-facilitator-journey.spec.ts:140 | `trim()` gives a text no longer than its input with no whitespace at either end. TrimFacts adds that a trimmed text is left alone. |
| ActionInput.TrimFacts | ui/cypress/e2e/retro-facilitator-journey.spec.ts:140 | `trim()` leaves no whitespace at either end and leaves a trimmed text alone. |
| ActionInput.ParseActionInput | ui/cypress/e2e/retro-facilitator-journey.spec.ts:139-141 | Without an '@', the whole text, trimmed, is the task, and there is no assignee. Otherwise the task is the text before the first '@', trimmed. The assignee is the text after that '@' up to the next '@' or the end, untrimmed. |
| ActionInput.ParseShape | ui/cypress/e2e/retro-facilitator-journey.spec.ts:139-144 | The parsed task is trimmed and holds no '@'. There is an assignee iff the text holds '@', and it holds no '@'. |
| ActionInput.ParseRoundTrip | ui/cypress/e2e/retro-facilitator-journey.spec.ts:133-146 | Typing `task @assignee` gives back that task and that assignee, for a trimmed task and '@'-free parts. |
| ActionInput.ParseWithoutAssignee | ui/cypress/e2e/retro-facilitator-journey.spec.ts:139-141 | Text without '@' has no assignee, and a trimmed one is the task unchanged. |
| Board.ThoughtsIn | ui/cypress/e2e/retro-facilitator-journey.spec.ts:148 | A column holds exactly the board's thoughts of its topic. |
| Board.ThoughtsInAppend | ui/cypress/e2e/retro-facilitator-journey.spec.ts:41-42 | A new thought lands at the end of its own column and nowhere else. |
| Board.ThoughtColumn | ui/cypress/e2e/retro-facilitator-journey.spec.ts:107 | A displayed thought column has one card per thought of its topic. |
| Board.ActionColumn | ui/cypress/e2e/retro-facilitator-journey.spec.ts:137 | The displayed action column has one card per live action item. |
| Board.LiveActions | ui/cypress/e2e/retro-facilitator-journey.spec.ts:116-119 | The live board holds only action items that are not archived. |
| Board.ArchivedActions | ui/cypress/e2e/archivist-journey.spec.ts:49-52 | The action-item archive holds only archived items. |
| Board.ApplyThoughtCall | ui/cypress/e2e/retro-facilitator-journey.spec.ts:45-56 | A call for another team changes nothing. A delete removes the named thought. Every other call keeps each thought's place and column, and changes only the named field of the named thought. |
| Board.ApplyActionEvent | ui/cypress/e2e/retro-facilitator-journey.spec.ts:150-187 | A delete removes the named item. An edit changes only the named field of the named item. A completion flips the flag the card showed. Ids, dates and archived flags are kept. |
| Board.DeleteRemovesOneLive | ui/cypress/e2e/retro-facilitator-journey.spec.ts:183-187 | Deleting a live item takes exactly one card off the action column. |
| Board.CreateAddsOneLive | ui/cypress/e2e/retro-facilitator-journey.spec.ts:133-137 | A new live item is appended to the live board, one more card. |
| Board.DiscussedMovesOnBoard | ui/cypress/e2e/retro-facilitator-journey.spec.ts:39-56 | Ticking or clearing a thought's box keeps its column's size. A tick puts a resolved card at the bottom. Clearing the only ticked box leaves an unresolved bottom card. |
| Board.ColumnBottom | ui/cypress/e2e/retro-facilitator-journey.spec.ts:50-56 | A thought's column is not empty. Its bottom is resolved when that thought is discussed, and unresolved when no thought is. |
| Board.CompletedMovesOnBoard | ui/cypress/e2e/retro-facilitator-journey.spec.ts:166-175 | Completing a live item keeps the action column's size and puts a resolved card at the bottom. |
| Board.NoneCompletedAtBottom | ui/cypress/e2e/retro-facilitator-journey.spec.ts:166-167 | With no completed item, the bottom action card is unresolved. |
| Board.SameArchivedFlags | ui/cypress/e2e/retro-facilitator-journey.spec.ts:175-180 | Events that keep every archived flag keep the action column's size. |
| Board.ArchiveCompleted | ui/cypress/e2e/retro-facilitator-journey.spec.ts:112-119 | Ending a retro archives exactly the completed items and leaves the others unchanged. |
| Board.ArchiveKeepsActive | ui/cypress/e2e/retro-facilitator-journey.spec.ts:116-119 | After archiving, the live board holds exactly the previously live active items, in order. |
| Board.ArchiveHoldsCompleted | ui/cypress/e2e/archivist-journey.spec.ts:36-53 | Every completed or already archived item is in the action-item archive afterwards. |
| Board.RetroBoard.constructor | ui/cypress/e2e/retro-facilitator-journey.spec.ts:26-29 | A new team's board is empty, with no archive and no requests. |
| Board.RetroBoard.CreateThought | ui/cypress/e2e/archivist-journey.spec.ts:80-92 | The posted thought is stored as given, under a fresh id, at the end. |
| Board.RetroBoard.EnterThought | ui/cypress/e2e/retro-facilitator-journey.spec.ts:41-42 | A typed thought has no hearts and is not discussed. It is appended to its column, and the other columns are unchanged. |
| Board.RetroBoard.CreateActionItem | ui/cypress/e2e/archivist-journey.spec.ts:94-106 | The posted item is stored as given, under a fresh id, at the end. |
| Board.RetroBoard.EnterActionItem | ui/cypress/e2e/retro-facilitator-journey.spec.ts:133-145 | Typed `task @assignee` becomes an active item with the parsed task and assignee, appended to the live board. |
| Board.RetroBoard.ReceiveThoughtCall | ui/cypress/e2e/retro-facilitator-journey.spec.ts:45-56 | The board becomes the result of applying the card's call. Ids stay unique. |
| Board.RetroBoard.ReceiveActionEvent | ui/cypress/e2e/retro-facilitator-journey.spec.ts:150-187 | The board applies the event. A delete of a live item removes one card. Any other event keeps the column's size. |
| Board.RetroBoard.ArchiveRetro | ui/cypress/e2e/retro-facilitator-journey.spec.ts:98-119 | "Nope" sends no request and changes nothing. "Yes!" sends one request. On success it records the thoughts and the live items as they were, removes all thoughts, and archives the completed items. |
| Board.RetroBoard.Csv | ui/cypress/e2e/archivist-journey.spec.ts:56-68 | The download of an empty board is the header alone. |
| Board.TwoFreshThoughts | ui/cypress/e2e/retro-facilitator-journey.spec.ts:41-43 | Two undiscussed thoughts of one topic are shown in the order typed. |
| Board.DiscussedJourneyColumns | ui/cypress/e2e/retro-facilitator-journey.spec.ts:39-56 | After the tick, the board holds the first thought discussed, then the second. Over the three steps the happy column has 2 cards, and its bottom card is unresolved, then resolved, then unresolved. |
| Board.ClickDiscussedOnBoard | ui/cypress/e2e/retro-facilitator-journey.spec.ts:45-53 | Clicking a live card's discussed checkbox makes the board flip that thought's flag through the card's own call. The action items and the archive are unchanged. |
| Board.MarkThoughtAsDiscussed | ui/cypress/e2e/retro-facilitator-journey.spec.ts:39-56 | The journey is driven through the board class, and the thought card's checkbox issues each call. It gives sizes [2, 2, 2] and resolved bottoms [false, true, false]. |
| Board.ActionJourneyColumns | ui/cypress/e2e/retro-facilitator-journey.spec.ts:61-84 | The item is edited, then completed (resolved bottom), then reopened (unresolved bottom). After the other is deleted one card is left. |
| Board.TypeActionItem | ui/cypress/e2e/retro-facilitator-journey.spec.ts:134-141 | Typing `task @assignee` through the board adds one card to the action column. The card holds the trimmed task and the assignee, active and not archived. |
| Board.CreateActionItems | ui/cypress/e2e/retro-facilitator-journey.spec.ts:133-146 | Each item is typed as `task @assignee` into the board. The counts are 1 then 2, and each card holds exactly the task and the assignee that were typed. |
| Board.EditCompleteDeleteActionItems | ui/cypress/e2e/retro-facilitator-journey.spec.ts:150-187 | The task becomes `task1 + " " + appended`, and the assignee has the appended text. The bottom is resolved after completing and unresolved after reopening. One card is left after the delete. |
| Board.ArchiveJourneyColumns | ui/cypress/e2e/retro-facilitator-journey.spec.ts:86-119 | One unhappy thought and two items, one of them completed. Before the archive the columns have 1 and 2 cards. After it only the active item is live. |
| Board.ArchiveJourneyBoard | ui/cypress/e2e/retro-facilitator-journey.spec.ts:90-96 | The archive journey board: one unhappy thought, "Active Action Item", and a second item that is completed. |
| Board.ArchiveRetroJourney | ui/cypress/e2e/retro-facilitator-journey.spec.ts:86-119 | "Nope" leaves 1 thought and 2 items with no request. "Yes!" sends one request and leaves 0 thoughts and only "Active Action Item". |
| Board.ArchiveResolvedAndActive | ui/cypress/e2e/retro-facilitator-journey.spec.ts:110-119 | With T1 open, T2 discussed, A1 active and A2 completed: the archive records T1, T2, A1 and A2 as they were. No thought is left, and only A1 is live. |
| Board.ArchivistJourneyBoard | ui/cypress/e2e/archivist-journey.spec.ts:36-53 | An already archived item stays in the action-item archive, and the emptied board has no card. |
| Board.ArchivistJourney | ui/cypress/e2e/archivist-journey.spec.ts:31-68 | The archived thoughts read "message1" to "message4". "action to take" is in the action-item archive. The CSV is exactly the header. The file is named `<teamId>-board.csv`. |
| CsvExport.HeaderShape | ui/cypress/e2e/archivist-journey.spec.ts:65-67 | The header is 44 characters, so more than 40, and ends in CR LF. |
| CsvExport.CsvFileName | ui/cypress/e2e/archivist-journey.spec.ts:63 | The file name is the team id followed by "-board.csv". |
| CsvExport.BoardCsv | ui/cypress/e2e/archivist-journey.spec.ts:56-68 | The download starts with the header. An empty board yields exactly the header. When every card writes a non-empty line, only an empty board does. |

## Left out

- Vote sorting of a column (the header's sort flag is modelled, but not the reordering by hearts it causes). The column order modelled is the resolved-to-bottom rule only.
- Rejection of an empty edit text is not modelled. No scenario of the card shows it.
- RetroItemCard.RetroItem.UpvoteView: `RetroItem.tsx` is not part of this model. The wiring of the upvote button (disabled while busy or discussed) is inferred from the card's tests.
- ColumnHeader.CharactersLeft: the title limit of 16 is inferred from the test that expects 5 left for "Change This". `ColumnHeader.tsx` is not part of this model.
- RetroItemModal.ItemModal.ConfirmActionItem: the `onAction` prop is optional (RetroItemModal.tsx:36), yet confirming calls it unguarded (RetroItemModal.tsx:58). Without it, confirm would throw a TypeError. The model assumes `onAction` is given and always records the request.
- InputPassword.PasswordField: `password` is a `const` prop, so re-rendering the field with a new `password` value is not modelled. A Dafny `string` cannot hold a lone UTF-16 surrogate, which a JavaScript string can, so InputPassword.Utf16Length covers well-formed text only.
- CsvExport.BoardCsv: the data rows' format is a parameter. Only the header's bytes and the file name are fixed.
- Board.RetroBoard.ArchiveRetro: retries, concurrent requests and the HTTP status codes are reduced to the `persisted` flag. The request itself is counted, not sent.
- The journeys are parameterised over team id and dates. The facilitator journey's item texts are parameters, subject to the typed-text conditions of ActionInput.ParseRoundTrip. A fully literal replay of the typed strings is not included.
- Animations, colours, focus handling, accessibility checks, the show-password toggle, routing and page reloads are not modelled. Neither are the HTTP transport, the persistence layer and the websocket updates between clients.
