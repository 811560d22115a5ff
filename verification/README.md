# Verified model of the assessment dashboard's component logic

This project is a Dafny model of the behaviour behind a small React dashboard. The dashboard
has these parts:

- a generic, sortable and paginated data grid (`DataTable`);
- a user-management page, with a five-per-page user list, an add-user form and its validator,
  delete, and Previous/Next/page-number navigation;
- a shopping cart, with add, update-quantity, remove, discount codes, the checkout reset and
  the item-count badge;
- the form-input kit: a searchable select box and a drag-and-drop file upload;
- a tabs kit, with a controlled or uncontrolled root, triggers and panels;
- an optimised user directory, with a department lookup table and a list that is filtered,
  marked active or inactive, and ordered by most recent login.

Each source file is one Dafny module. `Base` holds `Option`/`Result`, `Math.ceil` for a positive
divisor, and `Array.prototype.filter` with its lemmas. `Text` holds `trim`, white space, case
mapping and `includes`. State that a component keeps between events (`useState`) is a class.
Its event handlers are methods with `modifies` frames, and what the component derives at render
time is a function of that state. Loops in the source are loops here, each proved against a
specification function: the pager's page window, `validateFiles` and the department table's
`forEach`. Callbacks to the parent (`onSort`, `onChange`, `onValueChange`, `onUserSelect`) are
modelled as values returned by the handler that would make the call.

Three points of the code that the model keeps as written:

- The grid's sort indicator is the pair `(key or null, direction)`. `DataTable.ToggleCycle` and
  `DataTable.CrossColumnReset` show how it moves: unsorted, then ascending, descending,
  ascending again on the same column, and ascending whenever another column is chosen.
- With pagination and a total of 0, the grid's `totalPages` is 0. Only a missing pagination
  descriptor gives 1.
- The `handleSort` guard looks only at the *first* column with the key (`find`). With duplicate
  keys, that first column alone decides.

## Model

| member | source | states |
|---|---|---|
| Base.CeilDiv | components/ui/data-table.tsx:67 | `Math.ceil(a / b)` for a positive divisor: the unique q with (q-1)·b < a ≤ q·b, negative dividends included |
| Base.Filter | app/page.tsx:229 | `filter` keeps exactly the elements satisfying the predicate, drawn from the input |
| Text.TrimEmptyIffBlank | app/page.tsx:186 | `trim()` gives the empty string exactly when the value is all white space |
| Text.Trim | app/page.tsx:186-194 | `trim()` returns a piece of the value that neither starts nor ends with white space and is no longer than it |
| Text.TrimRemovesOnlyEnds | app/page.tsx:186-194 | `trim()` keeps one contiguous piece of the value; everything it drops before and after that piece is white space |
| Text.ToLower | components/ui/form-inputs.tsx:128 | `toLowerCase()` keeps the length and maps each character to its lower-case form (ASCII letters) |
| Text.ToUpper | components/task2-cart-management.tsx:141 | `toUpperCase()` keeps the length and maps each character to its upper-case form (ASCII letters) |
| Text.Contains | components/ui/form-inputs.tsx:128 | `includes` is a contiguous occurrence; the found text is never longer, and at equal length it is the whole string |
| DataTable.FindColumn | components/ui/data-table.tsx:51 | `columns.find` by key: absent iff no column has the key, else the first index that has it |
| DataTable.Activate | components/ui/data-table.tsx:50-56 | rejected iff the first column with the key is missing or not sortable; otherwise the key becomes current, descending iff it was already current and ascending |
| DataTable.SortIndicator.constructor | components/ui/data-table.tsx:48 | the indicator starts with no key and ascending |
| DataTable.SortIndicator.HandleSort | components/ui/data-table.tsx:50-56 | a rejected key changes nothing and emits nothing; otherwise the state becomes `Activate`'s result and `onSort` receives the key and the new direction |
| DataTable.SortIndicator.HeaderInputAt | components/ui/data-table.tsx:114-122 | clicks and Enter/Space on a sortable header reach `handleSort`; any other input, or any input on a non-sortable header, changes nothing |
| DataTable.NonSortableIsNoOp | components/ui/data-table.tsx:51 | activating a key whose columns are all non-sortable (or that has none) is a no-op |
| DataTable.NonSortableHeaderIgnored | components/ui/data-table.tsx:114-122 | a non-sortable header never triggers sorting, whatever the input |
| DataTable.ToggleCycle | components/ui/data-table.tsx:53-54 | from the initial state, repeated activation of one sortable key gives asc, desc, asc |
| DataTable.CrossColumnReset | components/ui/data-table.tsx:53 | activating a key other than the current one always starts ascending |
| DataTable.AriaSortOf | components/ui/data-table.tsx:123-131 | `aria-sort` is ascending/descending for the current key, "none" for other sortable columns, absent for non-sortable ones |
| DataTable.SortIcon | components/ui/data-table.tsx:58-65 | an arrow only for the current key, pointing the current direction |
| DataTable.HeaderIconOf | components/ui/data-table.tsx:135-143 | no icon iff non-sortable; a faded up-arrow for sortable columns that are not current; up/down for the current one by direction |
| DataTable.HeaderAfterActivate | components/ui/data-table.tsx:123-143 | after an activation, the activated header shows its direction and every other sortable header shows "none" |
| DataTable.TotalPages | components/ui/data-table.tsx:67 | the ceiling of total / pageSize, or 1 without pagination |
| DataTable.StartItem | components/ui/data-table.tsx:68 | the first item number is (page-1)·pageSize + 1, or 1 without pagination |
| DataTable.EndItem | components/ui/data-table.tsx:69 | the last item number is the smaller of page·pageSize and total, or the row count without pagination |
| DataTable.WindowSize | components/ui/data-table.tsx:201 | the number of page buttons is min(5, totalPages), and never negative |
| DataTable.Window | components/ui/data-table.tsx:201-211 | the page window as consecutive numbers from the anchored start, `min(5, totalPages)` of them |
| DataTable.BuildPageWindow | components/ui/data-table.tsx:201-211 | the four-way per-index rule of the pager loop builds exactly `Window` |
| DataTable.WindowInRange | components/ui/data-table.tsx:201-211 | for an in-range page the window has min(5, totalPages) consecutive pages within [1, totalPages] and contains the page |
| DataTable.WindowAnchoring | components/ui/data-table.tsx:203-211 | the window starts at 1 near the start, ends at the last page near the end, and is centred two either side otherwise, in that tie-break order |
| DataTable.WindowExamples | components/ui/data-table.tsx:201-211 | (3,2)→[1,2,3], (10,1)→[1..5], (10,10)→[6..10], (10,5)→[3..7], (10,8)→[6..10] |
| DataTable.PagerOf | components/ui/data-table.tsx:189-237 | Previous requests page-1 and is disabled iff page ≤ 1; Next requests page+1 and is disabled iff page ≥ totalPages; the buttons are the window, current iff equal to the page |
| DataTable.ExactlyOneCurrent | components/ui/data-table.tsx:220 | for an in-range page exactly one page button carries `aria-current` |
| DataTable.FooterOf | components/ui/data-table.tsx:182-186 | the footer exists iff there is pagination, no loading and at least one row; it shows start, end, total and the pager |
| DataTable.FooterRange | components/ui/data-table.tsx:68-69 | for an in-range page of a non-empty result, 1 ≤ start ≤ end ≤ total and the range spans at most pageSize items |
| DataTable.CellOf | components/ui/data-table.tsx:171 | a cell is the renderer's output when there is one, else the row's property (absent when the row lacks it) |
| DataTable.RendererPrecedence | components/ui/data-table.tsx:171 | the renderer wins over a same-named property; without it the property value is shown |
| DataTable.BodyOf | components/ui/data-table.tsx:149-177 | 5 skeleton rows of the column count while loading, else the empty message for no data, else one cell per row and column |
| DataTable.HeaderOf | components/ui/data-table.tsx:106-148 | one header cell per column with its heading, `aria-sort`, icon and focusability |
| DataTable.Render | components/ui/data-table.tsx:101-243 | one render is the header, body and footer of the same inputs and sort state |
| DataTable.LoadingPrecedence | components/ui/data-table.tsx:150 | while loading, the output has no footer and does not depend on the data or the pagination |
| DataTable.EmptyGridShowsDefaultMessage | components/ui/data-table.tsx:45 | a grid without an `emptyMessage` and with no rows shows "No data available" and no footer |
| UserManagement.TotalPages | app/page.tsx:178 | the page count is the ceiling of users / 5 |
| UserManagement.SliceIndex | app/page.tsx:181 | `slice` clamps an index into [0, length], counting negative indexes from the end |
| UserManagement.Slice | app/page.tsx:181 | `slice(start, end)` is the run between the clamped indexes, or empty when they cross |
| UserManagement.VisibleUsersArePage | app/page.tsx:179-181 | for page ≥ 1 the visible users are at most five consecutive users starting at (page-1)·5 |
| UserManagement.VisibleUsers | app/page.tsx:179-181 | the visible slice holds at most five users, all from the list |
| UserManagement.ShowingRange | app/page.tsx:329 | the "Showing" line runs from (page-1)·5+1 to min(page·5, user count) |
| UserManagement.ShowingRangeMatchesVisible | app/page.tsx:329 | on an in-range page of a non-empty list, "Showing X to Y" has 1 ≤ X ≤ Y ≤ the user count and counts exactly the rows on screen |
| UserManagement.PreviousPage | app/page.tsx:236-238 | Previous moves one page back and never below 1 |
| UserManagement.NextPage | app/page.tsx:240-242 | Next moves one page forward and never past totalPages |
| UserManagement.PreviousDisabled | app/page.tsx:332 | from page 1 up, Previous is disabled exactly when pressing it would not move the page |
| UserManagement.NextDisabled | app/page.tsx:345 | up to totalPages, Next is disabled exactly when pressing it would not move the page |
| UserManagement.PageButtons | app/page.tsx:335 | one button per page, numbered 1..totalPages |
| UserManagement.PageButtonsAscending | app/page.tsx:335-344 | the buttons strictly ascend and include every page from 1 to totalPages |
| UserManagement.EnabledButtonsMoveOnePage | app/page.tsx:332-345 | from an in-range page an enabled Previous or Next moves exactly one page and stays in range |
| UserManagement.NextOnEmptyListReachesPageZero | app/page.tsx:240-242 | with no users, Next is enabled on page 1 and moves to page 0, where a newly added user is not visible |
| UserManagement.EmailError | app/page.tsx:194-198 | a blank email is "required"; a non-blank one is "invalid" exactly when it lacks the non-blank@non-blank.non-blank shape |
| UserManagement.EmailShaped | app/page.tsx:196 | a value the pattern accepts has at least five characters and is not blank |
| UserManagement.FormErrors | app/page.tsx:183-206 | each field has an error exactly when it fails its rule, with that rule's message |
| UserManagement.FormValidIff | app/page.tsx:204-205 | the form validates iff both names and the email are non-blank, the email is shaped and a role is chosen |
| UserManagement.BlankEmailIsRequiredNotInvalid | app/page.tsx:194-198 | a blank email is reported as missing, never as invalid |
| UserManagement.EmailShapeExamples | app/page.tsx:196 | "john@example.com" passes the shape check; "john@example" and "a@.c" fail it |
| UserManagement.NewUser | app/page.tsx:210-218 | the new user copies the form's fields, is active, and joins on the start date or else today |
| UserManagement.WithoutUser | app/page.tsx:229 | deletion keeps exactly the users with another id |
| UserManagement.WithoutUserKeepsOrder | app/page.tsx:229 | deletion keeps the order of the remaining users |
| UserManagement.WithoutAbsentUser | app/page.tsx:229 | deleting an id nobody has changes nothing |
| UserManagement.PageAfterDelete | app/page.tsx:230-233 | the page is pulled back to ceil((count-1)/5) when past it and that is positive; otherwise it stays |
| UserManagement.DeleteKeepsPageInRange | app/page.tsx:228-234 | deleting one of at least two users keeps an in-range page in range for the shorter list |
| UserManagement.NewIdCanRepeatAfterDelete | app/page.tsx:211 | ids are `users.length + 1`, so after a deletion a new user can share an existing id |
| UserManagement.UserManagementPage.constructor | app/page.tsx:163-176 | the page starts on page 1 with the initial users, an empty form, no errors and the modal closed |
| UserManagement.UserManagementPage.ValidateForm | app/page.tsx:183-206 | the stored errors become `FormErrors` of the form, and the result is true iff there are none |
| UserManagement.UserManagementPage.SubmitForm | app/page.tsx:208-226 | a valid form appends the new user, closes the modal and clears the form and errors; an invalid one only stores the errors |
| UserManagement.UserManagementPage.DeleteUser | app/page.tsx:228-234 | the list loses the id and the page becomes `PageAfterDelete` of the old count |
| UserManagement.UserManagementPage.GoToPreviousPage | app/page.tsx:236-238 | the page becomes `PreviousPage` |
| UserManagement.UserManagementPage.GoToNextPage | app/page.tsx:240-242 | the page becomes `NextPage` for the current count |
| UserManagement.UserManagementPage.GoToPage | app/page.tsx:339 | a page-number button sets that page |
| UserManagement.UserManagementPage.OpenModal | app/page.tsx:259 | "Add New User" opens the modal |
| UserManagement.UserManagementPage.EditForm | app/page.tsx:378-458 | a field edit replaces the form data |
| Cart.WithProductAdded | components/task2-cart-management.tsx:102-116 | adding a product already in the cart raises only its quantity by one; otherwise the product is appended with quantity 1 |
| Cart.WithQuantity | components/task2-cart-management.tsx:126 | only the items with the id get the new quantity |
| Cart.WithoutItem | components/task2-cart-management.tsx:132-138 | removal keeps exactly the items with another id |
| Cart.AfterQuantityUpdate | components/task2-cart-management.tsx:118-130 | a quantity ≤ 0 removes the item; a positive one sets it |
| Cart.WithoutItemKeepsOrder | components/task2-cart-management.tsx:135 | removal keeps the order of the remaining items |
| Cart.WithoutAbsentItem | components/task2-cart-management.tsx:135 | removing an id not in the cart changes nothing |
| Cart.AddPreservesWellFormed | components/task2-cart-management.tsx:102-116 | adding keeps ids unique and quantities ≥ 1 |
| Cart.UpdatePreservesWellFormed | components/task2-cart-management.tsx:118-130 | updating a quantity keeps ids unique and quantities ≥ 1 |
| Cart.RemovePreservesWellFormed | components/task2-cart-management.tsx:132-138 | removal keeps ids unique and quantities ≥ 1 |
| Cart.ItemCountConcat | components/task2-cart-management.tsx:217 | the badge sum is additive over concatenation |
| Cart.ItemCount | components/task2-cart-management.tsx:217 | with no negative quantities, the badge sum is non-negative and at least every single item's quantity |
| Cart.ItemCountPointUpdate | components/task2-cart-management.tsx:217 | changing one quantity changes the badge by the difference |
| Cart.AddRaisesCountByOne | components/task2-cart-management.tsx:102-116 | in a well-formed cart, adding a product raises the badge by exactly one |
| Cart.UpdateMovesCountByDifference | components/task2-cart-management.tsx:118-130 | setting a positive quantity moves the badge by new minus old quantity |
| Cart.RemoveLowersCountByQuantity | components/task2-cart-management.tsx:132-138 | removing an item lowers the badge by its quantity |
| Cart.DecrementAtOneRemoves | components/task2-cart-management.tsx:269 | "-" on an item of quantity 1 removes that item and keeps every other one |
| Cart.BadgeAtLeastLength | components/task2-cart-management.tsx:217 | in a well-formed cart the badge is at least the number of distinct items |
| Cart.DiscountRate | components/task2-cart-management.tsx:51-55 | exactly SAVE10, WELCOME20 and STUDENT15 are known, at 10%, 20% and 15% |
| Cart.DiscountCodeIgnoresCase | components/task2-cart-management.tsx:141-142 | the code is upper-cased first, so "save10" and "Welcome20" are accepted |
| Cart.CartState.constructor | components/task2-cart-management.tsx:58-67 | the cart starts empty, with no discount, not loading, no errors, an empty input and the sidebar closed |
| Cart.CartState.AddToCart | components/task2-cart-management.tsx:102-116 | the items become `WithProductAdded` and the errors are cleared; the cart invariant holds |
| Cart.CartState.UpdateQuantity | components/task2-cart-management.tsx:118-130 | the items become `AfterQuantityUpdate`; the cart invariant holds |
| Cart.CartState.RemoveItem | components/task2-cart-management.tsx:132-138 | the items become `WithoutItem`; the cart invariant holds |
| Cart.CartState.EditDiscountInput | components/task2-cart-management.tsx:298 | the discount box holds the typed text |
| Cart.CartState.ApplyDiscount | components/task2-cart-management.tsx:140-156 | a known code, in any case, is stored upper-cased with its rate, clearing the errors and the box; an unknown one only sets "Invalid discount code" |
| Cart.CartState.BeginCheckout | components/task2-cart-management.tsx:158-159 | checkout enters the loading state, which disables the Checkout button |
| Cart.CartState.CompleteCheckout | components/task2-cart-management.tsx:162-170 | on completion the cart is emptied, the discount dropped, loading ends (the Checkout button is enabled again) and the sidebar closes; errors are kept |
| Cart.CartState.CheckoutEnabled | components/task2-cart-management.tsx:340 | the Checkout button is enabled exactly when no checkout is in progress; its use is stated by BeginCheckout and CompleteCheckout |
| Cart.CartState.OpenCart | components/task2-cart-management.tsx:215 | the cart button opens the sidebar |
| Cart.CartState.CloseCart | components/task2-cart-management.tsx:224-229 | the backdrop and the close button close the sidebar |
| Cart.CartState.Badge | components/task2-cart-management.tsx:217 | the badge is the quantity sum, at least the number of items |
| FormInputs.FilteredOptions | components/ui/form-inputs.tsx:128 | the listed options are exactly those whose caption contains the search term, ignoring case |
| FormInputs.EmptySearchListsAll | components/ui/form-inputs.tsx:128 | an empty search lists every option in order |
| FormInputs.FilteredOptionsKeepOrder | components/ui/form-inputs.tsx:128 | searching keeps the options' order |
| FormInputs.SearchIgnoresCase | components/ui/form-inputs.tsx:128 | "UNITED" and "states" find "United States"; "states" does not find "Canada" |
| FormInputs.SelectedOption | components/ui/form-inputs.tsx:130 | the chosen option is the first whose value equals the current value, absent iff none has it |
| FormInputs.DisplayText | components/ui/form-inputs.tsx:165-166 | the closed box shows the chosen option's caption, else the placeholder; SelectThenDisplay and ClearedShowsPlaceholder state both cases |
| FormInputs.ClearButtonShown | components/ui/form-inputs.tsx:169 | the clear button shows only when clearing is enabled and an option is chosen; SelectThenDisplay and ClearedShowsPlaceholder state both cases |
| FormInputs.AriaSelected | components/ui/form-inputs.tsx:219 | an option is marked `aria-selected` exactly when its value is the current value |
| FormInputs.SelectThenDisplay | components/ui/form-inputs.tsx:165-169 | choosing an option that no earlier option shares a value with displays its caption, and a clearable box shows the clear button |
| FormInputs.ClearedShowsPlaceholder | components/ui/form-inputs.tsx:118-169 | after clearing, with non-empty option values, the placeholder ("Select an option" by default) shows and the clear button is hidden |
| FormInputs.SelectInputState.constructor | components/ui/form-inputs.tsx:123-124 | the dropdown starts closed with an empty search |
| FormInputs.SelectInputState.Listed | components/ui/form-inputs.tsx:128 | every listed option is an option of the box that matches the search |
| FormInputs.SelectInputState.Toggle | components/ui/form-inputs.tsx:155 | a click toggles the dropdown unless the input is disabled |
| FormInputs.SelectInputState.EditSearch | components/ui/form-inputs.tsx:198 | the search box holds the typed text |
| FormInputs.SelectInputState.HandleSelect | components/ui/form-inputs.tsx:132-136 | selecting reports the value, closes the dropdown and empties the search |
| FormInputs.SelectInputState.ClickOption | components/ui/form-inputs.tsx:213 | a disabled option ignores the click; any other is selected |
| FormInputs.SelectInputState.HandleClear | components/ui/form-inputs.tsx:138-141 | clearing reports the empty value and empties the search |
| FormInputs.Fits | components/ui/form-inputs.tsx:274-280 | the files kept by the size check are exactly those not over a set limit |
| FormInputs.SizeErrorsEmptyIff | components/ui/form-inputs.tsx:274-278 | there is no size message iff no file is over the limit |
| FormInputs.ValidateBounds | components/ui/form-inputs.tsx:270-288 | the accepted files are the first min(maxFiles, fitting) of those that fit (all of them when maxFiles is 0), and the count message is added exactly when more than maxFiles fit |
| FormInputs.SizeErrors | components/ui/form-inputs.tsx:274-277 | one size message per oversized file at most, each a "too large" message carrying the limit |
| FormInputs.OversizedFiles | components/ui/form-inputs.tsx:274-275 | exactly the files over a set size limit, in order |
| FormInputs.SizeErrorsPerOversizedFile | components/ui/form-inputs.tsx:274-280 | one "too large" message per oversized file, naming it, in file order; with the fitting files they account for every file |
| FormInputs.Validate | components/ui/form-inputs.tsx:270-288 | keeps no more files than given; the size messages come first, followed by at most the one count message |
| FormInputs.DefaultMaxFilesKeepsOne | components/ui/form-inputs.tsx:262 | without `maxFiles` at most one file is kept, and two or more fitting files give the count message with limit 1 |
| FormInputs.ValidateErrorsIff | components/ui/form-inputs.tsx:270-288 | a batch gives no message iff every file fits and there are not too many |
| FormInputs.NoLimitsAcceptsAll | components/ui/form-inputs.tsx:270-288 | without limits every file is accepted, in order, without messages |
| FormInputs.ValidateFiles | components/ui/form-inputs.tsx:270-288 | the loop with `continue` and the count check compute exactly `Validate` |
| FormInputs.WithoutIndex | components/ui/form-inputs.tsx:331 | removing by index drops exactly that position; an index out of range changes nothing |
| FormInputs.WithoutIndexRemovesOne | components/ui/form-inputs.tsx:330-334 | removal takes out exactly one occurrence of the removed file |
| FormInputs.FileUploadState.constructor | components/ui/form-inputs.tsx:265-266 | the upload starts with no highlight and no files |
| FormInputs.FileUploadState.HandleFiles | components/ui/form-inputs.tsx:290-302 | a missing list is ignored; otherwise the accepted files replace the list and are reported; the limits keep holding |
| FormInputs.FileUploadState.HandleDragOver | components/ui/form-inputs.tsx:304-312 | dragging over highlights the zone unless disabled |
| FormInputs.FileUploadState.HandleDragLeave | components/ui/form-inputs.tsx:314-317 | leaving removes the highlight |
| FormInputs.FileUploadState.HandleDrop | components/ui/form-inputs.tsx:319-328 | a drop always removes the highlight and takes the files only when not disabled |
| FormInputs.FileUploadState.RemoveFile | components/ui/form-inputs.tsx:330-334 | the list loses that position and is reported; the limits keep holding |
| Tabs.UseTabsContext | components/ui/tabs.tsx:12-18 | outside a root the error "Tabs components must be used within a Tabs provider"; inside, the root's context |
| Tabs.InitialValue | components/ui/tabs.tsx:27 | the internal value starts as the default value, or "" without one |
| Tabs.TriggerSelected | components/ui/tabs.tsx:63-64 | a trigger is selected iff its value is the shared value; outside a root it fails |
| Tabs.ContentVisible | components/ui/tabs.tsx:84-89 | a panel renders iff its value is the shared value; outside a root it fails |
| Tabs.OnePanelVisible | components/ui/tabs.tsx:84-89 | among panels with distinct values at most one shows, and one shows iff some panel has the shared value |
| Tabs.TriggerMatchesContent | components/ui/tabs.tsx:62-96 | a trigger is marked selected exactly when its panel shows |
| Tabs.TabsRoot.constructor | components/ui/tabs.tsx:26-28 | the root starts with the initial internal value; the shared value is the controlled one when given |
| Tabs.TabsRoot.Value | components/ui/tabs.tsx:28 | the shared value is the controlled value when given, otherwise the internal one |
| Tabs.TabsRoot.Context | components/ui/tabs.tsx:38 | the context carries the shared value |
| Tabs.TabsRoot.HandleValueChange | components/ui/tabs.tsx:30-35 | an uncontrolled root takes the new value and a controlled one keeps its value; the listener, if any, always hears it |
| Tabs.TabsRoot.SetControlledValue | components/ui/tabs.tsx:26-28 | a new `value` prop replaces the controlled value and leaves the internal one |
| Tabs.ClickTrigger | components/ui/tabs.tsx:72 | in an uncontrolled root a clicked trigger becomes selected and its panel shows |
| UserDirectory.DepartmentMapKeys | components/task3-performance-optimization.tsx:61-67 | the lookup table's keys are exactly the departments' ids |
| UserDirectory.DepartmentMapOf | components/task3-performance-optimization.tsx:61-67 | every entry of the lookup table is one of the departments, filed under its own id |
| UserDirectory.DepartmentMapLastWins | components/task3-performance-optimization.tsx:63-65 | each id maps to the last department with that id |
| UserDirectory.BuildDepartmentMap | components/task3-performance-optimization.tsx:61-67 | the `forEach` builds exactly `DepartmentMapOf` |
| UserDirectory.DepartmentLabel | components/task3-performance-optimization.tsx:46 | a card shows the looked-up department name, or "Unknown" when none is found or the name is empty |
| UserDirectory.LabelOfListedDepartment | components/task3-performance-optimization.tsx:129 | a user in a uniquely listed department with a name shows that name |
| UserDirectory.StatusText | components/task3-performance-optimization.tsx:48 | the card says "Active" exactly when the user is marked active |
| UserDirectory.WithActivity | components/task3-performance-optimization.tsx:81-85 | a user is active iff the last login was less than 30 days before now; nothing else changes |
| UserDirectory.MarkActivity | components/task3-performance-optimization.tsx:81-85 | every user of the list is marked, in order |
| UserDirectory.Insert | components/task3-performance-optimization.tsx:86-89 | insertion adds exactly the one user |
| UserDirectory.InsertNoneAfter | components/task3-performance-optimization.tsx:86-89 | insertion keeps an upper bound on login instants |
| UserDirectory.InsertSorted | components/task3-performance-optimization.tsx:86-89 | insertion into a most-recent-first list keeps it ordered |
| UserDirectory.SortByRecency | components/task3-performance-optimization.tsx:86-89 | the sort is a permutation, most recent login first |
| UserDirectory.InsertOtherInstant | components/task3-performance-optimization.tsx:86-89 | inserting leaves the users of any other login instant in their order |
| UserDirectory.InsertSameInstant | components/task3-performance-optimization.tsx:86-89 | inserting places the user before the others of the same instant |
| UserDirectory.SortIsStable | components/task3-performance-optimization.tsx:86-89 | users with the same login instant keep their relative order |
| UserDirectory.ProcessedUsersOrdered | components/task3-performance-optimization.tsx:70-90 | the list is most recent first, a rearrangement of the marked matching users, and no longer than the input |
| UserDirectory.ProcessedUsers | components/task3-performance-optimization.tsx:70-90 | the listed users are ordered most recent login first and are no more than the input |
| UserDirectory.ProcessedUsersMatch | components/task3-performance-optimization.tsx:72-85 | every listed user is a marked input user whose name or email contains the term and whose department is selected |
| UserDirectory.ProcessedUsersComplete | components/task3-performance-optimization.tsx:72-85 | every input user that matches both filters is listed, marked |
| UserDirectory.EverythingListedByDefault | components/task3-performance-optimization.tsx:58-59 | with an empty search and "all" departments every user is listed |
| UserDirectory.ActivityBoundary | components/task3-performance-optimization.tsx:83-84 | one millisecond under 30 days is active; exactly 30 days is inactive |
| UserDirectory.DirectoryView.constructor | components/task3-performance-optimization.tsx:58-67 | the view starts with an empty search, all departments and the department table of its input |
| UserDirectory.DirectoryView.EditSearch | components/task3-performance-optimization.tsx:106 | the search box holds the typed text |
| UserDirectory.DirectoryView.SelectDepartment | components/task3-performance-optimization.tsx:113 | the selector holds the chosen department |
| UserDirectory.DirectoryView.Cards | components/task3-performance-optimization.tsx:125-131 | one card per listed user, each labelled with its department's name |
| UserDirectory.DirectoryView.SelectUser | components/task3-performance-optimization.tsx:130 | clicking a card reports that listed (marked) user |

## Left out

- Rendering, styling, icons, focus handling and every other piece of JSX/CSS. The modal, the
  plain select, button, input and skeleton components are not part of this model.
- Cart totals (subtotal, tax, shipping, total) are floating-point arithmetic and are not modelled.
  Product prices and discount rates are kept as `real` values and never computed with.
- Reading and writing the cart to `localStorage`, the checkout's two-second timer and its
  `alert`, and `console` output. `CompleteCheckout` stands for the moment the timer fires.
- `formatFileSize`, the text of the file messages (they format megabytes with `toFixed`), the
  date formatting of join dates and last logins, and the random element ids.
- Dates: `new Date()` and date parsing are replaced by integer milliseconds passed in (`now`,
  `lastLogin`) and by a `today` string. Unparsable dates, which give `NaN` in the source, are not
  modelled.
- The email pattern `\S+@\S+\.\S+` is an explicit predicate over positions, not a regular-expression
  engine.
- Text.ToLower: handles ASCII letters only; the source's `toLowerCase` maps all of Unicode, so search
  terms and captions with other letters differ in case only in the source.
- Text.ToUpper: handles ASCII letters only; the source's `toUpperCase` maps all of Unicode, so
  `"ſave10"` becomes `"SAVE10"` and is accepted as a discount code there, but is rejected here.
- Cart.CartState.ApplyDiscount: looks the upper-cased code up in the three known codes only;
  property names inherited by the JavaScript object holding the codes are not modelled (no
  upper-case code can reach them).
- UserDirectory.DepartmentLabel: looks ids up in a map; keys inherited by a JavaScript object
  (such as `constructor`) would find a prototype member in the source and are not modelled.
- FormInputs.FileUploadState.HandleFiles: `maxSize` and `maxFiles` are natural numbers. A 0 stands
  for an explicit falsy limit, which means no limit. An omitted `maxSize` is the same as 0, but an
  omitted `maxFiles` is `FormInputs.DefaultMaxFiles` (1), as `FormInputs.DefaultMaxFilesKeepsOne`
  shows. Negative limits are not modelled.
- Tabs.ClickTrigger: models the trigger's own click handler only. Extra props are spread after
  `onClick`, so a caller's `onClick` replaces the selection handler, and a `disabled` trigger
  ignores clicks; neither is modelled.
- A missing `onSort`, `onPageChange`, `onValueChange` or `onChange` callback is modelled only
  where it changes behaviour (the tabs listener); elsewhere the reported value is simply returned.
- The grid's `onPageChange` is reported as the target numbers in `Pager`; the grid keeps no
  page state, so there is no state change to model.
- The user-management page's `files` form field is only ever reset to empty and is not kept.
- Re-rendering gives the same output for the same inputs because `DataTable.Render` is a
  function; no separate lemma restates this.
