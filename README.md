# ngopidi — a Dafny model of the place-verification core

ngopidi is a directory of work-friendly cafés. Users submit places and
proofs that a place is as described, admins verify places and review the
proofs, and a dashboard lists and edits places and users. This project
models the part of the application that decides things:

- the server actions for places, verifications and users;
- sign-in and registration;
- the email-verification link handler;
- the pure helpers of the client components that build queries and payloads.

Each concept lives in its own module:

- `Common`: ids, roles, the `PlaceStatus` enum, the session of `auth()`, the
  three ways an action ends, and `Array.prototype.filter`.
- `Text`: the JavaScript string built-ins that are used, with ASCII case mapping.
- `Pagination`: the `skip`/`take`/`Math.ceil` arithmetic shared by the two
  paged lists.
- `Database`:
  - the rows of the four tables the actions touch (users, places, place
    verifications, verification tokens), held in `Tables`;
  - `Select`, a `findMany` with a `where` over an ordering that the database
    chooses;
  - `class Db`, the mutable store whose `Valid()` invariant is the unique
    email index.
- `Verifications`, `Places`, `Users`, `Auth`, `VerifyRoute`: one module per
  server file.
  - Every action that writes is a pure `…Step` function from the tables
    before it to a `Step`: the reply, the tables after it, and the paths it
    revalidates.
  - Beside each `…Step` is a `method` that performs the writes on a `Db`. The
    method's `ensures` ties it to the `…Step` function, and the lemmas state
    the rules.
  - The read actions are functions of the tables.
- `PlacesTable`: the dashboard table, which covers:
  - `toTitleCase`;
  - the query-string edits of `updateUrl`, a loop over `URLSearchParams` that
    is proved against its specification;
  - the search, sort, page and status handlers;
  - the row-menu rules;
  - the proof dialog.
- `PlaceForm`: the place form's state, its chip toggles, its feature
  switches and the time-range picker.
- `AdminPlacesTable`: the admin table, which covers:
  - the status badge;
  - the Verify action and the menu item that offers it;
  - the payload its dialogs build.
- `Sidebar`: the navigation filter and the active-item rule.

Inputs that the code takes from outside become parameters:

- the session: `Session`;
- the clock: `now`;
- the bcrypt hash: `hash`;
- the ids the database generates: `newId`;
- the row order that `orderBy` produces: `order`;
- the set of places within the search radius: `nearby`;
- the `NEXT_PUBLIC_APP_URL` variable: `env`.

An action either returns `{ success: false, error }`, modelled as `Fail`,
or lets an exception escape it, modelled as `Thrown`. The model keeps
these two apart because the source does.

In several places the code departs from what an idealised version of the
workflow, or the UI around it, would suggest. The model follows the code:

- `submitVerification` takes no notes. Only the dialog refuses an empty
  proof link, which the server stores as given.
- A non-admin gets the generic "Failed to update verification status" from
  `updateVerificationStatus`. The `Unauthorized` thrown by `checkAdmin` is
  caught by the action's own `try`.
- `getVerifications` performs no authorization check.
- `submitPlace` needs no session. A signed-in user is recorded as the
  submitter, and an anonymous submission has none.
- The owner of a place may set any status, VERIFIED_ADMIN included, through
  `updatePlace`; `Places.OwnerMaySetAnyStatus` states this. Only
  `createPlace` and `verifyPlace` restrict the status to admins.
- `checkAdmin` in the places and users actions looks at the role only; the
  one in the verifications actions also demands a user id.

## Model

| member | source | states |
|---|---|---|
| Common.ParseStatus | app/actions/places.ts:121 | a status string the client casts is accepted only when it names an enum value, and then names exactly that value |
| Common.ParseStatusName | app/actions/places.ts:121 | every enum value survives the cast from its own name |
| Common.Filter | components/admin/Sidebar.tsx:19 | `filter` keeps exactly the accepted elements, in their original order (a subsequence) |
| Common.FilterKeepsAll | components/admin/Sidebar.tsx:19 | a filter that accepts every element returns its input unchanged |
| Database.Select | app/actions/places.ts:47-49 | `findMany({ where })` over the database's order returns exactly the rows that satisfy the `where`, each with its stored value, in that order |
| Database.Db.Revalidate | app/actions/verifications.ts:41-43 | `revalidatePath` records the path and leaves every table as it was |
| Pagination.TotalPages | app/actions/places.ts:134 | `Math.ceil(total / limit)` is the least number of pages of `limit` rows that holds `total` rows |
| Pagination.Window | app/actions/places.ts:127-128 | `skip`/`take` return the rows from position `skip` onwards, at most `take` of them, in order |
| Pagination.Paginate | app/actions/places.ts:118-134 | a page below 1 makes the negative `skip` fail; otherwise the reply carries that window, the full count and the page count |
| Pagination.PageSizes | app/actions/users.ts:20-29 | every page before the last is full, and every page after the last is empty |
| Pagination.PagesCoverRows | app/actions/users.ts:20-29 | pages 1 to `totalPages`, taken together, are exactly the rows in order |
| Verifications.GetSession | app/actions/verifications.ts:8-14 | the session user is returned iff there is a non-empty user id; otherwise `Unauthorized` is thrown |
| Verifications.CheckAdmin | app/actions/verifications.ts:16-23 | the session passes iff it has a user id and the ADMIN role; otherwise `Unauthorized` is thrown |
| Verifications.ApprovalTarget | app/actions/verifications.ts:109 | an approval yields VERIFIED_ADMIN exactly when the submitter is an admin, and VERIFIED_USER otherwise |
| Verifications.NotesAfter | app/actions/verifications.ts:91 | an absent `adminNotes` argument (`undefined`) leaves the stored notes; a given one replaces them |
| Verifications.SubmitVerificationStep | app/actions/verifications.ts:25-50 | without a user id the reply is `Unauthorized`; otherwise a PENDING record with no notes is stored iff the id is fresh and the place and user exist, and the three pages are revalidated; any failure writes nothing |
| Verifications.SubmitVerification | app/actions/verifications.ts:25-50 | performs exactly `SubmitVerificationStep`'s writes and revalidations on the store |
| Verifications.MatchesPlace | app/actions/verifications.ts:55 | `placeId ? { place_id: placeId } : {}`: an absent or empty id matches every record, another id only the records of that place |
| Verifications.Join | app/actions/verifications.ts:56-68 | the joined user's name and email and the place's name, taken from the rows the record points to |
| Verifications.GetVerifications | app/actions/verifications.ts:52-76 | over the database's ordering of the table, returns every record of the requested place once (all records when no place id, or an empty one, is given), in that order, each joined with its user and place |
| Verifications.UpdateVerificationStatusStep | app/actions/verifications.ts:78-135 | succeeds exactly for an admin session and an existing record whose submitter and place exist (for a rejection the record alone is enough); a non-admin and a record missing for a rejection get the generic failure, a record missing for an approval gets "Verification not found", a missing submitter or place gets the generic failure; users are never written; a failure writes nothing |
| Verifications.UpdateVerificationStatus | app/actions/verifications.ts:78-135 | performs exactly `UpdateVerificationStatusStep`'s writes, the approval's two updates as one step |
| Verifications.RejectTouchesOnlyTheRecord | app/actions/verifications.ts:86-97 | a rejection succeeds exactly for an admin and an existing record; it sets the record to REJECTED with its notes updated, and changes no other record, no place and no token |
| Verifications.ApprovalIsAtomic | app/actions/verifications.ts:100-124 | an approval succeeds exactly for an admin and a record whose submitter and place exist; it then sets the record and its place to the same target status and nothing else; one that fails writes nothing; a missing record gives "Verification not found" |
| Verifications.RequestedStatusIgnored | app/actions/verifications.ts:109-121 | every status other than REJECTED has the same effect: the target depends on the submitter's role alone |
| Verifications.UpdateIdempotent | app/actions/verifications.ts:78-135 | repeating a successful status update succeeds again and changes nothing more |
| Verifications.SubmitThenApprove | app/actions/verifications.ts:25-124 | a proof filed by a user and then approved by an admin leaves both the record and the place at the status that the user's role dictates |
| Places.SubmittedPlace | app/actions/places.ts:12-19 | a submitted place is UNVERIFIED, the session user is its submitter exactly when there is one, and name, address, description and the other columns are the input's |
| Places.SubmitPlaceStep | app/actions/places.ts:8-25 | a submission is stored iff the id is fresh, a signed-in submitter exists and every column admits its value; otherwise "Failed to submit place" and no write; nothing is revalidated |
| Places.SubmitPlace | app/actions/places.ts:8-25 | performs exactly `SubmitPlaceStep`'s write on the store |
| Places.CreatedStatus | app/actions/places.ts:272 | only an admin's requested status is kept; everything else is UNVERIFIED |
| Places.CreatedPlace | app/actions/places.ts:265-308 | the created place has the input's name, address, description and descriptive columns, the permitted status, the creator as submitter, and the switches true only when set to true |
| Places.CreatePlaceStep | app/actions/places.ts:253-316 | without a user id the reply is "Unauthorized"; otherwise the place is stored iff the id is fresh, the user exists and every column admits its value, and the places page is revalidated; otherwise "Failed to create place" and no write |
| Places.CreatePlace | app/actions/places.ts:253-316 | performs exactly `CreatePlaceStep`'s write and revalidation on the store |
| Places.NonAdminPlacesAreUnverified | app/actions/places.ts:262-272 | every place that a non-admin creates or submits is stored as UNVERIFIED |
| Places.MayModify | app/actions/places.ts:343-349 | `!isAdmin && !isOwner` refuses: a caller may change a place when an admin or when its linked submitter |
| Places.VerifyPlaceStep | app/actions/places.ts:318-330 | a non-admin gets a thrown `Unauthorized`; an admin sets the status of an existing place and revalidates the places page; a missing place gives "Failed to verify place" and no write |
| Places.VerifyPlace | app/actions/places.ts:318-330 | performs exactly `VerifyPlaceStep`'s write on the store |
| Places.VerifyPlaceFrame | app/actions/places.ts:322-325 | verifying changes only the status of the one place |
| Places.DeletePlaceStep | app/actions/places.ts:332-357 | without a user id the reply is "Unauthorized"; a missing place gives "Place not found"; a user who is neither admin nor submitter gets "Unauthorized"; otherwise the place is removed |
| Places.DeletePlace | app/actions/places.ts:332-357 | performs exactly `DeletePlaceStep`'s removal on the store |
| Places.Patched | app/actions/places.ts:378-422 | an update overwrites each given field (name, address, description, status, both switches, the other columns) and keeps each undefined one and the submitter |
| Places.PatchLaws | app/actions/places.ts:378-422 | an empty patch changes nothing, and applying a patch twice equals applying it once |
| Places.UpdatePlaceStep | app/actions/places.ts:359-428 | the same guards as the delete; then "Failed to update place" and no write when a column refuses its value; otherwise the place is replaced by its patched version and the places page is revalidated |
| Places.UpdatePlace | app/actions/places.ts:359-428 | performs exactly `UpdatePlaceStep`'s write on the store |
| Places.DetailsAccepted | app/actions/places.ts:280-302 | a write succeeds only when every enum column passed with `as any` admits its value |
| Places.OnlyOwnerOrAdminChangesPlace | app/actions/places.ts:343-349 | the places table changes under a delete or an update only for an admin or the place's submitter |
| Places.OwnerMaySetAnyStatus | app/actions/places.ts:386 | a plain user who owns a place can set it to VERIFIED_ADMIN through an update |
| Places.GetPlaces | app/actions/places.ts:27-100 | over the database's ordering of the table, returns every place in the radius set and with a listed status exactly once, with its stored row, in order; an empty radius result gives no places |
| Places.PlaceWhere | app/actions/places.ts:47-49 | `id in ids` only when coordinates were given, `status in statuses` only for a present non-empty list |
| Places.GetPlacesFilters | app/actions/places.ts:44-49 | an empty nearby set selects nothing, and an empty status list filters nothing |
| Places.GetPlacesList | app/actions/places.ts:102-139 | the list fails with "Failed to fetch places list" iff the page is below 1 or the status is neither ALL nor an enum value; otherwise it is the window of the places whose name contains the search (case-insensitive) and that have the status, and `total` is the number of such places, as `count` gives |
| Places.ListWhere | app/actions/places.ts:119-122 | the name contains the search ignoring case, and the status equals the filter unless it is ALL |
| Places.ListRows | app/actions/places.ts:119-131 | over an ordering of the table, the rows `findMany({ where })` reads before paging: every place that satisfies the `where` exactly once, with its stored row, in order, as many as `count({ where })` counts |
| Places.Listed | app/actions/places.ts:131 | the places `count({ where })` counts: exactly those in the table that satisfy the list's `where` |
| Database.SelectCount | app/actions/places.ts:124-131 | over an ordering of the table, `findMany` and `count` with the same `where` agree on the number of rows |
| Places.AllPlacesListed | app/actions/places.ts:119-122 | an empty search with status ALL counts every place of the table |
| Auth.RedirectTarget | app/actions/auth.ts:15-20 | the sign-in redirects to /admin or to /dashboard |
| Auth.RedirectFollowsRole | app/actions/auth.ts:15-20 | with unique emails the redirect is /admin exactly when the user with that email is an admin, and an unknown email goes to /dashboard |
| Auth.MapSignInError | app/actions/auth.ts:29-37 | "Invalid credentials." exactly for a `CredentialsSignin` error, "Something went wrong." otherwise |
| Auth.TooShort | app/actions/auth.ts:56-66 | a field is too short when it is missing, empty, or has fewer than `n` UTF-16 code units, as `length` counts them |
| Text.Utf16Length | app/actions/auth.ts:56 | JavaScript's `length` counts UTF-16 code units: at least one and at most two per character, one per character of the Basic Multilingual Plane |
| Auth.OneEmojiNameIsLongEnough | app/actions/auth.ts:56 | a name of one emoji passes the two-character check, a name of one letter does not |
| Auth.Authenticate | app/actions/auth.ts:6-39 | a successful sign-in follows the redirect, an auth error becomes its message, any other error is rethrown |
| Auth.ValidateRegistration | app/actions/auth.ts:56-70 | the message of the first failing check, each one iff the earlier checks pass and it fails; none iff all pass |
| Auth.RegisterStep | app/actions/auth.ts:46-101 | a valid form with an unused email stores a plain unverified user with the hashed password; an invalid form or a taken email is refused with its message and no write |
| Auth.Register | app/actions/auth.ts:46-101 | performs exactly `RegisterStep`'s write and keeps emails unique |
| Auth.RegisterKeepsEmailsUnique | app/actions/auth.ts:77-94 | registration keeps emails unique, and the new account is a USER with the hash as password and no verification date |
| Auth.ValidationBeforeLookup | app/actions/auth.ts:56-77 | a form that fails validation gets the same answer whatever the store holds |
| VerifyRoute.MarkVerified | app/api/auth/verify/route.ts:50-53 | the user with the email gets the timestamp and every other user is unchanged |
| VerifyRoute.MarkVerifiedKeepsEmailsUnique | app/api/auth/verify/route.ts:50-53 | marking a user verified keeps emails unique |
| VerifyRoute.VerifyStep | app/api/auth/verify/route.ts:4-74 | missing parameters, an unknown pair and an expired token are told apart; an expired token is deleted; a valid one marks the user and is consumed; a valid one with no such user changes nothing |
| VerifyRoute.TokenSingleUse | app/api/auth/verify/route.ts:33-63 | after a link has verified or expired, following it again finds no token |
| VerifyRoute.OnlyVerifiedMarks | app/api/auth/verify/route.ts:33-53 | only a successful verification changes users, it marks exactly the email's owner, and the instant of expiry still succeeds |
| VerifyRoute.BaseUrl | app/api/auth/verify/route.ts:9 | the configured URL when set and non-empty, else http://localhost:3000 |
| VerifyRoute.EncodeChar | app/api/auth/verify/route.ts:13 | `encodeURIComponent` leaves an unreserved character as it is and writes another ASCII character as `%XY` |
| VerifyRoute.Encode | app/api/auth/verify/route.ts:13 | the encoded text holds only unreserved characters, `%` and hex digits |
| VerifyRoute.Decode | app/api/auth/verify/route.ts:13 | the inverse of `Encode`: reads back the `%XY` escapes of ASCII characters, in either case, and keeps any other text |
| VerifyRoute.DecodeEitherCase | app/api/auth/verify/route.ts:13 | `%2f` and `%2F` both decode to `/` |
| VerifyRoute.DecodeEncode | app/api/auth/verify/route.ts:13 | decoding the encoded message gives the message back |
| VerifyRoute.Location | app/api/auth/verify/route.ts:11-72 | the redirect URL: base URL, `/login?`, the outcome flag and the encoded message |
| VerifyRoute.LocationShape | app/api/auth/verify/route.ts:11-72 | every redirect goes to the login page of the base URL with the outcome flag, and its message decodes to the outcome's text and holds no space |
| VerifyRoute.Verify | app/api/auth/verify/route.ts:4-74 | performs exactly `VerifyStep`'s writes, keeps emails unique, and returns the redirect for the outcome |
| Users.CheckAdmin | app/actions/users.ts:9-15 | the session passes iff its role is ADMIN; otherwise `Unauthorized` is thrown |
| Users.GetUsersList | app/actions/users.ts:17-34 | a non-admin gets a thrown `Unauthorized`; a page below 1 fails; otherwise the window of all users in order, the full count and the page count |
| Users.OrderingSize | app/actions/users.ts:21-27 | an ordering of the whole table has as many entries as the table, so `count()` and the list agree |
| Users.GetUsers | app/actions/users.ts:36-47 | an admin gets every user exactly once, with its stored row, in the database's order; anyone else gets a thrown `Unauthorized` |
| Users.GetUserById | app/actions/users.ts:49-57 | an admin gets the user with that id or nothing when there is none |
| Users.CreateUserStep | app/actions/users.ts:59-77 | an admin creates the user with the hashed password iff the id and the email are unused; otherwise "Failed to create user" and no write |
| Users.CreateUser | app/actions/users.ts:59-77 | performs exactly `CreateUserStep`'s write and keeps emails unique |
| Users.CreateUserKeepsEmailsUnique | app/actions/users.ts:59-77 | creating a user keeps emails unique |
| Users.UpdatedUser | app/actions/users.ts:86-101 | the password is replaced by the hash only when a non-empty one is given; a given email, name or role overwrites and an absent one is kept; the verification date stays |
| Users.UpdateUserStep | app/actions/users.ts:79-108 | an admin updates an existing user unless the new email belongs to another user; otherwise "Failed to update user" and no write |
| Users.UpdateUser | app/actions/users.ts:79-108 | performs exactly `UpdateUserStep`'s write and keeps emails unique |
| Users.UpdateUserKeepsEmailsUnique | app/actions/users.ts:79-108 | updating a user keeps emails unique |
| Users.PasswordOnlyWhenGiven | app/actions/users.ts:90-97 | a missing or empty password keeps the stored hash; a given one stores its hash |
| Users.DeleteUserStep | app/actions/users.ts:110-120 | an admin removes an existing user; a missing one gives "Failed to delete user" |
| Users.DeleteUser | app/actions/users.ts:110-120 | performs exactly `DeleteUserStep`'s removal on the store |
| Users.DeleteRemovesExactlyOne | app/actions/users.ts:110-120 | a deletion removes exactly that one user and keeps every other one |
| PlacesTable.JoinSplitIsCap | components/organisms/PlacesTable.tsx:168-175 | splitting on `_`, capitalising each word and joining with spaces is one pass over the characters |
| PlacesTable.ToTitleCase | components/organisms/PlacesTable.tsx:168-175 | a missing or empty value is the dash; any other is the one-pass `Cap` of its lower-cased text |
| PlacesTable.TitleCaseSpec | components/organisms/PlacesTable.tsx:168-175 | `toTitleCase` keeps the length, leaves no `_`, upper-cases each character after a `_` and the first one, and lower-cases all the others |
| PlacesTable.TitleCaseOfNothing | components/organisms/PlacesTable.tsx:169 | a missing or empty value is shown as a dash |
| PlacesTable.ValuesSet | components/organisms/PlacesTable.tsx:189 | `URLSearchParams.set` leaves that key with exactly the new value and every other key as it was |
| PlacesTable.ValuesDelete | components/organisms/PlacesTable.tsx:187 | `URLSearchParams.delete` removes every value of that key and no other |
| PlacesTable.ValuesApply | components/organisms/PlacesTable.tsx:184-191 | one parameter deletes its key when null, undefined or empty, and otherwise sets it to the rendered value |
| PlacesTable.ValuesApplyAll | components/organisms/PlacesTable.tsx:184-191 | after all parameters, each named key holds what its parameter asks for, and every other key is as it was |
| PlacesTable.UpdatedQuery | components/organisms/PlacesTable.tsx:183-199 | the query `updateUrl` pushes: every parameter applied in turn, then the page set to 1 when no page is given and a search, status or sort is |
| PlacesTable.UpdateUrl | components/organisms/PlacesTable.tsx:183-199 | the loop's query is the specified update: each parameter applied in turn, then the page reset to 1 unless the page itself was given |
| PlacesTable.UpdatedQueryValues | components/organisms/PlacesTable.tsx:183-199 | the page becomes 1 when a change does not name the page; otherwise each key holds what its parameter asks for or keeps its values |
| PlacesTable.ClearingSearchKeepsPage | components/organisms/PlacesTable.tsx:194-196 | clearing the search removes it and, because the only change is null, leaves the page as it was |
| PlacesTable.HandleSearch | components/organisms/PlacesTable.tsx:201-206 | the search box pushes a change only when it is emptied |
| PlacesTable.DebouncedSearch | components/organisms/PlacesTable.tsx:209-216 | the debounce pushes the typed value exactly when it differs from the value in the URL, clearing it when empty |
| PlacesTable.NextSortDir | components/organisms/PlacesTable.tsx:218-221 | clicking a column sorts descending exactly when it is the current column in ascending order, ascending otherwise |
| PlacesTable.HandleSort | components/organisms/PlacesTable.tsx:218-221 | a sort names the column and its new direction and no page, so it always resets the page |
| PlacesTable.SortToggles | components/organisms/PlacesTable.tsx:218-221 | two clicks on a column return to ascending, a new column starts ascending, and every sort, from either direction, sets the column and direction in the URL and resets the page to 1 |
| PlacesTable.HandlePageChange | components/organisms/PlacesTable.tsx:223-225 | a page change names only the page, so the reset rule never fires |
| PlacesTable.HandleStatusFilter | components/organisms/PlacesTable.tsx:227-229 | ALL (or an empty value) clears the status parameter, any other value sets it; no page is named |
| PlacesTable.StatusFilterEffect | components/organisms/PlacesTable.tsx:227-229 | ALL removes the status filter; another status sets it and resets the page |
| PlacesTable.PageChangeEffect | components/organisms/PlacesTable.tsx:223-225 | a page change sets the page and nothing else |
| PlacesTable.MenuDisabled | components/organisms/PlacesTable.tsx:607-621 | Edit and Delete are disabled for a non-admin who is not the place's submitter; a place without a submitter is disabled for every non-admin |
| PlacesTable.MenuMatchesServer | components/organisms/PlacesTable.tsx:607-621 | the row's edit and delete items are enabled exactly for the users the server lets modify the place |
| PlacesTable.VerifyOffered | components/organisms/PlacesTable.tsx:596 | the Verify item appears only on UNVERIFIED places |
| PlacesTable.VerifyOfferedFilesPendingRecord | components/organisms/PlacesTable.tsx:290-304 | Verify on an offered row, with a link, files a PENDING record for that place; the place stays UNVERIFIED, so the item stays offered |
| PlacesTable.ConfirmVerify | components/organisms/PlacesTable.tsx:290-304 | a proof is submitted only with a selected place and a non-empty link, and it carries both |
| PlaceForm.DefaultFormDataIsBlank | components/organisms/PlaceForm.tsx:67-101 | a new form proposes PENDING, with empty text, switches off and no chips |
| PlaceForm.Toggle | components/organisms/PlaceForm.tsx:186-202 | a present chip is removed with all its copies and nothing else, the rest in order; an absent one is appended |
| PlaceForm.ToggleTwice | components/organisms/PlaceForm.tsx:186-202 | toggling an absent chip twice restores the list |
| PlaceForm.ToggleSeatingType | components/organisms/PlaceForm.tsx:186-193 | only the seating list changes, by the toggle; the admin dialog's updater at components/admin/PlacesTable.tsx lines 199-206 is the same |
| PlaceForm.ToggleCommonVisitor | components/organisms/PlaceForm.tsx:195-202 | only the visitor list changes, by the toggle; the admin dialog's updater at lines 208-215 of the admin table is the same |
| PlaceForm.SeatingChipClickedTwice | components/organisms/PlaceForm.tsx:186-193 | clicking an unselected seating chip twice leaves the whole form as it was |
| PlaceForm.VisitorChipClickedTwice | components/organisms/PlaceForm.tsx:195-202 | clicking an unselected visitor chip twice leaves the whole form as it was |
| PlaceForm.SetWifi | components/organisms/PlaceForm.tsx:392-400 | the WiFi switch clears speed, stability and policy whichever way it goes, and changes nothing else; the admin dialog's switch (line 371 of the admin table) is the same update |
| PlaceForm.SetPower | components/organisms/PlaceForm.tsx:456-458 | the power switch clears the density and changes nothing else; the admin dialog's switch (line 414 of the admin table) is the same update |
| PlaceForm.UpdateTime | components/organisms/PlaceForm.tsx:158-161 | the picker reports the empty string exactly when both times are empty |
| PlaceForm.ParseRange | components/organisms/PlaceForm.tsx:156 | the empty value reads as two empty times |
| PlaceForm.ParseSingleTime | components/organisms/PlaceForm.tsx:156 | a value without the separator reads as the start with an empty end |
| PlaceForm.ParseUpdateTime | components/organisms/PlaceForm.tsx:156-161 | reading back what the picker wrote gives both times, an empty one as 00:00, or two empty times when both were empty |
| PlaceForm.EditOneEnd | components/organisms/PlaceForm.tsx:167-178 | changing one end of a written range keeps the other end |
| AdminPlacesTable.HandleVerify | components/admin/PlacesTable.tsx:154 | the Verify action always requests VERIFIED_ADMIN: an admin's request marks that place so and no other, and the menu item then disappears |
| AdminPlacesTable.VerifyMenuShown | components/admin/PlacesTable.tsx:672 | the admin menu offers Verify on every place not yet VERIFIED_ADMIN |
| AdminPlacesTable.VerifyShownIffItChangesTheRow | components/admin/PlacesTable.tsx:672 | Verify is offered exactly on the rows that the action would change |
| AdminPlacesTable.StatusBadge | components/admin/PlacesTable.tsx:192-197 | the four listed statuses get their variants and every other status gets outline; the label is the status with each `_` as a space |
| AdminPlacesTable.BadgeLabelsDistinct | components/admin/PlacesTable.tsx:196 | no two statuses share a label |
| AdminPlacesTable.BuildPayload | components/admin/PlacesTable.tsx:160-180 | empty text becomes undefined, empty chip lists become undefined, and name, address, status and every switch pass through |
| AdminPlacesTable.Restore | components/admin/PlacesTable.tsx:160-180 | the form a payload stands for: each undefined field back to an empty box, the numeric fields from the given form |
| AdminPlacesTable.RestoreBuildPayload | components/admin/PlacesTable.tsx:160-180 | the payload loses nothing of the form except its numeric fields |
| AdminPlacesTable.BuildPayloadRestore | components/admin/PlacesTable.tsx:160-180 | every payload without present-but-empty fields is built from some form |
| AdminPlacesTable.SwitchesClearSubmittedDetails | components/admin/PlacesTable.tsx:371-414 | after a WiFi or power switch the dialog submits no detail answers for it |
| AdminPlacesTable.ToInput | app/actions/places.ts:265-308 | `createPlace` reads the name, address, description, status and switches of the payload as given, and a column holds a value exactly when the payload defines one |
| AdminPlacesTable.ToInputKeepsPayload | app/actions/places.ts:265-308 | every non-numeric field of the payload, including the seating and visitor lists and the six yes/no columns, reaches `createPlace`: the payload is read back from its input |
| AdminPlacesTable.CreatedFromDialog | components/admin/PlacesTable.tsx:182-184 | a place created from the dialog has the form's name, address, description and switches, takes the form's status when an admin creates it and UNVERIFIED otherwise, and its row gives the whole form back except the numeric fields |
| Sidebar.VisibleItems | components/admin/Sidebar.tsx:10-19 | the items form an order-preserving subsequence of all items; an admin sees all of them; anyone else never sees an admin-only item but sees every other one |
| Sidebar.Visible | components/admin/Sidebar.tsx:19 | an item is visible when it is not admin-only or the role is ADMIN |
| Sidebar.NonAdminItems | components/admin/Sidebar.tsx:10-19 | anyone who is not an admin sees Overview and Places, in that order |
| Sidebar.IsActive | components/admin/Sidebar.tsx:31-32 | an exact match, or a prefix match for every item but /dashboard |
| Sidebar.ActiveRule | components/admin/Sidebar.tsx:31-32 | an exact match is always active; /dashboard is active only on an exact match; any other item is active on every path that starts with its href |
| Sidebar.NoSegmentBoundary | components/admin/Sidebar.tsx:31-32 | there is no `/` boundary: /dashboard/placesx highlights Places, and /dashboard/places does not highlight Overview |

## Left out

- The radius search (`ST_DWithin` over PostGIS geography, app/actions/places.ts:34-41) is raw SQL over floating-point coordinates. Its result is the input `nearby`, a set of ids.
- Numeric parsing and formatting (`parseFloat`, `parseInt`, `String(n)`, `toFixed`) are float-based. `AdminPlacesTable.Payload` therefore has no numeric fields, and `Restore` takes them from the form. For the same reason the numeric columns that `createPlace` stores (`latitude`, `longitude`, `price_level`, `average_drink_price`, `minimum_spend`, `wifi_speed`, `work_friendly_score`) are not in `details`. A page number is rendered only as a natural number.
- Password hashing and comparison (bcrypt), NextAuth's `signIn`/`signOut` and session cookies come from foreign libraries. `hash` is a parameter, `signIn` is given by its outcome, and `logout` is a plain `signOut` call with nothing to model.
- Sending the verification email and `console.error` logging are I/O.
- `revalidatePath` is recorded as a list of paths, and `router.push` is represented by the query it would serialise. No page cache and no URL serialisation are modelled.
- Concurrency: no other request runs between an action's read and its write, so a row that vanishes between `updatePlace`'s lookup and its update is not modelled.
- Database failures: every `catch` branch of the read actions (`getPlaces`, `getPlacesList`, `getVerifications`, `getUsersList`) handles errors of the database itself. Only the failures that the modelled inputs cause are modelled: a negative `skip` and an unknown status.
- prisma/schema.prisma is not part of this model. Referential actions (cascading deletes) and timestamps are not modelled. A delete removes only its own row. The non-numeric columns that no rule looks at are kept in `details`, keyed by `DetailColumn`.
- `Places.DetailsAccepted`: which values each enum column admits comes from the schema, which is not part of this model. It is the parameter `accepts` of the three writes; a refused value takes the write's `catch` branch.
- `Places.SubmittedPlace`: `submitPlace` passes the switches through `...data` and leaves an absent one to the column default. The model stores `false`, taking that to be the default.
- `Text.Lower`/`Text.UpperChar`: case mapping is ASCII only, and Prisma's `mode: 'insensitive'` is modelled by the same mapping.
- `VerifyRoute.Decode`: `decodeURIComponent` also turns UTF-8 escape sequences into non-ASCII characters and throws a `URIError` on a malformed escape. The model leaves escapes from `%80` up as text, because the messages the handler encodes are ASCII.
- `VerifyRoute.VerifyStep`: route.ts reads the clock twice, at line 33 for the expiry check and at line 52 for `email_verified`. The model takes both reads to be the same instant `now`.
- `VerifyRoute.EncodeChar`: non-ASCII characters are left as they are instead of being written as UTF-8 escapes, since every message the handler encodes is ASCII.
- `Auth.Authenticate`: a form without an email field (`formData.get` returning null) is not distinguished from an empty email.
- `Places.GetPlacesList` and `Users.GetUsersList`: a `limit` below 1 is not modelled. The callers always send a positive page size, and `take` with a non-positive `limit` has database-specific behaviour.
- `PlacesTable.HandleSort`: any sort key string is accepted, as in the source. Whether the database accepts the column is not modelled.
- `handleEdit` of the admin table (components/admin/PlacesTable.tsx:128-151) converts stored numbers to text. It is float formatting plus `|| ''` defaults, so it is not modelled.
- Rendering-only components, route-guard layouts, page components and the seed script carry no rules beyond those modelled and are not part of this model.
