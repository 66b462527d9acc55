# RBAC admin console — a Dafny model of its handlers

The console is a React single-page application that keeps two collections,
users and roles, in the browser's local storage. Its logic is the handful of
event handlers of four components:

- the **role pane** (`ManageRole`): add, edit, delete and search roles, and the
  role form's submit guard;
- the **user pane** (`ManageUsers`): add, edit, delete and search users;
- the **user form** (`UserComponent`), mounted inside the user pane: the email
  and contact-number checks, the submit handler that writes the store and then
  calls back into the pane, and the form reset;
- the **login page** (`Login`): the decision whether to enter the dashboard.

Files and modules:

- `collections.dfy`, module `Collections`: the array operations the handlers
  use (`some`, `filter`, conditional `map`, `find`), proved once: what a filter
  keeps (every occurrence of a kept value, nothing else, in order), what a
  replacement changes, which element `find` returns.
- `text.dfy`, module `Text`: per-character lowering and substring search.
- `records.dfy`, module `Records`: the `User` and `Role` records and the
  `LocalStorage` class, whose `users` and `roles` fields stand for the two
  stored entries.
- `login.dfy`, module `Login`: `HandleLogin` as a function to a `LoginOutcome`.
- `manage_role.dfy`, module `ManageRole`: the pure list transformations and the
  `RoleManager` class, whose methods update the pane's `roles` and write them
  through to the store.
- `manage_users.dfy`, module `ManageUsers`: the same for users, class
  `UserManager`.
- `user_component.dfy`, module `UserComponent`: the two format checks, their
  characterisations, and the `UserForm` class with its seven form inputs, its
  error text and the loaded roles.

Each pane class holds its own `store` reference; the panes are meant to be
built over one shared `LocalStorage` object, which is how the application puts
them together, but nothing in the model forces the two references to be equal.
The user form holds a reference to the pane that hosts it and reads the roles
from that pane's store (`UserForm.LoadRoles`); its `userToEdit`, `addUser`, `editUser` and `clearEdit`
are the pane's. Every method that changes a pane's list
writes the same list to the store (`InSync`).

A behaviour the model exposes: when a user is edited and the username is
changed, the form first writes a list in which the record with the original
username is replaced, but then calls the pane's `editUser`, which matches on
the new username and writes the pane's list to the store again. The submit
leaves the store holding the pane's list with every record under the
sanitised new username replaced (`UserComponent.UserForm.HandleSubmit`). When
no stored user has the sanitised new username and the pane's list agreed with
the store, nothing matches and the store ends as it was before the submit
(`UserComponent.EditRenameIsLost`, `UserComponent.RenameThroughFormIsLost`).

Other behaviours of the code worth knowing:

- an edited user is finally matched by its new username
  (src/components/ManageUsers.js:56-58);
- deleting a user or a role removes every record with that key, so the length
  drops by the number of matches (src/components/ManageRole.js:57,
  src/components/ManageUsers.js:67-69);
- a first login match whose role is neither "admin", "user" nor "guest" gets no
  message at all (src/components/Login.js:44-45);
- the add-user uniqueness check compares the username as typed, while the
  stored record holds the sanitised username
  (src/components/UserComponent.js:76 and 91).

## Model

| member | source | states |
|---|---|---|
| `Login.HandleLogin` | src/components/Login.js:11-51 | an empty username or password gives MissingFields; with both filled, a parse failure gives ReadError and a value that is null or not an array gives Silent |
| `Login.NavigateIffFirstMatchIsAdmin` | src/components/Login.js:28-40 | the outcome is Navigate exactly when both fields are filled, the stored value is a list, and the first record matching both username and password has role "admin" |
| `Login.NotAdminIffFirstMatchIsUserOrGuest` | src/components/Login.js:41-43 | the outcome is NotAdmin exactly when the first record matching both credentials has role "user" or "guest" |
| `Login.NoUserDataIffNoMatch` | src/components/Login.js:47-49 | the outcome is NoUserData exactly when the list holds no record matching both credentials |
| `Login.SilentCases` | src/components/Login.js:28-50 | the outcome is Silent exactly when the stored value is not a list, or the first match has a role other than "admin", "user" and "guest" |
| `Login.FirstMatchDecides` | src/components/Login.js:30-32 | when position i holds the first record matching both credentials, `find` returns that record |
| `Login.Credentials` | src/components/Login.js:30-32 | the `find` predicate: a record matches when both its username and its password equal the entered ones |
| `Collections.Find` | src/components/Login.js:30-32 | `find` returns nothing exactly when no element matches, and otherwise the element at the first matching position |
| `Collections.Any` | src/components/ManageRole.js:29 | the JS `some`: true exactly when some element satisfies the predicate |
| `Collections.Filter` | src/components/ManageRole.js:57 | the JS `filter`: its length is the number of elements kept, and every element of the result is an element of the input that is kept |
| `Collections.Replace` | src/components/ManageRole.js:41-43 | the JS conditional `map`: the length is kept, each matching position holds the replacement and every other one is unchanged |
| `Text.Lowered` | src/components/ManageRole.js:76 | `toLowerCase` as the given lowering applied to each character |
| `Text.Includes` | src/components/ManageRole.js:76 | `includes`: the search text occurs as a contiguous block, so it is no longer than the text, and as long only when equal to it |
| `ManageRole.RoleNameTaken` | src/components/ManageRole.js:29 | true exactly when some stored role has the given name |
| `ManageRole.AppendedRoles` | src/components/ManageRole.js:28-36 | a taken name leaves the list unchanged; a fresh one gives length plus one, the old list as prefix and the new role last |
| `ManageRole.AddKeepsNamesDistinct` | src/components/ManageRole.js:29-34 | if role names were pairwise distinct before an add, they still are after it |
| `ManageRole.EditedRoles` | src/components/ManageRole.js:41-43 | length is kept; each position whose name equals the edited role's name holds the updated role, every other position is unchanged |
| `ManageRole.EditCanDuplicateNames` | src/components/ManageRole.js:41-43 | editing does not check the new name: two distinct roles can end up sharing one |
| `ManageRole.RemainingRoles` | src/components/ManageRole.js:57 | no role with the deleted name is left; every other role keeps its multiplicity and order; the length drops by the number of roles with that name |
| `ManageRole.FilteredRoles` | src/components/ManageRole.js:75-77 | an order-preserving subsequence holding, with their multiplicity, exactly the roles whose lowered name contains the lowered search text |
| `ManageRole.EmptySearchShowsAll` | src/components/ManageRole.js:75-77 | an empty search returns all roles |
| `ManageRole.CheckedPermissions` | src/components/ManageRole.js:13-22 | the submitted permissions are the ticked labels among the form's eight, in display order |
| `ManageRole.RoleManager.constructor` | src/components/ManageRole.js:7-10 | the pane starts with the stored roles and no role being edited |
| `ManageRole.RoleManager.AddRole` | src/components/ManageRole.js:28-38 | a taken name changes neither the pane nor the store; otherwise the role is appended and the store holds the new list |
| `ManageRole.RoleManager.EditRole` | src/components/ManageRole.js:40-49 | the pane's list becomes the edited list, the store holds it, and the edit ends |
| `ManageRole.RoleManager.HandleEdit` | src/components/ManageRole.js:51-54 | the form now edits the given role |
| `ManageRole.RoleManager.ClearEdit` | src/components/ManageRole.js:72-74 | no role is being edited |
| `ManageRole.RoleManager.DeleteRole` | src/components/ManageRole.js:56-62 | the pane's list becomes the remaining roles and the store holds it |
| `ManageRole.RoleManager.Submit` | src/components/ManageRole.js:114-133 | an empty role name changes nothing; otherwise the role is edited when an edit is under way and added (or refused as taken) when not |
| `ManageUsers.EditedUsers` | src/components/ManageUsers.js:55-58 | length is kept; exactly the positions whose username equals the new record's username hold the new record |
| `ManageUsers.EditWithUnknownUsernameChangesNothing` | src/components/ManageUsers.js:56-58 | an edit whose record has a username no stored user has leaves the list unchanged |
| `ManageUsers.RemainingUsers` | src/components/ManageUsers.js:66-69 | no user with that username is left; the others keep multiplicity and order; the length drops by the number of matches |
| `ManageUsers.FilteredUsers` | src/components/ManageUsers.js:76-78 | an order-preserving subsequence holding exactly the users whose lowered name contains the lowered search text |
| `ManageUsers.EmptySearchShowsAll` | src/components/ManageUsers.js:76-78 | an empty search returns all users |
| `ManageUsers.UserManager.constructor` | src/components/ManageUsers.js:36-40 | the pane starts with the stored users and no user being edited |
| `ManageUsers.UserManager.AddUser` | src/components/ManageUsers.js:48-53 | the new user is appended with no uniqueness check and the store holds the new list |
| `ManageUsers.UserManager.EditUser` | src/components/ManageUsers.js:55-64 | the pane's list becomes the edited list, the store holds it, and the edit ends |
| `ManageUsers.UserManager.DeleteUser` | src/components/ManageUsers.js:66-74 | the pane's list becomes the remaining users and the store holds it |
| `ManageUsers.UserManager.StartEdit` | src/components/ManageUsers.js:178-181 | the form now edits the given user |
| `ManageUsers.UserManager.ClearEdit` | src/components/ManageUsers.js:84-86 | no user is being edited |
| `UserComponent.ValidateEmail` | src/components/UserComponent.js:45-48 | the pattern `^[^\s@]+@[^\s@]+\.[^\s@]+$` matches the whole text: it splits at an `@` and a later `.` into three non-empty runs without whitespace or `@`; an accepted text has at least five characters and contains `@` and `.` |
| `UserComponent.ValidateContactNo` | src/components/UserComponent.js:50-53 | the pattern `^[0-9]{10}$` matches the whole text; an accepted text has exactly ten characters |
| `UserComponent.ValidateEmailIffShape` | src/components/UserComponent.js:45-48 | an email passes exactly when it has no whitespace and exactly one `@`, something before it, and after it a `.` with text on both sides |
| `UserComponent.ValidateContactNoIff` | src/components/UserComponent.js:50-53 | a contact number passes exactly when it has ten characters, each a decimal digit |
| `UserComponent.DigitRunIff` | src/components/UserComponent.js:51 | the pattern of n digits matches exactly the texts of length n made of digits |
| `UserComponent.DefaultRole` | src/components/UserComponent.js:40 | the first role's name when there are roles, the empty string otherwise |
| `UserComponent.EnteredUser` | src/components/UserComponent.js:70-78 | the submitted record: the five typed fields sanitised, role and status as selected; with a sanitiser that changes nothing it holds exactly the form's fields |
| `UserComponent.UsernameExists` | src/components/UserComponent.js:91 | true exactly when some stored user has the username as typed |
| `UserComponent.RewrittenForEdit` | src/components/UserComponent.js:84-88 | the first write of the edit path keeps the length and replaces exactly the records with the original username |
| `UserComponent.EditRenameIsLost` | src/components/UserComponent.js:84-89 | with a new username no stored user has, the first write changes the list but the pane's `editUser` leaves it as it was |
| `UserComponent.RegisterKeepsUsernamesDistinct` | src/components/UserComponent.js:91-100 | an add that passes the check keeps usernames distinct when sanitising leaves the username as typed |
| `UserComponent.SanitisedUsernameCanDuplicate` | src/components/UserComponent.js:76-91 | for every sanitiser, stored list and form: a typed username no one has, whose sanitised form someone has, passes the check and is stored as a duplicate |
| `UserComponent.SanitisedDuplicateExample` | src/components/UserComponent.js:76-91 | such inputs exist: with an escaped "a&amp;b" stored, typing "a&b" stores a second "a&amp;b" |
| `UserComponent.UserForm.constructor` | src/components/UserComponent.js:6-14 | all fields empty, status "active", no roles loaded |
| `UserComponent.UserForm.LoadRoles` | src/components/UserComponent.js:17-23 | the form's roles are the stored roles, and the first one is preselected when there is one |
| `UserComponent.UserForm.SyncForm` | src/components/UserComponent.js:25-43 | the fields are those of the user being edited, or blank with the default role and status "active" |
| `UserComponent.UserForm.HandleSubmit` | src/components/UserComponent.js:61-114 | email is checked before contact number, a failure sets its error and changes nothing else; on edit the store ends as the pane's `editUser` leaves it; on add a stored username is refused, a fresh one appended; a completed submit resets the form |
| `UserComponent.UserForm.ResetAfterSubmit` | src/components/UserComponent.js:105-113 | fields blank, role the default role, status "active", no edit under way, no error |
| `UserComponent.RenameThroughFormIsLost` | src/components/UserComponent.js:84-89 | a whole session that opens a stored user, changes the username to an unused one and submits completes as an edit and leaves the store unchanged |

## Left out

- Rendering: the JSX, the `Modal` component, CSS classes and icons are presentation only.
- Notifications: toasts appear only as outcome tags (`LoginOutcome`, `RoleSubmit`, `SubmitOutcome`) and as the form's `error` text.
- Navigation: the move to `/Dashboard` and its three-second timer are the `Navigate` outcome.
- Storage format: local storage is two sequence fields; JSON text is not modelled. A malformed stored entry, which makes the panes' and the form's `JSON.parse` throw, is not modelled; the login page's read is the `StoredUsers` result, and stored records are taken to be well-formed user records.
- Sanitising: `sanitizeInput` relies on the browser's HTML escaping, so it is a function parameter of `HandleSubmit`.
- Lowering: `toLowerCase` is a per-character function parameter. Unicode lowerings that change a string's length, and context-dependent ones (the final-sigma rule, which lowers "Σ" to "ς" at the end of a word), are not captured.
- React scheduling: the two effects of the user form are methods called in an explicit order; state batching and re-render order are not modelled.
- UI state: `activeSection`, `selectedRole`, `selectedUser`, `handleDelete`, `closeModal`, `e.target.reset()` and the search inputs' state (the search text is a parameter of the filter functions).
- The unused `users` prop that the user pane passes to the form.
- Routing in `src/App.js`, including its standalone `/register` page, where the form is mounted without the pane's callbacks.
- Permission gating of controls by the logged-in role's permissions: the modelled components do not implement it.
